/** Grep-style guards (scripts/guard_lib.py, lines 36-233): one traversal shared by several guards
    (scripts/check_grep_guards_batch.py, lines 205-237) against one traversal for each guard alone. */
module GuardScan {
  import opened Text

  const SKIP_PATH_FRAGMENTS: seq<string> := [
    "/.venv/", "/.venv-py312/", "/.git/", "/node_modules/", "/__pycache__/", "/.claude/worktrees/",
    "/.claude/twin-workspaces/", "/.data/", "/.reviews/", "/.experiences/", "/old/", "/.legacy_cache/", "/dist/",
    "/dist-vite/", "/build/"]

  /** A listed path: relative, with its suffix; `lines` is missing when the file cannot be read. */
  datatype File = File(rel: string, suffix: string, isFile: bool, lines: Option<seq<string>>)

  datatype Violation = Violation(path: string, lineno: nat, line: string, reason: string)

  /** A line matcher gives a reason when it matches. */
  type Matcher = string -> Option<string>

  datatype GuardSpec = GuardSpec(id: string, extensions: seq<string>, matcher: Matcher, roots: Option<seq<string>>,
                                 allowedFiles: seq<string>, markers: seq<string>, exempt: Option<string>,
                                 skip: seq<string>)

  predicate IsSkipped(rel: string, fragments: seq<string>) {
    exists i :: 0 <= i < |fragments| && Contains("/" + rel, fragments[i])
  }

  function TrimSlashes(r: string): string {
    if r != "" && r[|r| - 1] == '/' then TrimSlashes(r[..|r| - 1]) else r
  }

  predicate UnderRoot(rel: string, roots: seq<string>) {
    exists i :: 0 <= i < |roots| && (rel == TrimSlashes(roots[i]) || StartsWith(rel, TrimSlashes(roots[i]) + "/"))
  }

  // ----- exempted lines

  /** Python's `line.find(marker)`. */
  method Find(line: string, marker: string) returns (idx: int)
    ensures idx == -1 ==> !Contains(line, marker)
    ensures idx != -1 ==> OccursAt(line, marker, idx) && forall k :: 0 <= k < idx ==> !OccursAt(line, marker, k)
  {
    idx := 0;
    while idx + |marker| <= |line|
      invariant 0 <= idx
      invariant forall k :: 0 <= k < idx ==> !OccursAt(line, marker, k)
      decreases |line| - idx
    {
      if line[idx..idx + |marker|] == marker {
        return;
      }
      idx := idx + 1;
    }
    idx := -1;
  }

  /** The marker occurs and some character after it is not a space. */
  predicate ReasonedExempt(line: string, marker: string) {
    exists k :: 0 <= k <= |line| && OccursAt(line, marker, k) && !Blank(line[k + |marker|..])
  }

  /** The line is exempt when it reads as something, the marker and a text that is not blank. */
  lemma ReasonedExemptIff(line: string, marker: string)
    ensures ReasonedExempt(line, marker) <==> exists a, b :: line == a + marker + b && !Blank(b)
  {
    if k :| 0 <= k <= |line| && OccursAt(line, marker, k) && !Blank(line[k + |marker|..]) {
      assert line == line[..k] + marker + line[k + |marker|..];
    }
    if a, b :| line == a + marker + b && !Blank(b) {
      assert line[|a|..|a| + |marker|] == marker && line[|a| + |marker|..] == b;
      assert OccursAt(line, marker, |a|);
    }
  }

  /** Only the first occurrence is looked at; that is enough, since what follows a later one also follows it. */
  method LineHasReasonedExempt(line: string, marker: string) returns (exempt: bool)
    ensures exempt <==> ReasonedExempt(line, marker)
  {
    var idx := Find(line, marker);
    if idx == -1 {
      return false;
    }
    var reason := Strip(line[idx + |marker|..]);
    StripEmptyIff(line[idx + |marker|..]);
    exempt := reason != "";
    forall k | 0 <= k <= |line| && OccursAt(line, marker, k) && !Blank(line[k + |marker|..])
      ensures !Blank(line[idx + |marker|..])
    {
      var rest, later := line[idx + |marker|..], line[k + |marker|..];
      assert idx <= k;
      var i :| 0 <= i < |later| && !IsSpace(later[i]);
      assert rest[k - idx + i] == later[i];
    }
  }

  // ----- one file

  predicate Listed(line: string, markers: seq<string>) {
    exists i :: 0 <= i < |markers| && Contains(line, markers[i])
  }

  function ScanLine(spec: GuardSpec, rel: string, lineno: nat, line: string): seq<Violation> {
    if Listed(line, spec.markers) then []
    else if spec.exempt.Some? && spec.exempt.value != "" && ReasonedExempt(line, spec.exempt.value) then []
    else if spec.matcher(line).Some? then [Violation(rel, lineno, line, spec.matcher(line).value)]
    else []
  }

  function ScanSomeLines(spec: GuardSpec, rel: string, lines: seq<string>): seq<Violation> {
    if lines == [] then []
    else ScanSomeLines(spec, rel, lines[..|lines| - 1]) + ScanLine(spec, rel, |lines|, lines[|lines| - 1])
  }

  function ScanFile(spec: GuardSpec, file: File): seq<Violation> {
    if file.lines == None then [] else ScanSomeLines(spec, file.rel, file.lines.value)
  }

  method ScanLines(spec: GuardSpec, file: File) returns (out: seq<Violation>)
    ensures out == ScanFile(spec, file)
  {
    out := [];
    if file.lines == None {
      return;
    }
    var lines := file.lines.value;
    for k := 0 to |lines|
      invariant out == ScanSomeLines(spec, file.rel, lines[..k])
    {
      var line := lines[k];
      assert lines[..k + 1][..k] == lines[..k] && lines[..k + 1][k] == line;
      if exists i :: 0 <= i < |spec.markers| && Contains(line, spec.markers[i]) {
        continue;
      }
      if spec.exempt.Some? && spec.exempt.value != "" {
        var exempt := LineHasReasonedExempt(line, spec.exempt.value);
        if exempt {
          continue;
        }
      }
      var matched := spec.matcher(line);
      if matched.Some? {
        out := out + [Violation(file.rel, k + 1, line, matched.value)];
      }
    }
    assert lines[..|lines|] == lines;
  }

  // ----- enumerating files

  /** What `iter_files` yields for a file; empty extensions and empty roots mean no restriction. */
  predicate Yields(f: File, extensions: seq<string>, roots: Option<seq<string>>, skip: seq<string>,
                   allowedFiles: seq<string>)
  {
    f.isFile
    && (extensions == [] || f.suffix in extensions)
    && !IsSkipped(f.rel, skip)
    && f.rel !in allowedFiles
    && (roots.Some? && roots.value != [] ==> UnderRoot(f.rel, roots.value))
  }

  function IterFiles(tracked: seq<File>, extensions: seq<string>, roots: Option<seq<string>>, skip: seq<string>,
                     allowedFiles: seq<string>): seq<File>
  {
    if tracked == [] then []
    else IterFiles(tracked[..|tracked| - 1], extensions, roots, skip, allowedFiles)
         + if Yields(tracked[|tracked| - 1], extensions, roots, skip, allowedFiles) then [tracked[|tracked| - 1]]
           else []
  }

  method ComputeIterFiles(tracked: seq<File>, extensions: seq<string>, roots: Option<seq<string>>,
                          skip: seq<string>, allowedFiles: seq<string>) returns (files: seq<File>)
    ensures files == IterFiles(tracked, extensions, roots, skip, allowedFiles)
  {
    files := [];
    for k := 0 to |tracked|
      invariant files == IterFiles(tracked[..k], extensions, roots, skip, allowedFiles)
    {
      var f := tracked[k];
      assert tracked[..k + 1][..k] == tracked[..k] && tracked[..k + 1][k] == f;
      if !f.isFile {
        continue;
      }
      if extensions != [] && f.suffix !in extensions {
        continue;
      }
      if IsSkipped(f.rel, skip) {
        continue;
      }
      if f.rel in allowedFiles {
        continue;
      }
      if roots.Some? && roots.value != [] && !UnderRoot(f.rel, roots.value) {
        continue;
      }
      files := files + [f];
    }
    assert tracked[..|tracked|] == tracked;
  }

  // ----- one guard alone

  /** The files one guard scans when it enumerates them itself. */
  function OwnFiles(spec: GuardSpec, tracked: seq<File>): seq<File> {
    IterFiles(tracked, spec.extensions, spec.roots, spec.skip, spec.allowedFiles)
  }

  function ScanAll(spec: GuardSpec, files: seq<File>): seq<Violation> {
    if files == [] then [] else ScanAll(spec, files[..|files| - 1]) + ScanFile(spec, files[|files| - 1])
  }

  // ----- all guards in one traversal

  function UnionExtensions(specs: seq<GuardSpec>): seq<string> {
    if specs == [] then [] else specs[0].extensions + UnionExtensions(specs[1..])
  }

  /** Whether the shared traversal hands a file to a guard. */
  predicate Takes(spec: GuardSpec, f: File) {
    f.suffix in spec.extensions
    && (spec.roots.Some? ==> UnderRoot(f.rel, spec.roots.value))
    && f.rel !in spec.allowedFiles
    && !IsSkipped(f.rel, spec.skip)
  }

  datatype Tally = Tally(violations: seq<Violation>, scanned: nat)

  function Add(a: Tally, b: Tally): Tally {
    Tally(a.violations + b.violations, a.scanned + b.scanned)
  }

  /** What a guard's id gathers from one file, over all guards with that id. */
  function GatherFile(specs: seq<GuardSpec>, id: string, f: File): Tally {
    if specs == [] then Tally([], 0)
    else
      var before, last := GatherFile(specs[..|specs| - 1], id, f), specs[|specs| - 1];
      if last.id == id && Takes(last, f) then Add(before, Tally(ScanFile(last, f), 1)) else before
  }

  function Gather(specs: seq<GuardSpec>, id: string, files: seq<File>): Tally {
    if files == [] then Tally([], 0)
    else Add(Gather(specs, id, files[..|files| - 1]), GatherFile(specs, id, files[|files| - 1]))
  }

  function SharedFiles(specs: seq<GuardSpec>, tracked: seq<File>): seq<File> {
    IterFiles(tracked, UnionExtensions(specs), None, SKIP_PATH_FRAGMENTS, [])
  }

  predicate HasId(specs: seq<GuardSpec>, id: string) {
    exists i :: 0 <= i < |specs| && specs[i].id == id
  }

  method ScanMany(specs: seq<GuardSpec>, tracked: seq<File>)
    returns (results: map<string, seq<Violation>>, scanned: map<string, nat>)
    ensures results.Keys == scanned.Keys == set i | 0 <= i < |specs| :: specs[i].id
    ensures forall id :: id in results ==>
      Tally(results[id], scanned[id]) == Gather(specs, id, SharedFiles(specs, tracked))
    ensures forall id, v :: id in results ==>
      (v in results[id] <==> SomeoneFinds(specs, id, tracked, v))
  {
    AllGathered(specs, tracked);
    ghost var ids := set i | 0 <= i < |specs| :: specs[i].id;
    results, scanned := map[], map[];
    for k := 0 to |specs|
      invariant results.Keys == scanned.Keys == set i | 0 <= i < k :: specs[i].id
      invariant forall id :: id in results ==> results[id] == [] && scanned[id] == 0
    {
      results, scanned := results[specs[k].id := []], scanned[specs[k].id := 0];
    }
    var files := ComputeIterFiles(tracked, UnionExtensions(specs), None, SKIP_PATH_FRAGMENTS, []);
    for j := 0 to |files|
      invariant results.Keys == scanned.Keys == ids
      invariant forall id :: id in ids ==> Tally(results[id], scanned[id]) == Gather(specs, id, files[..j])
    {
      assert files[..j + 1] == files[..j] + [files[j]];
      forall id ensures Gather(specs, id, files[..j + 1])
                     == Add(Gather(specs, id, files[..j]), GatherFile(specs, id, files[j])) {
      }
      results, scanned := ScanOneFile(specs, files[j], results, scanned);
    }
    assert files[..|files|] == files;
  }

  method ComputeTakes(s: GuardSpec, f: File) returns (takes: bool)
    ensures takes <==> Takes(s, f)
  {
    if f.suffix !in s.extensions {
      return false;
    }
    if s.roots.Some? && !UnderRoot(f.rel, s.roots.value) {
      return false;
    }
    if f.rel in s.allowedFiles {
      return false;
    }
    takes := !IsSkipped(f.rel, s.skip);
  }

  /** The inner loop: one file offered to every guard. */
  method ScanOneFile(specs: seq<GuardSpec>, f: File, before: map<string, seq<Violation>>, counts: map<string, nat>)
    returns (results: map<string, seq<Violation>>, scanned: map<string, nat>)
    requires before.Keys == counts.Keys && forall i :: 0 <= i < |specs| ==> specs[i].id in before
    ensures results.Keys == scanned.Keys == before.Keys
    ensures forall id :: id in results ==>
      Tally(results[id], scanned[id]) == Add(Tally(before[id], counts[id]), GatherFile(specs, id, f))
  {
    results, scanned := before, counts;
    for k := 0 to |specs|
      invariant results.Keys == scanned.Keys == before.Keys
      invariant forall id :: id in results ==>
        Tally(results[id], scanned[id]) == Add(Tally(before[id], counts[id]), GatherFile(specs[..k], id, f))
    {
      ghost var results0, scanned0 := results, scanned;
      results, scanned := OfferFile(specs[k], f, results, scanned);
      forall id | id in results
        ensures Tally(results[id], scanned[id])
             == Add(Tally(before[id], counts[id]), GatherFile(specs[..k + 1], id, f))
      {
        OfferStep(specs, k, f, id, Tally(before[id], counts[id]), Tally(results0[id], scanned0[id]),
                  Tally(results[id], scanned[id]));
      }
    }
    assert specs[..|specs|] == specs;
  }

  /** What one guard gathers in total after a file was offered to it. */
  function Offered(s: GuardSpec, f: File, id: string, t: Tally): Tally {
    if id == s.id && Takes(s, f) then Add(t, Tally(ScanFile(s, f), 1)) else t
  }

  lemma OfferStep(specs: seq<GuardSpec>, k: nat, f: File, id: string, start: Tally, mid: Tally, after: Tally)
    requires k < |specs| && mid == Add(start, GatherFile(specs[..k], id, f))
    requires after == Offered(specs[k], f, id, mid)
    ensures after == Add(start, GatherFile(specs[..k + 1], id, f))
  {
    assert specs[..k + 1] == specs[..k] + [specs[k]];
  }

  /** One file offered to one guard. */
  method OfferFile(s: GuardSpec, f: File, before: map<string, seq<Violation>>, counts: map<string, nat>)
    returns (results: map<string, seq<Violation>>, scanned: map<string, nat>)
    requires s.id in before && before.Keys == counts.Keys
    ensures results.Keys == scanned.Keys == before.Keys
    ensures forall id :: id in results ==>
      Tally(results[id], scanned[id]) == Offered(s, f, id, Tally(before[id], counts[id]))
  {
    results, scanned := before, counts;
    var takes := ComputeTakes(s, f);
    if takes {
      var found := ScanLines(s, f);
      scanned := scanned[s.id := scanned[s.id] + 1];
      results := results[s.id := results[s.id] + found];
    }
  }

  // ----- the shared traversal against the separate ones

  predicate DistinctIds(specs: seq<GuardSpec>) {
    forall i, j :: 0 <= i < j < |specs| ==> specs[i].id != specs[j].id
  }

  predicate Own(spec: GuardSpec, f: File) {
    Yields(f, spec.extensions, spec.roots, spec.skip, spec.allowedFiles)
  }

  /** A file that a guard would list itself but never gets from a shared traversal. */
  predicate Lost(spec: GuardSpec, f: File) {
    Own(spec, f)
    && (spec.extensions == [] || spec.roots == Some([]) || IsSkipped(f.rel, SKIP_PATH_FRAGMENTS))
  }

  predicate NoneLost(spec: GuardSpec, tracked: seq<File>) {
    forall i :: 0 <= i < |tracked| ==> !Lost(spec, tracked[i])
  }

  /** The files a guard lists itself, without the lost ones. */
  function KeptFiles(spec: GuardSpec, tracked: seq<File>): seq<File> {
    if tracked == [] then []
    else
      var f := tracked[|tracked| - 1];
      KeptFiles(spec, tracked[..|tracked| - 1]) + if Own(spec, f) && !Lost(spec, f) then [f] else []
  }

  lemma {:induction false} InUnion(specs: seq<GuardSpec>, i: nat, e: string)
    requires i < |specs| && e in specs[i].extensions
    ensures e in UnionExtensions(specs)
  {
    if i > 0 { InUnion(specs[1..], i - 1, e); }
  }

  lemma {:induction false} GatherOne(specs: seq<GuardSpec>, i: nat, f: File)
    requires i < |specs| && DistinctIds(specs)
    ensures GatherFile(specs, specs[i].id, f)
         == if Takes(specs[i], f) then Tally(ScanFile(specs[i], f), 1) else Tally([], 0)
  {
    var n := |specs| - 1;
    if i < n {
      GatherOne(specs[..n], i, f);
    } else {
      GatherNone(specs[..n], specs[i].id, f);
    }
  }

  lemma {:induction false} GatherNone(specs: seq<GuardSpec>, id: string, f: File)
    requires !HasId(specs, id)
    ensures GatherFile(specs, id, f) == Tally([], 0)
  {
    if specs != [] {
      var n := |specs| - 1;
      assert specs[n].id != id;
      GatherNone(specs[..n], id, f);
    }
  }

  predicate Shares(specs: seq<GuardSpec>, f: File) {
    Yields(f, UnionExtensions(specs), None, SKIP_PATH_FRAGMENTS, [])
  }

  lemma TakenIsKept(specs: seq<GuardSpec>, i: nat, f: File)
    requires i < |specs| && Shares(specs, f) && Takes(specs[i], f)
    ensures Own(specs[i], f) && !Lost(specs[i], f)
  {
  }

  lemma KeptIsTaken(specs: seq<GuardSpec>, i: nat, f: File)
    requires i < |specs| && Own(specs[i], f) && !Lost(specs[i], f)
    ensures Shares(specs, f) && Takes(specs[i], f)
  {
    InUnion(specs, i, f.suffix);
  }

  /** A guard takes from the shared traversal exactly the files it would list itself and that are not lost. */
  lemma TakesIffKept(specs: seq<GuardSpec>, i: nat, f: File)
    requires i < |specs|
    ensures Shares(specs, f) && Takes(specs[i], f) <==> Own(specs[i], f) && !Lost(specs[i], f)
  {
    if Shares(specs, f) && Takes(specs[i], f) { TakenIsKept(specs, i, f); }
    if Own(specs[i], f) && !Lost(specs[i], f) { KeptIsTaken(specs, i, f); }
  }

  lemma IterSnoc(tracked: seq<File>, f: File, extensions: seq<string>, roots: Option<seq<string>>, skip: seq<string>,
                 allowedFiles: seq<string>)
    ensures IterFiles(tracked + [f], extensions, roots, skip, allowedFiles)
         == IterFiles(tracked, extensions, roots, skip, allowedFiles)
            + if Yields(f, extensions, roots, skip, allowedFiles) then [f] else []
  {
    assert (tracked + [f])[..|tracked|] == tracked;
  }

  function Alone(spec: GuardSpec, files: seq<File>): Tally {
    Tally(ScanAll(spec, files), |files|)
  }

  /** One more tracked file, gathered by the shared traversal and listed by the guard. */
  lemma SharedStep(specs: seq<GuardSpec>, i: nat, before: seq<File>, f: File)
    requires i < |specs| && DistinctIds(specs)
    requires Gather(specs, specs[i].id, SharedFiles(specs, before)) == Alone(specs[i], KeptFiles(specs[i], before))
    ensures Gather(specs, specs[i].id, SharedFiles(specs, before + [f]))
         == Alone(specs[i], KeptFiles(specs[i], before + [f]))
  {
    var s := specs[i];
    TakesIffKept(specs, i, f);
    GatherOne(specs, i, f);
    GatherStep(specs, s, SharedFiles(specs, before), KeptFiles(s, before), f, Shares(specs, f), Takes(s, f));
  }

  lemma GatherStep(specs: seq<GuardSpec>, s: GuardSpec, shared: seq<File>, kept: seq<File>, f: File, shares: bool,
                   takes: bool)
    requires Gather(specs, s.id, shared) == Alone(s, kept)
    requires GatherFile(specs, s.id, f) == if takes then Tally(ScanFile(s, f), 1) else Tally([], 0)
    ensures Gather(specs, s.id, shared + if shares then [f] else [])
         == Alone(s, kept + if shares && takes then [f] else [])
  {
    if shares {
      if !takes { assert kept + [] == kept; }
    } else {
      assert shared + [] == shared && kept + [] == kept;
    }
  }

  /** With distinct ids, the shared traversal gives each guard exactly what scanning its kept files alone gives:
      violations, their order and the file count. */
  lemma {:induction false} SharedIsKept(specs: seq<GuardSpec>, i: nat, tracked: seq<File>)
    requires i < |specs| && DistinctIds(specs)
    ensures Gather(specs, specs[i].id, SharedFiles(specs, tracked)) == Alone(specs[i], KeptFiles(specs[i], tracked))
  {
    if tracked != [] {
      Unsnoc(tracked);
      SharedIsKept(specs, i, tracked[..|tracked| - 1]);
      SharedStep(specs, i, tracked[..|tracked| - 1], tracked[|tracked| - 1]);
    }
  }

  lemma {:induction false} KeptAreOwn(spec: GuardSpec, tracked: seq<File>)
    ensures |KeptFiles(spec, tracked)| <= |OwnFiles(spec, tracked)|
    ensures |KeptFiles(spec, tracked)| == |OwnFiles(spec, tracked)| <==> NoneLost(spec, tracked)
    ensures NoneLost(spec, tracked) ==> KeptFiles(spec, tracked) == OwnFiles(spec, tracked)
  {
    if tracked != [] {
      var n := |tracked| - 1;
      KeptAreOwn(spec, tracked[..n]);
      Unsnoc(tracked);
      IterSnoc(tracked[..n], tracked[n], spec.extensions, spec.roots, spec.skip, spec.allowedFiles);
      NoneLostSnoc(spec, tracked[..n], tracked[n]);
    }
  }

  lemma NoneLostSnoc(spec: GuardSpec, tracked: seq<File>, f: File)
    ensures NoneLost(spec, tracked + [f]) <==> NoneLost(spec, tracked) && !Lost(spec, f)
  {
    assert (tracked + [f])[|tracked|] == f;
    assert forall i :: 0 <= i < |tracked| ==> (tracked + [f])[i] == tracked[i];
  }

  /** The shared traversal scans as many files for a guard as the guard alone exactly when none of its files is lost,
      and then violations and their order agree too. */
  lemma SharedEqualsAloneIff(specs: seq<GuardSpec>, i: nat, tracked: seq<File>)
    requires i < |specs| && DistinctIds(specs)
    ensures var shared := Gather(specs, specs[i].id, SharedFiles(specs, tracked));
      (shared.scanned == |OwnFiles(specs[i], tracked)| <==> NoneLost(specs[i], tracked))
      && (shared == Alone(specs[i], OwnFiles(specs[i], tracked)) <==> NoneLost(specs[i], tracked))
  {
    SharedIsKept(specs, i, tracked);
    KeptAreOwn(specs[i], tracked);
  }

  /** A guard that loses nothing, whatever is tracked. */
  predicate Ordinary(spec: GuardSpec) {
    spec.extensions != []
    && (spec.roots.Some? ==> spec.roots.value != [])
    && forall i :: 0 <= i < |SKIP_PATH_FRAGMENTS| ==> SKIP_PATH_FRAGMENTS[i] in spec.skip
  }

  lemma OrdinaryLosesNothing(spec: GuardSpec, f: File)
    requires Ordinary(spec)
    ensures !Lost(spec, f)
  {
    if IsSkipped(f.rel, SKIP_PATH_FRAGMENTS) {
      var k :| 0 <= k < |SKIP_PATH_FRAGMENTS| && Contains("/" + f.rel, SKIP_PATH_FRAGMENTS[k]);
      var j :| 0 <= j < |spec.skip| && spec.skip[j] == SKIP_PATH_FRAGMENTS[k];
      assert IsSkipped(f.rel, spec.skip);
    }
  }

  /** So an ordinary guard gets exactly the violations, order and file count of scanning alone. */
  lemma SharedEqualsAlone(specs: seq<GuardSpec>, i: nat, tracked: seq<File>)
    requires i < |specs| && DistinctIds(specs) && Ordinary(specs[i])
    ensures Gather(specs, specs[i].id, SharedFiles(specs, tracked)) == Alone(specs[i], OwnFiles(specs[i], tracked))
  {
    forall k | 0 <= k < |tracked| ensures !Lost(specs[i], tracked[k]) { OrdinaryLosesNothing(specs[i], tracked[k]); }
    SharedEqualsAloneIff(specs, i, tracked);
  }

  // ----- what counts as a violation

  /** The line matches, carries no allowed marker, and no exemption with a reason applies to it. */
  ghost predicate Offends(spec: GuardSpec, line: string) {
    spec.matcher(line).Some? && (forall m :: m in spec.markers ==> !Contains(line, m))
    && forall m :: spec.exempt == Some(m) && m != "" ==> !ReasonedExempt(line, m)
  }

  ghost function OffendingLines(spec: GuardSpec, lines: seq<string>): nat -> bool {
    (k: nat) => k < |lines| && Offends(spec, lines[k])
  }

  /** The violation of a line: its path, its number from one on, the line and the matcher's reason. */
  ghost function LineViolation(spec: GuardSpec, path: string, lines: seq<string>): (nat, Violation) -> bool {
    (k: nat, v: Violation) =>
      k < |lines| && v.path == path && v.lineno == k + 1 && v.line == lines[k]
      && spec.matcher(lines[k]) == Some(v.reason)
  }

  lemma ScanLineIs(spec: GuardSpec, rel: string, lines: seq<string>, k: nat)
    requires k < |lines|
    ensures var more := ScanLine(spec, rel, k + 1, lines[k]);
      if OffendingLines(spec, lines)(k) then |more| == 1 && LineViolation(spec, rel, lines)(k, more[0]) else more == []
  {
    var line := lines[k];
    assert Listed(line, spec.markers) <==> exists m :: m in spec.markers && Contains(line, m);
  }

  lemma {:induction false} ScanSomeLinesIs(spec: GuardSpec, rel: string, lines: seq<string>, k: nat)
    requires k <= |lines|
    ensures Picks(k, OffendingLines(spec, lines), LineViolation(spec, rel, lines), ScanSomeLines(spec, rel, lines[..k]))
  {
    var keep, fits := OffendingLines(spec, lines), LineViolation(spec, rel, lines);
    if k == 0 {
      PicksNone(keep, fits);
    } else {
      ScanSomeLinesIs(spec, rel, lines, k - 1);
      ScanLineIs(spec, rel, lines, k - 1);
      assert lines[..k][..k - 1] == lines[..k - 1];
      PicksMore(k - 1, keep, fits, ScanSomeLines(spec, rel, lines[..k - 1]), ScanLine(spec, rel, k, lines[k - 1]));
    }
  }

  /** A guard finds in a readable file one violation for each offending line, in line order, and nothing else. */
  lemma ScanFileIs(spec: GuardSpec, file: File)
    ensures if file.lines == None then ScanFile(spec, file) == []
            else Picks(|file.lines.value|, OffendingLines(spec, file.lines.value),
                       LineViolation(spec, file.rel, file.lines.value), ScanFile(spec, file))
  {
    if file.lines.Some? {
      ScanSomeLinesIs(spec, file.rel, file.lines.value, |file.lines.value|);
      assert file.lines.value[..|file.lines.value|] == file.lines.value;
    }
  }

  /** Line `k` of the file offends, and this is its violation. */
  ghost predicate Offence(spec: GuardSpec, f: File, k: nat, v: Violation) {
    f.lines.Some? && k < |f.lines.value| && Offends(spec, f.lines.value[k])
    && v.path == f.rel && v.lineno == k + 1 && v.line == f.lines.value[k]
    && spec.matcher(f.lines.value[k]) == Some(v.reason)
  }

  lemma OffenceIff(spec: GuardSpec, f: File, lines: seq<string>, k: nat, v: Violation)
    requires f.lines == Some(lines)
    ensures Offence(spec, f, k, v)
            <==> k < |lines| && OffendingLines(spec, lines)(k) && LineViolation(spec, f.rel, lines)(k, v)
  {
  }

  lemma OneViolation(spec: GuardSpec, path: string, lines: seq<string>)
    ensures forall k, a, b ::
      LineViolation(spec, path, lines)(k, a) && LineViolation(spec, path, lines)(k, b) ==> a == b
  {
  }

  lemma FoundIff(spec: GuardSpec, f: File, v: Violation)
    ensures v in ScanFile(spec, f) <==> exists k: nat :: Offence(spec, f, k, v)
  {
    ScanFileIs(spec, f);
    if f.lines.Some? {
      var lines := f.lines.value;
      OneViolation(spec, f.rel, lines);
      PickedIff(|lines|, OffendingLines(spec, lines), LineViolation(spec, f.rel, lines), ScanFile(spec, f), v);
      forall k: nat { OffenceIff(spec, f, lines, k, v); }
    }
  }

  /** The shared traversal hands the file to the guard: it is a file with one of the guard's suffixes, under one of its
      roots if it has any, not allowed, and with none of the guard's or the shared fragments in its path. */
  ghost predicate Scans(spec: GuardSpec, f: File) {
    f.isFile && f.suffix in spec.extensions && f.rel !in spec.allowedFiles
    && (spec.roots.Some? ==> exists r :: r in spec.roots.value && InRoot(f.rel, r))
    && (forall x :: x in spec.skip ==> !Contains("/" + f.rel, x))
    && forall x :: x in SKIP_PATH_FRAGMENTS ==> !Contains("/" + f.rel, x)
  }

  predicate InRoot(rel: string, root: string) {
    rel == TrimSlashes(root) || TrimSlashes(root) + "/" <= rel
  }

  /** A root without the slashes at its end. */
  lemma {:induction false} TrimSlashesIs(root: string)
    ensures var t := TrimSlashes(root);
      t <= root && (t == "" || t[|t| - 1] != '/') && forall i :: |t| <= i < |root| ==> root[i] == '/'
  {
    if root != "" && root[|root| - 1] == '/' { TrimSlashesIs(root[..|root| - 1]); }
  }

  lemma SkippedIff(rel: string, fragments: seq<string>)
    ensures IsSkipped(rel, fragments) <==> exists x :: x in fragments && Contains("/" + rel, x)
  {
    if IsSkipped(rel, fragments) {
      var i :| 0 <= i < |fragments| && Contains("/" + rel, fragments[i]);
      assert fragments[i] in fragments;
    }
  }

  lemma UnderRootIff(rel: string, roots: seq<string>)
    ensures UnderRoot(rel, roots) <==> exists r :: r in roots && InRoot(rel, r)
  {
    if i :| 0 <= i < |roots| && InRoot(rel, roots[i]) { assert roots[i] in roots; }
    if r :| r in roots && InRoot(rel, r) {
      var i :| 0 <= i < |roots| && roots[i] == r;
    }
    assert forall i :: 0 <= i < |roots| ==> (InRoot(rel, roots[i]) <==>
      rel == TrimSlashes(roots[i]) || StartsWith(rel, TrimSlashes(roots[i]) + "/"));
  }

  lemma ScansIff(specs: seq<GuardSpec>, i: nat, f: File)
    requires i < |specs|
    ensures Scans(specs[i], f) <==> Shares(specs, f) && Takes(specs[i], f)
  {
    var s := specs[i];
    if f.suffix in s.extensions { InUnion(specs, i, f.suffix); }
    SkippedIff(f.rel, s.skip);
    SkippedIff(f.rel, SKIP_PATH_FRAGMENTS);
    if s.roots.Some? { UnderRootIff(f.rel, s.roots.value); }
  }

  lemma {:induction false} InIterFiles(tracked: seq<File>, f: File, extensions: seq<string>, roots: Option<seq<string>>,
                                       skip: seq<string>, allowedFiles: seq<string>)
    ensures f in IterFiles(tracked, extensions, roots, skip, allowedFiles)
            <==> f in tracked && Yields(f, extensions, roots, skip, allowedFiles)
  {
    if tracked != [] {
      InIterFiles(tracked[..|tracked| - 1], f, extensions, roots, skip, allowedFiles);
      Unsnoc(tracked);
    }
  }

  ghost predicate SomeGives(specs: seq<GuardSpec>, id: string, f: File, v: Violation) {
    exists i :: 0 <= i < |specs| && GivesFrom(specs[i], id, f, v)
  }

  lemma SomeGivesMore(before: seq<GuardSpec>, last: GuardSpec, all: seq<GuardSpec>, id: string, f: File, v: Violation)
    requires all == before + [last]
    ensures SomeGives(all, id, f, v) <==> SomeGives(before, id, f, v) || GivesFrom(last, id, f, v)
  {
    assert all[|before|] == last;
    if i :| 0 <= i < |before| && GivesFrom(before[i], id, f, v) { assert all[i] == before[i]; }
    if i :| 0 <= i < |all| && GivesFrom(all[i], id, f, v) { assert i < |before| ==> before[i] == all[i]; }
  }

  lemma {:induction false} InGatherFile(specs: seq<GuardSpec>, id: string, f: File, v: Violation)
    ensures v in GatherFile(specs, id, f).violations <==> SomeGives(specs, id, f, v)
  {
    if specs != [] {
      var before, last := specs[..|specs| - 1], specs[|specs| - 1];
      Unsnoc(specs);
      InGatherFile(before, id, f, v);
      SomeGivesMore(before, last, specs, id, f, v);
    }
  }

  predicate GivesFrom(s: GuardSpec, id: string, f: File, v: Violation) {
    s.id == id && Takes(s, f) && v in ScanFile(s, f)
  }

  lemma {:induction false} InGather(specs: seq<GuardSpec>, id: string, files: seq<File>, v: Violation)
    ensures v in Gather(specs, id, files).violations
            <==> exists f :: f in files && v in GatherFile(specs, id, f).violations
  {
    if files != [] {
      var before, last := files[..|files| - 1], files[|files| - 1];
      InGather(specs, id, before, v);
      Unsnoc(files);
      assert Gather(specs, id, files).violations
          == Gather(specs, id, before).violations + GatherFile(specs, id, last).violations;
      assert forall f :: f in files <==> f in before || f == last;
    }
  }

  /** Guard `i` finds this violation in this tracked file. */
  ghost predicate Finds(specs: seq<GuardSpec>, i: int, id: string, tracked: seq<File>, f: File, k: nat, v: Violation) {
    0 <= i < |specs| && specs[i].id == id && f in tracked && Scans(specs[i], f) && Offence(specs[i], f, k, v)
  }

  /** A violation is gathered for an id exactly when some guard with that id is handed a tracked file of which some line
      offends, and the violation is that line's. */
  lemma GatheredIff(specs: seq<GuardSpec>, id: string, tracked: seq<File>, v: Violation)
    ensures v in Gather(specs, id, SharedFiles(specs, tracked)).violations
            <==> exists i, f, k: nat :: Finds(specs, i, id, tracked, f, k, v)
  {
    var files := SharedFiles(specs, tracked);
    InGather(specs, id, files, v);
    if v in Gather(specs, id, files).violations {
      var f :| f in files && v in GatherFile(specs, id, f).violations;
      InGatherFile(specs, id, f, v);
      var i :| 0 <= i < |specs| && GivesFrom(specs[i], id, f, v);
      InIterFiles(tracked, f, UnionExtensions(specs), None, SKIP_PATH_FRAGMENTS, []);
      ScansIff(specs, i, f);
      FoundIff(specs[i], f, v);
      var k: nat :| Offence(specs[i], f, k, v);
      assert Finds(specs, i, id, tracked, f, k, v);
    }
    if i, f, k: nat :| Finds(specs, i, id, tracked, f, k, v) {
      FoundIff(specs[i], f, v);
      ScansIff(specs, i, f);
      InIterFiles(tracked, f, UnionExtensions(specs), None, SKIP_PATH_FRAGMENTS, []);
      assert GivesFrom(specs[i], id, f, v);
      InGatherFile(specs, id, f, v);
    }
  }

  ghost predicate SomeoneFinds(specs: seq<GuardSpec>, id: string, tracked: seq<File>, v: Violation) {
    exists i, f, k: nat :: Finds(specs, i, id, tracked, f, k, v)
  }

  lemma AllGathered(specs: seq<GuardSpec>, tracked: seq<File>)
    ensures forall id, v ::
      v in Gather(specs, id, SharedFiles(specs, tracked)).violations <==> SomeoneFinds(specs, id, tracked, v)
  {
    forall id, v
      ensures v in Gather(specs, id, SharedFiles(specs, tracked)).violations <==> SomeoneFinds(specs, id, tracked, v)
    {
      GatheredIff(specs, id, tracked, v);
    }
  }

  /** The path is a file with one of the suffixes if there are any, under one of the roots if there are any, with no
      skipped fragment in it, and not allowed. */
  ghost predicate IsWanted(f: File, extensions: seq<string>, roots: Option<seq<string>>, skip: seq<string>,
                           allowedFiles: seq<string>)
  {
    f.isFile && (f.suffix in extensions || |extensions| == 0)
    && (roots == None || roots == Some([]) || exists r :: r in roots.value && InRoot(f.rel, r))
    && (forall x :: x in skip ==> !Contains("/" + f.rel, x)) && f.rel !in allowedFiles
  }

  lemma YieldsIff(f: File, extensions: seq<string>, roots: Option<seq<string>>, skip: seq<string>,
                  allowedFiles: seq<string>)
    ensures Yields(f, extensions, roots, skip, allowedFiles) <==> IsWanted(f, extensions, roots, skip, allowedFiles)
  {
    SkippedIff(f.rel, skip);
    if roots.Some? { UnderRootIff(f.rel, roots.value); }
  }

  ghost function ListedFiles(tracked: seq<File>, extensions: seq<string>, roots: Option<seq<string>>, skip: seq<string>,
                             allowedFiles: seq<string>): nat -> bool
  {
    (i: nat) => i < |tracked| && IsWanted(tracked[i], extensions, roots, skip, allowedFiles)
  }

  ghost function SameFile(tracked: seq<File>): (nat, File) -> bool {
    (i: nat, f: File) => i < |tracked| && f == tracked[i]
  }

  /** The listing keeps the tracked files that pass the filters, each as often as it is tracked and in their order. */
  lemma {:induction false} IterFilesIs(tracked: seq<File>, k: nat, extensions: seq<string>, roots: Option<seq<string>>,
                                       skip: seq<string>, allowedFiles: seq<string>)
    requires k <= |tracked|
    ensures Picks(k, ListedFiles(tracked, extensions, roots, skip, allowedFiles), SameFile(tracked),
                  IterFiles(tracked[..k], extensions, roots, skip, allowedFiles))
  {
    var keep, fits := ListedFiles(tracked, extensions, roots, skip, allowedFiles), SameFile(tracked);
    if k == 0 {
      PicksNone(keep, fits);
    } else {
      IterFilesIs(tracked, k - 1, extensions, roots, skip, allowedFiles);
      YieldsIff(tracked[k - 1], extensions, roots, skip, allowedFiles);
      assert tracked[..k][..k - 1] == tracked[..k - 1];
      PicksMore(k - 1, keep, fits, IterFiles(tracked[..k - 1], extensions, roots, skip, allowedFiles),
                if keep(k - 1) then [tracked[k - 1]] else []);
    }
  }

  /** The violations of a guard alone are those of its files, one file after the other. */
  lemma {:induction false} ScanAllIs(spec: GuardSpec, files: seq<File>)
    ensures ScanAll(spec, files) == Flatten(seq(|files|, i requires 0 <= i < |files| => ScanFile(spec, files[i])))
  {
    var parts := seq(|files|, i requires 0 <= i < |files| => ScanFile(spec, files[i]));
    if files != [] {
      var n := |files| - 1;
      ScanAllIs(spec, files[..n]);
      FlattenSnoc(seq(n, i requires 0 <= i < n => ScanFile(spec, files[..n][i])), ScanFile(spec, files[n]));
      assert parts == seq(n, i requires 0 <= i < n => ScanFile(spec, files[..n][i])) + [ScanFile(spec, files[n])];
    }
  }

  /** Some guard is handed a readable tracked file with an offending line. */
  ghost predicate SomeLineOffends(specs: seq<GuardSpec>, tracked: seq<File>) {
    exists s, f, k: nat :: s in specs && f in tracked && LineOffends(s, f, k)
  }

  ghost predicate LineOffends(s: GuardSpec, f: File, k: nat) {
    Scans(s, f) && f.lines.Some? && k < |f.lines.value| && Offends(s, f.lines.value[k])
  }

  /** Some section reports exactly when some line offends. */
  lemma ReportsIffOffends(specs: seq<GuardSpec>, tracked: seq<File>)
    ensures SomeReport(specs, |specs|, tracked) <==> SomeLineOffends(specs, tracked)
  {
    if SomeReport(specs, |specs|, tracked) {
      var i :| 0 <= i < |specs| && Fails(specs, i, tracked);
      var v := Gather(specs, specs[i].id, SharedFiles(specs, tracked)).violations[0];
      GatheredIff(specs, specs[i].id, tracked, v);
      var j, f, k: nat :| Finds(specs, j, specs[i].id, tracked, f, k, v);
      assert specs[j] in specs && LineOffends(specs[j], f, k);
    }
    if s, f, k: nat :| s in specs && f in tracked && LineOffends(s, f, k) {
      var i :| 0 <= i < |specs| && specs[i] == s;
      var line := f.lines.value[k];
      var v := Violation(f.rel, k + 1, line, s.matcher(line).value);
      assert Finds(specs, i, s.id, tracked, f, k, v);
      GatheredIff(specs, s.id, tracked, v);
      assert Fails(specs, i, tracked);
    }
  }

  // ----- exit codes

  /** The script's report: 1 for any violation. */
  function Report(violations: seq<Violation>): int {
    if violations != [] then 1 else 0
  }

  /** `main`: the codes of all sections, or-ed together. */
  method RunBatch(specs: seq<GuardSpec>, tracked: seq<File>) returns (rc: int)
    ensures rc == 0 || rc == 1
    ensures rc == 1 <==> SomeReport(specs, |specs|, tracked)
    ensures rc == 1 <==> SomeLineOffends(specs, tracked)
  {
    ReportsIffOffends(specs, tracked);
    var results, scanned := ScanMany(specs, tracked);
    rc := 0;
    for k := 0 to |specs|
      invariant rc == 0 || rc == 1
      invariant rc == 1 <==> SomeReport(specs, k, tracked)
    {
      SomeReportSnoc(specs, k, tracked);
      if Report(results[specs[k].id]) == 1 {
        rc := 1;
      }
    }
  }

  /** The section has a violation in a traversal shared by the specs. */
  predicate Fails(specs: seq<GuardSpec>, i: nat, tracked: seq<File>)
    requires i < |specs|
  {
    Report(Gather(specs, specs[i].id, SharedFiles(specs, tracked)).violations) == 1
  }

  predicate SomeReport(specs: seq<GuardSpec>, k: nat, tracked: seq<File>)
    requires k <= |specs|
  {
    exists i :: 0 <= i < k && Fails(specs, i, tracked)
  }

  lemma SomeReportSnoc(specs: seq<GuardSpec>, k: nat, tracked: seq<File>)
    requires k < |specs|
    ensures SomeReport(specs, k + 1, tracked) <==> SomeReport(specs, k, tracked) || Fails(specs, k, tracked)
  {
  }

  /** The batch fails exactly when some section run on its own fails: both share a traversal, so both lose the same. */
  lemma BatchFailsIffSomeSectionFails(specs: seq<GuardSpec>, tracked: seq<File>)
    requires DistinctIds(specs)
    ensures SomeReport(specs, |specs|, tracked) <==>
      exists i :: 0 <= i < |specs| && SomeReport([specs[i]], 1, tracked)
  {
    forall i | 0 <= i < |specs| ensures SomeReport([specs[i]], 1, tracked) <==> Fails(specs, i, tracked) {
      SectionAlone(specs, i, tracked);
    }
  }

  lemma SectionAlone(specs: seq<GuardSpec>, i: nat, tracked: seq<File>)
    requires DistinctIds(specs) && i < |specs|
    ensures SomeReport([specs[i]], 1, tracked) <==> Fails(specs, i, tracked)
  {
    SameFailure(specs, i, tracked);
  }

  lemma SameFailure(specs: seq<GuardSpec>, i: nat, tracked: seq<File>)
    requires DistinctIds(specs) && i < |specs|
    ensures Fails([specs[i]], 0, tracked) <==> Fails(specs, i, tracked)
  {
    SharedIsKept(specs, i, tracked);
    SharedIsKept([specs[i]], 0, tracked);
  }

  // ----- the batch's own sections

  const LEGACY_EXTENSIONS: seq<string> := [".py", ".js", ".json", ".md"]
  const RETIRED_EXTENSIONS: seq<string> :=
    [".py", ".sh", ".toml", ".ini", ".yml", ".yaml", ".json", ".js", ".ts", ".vue", ".md"]
  const NUMBERED_EXTENSIONS: seq<string> := [".py", ".js", ".ts", ".vue", ".html", ".sh", ".md"]

  /** What a section exempts: its matcher, allowed files and allowed line markers. */
  datatype Section = Section(matcher: Matcher, allowedFiles: seq<string>, markers: seq<string>)

  /** The three sections of the script; matchers and exemption lists come in from outside. */
  function BatchSpecs(legacy: Section, retired: Section, numbered: Section): seq<GuardSpec> {
    [GuardSpec("no-legacy-role-codes", LEGACY_EXTENSIONS, legacy.matcher, None, legacy.allowedFiles, legacy.markers,
               None, SKIP_PATH_FRAGMENTS + ["/.testing/"]),
     GuardSpec("no-retired-features", RETIRED_EXTENSIONS, retired.matcher, None, retired.allowedFiles,
               retired.markers, None, SKIP_PATH_FRAGMENTS + ["/.testing/", "/alembic/"]),
     GuardSpec("no-numbered-routes", NUMBERED_EXTENSIONS, numbered.matcher, None, numbered.allowedFiles, [], None,
               SKIP_PATH_FRAGMENTS + ["/.testing/"])]
  }

  /** The script's three sections lose nothing in the batch, and it exits non-zero exactly when one of the
      single-section runs does. */
  lemma BatchOfThree(legacy: Section, retired: Section, numbered: Section, tracked: seq<File>)
    ensures var specs := BatchSpecs(legacy, retired, numbered);
      SomeReport(specs, 3, tracked) <==> exists i :: 0 <= i < 3 && SomeReport([specs[i]], 1, tracked)
    ensures var specs := BatchSpecs(legacy, retired, numbered);
      forall i :: 0 <= i < 3 ==>
        Gather(specs, specs[i].id, SharedFiles(specs, tracked)) == Alone(specs[i], OwnFiles(specs[i], tracked))
  {
    var specs := BatchSpecs(legacy, retired, numbered);
    assert specs[0].id[3] == 'l' && specs[1].id[3] == 'r' && specs[2].id[3] == 'n';
    BatchFailsIffSomeSectionFails(specs, tracked);
    forall i | 0 <= i < 3
      ensures Gather(specs, specs[i].id, SharedFiles(specs, tracked)) == Alone(specs[i], OwnFiles(specs[i], tracked))
    {
      SharedEqualsAlone(specs, i, tracked);
    }
  }

  // ----- the ways to lose a file

  lemma LostAlone(s: GuardSpec, f: File)
    requires Lost(s, f)
    ensures OwnFiles(s, [f]) == [f] && Gather([s], s.id, SharedFiles([s], [f])).scanned == 0
  {
    assert [s][0] == s;
    assert [f] == [] + [f];
    IterSnoc([], f, s.extensions, s.roots, s.skip, s.allowedFiles);
    SharedIsKept([s], 0, [f]);
  }

  /** A guard without extensions scans everything alone and nothing in a batch. */
  lemma NoExtensionsDiffers(f: File, s: GuardSpec)
    requires Own(s, f) && s.extensions == []
    ensures OwnFiles(s, [f]) == [f] && Gather([s], s.id, SharedFiles([s], [f])).scanned == 0
  {
    LostAlone(s, f);
  }

  /** An empty list of roots means everywhere alone and nowhere in a batch. */
  lemma EmptyRootsDiffers(f: File, s: GuardSpec)
    requires Own(s, f) && s.roots == Some([])
    ensures OwnFiles(s, [f]) == [f] && Gather([s], s.id, SharedFiles([s], [f])).scanned == 0
  {
    LostAlone(s, f);
  }

  /** A guard that does not skip a shared fragment loses those files in a batch. */
  lemma MissingSkipDiffers(f: File, s: GuardSpec)
    requires Own(s, f) && IsSkipped(f.rel, SKIP_PATH_FRAGMENTS)
    ensures OwnFiles(s, [f]) == [f] && Gather([s], s.id, SharedFiles([s], [f])).scanned == 0
  {
    LostAlone(s, f);
  }

  /** Two guards under one id each get both guards' violations. */
  lemma SharedIdMixes(s: GuardSpec, t: GuardSpec, f: File)
    requires s.id == t.id && Takes(s, f) && Takes(t, f)
    ensures GatherFile([s, t], s.id, f) == Add(Tally(ScanFile(s, f), 1), Tally(ScanFile(t, f), 1))
    ensures ScanFile(t, f) != [] ==> GatherFile([s, t], s.id, f).violations != ScanFile(s, f)
    ensures ScanFile(s, f) != [] ==> GatherFile([s, t], t.id, f).violations != ScanFile(t, f)
  {
    assert [s, t][..1] == [s] && [s][..0] == [];
    GatherFileLast([s, t], [s], t, s.id, f);
  }

  lemma GatherFileLast(all: seq<GuardSpec>, specs: seq<GuardSpec>, s: GuardSpec, id: string, f: File)
    requires all != [] && all[..|all| - 1] == specs && all[|all| - 1] == s
    ensures GatherFile(all, id, f)
         == if s.id == id && Takes(s, f) then Add(GatherFile(specs, id, f), Tally(ScanFile(s, f), 1))
            else GatherFile(specs, id, f)
  {
  }
}

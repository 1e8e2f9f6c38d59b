/** The content fingerprint of a feature (scripts/feature_status_lib.py, lines 55-64 and 112-143): the byte string fed
    to SHA-256, and what it is sensitive to. Byte strings are modelled as strings. */
module Fingerprint {
  import opened Text
  import opened Sorting

  type Files = map<string, string>

  const GLOBAL_SALT_FILES: seq<string> := [
    "tests/conftest.py", "tests/_handler_call.py", "tests/_iaf_a2a_http.py", "tests/_iaf_rest_http.py",
    "tests/_seed_guard.py", "tests/_trusted_payload.py", "tests/e2e/helpers.ts", "tests/e2e/r12-forbidden-patterns.ts"]

  /** One update of the hash: what precedes a file, the file, and what stands in for it when it is missing. */
  datatype Slot = Slot(sep: string, path: string, missing: string)

  function RefSlots(refs: seq<string>): seq<Slot> {
    if refs == [] then [] else [Slot("\0" + refs[0] + "\0", refs[0], "<missing-test-file>")] + RefSlots(refs[1..])
  }

  function SaltSlots(salts: seq<string>): seq<Slot> {
    if salts == [] then []
    else [Slot("\U{0001}salt\0" + salts[0] + "\0", salts[0], "<missing-shared-salt>")] + SaltSlots(salts[1..])
  }

  function Slots(path: string, refs: seq<string>, salts: seq<string>): seq<Slot> {
    [Slot("", path, "<missing-feature-spec>")] + RefSlots(Sorted(StringLe, refs)) + SaltSlots(salts)
  }

  function Shown(slot: Slot, files: Files): string {
    if slot.path in files then files[slot.path] else slot.missing
  }

  /** The bytes that a list of updates feeds to the hash. */
  function Stream(slots: seq<Slot>, files: Files): string {
    if slots == [] then "" else slots[0].sep + Shown(slots[0], files) + Stream(slots[1..], files)
  }

  function RefsAt(files: Files, path: string, refsOf: string -> seq<string>): seq<string> {
    if path in files then refsOf(files[path]) else []
  }

  /** The byte string under a feature's fingerprint; `refsOf` finds the test references in a specification. */
  function Hashed(files: Files, path: string, refsOf: string -> seq<string>, salts: seq<string>): string {
    Stream(Slots(path, RefsAt(files, path, refsOf), salts), files)
  }

  method FeatureFingerprint(files: Files, path: string, refsOf: string -> seq<string>, salts: seq<string>,
                            hash: string -> string) returns (digest: string)
    ensures digest == hash(Hashed(files, path, refsOf, salts))
  {
    var fed := if path in files then files[path] else "<missing-feature-spec>";
    var refs := Sorted(StringLe, RefsAt(files, path, refsOf));
    fed := FeedTests(fed, refs, files);
    fed := FeedSalts(fed, salts, files);
    StreamParts(path, refs, salts, files);
    digest := hash(fed);
  }

  /** The loop over the sorted references. */
  method FeedTests(start: string, refs: seq<string>, files: Files) returns (fed: string)
    ensures fed == start + Stream(RefSlots(refs), files)
  {
    fed := start;
    for k := 0 to |refs|
      invariant fed + Stream(RefSlots(refs[k..]), files) == start + Stream(RefSlots(refs), files)
    {
      var sep := "\0" + refs[k] + "\0";
      var shown := if refs[k] in files then files[refs[k]] else "<missing-test-file>";
      FedOne(fed, Slot(sep, refs[k], "<missing-test-file>"), RefSlots(refs[k + 1..]), files);
      fed := fed + sep + shown;
    }
    assert refs[|refs|..] == [] && fed + "" == fed;
  }

  /** The loop over the shared salt files. */
  method FeedSalts(start: string, salts: seq<string>, files: Files) returns (fed: string)
    ensures fed == start + Stream(SaltSlots(salts), files)
  {
    fed := start;
    for k := 0 to |salts|
      invariant fed + Stream(SaltSlots(salts[k..]), files) == start + Stream(SaltSlots(salts), files)
    {
      var sep := "\U{0001}salt\0" + salts[k] + "\0";
      var shown := if salts[k] in files then files[salts[k]] else "<missing-shared-salt>";
      SaltSlotsHead(salts, k);
      FedOne(fed, Slot(sep, salts[k], "<missing-shared-salt>"), SaltSlots(salts[k + 1..]), files);
      fed := fed + sep + shown;
    }
    assert salts[|salts|..] == [] && fed + "" == fed;
  }

  lemma SaltSlotsHead(salts: seq<string>, k: nat)
    requires k < |salts|
    ensures SaltSlots(salts[k..])
         == [Slot("\U{0001}salt\0" + salts[k] + "\0", salts[k], "<missing-shared-salt>")] + SaltSlots(salts[k + 1..])
  {
    assert salts[k..][1..] == salts[k + 1..];
  }

  /** Feeding one more file. */
  lemma FedOne(fed: string, slot: Slot, rest: seq<Slot>, files: Files)
    ensures fed + Stream([slot] + rest, files) == (fed + slot.sep + Shown(slot, files)) + Stream(rest, files)
  {
    assert ([slot] + rest)[1..] == rest;
  }

  lemma {:induction false} StreamConcat(a: seq<Slot>, b: seq<Slot>, files: Files)
    ensures Stream(a + b, files) == Stream(a, files) + Stream(b, files)
  {
    if a == [] {
      assert a + b == b;
    } else {
      assert (a + b)[1..] == a[1..] + b;
      StreamConcat(a[1..], b, files);
    }
  }

  lemma StreamParts(path: string, refs: seq<string>, salts: seq<string>, files: Files)
    ensures var spec := Slot("", path, "<missing-feature-spec>");
      Stream([spec] + RefSlots(refs) + SaltSlots(salts), files)
      == Shown(spec, files) + Stream(RefSlots(refs), files) + Stream(SaltSlots(salts), files)
  {
    var spec := Slot("", path, "<missing-feature-spec>");
    StreamConcat([spec] + RefSlots(refs), SaltSlots(salts), files);
    StreamConcat([spec], RefSlots(refs), files);
    assert Stream([spec], files) == Shown(spec, files) by { assert [spec][1..] == []; }
  }

  // ----- changing one file

  /** How often a file is fed. */
  function Uses(slots: seq<Slot>, p: string): nat {
    if slots == [] then 0 else (if slots[0].path == p then 1 else 0) + Uses(slots[1..], p)
  }

  lemma {:induction false} StreamLength(slots: seq<Slot>, files: Files, p: string, v: string)
    requires p in files
    ensures |Stream(slots, files[p := v])| == |Stream(slots, files)| + Uses(slots, p) * (|v| - |files[p]|)
  {
    if slots != [] {
      StreamLength(slots[1..], files, p, v);
      OneMore(Uses(slots[1..], p), |v| - |files[p]|);
    }
  }

  lemma OneMore(n: nat, d: int)
    ensures (n + 1) * d == n * d + d
  {
  }

  lemma {:induction false} SameLengthChangeShows(slots: seq<Slot>, files: Files, p: string, v: string)
    requires p in files && files[p] != v && |files[p]| == |v| && Uses(slots, p) > 0
    ensures Stream(slots, files[p := v]) != Stream(slots, files)
  {
    var s, rest, changed := slots[0], slots[1..], files[p := v];
    if s.path == p {
      var a := s.sep + files[p] + Stream(rest, files);
      var b := s.sep + v + Stream(rest, changed);
      assert a[|s.sep|..|s.sep| + |v|] == files[p] && b[|s.sep|..|s.sep| + |v|] == v;
    } else {
      SameLengthChangeShows(rest, files, p, v);
      var head := s.sep + Shown(s, files);
      assert Stream(slots, files)[|head|..] == Stream(rest, files);
      assert Stream(slots, changed)[|head|..] == Stream(rest, changed);
    }
  }

  /** Changing the content of one present file changes the stream, however often the file is fed and although
      nothing marks where a content ends: another length shows in the total length, and with the same length
      everything around the change cancels. */
  lemma ChangeShows(slots: seq<Slot>, files: Files, p: string, v: string)
    requires p in files && files[p] != v && Uses(slots, p) > 0
    ensures Stream(slots, files[p := v]) != Stream(slots, files)
  {
    if |v| == |files[p]| {
      SameLengthChangeShows(slots, files, p, v);
    } else {
      StreamLength(slots, files, p, v);
      NonZeroProduct(Uses(slots, p), |v| - |files[p]|);
    }
  }

  lemma NonZeroProduct(n: nat, d: int)
    requires n > 0 && d != 0
    ensures n * d != 0
  {
  }

  lemma {:induction false} UsesConcat(a: seq<Slot>, b: seq<Slot>, p: string)
    ensures Uses(a + b, p) == Uses(a, p) + Uses(b, p)
  {
    if a == [] {
      assert a + b == b;
    } else {
      assert (a + b)[1..] == a[1..] + b;
      UsesConcat(a[1..], b, p);
    }
  }

  lemma {:induction false} RefUses(refs: seq<string>, p: string)
    requires p in refs
    ensures Uses(RefSlots(refs), p) > 0
  {
    assert RefSlots(refs)[1..] == RefSlots(refs[1..]);
    if refs[0] != p { RefUses(refs[1..], p); }
  }

  lemma {:induction false} SaltUses(salts: seq<string>, p: string)
    requires p in salts
    ensures Uses(SaltSlots(salts), p) > 0
  {
    assert SaltSlots(salts)[1..] == SaltSlots(salts[1..]);
    if salts[0] != p { SaltUses(salts[1..], p); }
  }

  /** The specification, every referenced test and every shared salt count. */
  lemma CountedFiles(path: string, refs: seq<string>, salts: seq<string>, p: string)
    requires p == path || p in refs || p in salts
    ensures Uses(Slots(path, refs, salts), p) > 0
  {
    var spec, sorted := Slot("", path, "<missing-feature-spec>"), Sorted(StringLe, refs);
    UsesConcat([spec] + RefSlots(sorted), SaltSlots(salts), p);
    UsesConcat([spec], RefSlots(sorted), p);
    if p == path {
      assert Uses([spec], p) == 1 + Uses([spec][1..], p);
    } else if p in refs {
      StringOrder();
      SortedSorts(StringLe, refs);
      assert p in multiset(sorted);
      RefUses(sorted, p);
    } else {
      SaltUses(salts, p);
    }
  }

  /** With the references unchanged, a changed content of any one present file the fingerprint covers (the
      specification, a test or a salt) changes the byte string fed to the hash. */
  lemma FingerprintIsSensitive(files: Files, path: string, refsOf: string -> seq<string>, salts: seq<string>,
                               p: string, v: string)
    requires p in files && files[p] != v
    requires p == path || p in RefsAt(files, path, refsOf) || p in salts
    requires RefsAt(files[p := v], path, refsOf) == RefsAt(files, path, refsOf)
    ensures Hashed(files[p := v], path, refsOf, salts) != Hashed(files, path, refsOf, salts)
  {
    var refs := RefsAt(files, path, refsOf);
    CountedFiles(path, refs, salts, p);
    ChangeShows(Slots(path, refs, salts), files, p, v);
  }

  /** The order of the references does not matter. */
  lemma ReferenceOrderDoesNotMatter(path: string, refs: seq<string>, refs': seq<string>, salts: seq<string>)
    requires multiset(refs) == multiset(refs')
    ensures Slots(path, refs, salts) == Slots(path, refs', salts)
  {
    SameStringsSortAlike(refs, refs');
  }

  // ----- changing anything

  predicate IsMark(c: char) {
    c == '\0' || c == '\U{0001}'
  }

  /** No NUL and no SOH, as in any text file. */
  predicate Clean(s: string) {
    forall i :: 0 <= i < |s| ==> !IsMark(s[i])
  }

  predicate MarkedStart(s: string) {
    s == "" || IsMark(s[0])
  }

  function FirstMark(s: string): nat {
    if s == "" || IsMark(s[0]) then 0 else 1 + FirstMark(s[1..])
  }

  /** A clean text ends where the first mark stands. */
  lemma {:induction false} CleanUpToMark(a: string, x: string)
    requires Clean(a) && MarkedStart(x)
    ensures FirstMark(a + x) == |a|
  {
    if a == "" {
      assert a + x == x;
    } else {
      assert (a + x)[1..] == a[1..] + x;
      CleanUpToMark(a[1..], x);
    }
  }

  lemma SplitAtMark(a: string, x: string, b: string, y: string)
    requires Clean(a) && Clean(b) && MarkedStart(x) && MarkedStart(y) && a + x == b + y
    ensures a == b && x == y
  {
    CleanUpToMark(a, x);
    CleanUpToMark(b, y);
    assert (a + x)[..|a|] == a && (b + y)[..|b|] == b;
    assert (a + x)[|a|..] == x && (b + y)[|b|..] == y;
  }

  predicate CleanSlots(slots: seq<Slot>, files: Files) {
    forall i :: 0 <= i < |slots| ==>
      slots[i].sep != "" && IsMark(slots[i].sep[0]) && Clean(Shown(slots[i], files))
  }

  lemma StreamHead(slots: seq<Slot>, files: Files)
    requires slots != []
    ensures Stream(slots, files) == slots[0].sep + (Shown(slots[0], files) + Stream(slots[1..], files))
  {
  }

  lemma Cancel(sep: string, a: string, b: string)
    requires sep + a == sep + b
    ensures a == b
  {
    assert (sep + a)[|sep|..] == a && (sep + b)[|sep|..] == b;
  }

  lemma {:induction false} CleanStreamsAgree(slots: seq<Slot>, f: Files, g: Files)
    requires CleanSlots(slots, f) && CleanSlots(slots, g) && Stream(slots, f) == Stream(slots, g)
    ensures forall i :: 0 <= i < |slots| ==> Shown(slots[i], f) == Shown(slots[i], g)
  {
    if slots != [] {
      var s, rest := slots[0], slots[1..];
      StreamHead(slots, f);
      StreamHead(slots, g);
      Cancel(s.sep, Shown(s, f) + Stream(rest, f), Shown(s, g) + Stream(rest, g));
      SplitAtMark(Shown(s, f), Stream(rest, f), Shown(s, g), Stream(rest, g));
      CleanStreamsAgree(rest, f, g);
      assert forall i :: 0 < i < |slots| ==> slots[i] == rest[i - 1];
    }
  }

  lemma {:induction false} RefSlotsAreClean(refs: seq<string>, files: Files)
    requires forall p :: p in refs && p in files ==> Clean(files[p])
    ensures CleanSlots(RefSlots(refs), files)
  {
    if refs != [] {
      RefSlotsAreClean(refs[1..], files);
      var s := RefSlots(refs)[0];
      assert Clean(s.missing) && Clean(Shown(s, files)) && s.sep[0] == '\0';
    }
  }

  lemma {:induction false} SaltSlotsAreClean(salts: seq<string>, files: Files)
    requires forall p :: p in salts && p in files ==> Clean(files[p])
    ensures CleanSlots(SaltSlots(salts), files)
  {
    if salts != [] {
      SaltSlotsAreClean(salts[1..], files);
      var s := SaltSlots(salts)[0];
      assert Clean(s.missing) && Clean(Shown(s, files)) && s.sep[0] == '\U{0001}';
    }
  }

  /** The updates after the specification. */
  function Rest(refs: seq<string>, salts: seq<string>): seq<Slot> {
    RefSlots(Sorted(StringLe, refs)) + SaltSlots(salts)
  }

  function SpecSlot(path: string): Slot {
    Slot("", path, "<missing-feature-spec>")
  }

  lemma SlotsSplit(path: string, refs: seq<string>, salts: seq<string>)
    ensures Slots(path, refs, salts) == [SpecSlot(path)] + Rest(refs, salts)
  {
  }

  lemma HashedSplits(f: Files, path: string, refsOf: string -> seq<string>, salts: seq<string>)
    requires path in f
    ensures Hashed(f, path, refsOf, salts) == f[path] + Stream(Rest(refsOf(f[path]), salts), f)
  {
    SlotsSplit(path, refsOf(f[path]), salts);
  }

  /** The files that the fingerprint covers, the specification, its tests and the shared files, are clean. */
  predicate CoveredClean(files: Files, path: string, refsOf: string -> seq<string>, salts: seq<string>) {
    forall p :: p in files && (p == path || p in RefsAt(files, path, refsOf) || p in salts) ==> Clean(files[p])
  }

  lemma RestIsClean(files: Files, path: string, refsOf: string -> seq<string>, salts: seq<string>)
    requires path in files && CoveredClean(files, path, refsOf, salts)
    ensures var rest := Rest(refsOf(files[path]), salts);
      CleanSlots(rest, files) && MarkedStart(Stream(rest, files))
  {
    var refs := refsOf(files[path]);
    var sorted := Sorted(StringLe, refs);
    StringOrder();
    SortedSorts(StringLe, refs);
    forall p | p in sorted ensures p in refs { assert p in multiset(sorted); }
    RefSlotsAreClean(sorted, files);
    SaltSlotsAreClean(salts, files);
  }

  lemma SameSpec(f: Files, g: Files, path: string, refsOf: string -> seq<string>, salts: seq<string>)
    requires path in f && path in g && CoveredClean(f, path, refsOf, salts) && CoveredClean(g, path, refsOf, salts)
    requires Hashed(f, path, refsOf, salts) == Hashed(g, path, refsOf, salts)
    ensures f[path] == g[path]
    ensures Stream(Rest(refsOf(f[path]), salts), f) == Stream(Rest(refsOf(f[path]), salts), g)
  {
    HashedSplits(f, path, refsOf, salts);
    HashedSplits(g, path, refsOf, salts);
    RestIsClean(f, path, refsOf, salts);
    RestIsClean(g, path, refsOf, salts);
    SplitAtMark(f[path], Stream(Rest(refsOf(f[path]), salts), f), g[path], Stream(Rest(refsOf(g[path]), salts), g));
  }

  /** When the covered files are clean, the byte string determines the specification, the references and everything
      they show: equal fingerprints mean that nothing the fingerprint covers has changed. */
  lemma CleanFingerprintsAgree(f: Files, g: Files, path: string, refsOf: string -> seq<string>, salts: seq<string>)
    requires path in f && path in g && CoveredClean(f, path, refsOf, salts) && CoveredClean(g, path, refsOf, salts)
    requires Hashed(f, path, refsOf, salts) == Hashed(g, path, refsOf, salts)
    ensures f[path] == g[path] && RefsAt(f, path, refsOf) == RefsAt(g, path, refsOf)
    ensures forall s :: s in Slots(path, RefsAt(f, path, refsOf), salts) ==> Shown(s, f) == Shown(s, g)
  {
    SameSpec(f, g, path, refsOf, salts);
    RestIsClean(f, path, refsOf, salts);
    RestIsClean(g, path, refsOf, salts);
    CleanStreamsAgree(Rest(refsOf(f[path]), salts), f, g);
    SlotsSplit(path, refsOf(f[path]), salts);
  }

  /** A separator inside a file moves the boundary: with two shared files `a` and `b`, a tree whose `a` is empty and
      whose `b` holds the separator before `b` feeds the same bytes as the tree with their contents exchanged. So
      without clean files equal byte strings may hide a change. */
  lemma UncleanFilesCollide(path: string, a: string, b: string, spec: string)
    requires path != a && path != b && a != b
    ensures var mark := "\U{0001}salt\0" + b + "\0";
      var f := map[path := spec, a := "", b := mark];
      var g := map[path := spec, a := mark, b := ""];
      f != g && f[a] != g[a] && !Clean(mark)
      && Hashed(f, path, (s: string) => [], [a, b]) == Hashed(g, path, (s: string) => [], [a, b])
  {
    var mark := "\U{0001}salt\0" + b + "\0";
    var f := map[path := spec, a := "", b := mark];
    var g := map[path := spec, a := mark, b := ""];
    assert mark[0] == '\U{0001}' && IsMark(mark[0]);
    TwoSalts(f, path, a, b);
    TwoSalts(g, path, a, b);
    HashedSplits(f, path, (s: string) => [], [a, b]);
    HashedSplits(g, path, (s: string) => [], [a, b]);
    assert "" + (mark + mark) == mark + (mark + "");
  }

  lemma TwoSalts(files: Files, path: string, a: string, b: string)
    requires a in files && b in files
    ensures Stream(Rest([], [a, b]), files)
         == ("\U{0001}salt\0" + a + "\0") + (files[a] + (("\U{0001}salt\0" + b + "\0") + files[b]))
  {
    SaltSlotsHead([a, b], 0);
    SaltSlotsHead([a, b], 1);
    assert [a, b][0..] == [a, b] && [a, b][2..] == [] && SaltSlots([]) == [];
    var one := Slot("\U{0001}salt\0" + a + "\0", a, "<missing-shared-salt>");
    var two := Slot("\U{0001}salt\0" + b + "\0", b, "<missing-shared-salt>");
    assert Rest([], [a, b]) == [one] + ([two] + []);
    FedOne("", one, [two] + [], files);
    FedOne("", two, [], files);
    TwoStreams(one.sep, files[a], two.sep, files[b], Stream([one] + ([two] + []), files), Stream([two] + [], files));
  }

  lemma TwoStreams(s: string, x: string, t: string, y: string, whole: string, second: string)
    requires "" + whole == ("" + s + x) + second && "" + second == ("" + t + y) + ""
    ensures whole == s + (x + (t + y))
  {
    assert "" + whole == whole && "" + second == second && "" + t + y + "" == t + y;
    assert "" + s + x == s + x && (s + x) + (t + y) == s + (x + (t + y));
  }

  // ----- the byte string, written out

  function ContentOr(files: Files, path: string, missing: string): string {
    if path in files then files[path] else missing
  }

  function TestParts(refs: seq<string>, files: Files): seq<string> {
    seq(|refs|, i requires 0 <= i < |refs| => "\0" + refs[i] + "\0" + ContentOr(files, refs[i], "<missing-test-file>"))
  }

  function SaltParts(salts: seq<string>, files: Files): seq<string> {
    seq(|salts|, i requires 0 <= i < |salts| =>
      "\U{0001}salt\0" + salts[i] + "\0" + ContentOr(files, salts[i], "<missing-shared-salt>"))
  }

  lemma {:induction false} TestStream(refs: seq<string>, files: Files)
    ensures Stream(RefSlots(refs), files) == Flatten(TestParts(refs, files))
  {
    if refs != [] {
      TestStream(refs[1..], files);
      FirstPart(TestParts(refs, files), TestParts(refs[1..], files));
      assert RefSlots(refs)[1..] == RefSlots(refs[1..]);
    }
  }

  lemma {:induction false} SaltStream(salts: seq<string>, files: Files)
    ensures Stream(SaltSlots(salts), files) == Flatten(SaltParts(salts, files))
  {
    if salts != [] {
      SaltStream(salts[1..], files);
      FirstPart(SaltParts(salts, files), SaltParts(salts[1..], files));
      assert SaltSlots(salts)[1..] == SaltSlots(salts[1..]);
    }
  }

  lemma FirstPart(parts: seq<string>, rest: seq<string>)
    requires parts != [] && |rest| == |parts| - 1 && forall i :: 0 <= i < |rest| ==> rest[i] == parts[i + 1]
    ensures Flatten(parts) == parts[0] + Flatten(rest)
  {
    assert parts[1..] == rest;
  }

  /** The specification, then each test in the order of the paths and each shared file in the given order, behind a
      separator with its path; placeholders stand for missing files. */
  lemma HashedIs(files: Files, path: string, refsOf: string -> seq<string>, salts: seq<string>)
    ensures var refs := Sorted(StringLe, if path in files then refsOf(files[path]) else []);
      Hashed(files, path, refsOf, salts)
      == ContentOr(files, path, "<missing-feature-spec>") + Flatten(TestParts(refs, files))
         + Flatten(SaltParts(salts, files))
      && multiset(refs) == multiset(if path in files then refsOf(files[path]) else [])
      && forall i, j :: 0 <= i < j < |refs| ==> Precedes(refs[i], refs[j])
  {
    var given := RefsAt(files, path, refsOf);
    var refs := Sorted(StringLe, given);
    StringOrder();
    SortedSorts(StringLe, given);
    forall i, j | 0 <= i < j < |refs| ensures Precedes(refs[i], refs[j]) { StringLeIff(refs[i], refs[j]); }
    StreamParts(path, refs, salts, files);
    TestStream(refs, files);
    SaltStream(salts, files);
  }
}

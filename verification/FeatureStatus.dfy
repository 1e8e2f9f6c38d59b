/** Measuring features (scripts/capture_feature_status.py, lines 99-274) and computing their status
    (scripts/feature_status_lib.py, lines 146-258). Test runs are exit codes with the counts found in their output. */
module FeatureStatus {
  import opened Text
  import opened Fingerprint

  // ----- one test run

  /** The counts found in a runner's output, in order, as (number, kind). */
  datatype Outcome = TimedOut | Exited(code: int, found: seq<(nat, string)>)

  datatype Result = Pass | Fail | VacuousSkip | E2eNotRun | E2eAxisSkip | NoTests

  function Total(found: seq<(nat, string)>, kind: string): nat {
    if found == [] then 0
    else Total(found[..|found| - 1], kind) + if found[|found| - 1].1 == kind then found[|found| - 1].0 else 0
  }

  lemma {:induction false} TotalConcat(a: seq<(nat, string)>, b: seq<(nat, string)>, kind: string)
    ensures Total(a + b, kind) == Total(a, kind) + Total(b, kind)
  {
    if b == [] {
      assert a + b == a;
    } else {
      assert (a + b)[..|a + b| - 1] == a + b[..|b| - 1];
      TotalConcat(a, b[..|b| - 1], kind);
    }
  }

  /** Numbers of one kind add up, those of another do not count. */
  lemma TotalIs(n: nat, kind: string, more: seq<(nat, string)>)
    ensures Total([], kind) == 0
    ensures Total([(n, kind)] + more, kind) == n + Total(more, kind)
    ensures forall other :: other != kind ==> Total([(n, kind)] + more, other) == Total(more, other)
  {
    var one := [(n, kind)];
    assert one[..0] == [] && one[0] == (n, kind);
    forall k ensures Total(one + more, k) == (if k == kind then n else 0) + Total(more, k) {
      TotalConcat(one, more, k);
    }
  }

  method Counts(found: seq<(nat, string)>) returns (counts: map<string, nat>)
    ensures forall k :: Total(found, k) == if k in counts then counts[k] else 0
  {
    counts := map[];
    for i := 0 to |found|
      invariant forall k :: Total(found[..i], k) == if k in counts then counts[k] else 0
    {
      assert found[..i + 1][..i] == found[..i] && found[..i + 1][i] == found[i];
      var (n, kind) := found[i];
      counts := counts[kind := (if kind in counts then counts[kind] else 0) + n];
    }
    assert found[..|found|] == found;
  }

  function ClassifyPytest(o: Outcome): Result {
    if o.TimedOut? || o.code != 0 then Fail
    else if Total(o.found, "passed") + Total(o.found, "xpassed") == 0 then VacuousSkip
    else Pass
  }

  function ClassifyE2e(o: Outcome): Result {
    if o.TimedOut? || o.code != 0 then Fail else if Total(o.found, "passed") == 0 then VacuousSkip else Pass
  }

  /** What running a test gives on its first and second attempt. */
  type Attempts = (string, nat) -> Outcome

  /** Pytest modules get one retry. */
  function RunModule(attempts: Attempts, m: string): Result {
    if ClassifyPytest(attempts(m, 0)) == Pass then Pass else ClassifyPytest(attempts(m, 1))
  }

  function RunE2e(attempts: Attempts, s: string): Result {
    ClassifyE2e(attempts(s, 0))
  }

  method ComputeClassify(o: Outcome, e2e: bool) returns (r: Result)
    ensures r == if e2e then ClassifyE2e(o) else ClassifyPytest(o)
  {
    if o.TimedOut? {
      return Fail;
    }
    var counts := Counts(o.found);
    if o.code != 0 {
      return Fail;
    }
    assert Total(o.found, "passed") == if "passed" in counts then counts["passed"] else 0;
    assert Total(o.found, "xpassed") == if "xpassed" in counts then counts["xpassed"] else 0;
    var passed := if "passed" in counts then counts["passed"] else 0;
    if !e2e {
      passed := passed + if "xpassed" in counts then counts["xpassed"] else 0;
    }
    r := if passed == 0 then VacuousSkip else Pass;
  }

  // ----- a capture

  datatype Args = Args(withE2e: bool, allowlist: set<string>, e2eOnly: bool)

  predicate Scoped(args: Args) {
    args.e2eOnly || args.allowlist != {}
  }

  datatype Record = Record(testRefs: seq<string>, result: Result, fingerprint: string)

  datatype Artifact = Artifact(capturedAt: int, features: map<string, Record>)

  predicate IsModule(r: string) {
    EndsWith(r, ".py")
  }

  predicate IsSpec(r: string) {
    EndsWith(r, ".spec.ts")
  }

  function BaseName(path: string): string {
    if path == "" || path[|path| - 1] == '/' then "" else BaseName(path[..|path| - 1]) + [path[|path| - 1]]
  }

  /** The result of a reference, when the capture has one for it. */
  function ModuleResult(args: Args, attempts: Attempts, r: string): Option<Result> {
    if IsSpec(r) then
      Some(if !args.withE2e || (args.allowlist != {} && BaseName(r) !in args.allowlist) then E2eNotRun
           else RunE2e(attempts, r))
    else if IsModule(r) && !args.e2eOnly then Some(RunModule(attempts, r))
    else None
  }

  /** `module_result.get(r, ("fail", ""))`. */
  function RefResult(args: Args, attempts: Attempts, r: string): Result {
    var found := ModuleResult(args, attempts, r);
    if found.Some? then found.value else Fail
  }

  function EvalRefs(args: Args, refs: seq<string>): seq<string> {
    if args.e2eOnly then SpecsOf(refs) else refs
  }

  function SpecsOf(refs: seq<string>): seq<string> {
    if refs == [] then [] else (if IsSpec(refs[0]) then [refs[0]] else []) + SpecsOf(refs[1..])
  }

  function Combine(results: seq<Result>): Result {
    if forall i :: 0 <= i < |results| ==> results[i] == Pass then Pass
    else if Fail in results then Fail
    else if VacuousSkip in results then VacuousSkip
    else E2eNotRun
  }

  function FeatureResult(args: Args, attempts: Attempts, refs: seq<string>): Result {
    var evalRefs := EvalRefs(args, refs);
    if evalRefs == [] then (if args.e2eOnly then E2eAxisSkip else NoTests)
    else Combine(RefResults(args, attempts, evalRefs))
  }

  function RefResults(args: Args, attempts: Attempts, refs: seq<string>): (results: seq<Result>)
    ensures |results| == |refs|
    ensures forall i :: 0 <= i < |refs| ==> results[i] == RefResult(args, attempts, refs[i])
  {
    seq(|refs|, i requires 0 <= i < |refs| => RefResult(args, attempts, refs[i]))
  }

  function RecordOf(args: Args, attempts: Attempts, refs: seq<string>, fingerprint: string): Record {
    var evalRefs := EvalRefs(args, refs);
    Record(if evalRefs == [] then refs else evalRefs, FeatureResult(args, attempts, refs), fingerprint)
  }

  /** The records of a capture over all features. */
  function Captured(args: Args, attempts: Attempts, refs: map<string, seq<string>>, prints: map<string, string>)
    : map<string, Record>
    requires refs.Keys == prints.Keys
  {
    map rel | rel in refs :: RecordOf(args, attempts, refs[rel], prints[rel])
  }

  /** Every result the capture holds is the one the runner gives. */
  ghost predicate Consistent(results: map<string, Result>, args: Args, attempts: Attempts) {
    forall r :: r in results ==> ModuleResult(args, attempts, r) == Some(results[r])
  }

  /** The aggregation part of `main`: run each distinct test once, then judge every feature by its references. */
  method Capture(args: Args, attempts: Attempts, refs: map<string, seq<string>>, prints: map<string, string>)
    returns (features: map<string, Record>)
    requires refs.Keys == prints.Keys
    ensures features == Captured(args, attempts, refs, prints)
  {
    var all := set rel, r | rel in refs && r in refs[rel] :: r;
    var results := map[];
    if !args.e2eOnly {
      results := RunModules((set r | r in all && IsModule(r)), args, attempts);
    }
    var specs := RunSpecs((set r | r in all && IsSpec(r)), args, attempts);
    DistinctKinds();
    results := results + specs;
    forall rel, r | rel in refs && r in refs[rel] && ModuleResult(args, attempts, r).Some? ensures r in results {
      assert r in all;
    }
    features := JudgeAll(args, attempts, refs, prints, results);
  }

  /** The loop over the features. */
  method JudgeAll(args: Args, attempts: Attempts, refs: map<string, seq<string>>, prints: map<string, string>,
                  results: map<string, Result>) returns (features: map<string, Record>)
    requires refs.Keys == prints.Keys && Consistent(results, args, attempts)
    requires forall rel, r :: rel in refs && r in refs[rel] && ModuleResult(args, attempts, r).Some? ==> r in results
    ensures features == Captured(args, attempts, refs, prints)
  {
    features := map[];
    var rest := refs.Keys;
    while rest != {}
      invariant rest <= refs.Keys && features.Keys == refs.Keys - rest
      invariant forall rel :: rel in features ==> features[rel] == RecordOf(args, attempts, refs[rel], prints[rel])
      decreases rest
    {
      var rel :| rel in rest;
      var record := JudgeFeature(args, attempts, refs[rel], prints[rel], results);
      features := features[rel := record];
      rest := rest - {rel};
    }
  }

  /** A path that ends in `.py` does not end in `.spec.ts`. */
  lemma DistinctKinds()
    ensures forall r :: !(IsModule(r) && IsSpec(r))
  {
    forall r ensures !(IsModule(r) && IsSpec(r)) {
      if IsModule(r) { assert r[|r| - 1] == r[|r| - 3..][2] == 'y'; }
      if IsSpec(r) { assert r[|r| - 1] == r[|r| - 8..][7] == 's'; }
    }
  }

  method RunModules(modules: set<string>, args: Args, attempts: Attempts) returns (results: map<string, Result>)
    requires !args.e2eOnly && forall r :: r in modules ==> IsModule(r)
    ensures results.Keys == modules && Consistent(results, args, attempts)
  {
    DistinctKinds();
    results := map[];
    var rest := modules;
    while rest != {}
      invariant rest <= modules && results.Keys == modules - rest && Consistent(results, args, attempts)
      decreases rest
    {
      var m :| m in rest;
      var result := ComputeClassify(attempts(m, 0), false);
      if result != Pass {
        result := ComputeClassify(attempts(m, 1), false);
      }
      results := results[m := result];
      rest := rest - {m};
    }
  }

  method RunSpecs(specs: set<string>, args: Args, attempts: Attempts) returns (results: map<string, Result>)
    requires forall r :: r in specs ==> IsSpec(r)
    ensures results.Keys == specs && Consistent(results, args, attempts)
  {
    results := map[];
    var rest := specs;
    while rest != {}
      invariant rest <= specs && results.Keys == specs - rest && Consistent(results, args, attempts)
      decreases rest
    {
      var s :| s in rest;
      var result := E2eNotRun;
      if args.withE2e && (args.allowlist == {} || BaseName(s) in args.allowlist) {
        result := ComputeClassify(attempts(s, 0), true);
      }
      results := results[s := result];
      rest := rest - {s};
    }
  }

  method JudgeFeature(args: Args, attempts: Attempts, refs: seq<string>, fingerprint: string,
                      results: map<string, Result>) returns (record: Record)
    requires Consistent(results, args, attempts)
    requires forall r :: r in refs && ModuleResult(args, attempts, r).Some? ==> r in results
    ensures record == RecordOf(args, attempts, refs, fingerprint)
  {
    var evalRefs := EvalRefs(args, refs);
    if args.e2eOnly { SpecsAreRefs(refs); }
    if evalRefs == [] {
      return Record(refs, if args.e2eOnly then E2eAxisSkip else NoTests, fingerprint);
    }
    var statuses := [];
    for k := 0 to |evalRefs|
      invariant |statuses| == k
      invariant forall i :: 0 <= i < k ==> statuses[i] == RefResult(args, attempts, evalRefs[i])
    {
      assert evalRefs[k] in refs;
      statuses := statuses + [if evalRefs[k] in results then results[evalRefs[k]] else Fail];
    }
    assert statuses == RefResults(args, attempts, evalRefs);
    record := Record(evalRefs, Combine(statuses), fingerprint);
  }

  lemma {:induction false} SpecsAreRefs(refs: seq<string>)
    ensures forall r :: r in SpecsOf(refs) ==> r in refs
  {
    if refs != [] {
      SpecsAreRefs(refs[1..]);
      assert refs == [refs[0]] + refs[1..];
    }
  }

  // ----- the artefact that counts

  /** `load_measurement`: the first artefact, in the order of the listing, that was captured latest. */
  method LoadMeasurement(listing: seq<Artifact>) returns (best: Option<Artifact>)
    ensures best == Latest(listing)
    ensures best.Some? ==> best.value in listing && forall a :: a in listing ==> a.capturedAt <= best.value.capturedAt
    ensures best.None? <==> listing == []
  {
    best := None;
    for k := 0 to |listing|
      invariant best == Latest(listing[..k])
      invariant best.Some? ==> best.value in listing[..k]
      invariant best.Some? ==> forall i :: 0 <= i < k ==> listing[i].capturedAt <= best.value.capturedAt
      invariant best.None? <==> k == 0
    {
      assert listing[..k + 1][..k] == listing[..k] && listing[..k + 1][k] == listing[k];
      if best == None || listing[k].capturedAt > best.value.capturedAt {
        best := Some(listing[k]);
      }
    }
    assert listing[..|listing|] == listing;
  }

  function Latest(listing: seq<Artifact>): (best: Option<Artifact>)
    ensures best.Some? ==> best.value in listing
  {
    if listing == [] then None
    else
      var before, last := Latest(listing[..|listing| - 1]), listing[|listing| - 1];
      if before == None || last.capturedAt > before.value.capturedAt then Some(last) else before
  }

  // ----- the status

  datatype Status = Backlog | Draft | InTest | Ready | Done

  predicate HasTests(refs: seq<string>) {
    exists i :: 0 <= i < |refs| && (IsModule(refs[i]) || IsSpec(refs[i]))
  }

  predicate Green(rel: string, refs: seq<string>, measurement: Option<Artifact>, fingerprint: string) {
    refs != [] && measurement.Some? && rel in measurement.value.features
    && measurement.value.features[rel].result == Pass
    && measurement.value.features[rel].fingerprint == fingerprint
  }

  function ComputeStatus(rel: string, deferred: bool, refs: seq<string>, measurement: Option<Artifact>,
                         signed: set<string>, fingerprint: string): Status
  {
    if deferred then Backlog
    else
      var g, s := Green(rel, refs, measurement, fingerprint), rel in signed;
      if s && g then Done
      else if s then Ready
      else if g || HasTests(refs) then InTest
      else Draft
  }

  /** The ladder Draft, InTest, Ready, Done. */
  function Rank(s: Status): int {
    match s
    case Backlog => -1
    case Draft => 0
    case InTest => 1
    case Ready => 2
    case Done => 3
  }

  lemma LadderRises()
    ensures Rank(Backlog) < Rank(Draft) < Rank(InTest) < Rank(Ready) < Rank(Done)
  {
  }

  // ----- what a passing record stands for

  /** The test ended with exit 0 and at least one pass within the runs it is allowed. */
  ghost predicate Evidence(args: Args, attempts: Attempts, r: string) {
    if IsModule(r) then exists k: nat :: k < 2 && PassedPytest(attempts(r, k))
    else IsSpec(r) && args.withE2e && PassedE2e(attempts(r, 0))
  }

  predicate PassedPytest(o: Outcome) {
    o.Exited? && o.code == 0 && (Total(o.found, "passed") > 0 || Total(o.found, "xpassed") > 0)
  }

  predicate PassedE2e(o: Outcome) {
    o.Exited? && o.code == 0 && Total(o.found, "passed") > 0
  }

  /** An unscoped capture records a pass for a feature exactly when it has a test reference and every one of them
      has evidence; a reference no runner takes never passes. */
  lemma {:induction false} PassIffEvidence(args: Args, attempts: Attempts, refs: seq<string>)
    requires !Scoped(args)
    ensures FeatureResult(args, attempts, refs) == Pass <==>
      refs != [] && forall r :: r in refs ==> Evidence(args, attempts, r)
  {
    DistinctKinds();
    forall r ensures RefResult(args, attempts, r) == Pass <==> Evidence(args, attempts, r) {
      if IsModule(r) {
        if Evidence(args, attempts, r) {
          var k: nat :| k < 2 && PassedPytest(attempts(r, k));
          assert k == 0 || k == 1;
        }
        if RefResult(args, attempts, r) == Pass {
          assert PassedPytest(attempts(r, 0)) || PassedPytest(attempts(r, 1));
        }
      }
    }
    if refs != [] {
      var results := RefResults(args, attempts, refs);
      assert Combine(results) == Pass <==> forall i :: 0 <= i < |results| ==> results[i] == Pass;
      if FeatureResult(args, attempts, refs) == Pass {
        forall r | r in refs ensures Evidence(args, attempts, r) {
          var i :| 0 <= i < |refs| && refs[i] == r;
          assert results[i] == Pass;
        }
      }
    }
  }

  // ----- every result and every status, told apart

  /** The run was cut off or ended with another code than 0. */
  predicate Broke(o: Outcome) {
    o == TimedOut || (o.Exited? && o.code != 0)
  }

  lemma ClassifyIs(o: Outcome)
    ensures ClassifyPytest(o) == (if Broke(o) then Fail else if PassedPytest(o) then Pass else VacuousSkip)
    ensures ClassifyE2e(o) == (if Broke(o) then Fail else if PassedE2e(o) then Pass else VacuousSkip)
  {
  }

  /** A spec is run when e2e is on and the allowlist, if any, has its file name. */
  predicate RunsSpec(args: Args, r: string) {
    args.withE2e && (args.allowlist != {} ==> exists name :: name in args.allowlist && IsFileName(r, name))
  }

  /** `name` is what follows the last slash of the path. */
  predicate IsFileName(path: string, name: string) {
    EndsWith(path, name) && '/' !in name && (|name| == |path| || path[|path| - |name| - 1] == '/')
  }

  lemma BaseNameIs(path: string, name: string)
    ensures IsFileName(path, name) <==> name == BaseName(path)
  {
    var base := BaseName(path);
    BaseNameFits(path);
    if IsFileName(path, name) && |name| < |base| { NoSlashInside(path, name, base); }
    if IsFileName(path, name) && |base| < |name| { NoSlashInside(path, base, name); }
  }

  lemma NoSlashInside(path: string, a: string, b: string)
    requires |a| < |b| && EndsWith(path, b) && '/' !in b
    ensures path[|path| - |a| - 1] != '/'
  {
    assert path[|path| - |a| - 1] == path[|path| - |b|..][|b| - |a| - 1];
  }

  lemma {:induction false} BaseNameFits(path: string)
    ensures IsFileName(path, BaseName(path))
  {
    if path != "" && path[|path| - 1] != '/' {
      var n := |path| - 1;
      BaseNameFits(path[..n]);
      OneMoreChar(path[..n], BaseName(path[..n]), path[n], path);
    }
  }

  lemma OneMoreChar(before: string, name: string, c: char, path: string)
    requires path == before + [c] && c != '/' && IsFileName(before, name)
    ensures IsFileName(path, name + [c])
  {
    assert path[|path| - |name| - 1..] == before[|before| - |name|..] + [c];
    assert |name| < |before| ==> path[|before| - |name| - 1] == before[|before| - |name| - 1];
  }

  /** What a capture makes of one reference: a module passes with either of its two runs and otherwise has the result of
      the second, a spec has the result of its one run or is not run, and anything else fails. */
  lemma RefResultIs(args: Args, attempts: Attempts, r: string)
    ensures RefResult(args, attempts, r) ==
      if IsSpec(r) then
        if !RunsSpec(args, r) then E2eNotRun
        else if PassedE2e(attempts(r, 0)) then Pass else if Broke(attempts(r, 0)) then Fail else VacuousSkip
      else if IsModule(r) && !args.e2eOnly then
        if PassedPytest(attempts(r, 0)) || PassedPytest(attempts(r, 1)) then Pass
        else if Broke(attempts(r, 1)) then Fail else VacuousSkip
      else Fail
  {
    ClassifyIs(attempts(r, 0));
    ClassifyIs(attempts(r, 1));
    BaseNameIs(r, BaseName(r));
    forall name ensures IsFileName(r, name) <==> name == BaseName(r) { BaseNameIs(r, name); }
  }

  /** Results combine to the worst of them: a failure, then a vacuous skip, then anything that is no pass. */
  lemma CombineIs(results: seq<Result>)
    ensures Combine(results) == Pass <==> forall r :: r in results ==> r == Pass
    ensures Combine(results) == Fail <==> Fail in results
    ensures Combine(results) == VacuousSkip <==> VacuousSkip in results && Fail !in results
    ensures Combine(results) == E2eNotRun
            <==> Fail !in results && VacuousSkip !in results && exists r :: r in results && r != Pass
  {
    if forall r :: r in results ==> r == Pass {
      forall i | 0 <= i < |results| ensures results[i] == Pass { assert results[i] in results; }
    } else {
      var r :| r in results && r != Pass;
      var i :| 0 <= i < |results| && results[i] == r;
    }
  }

  /** The references a capture judges a feature by: all, or only its specs. */
  ghost function JudgedRefs(args: Args, refs: seq<string>): nat -> bool {
    (i: nat) => i < |refs| && (args.e2eOnly ==> IsSpec(refs[i]))
  }

  ghost function SameRef(refs: seq<string>): (nat, string) -> bool {
    (i: nat, r: string) => i < |refs| && r == refs[i]
  }

  lemma SpecsOfSnoc(refs: seq<string>, r: string)
    ensures SpecsOf(refs + [r]) == SpecsOf(refs) + if IsSpec(r) then [r] else []
  {
    if refs == [] {
      assert [] + [r] == [r] && [r][1..] == [];
    } else {
      assert (refs + [r])[1..] == refs[1..] + [r];
      SpecsOfSnoc(refs[1..], r);
    }
  }

  lemma {:induction false} EvalRefsAre(args: Args, refs: seq<string>, k: nat)
    requires k <= |refs|
    ensures Picks(k, JudgedRefs(args, refs), SameRef(refs), EvalRefs(args, refs[..k]))
  {
    var keep, fits := JudgedRefs(args, refs), SameRef(refs);
    if k == 0 {
      PicksNone(keep, fits);
      assert refs[..0] == [];
    } else {
      EvalRefsAre(args, refs, k - 1);
      assert refs[..k] == refs[..k - 1] + [refs[k - 1]];
      SpecsOfSnoc(refs[..k - 1], refs[k - 1]);
      PicksMore(k - 1, keep, fits, EvalRefs(args, refs[..k - 1]), if keep(k - 1) then [refs[k - 1]] else []);
    }
  }

  /** Some reference has this result. */
  ghost predicate Gives(args: Args, attempts: Attempts, refs: seq<string>, x: Result) {
    exists r :: r in refs && RefResult(args, attempts, r) == x
  }

  /** The result of some references: a pass if all pass, a failure if some fails, else a vacuous skip if some is one. */
  ghost predicate JudgedAs(args: Args, attempts: Attempts, refs: seq<string>, x: Result) {
    x in {Pass, Fail, VacuousSkip, E2eNotRun}
    && (x == Pass <==> forall r :: r in refs ==> RefResult(args, attempts, r) == Pass)
    && (x == Fail <==> Gives(args, attempts, refs, Fail))
    && (x == VacuousSkip <==> Gives(args, attempts, refs, VacuousSkip) && !Gives(args, attempts, refs, Fail))
  }

  lemma CombinedIsJudged(args: Args, attempts: Attempts, refs: seq<string>)
    ensures JudgedAs(args, attempts, refs, Combine(RefResults(args, attempts, refs)))
  {
    var results := RefResults(args, attempts, refs);
    CombineIs(results);
    forall x ensures x in results <==> Gives(args, attempts, refs, x) {
      if i :| 0 <= i < |results| && results[i] == x { assert refs[i] in refs; }
      if r :| r in refs && RefResult(args, attempts, r) == x {
        var i :| 0 <= i < |refs| && refs[i] == r;
        assert results[i] == x;
      }
    }
    forall r | r in refs ensures RefResult(args, attempts, r) in results {
      var i :| 0 <= i < |refs| && refs[i] == r;
      assert results[i] == RefResult(args, attempts, r);
    }
  }

  /** What a capture records of a feature: the references it judges, in order, or all when it judges none; the combined
      result of these references; and the fingerprint it was given. */
  lemma RecordIs(args: Args, attempts: Attempts, refs: seq<string>, fingerprint: string)
    ensures var record := RecordOf(args, attempts, refs, fingerprint);
      record.fingerprint == fingerprint
      && if forall i: nat :: i < |refs| ==> !JudgedRefs(args, refs)(i) then
           record.testRefs == refs && record.result == if args.e2eOnly then E2eAxisSkip else NoTests
         else
           Picks(|refs|, JudgedRefs(args, refs), SameRef(refs), record.testRefs)
           && JudgedAs(args, attempts, record.testRefs, record.result)
  {
    var evalRefs := EvalRefs(args, refs);
    EvalRefsAre(args, refs, |refs|);
    assert refs[..|refs|] == refs;
    PicksEmptyIff(|refs|, JudgedRefs(args, refs), SameRef(refs), evalRefs);
    CombinedIsJudged(args, attempts, evalRefs);
  }

  /** The feature's record in the measurement is a pass over the files as they are. */
  predicate Measured(rel: string, refs: seq<string>, m: Option<Artifact>, fingerprint: string) {
    |refs| > 0 && m.Some? && rel in m.value.features
    && m.value.features[rel].result == Pass && m.value.features[rel].fingerprint == fingerprint
  }

  /** Every status has its condition; only deferral, the signature, the measurement and the kinds of the references
      matter. */
  lemma StatusIs(rel: string, deferred: bool, refs: seq<string>, m: Option<Artifact>, signed: set<string>,
                 fingerprint: string)
    ensures var status := ComputeStatus(rel, deferred, refs, m, signed, fingerprint);
      var green := Measured(rel, refs, m, fingerprint);
      (status == Backlog <==> deferred)
      && (status == Done <==> !deferred && rel in signed && green)
      && (status == Ready <==> !deferred && rel in signed && !green)
      && (status == InTest <==> !deferred && rel !in signed
                                && (green || exists r :: r in refs && (EndsWith(r, ".py") || EndsWith(r, ".spec.ts"))))
  {
    if r :| r in refs && (EndsWith(r, ".py") || EndsWith(r, ".spec.ts")) {
      var i :| 0 <= i < |refs| && refs[i] == r;
      assert HasTests(refs);
    }
    if HasTests(refs) {
      var i :| 0 <= i < |refs| && (IsModule(refs[i]) || IsSpec(refs[i]));
      assert refs[i] in refs;
    }
  }

  /** `best` is captured later than all artefacts before it and no earlier than any after it. */
  predicate IsFirstLatest(listing: seq<Artifact>, i: nat)
    requires i < |listing|
  {
    (forall j :: 0 <= j < i ==> listing[j].capturedAt < listing[i].capturedAt)
    && forall j :: i < j < |listing| ==> listing[j].capturedAt <= listing[i].capturedAt
  }

  lemma {:induction false} LatestIs(listing: seq<Artifact>)
    ensures listing != [] ==>
      Latest(listing).Some? && exists i: nat :: i < |listing| && listing[i] == Latest(listing).value
                                                && IsFirstLatest(listing, i)
    ensures listing == [] ==> Latest(listing) == None
  {
    if listing != [] {
      var before, last := listing[..|listing| - 1], listing[|listing| - 1];
      LatestIs(before);
      if before == [] || last.capturedAt > Latest(before).value.capturedAt {
        if before != [] {
          var i: nat :| i < |before| && before[i] == Latest(before).value && IsFirstLatest(before, i);
          assert forall j :: 0 <= j < |before| ==> listing[j] == before[j] && before[j].capturedAt < last.capturedAt;
        }
        assert IsFirstLatest(listing, |listing| - 1);
      } else {
        var i: nat :| i < |before| && before[i] == Latest(before).value && IsFirstLatest(before, i);
        assert listing[i] == before[i] && IsFirstLatest(listing, i);
      }
    }
  }
}

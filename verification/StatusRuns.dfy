/** Feature status as a state machine: steps edit a file, run a full or scoped capture, land a sign-off or squash the
    history (scripts/capture_feature_status.py, feature_status_lib.py, signoff_from_pr.py). */
module StatusRuns {
  import opened Text
  import opened Fingerprint
  import opened FeatureStatus
  import opened Signoff

  /** How a specification is read, which files are features, and the hash. */
  datatype Env = Env(refsOf: string -> seq<string>, deferredOf: string -> bool, isFeature: string -> bool,
                     hash: string -> string)

  /** `measured` holds the files under the measurement directory by their path in it. */
  datatype State = State(files: Files, measured: map<string, Artifact>, ledgers: Ledgers, head: string)

  datatype Step =
    | Edit(path: string, content: Option<string>)
    | RunCapture(args: Args, attempts: Attempts, time: int)
    | LandSignoff(event: Event)
    | Squash(newHead: string)

  function Features(env: Env, files: Files): set<string> {
    set p | p in files && env.isFeature(p)
  }

  function Print(env: Env, files: Files, rel: string): string {
    env.hash(Hashed(files, rel, env.refsOf, GLOBAL_SALT_FILES))
  }

  /** The artefact that a capture writes. */
  function Measure(env: Env, files: Files, args: Args, attempts: Attempts, time: int): Artifact {
    Artifact(time, Captured(args, attempts,
                            map p | p in Features(env, files) :: RefsAt(files, p, env.refsOf),
                            map p | p in Features(env, files) :: Print(env, files, p)))
  }

  /** Where a capture writes its artefact. */
  function ArtifactPath(args: Args, head: string): string {
    (if Scoped(args) then "ci-scoped/" else "") + head + ".json"
  }

  /** What the script's glob `*.json`, which does not descend, finds in the measurement directory. */
  predicate Globbed(path: string) {
    EndsWith(path, ".json") && '/' !in path
  }

  function Visible(measured: map<string, Artifact>): map<string, Artifact> {
    map p | p in measured && Globbed(p) :: measured[p]
  }

  lemma ScopedIsHidden(args: Args, head: string)
    requires Scoped(args)
    ensures !Globbed(ArtifactPath(args, head))
  {
    assert ArtifactPath(args, head)[9] == "ci-scoped/"[9] == '/';
  }

  function Next(env: Env, s: State, step: Step): State {
    match step
    case Edit(path, content) =>
      s.(files := if content.Some? then s.files[path := content.value] else s.files - {path})
    case RunCapture(args, attempts, time) =>
      s.(measured := s.measured[ArtifactPath(args, s.head) := Measure(env, s.files, args, attempts, time)])
    case LandSignoff(event) => s.(ledgers := Land(s.ledgers, event))
    case Squash(newHead) => s.(head := newHead)
  }

  /** An edit gives one path its content, or removes it, and touches nothing else. */
  lemma EditIs(env: Env, s: State, path: string, content: Option<string>)
    ensures var after := Next(env, s, Edit(path, content));
      (path in after.files <==> content.Some?) && (content.Some? ==> after.files[path] == content.value)
      && (forall p :: p != path ==>
            (p in after.files <==> p in s.files) && (p in s.files ==> after.files[p] == s.files[p]))
      && after.(files := s.files) == s
  {
  }

  /** A capture records every feature file, and nothing else, with the hash of its bytes and its references. */
  lemma MeasureIs(env: Env, files: Files, args: Args, attempts: Attempts, time: int)
    ensures var a := Measure(env, files, args, attempts, time);
      a.capturedAt == time && (forall p :: p in a.features <==> p in files && env.isFeature(p))
      && forall p :: p in a.features ==>
           a.features[p].fingerprint == env.hash(Hashed(files, p, env.refsOf, GLOBAL_SALT_FILES))
           && a.features[p] == RecordOf(args, attempts, env.refsOf(files[p]), a.features[p].fingerprint)
  {
  }

  /** The glob finds a capture's artefact exactly when the capture is a full one and the commit's name has no slash. */
  lemma FoundIff(args: Args, head: string)
    ensures Globbed(ArtifactPath(args, head)) <==> !Scoped(args) && '/' !in head
  {
    var path := ArtifactPath(args, head);
    if Scoped(args) {
      ScopedIsHidden(args, head);
    } else {
      assert path == head + ".json" && EndsWith(path, ".json");
      assert forall c :: c in path <==> c in head || c in ".json";
    }
  }

  /** A listing of the measurement directory, in any order. */
  ghost predicate Lists(listing: seq<Artifact>, measured: map<string, Artifact>) {
    forall a :: a in listing <==> a in Visible(measured).Values
  }

  function StatusOf(env: Env, s: State, listing: seq<Artifact>, rel: string): Status
    requires rel in s.files
  {
    ComputeStatus(rel, env.deferredOf(s.files[rel]), RefsAt(s.files, rel, env.refsOf), Latest(listing),
                  Signed(s.ledgers), Print(env, s.files, rel))
  }

  // ----- runs

  ghost predicate IsRun(env: Env, states: seq<State>, steps: seq<Step>) {
    |states| == |steps| + 1 && states[0].measured == map[] && states[0].ledgers == map[]
    && forall i :: 0 <= i < |steps| ==> states[i + 1] == Next(env, states[i], steps[i])
  }

  /** Step `i` is a full capture that measured `a`. */
  ghost predicate Measured(env: Env, states: seq<State>, steps: seq<Step>, i: int, a: Artifact) {
    0 <= i < |steps| < |states| && steps[i].RunCapture? && !Scoped(steps[i].args)
    && a == Measure(env, states[i].files, steps[i].args, steps[i].attempts, steps[i].time)
  }

  /** Every artefact that the glob finds came from a full capture of the run. */
  lemma {:induction false} ArtifactsWereMeasured(env: Env, states: seq<State>, steps: seq<Step>, a: Artifact)
    requires IsRun(env, states, steps) && a in Visible(states[|steps|].measured).Values
    ensures exists i :: Measured(env, states, steps, i, a)
    decreases |steps|
  {
    if |steps| > 0 {
      var n := |steps| - 1;
      if a in Visible(states[n].measured).Values {
        assert IsRun(env, states[..n + 1], steps[..n]);
        ArtifactsWereMeasured(env, states[..n + 1], steps[..n], a);
        var i :| Measured(env, states[..n + 1], steps[..n], i, a);
        assert Measured(env, states, steps, i, a);
      } else {
        NewArtifact(env, states[n], steps[n], a);
        assert Measured(env, states, steps, n, a);
      }
    }
  }

  /** Only a full capture adds to what the glob finds. */
  lemma NewArtifact(env: Env, s: State, step: Step, a: Artifact)
    requires a in Visible(Next(env, s, step).measured).Values && a !in Visible(s.measured).Values
    ensures step.RunCapture? && !Scoped(step.args)
    ensures a == Measure(env, s.files, step.args, step.attempts, step.time)
  {
    if step.RunCapture? {
      var path := ArtifactPath(step.args, s.head);
      VisibleAfter(s.measured, path, Measure(env, s.files, step.args, step.attempts, step.time), a);
      if Scoped(step.args) { ScopedIsHidden(step.args, s.head); }
    }
  }

  lemma VisibleAfter(measured: map<string, Artifact>, path: string, written: Artifact, a: Artifact)
    requires a in Visible(measured[path := written]).Values
    ensures a in Visible(measured).Values || (a == written && Globbed(path))
  {
    var after := Visible(measured[path := written]);
    var p :| p in after && after[p] == a;
    if p != path { assert p in Visible(measured) && Visible(measured)[p] == a; }
  }

  /** What stands behind a feature that is done: some ledger covers it, and step `i` was a full capture in which it
      had test references, each of which ended with exit 0 and a pass within its allowed runs, over a byte string
      equal to the one its files give now. */
  ghost predicate DoneEvidence(env: Env, states: seq<State>, steps: seq<Step>, i: int, rel: string) {
    0 <= i < |steps| < |states| && steps[i].RunCapture? && !Scoped(steps[i].args) && rel in states[i].files
    && (var refs := RefsAt(states[i].files, rel, env.refsOf);
        refs != [] && forall r :: r in refs ==> Evidence(steps[i].args, steps[i].attempts, r))
    && Hashed(states[i].files, rel, env.refsOf, GLOBAL_SALT_FILES)
       == Hashed(states[|steps|].files, rel, env.refsOf, GLOBAL_SALT_FILES)
  }

  ghost predicate CollisionFree(hash: string -> string) {
    forall a, b :: hash(a) == hash(b) ==> a == b
  }

  /** In every reachable state and for every listing order, Done means signed and measured. */
  lemma DoneMeansEvidence(env: Env, states: seq<State>, steps: seq<Step>, listing: seq<Artifact>, rel: string)
    returns (i: int)
    requires IsRun(env, states, steps) && CollisionFree(env.hash)
    requires rel in states[|steps|].files && Lists(listing, states[|steps|].measured)
    requires StatusOf(env, states[|steps|], listing, rel) == Done
    ensures DoneEvidence(env, states, steps, i, rel)
    ensures exists scope :: scope in states[|steps|].ledgers && rel in FeaturesIn(states[|steps|].ledgers[scope])
  {
    var now := states[|steps|];
    var a := Latest(listing).value;
    ArtifactsWereMeasured(env, states, steps, a);
    i :| Measured(env, states, steps, i, a);
    var past, args := states[i].files, steps[i].args;
    assert rel in Features(env, past);
    var refs := RefsAt(past, rel, env.refsOf);
    assert a.features[rel] == RecordOf(args, steps[i].attempts, refs, Print(env, past, rel));
    PassIffEvidence(args, steps[i].attempts, refs);
    assert env.hash(Hashed(past, rel, env.refsOf, GLOBAL_SALT_FILES))
        == env.hash(Hashed(now.files, rel, env.refsOf, GLOBAL_SALT_FILES));
  }

  /** When the covered files are text, Done also means that since that capture neither the specification, nor the
      references, nor any test or shared salt they name has changed. */
  lemma DoneMeansUnchanged(env: Env, states: seq<State>, steps: seq<Step>, i: int, rel: string)
    requires DoneEvidence(env, states, steps, i, rel) && rel in states[|steps|].files
    requires CoveredClean(states[i].files, rel, env.refsOf, GLOBAL_SALT_FILES)
    requires CoveredClean(states[|steps|].files, rel, env.refsOf, GLOBAL_SALT_FILES)
    ensures states[i].files[rel] == states[|steps|].files[rel]
    ensures forall s :: s in Slots(rel, RefsAt(states[i].files, rel, env.refsOf), GLOBAL_SALT_FILES) ==>
      Shown(s, states[i].files) == Shown(s, states[|steps|].files)
  {
    CleanFingerprintsAgree(states[i].files, states[|steps|].files, rel, env.refsOf, GLOBAL_SALT_FILES);
  }

  /** Squashing history and scoped captures change no status: what they leave, the glob does not find. */
  lemma SquashAndScopedChangeNothing(env: Env, s: State, step: Step, listing: seq<Artifact>, rel: string)
    requires step.Squash? || (step.RunCapture? && Scoped(step.args))
    requires rel in s.files && Lists(listing, s.measured)
    ensures Lists(listing, Next(env, s, step).measured)
    ensures rel in Next(env, s, step).files
    ensures StatusOf(env, Next(env, s, step), listing, rel) == StatusOf(env, s, listing, rel)
  {
    if step.RunCapture? {
      ScopedIsHidden(step.args, s.head);
      assert Visible(Next(env, s, step).measured) == Visible(s.measured);
    }
  }

  lemma LandOnlyGrows(ledgers: Ledgers, event: Event)
    ensures Signed(ledgers) <= Signed(Land(ledgers, event))
  {
    LedgersOnlyGrow(ledgers, [event]);
    assert LandAll(ledgers, [event]) == Land(ledgers, event) by {
      assert [event][1..] == [];
    }
  }

  lemma MoreSignedIsNoLower(rel: string, deferred: bool, refs: seq<string>, measurement: Option<Artifact>,
                            signed: set<string>, more: set<string>, fingerprint: string)
    requires signed <= more
    ensures var before := ComputeStatus(rel, deferred, refs, measurement, signed, fingerprint);
      var after := ComputeStatus(rel, deferred, refs, measurement, more, fingerprint);
      (before == Backlog <==> after == Backlog) && Rank(before) <= Rank(after)
  {
  }

  /** Landing a sign-off never lowers a status on the ladder, and leaves Backlog alone. */
  lemma LandingNeverLowers(env: Env, s: State, event: Event, listing: seq<Artifact>, rel: string)
    requires rel in s.files
    ensures var before := StatusOf(env, s, listing, rel);
      var after := StatusOf(env, Next(env, s, LandSignoff(event)), listing, rel);
      (before == Backlog <==> after == Backlog) && Rank(before) <= Rank(after)
  {
    LandOnlyGrows(s.ledgers, event);
    MoreSignedIsNoLower(rel, env.deferredOf(s.files[rel]), RefsAt(s.files, rel, env.refsOf), Latest(listing),
                        Signed(s.ledgers), Signed(Land(s.ledgers, event)), Print(env, s.files, rel));
  }

  lemma {:induction false} LatestIsMax(listing: seq<Artifact>, a: Artifact)
    requires a in listing
    ensures Latest(listing).Some? && a.capturedAt <= Latest(listing).value.capturedAt
  {
    var n := |listing| - 1;
    if a in listing[..n] { LatestIsMax(listing[..n], a); } else { assert listing == listing[..n] + [listing[n]]; }
  }

  /** A full capture under a commit id is found by the glob, and it is the latest if all others found are older. */
  lemma FreshCaptureIsLatest(env: Env, s: State, args: Args, attempts: Attempts, time: int, listing: seq<Artifact>)
    requires !Scoped(args) && '/' !in s.head && Lists(listing, Next(env, s, RunCapture(args, attempts, time)).measured)
    requires forall a :: a in Visible(s.measured).Values ==> a.capturedAt < time
    ensures Latest(listing) == Some(Measure(env, s.files, args, attempts, time))
  {
    var shot, next := Measure(env, s.files, args, attempts, time), Next(env, s, RunCapture(args, attempts, time));
    var path := ArtifactPath(args, s.head);
    assert path == s.head + ".json" && path[|path| - 5..] == ".json";
    assert '/' !in ".json";
    assert Visible(next.measured)[path] == shot && shot in Visible(next.measured).Values;
    LatestIsMax(listing, shot);
    VisibleAfter(s.measured, path, shot, Latest(listing).value);
  }

  /** After a passing full capture, later than all others, an undeferred signed feature is Done. */
  lemma FreshCaptureMakesDone(env: Env, s: State, args: Args, attempts: Attempts, time: int, listing: seq<Artifact>,
                              rel: string)
    requires rel in s.files && env.isFeature(rel) && !env.deferredOf(s.files[rel]) && rel in Signed(s.ledgers)
    requires !Scoped(args) && RefsAt(s.files, rel, env.refsOf) != []
    requires forall r :: r in RefsAt(s.files, rel, env.refsOf) ==> Evidence(args, attempts, r)
    requires '/' !in s.head && Lists(listing, Next(env, s, RunCapture(args, attempts, time)).measured)
    requires forall a :: a in Visible(s.measured).Values ==> a.capturedAt < time
    ensures StatusOf(env, Next(env, s, RunCapture(args, attempts, time)), listing, rel) == Done
  {
    FreshCaptureIsLatest(env, s, args, attempts, time, listing);
    FreshCaptureIsGreen(env, s.files, args, attempts, time, rel);
  }

  lemma FreshCaptureIsGreen(env: Env, files: Files, args: Args, attempts: Attempts, time: int, rel: string)
    requires rel in files && env.isFeature(rel) && !Scoped(args) && RefsAt(files, rel, env.refsOf) != []
    requires forall r :: r in RefsAt(files, rel, env.refsOf) ==> Evidence(args, attempts, r)
    ensures Green(rel, RefsAt(files, rel, env.refsOf), Some(Measure(env, files, args, attempts, time)),
                  Print(env, files, rel))
  {
    PassIffEvidence(args, attempts, RefsAt(files, rel, env.refsOf));
    assert rel in Features(env, files);
  }
}

/** How exact the chain classification of scripts/check_read_path_full_scan.py (lines 288-411) is, for any test of what
    narrows a query, over all runs of a block. */
module FullScanExact {
  import opened Text
  import opened QueryChains
  import opened FullScanCheck

  // ----- queries and runs

  datatype Query = Query(model: string, limited: bool, filters: seq<Expr>)

  type Env = map<string, Query>

  /** One builder method: `where` adds its conditions, `limit` limits, anything else keeps the query's rows. */
  function Extend(q: Query, name: string, args: seq<Expr>): Query {
    if name == "where" then q.(filters := q.filters + args)
    else if name == "limit" then q.(limited := true)
    else q
  }

  function EvalQuery(e: Expr, env: Env): Option<Query> {
    if IsMethodCall(e) then
      var receiver := EvalQuery(e.func.value, env);
      if receiver.Some? then Some(Extend(receiver.value, e.func.attr, e.args)) else None
    else if e.Name? then
      if e.id in env then Some(env[e.id]) else None
    else if SelectCallModel(e).Some? then Some(Query(SelectCallModel(e).value, false, []))
    else None
  }

  predicate Narrowed(q: Query, t: Test) {
    q.limited || AnyPasses(q.filters, t)
  }

  predicate FullScanBy(q: Option<Query>, t: Test) {
    q.Some? && q.value.model in HOT_MODELS && !Narrowed(q.value, t)
  }

  /** What the check exists to catch: a hot table listed without a limit and without a condition that separates rows of
      one tenant. */
  ghost predicate FullScan(q: Option<Query>) {
    q.Some? && q.value.model in HOT_MODELS && !q.value.limited && !SomeSeparates(q.value.filters, q.value.model)
  }

  lemma FullScanIff(q: Option<Query>)
    ensures FullScan(q) <==> q.Some? && FullScanBy(q, Real(q.value.model))
  {
    if q.Some? { SomeSeparatesIff(q.value.filters, q.value.model); }
  }

  function Bind(s: Stmt, env: Env): Env
    requires s.Assign?
  {
    if |s.targets| != 1 || !s.targets[0].Name? then env
    else
      var q := EvalQuery(s.rhs, env);
      if q.Some? then env[s.targets[0].id := q.value] else env - {s.targets[0].id}
  }

  /** `env'` is what some choice of branches makes of `env` when the block runs to its end. */
  ghost predicate Run(block: seq<Stmt>, env: Env, env': Env) {
    if block == [] then env' == env
    else exists mid :: Step(block[0], env, mid) && Run(block[1..], mid, env')
  }

  /** An `if` may go either way, a `with` always runs its block, and a `return` ends the run. */
  ghost predicate Step(s: Stmt, env: Env, env': Env) {
    match s
    case Assign(_, _) => env' == Bind(s, env)
    case If(_, body, orelse) => Run(body, env, env') || Run(orelse, env, env')
    case With(_, block) => Run(block, env, env')
    case Return(_) => false
    case ExprStmt(_) => env' == env
  }

  /** Some run of the prefix brings a full scan to the expression, as the test sees it. */
  ghost predicate LeaksBy(prefix: seq<Stmt>, e: Expr, t: Test) {
    exists env :: Run(prefix, map[], env) && FullScanBy(EvalQuery(e, env), t)
  }

  /** Some run of the prefix brings a full scan to the expression. */
  ghost predicate Leaks(prefix: seq<Stmt>, e: Expr) {
    exists env :: Run(prefix, map[], env) && FullScan(EvalQuery(e, env))
  }

  // ----- blocks that no run gets past

  predicate Stops(s: Stmt) {
    match s
    case Return(_) => true
    case If(_, body, orelse) => StopsBlock(body) && StopsBlock(orelse)
    case With(_, block) => StopsBlock(block)
    case _ => false
  }

  predicate StopsBlock(block: seq<Stmt>) {
    block != [] && (Stops(block[0]) || StopsBlock(block[1..]))
  }

  lemma {:induction false} StoppedHasNoRun(block: seq<Stmt>, env: Env, env': Env)
    requires Run(block, env, env')
    ensures !StopsBlock(block)
  {
    if block != [] {
      var mid :| Step(block[0], env, mid) && Run(block[1..], mid, env');
      match block[0] {
        case If(_, body, orelse) =>
          if Run(body, env, mid) { StoppedHasNoRun(body, env, mid); } else { StoppedHasNoRun(orelse, env, mid); }
        case With(_, inner) => StoppedHasNoRun(inner, env, mid);
        case _ =>
      }
      StoppedHasNoRun(block[1..], mid, env');
    }
  }

  // ----- tidy blocks: one start per name, continuations of the same name, returns of what is no query

  /** The names a block starts. */
  function Tracked(block: seq<Stmt>, tracked: set<string>): set<string> {
    if block == [] then tracked else Tracked(block[1..], TrackedBy(block[0], tracked))
  }

  function TrackedBy(s: Stmt, tracked: set<string>): set<string> {
    match s
    case Assign(targets, rhs) =>
      if |targets| == 1 && targets[0].Name? && SelectModel(rhs).Some? then tracked + {targets[0].id} else tracked
    case With(_, block) => Tracked(block, tracked)
    case _ => tracked
  }

  predicate Tidy(block: seq<Stmt>, conditional: bool, tracked: set<string>) {
    block == [] ||
    (TidyStmt(block[0], conditional, tracked) && Tidy(block[1..], conditional, TrackedBy(block[0], tracked)))
  }

  predicate TidyStmt(s: Stmt, conditional: bool, tracked: set<string>) {
    match s
    case Assign(targets, rhs) =>
      |targets| == 1 &&
      if !targets[0].Name? then Spares(targets[0], tracked)
      else if SelectModel(rhs).Some? then !conditional && targets[0].id !in tracked
      else if Root(rhs) == targets[0] then rhs.Call? && targets[0].id in tracked
      else targets[0].id !in tracked && Unrelated(rhs, tracked)
    case If(_, body, orelse) => Tidy(body, true, tracked) && Tidy(orelse, true, tracked)
    case With(_, block) => Tidy(block, conditional, tracked)
    case Return(result) => result.Some? ==> IsBare(result.value)
    case ExprStmt(_) => true
  }

  /** An expression that is no query and continues none, as in `return []`. */
  predicate IsBare(e: Expr) {
    SelectModel(e) == None && !Root(e).Name?
  }

  /** An assignment target that rebinds no tracked name: no such name stands in it, as in a tuple. */
  predicate Spares(target: Expr, tracked: set<string>) {
    match target
    case Name(id) => id !in tracked
    case Other(children) => forall i :: 0 <= i < |children| ==> Spares(children[i], tracked)
    case _ => true
  }

  predicate Unrelated(e: Expr, tracked: set<string>) {
    Root(e).Name? ==> Root(e).id !in tracked
  }

  function ChainsOf(body: seq<Stmt>): Chains {
    Collect(Statements(body, [ScopeNode]), map[])
  }

  // ----- branches that add nothing

  predicate Continues(s: Stmt, x: string) {
    s.Assign? && |s.targets| == 1 && s.targets[0] == Name(x)
    && (SelectModel(s.rhs).Some? || Root(s.rhs) == Name(x))
  }

  /** Some way through the block adds no limit and no filter that passes the test to `x`. */
  predicate Idle(block: seq<Stmt>, x: string, t: Test) {
    block == [] || (IdleStmt(block[0], x, t) && Idle(block[1..], x, t))
  }

  predicate IdleStmt(s: Stmt, x: string, t: Test) {
    match s
    case If(_, body, orelse) => Idle(body, x, t) || Idle(orelse, x, t)
    case With(_, block) => Idle(block, x, t)
    case Return(_) => false
    case _ => Continues(s, x) ==> !Narrows(s.rhs, t)
  }

  /** Every outermost `if` has a way through that adds nothing to `x`, and no other statement stops the run. */
  predicate IfsIdle(block: seq<Stmt>, x: string, t: Test) {
    block == [] || (IfsIdleStmt(block[0], x, t) && IfsIdle(block[1..], x, t))
  }

  predicate IfsIdleStmt(s: Stmt, x: string, t: Test) {
    match s
    case If(_, body, orelse) => Idle(body, x, t) || Idle(orelse, x, t)
    case With(_, block) => IfsIdle(block, x, t)
    case Return(_) => false
    case _ => true
  }

  /** No outermost `if` has an else, and all returns stand under an `if`. */
  predicate NoElse(block: seq<Stmt>) {
    block == [] || (NoElseStmt(block[0]) && NoElse(block[1..]))
  }

  predicate NoElseStmt(s: Stmt) {
    match s
    case If(_, _, orelse) => orelse == []
    case With(_, block) => NoElse(block)
    case Return(_) => false
    case _ => true
  }

  lemma {:induction false} NoElseIsIdle(block: seq<Stmt>, x: string, t: Test)
    requires NoElse(block)
    ensures IfsIdle(block, x, t)
  {
    if block != [] {
      if block[0].With? { NoElseIsIdle(block[0].block, x, t); }
      NoElseIsIdle(block[1..], x, t);
    }
  }

  lemma {:induction false} NoElseDoesNotStop(block: seq<Stmt>)
    requires NoElse(block)
    ensures !StopsBlock(block)
  {
    if block != [] {
      if block[0].With? { NoElseDoesNotStop(block[0].block); }
      assert !StopsBlock([]) && !Stops(block[0]);
      NoElseDoesNotStop(block[1..]);
    }
  }

  // ----- evaluating a chain

  lemma {:induction false} EvalSplits(e: Expr, env: Env, t: Test)
    ensures SelectModel(e).Some? ==>
      EvalQuery(e, env).Some? && EvalQuery(e, env).value.model == SelectModel(e).value
      && (Narrowed(EvalQuery(e, env).value, t) <==> Narrows(e, t))
    ensures Root(e).Name? && Root(e).id in env ==>
      EvalQuery(e, env).Some? && EvalQuery(e, env).value.model == env[Root(e).id].model
      && (Narrowed(EvalQuery(e, env).value, t) <==> Narrowed(env[Root(e).id], t) || Narrows(e, t))
    ensures SelectModel(e) == None && (Root(e).Name? ==> Root(e).id !in env) ==> EvalQuery(e, env) == None
  {
    if IsMethodCall(e) {
      var recv, args := e.func.value, e.args;
      EvalSplits(recv, env, t);
      AnyPassesConcat(if e.func.attr == "where" then args else [], WhereArgs(recv), t);
      if EvalQuery(recv, env).Some? {
        AnyPassesConcat(EvalQuery(recv, env).value.filters, args, t);
      }
    }
  }

  // ----- every run of a block

  /** Runs of a block keep each tracked query's model, never widen it, and track exactly the started names. */
  ghost predicate Grows(env: Env, env': Env, t: Test) {
    env.Keys <= env'.Keys
    && forall x :: x in env ==> env'[x].model == env[x].model && (Narrowed(env[x], t) ==> Narrowed(env'[x], t))
  }

  lemma {:induction false} RunGrows(block: seq<Stmt>, conditional: bool, env: Env, env': Env, t: Test)
    requires Tidy(block, conditional, env.Keys) && Run(block, env, env')
    ensures Grows(env, env', t) && env'.Keys == Tracked(block, env.Keys)
  {
    if block != [] {
      var mid :| Step(block[0], env, mid) && Run(block[1..], mid, env');
      StepGrows(block[0], conditional, env, mid, t);
      RunGrows(block[1..], conditional, mid, env', t);
    }
  }

  lemma {:induction false} StepGrows(s: Stmt, conditional: bool, env: Env, env': Env, t: Test)
    requires TidyStmt(s, conditional, env.Keys) && Step(s, env, env')
    ensures Grows(env, env', t) && env'.Keys == TrackedBy(s, env.Keys)
  {
    match s
    case Assign(_, rhs) => EvalSplits(rhs, env, t);
    case If(_, body, orelse) =>
      ConditionalStartsNothing(body, env.Keys);
      ConditionalStartsNothing(orelse, env.Keys);
      if Run(body, env, env') { RunGrows(body, true, env, env', t); } else { RunGrows(orelse, true, env, env', t); }
    case With(_, block) => RunGrows(block, conditional, env, env', t);
    case _ =>
  }

  lemma {:induction false} ConditionalStartsNothing(block: seq<Stmt>, tracked: set<string>)
    requires Tidy(block, true, tracked)
    ensures Tracked(block, tracked) == tracked
  {
    if block != [] {
      if block[0].With? { ConditionalStartsNothing(block[0].block, tracked); }
      ConditionalStartsNothing(block[1..], tracked);
    }
  }

  /** A block with no idle way through narrows `x` on every run. */
  lemma {:induction false} BusyRunNarrows(block: seq<Stmt>, conditional: bool, x: string, env: Env, env': Env, t: Test)
    requires Tidy(block, conditional, env.Keys) && Run(block, env, env') && !Idle(block, x, t)
    ensures x in env' && Narrowed(env'[x], t)
  {
    var mid :| Step(block[0], env, mid) && Run(block[1..], mid, env');
    StepGrows(block[0], conditional, env, mid, t);
    RunGrows(block[1..], conditional, mid, env', t);
    if Idle(block[1..], x, t) {
      BusyStepNarrows(block[0], conditional, x, env, mid, t);
    } else {
      BusyRunNarrows(block[1..], conditional, x, mid, env', t);
    }
  }

  lemma {:induction false} BusyStepNarrows(s: Stmt, conditional: bool, x: string, env: Env, env': Env, t: Test)
    requires TidyStmt(s, conditional, env.Keys) && Step(s, env, env') && !IdleStmt(s, x, t)
    ensures x in env' && Narrowed(env'[x], t)
  {
    match s
    case Assign(_, rhs) => EvalSplits(rhs, env, t);
    case If(_, body, orelse) =>
      if Run(body, env, env') {
        BusyRunNarrows(body, true, x, env, env', t);
      } else {
        BusyRunNarrows(orelse, true, x, env, env', t);
      }
    case With(_, block) => BusyRunNarrows(block, conditional, x, env, env', t);
    case _ =>
  }

  predicate Open(env: Env, x: string, t: Test) {
    x in env ==> !Narrowed(env[x], t)
  }

  /** An idle block has a run that leaves `x` as wide as it was. */
  lemma {:induction false} IdleRunExists(block: seq<Stmt>, conditional: bool, x: string, env: Env, t: Test)
    returns (env': Env)
    requires Tidy(block, conditional, env.Keys) && Idle(block, x, t) && Open(env, x, t)
    ensures Run(block, env, env') && Open(env', x, t)
  {
    if block == [] {
      env' := env;
    } else {
      var mid := IdleStepExists(block[0], conditional, x, env, t);
      StepGrows(block[0], conditional, env, mid, t);
      env' := IdleRunExists(block[1..], conditional, x, mid, t);
    }
  }

  lemma {:induction false} IdleStepExists(s: Stmt, conditional: bool, x: string, env: Env, t: Test) returns (env': Env)
    requires TidyStmt(s, conditional, env.Keys) && IdleStmt(s, x, t) && Open(env, x, t)
    ensures Step(s, env, env') && Open(env', x, t)
  {
    match s
    case Assign(_, rhs) =>
      EvalSplits(rhs, env, t);
      env' := Bind(s, env);
    case If(_, body, orelse) =>
      if Idle(body, x, t) {
        env' := IdleRunExists(body, true, x, env, t);
      } else {
        env' := IdleRunExists(orelse, true, x, env, t);
      }
    case With(_, block) => env' := IdleRunExists(block, conditional, x, env, t);
    case ExprStmt(_) => env' := env;
  }

  /** Every tidy block that does not stop has a run. */
  lemma {:induction false} RunExists(block: seq<Stmt>, conditional: bool, env: Env) returns (env': Env)
    requires Tidy(block, conditional, env.Keys) && !StopsBlock(block)
    ensures Run(block, env, env')
  {
    if block == [] {
      env' := env;
    } else {
      var mid := StepExists(block[0], conditional, env);
      StepGrows(block[0], conditional, env, mid, Seen);
      env' := RunExists(block[1..], conditional, mid);
    }
  }

  lemma {:induction false} StepExists(s: Stmt, conditional: bool, env: Env) returns (env': Env)
    requires TidyStmt(s, conditional, env.Keys) && !Stops(s)
    ensures Step(s, env, env')
  {
    match s
    case Assign(_, _) => env' := Bind(s, env);
    case If(_, body, orelse) =>
      if StopsBlock(body) { env' := RunExists(orelse, true, env); } else { env' := RunExists(body, true, env); }
    case With(_, block) => env' := RunExists(block, conditional, env);
    case ExprStmt(_) => env' := env;
  }

  // ----- what the collector gathers

  /** The unconditional part of the chains that the collector gathers. */
  ghost predicate SameVerdicts(chains: Chains, chains': Chains, t: Test) {
    chains.Keys == chains'.Keys
    && forall x :: x in chains ==>
      FirstModel(chains[x]) == FirstModel(chains'[x]) && (SomeNarrows(chains[x], t) <==> SomeNarrows(chains'[x], t))
  }

  lemma {:induction false} FirstModelSnoc(segments: seq<Segment>, s: Segment)
    ensures FirstModel(segments + [s]) == if FirstModel(segments).Some? then FirstModel(segments)
                                          else if s.conditional then None else SelectModel(s.expr)
  {
    if segments != [] {
      assert (segments + [s])[1..] == segments[1..] + [s];
      FirstModelSnoc(segments[1..], s);
    }
  }

  lemma {:induction false} ConditionalCollect(block: seq<Stmt>, ancestors: seq<Kind>, chains: Chains, t: Test)
    requires Tidy(block, true, chains.Keys) && InsideIf(ancestors)
    ensures SameVerdicts(chains, Collect(Statements(block, ancestors), chains), t)
  {
    if block != [] {
      var first, rest := StatementsOf(block[0], ancestors), Statements(block[1..], ancestors);
      CollectConcat(first, rest, chains);
      ConditionalCollectStmt(block[0], ancestors, chains, t);
      ConditionalStartsNothing([block[0]], chains.Keys);
      ConditionalCollect(block[1..], ancestors, Collect(first, chains), t);
    }
  }

  lemma {:induction false} ConditionalCollectStmt(s: Stmt, ancestors: seq<Kind>, chains: Chains, t: Test)
    requires TidyStmt(s, true, chains.Keys) && InsideIf(ancestors)
    ensures SameVerdicts(chains, Collect(StatementsOf(s, ancestors), chains), t)
  {
    var v := Visited(s, ancestors);
    match s
    case Assign(targets, rhs) =>
      assert StatementsOf(s, ancestors) == [v];
      assert Collect([v], chains) == CollectOne(v, chains);
      if CollectOne(v, chains) != chains {
        FirstModelSnoc(chains[targets[0].id], Segment(rhs, true));
        SomeSnoc(chains[targets[0].id], Segment(rhs, true), t);
      }
    case If(_, body, orelse) =>
      IfNodes(v, body, orelse, chains);
      ConditionalCollect(body, [IfNode] + ancestors, chains, t);
      ConditionalCollect(orelse, [IfNode] + ancestors, Collect(Statements(body, [IfNode] + ancestors), chains), t);
    case With(_, block) =>
      WithNodes(v, block, chains);
      ConditionalCollect(block, [OtherNode] + ancestors, chains, t);
    case _ =>
      assert Collect([v], chains) == chains;
  }

  lemma IfNodes(v: Visited, body: seq<Stmt>, orelse: seq<Stmt>, chains: Chains)
    requires v.stmt.If? && v.stmt.body == body && v.stmt.orelse == orelse
    ensures var anc := [IfNode] + v.ancestors;
      Collect(StatementsOf(v.stmt, v.ancestors), chains)
      == Collect(Statements(orelse, anc), Collect(Statements(body, anc), chains))
  {
    var anc := [IfNode] + v.ancestors;
    var a, b := Statements(body, anc), Statements(orelse, anc);
    assert StatementsOf(v.stmt, v.ancestors) == [v] + (a + b);
    assert ([v] + (a + b))[1..] == a + b;
    CollectConcat(a, b, chains);
  }

  lemma WithNodes(v: Visited, block: seq<Stmt>, chains: Chains)
    requires v.stmt.With? && v.stmt.block == block
    ensures Collect(StatementsOf(v.stmt, v.ancestors), chains)
         == Collect(Statements(block, [OtherNode] + v.ancestors), chains)
  {
    var a := Statements(block, [OtherNode] + v.ancestors);
    assert StatementsOf(v.stmt, v.ancestors) == [v] + a;
    assert ([v] + a)[1..] == a;
  }

  /** The chains agree with a run on the models, and know of every narrowing that no run can avoid. */
  ghost predicate Agrees(chains: Chains, env: Env) {
    chains.Keys == env.Keys && forall x :: x in chains ==> FirstModel(chains[x]) == Some(env[x].model)
  }

  /** `x` has no unconditional narrowing so far. */
  ghost predicate Loose(chains: Chains, x: string, t: Test) {
    x in chains ==> !SomeNarrows(chains[x], t)
  }

  lemma {:induction false} CollectAgrees(block: seq<Stmt>, ancestors: seq<Kind>, chains: Chains, env: Env, env': Env,
                                         t: Test)
    requires Tidy(block, false, env.Keys) && !InsideIf(ancestors)
    requires Agrees(chains, env) && Run(block, env, env')
    ensures Agrees(Collect(Statements(block, ancestors), chains), env')
  {
    if block != [] {
      var mid :| Step(block[0], env, mid) && Run(block[1..], mid, env');
      var first, rest := StatementsOf(block[0], ancestors), Statements(block[1..], ancestors);
      CollectConcat(first, rest, chains);
      StepGrows(block[0], false, env, mid, t);
      CollectAgreesStmt(block[0], ancestors, chains, env, mid, t);
      CollectAgrees(block[1..], ancestors, Collect(first, chains), mid, env', t);
    }
  }

  lemma {:induction false} CollectAgreesStmt(s: Stmt, ancestors: seq<Kind>, chains: Chains, env: Env, env': Env,
                                             t: Test)
    requires TidyStmt(s, false, env.Keys) && !InsideIf(ancestors)
    requires Agrees(chains, env) && Step(s, env, env')
    ensures Agrees(Collect(StatementsOf(s, ancestors), chains), env')
  {
    var v := Visited(s, ancestors);
    match s
    case Assign(_, _) => AssignAgrees(v, chains, env, t);
    case If(_, body, orelse) =>
      IfNodes(v, body, orelse, chains);
      ConditionalCollect(body, [IfNode] + ancestors, chains, t);
      ConditionalCollect(orelse, [IfNode] + ancestors, Collect(Statements(body, [IfNode] + ancestors), chains), t);
      StepGrows(s, false, env, env', t);
    case With(_, block) =>
      WithNodes(v, block, chains);
      CollectAgrees(block, [OtherNode] + ancestors, chains, env, env', t);
    case ExprStmt(_) =>
      assert Collect([v], chains) == chains;
    case Return(_) =>
  }

  lemma AssignAgrees(v: Visited, chains: Chains, env: Env, t: Test)
    requires v.stmt.Assign? && TidyStmt(v.stmt, false, env.Keys) && !InsideIf(v.ancestors) && Agrees(chains, env)
    ensures Agrees(Collect(StatementsOf(v.stmt, v.ancestors), chains), Bind(v.stmt, env))
  {
    var targets, rhs := v.stmt.targets, v.stmt.rhs;
    EvalSplits(rhs, env, t);
    assert StatementsOf(v.stmt, v.ancestors) == [v] && [v][1..] == [];
    assert Collect([v], chains) == CollectOne(v, chains);
    if targets[0].Name? && targets[0].id in chains {
      FirstModelSnoc(chains[targets[0].id], Segment(rhs, false));
    }
    assert FirstModel([Segment(rhs, false)]) == SelectModel(rhs) by {
      assert [Segment(rhs, false)][1..] == [];
    }
  }

  /** A block is idle for `x` exactly when no unconditional link narrows it and every outermost `if` can avoid
      narrowing it. */
  lemma {:induction false} LooseAfter(block: seq<Stmt>, ancestors: seq<Kind>, chains: Chains, x: string, t: Test)
    requires Tidy(block, false, chains.Keys) && !InsideIf(ancestors)
    ensures var after := Collect(Statements(block, ancestors), chains);
      after.Keys == Tracked(block, chains.Keys)
      && (Loose(chains, x, t) && Idle(block, x, t) <==> Loose(after, x, t) && IfsIdle(block, x, t))
      && (Loose(after, x, t) ==> Loose(chains, x, t))
  {
    if block != [] {
      var first, rest := StatementsOf(block[0], ancestors), Statements(block[1..], ancestors);
      CollectConcat(first, rest, chains);
      LooseAfterStmt(block[0], ancestors, chains, x, t);
      LooseAfter(block[1..], ancestors, Collect(first, chains), x, t);
    }
  }

  lemma {:induction false} LooseAfterStmt(s: Stmt, ancestors: seq<Kind>, chains: Chains, x: string, t: Test)
    requires TidyStmt(s, false, chains.Keys) && !InsideIf(ancestors)
    ensures var after := Collect(StatementsOf(s, ancestors), chains);
      after.Keys == TrackedBy(s, chains.Keys)
      && (Loose(chains, x, t) && IdleStmt(s, x, t) <==> Loose(after, x, t) && IfsIdleStmt(s, x, t))
      && (Loose(after, x, t) ==> Loose(chains, x, t))
  {
    var v := Visited(s, ancestors);
    match s
    case Assign(_, _) => LooseAfterAssign(v, chains, x, t);
    case If(_, body, orelse) =>
      IfNodes(v, body, orelse, chains);
      ConditionalCollect(body, [IfNode] + ancestors, chains, t);
      ConditionalCollect(orelse, [IfNode] + ancestors, Collect(Statements(body, [IfNode] + ancestors), chains), t);
    case With(_, block) =>
      WithNodes(v, block, chains);
      LooseAfter(block, [OtherNode] + ancestors, chains, x, t);
    case _ =>
      assert Collect([v], chains) == chains;
  }

  lemma LooseAfterAssign(v: Visited, chains: Chains, x: string, t: Test)
    requires v.stmt.Assign? && TidyStmt(v.stmt, false, chains.Keys) && !InsideIf(v.ancestors)
    ensures var after := Collect(StatementsOf(v.stmt, v.ancestors), chains);
      after.Keys == TrackedBy(v.stmt, chains.Keys)
      && (Loose(chains, x, t) && IdleStmt(v.stmt, x, t) <==> Loose(after, x, t))
      && (Loose(after, x, t) ==> Loose(chains, x, t))
  {
    assert StatementsOf(v.stmt, v.ancestors) == [v] && [v][1..] == [];
    assert Collect([v], chains) == CollectOne(v, chains);
    LooseAfterOne(v, chains, x, t);
  }

  lemma LooseAfterOne(v: Visited, chains: Chains, x: string, t: Test)
    requires v.stmt.Assign? && TidyStmt(v.stmt, false, chains.Keys) && !InsideIf(v.ancestors)
    ensures var after := CollectOne(v, chains);
      after.Keys == TrackedBy(v.stmt, chains.Keys)
      && (Loose(chains, x, t) && IdleStmt(v.stmt, x, t) <==> Loose(after, x, t))
      && (Loose(after, x, t) ==> Loose(chains, x, t))
  {
    var target, rhs := v.stmt.targets[0], v.stmt.rhs;
    var segment := Segment(rhs, false);
    if target.Name? && SelectModel(rhs).Some? {
      assert CollectOne(v, chains) == chains[target.id := [segment]];
      SomeSnoc([], segment, t);
      assert [] + [segment] == [segment];
    } else if target.Name? && Root(rhs) == target {
      assert CollectOne(v, chains) == chains[target.id := chains[target.id] + [segment]];
      SomeSnoc(chains[target.id], segment, t);
    } else {
      assert CollectOne(v, chains) == chains;
    }
  }

  // ----- the verdict on one expression

  /** The expression's chain, followed back through the name it continues, is a violation by the test. */
  predicate Suspect(prefix: seq<Stmt>, e: Expr, t: Test) {
    var behind := ChainBehind(e, ChainsOf(prefix));
    behind.Some? && Violates(behind.value, t)
  }

  /** Every outermost `if` has a way through that adds nothing to the name behind `e`, and no other statement stops the
      run. */
  predicate CanSkip(prefix: seq<Stmt>, e: Expr, t: Test) {
    if Root(e).Name? then IfsIdle(prefix, Root(e).id, t) else !StopsBlock(prefix)
  }

  /** The classification is exact up to branches that cannot be skipped: some run brings what the test takes for a
      full scan to `e` if and only if the classification of `e` by the test is a violation and the prefix can be passed
      without narrowing the query. */
  lemma {:induction false} LeakIffSuspect(prefix: seq<Stmt>, e: Expr, t: Test)
    requires Tidy(prefix, false, {})
    ensures LeaksBy(prefix, e, t) <==> Suspect(prefix, e, t) && CanSkip(prefix, e, t)
  {
    var nodes := Statements(prefix, [ScopeNode]);
    var chains := ChainsOf(prefix);
    var none: Env := map[];
    var noChains: Chains := map[];
    assert none.Keys == {} && noChains.Keys == {};
    if Root(e).Name? {
      var x := Root(e).id;
      LooseAfter(prefix, [ScopeNode], map[], x, t);
      ChainVerdict(e, chains, t);
      if LeaksBy(prefix, e, t) {
        var env :| Run(prefix, map[], env) && FullScanBy(EvalQuery(e, env), t);
        EvalSplits(e, env, t);
        CollectAgrees(prefix, [ScopeNode], map[], map[], env, t);
        if !Idle(prefix, x, t) { BusyRunNarrows(prefix, false, x, map[], env, t); }
      }
      if Suspect(prefix, e, t) && CanSkip(prefix, e, t) {
        var env := IdleRunExists(prefix, false, x, map[], t);
        EvalSplits(e, env, t);
        CollectAgrees(prefix, [ScopeNode], map[], map[], env, t);
      }
    } else {
      ChainVerdict(e, chains, t);
      if LeaksBy(prefix, e, t) {
        var env :| Run(prefix, map[], env) && FullScanBy(EvalQuery(e, env), t);
        EvalSplits(e, env, t);
        StoppedHasNoRun(prefix, map[], env);
      }
      if Suspect(prefix, e, t) && !StopsBlock(prefix) {
        var env := RunExists(prefix, false, none);
        EvalSplits(e, env, t);
      }
    }
  }

  /** The classification of an expression's chain, from its own links and those of the name under it. */
  lemma ChainVerdict(e: Expr, chains: Chains, t: Test)
    ensures ChainBehind(e, chains).Some? ==>
      var segments := ChainBehind(e, chains).value;
      if Root(e).Name? && Root(e).id in chains then
        (FirstModel(chains[Root(e).id]).Some? ==> FirstModel(segments) == FirstModel(chains[Root(e).id]))
        && (SomeNarrows(segments, t) <==> SomeNarrows(chains[Root(e).id], t) || Narrows(e, t))
      else
        FirstModel(segments) == SelectModel(e) && (SomeNarrows(segments, t) <==> Narrows(e, t))
    ensures ChainBehind(e, chains) == None ==>
      SelectModel(e) == None && (Root(e).Name? ==> Root(e).id !in chains)
  {
    if e.Call? {
      var before := if Root(e).Name? && Root(e).id in chains then chains[Root(e).id] else [];
      SomeSnoc(before, Segment(e, false), t);
      FirstModelSnoc(before, Segment(e, false));
    }
  }

  // ----- with the test that is real

  /** The model behind an expression, if it is a query. */
  function ModelBehind(prefix: seq<Stmt>, e: Expr): Option<string> {
    var behind := ChainBehind(e, ChainsOf(prefix));
    if behind.Some? then FirstModel(behind.value) else None
  }

  /** The classification by what conditions mention, and branches that can be skipped without mentioning. */
  predicate Leaky(prefix: seq<Stmt>, e: Expr) {
    var m := ModelBehind(prefix, e);
    m.Some? && Suspect(prefix, e, Real(m.value)) && CanSkip(prefix, e, Real(m.value))
  }

  /** On every run an expression evaluates to a query of the model behind it. */
  lemma ModelIsBehind(prefix: seq<Stmt>, e: Expr, env: Env)
    requires Tidy(prefix, false, {}) && Run(prefix, map[], env) && EvalQuery(e, env).Some?
    ensures ModelBehind(prefix, e) == Some(EvalQuery(e, env).value.model)
  {
    var none: Env := map[];
    var noChains: Chains := map[];
    assert none.Keys == {} && noChains.Keys == {};
    EvalSplits(e, env, Seen);
    CollectAgrees(prefix, [ScopeNode], noChains, none, env, Seen);
    ChainVerdict(e, ChainsOf(prefix), Seen);
  }

  /** Some run brings a full scan to `e` if and only if the model behind `e` is hot, no unconditional link limits the
      query or mentions another column of it, and every outermost `if` can be passed likewise. */
  lemma LeakIff(prefix: seq<Stmt>, e: Expr)
    requires Tidy(prefix, false, {})
    ensures Leaks(prefix, e) <==> Leaky(prefix, e)
  {
    if Leaks(prefix, e) {
      var env :| Run(prefix, map[], env) && FullScan(EvalQuery(e, env));
      FullScanIff(EvalQuery(e, env));
      ModelIsBehind(prefix, e, env);
      LeakIffSuspect(prefix, e, Real(ModelBehind(prefix, e).value));
    }
    if Leaky(prefix, e) {
      var m := ModelBehind(prefix, e).value;
      LeakIffSuspect(prefix, e, Real(m));
      var env :| Run(prefix, map[], env) && FullScanBy(EvalQuery(e, env), Real(m));
      ModelIsBehind(prefix, e, env);
      FullScanIff(EvalQuery(e, env));
    }
  }
}

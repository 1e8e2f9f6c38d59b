/** The verdict of scripts/check_read_path_full_scan.py (lines 353-479) on a whole function, against what its runs let
    out through list terminals and returns. */
module FullScanVerdict {
  import opened Text
  import opened QueryChains
  import opened FullScanCheck
  import opened FullScanExact

  // ----- where queries leave the function

  datatype Sink = Fetched(terminal: Expr) | Returned(result: Expr)

  predicate IsQuery(e: Expr, tracked: set<string>) {
    SelectModel(e).Some? || (Root(e).Name? && Root(e).id in tracked)
  }

  /** The statement that a chain of calls runs: the argument of its innermost `execute` or `scalars`. */
  function Executed(e: Expr): Option<Expr> {
    if !IsMethodCall(e) then None
    else if Executed(e.func.value).Some? then Executed(e.func.value)
    else if (e.func.attr == "execute" || e.func.attr == "scalars") && e.args != [] then Some(e.args[0])
    else None
  }

  predicate IsExecute(e: Expr) {
    IsMethodCall(e) && e.func.attr == "execute" && e.args != []
  }

  /** The query that leaves through a sink: the one a list terminal reads, on a session or a result or on the query
      itself, or the returned one. Single-row terminals read no list. */
  function SinkExpr(s: Sink, tracked: set<string>): Option<Expr> {
    match s
    case Returned(e) => if IsQuery(e, tracked) then Some(e) else None
    case Fetched(t) =>
      if !IsMethodCall(t) || t.func.attr !in TERMINAL_LIST_METHODS then None
      else if IsExecute(t.func.value) then Some(t.func.value.args[0])
      else if IsQuery(t.func.value, tracked) then Some(t.func.value)
      else Executed(t)
  }

  /** The shapes the check follows: a terminal directly on `execute(q)` or on calls on a query; a returned name or
      `select` chain. Not `q.all()`, `session.scalars(q)`, a further call on a result, an `execute()` without argument,
      or a returned continuation of a name. */
  predicate Followed(s: Sink, tracked: set<string>) {
    match s
    case Returned(e) => e.Call? ==> !Root(e).Name?
    case Fetched(t) =>
      IsMethodCall(t)
      && var r := t.func.value;
         if IsMethodCall(r) && r.func.attr == "execute" then r.args != [] else r.Call? && IsQuery(r, tracked)
  }

  predicate HasStmt(nodes: seq<Visited>, s: Stmt) {
    exists v :: v in nodes && v.stmt == s
  }

  predicate IsSink(s: Sink, tail: seq<Stmt>) {
    match s
    case Fetched(t) => t in BlockTerminals(tail)
    case Returned(e) => HasStmt(Statements(tail, [ScopeNode]), Return(Some(e)))
  }

  // ----- when a run reaches a sink

  /** The terminals in the expressions of a statement itself, without the blocks under it. */
  function OwnTerminals(st: Stmt): seq<Expr> {
    match st
    case Assign(targets, rhs) => AllTerminals(targets) + Terminals(rhs)
    case If(test, _, _) => Terminals(test)
    case With(items, _) => AllTerminals(items)
    case Return(result) => if result.Some? then Terminals(result.value) else []
    case ExprStmt(expr) => Terminals(expr)
  }

  predicate OwnSink(st: Stmt, s: Sink) {
    match s
    case Fetched(t) => t in OwnTerminals(st)
    case Returned(e) => st == Return(Some(e))
  }

  /** Under some choice of branches a run of the block from `env` comes to the sink, with the queries `at`. */
  ghost predicate Reaches(block: seq<Stmt>, env: Env, s: Sink, at: Env) {
    block != []
    && (ReachesIn(block[0], env, s, at)
        || exists mid :: Step(block[0], env, mid) && Reaches(block[1..], mid, s, at))
  }

  ghost predicate ReachesIn(st: Stmt, env: Env, s: Sink, at: Env) {
    (OwnSink(st, s) && at == env)
    || match st
       case If(_, body, orelse) => Reaches(body, env, s, at) || Reaches(orelse, env, s, at)
       case With(_, block) => Reaches(block, env, s, at)
       case _ => false
  }

  /** The sink does not stand behind a statement that no run gets past. */
  predicate CanReach(block: seq<Stmt>, s: Sink) {
    block != [] && (CanReachIn(block[0], s) || (!Stops(block[0]) && CanReach(block[1..], s)))
  }

  predicate CanReachIn(st: Stmt, s: Sink) {
    OwnSink(st, s)
    || match st
       case If(_, body, orelse) => CanReach(body, s) || CanReach(orelse, s)
       case With(_, block) => CanReach(block, s)
       case _ => false
  }

  // ----- `with` blocks as their statements

  function ItemStmts(items: seq<Expr>): seq<Stmt> {
    if items == [] then [] else [ExprStmt(items[0])] + ItemStmts(items[1..])
  }

  function Flat(block: seq<Stmt>): seq<Stmt> {
    if block == [] then [] else FlatStmt(block[0]) + Flat(block[1..])
  }

  function FlatStmt(s: Stmt): seq<Stmt> {
    match s
    case With(items, block) => ItemStmts(items) + Flat(block)
    case _ => [s]
  }

  lemma {:induction false} StatementsAppend(a: seq<Stmt>, b: seq<Stmt>, ancestors: seq<Kind>)
    ensures Statements(a + b, ancestors) == Statements(a, ancestors) + Statements(b, ancestors)
    ensures BlockTerminals(a + b) == BlockTerminals(a) + BlockTerminals(b)
  {
    if a == [] {
      assert a + b == b;
    } else {
      assert (a + b)[1..] == a[1..] + b;
      StatementsAppend(a[1..], b, ancestors);
    }
  }

  lemma {:induction false} ItemTerminals(items: seq<Expr>)
    ensures BlockTerminals(ItemStmts(items)) == AllTerminals(items)
  {
    if items != [] {
      ItemTerminals(items[1..]);
      assert ItemStmts(items)[1..] == ItemStmts(items[1..]);
    }
  }

  lemma {:induction false} FlatTerminals(block: seq<Stmt>)
    ensures BlockTerminals(Flat(block)) == BlockTerminals(block)
  {
    if block != [] {
      FlatTerminals(block[1..]);
      FlatStmtTerminals(block[0]);
      StatementsAppend(FlatStmt(block[0]), Flat(block[1..]), []);
    }
  }

  lemma {:induction false} FlatStmtTerminals(s: Stmt)
    ensures BlockTerminals(FlatStmt(s)) == StmtTerminals(s)
  {
    if s.With? {
      ItemTerminals(s.items);
      FlatTerminals(s.block);
      StatementsAppend(ItemStmts(s.items), Flat(s.block), []);
    } else {
      assert [s][1..] == [] && StmtTerminals(s) + [] == StmtTerminals(s);
    }
  }

  lemma {:induction false} FlatOfPlain(block: seq<Stmt>)
    requires forall i :: 0 <= i < |block| ==> !block[i].With?
    ensures Flat(block) == block
  {
    if block != [] { FlatOfPlain(block[1..]); }
  }

  // ----- the collected chains do not see a `with`

  lemma {:induction false} ItemCollect(items: seq<Expr>, ancestors: seq<Kind>, chains: Chains)
    ensures Collect(Statements(ItemStmts(items), ancestors), chains) == chains
    ensures forall v :: v in Statements(ItemStmts(items), ancestors) ==> v.stmt.ExprStmt?
  {
    if items != [] {
      var stmts := ItemStmts(items);
      var v := Visited(stmts[0], ancestors);
      ItemCollect(items[1..], ancestors, chains);
      assert stmts[1..] == ItemStmts(items[1..]);
      assert Statements(stmts, ancestors) == [v] + Statements(stmts[1..], ancestors);
      assert ([v] + Statements(stmts[1..], ancestors))[1..] == Statements(stmts[1..], ancestors);
    }
  }

  lemma {:induction false} SameAncestry(block: seq<Stmt>, a: seq<Kind>, b: seq<Kind>, chains: Chains)
    requires InsideIf(a) <==> InsideIf(b)
    ensures Collect(Statements(block, a), chains) == Collect(Statements(block, b), chains)
  {
    if block != [] {
      CollectConcat(StatementsOf(block[0], a), Statements(block[1..], a), chains);
      CollectConcat(StatementsOf(block[0], b), Statements(block[1..], b), chains);
      SameAncestryStmt(block[0], a, b, chains);
      SameAncestry(block[1..], a, b, Collect(StatementsOf(block[0], a), chains));
    }
  }

  lemma {:induction false} SameAncestryStmt(s: Stmt, a: seq<Kind>, b: seq<Kind>, chains: Chains)
    requires InsideIf(a) <==> InsideIf(b)
    ensures Collect(StatementsOf(s, a), chains) == Collect(StatementsOf(s, b), chains)
  {
    var v, w := Visited(s, a), Visited(s, b);
    match s
    case If(_, body, orelse) =>
      var c, d := [IfNode] + a, [IfNode] + b;
      assert InsideIf(c) && InsideIf(d);
      IfNodes(v, body, orelse, chains);
      IfNodes(w, body, orelse, chains);
      SameAncestry(body, c, d, chains);
      SameAncestry(orelse, c, d, Collect(Statements(body, c), chains));
    case With(_, block) =>
      UnderWith(a);
      UnderWith(b);
      WithNodes(v, block, chains);
      WithNodes(w, block, chains);
      SameAncestry(block, [OtherNode] + a, [OtherNode] + b, chains);
    case _ => LeafNodes(v, w, chains);
  }

  lemma UnderWith(a: seq<Kind>)
    ensures InsideIf([OtherNode] + a) <==> InsideIf(a)
  {
    assert ([OtherNode] + a)[1..] == a;
  }

  lemma LeafNodes(v: Visited, w: Visited, chains: Chains)
    requires v.stmt == w.stmt && !v.stmt.If? && !v.stmt.With? && (InsideIf(v.ancestors) <==> InsideIf(w.ancestors))
    ensures Collect(StatementsOf(v.stmt, v.ancestors), chains) == Collect(StatementsOf(w.stmt, w.ancestors), chains)
  {
    assert StatementsOf(v.stmt, v.ancestors) == [v] && StatementsOf(w.stmt, w.ancestors) == [w];
    assert CollectOne(v, chains) == CollectOne(w, chains);
    assert [v][1..] == [] && [w][1..] == [];
  }

  lemma {:induction false} FlatCollect(block: seq<Stmt>, ancestors: seq<Kind>, chains: Chains)
    requires !InsideIf(ancestors)
    ensures Collect(Statements(block, ancestors), chains) == Collect(Statements(Flat(block), [ScopeNode]), chains)
  {
    if block != [] {
      var sc := [ScopeNode];
      CollectConcat(StatementsOf(block[0], ancestors), Statements(block[1..], ancestors), chains);
      StatementsAppend(FlatStmt(block[0]), Flat(block[1..]), sc);
      CollectConcat(Statements(FlatStmt(block[0]), sc), Statements(Flat(block[1..]), sc), chains);
      FlatCollectStmt(block[0], ancestors, chains);
      FlatCollect(block[1..], ancestors, Collect(StatementsOf(block[0], ancestors), chains));
    }
  }

  lemma {:induction false} FlatCollectStmt(s: Stmt, ancestors: seq<Kind>, chains: Chains)
    requires !InsideIf(ancestors)
    ensures Collect(StatementsOf(s, ancestors), chains) == Collect(Statements(FlatStmt(s), [ScopeNode]), chains)
  {
    var sc := [ScopeNode];
    if s.With? {
      WithNodes(Visited(s, ancestors), s.block, chains);
      FlatCollect(s.block, [OtherNode] + ancestors, chains);
      StatementsAppend(ItemStmts(s.items), Flat(s.block), sc);
      CollectConcat(Statements(ItemStmts(s.items), sc), Statements(Flat(s.block), sc), chains);
      ItemCollect(s.items, sc, chains);
    } else {
      SameAncestryStmt(s, ancestors, sc, chains);
      OneStatement(s, sc);
    }
  }

  lemma OneStatement(s: Stmt, ancestors: seq<Kind>)
    ensures Statements([s], ancestors) == StatementsOf(s, ancestors)
  {
    assert [s][1..] == [] && StatementsOf(s, ancestors) + [] == StatementsOf(s, ancestors);
  }

  // ----- returns

  lemma HasConcat(a: seq<Visited>, b: seq<Visited>, s: Stmt)
    ensures HasStmt(a + b, s) <==> HasStmt(a, s) || HasStmt(b, s)
  {
  }

  lemma {:induction false} SameStmts(block: seq<Stmt>, a: seq<Kind>, b: seq<Kind>, s: Stmt)
    ensures HasStmt(Statements(block, a), s) <==> HasStmt(Statements(block, b), s)
  {
    if block != [] {
      HasConcat(StatementsOf(block[0], a), Statements(block[1..], a), s);
      HasConcat(StatementsOf(block[0], b), Statements(block[1..], b), s);
      SameStmtsOf(block[0], a, b, s);
      SameStmts(block[1..], a, b, s);
    }
  }

  lemma {:induction false} SameStmtsOf(t: Stmt, a: seq<Kind>, b: seq<Kind>, s: Stmt)
    ensures HasStmt(StatementsOf(t, a), s) <==> HasStmt(StatementsOf(t, b), s)
  {
    NodesOf(t, a, s);
    NodesOf(t, b, s);
    match t
    case If(_, body, orelse) =>
      SameStmts(body, [IfNode] + a, [IfNode] + b, s);
      SameStmts(orelse, [IfNode] + a, [IfNode] + b, s);
    case With(_, block) => SameStmts(block, [OtherNode] + a, [OtherNode] + b, s);
    case _ =>
  }

  lemma NodesOf(t: Stmt, a: seq<Kind>, s: Stmt)
    ensures HasStmt(StatementsOf(t, a), s) <==>
      t == s || match t
                case If(_, body, orelse) => HasStmt(Statements(body, [IfNode] + a), s)
                                            || HasStmt(Statements(orelse, [IfNode] + a), s)
                case With(_, block) => HasStmt(Statements(block, [OtherNode] + a), s)
                case _ => false
  {
    var v := Visited(t, a);
    HasOne(v, s);
    match t
    case If(_, body, orelse) =>
      var x, y := Statements(body, [IfNode] + a), Statements(orelse, [IfNode] + a);
      HasConcat(x, y, s);
      HasConcat([v], x + y, s);
    case With(_, block) => HasConcat([v], Statements(block, [OtherNode] + a), s);
    case _ => assert StatementsOf(t, a) == [v];
  }

  lemma HasOne(v: Visited, s: Stmt)
    ensures HasStmt([v], s) <==> v.stmt == s
  {
    assert v in [v];
  }

  lemma {:induction false} FlatReturns(block: seq<Stmt>, a: seq<Kind>, e: Option<Expr>)
    ensures HasStmt(Statements(block, a), Return(e)) <==> HasStmt(Statements(Flat(block), [ScopeNode]), Return(e))
  {
    if block != [] {
      HasConcat(StatementsOf(block[0], a), Statements(block[1..], a), Return(e));
      StatementsAppend(FlatStmt(block[0]), Flat(block[1..]), [ScopeNode]);
      HasConcat(Statements(FlatStmt(block[0]), [ScopeNode]), Statements(Flat(block[1..]), [ScopeNode]), Return(e));
      FlatReturnsOf(block[0], a, e);
      FlatReturns(block[1..], a, e);
    }
  }

  lemma {:induction false} FlatReturnsOf(t: Stmt, a: seq<Kind>, e: Option<Expr>)
    ensures HasStmt(StatementsOf(t, a), Return(e)) <==> HasStmt(Statements(FlatStmt(t), [ScopeNode]), Return(e))
  {
    var sc := [ScopeNode];
    if t.With? {
      NodesOf(t, a, Return(e));
      FlatReturns(t.block, [OtherNode] + a, e);
      StatementsAppend(ItemStmts(t.items), Flat(t.block), sc);
      HasConcat(Statements(ItemStmts(t.items), sc), Statements(Flat(t.block), sc), Return(e));
      ItemCollect(t.items, sc, map[]);
    } else {
      SameStmtsOf(t, a, sc, Return(e));
      OneStatement(t, sc);
    }
  }

  // ----- runs

  lemma RunHead(block: seq<Stmt>, env: Env, env': Env) returns (mid: Env)
    requires block != [] && Run(block, env, env')
    ensures Step(block[0], env, mid) && Run(block[1..], mid, env')
  {
    mid :| Step(block[0], env, mid) && Run(block[1..], mid, env');
  }

  lemma RunCons(block: seq<Stmt>, env: Env, mid: Env, env': Env)
    requires block != [] && Step(block[0], env, mid) && Run(block[1..], mid, env')
    ensures Run(block, env, env')
  {
  }

  lemma {:induction false} RunSplit(a: seq<Stmt>, b: seq<Stmt>, env: Env, env': Env) returns (mid: Env)
    requires Run(a + b, env, env')
    ensures Run(a, env, mid) && Run(b, mid, env')
  {
    if a == [] {
      assert a + b == b;
      mid := env;
    } else {
      assert (a + b)[0] == a[0] && (a + b)[1..] == a[1..] + b;
      var one := RunHead(a + b, env, env');
      mid := RunSplit(a[1..], b, one, env');
      RunCons(a, env, one, mid);
    }
  }

  lemma {:induction false} RunJoin(a: seq<Stmt>, b: seq<Stmt>, env: Env, mid: Env, env': Env)
    requires Run(a, env, mid) && Run(b, mid, env')
    ensures Run(a + b, env, env')
  {
    if a == [] {
      assert a + b == b;
    } else {
      assert (a + b)[0] == a[0] && (a + b)[1..] == a[1..] + b;
      var one := RunHead(a, env, mid);
      RunJoin(a[1..], b, one, mid, env');
      RunCons(a + b, env, one, env');
    }
  }

  lemma {:induction false} ItemRuns(items: seq<Expr>, env: Env, env': Env)
    ensures Run(ItemStmts(items), env, env') <==> env' == env
  {
    if items != [] {
      var stmts := ItemStmts(items);
      assert stmts[0] == ExprStmt(items[0]) && stmts[1..] == ItemStmts(items[1..]);
      ItemRuns(items[1..], env, env');
      if Run(stmts, env, env') { var mid := RunHead(stmts, env, env'); }
      if env' == env { RunCons(stmts, env, env, env'); }
    }
  }

  lemma RunOne(s: Stmt, env: Env, env': Env)
    ensures Run([s], env, env') <==> Step(s, env, env')
  {
    assert [s][1..] == [];
    if Run([s], env, env') { var mid := RunHead([s], env, env'); }
    if Step(s, env, env') { RunCons([s], env, env', env'); }
  }

  /** Reading a `with` as its statements keeps all runs. */
  lemma {:induction false} FlatRuns(block: seq<Stmt>, env: Env, env': Env)
    ensures Run(block, env, env') <==> Run(Flat(block), env, env')
  {
    if block != [] {
      var first, rest := FlatStmt(block[0]), Flat(block[1..]);
      if Run(block, env, env') {
        var mid := RunHead(block, env, env');
        FlatSteps(block[0], env, mid);
        FlatRuns(block[1..], mid, env');
        RunJoin(first, rest, env, mid, env');
      }
      if Run(first + rest, env, env') {
        var mid := RunSplit(first, rest, env, env');
        FlatSteps(block[0], env, mid);
        FlatRuns(block[1..], mid, env');
        RunCons(block, env, mid, env');
      }
    }
  }

  lemma {:induction false} FlatSteps(s: Stmt, env: Env, env': Env)
    ensures Step(s, env, env') <==> Run(FlatStmt(s), env, env')
  {
    if s.With? {
      var items, inner := ItemStmts(s.items), Flat(s.block);
      FlatRuns(s.block, env, env');
      ItemRuns(s.items, env, env);
      if Run(inner, env, env') { RunJoin(items, inner, env, env, env'); }
      if Run(items + inner, env, env') {
        var mid := RunSplit(items, inner, env, env');
        ItemRuns(s.items, env, mid);
      }
    } else {
      RunOne(s, env, env');
    }
  }

  // ----- reading a `with` as its statements keeps what runs reach

  lemma ReachCons(block: seq<Stmt>, env: Env, mid: Env, s: Sink, at: Env)
    requires block != [] && Step(block[0], env, mid) && Reaches(block[1..], mid, s, at)
    ensures Reaches(block, env, s, at)
  {
  }

  lemma {:induction false} ReachSplit(a: seq<Stmt>, b: seq<Stmt>, env: Env, s: Sink, at: Env) returns (mid: Env)
    requires Reaches(a + b, env, s, at) && !Reaches(a, env, s, at)
    ensures Run(a, env, mid) && Reaches(b, mid, s, at)
  {
    if a == [] {
      assert a + b == b;
      mid := env;
    } else {
      assert (a + b)[0] == a[0] && (a + b)[1..] == a[1..] + b;
      var one :| Step(a[0], env, one) && Reaches(a[1..] + b, one, s, at);
      mid := ReachSplit(a[1..], b, one, s, at);
      RunCons(a, env, one, mid);
    }
  }

  lemma {:induction false} ReachLeft(a: seq<Stmt>, b: seq<Stmt>, env: Env, s: Sink, at: Env)
    requires Reaches(a, env, s, at)
    ensures Reaches(a + b, env, s, at)
  {
    assert (a + b)[0] == a[0] && (a + b)[1..] == a[1..] + b;
    if !ReachesIn(a[0], env, s, at) {
      var one :| Step(a[0], env, one) && Reaches(a[1..], one, s, at);
      ReachLeft(a[1..], b, one, s, at);
      ReachCons(a + b, env, one, s, at);
    }
  }

  lemma {:induction false} ReachRight(a: seq<Stmt>, b: seq<Stmt>, env: Env, mid: Env, s: Sink, at: Env)
    requires Run(a, env, mid) && Reaches(b, mid, s, at)
    ensures Reaches(a + b, env, s, at)
  {
    if a == [] {
      assert a + b == b;
    } else {
      assert (a + b)[0] == a[0] && (a + b)[1..] == a[1..] + b;
      var one := RunHead(a, env, mid);
      ReachRight(a[1..], b, one, mid, s, at);
      ReachCons(a + b, env, one, s, at);
    }
  }

  lemma {:induction false} ItemReaches(items: seq<Expr>, env: Env, s: Sink, at: Env)
    ensures Reaches(ItemStmts(items), env, s, at) <==> at == env && s.Fetched? && s.terminal in AllTerminals(items)
  {
    if items != [] {
      var stmts := ItemStmts(items);
      assert stmts[0] == ExprStmt(items[0]) && stmts[1..] == ItemStmts(items[1..]);
      ItemReaches(items[1..], env, s, at);
      if Reaches(stmts, env, s, at) && !ReachesIn(stmts[0], env, s, at) {
        var mid :| Step(stmts[0], env, mid) && Reaches(stmts[1..], mid, s, at);
      }
      if Reaches(stmts[1..], env, s, at) { ReachCons(stmts, env, env, s, at); }
    }
  }

  lemma ReachOne(st: Stmt, env: Env, s: Sink, at: Env)
    ensures Reaches([st], env, s, at) <==> ReachesIn(st, env, s, at)
  {
    assert [st][1..] == [];
  }

  lemma {:induction false} FlatReaches(block: seq<Stmt>, env: Env, s: Sink, at: Env)
    ensures Reaches(block, env, s, at) <==> Reaches(Flat(block), env, s, at)
  {
    if block != [] {
      var first, rest := FlatStmt(block[0]), Flat(block[1..]);
      FlatReachesIn(block[0], env, s, at);
      if ReachesIn(block[0], env, s, at) {
        ReachLeft(first, rest, env, s, at);
      } else {
        if Reaches(block, env, s, at) {
          var mid :| Step(block[0], env, mid) && Reaches(block[1..], mid, s, at);
          FlatSteps(block[0], env, mid);
          FlatReaches(block[1..], mid, s, at);
          ReachRight(first, rest, env, mid, s, at);
        }
        if Reaches(first + rest, env, s, at) {
          var mid := ReachSplit(first, rest, env, s, at);
          FlatSteps(block[0], env, mid);
          FlatReaches(block[1..], mid, s, at);
          ReachCons(block, env, mid, s, at);
        }
      }
    }
  }

  lemma {:induction false} FlatReachesIn(st: Stmt, env: Env, s: Sink, at: Env)
    ensures ReachesIn(st, env, s, at) <==> Reaches(FlatStmt(st), env, s, at)
  {
    if st.With? {
      var items, inner := ItemStmts(st.items), Flat(st.block);
      ItemReaches(st.items, env, s, at);
      ItemRuns(st.items, env, env);
      FlatReaches(st.block, env, s, at);
      if Reaches(items, env, s, at) { ReachLeft(items, inner, env, s, at); }
      if Reaches(inner, env, s, at) { ReachRight(items, inner, env, env, s, at); }
      if Reaches(items + inner, env, s, at) && !Reaches(items, env, s, at) {
        var mid := ReachSplit(items, inner, env, s, at);
        ItemRuns(st.items, env, mid);
      }
    } else {
      ReachOne(st, env, s, at);
    }
  }

  // ----- the fragment: a tidy prefix, then a tail that leaves the tracked names alone

  predicate TidyTail(tail: seq<Stmt>, tracked: set<string>) {
    tail == [] || (TidyTailStmt(tail[0], tracked) && TidyTail(tail[1..], tracked))
  }

  predicate TidyTailStmt(s: Stmt, tracked: set<string>) {
    match s
    case Assign(targets, rhs) =>
      |targets| == 1 && Spares(targets[0], tracked)
      && (targets[0].Name? ==> SelectModel(rhs) == None && Unrelated(rhs, tracked))
    case If(_, body, orelse) => TidyTail(body, tracked) && TidyTail(orelse, tracked)
    case With(_, block) => TidyTail(block, tracked)
    case Return(_) => true
    case ExprStmt(_) => true
  }

  predicate Fragment(prefix: seq<Stmt>, tail: seq<Stmt>) {
    Tidy(prefix, false, {}) && BlockTerminals(prefix) == [] && TidyTail(tail, Tracked(prefix, {}))
  }

  /** A function of the fragment: with its `with` blocks read as their statements, it is such a prefix and tail. */
  predicate InFragment(body: seq<Stmt>, prefix: seq<Stmt>, tail: seq<Stmt>) {
    Flat(body) == prefix + tail && Fragment(prefix, tail)
  }

  lemma {:induction false} TailCollect(tail: seq<Stmt>, ancestors: seq<Kind>, chains: Chains)
    requires TidyTail(tail, chains.Keys)
    ensures Collect(Statements(tail, ancestors), chains) == chains
  {
    if tail != [] {
      CollectConcat(StatementsOf(tail[0], ancestors), Statements(tail[1..], ancestors), chains);
      TailCollectStmt(tail[0], ancestors, chains);
      TailCollect(tail[1..], ancestors, chains);
    }
  }

  lemma {:induction false} TailCollectStmt(s: Stmt, ancestors: seq<Kind>, chains: Chains)
    requires TidyTailStmt(s, chains.Keys)
    ensures Collect(StatementsOf(s, ancestors), chains) == chains
  {
    var v := Visited(s, ancestors);
    match s
    case If(_, body, orelse) =>
      IfNodes(v, body, orelse, chains);
      TailCollect(body, [IfNode] + ancestors, chains);
      TailCollect(orelse, [IfNode] + ancestors, chains);
    case With(_, block) =>
      WithNodes(v, block, chains);
      TailCollect(block, [OtherNode] + ancestors, chains);
    case _ =>
      assert StatementsOf(s, ancestors) == [v] && [v][1..] == [];
      assert CollectOne(v, chains) == chains;
  }

  /** The statements around the sinks do not touch a tracked query, and a run gets past them unless they stop it. */
  lemma {:induction false} TailRuns(tail: seq<Stmt>, env: Env, env': Env)
    requires TidyTail(tail, env.Keys)
    ensures Run(tail, env, env') <==> env' == env && !StopsBlock(tail)
  {
    if tail != [] {
      TailSteps(tail[0], env, env);
      TailRuns(tail[1..], env, env');
      if Run(tail, env, env') {
        var mid := RunHead(tail, env, env');
        TailSteps(tail[0], env, mid);
      }
      if env' == env && !StopsBlock(tail) { RunCons(tail, env, env, env'); }
    }
  }

  lemma {:induction false} TailSteps(st: Stmt, env: Env, env': Env)
    requires TidyTailStmt(st, env.Keys)
    ensures Step(st, env, env') <==> env' == env && !Stops(st)
  {
    match st
    case Assign(_, rhs) => EvalSplits(rhs, env, Seen);
    case If(_, body, orelse) =>
      TailRuns(body, env, env');
      TailRuns(orelse, env, env');
    case With(_, block) => TailRuns(block, env, env');
    case _ =>
  }

  /** So a run reaches a sink of the tail exactly when no statement stops it before, with the queries it brought. */
  lemma {:induction false} TailReaches(tail: seq<Stmt>, env: Env, s: Sink, at: Env)
    requires TidyTail(tail, env.Keys)
    ensures Reaches(tail, env, s, at) <==> at == env && CanReach(tail, s)
  {
    if tail != [] {
      TailReachesIn(tail[0], env, s, at);
      TailReaches(tail[1..], env, s, at);
      TailSteps(tail[0], env, env);
      if Reaches(tail, env, s, at) && !ReachesIn(tail[0], env, s, at) {
        var mid :| Step(tail[0], env, mid) && Reaches(tail[1..], mid, s, at);
        TailSteps(tail[0], env, mid);
      }
      if !Stops(tail[0]) && Reaches(tail[1..], env, s, at) { ReachCons(tail, env, env, s, at); }
    }
  }

  lemma {:induction false} TailReachesIn(st: Stmt, env: Env, s: Sink, at: Env)
    requires TidyTailStmt(st, env.Keys)
    ensures ReachesIn(st, env, s, at) <==> at == env && CanReachIn(st, s)
  {
    match st
    case If(_, body, orelse) =>
      TailReaches(body, env, s, at);
      TailReaches(orelse, env, s, at);
    case With(_, block) => TailReaches(block, env, s, at);
    case _ =>
  }

  /** A result that no query is behind. */
  predicate IsBareReturn(s: Sink) {
    s.Returned? && IsBare(s.result)
  }

  /** A prefix lets no query out. */
  lemma {:induction false} PrefixReachesNothing(prefix: seq<Stmt>, conditional: bool, tracked: set<string>, env: Env,
                                                s: Sink, at: Env)
    requires Tidy(prefix, conditional, tracked) && BlockTerminals(prefix) == [] && !IsBareReturn(s)
    ensures !Reaches(prefix, env, s, at)
  {
    if prefix != [] {
      PrefixReachesNothingIn(prefix[0], conditional, tracked, env, s, at);
      if Reaches(prefix, env, s, at) {
        var mid :| Step(prefix[0], env, mid) && Reaches(prefix[1..], mid, s, at);
        PrefixReachesNothing(prefix[1..], conditional, TrackedBy(prefix[0], tracked), mid, s, at);
      }
    }
  }

  lemma {:induction false} PrefixReachesNothingIn(st: Stmt, conditional: bool, tracked: set<string>, env: Env, s: Sink,
                                                  at: Env)
    requires TidyStmt(st, conditional, tracked) && StmtTerminals(st) == [] && !IsBareReturn(s)
    ensures !ReachesIn(st, env, s, at)
  {
    match st
    case If(_, body, orelse) =>
      PrefixReachesNothing(body, true, tracked, env, s, at);
      PrefixReachesNothing(orelse, true, tracked, env, s, at);
    case With(_, block) => PrefixReachesNothing(block, conditional, tracked, env, s, at);
    case _ =>
  }

  /** A run of the function reaches a sink exactly when nothing in the tail stops it before, and with exactly the
      queries that a run of the prefix builds. */
  lemma ReachedIff(body: seq<Stmt>, prefix: seq<Stmt>, tail: seq<Stmt>, s: Sink, at: Env)
    requires InFragment(body, prefix, tail) && !IsBareReturn(s)
    ensures Reaches(body, map[], s, at) <==> Run(prefix, map[], at) && CanReach(tail, s)
  {
    var none: Env := map[];
    assert none.Keys == {};
    FlatReaches(body, none, s, at);
    PrefixReachesNothing(prefix, false, {}, none, s, at);
    if Reaches(prefix + tail, none, s, at) {
      var mid := ReachSplit(prefix, tail, none, s, at);
      RunGrows(prefix, false, none, mid, Seen);
      TailReaches(tail, mid, s, at);
    }
    if Run(prefix, none, at) && CanReach(tail, s) {
      RunGrows(prefix, false, none, at, Seen);
      TailReaches(tail, at, s, at);
      ReachRight(prefix, tail, none, at, s, at);
    }
  }

  lemma {:induction false} TidyReturnsNoQuery(block: seq<Stmt>, conditional: bool, tracked: set<string>,
                                              ancestors: seq<Kind>, e: Expr)
    requires Tidy(block, conditional, tracked) && !IsBare(e)
    ensures !HasStmt(Statements(block, ancestors), Return(Some(e)))
  {
    if block != [] {
      var r := Return(Some(e));
      HasConcat(StatementsOf(block[0], ancestors), Statements(block[1..], ancestors), r);
      NodesOf(block[0], ancestors, r);
      match block[0] {
        case If(_, body, orelse) =>
          TidyReturnsNoQuery(body, true, tracked, [IfNode] + ancestors, e);
          TidyReturnsNoQuery(orelse, true, tracked, [IfNode] + ancestors, e);
        case With(_, inner) => TidyReturnsNoQuery(inner, conditional, tracked, [OtherNode] + ancestors, e);
        case _ =>
      }
      TidyReturnsNoQuery(block[1..], conditional, TrackedBy(block[0], tracked), ancestors, e);
    }
  }

  // ----- the verdict

  lemma PrefixChains(prefix: seq<Stmt>)
    requires Tidy(prefix, false, {})
    ensures ChainsOf(prefix).Keys == Tracked(prefix, {})
  {
    var noChains: Chains := map[];
    assert noChains.Keys == {};
    LooseAfter(prefix, [ScopeNode], noChains, "", Seen);
  }

  lemma FragmentChains(body: seq<Stmt>, prefix: seq<Stmt>, tail: seq<Stmt>)
    requires InFragment(body, prefix, tail)
    ensures ChainsOf(body) == ChainsOf(prefix) && BlockTerminals(body) == BlockTerminals(tail)
  {
    var sc := [ScopeNode];
    FlatCollect(body, sc, map[]);
    FlatTerminals(body);
    StatementsAppend(prefix, tail, sc);
    CollectConcat(Statements(prefix, sc), Statements(tail, sc), map[]);
    PrefixChains(prefix);
    TailCollect(tail, sc, ChainsOf(prefix));
    assert [] + BlockTerminals(tail) == BlockTerminals(tail);
  }

  lemma FragmentReturns(body: seq<Stmt>, prefix: seq<Stmt>, tail: seq<Stmt>, e: Expr)
    requires InFragment(body, prefix, tail) && !IsBare(e)
    ensures HasStmt(Statements(body, [ScopeNode]), Return(Some(e))) <==> IsSink(Returned(e), tail)
  {
    var sc := [ScopeNode];
    FlatReturns(body, sc, Some(e));
    StatementsAppend(prefix, tail, sc);
    HasConcat(Statements(prefix, sc), Statements(tail, sc), Return(Some(e)));
    TidyReturnsNoQuery(prefix, false, {}, sc, e);
  }

  /** A sink that the check follows and whose chain it classifies as a violation. */
  ghost predicate SuspectSink(s: Sink, prefix: seq<Stmt>, tail: seq<Stmt>) {
    var tracked := Tracked(prefix, {});
    IsSink(s, tail) && Followed(s, tracked) && SinkExpr(s, tracked).Some?
    && Suspect(prefix, SinkExpr(s, tracked).value, Seen)
  }

  /** Only a query has a chain with a model. */
  lemma SuspectIsQuery(e: Expr, prefix: seq<Stmt>)
    requires Tidy(prefix, false, {}) && Suspect(prefix, e, Seen)
    ensures IsQuery(e, Tracked(prefix, {}))
  {
    PrefixChains(prefix);
    ChainVerdict(e, ChainsOf(prefix), Seen);
  }

  lemma FollowedTerminal(t: Expr, prefix: seq<Stmt>)
    requires IsMethodCall(t) && Tidy(prefix, false, {})
    ensures var tracked := Tracked(prefix, {});
      FlagsTerminal(t, ChainsOf(prefix)) <==>
      Followed(Fetched(t), tracked) && SinkExpr(Fetched(t), tracked).Some?
      && Suspect(prefix, SinkExpr(Fetched(t), tracked).value, Seen)
  {
    var r := t.func.value;
    if Suspect(prefix, r, Seen) { SuspectIsQuery(r, prefix); }
  }

  lemma FollowedReturn(e: Expr, prefix: seq<Stmt>)
    requires Tidy(prefix, false, {})
    ensures var tracked := Tracked(prefix, {});
      FlagsReturn(e, ChainsOf(prefix)) <==>
      Followed(Returned(e), tracked) && SinkExpr(Returned(e), tracked).Some? && Suspect(prefix, e, Seen)
  {
    PrefixChains(prefix);
    ChainVerdict(e, ChainsOf(prefix), Seen);
    if Suspect(prefix, e, Seen) { SuspectIsQuery(e, prefix); }
    if e.Call? && !Root(e).Name? {
      assert [] + [Segment(e, false)] == [Segment(e, false)];
    }
  }

  lemma FlaggedSink(body: seq<Stmt>, prefix: seq<Stmt>, tail: seq<Stmt>) returns (s: Sink)
    requires InFragment(body, prefix, tail) && Flagged(body)
    ensures SuspectSink(s, prefix, tail)
  {
    FragmentChains(body, prefix, tail);
    var nodes, chains := Statements(body, [ScopeNode]), ChainsOf(prefix);
    if SomeTerminalFlagged(BlockTerminals(tail), chains) {
      var t :| t in BlockTerminals(tail) && IsMethodCall(t) && FlagsTerminal(t, chains);
      FollowedTerminal(t, prefix);
      s := Fetched(t);
    } else {
      var v :| v in nodes && v.stmt.Return? && v.stmt.result.Some? && FlagsReturn(v.stmt.result.value, chains);
      var e := v.stmt.result.value;
      assert HasStmt(nodes, Return(Some(e)));
      FragmentReturns(body, prefix, tail, e);
      FollowedReturn(e, prefix);
      s := Returned(e);
    }
  }

  lemma SinkFlagged(body: seq<Stmt>, prefix: seq<Stmt>, tail: seq<Stmt>, s: Sink)
    requires InFragment(body, prefix, tail) && SuspectSink(s, prefix, tail)
    ensures Flagged(body)
  {
    FragmentChains(body, prefix, tail);
    var nodes := Statements(body, [ScopeNode]);
    match s
    case Fetched(t) =>
      BlockTerminalsAreMethodCalls(tail);
      FollowedTerminal(t, prefix);
      assert SomeTerminalFlagged(BlockTerminals(body), ChainsOf(body));
    case Returned(e) =>
      FragmentReturns(body, prefix, tail, e);
      FollowedReturn(e, prefix);
      var v :| v in nodes && v.stmt == Return(Some(e));
      assert SomeReturnFlagged(nodes, ChainsOf(body));
  }

  /** A function of the fragment is reported exactly when a followed sink of it is a suspect. */
  lemma FlaggedIffSuspectSink(body: seq<Stmt>, prefix: seq<Stmt>, tail: seq<Stmt>)
    requires InFragment(body, prefix, tail)
    ensures Flagged(body) <==> exists s :: SuspectSink(s, prefix, tail)
  {
    if Flagged(body) {
      var s := FlaggedSink(body, prefix, tail);
      assert SuspectSink(s, prefix, tail);
    }
    if s :| SuspectSink(s, prefix, tail) { SinkFlagged(body, prefix, tail, s); }
  }

  /** Some run of the function comes to the sink with a full scan. */
  ghost predicate SinkLeaks(s: Sink, body: seq<Stmt>, tracked: set<string>) {
    SinkExpr(s, tracked).Some?
    && exists at :: Reaches(body, map[], s, at) && FullScan(EvalQuery(SinkExpr(s, tracked).value, at))
  }

  /** A full scan leaves through a sink if and only if the sink can be reached, the model behind its query is hot, no
      unconditional link limits the query or mentions another column of it, and every outermost `if` can be passed
      likewise. */
  lemma SinkLeaksIff(body: seq<Stmt>, prefix: seq<Stmt>, tail: seq<Stmt>, s: Sink)
    requires InFragment(body, prefix, tail) && SinkExpr(s, Tracked(prefix, {})).Some?
    ensures SinkLeaks(s, body, Tracked(prefix, {}))
            <==> CanReach(tail, s) && Leaky(prefix, SinkExpr(s, Tracked(prefix, {})).value)
  {
    var e := SinkExpr(s, Tracked(prefix, {})).value;
    forall at ensures Reaches(body, map[], s, at) <==> Run(prefix, map[], at) && CanReach(tail, s) {
      ReachedIff(body, prefix, tail, s, at);
    }
    LeakIff(prefix, e);
  }

  /** The check's test of conditions and what they mention part on the chain behind the query: one is taken for a
      filter and none mentions another column. */
  predicate TakenForFilter(prefix: seq<Stmt>, e: Expr) {
    var m := ModelBehind(prefix, e);
    m.Some? && Suspect(prefix, e, Real(m.value)) && !Suspect(prefix, e, Seen)
  }

  /** The other way to part: none is taken for a filter and one mentions another column. */
  predicate HidesFilter(prefix: seq<Stmt>, e: Expr) {
    var m := ModelBehind(prefix, e);
    m.Some? && Suspect(prefix, e, Seen) && !Suspect(prefix, e, Real(m.value))
  }

  /** If the function is not reported, a full scan leaves through a followed sink exactly when the sink can be reached,
      a condition of its query is taken for a filter although none mentions another column, and every outermost `if`
      can be passed. Where no condition is so taken, nothing is missed. */
  lemma NotFlaggedIsSafe(body: seq<Stmt>, prefix: seq<Stmt>, tail: seq<Stmt>, s: Sink)
    requires InFragment(body, prefix, tail) && !Flagged(body)
    requires IsSink(s, tail) && Followed(s, Tracked(prefix, {})) && SinkExpr(s, Tracked(prefix, {})).Some?
    ensures var e := SinkExpr(s, Tracked(prefix, {})).value;
      SinkLeaks(s, body, Tracked(prefix, {})) <==> CanReach(tail, s) && TakenForFilter(prefix, e) && Leaky(prefix, e)
  {
    if SuspectSink(s, prefix, tail) { SinkFlagged(body, prefix, tail, s); }
    SinkLeaksIff(body, prefix, tail, s);
  }

  /** A sink for which the function is reported, where no outermost `if` of the prefix has an else: a full scan leaves
      through it exactly when it can be reached and no condition hides a filter. */
  lemma FlaggedIsReal(body: seq<Stmt>, prefix: seq<Stmt>, tail: seq<Stmt>, s: Sink)
    requires InFragment(body, prefix, tail) && SuspectSink(s, prefix, tail) && NoElse(prefix)
    ensures Flagged(body)
    ensures SinkLeaks(s, body, Tracked(prefix, {}))
            <==> CanReach(tail, s) && !HidesFilter(prefix, SinkExpr(s, Tracked(prefix, {})).value)
  {
    SinkFlagged(body, prefix, tail, s);
    SinkLeaksIff(body, prefix, tail, s);
    NoElseCanSkip(prefix, SinkExpr(s, Tracked(prefix, {})).value);
  }

  lemma NoElseCanSkip(prefix: seq<Stmt>, e: Expr)
    requires NoElse(prefix)
    ensures forall t :: CanSkip(prefix, e, t)
  {
    NoElseDoesNotStop(prefix);
    forall t ensures CanSkip(prefix, e, t) {
      if Root(e).Name? { NoElseIsIdle(prefix, Root(e).id, t); }
    }
  }

  ghost predicate SomeFollowed(tail: seq<Stmt>, tracked: set<string>) {
    exists s :: IsSink(s, tail) && Followed(s, tracked) && SinkExpr(s, tracked).Some?
  }

  ghost predicate SomeReached(tail: seq<Stmt>, tracked: set<string>) {
    exists s :: CanReach(tail, s) && SinkExpr(s, tracked).Some?
  }

  /** All queries that leave through sinks of the tail are this one. */
  ghost predicate OnlyQuery(tail: seq<Stmt>, tracked: set<string>, e: Expr) {
    forall s :: IsSink(s, tail) && SinkExpr(s, tracked).Some? ==> SinkExpr(s, tracked) == Some(e)
  }

  lemma {:induction false} ReachedIsSink(tail: seq<Stmt>, s: Sink)
    requires CanReach(tail, s)
    ensures IsSink(s, tail)
  {
    var sc := [ScopeNode];
    if CanReachIn(tail[0], s) {
      ReachedInIsSink(tail[0], s);
    } else {
      ReachedIsSink(tail[1..], s);
    }
    if s.Returned? { HasConcat(StatementsOf(tail[0], sc), Statements(tail[1..], sc), Return(Some(s.result))); }
  }

  lemma {:induction false} ReachedInIsSink(st: Stmt, s: Sink)
    requires CanReachIn(st, s)
    ensures match s
      case Fetched(t) => t in StmtTerminals(st)
      case Returned(e) => HasStmt(StatementsOf(st, [ScopeNode]), Return(Some(e)))
  {
    var sc := [ScopeNode];
    if s.Returned? { NodesOf(st, sc, Return(Some(s.result))); }
    match st
    case If(_, body, orelse) =>
      if CanReach(body, s) { ReachedIsSink(body, s); UnderAncestors(body, [IfNode] + sc, s); }
      if CanReach(orelse, s) { ReachedIsSink(orelse, s); UnderAncestors(orelse, [IfNode] + sc, s); }
    case With(_, block) =>
      if CanReach(block, s) { ReachedIsSink(block, s); UnderAncestors(block, [OtherNode] + sc, s); }
    case _ =>
  }

  lemma UnderAncestors(block: seq<Stmt>, ancestors: seq<Kind>, s: Sink)
    requires IsSink(s, block)
    ensures s.Returned? ==> HasStmt(Statements(block, ancestors), Return(Some(s.result)))
  {
    if s.Returned? { SameStmts(block, [ScopeNode], ancestors, Return(Some(s.result))); }
  }

  /** For a function that lets out one query, through any number of sinks: it is reported exactly when the check follows
      one of the sinks and classifies the query's chain as a violation; a full scan leaves it exactly when one of the
      sinks can be reached and the chain is a violation by what its conditions mention, with branches to match. The
      verdict is right exactly when these two agree. */
  lemma OneQueryVerdict(body: seq<Stmt>, prefix: seq<Stmt>, tail: seq<Stmt>, e: Expr)
    requires InFragment(body, prefix, tail) && OnlyQuery(tail, Tracked(prefix, {}), e)
    ensures var tracked := Tracked(prefix, {});
      (Flagged(body) <==> SomeFollowed(tail, tracked) && Suspect(prefix, e, Seen))
      && ((exists s :: SinkLeaks(s, body, tracked)) <==> SomeReached(tail, tracked) && Leaky(prefix, e))
  {
    var tracked := Tracked(prefix, {});
    if Flagged(body) {
      var s := FlaggedSink(body, prefix, tail);
      assert IsSink(s, tail) && Followed(s, tracked) && SinkExpr(s, tracked) == Some(e);
    }
    if Suspect(prefix, e, Seen) && SomeFollowed(tail, tracked) {
      var s :| IsSink(s, tail) && Followed(s, tracked) && SinkExpr(s, tracked).Some?;
      SinkFlagged(body, prefix, tail, s);
    }
    OneQueryLeaks(body, prefix, tail, e);
  }

  lemma OneQueryLeaks(body: seq<Stmt>, prefix: seq<Stmt>, tail: seq<Stmt>, e: Expr)
    requires InFragment(body, prefix, tail) && OnlyQuery(tail, Tracked(prefix, {}), e)
    ensures (exists s :: SinkLeaks(s, body, Tracked(prefix, {})))
            <==> SomeReached(tail, Tracked(prefix, {})) && Leaky(prefix, e)
  {
    var tracked := Tracked(prefix, {});
    if s :| SinkLeaks(s, body, tracked) {
      SinkLeaksIff(body, prefix, tail, s);
      ReachedIsSink(tail, s);
    }
    if SomeReached(tail, tracked) && Leaky(prefix, e) {
      var s :| CanReach(tail, s) && SinkExpr(s, tracked).Some?;
      ReachedIsSink(tail, s);
      SinkLeaksIff(body, prefix, tail, s);
    }
  }

  /** A function whose sinks are all of shapes the check does not follow is never reported. */
  lemma UnfollowedIsNeverFlagged(body: seq<Stmt>, prefix: seq<Stmt>, tail: seq<Stmt>)
    requires InFragment(body, prefix, tail)
    ensures !SomeFollowed(tail, Tracked(prefix, {})) ==> !Flagged(body)
  {
    if Flagged(body) {
      var s := FlaggedSink(body, prefix, tail);
      assert IsSink(s, tail) && Followed(s, Tracked(prefix, {}));
    }
  }

  /** If a leaky query leaves only through such sinks and one of them can be reached, the full scan is missed. */
  lemma UnfollowedIsMissed(body: seq<Stmt>, prefix: seq<Stmt>, tail: seq<Stmt>, s: Sink)
    requires InFragment(body, prefix, tail) && !SomeFollowed(tail, Tracked(prefix, {})) && CanReach(tail, s)
    requires var e := SinkExpr(s, Tracked(prefix, {})); e.Some? && Leaky(prefix, e.value)
    ensures !Flagged(body) && SinkLeaks(s, body, Tracked(prefix, {}))
  {
    UnfollowedIsNeverFlagged(body, prefix, tail);
    SinkLeaksIff(body, prefix, tail, s);
  }

  lemma {:induction false} ItemsAreTidy(items: seq<Expr>, prefix: seq<Stmt>)
    requires Tidy(prefix, false, {})
    ensures Tidy(ItemStmts(items) + prefix, false, {}) && Tracked(ItemStmts(items) + prefix, {}) == Tracked(prefix, {})
  {
    if items == [] {
      assert ItemStmts(items) + prefix == prefix;
    } else {
      ItemsAreTidy(items[1..], prefix);
      TidyCons(items[0], ItemStmts(items[1..]) + prefix);
      assert ItemStmts(items) + prefix == [ExprStmt(items[0])] + (ItemStmts(items[1..]) + prefix);
    }
  }

  lemma TidyCons(e: Expr, block: seq<Stmt>)
    requires Tidy(block, false, {})
    ensures Tidy([ExprStmt(e)] + block, false, {}) && Tracked([ExprStmt(e)] + block, {}) == Tracked(block, {})
  {
    assert ([ExprStmt(e)] + block)[1..] == block;
  }

  /** A function of the fragment stays in it inside a `with`, as in `with SessionLocal() as session: ...`. */
  lemma WithKeepsFragment(items: seq<Expr>, body: seq<Stmt>, prefix: seq<Stmt>, tail: seq<Stmt>)
    requires InFragment(body, prefix, tail) && AllTerminals(items) == []
    ensures InFragment([With(items, body)], ItemStmts(items) + prefix, tail)
  {
    ItemsAreTidy(items, prefix);
    ItemTerminals(items);
    StatementsAppend(ItemStmts(items), prefix, []);
    FlatOfWith(items, body);
    Associate(ItemStmts(items), prefix, tail);
  }

  lemma Associate(a: seq<Stmt>, b: seq<Stmt>, c: seq<Stmt>)
    ensures a + (b + c) == a + b + c
  {
  }

  lemma FlatOfWith(items: seq<Expr>, body: seq<Stmt>)
    ensures Flat([With(items, body)]) == ItemStmts(items) + Flat(body)
  {
    assert [With(items, body)][1..] == [];
  }

  // ----- guard clauses

  /** `if c: return e`, where no query is behind `e`. */
  predicate IsGuard(st: Stmt) {
    st.If? && Terminals(st.test) == [] && st.orelse == [] && |st.body| == 1 && st.body[0].Return?
    && var e := st.body[0].result; e.Some? ==> IsBare(e.value) && Terminals(e.value) == []
  }

  lemma GuardTerminals(g: Stmt)
    requires IsGuard(g)
    ensures BlockTerminals([g]) == []
  {
    var r := g.body[0];
    assert g.body == [r] && [r][1..] == [] && [g][1..] == [];
    assert StmtTerminals(r) == [] && BlockTerminals([r]) == StmtTerminals(r) + [];
    assert StmtTerminals(g) == Terminals(g.test) + BlockTerminals([r]) + BlockTerminals([]);
    assert BlockTerminals([g]) == StmtTerminals(g) + BlockTerminals([]);
  }

  lemma GuardIsTidy(g: Stmt)
    requires IsGuard(g)
    ensures TidyStmt(g, false, {}) && TidyTailStmt(g, {})
  {
    var r := g.body[0];
    assert g.body == [r] && [r][1..] == [];
    assert TidyStmt(r, true, {}) && Tidy([], true, {}) && Tidy([r], true, {});
    assert TidyTailStmt(r, {}) && TidyTail([], {}) && TidyTail([r], {});
  }

  lemma GuardedCanSkip(g: Stmt, prefix: seq<Stmt>, e: Expr, t: Test)
    requires IsGuard(g)
    ensures CanSkip([g] + prefix, e, t) <==> CanSkip(prefix, e, t)
  {
    var all := [g] + prefix;
    assert all[0] == g && all[1..] == prefix && !StopsBlock([]) && !Stops(g);
    assert Root(e).Name? ==> Idle([], Root(e).id, t) && IfsIdleStmt(g, Root(e).id, t);
  }

  lemma GuardedChains(g: Stmt, prefix: seq<Stmt>)
    requires IsGuard(g)
    ensures ChainsOf([g] + prefix) == ChainsOf(prefix)
  {
    var sc := [ScopeNode];
    var none: Chains := map[];
    GuardIsTidy(g);
    assert none.Keys == {};
    StatementsAppend([g], prefix, sc);
    OneStatement(g, sc);
    CollectConcat(StatementsOf(g, sc), Statements(prefix, sc), none);
    TailCollectStmt(g, sc, none);
  }

  lemma GuardKeepsFragment(g: Stmt, body: seq<Stmt>, prefix: seq<Stmt>, tail: seq<Stmt>)
    requires IsGuard(g) && InFragment(body, prefix, tail)
    ensures InFragment([g] + body, [g] + prefix, tail) && Tracked([g] + prefix, {}) == Tracked(prefix, {})
  {
    GuardIsTidy(g);
    GuardTerminals(g);
    StatementsAppend([g], prefix, []);
    assert ([g] + body)[1..] == body && ([g] + prefix)[1..] == prefix;
    Associate([g], prefix, tail);
  }

  /** A guard clause in front of a function of the fragment changes neither the verdict nor what leaks. */
  lemma GuardChangesNothing(g: Stmt, body: seq<Stmt>, prefix: seq<Stmt>, tail: seq<Stmt>, s: Sink)
    requires IsGuard(g) && InFragment(body, prefix, tail)
    ensures Flagged([g] + body) <==> Flagged(body)
    ensures SinkLeaks(s, [g] + body, Tracked(prefix, {})) <==> SinkLeaks(s, body, Tracked(prefix, {}))
  {
    GuardKeepsFragment(g, body, prefix, tail);
    GuardedChains(g, prefix);
    FlaggedIffSuspectSink(body, prefix, tail);
    FlaggedIffSuspectSink([g] + body, [g] + prefix, tail);
    forall x ensures SuspectSink(x, [g] + prefix, tail) <==> SuspectSink(x, prefix, tail) {}
    forall e, t ensures CanSkip([g] + prefix, e, t) <==> CanSkip(prefix, e, t) { GuardedCanSkip(g, prefix, e, t); }
    if SinkExpr(s, Tracked(prefix, {})).Some? {
      SinkLeaksIff(body, prefix, tail, s);
      SinkLeaksIff([g] + body, [g] + prefix, tail, s);
    }
  }
}

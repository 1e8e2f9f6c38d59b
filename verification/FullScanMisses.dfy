/** Concrete functions on which the verdict of scripts/check_read_path_full_scan.py (lines 353-479) and the runs part.
    - after any violating start, full scans leave unreported through `q.all()`, `session.scalars(q)`,
      `session.execute(q).mappings().all()` and `return q.order_by()`;
    - a start with one condition is judged by what the check takes for a filter: an attribute of the caller hides a full
      scan, a column under a function call raises a false alarm;
    - so do a sink that no run reaches and branches that both limit the query. */
module FullScanMisses {
  import opened Text
  import opened QueryChains
  import opened FullScanCheck
  import opened FullScanExact
  import opened FullScanVerdict

  const Hot := "AuditEventRecord"

  /** `select(Hot).where(arg)` */
  function Listing(arg: Expr): Expr {
    Call(Attribute(Call(Name("select"), [Name(Hot)]), "where"), [arg])
  }

  lemma ListingFacts(arg: Expr, t: Test)
    ensures var e := Listing(arg);
      Methods(e) == ["where"] && WhereArgs(e) == [arg] && SelectModel(e) == Some(Hot)
      && (Narrows(e, t) <==> Passes(arg, t))
  {
    var e, start := Listing(arg), Call(Name("select"), [Name(Hot)]);
    assert !IsMethodCall(start) && Root(e) == start && SelectCallModel(start) == Some(Hot);
    assert Methods(start) == [] && WhereArgs(start) == [];
    assert ["where"] + Methods(start) == ["where"] && [arg] + WhereArgs(start) == [arg];
    assert [arg][0] == arg && "where" != "limit";
  }

  lemma OneTerminals(e: Expr)
    ensures AllTerminals([e]) == Terminals(e)
  {
    assert [e][1..] == [] && AllTerminals([]) == [] && Terminals(e) + [] == Terminals(e);
  }

  lemma ListingTerminals(arg: Expr)
    requires Terminals(arg) == []
    ensures Terminals(Listing(arg)) == []
  {
    var start := Call(Name("select"), [Name(Hot)]);
    OneTerminals(Name(Hot));
    OneTerminals(arg);
    assert Terminals(start) == Terminals(Name("select")) + AllTerminals([Name(Hot)]) == [];
    assert Terminals(Attribute(start, "where")) == Terminals(start);
    assert "where" !in TERMINAL_METHODS;
  }

  lemma StartShape(x: string, e: Expr)
    requires e.Call? && SelectModel(e).Some? && Terminals(e) == []
    ensures var s := Assign([Name(x)], e);
      ChainsOf([s]) == map[x := [Segment(e, false)]]
      && BlockTerminals([s]) == [] && Tidy([s], false, {}) && Tracked([s], {}) == {x}
  {
    var s := Assign([Name(x)], e);
    var v := Visited(s, [ScopeNode]);
    OneTerminals(Name(x));
    assert StmtTerminals(s) == AllTerminals([Name(x)]) + Terminals(e) == [] && [s][1..] == [];
    OneStatement(s, [ScopeNode]);
    assert StatementsOf(s, [ScopeNode]) == [v] && [v][1..] == [];
    var none: Chains := map[];
    assert CollectOne(v, none) == map[x := [Segment(e, false)]];
    assert Collect([v], none) == Collect([], CollectOne(v, none)) == CollectOne(v, none);
  }

  /** One statement that starts `q` with a chain on the hot table that is a violation by both tests. */
  predicate ViolatingStart(p: Stmt) {
    !p.With? && Tidy([p], false, {}) && BlockTerminals([p]) == [] && Tracked([p], {}) == {"q"}
    && "q" in ChainsOf([p]) && FirstModel(ChainsOf([p])["q"]) == Some(Hot)
    && Violates(ChainsOf([p])["q"], Seen) && Violates(ChainsOf([p])["q"], Real(Hot))
    && IfsIdle([p], "q", Seen) && IfsIdle([p], "q", Real(Hot))
  }

  function StartWith(arg: Expr): Stmt {
    Assign([Name("q")], Listing(arg))
  }

  lemma StartFacts(arg: Expr, t: Test)
    requires Terminals(arg) == []
    ensures var p := StartWith(arg);
      Tidy([p], false, {}) && BlockTerminals([p]) == [] && Tracked([p], {}) == {"q"} && "q" in ChainsOf([p])
      && FirstModel(ChainsOf([p])["q"]) == Some(Hot) && IfsIdle([p], "q", t)
      && (Violates(ChainsOf([p])["q"], t) <==> !Passes(arg, t))
  {
    ListingFacts(arg, t);
    ListingTerminals(arg);
    StartShape("q", Listing(arg));
    var p, segment := StartWith(arg), Segment(Listing(arg), false);
    assert [segment][0] == segment && [segment][1..] == [] && [p][1..] == [];
    assert ChainsOf([p])["q"] == [segment] && Hot in HOT_MODELS;
    assert IfsIdle([], "q", t) && IfsIdleStmt(p, "q", t);
    assert FirstModel([segment]) == Some(Hot) && (SomeNarrows([segment], t) <==> Narrows(Listing(arg), t));
  }

  /** `Hot.tenant_id == t` */
  function TenantFilter(): Expr {
    Compare(Attribute(Name(Hot), "tenant_id"), [Name("t")])
  }

  lemma StartIsViolating()
    ensures ViolatingStart(StartWith(TenantFilter()))
  {
    CompareTerminals(Attribute(Name(Hot), "tenant_id"), Name("t"));
    StartFacts(TenantFilter(), Seen);
    StartFacts(TenantFilter(), Real(Hot));
    assert !Mentions(Attribute(Name(Hot), "tenant_id"), Hot) && !MentionsAny([Name("t")], Hot);
  }

  lemma CompareTerminals(left: Expr, right: Expr)
    requires Terminals(left) == [] && Terminals(right) == []
    ensures Terminals(Compare(left, [right])) == []
  {
    OneTerminals(right);
    assert Terminals(Compare(left, [right])) == Terminals(left) + AllTerminals([right]);
  }

  lemma StillLeaky(p: Stmt, e: Expr)
    requires ViolatingStart(p) && Root(e) == Name("q") && !Narrows(e, Real(Hot)) && (e.Call? || e == Name("q"))
    ensures Leaky([p], e)
  {
    ChainVerdict(e, ChainsOf([p]), Real(Hot));
  }

  lemma TwoStatements(p: Stmt, s: Stmt)
    requires !p.With? && Tidy([p], false, {}) && BlockTerminals([p]) == [] && Tracked([p], {}) == {"q"}
    requires !s.With? && TidyTailStmt(s, {"q"})
    ensures InFragment([p, s], [p], [s])
  {
    FlatOfPlain([p, s]);
    assert [p, s] == [p] + [s];
    assert [s][1..] == [] && TidyTail([], {"q"});
  }

  lemma TerminalIsSink(t: Expr)
    requires Terminals(t) == [t]
    ensures forall s :: IsSink(s, [ExprStmt(t)]) <==> s == Fetched(t)
    ensures CanReach([ExprStmt(t)], Fetched(t))
  {
    var stmt := ExprStmt(t);
    assert [stmt][1..] == [] && BlockTerminals([stmt]) == StmtTerminals(stmt) + [];
    OneStatement(stmt, [ScopeNode]);
    forall e ensures !HasStmt(Statements([stmt], [ScopeNode]), Return(Some(e))) {
      HasOne(Visited(stmt, [ScopeNode]), Return(Some(e)));
    }
  }

  lemma ReturnIsSink(e: Expr)
    requires Terminals(e) == []
    ensures forall s :: IsSink(s, [Return(Some(e))]) <==> s == Returned(e)
    ensures CanReach([Return(Some(e))], Returned(e))
  {
    var stmt := Return(Some(e));
    assert [stmt][1..] == [] && BlockTerminals([stmt]) == StmtTerminals(stmt) + [];
    OneStatement(stmt, [ScopeNode]);
    forall x ensures HasStmt(Statements([stmt], [ScopeNode]), Return(Some(x))) <==> x == e {
      HasOne(Visited(stmt, [ScopeNode]), Return(Some(x)));
    }
  }

  lemma BareName(t: Test)
    ensures !Narrows(Name("q"), t) && Root(Name("q")) == Name("q")
  {
    assert Methods(Name("q")) == [] && WhereArgs(Name("q")) == [];
  }

  /** A list terminal that reads `q` in a shape that is not followed: a full scan, unreported. */
  lemma MissedTerminal(p: Stmt, t: Expr)
    requires ViolatingStart(p) && Terminals(t) == [t] && !Followed(Fetched(t), {"q"})
    requires SinkExpr(Fetched(t), {"q"}) == Some(Name("q"))
    ensures !Flagged([p, ExprStmt(t)]) && SinkLeaks(Fetched(t), [p, ExprStmt(t)], {"q"})
  {
    TwoStatements(p, ExprStmt(t));
    TerminalIsSink(t);
    BareName(Real(Hot));
    StillLeaky(p, Name("q"));
    UnfollowedIsMissed([p, ExprStmt(t)], [p], [ExprStmt(t)], Fetched(t));
  }

  lemma MissedReturn(p: Stmt, e: Expr)
    requires ViolatingStart(p) && Terminals(e) == [] && e.Call? && Root(e) == Name("q") && !Narrows(e, Real(Hot))
    ensures !Flagged([p, Return(Some(e))]) && SinkLeaks(Returned(e), [p, Return(Some(e))], {"q"})
  {
    TwoStatements(p, Return(Some(e)));
    ReturnIsSink(e);
    StillLeaky(p, e);
    UnfollowedIsMissed([p, Return(Some(e))], [p], [Return(Some(e))], Returned(e));
  }

  const Session := Name("session")

  function CallOn(receiver: Expr, name: string, args: seq<Expr>): Expr {
    Call(Attribute(receiver, name), args)
  }

  lemma CallTerminals(receiver: Expr, name: string, args: seq<Expr>)
    requires args == [] || args == [Name("q")]
    ensures Terminals(CallOn(receiver, name, args))
         == (if name in TERMINAL_METHODS then [CallOn(receiver, name, args)] else []) + Terminals(receiver)
  {
    assert Terminals(Name("q")) == [] && AllTerminals([]) == [];
    if args != [] { OneTerminals(Name("q")); }
    assert Terminals(Attribute(receiver, name)) == Terminals(receiver);
  }

  /** `q.all()`. */
  lemma BareTerminalIsMissed(p: Stmt)
    requires ViolatingStart(p)
    ensures var t := CallOn(Name("q"), "all", []);
      !Flagged([p, ExprStmt(t)]) && SinkLeaks(Fetched(t), [p, ExprStmt(t)], {"q"})
  {
    var t := CallOn(Name("q"), "all", []);
    CallTerminals(Name("q"), "all", []);
    assert Terminals(Name("q")) == [];
    MissedTerminal(p, t);
  }

  lemma SessionIsNoQuery()
    ensures Terminals(Session) == [] && Executed(Session) == None
    ensures !IsQuery(Session, {"q"}) && Root(Session) == Session
  {
    assert "session"[0] != "q"[0];
  }

  function SessionScalars(): Expr {
    CallOn(Session, "scalars", [Name("q")])
  }

  lemma ScalarsFacts()
    ensures var t := SessionScalars();
      Terminals(t) == [t] && !Followed(Fetched(t), {"q"}) && SinkExpr(Fetched(t), {"q"}) == Some(Name("q"))
  {
    SessionIsNoQuery();
    CallTerminals(Session, "scalars", [Name("q")]);
    assert SessionScalars().func.value == Session;
  }

  /** `session.scalars(q)`. */
  lemma SessionScalarsIsMissed(p: Stmt)
    requires ViolatingStart(p)
    ensures var t := SessionScalars();
      !Flagged([p, ExprStmt(t)]) && SinkLeaks(Fetched(t), [p, ExprStmt(t)], {"q"})
  {
    ScalarsFacts();
    MissedTerminal(p, SessionScalars());
  }

  lemma NotTerminals()
    ensures "mappings" !in TERMINAL_METHODS && "execute" !in TERMINAL_METHODS && "order_by" !in TERMINAL_METHODS
    ensures "mappings" != "execute" && "mappings" != "scalars" && "all" != "execute" && "all" != "scalars"
  {
  }

  function Execution(): Expr {
    CallOn(Session, "execute", [Name("q")])
  }

  function Mappings(): Expr {
    CallOn(Execution(), "mappings", [])
  }

  lemma MappingsFacts()
    ensures Terminals(Mappings()) == [] && Executed(Mappings()) == Some(Name("q")) && !IsQuery(Mappings(), {"q"})
  {
    SessionIsNoQuery();
    NotTerminals();
    CallTerminals(Session, "execute", [Name("q")]);
    CallTerminals(Execution(), "mappings", []);
    assert Executed(Execution()) == Some(Name("q"));
    assert Root(Execution()) == Session && Root(Mappings()) == Session;
  }

  lemma AllOnMappings()
    ensures var t := CallOn(Mappings(), "all", []);
      Terminals(t) == [t] && !Followed(Fetched(t), {"q"}) && SinkExpr(Fetched(t), {"q"}) == Some(Name("q"))
  {
    NotTerminals();
    MappingsFacts();
    CallTerminals(Mappings(), "all", []);
    assert Mappings().func.attr == "mappings";
  }

  /** `session.execute(q).mappings().all()`. */
  lemma MappingsIsMissed(p: Stmt)
    requires ViolatingStart(p)
    ensures var t := CallOn(Mappings(), "all", []);
      !Flagged([p, ExprStmt(t)]) && SinkLeaks(Fetched(t), [p, ExprStmt(t)], {"q"})
  {
    AllOnMappings();
    MissedTerminal(p, CallOn(Mappings(), "all", []));
  }

  /** `return q.order_by()`. */
  lemma ReturnedContinuationIsMissed(p: Stmt)
    requires ViolatingStart(p)
    ensures var e := CallOn(Name("q"), "order_by", []);
      !Flagged([p, Return(Some(e))]) && SinkLeaks(Returned(e), [p, Return(Some(e))], {"q"})
  {
    var e := CallOn(Name("q"), "order_by", []);
    NotTerminals();
    CallTerminals(Name("q"), "order_by", []);
    assert Terminals(Name("q")) == [];
    BareName(Real(Hot));
    assert Methods(e) == ["order_by"] && WhereArgs(e) == [] && Root(e) == Name("q");
    MissedReturn(p, e);
  }

  // ----- a followed sink

  /** `session.execute(q).scalars()` */
  function Scalars(): Expr {
    CallOn(Execution(), "scalars", [])
  }

  lemma ScalarsOfExecution()
    ensures Terminals(Scalars()) == [Scalars()] && Followed(Fetched(Scalars()), {"q"})
    ensures SinkExpr(Fetched(Scalars()), {"q"}) == Some(Name("q"))
  {
    SessionIsNoQuery();
    NotTerminals();
    CallTerminals(Session, "execute", [Name("q")]);
    CallTerminals(Execution(), "scalars", []);
    assert IsExecute(Execution());
  }

  lemma StartVerdict(arg: Expr, t: Test)
    requires Terminals(arg) == []
    ensures var p := StartWith(arg);
      (Suspect([p], Name("q"), t) <==> !Passes(arg, t)) && CanSkip([p], Name("q"), t)
      && ModelBehind([p], Name("q")) == Some(Hot)
  {
    StartFacts(arg, t);
    var behind := ChainBehind(Name("q"), ChainsOf([StartWith(arg)]));
    assert behind == Some(ChainsOf([StartWith(arg)])["q"]);
  }

  lemma StartFetched(arg: Expr)
    requires Terminals(arg) == []
    ensures var p, s := StartWith(arg), ExprStmt(Scalars());
      InFragment([p, s], [p], [s]) && Tracked([p], {}) == {"q"}
  {
    StartFacts(arg, Seen);
    ScalarsOfExecution();
    TwoStatements(StartWith(arg), ExprStmt(Scalars()));
  }

  lemma OneConditionFlagged(arg: Expr)
    requires Terminals(arg) == []
    ensures Flagged([StartWith(arg), ExprStmt(Scalars())]) <==> !HasNonTenantFilter(arg)
  {
    var p, s := StartWith(arg), ExprStmt(Scalars());
    StartFetched(arg);
    StartVerdict(arg, Seen);
    ScalarsOfExecution();
    TerminalIsSink(Scalars());
    FlaggedIffSuspectSink([p, s], [p], [s]);
    assert SuspectSink(Fetched(Scalars()), [p], [s]) <==> !Passes(arg, Seen);
    if sink :| SuspectSink(sink, [p], [s]) { assert sink == Fetched(Scalars()); }
  }

  /** A start with any one condition, fetched by `session.execute(q).scalars()`: it is reported exactly when the
      condition is not taken for a filter, and lets a full scan out exactly when it mentions no other column. */
  lemma OneConditionVerdict(arg: Expr)
    requires Terminals(arg) == []
    ensures var body := [StartWith(arg), ExprStmt(Scalars())];
      (Flagged(body) <==> !HasNonTenantFilter(arg))
      && (SinkLeaks(Fetched(Scalars()), body, {"q"}) <==> !Mentions(arg, Hot))
  {
    var p, s := StartWith(arg), ExprStmt(Scalars());
    OneConditionFlagged(arg);
    StartFetched(arg);
    StartVerdict(arg, Real(Hot));
    ScalarsOfExecution();
    TerminalIsSink(Scalars());
    SinkLeaksIff([p, s], [p], [s], Fetched(Scalars()));
  }

  /** `where(Hot.tenant_id == self.tenant)`: a tenant-only scan goes unreported, since the caller's attribute is taken
      for a filter. */
  lemma CallerValueIsMissed()
    ensures var arg := Compare(Attribute(Name(Hot), "tenant_id"), [Attribute(Name("self"), "tenant")]);
      var body := [StartWith(arg), ExprStmt(Scalars())];
      !Flagged(body) && SinkLeaks(Fetched(Scalars()), body, {"q"})
  {
    var column, value := Attribute(Name(Hot), "tenant_id"), Attribute(Name("self"), "tenant");
    var arg := Compare(column, [value]);
    CompareTerminals(column, value);
    assert "self"[0] != Hot[0] && "tenant" != "tenant_id" by { assert |"tenant"| != |"tenant_id"|; }
    CallerValueIsTakenForFilter(Hot, "self", "tenant");
    SeparatesIffMentions(arg, Hot);
    OneConditionVerdict(arg);
  }

  /** `where(lower(Hot.name) == x)`: a query that is filtered is reported. */
  lemma WrappedColumnIsFlagged()
    ensures var arg := Compare(Call(Name("lower"), [Attribute(Name(Hot), "name")]), [Name("x")]);
      var body := [StartWith(arg), ExprStmt(Scalars())];
      Flagged(body) && !SinkLeaks(Fetched(Scalars()), body, {"q"})
  {
    var lowered := Call(Name("lower"), [Attribute(Name(Hot), "name")]);
    var arg := Compare(lowered, [Name("x")]);
    OneTerminals(Attribute(Name(Hot), "name"));
    assert Terminals(lowered) == Terminals(Name("lower")) + AllTerminals([Attribute(Name(Hot), "name")]);
    CompareTerminals(lowered, Name("x"));
    WrappedColumnIsMissed(Hot, Name("x"));
    SeparatesIffMentions(arg, Hot);
    OneConditionVerdict(arg);
  }

  // ----- a sink that no run reaches

  /** `if c: return None; session.execute(q).scalars()`, all under the `if`: reported, though no run gets there. */
  lemma DeadSinkIsFlagged(p: Stmt, c: string)
    requires ViolatingStart(p)
    ensures var dead := If(Name(c), [Return(None), ExprStmt(Scalars())], []);
      Flagged([p, dead]) && forall s :: !SinkLeaks(s, [p, dead], {"q"})
  {
    var inner := [Return(None), ExprStmt(Scalars())];
    var dead := If(Name(c), inner, []);
    ScalarsOfExecution();
    assert inner[1..] == [ExprStmt(Scalars())] && [ExprStmt(Scalars())][1..] == [];
    assert TidyTail([], {"q"}) && TidyTail(inner[1..], {"q"}) && TidyTail(inner, {"q"});
    TwoStatements(p, dead);
    DeadSinks(c);
    BareName(Seen);
    ChainVerdict(Name("q"), ChainsOf([p]), Seen);
    assert SuspectSink(Fetched(Scalars()), [p], [dead]);
    SinkFlagged([p, dead], [p], [dead], Fetched(Scalars()));
    forall s ensures !SinkLeaks(s, [p, dead], {"q"}) {
      if SinkExpr(s, {"q"}).Some? { SinkLeaksIff([p, dead], [p], [dead], s); }
    }
  }

  lemma DeadSinks(c: string)
    ensures var dead := If(Name(c), [Return(None), ExprStmt(Scalars())], []);
      IsSink(Fetched(Scalars()), [dead]) && forall s :: !CanReach([dead], s)
  {
    var inner := [Return(None), ExprStmt(Scalars())];
    var dead := If(Name(c), inner, []);
    ScalarsOfExecution();
    assert inner[1..] == [ExprStmt(Scalars())] && [ExprStmt(Scalars())][1..] == [] && [dead][1..] == [];
    assert Terminals(Name(c)) == [] && StmtTerminals(inner[0]) == [] && StmtTerminals(inner[1]) == [Scalars()];
    assert BlockTerminals(inner[1..]) == [Scalars()] + [];
    assert BlockTerminals(inner) == [] + BlockTerminals(inner[1..]);
    assert StmtTerminals(dead) == [] + BlockTerminals(inner) + [];
    assert BlockTerminals([dead]) == StmtTerminals(dead) + [];
    forall s ensures !CanReach([dead], s) { NothingReached(c, s); }
  }

  lemma NothingReached(c: string, s: Sink)
    ensures !CanReach([If(Name(c), [Return(None), ExprStmt(Scalars())], [])], s)
  {
    var first := Return(None);
    var inner := [first, ExprStmt(Scalars())];
    var dead := If(Name(c), inner, []);
    assert Stops(first) && !OwnSink(first, s) && !CanReachIn(first, s);
    assert inner[0] == first && !CanReach(inner, s);
    assert Terminals(Name(c)) == [] && !OwnSink(dead, s) && !CanReach([], s);
    assert !CanReachIn(dead, s) && [dead][0] == dead && [dead][1..] == [];
  }

  // ----- branches that both limit

  const Limited := Assign([Name("q")], CallOn(Name("q"), "limit", [Other([])]))

  /** Two branches that both limit `q`. */
  const Branch := If(Name("c"), [Limited], [Limited])

  lemma BranchFacts()
    ensures TidyStmt(Branch, false, {"q"}) && BlockTerminals([Branch]) == []
    ensures forall t :: !IfsIdleStmt(Branch, "q", t)
  {
    assert AllTerminals([Other([])]) == [] && Terminals(Limited.rhs) == [];
    assert StmtTerminals(Limited) == [] && [Limited][1..] == [] && [Branch][1..] == [];
    assert BlockTerminals([Limited]) == [];
    assert TidyStmt(Limited, true, {"q"}) && Tidy([Limited], true, {"q"});
    assert Methods(Limited.rhs) == ["limit"];
    forall t ensures !IfsIdleStmt(Branch, "q", t) {
      assert !IdleStmt(Limited, "q", t) && !Idle([Limited], "q", t);
    }
  }

  /** With an else, the verdict can be a false alarm: both branches limit the query, yet it is reported. */
  lemma BothBranchesLimitIsStillFlagged(p: Stmt)
    requires ViolatingStart(p)
    ensures var body := [p, Branch, Return(Some(Name("q")))];
      Flagged(body) && !SinkLeaks(Returned(Name("q")), body, {"q"})
  {
    var body := [p, Branch, Return(Some(Name("q")))];
    BranchFacts();
    FlatOfPlain(body);
    assert body == [p] + [Branch] + [Return(Some(Name("q")))];
    BranchKeepsVerdict(body, [p], Branch, "q");
  }

  /** An `if` after a violating start does not change the verdict on a returned name; if no way through it is idle,
      nothing leaks. */
  lemma BranchKeepsVerdict(body: seq<Stmt>, start: seq<Stmt>, branch: Stmt, x: string)
    requires Flat(body) == start + [branch] + [Return(Some(Name(x)))]
    requires Tidy(start, false, {}) && BlockTerminals(start) == [] && Tracked(start, {}) == {x}
    requires branch.If? && TidyStmt(branch, false, {x}) && BlockTerminals([branch]) == []
    requires x in ChainsOf(start) && Violates(ChainsOf(start)[x], Seen) && forall t :: !IfsIdleStmt(branch, x, t)
    ensures Flagged(body) && !SinkLeaks(Returned(Name(x)), body, {x})
  {
    var prefix, tail := start + [branch], [Return(Some(Name(x)))];
    TidyAppend(start, branch, {});
    StatementsAppend(start, [branch], [ScopeNode]);
    ReturnTail(Some(Name(x)), {x});
    StillViolates(start, branch, x);
    assert SuspectSink(Returned(Name(x)), prefix, tail);
    SinkFlagged(body, prefix, tail, Returned(Name(x)));
    forall t ensures !IfsIdle(prefix, x, t) { IfsIdleAppend(start, branch, x, t); }
    SinkLeaksIff(body, prefix, tail, Returned(Name(x)));
  }

  lemma ReturnTail(e: Option<Expr>, tracked: set<string>)
    ensures TidyTail([Return(e)], tracked) && HasStmt(Statements([Return(e)], [ScopeNode]), Return(e))
  {
    var s := Return(e);
    assert [s][1..] == [] && TidyTail([], tracked);
    OneStatement(s, [ScopeNode]);
    HasOne(Visited(s, [ScopeNode]), s);
  }

  lemma StillViolates(start: seq<Stmt>, branch: Stmt, x: string)
    requires Tidy(start, false, {}) && branch.If? && TidyStmt(branch, false, Tracked(start, {}))
    requires x in ChainsOf(start) && Violates(ChainsOf(start)[x], Seen)
    ensures Suspect(start + [branch], Name(x), Seen)
  {
    StatementsAppend(start, [branch], [ScopeNode]);
    CollectConcat(Statements(start, [ScopeNode]), Statements([branch], [ScopeNode]), map[]);
    PrefixChains(start);
    ConditionalBranch(branch, ChainsOf(start));
  }

  lemma {:induction false} TidyAppend(block: seq<Stmt>, s: Stmt, tracked: set<string>)
    requires Tidy(block, false, tracked) && TidyStmt(s, false, Tracked(block, tracked))
    ensures Tidy(block + [s], false, tracked)
    ensures Tracked(block + [s], tracked) == TrackedBy(s, Tracked(block, tracked))
  {
    if block != [] {
      assert (block + [s])[1..] == block[1..] + [s];
      TidyAppend(block[1..], s, TrackedBy(block[0], tracked));
    }
  }

  lemma {:induction false} IfsIdleAppend(block: seq<Stmt>, s: Stmt, x: string, t: Test)
    requires !IfsIdleStmt(s, x, t)
    ensures !IfsIdle(block + [s], x, t)
  {
    if block != [] {
      assert (block + [s])[1..] == block[1..] + [s];
      IfsIdleAppend(block[1..], s, x, t);
    }
  }

  lemma ConditionalBranch(branch: Stmt, chains: Chains)
    requires branch.If? && TidyStmt(branch, false, chains.Keys)
    ensures SameVerdicts(chains, Collect(Statements([branch], [ScopeNode]), chains), Seen)
  {
    var v := Visited(branch, [ScopeNode]);
    assert Statements([branch], [ScopeNode]) == StatementsOf(branch, [ScopeNode]) by {
      assert [branch][1..] == [];
    }
    IfNodes(v, branch.body, branch.orelse, chains);
    var anc := [IfNode] + [ScopeNode];
    ConditionalCollect(branch.body, anc, chains, Seen);
    ConditionalCollect(branch.orelse, anc, Collect(Statements(branch.body, anc), chains), Seen);
  }
}

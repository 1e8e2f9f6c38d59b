/** The full-scan check itself (scripts/check_read_path_full_scan.py): chains, links under an `if`, and verdicts. */
module FullScanCheck {
  import opened Text
  import opened QueryChains

  /** Statements of a function body; `With` stands for blocks that always run. */
  datatype Stmt =
    | Assign(targets: seq<Expr>, rhs: Expr)
    | If(test: Expr, body: seq<Stmt>, orelse: seq<Stmt>)
    | With(items: seq<Expr>, block: seq<Stmt>)
    | Return(result: Option<Expr>)
    | ExprStmt(expr: Expr)

  datatype Kind = IfNode | ScopeNode | OtherNode

  /** A statement with the kinds of its ancestors, nearest first, as the parent map yields them. */
  datatype Visited = Visited(stmt: Stmt, ancestors: seq<Kind>)

  datatype Segment = Segment(expr: Expr, conditional: bool)

  type Chains = map<string, seq<Segment>>

  const HOT_MODELS: set<string> := {
    "CatalogEntryRecord", "CatalogItemRecord", "CatalogEntryVersionRecord", "CatalogModelFieldRecord",
    "CapabilityCallRecord", "AuditEventRecord", "ObjectionCaseRecord", "ObjectionProcessRecord",
    "ObjectionEvidenceRecord", "ApplicationRecord", "ApprovalCaseRecord", "ApprovalStepRecord",
    "ApprovalDecisionRecord", "ResourceAssetRecord", "ResourceChannelBindingRecord", "DeliveryTaskRecord",
    "DeliveryAttemptRecord", "DeliveryReceiptRecord", "AnchorOutboxRecord"}

  const TERMINAL_LIST_METHODS: set<string> := {"scalars", "all"}
  const TERMINAL_METHODS: set<string> :=
    TERMINAL_LIST_METHODS + {"first", "scalar_one", "scalar_one_or_none", "scalar", "one", "one_or_none"}

  // ----- traversal

  /** The statements of a block in the order the script visits them. */
  function Statements(block: seq<Stmt>, ancestors: seq<Kind>): seq<Visited> {
    if block == [] then [] else StatementsOf(block[0], ancestors) + Statements(block[1..], ancestors)
  }

  function StatementsOf(s: Stmt, ancestors: seq<Kind>): seq<Visited> {
    [Visited(s, ancestors)] +
    match s
    case If(_, body, orelse) => Statements(body, [IfNode] + ancestors) + Statements(orelse, [IfNode] + ancestors)
    case With(_, block) => Statements(block, [OtherNode] + ancestors)
    case _ => []
  }

  /** The calls of an expression that end a query, outermost first. */
  function Terminals(e: Expr): seq<Expr> {
    (if IsMethodCall(e) && e.func.attr in TERMINAL_METHODS then [e] else []) +
    match e
    case Name(_) => []
    case Attribute(value, _) => Terminals(value)
    case Call(func, args) => Terminals(func) + AllTerminals(args)
    case Compare(left, comparators) => Terminals(left) + AllTerminals(comparators)
    case BoolOp(values) => AllTerminals(values)
    case UnaryOp(operand) => Terminals(operand)
    case Other(children) => AllTerminals(children)
  }

  function AllTerminals(es: seq<Expr>): seq<Expr> {
    if es == [] then [] else Terminals(es[0]) + AllTerminals(es[1..])
  }

  function BlockTerminals(block: seq<Stmt>): seq<Expr> {
    if block == [] then [] else StmtTerminals(block[0]) + BlockTerminals(block[1..])
  }

  function StmtTerminals(s: Stmt): seq<Expr> {
    match s
    case Assign(targets, rhs) => AllTerminals(targets) + Terminals(rhs)
    case If(test, body, orelse) => Terminals(test) + BlockTerminals(body) + BlockTerminals(orelse)
    case With(items, block) => AllTerminals(items) + BlockTerminals(block)
    case Return(result) => if result.Some? then Terminals(result.value) else []
    case ExprStmt(expr) => Terminals(expr)
  }

  predicate InsideIf(ancestors: seq<Kind>) {
    ancestors != [] &&
    match ancestors[0]
    case IfNode => true
    case ScopeNode => false
    case OtherNode => InsideIf(ancestors[1..])
  }

  /** Going up, an `if` comes before any function or lambda. */
  lemma {:induction false} InsideIfIff(ancestors: seq<Kind>)
    ensures InsideIf(ancestors)
            <==> exists i: nat :: i < |ancestors| && ancestors[i] == IfNode && AllOther(ancestors[..i])
  {
    if ancestors != [] && ancestors[0] == OtherNode {
      var rest := ancestors[1..];
      InsideIfIff(rest);
      if i: nat :| i < |rest| && rest[i] == IfNode && AllOther(rest[..i]) {
        assert ancestors[..i + 1] == [OtherNode] + rest[..i] && ancestors[i + 1] == IfNode;
      }
      if i: nat :| i < |ancestors| && ancestors[i] == IfNode && AllOther(ancestors[..i]) {
        assert rest[..i - 1] == ancestors[..i][1..] && rest[i - 1] == IfNode;
        assert AllOther(rest[..i - 1]);
      }
    } else if ancestors != [] {
      assert ancestors[..0] == [];
      forall i: nat | 0 < i < |ancestors| ensures !AllOther(ancestors[..i]) {
        assert ancestors[..i][0] == ancestors[0];
      }
    }
  }

  predicate AllOther(kinds: seq<Kind>) {
    forall j :: 0 <= j < |kinds| ==> kinds[j] == OtherNode
  }

  method ComputeInsideIf(ancestors: seq<Kind>) returns (inside: bool)
    ensures inside <==> InsideIf(ancestors)
  {
    var i := 0;
    while i < |ancestors|
      invariant 0 <= i <= |ancestors|
      invariant InsideIf(ancestors) <==> InsideIf(ancestors[i..])
    {
      if ancestors[i] == IfNode {
        return true;
      }
      if ancestors[i] == ScopeNode {
        return false;
      }
      i := i + 1;
    }
    inside := false;
  }

  // ----- collecting chains

  function CollectOne(v: Visited, chains: Chains): Chains {
    if !v.stmt.Assign? || |v.stmt.targets| != 1 || !v.stmt.targets[0].Name? || !v.stmt.rhs.Call? then chains
    else
      var name, rhs, segment := v.stmt.targets[0].id, v.stmt.rhs, Segment(v.stmt.rhs, InsideIf(v.ancestors));
      if SelectModel(rhs).Some? then chains[name := [segment]]
      else if Root(rhs) == Name(name) && name in chains then chains[name := chains[name] + [segment]]
      else chains
  }

  function Collect(nodes: seq<Visited>, chains: Chains): Chains {
    if nodes == [] then chains else Collect(nodes[1..], CollectOne(nodes[0], chains))
  }

  lemma {:induction false} CollectConcat(a: seq<Visited>, b: seq<Visited>, chains: Chains)
    ensures Collect(a + b, chains) == Collect(b, Collect(a, chains))
  {
    if a == [] {
      assert a + b == b;
    } else {
      assert (a + b)[1..] == a[1..] + b;
      CollectConcat(a[1..], b, CollectOne(a[0], chains));
    }
  }

  predicate AssignsCall(v: Visited, x: string) {
    v.stmt.Assign? && v.stmt.targets == [Name(x)] && v.stmt.rhs.Call?
  }

  /** The statement starts a chain for `x`: it assigns a chain of calls on a `select`. */
  predicate Starts(v: Visited, x: string) {
    AssignsCall(v, x) && SelectModel(v.stmt.rhs).Some?
  }

  /** The statement continues the chain of `x`: it assigns a chain of calls on `x` itself. */
  predicate ContinuesChain(v: Visited, x: string) {
    AssignsCall(v, x) && SelectModel(v.stmt.rhs) == None && Root(v.stmt.rhs) == Name(x)
  }

  /** Node `i` is the last of the first `n` that starts a chain for `x`. */
  predicate LastStart(nodes: seq<Visited>, x: string, i: nat, n: nat)
    requires i < n <= |nodes|
  {
    Starts(nodes[i], x) && forall j :: i < j < n ==> !Starts(nodes[j], x)
  }

  ghost function Links(nodes: seq<Visited>, x: string, i: nat): nat -> bool {
    (k: nat) => k < |nodes| && (k == i || (i < k && ContinuesChain(nodes[k], x)))
  }

  ghost function LinkOf(nodes: seq<Visited>): (nat, Segment) -> bool {
    (k: nat, s: Segment) =>
      k < |nodes| && nodes[k].stmt.Assign? && s.expr == nodes[k].stmt.rhs
      && (s.conditional <==> InsideIf(nodes[k].ancestors))
  }

  lemma CollectOneIs(v: Visited, chains: Chains, x: string)
    ensures var next := CollectOne(v, chains);
      (x in next <==> x in chains || Starts(v, x))
      && (x in next ==>
            next[x] == if Starts(v, x) then [Segment(v.stmt.rhs, InsideIf(v.ancestors))]
                       else if ContinuesChain(v, x) then chains[x] + [Segment(v.stmt.rhs, InsideIf(v.ancestors))]
                       else chains[x])
  {
    if v.stmt.Assign? && |v.stmt.targets| == 1 { assert v.stmt.targets == [v.stmt.targets[0]]; }
  }

  lemma CollectSnoc(nodes: seq<Visited>, n: nat)
    requires n < |nodes|
    ensures Collect(nodes[..n + 1], map[]) == CollectOne(nodes[n], Collect(nodes[..n], map[]))
  {
    assert nodes[..n + 1] == nodes[..n] + [nodes[n]] && [nodes[n]][1..] == [];
    CollectConcat(nodes[..n], [nodes[n]], map[]);
  }

  lemma {:induction false} TrackedIff(nodes: seq<Visited>, x: string, n: nat)
    requires n <= |nodes|
    ensures x in Collect(nodes[..n], map[]) <==> exists i: nat :: i < n && Starts(nodes[i], x)
  {
    if n > 0 {
      TrackedIff(nodes, x, n - 1);
      CollectSnoc(nodes, n - 1);
      CollectOneIs(nodes[n - 1], Collect(nodes[..n - 1], map[]), x);
    }
  }

  /** A name has a chain exactly when some statement starts one, and the chain is made of the last start and the later
      continuations, in order, each marked when it stands under an `if`. */
  lemma {:induction false} ChainIs(nodes: seq<Visited>, x: string, i: nat, n: nat)
    requires i < n <= |nodes| && LastStart(nodes, x, i, n)
    ensures x in Collect(nodes[..n], map[])
    ensures Picks(n, Links(nodes, x, i), LinkOf(nodes), Collect(nodes[..n], map[])[x])
  {
    var keep, fits, before := Links(nodes, x, i), LinkOf(nodes), Collect(nodes[..n - 1], map[]);
    var last := nodes[n - 1];
    CollectSnoc(nodes, n - 1);
    CollectOneIs(last, before, x);
    if i == n - 1 {
      PicksNothing(i, keep, fits);
      PicksMore(i, keep, fits, [], [Segment(last.stmt.rhs, InsideIf(last.ancestors))]);
      assert [] + [Segment(last.stmt.rhs, InsideIf(last.ancestors))] == Collect(nodes[..n], map[])[x];
    } else {
      ChainIs(nodes, x, i, n - 1);
      var more := if ContinuesChain(last, x) then [Segment(last.stmt.rhs, InsideIf(last.ancestors))] else [];
      PicksMore(n - 1, keep, fits, before[x], more);
      assert before[x] + more == Collect(nodes[..n], map[])[x];
    }
  }

  method CollectFunctionStatementChains(nodes: seq<Visited>) returns (chains: Chains)
    ensures chains == Collect(nodes, map[])
  {
    chains := map[];
    for k := 0 to |nodes|
      invariant Collect(nodes[k..], chains) == Collect(nodes, map[])
    {
      var stmt := nodes[k].stmt;
      assert nodes[k..][1..] == nodes[k + 1..];
      if !stmt.Assign? || |stmt.targets| != 1 || !stmt.targets[0].Name? || !stmt.rhs.Call? {
        continue;
      }
      var targetName, rhs := stmt.targets[0].id, stmt.rhs;
      var conditional := ComputeInsideIf(nodes[k].ancestors);
      var model := FindSelectInChain(rhs);
      if model.Some? {
        chains := chains[targetName := [Segment(rhs, conditional)]];
        continue;
      }
      var cur := ReceiverRoot(rhs);
      if cur == Name(targetName) && targetName in chains {
        chains := chains[targetName := chains[targetName] + [Segment(rhs, conditional)]];
      }
    }
  }

  // ----- classifying a chain

  /** The model of the first unconditional link that holds a `select`. */
  function FirstModel(segments: seq<Segment>): Option<string> {
    if segments == [] then None
    else if !segments[0].conditional && SelectModel(segments[0].expr).Some? then SelectModel(segments[0].expr)
    else FirstModel(segments[1..])
  }

  predicate SomeLimit(segments: seq<Segment>) {
    exists i :: 0 <= i < |segments| && !segments[i].conditional && "limit" in Methods(segments[i].expr)
  }

  predicate SomeNonTenant(segments: seq<Segment>) {
    exists i :: 0 <= i < |segments| && !segments[i].conditional && AnyPasses(WhereArgs(segments[i].expr), Seen)
  }

  /** Some unconditional link narrows the query. */
  predicate SomeNarrows(segments: seq<Segment>, t: Test) {
    exists i :: 0 <= i < |segments| && !segments[i].conditional && Narrows(segments[i].expr, t)
  }

  /** The verdict on a chain: a hot model, and no unconditional link narrows it. */
  predicate Violates(segments: seq<Segment>, t: Test) {
    FirstModel(segments).Some? && FirstModel(segments).value in HOT_MODELS && !SomeNarrows(segments, t)
  }

  /** The script's three-part classification, with `unconditional_only` set as in every call it makes. */
  method ClassifyChainSegments(segments: seq<Segment>)
    returns (hotModel: Option<string>, hasLimit: bool, onlyTenant: bool)
    ensures hotModel == FirstModel(segments)
    ensures hasLimit <==> SomeLimit(segments)
    ensures onlyTenant <==> !SomeNonTenant(segments)
  {
    hotModel, hasLimit := None, false;
    var whereArgsAll := [];
    for k := 0 to |segments|
      invariant FirstModel(segments) == if hotModel.Some? then hotModel else FirstModel(segments[k..])
      invariant hasLimit <==> SomeLimit(segments[..k])
      invariant AnyPasses(whereArgsAll, Seen) <==> SomeNonTenant(segments[..k])
    {
      SomeSnoc(segments[..k], segments[k], Seen);
      assert segments[..k] + [segments[k]] == segments[..k + 1];
      if segments[k].conditional {
        continue;
      }
      var chain, whereArgs := ChainAttrsAndWhereArgs(segments[k].expr);
      if "limit" in chain {
        hasLimit := true;
      }
      AnyPassesConcat(whereArgsAll, whereArgs, Seen);
      whereArgsAll := whereArgsAll + whereArgs;
      if hotModel == None {
        var m := FindSelectInChain(segments[k].expr);
        if m.Some? {
          hotModel := m;
        }
      }
    }
    assert segments[..|segments|] == segments;
    onlyTenant := OnlyTenant(whereArgsAll);
  }

  lemma SomeSnoc(segments: seq<Segment>, s: Segment, t: Test)
    ensures SomeLimit(segments + [s]) <==> SomeLimit(segments) || (!s.conditional && "limit" in Methods(s.expr))
    ensures SomeNonTenant(segments + [s]) <==>
            SomeNonTenant(segments) || (!s.conditional && AnyPasses(WhereArgs(s.expr), Seen))
    ensures SomeNarrows(segments + [s], t) <==> SomeNarrows(segments, t) || (!s.conditional && Narrows(s.expr, t))
  {
    var all := segments + [s];
    assert all[|segments|] == s;
    assert forall i :: 0 <= i < |segments| ==> all[i] == segments[i];
  }

  // ----- following a terminal or a returned expression back to its chain

  /** The chain behind an expression: its own links after those collected for the name it continues. */
  function ChainBehind(e: Expr, chains: Chains): Option<seq<Segment>> {
    if e.Call? then
      Some((if Root(e).Name? && Root(e).id in chains then chains[Root(e).id] else []) + [Segment(e, false)])
    else if e.Name? && e.id in chains then Some(chains[e.id])
    else None
  }

  /** The expression the check judges for a terminal, when it can follow it. */
  function ChainRoot(terminal: Expr): Option<Expr>
    requires IsMethodCall(terminal)
  {
    var receiver := terminal.func.value;
    if terminal.func.attr !in TERMINAL_LIST_METHODS || !receiver.Call? then None
    else if IsMethodCall(receiver) && receiver.func.attr == "execute" then
      if receiver.args == [] then None else Some(receiver.args[0])
    else Some(receiver)
  }

  predicate FlagsTerminal(terminal: Expr, chains: Chains)
    requires IsMethodCall(terminal)
  {
    ChainRoot(terminal).Some?
    && ChainBehind(ChainRoot(terminal).value, chains).Some?
    && Violates(ChainBehind(ChainRoot(terminal).value, chains).value, Seen)
  }

  predicate FlagsReturn(e: Expr, chains: Chains) {
    (e.Name? && e.id in chains && Violates(chains[e.id], Seen))
    || (e.Call? && SelectModel(e).Some? && Violates([Segment(e, false)], Seen))
  }

  /** A reported node and the hot model behind it. */
  datatype Violation = Violation(node: Expr, model: string)

  function TerminalReport(terminal: Expr, chains: Chains): seq<Violation> {
    if IsMethodCall(terminal) && FlagsTerminal(terminal, chains) then
      [Violation(terminal, FirstModel(ChainBehind(ChainRoot(terminal).value, chains).value).value)]
    else []
  }

  function ReturnReport(e: Expr, chains: Chains): seq<Violation> {
    if FlagsReturn(e, chains) then
      [Violation(e, FirstModel(if e.Name? then chains[e.id] else [Segment(e, false)]).value)]
    else []
  }

  /** Whether the three-part classification is reported. */
  predicate Reported(hotModel: Option<string>, hasLimit: bool, onlyTenant: bool) {
    hotModel.Some? && hotModel.value in HOT_MODELS && !hasLimit && onlyTenant
  }

  method ResolveTerminalToChain(terminal: Expr, chains: Chains) returns (r: Option<(Option<string>, bool, bool)>)
    requires IsMethodCall(terminal)
    ensures TerminalReport(terminal, chains)
         == if r.Some? && Reported(r.value.0, r.value.1, r.value.2) then [Violation(terminal, r.value.0.value)] else []
  {
    if terminal.func.attr !in TERMINAL_LIST_METHODS {
      return None;
    }
    var receiver := terminal.func.value;
    if !receiver.Call? {
      return None;
    }
    var chainRoot := receiver;
    if receiver.func.Attribute? && receiver.func.attr == "execute" {
      if receiver.args == [] {
        return None;
      }
      chainRoot := receiver.args[0];
    }
    if chainRoot.Call? {
      var cur := ReceiverRoot(chainRoot);
      if cur.Name? && cur.id in chains {
        var segments := chains[cur.id] + [Segment(chainRoot, false)];
        var hot, hasLimit, onlyTenant := ClassifyChainSegments(segments);
        return Some((hot, hasLimit, onlyTenant));
      }
      assert [] + [Segment(chainRoot, false)] == [Segment(chainRoot, false)];
      var hot, hasLimit, onlyTenant := ClassifyChainSegments([Segment(chainRoot, false)]);
      return if hot == None then None else Some((hot, hasLimit, onlyTenant));
    }
    if chainRoot.Name? && chainRoot.id in chains {
      var hot, hasLimit, onlyTenant := ClassifyChainSegments(chains[chainRoot.id]);
      return Some((hot, hasLimit, onlyTenant));
    }
    r := None;
  }

  method ReturnViolation(e: Expr, chains: Chains) returns (found: seq<Violation>)
    ensures found == ReturnReport(e, chains)
  {
    var segments: Option<seq<Segment>> := None;
    if e.Name? && e.id in chains {
      segments := Some(chains[e.id]);
    } else if e.Call? {
      var m := FindSelectInChain(e);
      if m.Some? {
        segments := Some([Segment(e, false)]);
      }
    }
    if segments == None {
      return [];
    }
    var hot, hasLimit, onlyTenant := ClassifyChainSegments(segments.value);
    found := if Reported(hot, hasLimit, onlyTenant) then [Violation(e, hot.value)] else [];
  }

  // ----- one function

  /** The function is reported: one of its terminals or returned builders is. */
  ghost predicate Flagged(body: seq<Stmt>) {
    var nodes := Statements(body, [ScopeNode]);
    var chains := Collect(nodes, map[]);
    SomeTerminalFlagged(BlockTerminals(body), chains) || SomeReturnFlagged(nodes, chains)
  }

  ghost predicate SomeTerminalFlagged(terminals: seq<Expr>, chains: Chains) {
    exists t :: t in terminals && IsMethodCall(t) && FlagsTerminal(t, chains)
  }

  ghost predicate SomeReturnFlagged(nodes: seq<Visited>, chains: Chains) {
    exists v :: v in nodes && v.stmt.Return? && v.stmt.result.Some? && FlagsReturn(v.stmt.result.value, chains)
  }

  function TerminalReports(terminals: seq<Expr>, chains: Chains): seq<Violation> {
    if terminals == [] then []
    else TerminalReports(terminals[..|terminals| - 1], chains) + TerminalReport(terminals[|terminals| - 1], chains)
  }

  function ReturnReports(nodes: seq<Visited>, chains: Chains): seq<Violation> {
    if nodes == [] then []
    else
      var last := nodes[|nodes| - 1].stmt;
      ReturnReports(nodes[..|nodes| - 1], chains)
      + if last.Return? && last.result.Some? then ReturnReport(last.result.value, chains) else []
  }

  /** What is reported of a function: its terminals, then its returns, in the order of the traversal. */
  function Reports(body: seq<Stmt>): seq<Violation> {
    var nodes := Statements(body, [ScopeNode]);
    var chains := Collect(nodes, map[]);
    TerminalReports(BlockTerminals(body), chains) + ReturnReports(nodes, chains)
  }

  method ScanFunction(body: seq<Stmt>) returns (violations: seq<Violation>)
    ensures violations == Reports(body)
    ensures violations != [] <==> Flagged(body)
    ensures AllReported(body, violations)
  {
    var nodes := Statements(body, [ScopeNode]);
    var chains := CollectFunctionStatementChains(nodes);
    EveryFlagIsReported(body);
    BlockTerminalsAreMethodCalls(body);
    violations := ScanTerminals(BlockTerminals(body), chains);
    var returned := FindReturnBuilderViolations(nodes, chains);
    violations := violations + returned;
    ReportsIff(body);
  }

  /** The loop over the terminals of a function. */
  method ScanTerminals(terminals: seq<Expr>, chains: Chains) returns (violations: seq<Violation>)
    requires forall t :: t in terminals ==> IsMethodCall(t)
    ensures violations == TerminalReports(terminals, chains)
  {
    violations := [];
    for k := 0 to |terminals|
      invariant violations == TerminalReports(terminals[..k], chains)
    {
      assert terminals[..k + 1][..k] == terminals[..k] && terminals[..k + 1][k] == terminals[k];
      var classified := ResolveTerminalToChain(terminals[k], chains);
      if classified.Some? && Reported(classified.value.0, classified.value.1, classified.value.2) {
        violations := violations + [Violation(terminals[k], classified.value.0.value)];
      }
    }
    assert terminals[..|terminals|] == terminals;
  }

  /** The loop over the returns of a function. */
  method FindReturnBuilderViolations(nodes: seq<Visited>, chains: Chains) returns (violations: seq<Violation>)
    ensures violations == ReturnReports(nodes, chains)
  {
    violations := [];
    for k := 0 to |nodes|
      invariant violations == ReturnReports(nodes[..k], chains)
    {
      assert nodes[..k + 1][..k] == nodes[..k] && nodes[..k + 1][k] == nodes[k];
      if nodes[k].stmt.Return? && nodes[k].stmt.result.Some? {
        var found := ReturnViolation(nodes[k].stmt.result.value, chains);
        violations := violations + found;
      }
    }
    assert nodes[..|nodes|] == nodes;
  }

  /** Something is reported exactly when some terminal or return is flagged. */
  lemma ReportsIff(body: seq<Stmt>)
    ensures Reports(body) != [] <==> Flagged(body)
  {
    var nodes := Statements(body, [ScopeNode]);
    TerminalReportsIff(BlockTerminals(body), Collect(nodes, map[]));
    ReturnReportsIff(nodes, Collect(nodes, map[]));
  }

  lemma {:induction false} TerminalReportsIff(terminals: seq<Expr>, chains: Chains)
    ensures TerminalReports(terminals, chains) != [] <==> SomeTerminalFlagged(terminals, chains)
  {
    if terminals != [] {
      TerminalReportsIff(terminals[..|terminals| - 1], chains);
      assert terminals == terminals[..|terminals| - 1] + [terminals[|terminals| - 1]];
    }
  }

  lemma {:induction false} ReturnReportsIff(nodes: seq<Visited>, chains: Chains)
    ensures ReturnReports(nodes, chains) != [] <==> SomeReturnFlagged(nodes, chains)
  {
    if nodes != [] {
      ReturnReportsIff(nodes[..|nodes| - 1], chains);
      assert nodes == nodes[..|nodes| - 1] + [nodes[|nodes| - 1]];
    }
  }

  // ----- what is reported, without the loops

  /** `m` is the model of the first unconditional link that holds a `select`. */
  predicate IsFirstModel(segments: seq<Segment>, m: string) {
    exists i :: 0 <= i < |segments| && FirstAt(segments, i, m)
  }

  predicate FirstAt(segments: seq<Segment>, i: nat, m: string)
    requires i < |segments|
  {
    HoldsSelect(segments[i], m) && forall j :: 0 <= j < i ==> NoSelect(segments[j])
  }

  predicate NoSelect(s: Segment) {
    s.conditional || SelectModel(s.expr) == None
  }

  predicate HoldsSelect(s: Segment, m: string) {
    !s.conditional && SelectModel(s.expr) == Some(m)
  }

  lemma {:induction false} FirstModelIs(segments: seq<Segment>, m: string)
    ensures FirstModel(segments) == Some(m) <==> IsFirstModel(segments, m)
  {
    if segments != [] {
      var rest := segments[1..];
      FirstModelIs(rest, m);
      if segments[0].conditional || SelectModel(segments[0].expr) == None {
        FirstModelLater(segments, m);
      } else {
        assert FirstAt(segments, 0, SelectModel(segments[0].expr).value) && !NoSelect(segments[0]);
      }
    }
  }

  lemma FirstModelLater(segments: seq<Segment>, m: string)
    requires segments != [] && (segments[0].conditional || SelectModel(segments[0].expr) == None)
    ensures IsFirstModel(segments, m) <==> IsFirstModel(segments[1..], m)
  {
    var rest := segments[1..];
    if i :| 0 <= i < |rest| && FirstAt(rest, i, m) {
      assert FirstAt(segments, i + 1, m) by {
        forall j | 0 <= j < i + 1 ensures NoSelect(segments[j]) { assert j > 0 ==> segments[j] == rest[j - 1]; }
      }
    }
    if i :| 0 <= i < |segments| && FirstAt(segments, i, m) {
      assert FirstAt(rest, i - 1, m) by {
        forall j | 0 <= j < i - 1 ensures NoSelect(rest[j]) { assert rest[j] == segments[j + 1]; }
      }
    }
  }

  /** The terminals that are flagged, by their place in the traversal. */
  ghost function FlaggedTerminals(terminals: seq<Expr>, chains: Chains): nat -> bool {
    (i: nat) => i < |terminals| && IsMethodCall(terminals[i]) && FlagsTerminal(terminals[i], chains)
  }

  /** The violation of a terminal: itself, and the first model of the chain behind it. */
  ghost function TerminalViolation(terminals: seq<Expr>, chains: Chains): (nat, Violation) -> bool {
    (i: nat, v: Violation) =>
      i < |terminals| && v.node == terminals[i] && IsMethodCall(v.node) && ChainRoot(v.node).Some?
      && ChainBehind(ChainRoot(v.node).value, chains).Some?
      && IsFirstModel(ChainBehind(ChainRoot(v.node).value, chains).value, v.model)
  }

  ghost function FlaggedReturns(nodes: seq<Visited>, chains: Chains): nat -> bool {
    (i: nat) => i < |nodes| && nodes[i].stmt.Return? && nodes[i].stmt.result.Some?
         && FlagsReturn(nodes[i].stmt.result.value, chains)
  }

  /** The violation of a return: the returned expression, and the first model of its chain. */
  ghost function ReturnViolationOf(nodes: seq<Visited>, chains: Chains): (nat, Violation) -> bool {
    (i: nat, v: Violation) => i < |nodes| && nodes[i].stmt == Return(Some(v.node))
              && if v.node.Name? then v.node.id in chains && IsFirstModel(chains[v.node.id], v.model)
                 else SelectModel(v.node) == Some(v.model)
  }

  lemma {:induction false} TerminalsReported(terminals: seq<Expr>, k: nat, chains: Chains)
    requires k <= |terminals|
    ensures Picks(k, FlaggedTerminals(terminals, chains), TerminalViolation(terminals, chains),
                  TerminalReports(terminals[..k], chains))
  {
    var keep, fits := FlaggedTerminals(terminals, chains), TerminalViolation(terminals, chains);
    if k == 0 {
      PicksNone(keep, fits);
    } else {
      TerminalsReported(terminals, k - 1, chains);
      assert terminals[..k][..k - 1] == terminals[..k - 1];
      var t, more := terminals[k - 1], TerminalReport(terminals[k - 1], chains);
      if keep(k - 1) { FirstModelIs(ChainBehind(ChainRoot(t).value, chains).value, more[0].model); }
      PicksMore(k - 1, keep, fits, TerminalReports(terminals[..k - 1], chains), more);
    }
  }

  lemma {:induction false} ReturnsReported(nodes: seq<Visited>, k: nat, chains: Chains)
    requires k <= |nodes|
    ensures Picks(k, FlaggedReturns(nodes, chains), ReturnViolationOf(nodes, chains), ReturnReports(nodes[..k], chains))
  {
    var keep, fits := FlaggedReturns(nodes, chains), ReturnViolationOf(nodes, chains);
    if k == 0 {
      PicksNone(keep, fits);
    } else {
      ReturnsReported(nodes, k - 1, chains);
      assert nodes[..k][..k - 1] == nodes[..k - 1];
      var last := nodes[k - 1].stmt;
      var more := if last.Return? && last.result.Some? then ReturnReport(last.result.value, chains) else [];
      if keep(k - 1) { ReturnedModel(last.result.value, more[0].model, chains); }
      PicksMore(k - 1, keep, fits, ReturnReports(nodes[..k - 1], chains), more);
    }
  }

  lemma ReturnedModel(e: Expr, m: string, chains: Chains)
    requires FlagsReturn(e, chains) && ReturnReport(e, chains) == [Violation(e, m)]
    ensures if e.Name? then e.id in chains && IsFirstModel(chains[e.id], m) else SelectModel(e) == Some(m)
  {
    if e.Name? {
      FirstModelIs(chains[e.id], m);
    } else {
      assert FirstModel([Segment(e, false)]) == SelectModel(e);
    }
  }

  /** Every flagged terminal of a function is reported, with its model and as often as it stands there, in the order of
      the traversal, and then every flagged return; nothing else is. */
  ghost predicate AllReported(body: seq<Stmt>, violations: seq<Violation>) {
    var nodes, terminals := Statements(body, [ScopeNode]), BlockTerminals(body);
    var chains := Collect(nodes, map[]);
    exists n: nat :: n <= |violations|
      && Picks(|terminals|, FlaggedTerminals(terminals, chains), TerminalViolation(terminals, chains), violations[..n])
      && Picks(|nodes|, FlaggedReturns(nodes, chains), ReturnViolationOf(nodes, chains), violations[n..])
  }

  lemma EveryFlagIsReported(body: seq<Stmt>)
    ensures AllReported(body, Reports(body))
  {
    var nodes, terminals := Statements(body, [ScopeNode]), BlockTerminals(body);
    var chains := Collect(nodes, map[]);
    var found, returned := TerminalReports(terminals, chains), ReturnReports(nodes, chains);
    TerminalsReported(terminals, |terminals|, chains);
    ReturnsReported(nodes, |nodes|, chains);
    assert terminals[..|terminals|] == terminals && nodes[..|nodes|] == nodes;
    assert Reports(body)[..|found|] == found && Reports(body)[|found|..] == returned;
  }

  /** The violation's node is a flagged terminal, its model the first one of the chain behind it. */
  ghost predicate OfTerminal(v: Violation, terminals: seq<Expr>, chains: Chains) {
    v.node in terminals && IsMethodCall(v.node) && FlagsTerminal(v.node, chains)
    && IsFirstModel(ChainBehind(ChainRoot(v.node).value, chains).value, v.model)
  }

  /** The violation's node is a flagged returned expression, its model the first one of its chain. */
  ghost predicate OfReturn(v: Violation, nodes: seq<Visited>, chains: Chains) {
    (exists n :: n in nodes && n.stmt == Return(Some(v.node))) && FlagsReturn(v.node, chains)
    && if v.node.Name? then IsFirstModel(chains[v.node.id], v.model) else SelectModel(v.node) == Some(v.model)
  }

  lemma TerminalReportedIff(terminals: seq<Expr>, chains: Chains, v: Violation)
    ensures v in TerminalReports(terminals, chains) <==> OfTerminal(v, terminals, chains)
  {
    var keep, fits := FlaggedTerminals(terminals, chains), TerminalViolation(terminals, chains);
    TerminalsReported(terminals, |terminals|, chains);
    assert terminals[..|terminals|] == terminals;
    forall i, a, b | fits(i, a) && fits(i, b) ensures a == b {
      FirstModelIs(ChainBehind(ChainRoot(a.node).value, chains).value, a.model);
      FirstModelIs(ChainBehind(ChainRoot(b.node).value, chains).value, b.model);
    }
    PickedIff(|terminals|, keep, fits, TerminalReports(terminals, chains), v);
    if OfTerminal(v, terminals, chains) {
      var i: nat :| i < |terminals| && terminals[i] == v.node;
      assert keep(i) && fits(i, v);
    }
  }

  lemma ReturnReportedIff(nodes: seq<Visited>, chains: Chains, v: Violation)
    ensures v in ReturnReports(nodes, chains) <==> OfReturn(v, nodes, chains)
  {
    var keep, fits := FlaggedReturns(nodes, chains), ReturnViolationOf(nodes, chains);
    ReturnsReported(nodes, |nodes|, chains);
    assert nodes[..|nodes|] == nodes;
    forall i, a, b | fits(i, a) && fits(i, b) ensures a == b {
      if a.node.Name? {
        FirstModelIs(chains[a.node.id], a.model);
        FirstModelIs(chains[a.node.id], b.model);
      }
    }
    PickedIff(|nodes|, keep, fits, ReturnReports(nodes, chains), v);
    if OfReturn(v, nodes, chains) {
      var n :| n in nodes && n.stmt == Return(Some(v.node));
      var i: nat :| i < |nodes| && nodes[i] == n;
      assert keep(i) && fits(i, v);
    }
  }

  /** A violation is reported exactly when its node is a flagged terminal or a flagged return of the function and its
      model is the first one of the chain behind it. */
  lemma ReportedIff(body: seq<Stmt>, v: Violation)
    ensures var nodes := Statements(body, [ScopeNode]);
      var chains := Collect(nodes, map[]);
      v in Reports(body) <==> OfTerminal(v, BlockTerminals(body), chains) || OfReturn(v, nodes, chains)
  {
    var nodes := Statements(body, [ScopeNode]);
    TerminalReportedIff(BlockTerminals(body), Collect(nodes, map[]), v);
    ReturnReportedIff(nodes, Collect(nodes, map[]), v);
  }

  // ----- the terminals of an expression

  /** The expressions directly under one. */
  function Under(e: Expr): (parts: seq<Expr>)
    ensures forall i :: 0 <= i < |parts| ==> parts[i] < e
  {
    match e
    case Name(_) => []
    case Attribute(value, _) => [value]
    case Call(func, args) => [func] + args
    case Compare(left, comparators) => [left] + comparators
    case BoolOp(values) => values
    case UnaryOp(operand) => [operand]
    case Other(children) => children
  }

  predicate Occurs(x: Expr, e: Expr)
    decreases e, 1
  {
    x == e || OccursIn(x, e, Under(e))
  }

  predicate OccursIn(x: Expr, e: Expr, parts: seq<Expr>)
    requires forall i :: 0 <= i < |parts| ==> parts[i] < e
    decreases e, 0
  {
    exists i :: 0 <= i < |parts| && Occurs(x, parts[i])
  }

  lemma OccursInFirst(x: Expr, e: Expr, parts: seq<Expr>)
    requires parts != [] && forall i :: 0 <= i < |parts| ==> parts[i] < e
    ensures OccursIn(x, e, parts) <==> Occurs(x, parts[0]) || OccursIn(x, e, parts[1..])
  {
    var rest := parts[1..];
    if i :| 0 <= i < |rest| && Occurs(x, rest[i]) { assert Occurs(x, parts[i + 1]); }
    if i :| 0 <= i < |parts| && Occurs(x, parts[i]) { assert i > 0 ==> rest[i - 1] == parts[i]; }
  }

  predicate EndsQuery(e: Expr) {
    IsMethodCall(e) && e.func.attr in TERMINAL_METHODS
  }

  lemma {:induction false} TerminalsUnder(e: Expr)
    ensures Terminals(e) == (if EndsQuery(e) then [e] else []) + AllTerminals(Under(e))
  {
    match e
    case Attribute(value, _) => assert [value][1..] == [] && Terminals(value) + [] == Terminals(value);
    case Call(func, args) => assert ([func] + args)[1..] == args;
    case Compare(left, comparators) => assert ([left] + comparators)[1..] == comparators;
    case UnaryOp(operand) => assert [operand][1..] == [] && Terminals(operand) + [] == Terminals(operand);
    case _ =>
  }

  lemma InFirstOrRest(es: seq<Expr>, t: Expr)
    requires es != []
    ensures t in AllTerminals(es) <==> t in Terminals(es[0]) || t in AllTerminals(es[1..])
  {
    assert AllTerminals(es) == Terminals(es[0]) + AllTerminals(es[1..]);
  }

  /** The terminals of an expression are exactly the calls in it, at any depth, that end a query. */
  lemma {:induction false} TerminalsIff(e: Expr, t: Expr)
    ensures t in Terminals(e) <==> Occurs(t, e) && EndsQuery(t)
    decreases e, 1
  {
    TerminalsUnder(e);
    AllTerminalsIff(e, Under(e), t);
  }

  lemma {:induction false} AllTerminalsIff(e: Expr, es: seq<Expr>, t: Expr)
    requires forall i :: 0 <= i < |es| ==> es[i] < e
    ensures t in AllTerminals(es) <==> EndsQuery(t) && OccursIn(t, e, es)
    decreases e, 0, |es|
  {
    if es != [] {
      TerminalsIff(es[0], t);
      AllTerminalsIff(e, es[1..], t);
      OccursInFirst(t, e, es);
      InFirstOrRest(es, t);
    }
  }

  lemma {:induction false} TerminalsAreMethodCalls(e: Expr)
    ensures forall t :: t in Terminals(e) ==> IsMethodCall(t)
  {
    match e
    case Name(_) =>
    case Attribute(value, _) => TerminalsAreMethodCalls(value);
    case Call(func, args) => TerminalsAreMethodCalls(func); AllTerminalsAreMethodCalls(args);
    case Compare(left, comparators) => TerminalsAreMethodCalls(left); AllTerminalsAreMethodCalls(comparators);
    case BoolOp(values) => AllTerminalsAreMethodCalls(values);
    case UnaryOp(operand) => TerminalsAreMethodCalls(operand);
    case Other(children) => AllTerminalsAreMethodCalls(children);
  }

  lemma {:induction false} AllTerminalsAreMethodCalls(es: seq<Expr>)
    ensures forall t :: t in AllTerminals(es) ==> IsMethodCall(t)
  {
    if es != [] {
      TerminalsAreMethodCalls(es[0]);
      AllTerminalsAreMethodCalls(es[1..]);
    }
  }

  lemma {:induction false} BlockTerminalsAreMethodCalls(block: seq<Stmt>)
    ensures forall t :: t in BlockTerminals(block) ==> IsMethodCall(t)
  {
    if block != [] {
      StmtTerminalsAreMethodCalls(block[0]);
      BlockTerminalsAreMethodCalls(block[1..]);
    }
  }

  lemma {:induction false} StmtTerminalsAreMethodCalls(s: Stmt)
    ensures forall t :: t in StmtTerminals(s) ==> IsMethodCall(t)
  {
    match s
    case Assign(targets, rhs) => AllTerminalsAreMethodCalls(targets); TerminalsAreMethodCalls(rhs);
    case If(test, body, orelse) =>
      TerminalsAreMethodCalls(test);
      BlockTerminalsAreMethodCalls(body);
      BlockTerminalsAreMethodCalls(orelse);
    case With(items, block) => AllTerminalsAreMethodCalls(items); BlockTerminalsAreMethodCalls(block);
    case Return(result) => if result.Some? { TerminalsAreMethodCalls(result.value); }
    case ExprStmt(expr) => TerminalsAreMethodCalls(expr);
  }
}

/** Python expressions as the full-scan check sees them, and its walks along a query-builder chain
    (scripts/check_read_path_full_scan.py, lines 152-231). */
module QueryChains {
  import opened Text

  /** `Other` stands for every node kind the check does not tell apart (constants, lists, comprehensions, ...). */
  datatype Expr =
    | Name(id: string)
    | Attribute(value: Expr, attr: string)
    | Call(func: Expr, args: seq<Expr>)
    | Compare(left: Expr, comparators: seq<Expr>)
    | BoolOp(values: seq<Expr>)
    | UnaryOp(operand: Expr)
    | Other(children: seq<Expr>)

  /** The model of a call `select(Model)`. */
  function SelectCallModel(e: Expr): Option<string> {
    if e.Call? && e.func == Name("select") && e.args != [] && e.args[0].Name? then Some(e.args[0].id) else None
  }

  predicate IsMethodCall(e: Expr) {
    e.Call? && e.func.Attribute?
  }

  /** The expression under a chain of method calls. */
  function Root(e: Expr): Expr {
    if IsMethodCall(e) then Root(e.func.value) else e
  }

  /** The method names of a chain, outermost first. */
  function Methods(e: Expr): seq<string> {
    if IsMethodCall(e) then [e.func.attr] + Methods(e.func.value) else []
  }

  /** The arguments of every `where` of a chain, outermost first. */
  function WhereArgs(e: Expr): seq<Expr> {
    if IsMethodCall(e) then (if e.func.attr == "where" then e.args else []) + WhereArgs(e.func.value) else []
  }

  function SelectModel(e: Expr): Option<string> {
    SelectCallModel(Root(e))
  }

  /** The model of a chain is the first argument of the `select` under its method calls. */
  lemma SelectModelIs(e: Expr, m: string)
    ensures SelectModel(e) == Some(m) <==> exists more :: Root(e) == Call(Name("select"), [Name(m)] + more)
  {
    var r := Root(e);
    if SelectModel(e) == Some(m) { assert r == Call(Name("select"), [Name(m)] + r.args[1..]); }
  }

  /** Whether a `where` condition filters on a dimension other than the tenant. */
  predicate HasNonTenantFilter(arg: Expr) {
    match arg
    case Compare(left, comparators) =>
      IsOtherColumn(left) || exists i :: 0 <= i < |comparators| && IsOtherColumn(comparators[i])
    case BoolOp(values) => exists i :: 0 <= i < |values| && HasNonTenantFilter(values[i])
    case Call(func, args) =>
      (func.Attribute? && IsOtherColumn(func.value))
      || exists i :: 0 <= i < |args| && HasNonTenantFilter(args[i])
    case UnaryOp(operand) => HasNonTenantFilter(operand)
    case Attribute(_, attr) => attr != "tenant_id"
    case Name(_) => true
    case Other(_) => true
  }

  predicate IsOtherColumn(e: Expr) {
    e.Attribute? && e.attr != "tenant_id"
  }

  /** What the check looks into: the operands of `and`, `or` and `not` and the arguments of a call. */
  function Operands(e: Expr): (parts: seq<Expr>)
    ensures forall i :: 0 <= i < |parts| ==> parts[i] < e
  {
    match e
    case BoolOp(values) => values
    case Call(_, args) => args
    case UnaryOp(operand) => [operand]
    case _ => []
  }

  predicate IsPart(x: Expr, e: Expr)
    decreases e
  {
    x == e || exists i :: 0 <= i < |Operands(e)| && IsPart(x, Operands(e)[i])
  }

  /** An attribute other than the tenant's, whatever it belongs to. */
  predicate OtherAttr(e: Expr) {
    e.Attribute? && e.attr != "tenant_id"
  }

  /** What the check takes for a filter: a comparison with another attribute on either side, a method call on one, one
      by itself, and whatever is no comparison, operator or call. */
  predicate IsFilter(e: Expr) {
    OtherAttr(e) || e.Name? || e.Other?
    || (e.Compare? && (OtherAttr(e.left) || exists c :: c in e.comparators && OtherAttr(c)))
    || (e.Call? && e.func.Attribute? && OtherAttr(e.func.value))
  }

  /** A condition passes the check's test exactly when some part of it that the check looks into is such a filter. */
  lemma {:induction false} HasNonTenantFilterIff(e: Expr)
    ensures HasNonTenantFilter(e) <==> exists x :: IsPart(x, e) && IsFilter(x)
    decreases e
  {
    forall i | 0 <= i < |Operands(e)|
      ensures HasNonTenantFilter(Operands(e)[i]) <==> exists x :: IsPart(x, Operands(e)[i]) && IsFilter(x)
    {
      HasNonTenantFilterIff(Operands(e)[i]);
    }
    SomeOperandPasses(e);
    if x :| IsPart(x, e) && IsFilter(x) {
      if x != e {
        var i :| 0 <= i < |Operands(e)| && IsPart(x, Operands(e)[i]);
        assert HasNonTenantFilter(Operands(e)[i]);
      }
    }
    if HasNonTenantFilter(e) && !IsFilter(e) {
      var i :| 0 <= i < |Operands(e)| && HasNonTenantFilter(Operands(e)[i]);
      var x :| IsPart(x, Operands(e)[i]) && IsFilter(x);
      assert IsPart(x, e);
    }
  }

  lemma SomeOperandPasses(e: Expr)
    ensures HasNonTenantFilter(e)
            <==> IsFilter(e) || exists i :: 0 <= i < |Operands(e)| && HasNonTenantFilter(Operands(e)[i])
  {
    match e
    case Compare(_, comparators) => SomeOther(comparators);
    case UnaryOp(operand) => assert Operands(e) == [operand] && Operands(e)[0] == operand;
    case BoolOp(values) => assert Operands(e) == values;
    case Call(func, args) =>
      assert Operands(e) == args;
      assert func.Attribute? ==> (IsOtherColumn(func.value) <==> OtherAttr(func.value));
    case _ => assert Operands(e) == [];
  }

  lemma SomeOther(es: seq<Expr>)
    ensures (exists i :: 0 <= i < |es| && IsOtherColumn(es[i])) <==> exists c :: c in es && OtherAttr(c)
  {
    if i :| 0 <= i < |es| && IsOtherColumn(es[i]) { assert es[i] in es && OtherAttr(es[i]); }
    if c :| c in es && OtherAttr(c) {
      var i :| 0 <= i < |es| && es[i] == c;
      assert IsOtherColumn(es[i]);
    }
  }

  /** Two tests of a condition: whether the check takes it for a filter on another dimension than the tenant, and
      whether it mentions a column of a model other than the tenant's. */
  datatype Test = Seen | Real(model: string)

  predicate Passes(arg: Expr, t: Test) {
    match t
    case Seen => HasNonTenantFilter(arg)
    case Real(m) => Mentions(arg, m)
  }

  predicate AnyPasses(args: seq<Expr>, t: Test) {
    exists i :: 0 <= i < |args| && Passes(args[i], t)
  }

  lemma AnyPassesConcat(a: seq<Expr>, b: seq<Expr>, t: Test)
    ensures AnyPasses(a + b, t) <==> AnyPasses(a, t) || AnyPasses(b, t)
  {
    if AnyPasses(a, t) {
      var i :| 0 <= i < |a| && Passes(a[i], t);
      assert (a + b)[i] == a[i];
    }
    if AnyPasses(b, t) {
      var i :| 0 <= i < |b| && Passes(b[i], t);
      assert (a + b)[|a| + i] == b[i];
    }
  }

  /** A chain that narrows its query: it carries a limit or a filter that passes the test. */
  predicate Narrows(e: Expr, t: Test) {
    "limit" in Methods(e) || AnyPasses(WhereArgs(e), t)
  }

  method ChainAttrsAndWhereArgs(node: Expr) returns (chain: seq<string>, whereArgs: seq<Expr>)
    ensures chain == Methods(node) && whereArgs == WhereArgs(node)
  {
    chain, whereArgs := [], [];
    var current := node;
    while current.Call?
      invariant chain + Methods(current) == Methods(node)
      invariant whereArgs + WhereArgs(current) == WhereArgs(node)
      decreases current
    {
      if current.func.Attribute? {
        chain := chain + [current.func.attr];
        if current.func.attr == "where" {
          whereArgs := whereArgs + current.args;
        }
        current := current.func.value;
      } else {
        break;
      }
    }
  }

  method FindSelectInChain(node: Expr) returns (model: Option<string>)
    ensures model == SelectModel(node)
  {
    var cur := node;
    while cur.Call?
      invariant SelectModel(cur) == SelectModel(node)
      decreases cur
    {
      var m := SelectCallModel(cur);
      if m.Some? {
        return m;
      }
      if cur.func.Attribute? {
        cur := cur.func.value;
      } else {
        break;
      }
    }
    model := None;
  }

  method ReceiverRoot(node: Expr) returns (cur: Expr)
    ensures cur == Root(node)
  {
    cur := node;
    while cur.Call?
      invariant Root(cur) == Root(node)
      decreases cur
    {
      if cur.func.Attribute? {
        cur := cur.func.value;
      } else {
        break;
      }
    }
  }

  method OnlyTenant(args: seq<Expr>) returns (only: bool)
    ensures only <==> !AnyPasses(args, Seen)
  {
    if args == [] {
      return true;
    }
    only := !(exists i :: 0 <= i < |args| && Passes(args[i], Seen));
  }

  // ----- what the tenant-only verdict means for the rows a query returns

  /** The columns of a row of the query's model, and an arbitrary meaning for every other part of an expression: names
      and attributes of anything else have one value for all rows. */
  datatype World = World(column: string -> int, meaning: (Expr, seq<int>) -> int)

  function Denote(e: Expr, model: string, w: World): int {
    match e
    case Attribute(value, attr) =>
      if value == Name(model) then w.column(attr) else w.meaning(e, [Denote(value, model, w)])
    case Compare(left, comparators) => w.meaning(e, [Denote(left, model, w)] + DenoteAll(comparators, model, w))
    case BoolOp(values) => w.meaning(e, DenoteAll(values, model, w))
    case Call(func, args) =>
      w.meaning(e, (if func.Attribute? then [Denote(func.value, model, w)] else []) + DenoteAll(args, model, w))
    case UnaryOp(operand) => w.meaning(e, [Denote(operand, model, w)])
    case Name(_) => w.meaning(e, [])
    case Other(children) => w.meaning(e, DenoteAll(children, model, w))
  }

  function DenoteAll(es: seq<Expr>, model: string, w: World): seq<int> {
    if es == [] then [] else [Denote(es[0], model, w)] + DenoteAll(es[1..], model, w)
  }

  ghost predicate SameTenant(w: World, v: World) {
    w.meaning == v.meaning && w.column("tenant_id") == v.column("tenant_id")
  }

  /** Some column of the model other than the tenant's stands in the condition. */
  predicate Mentions(e: Expr, model: string) {
    match e
    case Attribute(value, attr) => if value == Name(model) then attr != "tenant_id" else Mentions(value, model)
    case Compare(left, comparators) => Mentions(left, model) || MentionsAny(comparators, model)
    case BoolOp(values) => MentionsAny(values, model)
    case Call(func, args) => (func.Attribute? && Mentions(func.value, model)) || MentionsAny(args, model)
    case UnaryOp(operand) => Mentions(operand, model)
    case Name(_) => false
    case Other(children) => MentionsAny(children, model)
  }

  predicate MentionsAny(es: seq<Expr>, model: string) {
    es != [] && (Mentions(es[0], model) || MentionsAny(es[1..], model))
  }

  lemma MentionsOne(e: Expr, model: string)
    ensures MentionsAny([e], model) <==> Mentions(e, model)
  {
    assert [e][0] == e && [e][1..] == [];
  }

  /** Two rows of one tenant on which the condition has different values, for some meaning of its operators. */
  ghost predicate Separates(e: Expr, model: string) {
    exists w, v :: SameTenant(w, v) && Denote(e, model, w) != Denote(e, model, v)
  }

  lemma {:induction false} UnmentionedSame(e: Expr, model: string, w: World, v: World)
    requires !Mentions(e, model) && SameTenant(w, v)
    ensures Denote(e, model, w) == Denote(e, model, v)
  {
    match e
    case Attribute(value, _) => if value != Name(model) { UnmentionedSame(value, model, w, v); }
    case Compare(left, comparators) =>
      UnmentionedSame(left, model, w, v);
      UnmentionedSameAll(comparators, model, w, v);
    case BoolOp(values) => UnmentionedSameAll(values, model, w, v);
    case Call(func, args) =>
      UnmentionedSameAll(args, model, w, v);
      if func.Attribute? { UnmentionedSame(func.value, model, w, v); }
    case UnaryOp(operand) => UnmentionedSame(operand, model, w, v);
    case Other(children) => UnmentionedSameAll(children, model, w, v);
    case Name(_) =>
  }

  lemma {:induction false} UnmentionedSameAll(es: seq<Expr>, model: string, w: World, v: World)
    requires !MentionsAny(es, model) && SameTenant(w, v)
    ensures DenoteAll(es, model, w) == DenoteAll(es, model, v)
  {
    if es != [] {
      UnmentionedSame(es[0], model, w, v);
      UnmentionedSameAll(es[1..], model, w, v);
    }
  }

  /** Every operator as a sum, every column other than the tenant's as `x`. */
  function SumWorld(x: int): World {
    World((c: string) => if c == "tenant_id" then 0 else x, (e: Expr, xs: seq<int>) => Sum(xs))
  }

  function Sum(xs: seq<int>): int {
    if xs == [] then 0 else xs[0] + Sum(xs[1..])
  }

  lemma {:induction false} SumConcat(a: seq<int>, b: seq<int>)
    ensures Sum(a + b) == Sum(a) + Sum(b)
  {
    if a == [] {
      assert a + b == b;
    } else {
      assert (a + b)[1..] == a[1..] + b;
      SumConcat(a[1..], b);
    }
  }

  lemma SumCons(x: int, xs: seq<int>)
    ensures Sum([x] + xs) == x + Sum(xs) && Sum([x]) == x
  {
    SumConcat([x], xs);
    assert [x][1..] == [];
  }

  /** With columns at 0 a condition sums to nothing; with columns at 1 to more exactly when it mentions one. */
  lemma {:induction false} SumMentions(e: Expr, model: string)
    ensures Denote(e, model, SumWorld(0)) == 0 <= Denote(e, model, SumWorld(1))
    ensures Denote(e, model, SumWorld(1)) > 0 <==> Mentions(e, model)
  {
    match e
    case Attribute(value, _) => if value != Name(model) { SumMentions(value, model); SumConsIn(value, [], model); }
    case Compare(left, comparators) =>
      SumMentions(left, model);
      SumMentionsAll(comparators, model);
      SumConsIn(left, comparators, model);
    case BoolOp(values) => SumMentionsAll(values, model);
    case Call(func, args) =>
      SumMentionsAll(args, model);
      if func.Attribute? {
        SumMentions(func.value, model);
        SumConsIn(func.value, args, model);
      } else {
        assert [] + DenoteAll(args, model, SumWorld(0)) == DenoteAll(args, model, SumWorld(0));
        assert [] + DenoteAll(args, model, SumWorld(1)) == DenoteAll(args, model, SumWorld(1));
      }
    case UnaryOp(operand) =>
      SumMentions(operand, model);
      SumConsIn(operand, [], model);
    case Other(children) => SumMentionsAll(children, model);
    case Name(_) =>
  }

  lemma SumConsIn(e: Expr, es: seq<Expr>, model: string)
    ensures forall x :: var w := SumWorld(x);
      Sum([Denote(e, model, w)] + DenoteAll(es, model, w)) == Denote(e, model, w) + Sum(DenoteAll(es, model, w))
      && Sum([Denote(e, model, w)]) == Denote(e, model, w)
  {
    forall x { SumCons(Denote(e, model, SumWorld(x)), DenoteAll(es, model, SumWorld(x))); }
  }

  lemma {:induction false} SumMentionsAll(es: seq<Expr>, model: string)
    ensures Sum(DenoteAll(es, model, SumWorld(0))) == 0 <= Sum(DenoteAll(es, model, SumWorld(1)))
    ensures Sum(DenoteAll(es, model, SumWorld(1))) > 0 <==> MentionsAny(es, model)
  {
    if es != [] {
      SumMentions(es[0], model);
      SumMentionsAll(es[1..], model);
      SumConsIn(es[0], es[1..], model);
    }
  }

  /** A condition can tell two rows of one tenant apart exactly when another column of the model stands in it. */
  lemma SeparatesIffMentions(e: Expr, model: string)
    ensures Separates(e, model) <==> Mentions(e, model)
  {
    if Mentions(e, model) {
      SumMentions(e, model);
      SumWorldsDiffer(e, model);
    } else {
      forall w, v | SameTenant(w, v) ensures Denote(e, model, w) == Denote(e, model, v) {
        UnmentionedSame(e, model, w, v);
      }
    }
  }

  lemma SumWorldsDiffer(e: Expr, model: string)
    requires Denote(e, model, SumWorld(1)) != Denote(e, model, SumWorld(0))
    ensures Separates(e, model)
  {
    var w, v := SumWorld(1), SumWorld(0);
    assert SameTenant(w, v) && Denote(e, model, w) != Denote(e, model, v);
  }

  ghost predicate SomeSeparates(args: seq<Expr>, model: string) {
    exists i :: 0 <= i < |args| && Separates(args[i], model)
  }

  lemma SomeSeparatesIff(args: seq<Expr>, model: string)
    ensures SomeSeparates(args, model) <==> AnyPasses(args, Real(model))
  {
    forall i | 0 <= i < |args| ensures Separates(args[i], model) <==> Passes(args[i], Real(model)) {
      SeparatesIffMentions(args[i], model);
    }
  }

  /** The verdict on a `where` list agrees with what its conditions can do exactly when the list is seen to filter just
      if it mentions another column of the model. It hides a condition that separates rows of one tenant exactly when
      none is seen to filter and one mentions a column, and takes for a filter what separates none exactly when one is
      seen and none mentions a column. */
  lemma VerdictOnConditionsIff(args: seq<Expr>, model: string)
    ensures (AnyPasses(args, Seen) <==> SomeSeparates(args, model))
            <==> (AnyPasses(args, Seen) <==> AnyPasses(args, Real(model)))
    ensures !AnyPasses(args, Seen) && SomeSeparates(args, model)
            <==> !AnyPasses(args, Seen) && AnyPasses(args, Real(model))
    ensures AnyPasses(args, Seen) && !SomeSeparates(args, model)
            <==> AnyPasses(args, Seen) && !AnyPasses(args, Real(model))
  {
    SomeSeparatesIff(args, model);
  }

  /** A column under a function call is not looked for: `where(lower(M.name) == x)` counts as tenant-only although it
      separates rows of one tenant. */
  lemma WrappedColumnIsMissed(model: string, x: Expr)
    requires !IsOtherColumn(x)
    ensures var arg := Compare(Call(Name("lower"), [Attribute(Name(model), "name")]), [x]);
      !HasNonTenantFilter(arg) && Separates(arg, model)
  {
    var col := Attribute(Name(model), "name");
    var arg := Compare(Call(Name("lower"), [col]), [x]);
    assert "name"[0] == 'n' && "tenant_id"[0] == 't';
    assert Mentions(col, model);
    MentionsOne(col, model);
    SeparatesIffMentions(arg, model);
  }

  /** An attribute of something else counts as a filter: `where(M.tenant_id == self.tenant)` is not tenant-only to the
      check, although it separates no rows of one tenant. */
  lemma CallerValueIsTakenForFilter(model: string, caller: string, attr: string)
    requires caller != model && attr != "tenant_id"
    ensures var arg := Compare(Attribute(Name(model), "tenant_id"), [Attribute(Name(caller), attr)]);
      HasNonTenantFilter(arg) && !Separates(arg, model)
  {
    var value := Attribute(Name(caller), attr);
    var arg := Compare(Attribute(Name(model), "tenant_id"), [value]);
    assert !Mentions(value, model);
    MentionsOne(value, model);
    SeparatesIffMentions(arg, model);
  }
}

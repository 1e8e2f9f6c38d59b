/** Which columns get redacted, and with what (scripts/_export_redaction_rules.py). Regular expressions are
    predicates on column names; XML files are element trees. */
module Redaction {
  import opened Text
  import opened SqlValues

  datatype Decision = Decision(redact: bool, kind: string, reason: string)

  const KEEP := Decision(false, "", "")

  /** A pattern on column names and the kind it stands for; patterns are tried in order. */
  type Patterns = seq<(string -> bool, string)>

  type ColumnRules = map<string, Decision>
  type Rules = map<string, map<string, ColumnRules>>

  datatype Config = Config(rules: Rules, patterns: Patterns)

  datatype Element = Element(tag: string, attrs: map<string, string>, children: seq<Element>)

  /** One XML file: its base name and its tree, unless it does not parse. */
  datatype SchemaFile = SchemaFile(schema: string, tree: Option<Element>)

  function Lookup(rules: Rules, schema: string, table: string, column: string): Option<Decision> {
    if schema in rules && table in rules[schema] && column in rules[schema][table]
    then Some(rules[schema][table][column]) else None
  }

  function PatternKind(patterns: Patterns, column: string): Option<string> {
    if patterns == [] then None
    else if patterns[0].0(column) then Some(patterns[0].1)
    else PatternKind(patterns[1..], column)
  }

  function PatternDecision(patterns: Patterns, column: string): Decision {
    var kind := PatternKind(patterns, column);
    if kind.Some? then Decision(true, kind.value, "pii-pattern") else KEEP
  }

  function Decide(config: Config, schema: string, table: string, column: string): Decision {
    var explicit := Lookup(config.rules, schema, table, column);
    if explicit.Some? then explicit.value else PatternDecision(config.patterns, column)
  }

  /** The replacement for one cell; `numericHint` is the column-name pattern for numeric columns. */
  function MaskValue(column: string, original: Value, decision: Decision, numericHint: string -> bool): Value {
    if !decision.redact then original
    else if original == Null then Null
    else if numericHint(column) then Int(0)
    else
      var kind := if decision.kind == "" then "redacted" else decision.kind;
      Str("<REDACTED:" + Upper(kind) + ">")
  }

  // ----- loading the rules

  function Attr(e: Element, name: string): string {
    if name in e.attrs then e.attrs[name] else ""
  }

  /** `id`, or `name` when there is no `id`. */
  function ElementName(e: Element): string {
    if Attr(e, "id") != "" then Attr(e, "id") else Attr(e, "name")
  }

  function DecideFromXmlAttrs(e: Element): Decision {
    var level := Attr(e, "sensitive_level");
    if Strip(level) == "3" || Strip(level) == "4" then
      Decision(true, "sensitive-l3plus", "sensitive_level=" + level)
    else if Strip(Attr(e, "need_encrypt")) == "1" then Decision(true, "encrypt-required", "need_encrypt=1")
    else if Strip(Attr(e, "need_mask")) == "1" then Decision(true, "mask-required", "need_mask=1")
    else KEEP
  }

  /** All elements of a tree, in document order. */
  function Elements(e: Element): seq<Element> {
    [e] + ElementsOf(e.children)
  }

  function ElementsOf(es: seq<Element>): seq<Element> {
    if es == [] then [] else Elements(es[0]) + ElementsOf(es[1..])
  }

  predicate IsNamed(e: Element, tag: string) {
    EndsWith(e.tag, tag) && ElementName(e) != ""
  }

  method LoadRedactionConfig(files: seq<SchemaFile>, patterns: Patterns) returns (config: Config)
    ensures config.patterns == patterns
    ensures Holds(config.rules, FileRules(files, patterns))
  {
    var rules: Rules := map[];
    for i := 0 to |files|
      invariant Holds(rules, FileRules(files[..i], patterns))
    {
      assert files[..i + 1] == files[..i] + [files[i]];
      FlatMapSnoc(RulesOfFile(patterns), files[..i], files[i]);
      if files[i].tree.Some? {
        ghost var done := FileRules(files[..i], patterns);
        assert RulesOfFile(patterns)(files[i])
            == FlatMap(RulesOfTable(files[i].schema, patterns), Elements(files[i].tree.value));
        rules := LoadTree(files[i].schema, files[i].tree.value, patterns, rules, done);
      } else {
        assert RulesOfFile(patterns)(files[i]) == [];
        assert FileRules(files[..i], patterns) + [] == FileRules(files[..i], patterns);
      }
    }
    assert files[..|files|] == files;
    config := Config(rules, patterns);
  }

  lemma DoneSnoc(done: seq<Rule>, f: Element -> seq<Rule>, before: seq<Element>, e: Element)
    ensures done + FlatMap(f, before + [e]) == (done + FlatMap(f, before)) + f(e)
    ensures f(e) == [] ==> done + FlatMap(f, before + [e]) == done + FlatMap(f, before)
  {
    FlatMapSnoc(f, before, e);
    assert done + (FlatMap(f, before) + f(e)) == (done + FlatMap(f, before)) + f(e);
  }

  /** The two inner loops, over the tables of a tree and the columns of a table. */
  method LoadTree(schema: string, tree: Element, patterns: Patterns, before: Rules, ghost done: seq<Rule>)
    returns (rules: Rules)
    requires Holds(before, done)
    ensures Holds(rules, done + FlatMap(RulesOfTable(schema, patterns), Elements(tree)))
  {
    rules := before;
    if schema !in rules {
      rules := rules[schema := map[]];
    }
    var all := Elements(tree);
    ghost var f := RulesOfTable(schema, patterns);
    assert done + FlatMap(f, all[..0]) == done;
    for j := 0 to |all|
      invariant schema in rules
      invariant Holds(rules, done + FlatMap(f, all[..j]))
    {
      assert all[..j + 1] == all[..j] + [all[j]];
      ghost var sofar := done + FlatMap(f, all[..j]);
      DoneSnoc(done, f, all[..j], all[j]);
      if !EndsWith(all[j].tag, "table") {
        assert f(all[j]) == [];
        continue;
      }
      var table := ElementName(all[j]);
      if table == "" {
        assert f(all[j]) == [];
        continue;
      }
      assert f(all[j]) == FlatMap(RulesOfColumn(schema, table, patterns), Elements(all[j]));
      if table !in rules[schema] {
        AddTable(rules, sofar, schema, table);
        rules := rules[schema := rules[schema][table := map[]]];
      }
      rules := LoadColumns(schema, table, Elements(all[j]), patterns, rules, sofar);
    }
    assert all[..|all|] == all;
  }

  method LoadColumns(schema: string, table: string, columns: seq<Element>, patterns: Patterns, before: Rules,
                     ghost done: seq<Rule>) returns (rules: Rules)
    requires Holds(before, done) && schema in before && table in before[schema]
    ensures Holds(rules, done + FlatMap(RulesOfColumn(schema, table, patterns), columns)) && schema in rules
  {
    rules := before;
    ghost var f := RulesOfColumn(schema, table, patterns);
    assert done + FlatMap(f, columns[..0]) == done;
    for k := 0 to |columns|
      invariant schema in rules && table in rules[schema]
      invariant Holds(rules, done + FlatMap(f, columns[..k]))
    {
      assert columns[..k + 1] == columns[..k] + [columns[k]];
      ghost var sofar := done + FlatMap(f, columns[..k]);
      DoneSnoc(done, f, columns[..k], columns[k]);
      assert f(columns[k]) == RuleOf(schema, table, columns[k], patterns);
      if !EndsWith(columns[k].tag, "column") {
        continue;
      }
      var column := ElementName(columns[k]);
      if column == "" {
        continue;
      }
      var decision := DecideFromXmlAttrs(columns[k]);
      if !decision.redact {
        decision := PatternDecision(patterns, column);
      }
      if decision.redact {
        AddRule(rules, sofar, Rule(schema, table, column, decision));
        rules := rules[schema := rules[schema][table := rules[schema][table][column := decision]]];
      }
    }
    assert columns[..|columns|] == columns;
  }

  // ----- the same, as a list of rules in document order of which the last one for a column counts

  datatype Rule = Rule(schema: string, table: string, column: string, decision: Decision)

  function RuleOf(schema: string, table: string, e: Element, patterns: Patterns): seq<Rule> {
    if !IsNamed(e, "column") then []
    else
      var column, xml := ElementName(e), DecideFromXmlAttrs(e);
      var decision := if xml.redact then xml else PatternDecision(patterns, column);
      if decision.redact then [Rule(schema, table, column, decision)] else []
  }

  function RulesOfColumn(schema: string, table: string, patterns: Patterns): Element -> seq<Rule> {
    (e: Element) => RuleOf(schema, table, e, patterns)
  }

  function RulesOfTable(schema: string, patterns: Patterns): Element -> seq<Rule> {
    (e: Element) =>
      if IsNamed(e, "table") then FlatMap(RulesOfColumn(schema, ElementName(e), patterns), Elements(e)) else []
  }

  function RulesOfFile(patterns: Patterns): SchemaFile -> seq<Rule> {
    (f: SchemaFile) => if f.tree.Some? then FlatMap(RulesOfTable(f.schema, patterns), Elements(f.tree.value)) else []
  }

  function FileRules(files: seq<SchemaFile>, patterns: Patterns): seq<Rule> {
    FlatMap(RulesOfFile(patterns), files)
  }

  predicate RuleFor(r: Rule, schema: string, table: string, column: string) {
    r.schema == schema && r.table == table && r.column == column
  }

  function LastRule(rules: seq<Rule>, schema: string, table: string, column: string): Option<Decision> {
    if rules == [] then None
    else if RuleFor(rules[|rules| - 1], schema, table, column) then Some(rules[|rules| - 1].decision)
    else LastRule(rules[..|rules| - 1], schema, table, column)
  }

  ghost predicate Holds(rules: Rules, list: seq<Rule>) {
    forall s, t, c :: Lookup(rules, s, t, c) == LastRule(list, s, t, c)
  }

  lemma AddRule(rules: Rules, list: seq<Rule>, r: Rule)
    requires Holds(rules, list) && r.schema in rules && r.table in rules[r.schema]
    ensures Holds(rules[r.schema := rules[r.schema][r.table := rules[r.schema][r.table][r.column := r.decision]]],
                  list + [r])
  {
    LastRuleSnoc(list, r);
  }

  lemma AddTable(rules: Rules, list: seq<Rule>, schema: string, table: string)
    requires Holds(rules, list) && schema in rules && table !in rules[schema]
    ensures Holds(rules[schema := rules[schema][table := map[]]], list)
  {
  }

  lemma LastRuleSnoc(list: seq<Rule>, r: Rule)
    ensures forall s, t, c :: LastRule(list + [r], s, t, c)
                              == if RuleFor(r, s, t, c) then Some(r.decision) else LastRule(list, s, t, c)
  {
    assert (list + [r])[..|list|] == list;
  }

  // ----- what the loaded rules decide

  predicate AttrIs(e: Element, name: string, value: string) {
    name in e.attrs && Strip(e.attrs[name]) == value
  }

  predicate HighLevel(e: Element) {
    AttrIs(e, "sensitive_level", "3") || AttrIs(e, "sensitive_level", "4")
  }

  /** The element says that its column is sensitive. */
  predicate IsMarked(e: Element) {
    HighLevel(e) || AttrIs(e, "need_encrypt", "1") || AttrIs(e, "need_mask", "1")
  }

  /** A high level wins over encryption, encryption over masking. */
  predicate MarkGives(e: Element, d: Decision) {
    d.redact
    && if HighLevel(e) then d.kind == "sensitive-l3plus" && d.reason == "sensitive_level=" + e.attrs["sensitive_level"]
       else if AttrIs(e, "need_encrypt", "1") then d.kind == "encrypt-required" && d.reason == "need_encrypt=1"
       else d.kind == "mask-required" && d.reason == "need_mask=1"
  }

  /** An element redacts its column exactly when its level is 3 or 4 or it asks for encryption or masking, for the
      first of these reasons that holds. */
  lemma DecideFromXmlAttrsIs(e: Element)
    ensures DecideFromXmlAttrs(e).redact <==> IsMarked(e)
    ensures IsMarked(e) ==> MarkGives(e, DecideFromXmlAttrs(e))
  {
  }

  /** The element's `id`, or its `name` when the `id` is missing or empty. */
  predicate HasName(e: Element, n: string) {
    n != ""
    && if "id" in e.attrs && e.attrs["id"] != "" then e.attrs["id"] == n else "name" in e.attrs && e.attrs["name"] == n
  }

  lemma HasNameIff(e: Element, n: string)
    ensures HasName(e, n) <==> ElementName(e) == n != ""
  {
  }

  /** The element stands in the tree. */
  predicate Stands(x: Element, tree: Element)
    decreases tree, 1
  {
    x == tree || StandsIn(x, tree, tree.children)
  }

  predicate StandsIn(x: Element, tree: Element, es: seq<Element>)
    requires forall i :: 0 <= i < |es| ==> es[i] < tree
    decreases tree, 0
  {
    exists i :: 0 <= i < |es| && Stands(x, es[i])
  }

  lemma {:induction false} ElementsIff(tree: Element, x: Element)
    ensures x in Elements(tree) <==> Stands(x, tree)
    decreases tree, 1
  {
    ElementsInIff(tree, tree.children, x);
  }

  lemma {:induction false} ElementsInIff(tree: Element, es: seq<Element>, x: Element)
    requires forall i :: 0 <= i < |es| ==> es[i] < tree
    ensures x in ElementsOf(es) <==> StandsIn(x, tree, es)
    decreases tree, 0, |es|
  {
    if es != [] {
      ElementsIff(es[0], x);
      ElementsInIff(tree, es[1..], x);
      var rest := es[1..];
      if i :| 0 <= i < |rest| && Stands(x, rest[i]) { assert Stands(x, es[i + 1]); }
      if i :| 0 <= i < |es| && Stands(x, es[i]) { assert i > 0 ==> rest[i - 1] == es[i]; }
    }
  }

  /** Some column element of that name, under a table element of that name in that schema, is marked sensitive. */
  ghost predicate Marked(files: seq<SchemaFile>, schema: string, table: string, column: string) {
    exists f, t, c :: f in files && MarksColumn(f, t, c, schema, table, column)
  }

  ghost predicate MarksColumn(f: SchemaFile, t: Element, c: Element, schema: string, table: string, column: string) {
    f.schema == schema && f.tree.Some? && Stands(t, f.tree.value) && EndsWith(t.tag, "table") && HasName(t, table)
    && Stands(c, t) && EndsWith(c.tag, "column") && HasName(c, column) && IsMarked(c)
  }

  predicate Matches(patterns: Patterns, column: string) {
    exists i :: 0 <= i < |patterns| && patterns[i].0(column)
  }

  lemma {:induction false} PatternKindIff(patterns: Patterns, column: string)
    ensures PatternKind(patterns, column).Some? <==> Matches(patterns, column)
  {
    if patterns != [] && !patterns[0].0(column) {
      PatternKindIff(patterns[1..], column);
      if Matches(patterns, column) {
        var i :| 0 <= i < |patterns| && patterns[i].0(column);
        assert patterns[1..][i - 1].0(column);
      }
      if Matches(patterns[1..], column) {
        var i :| 0 <= i < |patterns[1..]| && patterns[1..][i].0(column);
        assert patterns[i + 1].0(column);
      }
    }
  }

  lemma {:induction false} LastRuleIff(rules: seq<Rule>, s: string, t: string, c: string)
    ensures LastRule(rules, s, t, c).Some? <==> exists r :: r in rules && RuleFor(r, s, t, c)
    ensures LastRule(rules, s, t, c).Some? ==> Rule(s, t, c, LastRule(rules, s, t, c).value) in rules
  {
    if rules != [] {
      LastRuleIff(rules[..|rules| - 1], s, t, c);
      assert rules == rules[..|rules| - 1] + [rules[|rules| - 1]];
    }
  }

  /** The elements that make a rule. */
  ghost predicate Makes(f: SchemaFile, table: Element, column: Element, patterns: Patterns, r: Rule) {
    f.tree.Some? && table in Elements(f.tree.value) && IsNamed(table, "table")
    && column in Elements(table) && r in RuleOf(f.schema, ElementName(table), column, patterns)
  }

  /** A rule is in the list exactly when some column element under some table element makes it. */
  lemma RuleSource(files: seq<SchemaFile>, patterns: Patterns, r: Rule)
    ensures r in FileRules(files, patterns) <==> exists f, t, c :: f in files && Makes(f, t, c, patterns, r)
  {
    InFlatMap(RulesOfFile(patterns), files, r);
    if r in FileRules(files, patterns) {
      var f :| f in files && r in RulesOfFile(patterns)(f);
      InFlatMap(RulesOfTable(f.schema, patterns), Elements(f.tree.value), r);
      var t :| t in Elements(f.tree.value) && r in RulesOfTable(f.schema, patterns)(t);
      InFlatMap(RulesOfColumn(f.schema, ElementName(t), patterns), Elements(t), r);
      var c :| c in Elements(t) && r in RulesOfColumn(f.schema, ElementName(t), patterns)(c);
      assert Makes(f, t, c, patterns, r);
    }
    if f, t, c :| f in files && Makes(f, t, c, patterns, r) {
      InFlatMap(RulesOfColumn(f.schema, ElementName(t), patterns), Elements(t), r);
      assert r in RulesOfColumn(f.schema, ElementName(t), patterns)(c);
      InFlatMap(RulesOfTable(f.schema, patterns), Elements(f.tree.value), r);
      assert r in RulesOfTable(f.schema, patterns)(t);
    }
  }

  lemma MadeRule(schema: string, table: string, e: Element, patterns: Patterns) returns (r: Rule)
    requires IsNamed(e, "column") && DecideFromXmlAttrs(e).redact
    ensures r in RuleOf(schema, table, e, patterns) && RuleFor(r, schema, table, ElementName(e))
  {
    r := RuleOf(schema, table, e, patterns)[0];
    assert r in RuleOf(schema, table, e, patterns);
  }

  lemma MadeRuleIs(schema: string, table: string, e: Element, patterns: Patterns, r: Rule)
    requires r in RuleOf(schema, table, e, patterns)
    ensures r.schema == schema && r.table == table && r.decision.redact && EndsWith(e.tag, "column")
    ensures HasName(e, r.column) && (IsMarked(e) || PatternKind(patterns, r.column).Some?)
  {
    DecideFromXmlAttrsIs(e);
    HasNameIff(e, r.column);
  }

  /** A listed rule redacts, and comes from a mark or a pattern. */
  lemma RuleIsJustified(files: seq<SchemaFile>, patterns: Patterns, r: Rule)
    requires r in FileRules(files, patterns)
    ensures r.decision.redact
    ensures Marked(files, r.schema, r.table, r.column) || PatternKind(patterns, r.column).Some?
  {
    RuleSource(files, patterns, r);
    var f, t, c :| f in files && Makes(f, t, c, patterns, r);
    MadeRuleIs(f.schema, ElementName(t), c, patterns, r);
    if IsMarked(c) {
      ElementsIff(f.tree.value, t);
      ElementsIff(t, c);
      HasNameIff(t, r.table);
      assert MarksColumn(f, t, c, r.schema, r.table, r.column);
    }
  }

  lemma MarkedHasRule(files: seq<SchemaFile>, patterns: Patterns, s: string, t: string, c: string) returns (r: Rule)
    requires Marked(files, s, t, c)
    ensures r in FileRules(files, patterns) && RuleFor(r, s, t, c)
  {
    var f, te, ce :| f in files && MarksColumn(f, te, ce, s, t, c);
    DecideFromXmlAttrsIs(ce);
    ElementsIff(f.tree.value, te);
    ElementsIff(te, ce);
    HasNameIff(te, t);
    HasNameIff(ce, c);
    r := MadeRule(s, t, ce, patterns);
    assert Makes(f, te, ce, patterns, r);
    RuleSource(files, patterns, r);
  }

  /** A loaded config redacts a column exactly when some element marks it or its name matches a pattern: a loaded
      rule never suppresses a pattern, and order and repetition of elements do not matter. */
  lemma LoadedDecideIff(files: seq<SchemaFile>, config: Config, s: string, t: string, c: string)
    requires Holds(config.rules, FileRules(files, config.patterns))
    ensures Decide(config, s, t, c).redact <==> Marked(files, s, t, c) || Matches(config.patterns, c)
  {
    LastRuleIff(FileRules(files, config.patterns), s, t, c);
    PatternKindIff(config.patterns, c);
    if Lookup(config.rules, s, t, c).Some? {
      RuleIsJustified(files, config.patterns, Rule(s, t, c, Lookup(config.rules, s, t, c).value));
    }
    if Marked(files, s, t, c) {
      var r := MarkedHasRule(files, config.patterns, s, t, c);
    }
  }

  // ----- which decision a loaded rule holds

  /** The first pattern that matches. */
  predicate FirstPattern(patterns: Patterns, column: string, i: nat) {
    i < |patterns| && patterns[i].0(column) && forall j :: 0 <= j < i ==> !patterns[j].0(column)
  }

  lemma {:induction false} PatternKindIs(patterns: Patterns, column: string, kind: string)
    ensures PatternKind(patterns, column) == Some(kind)
            <==> exists i: nat :: FirstPattern(patterns, column, i) && patterns[i].1 == kind
  {
    if patterns != [] {
      var rest := patterns[1..];
      PatternKindIs(rest, column, kind);
      if patterns[0].0(column) {
        assert FirstPattern(patterns, column, 0);
      } else {
        if i: nat :| FirstPattern(rest, column, i) && rest[i].1 == kind {
          assert FirstPattern(patterns, column, i + 1) by {
            assert forall j :: 0 < j < i + 1 ==> patterns[j] == rest[j - 1];
          }
        }
        if i: nat :| FirstPattern(patterns, column, i) && patterns[i].1 == kind {
          assert FirstPattern(rest, column, i - 1) by {
            assert forall j :: 0 <= j < i - 1 ==> rest[j] == patterns[j + 1];
          }
        }
      }
    }
  }

  /** What a column element decides: its mark, else the first pattern that matches its name. */
  ghost predicate ColumnGives(patterns: Patterns, column: string, e: Element, d: Decision) {
    EndsWith(e.tag, "column") && HasName(e, column)
    && if IsMarked(e) then MarkGives(e, d)
       else exists i: nat :: FirstPattern(patterns, column, i) && d == Decision(true, patterns[i].1, "pii-pattern")
  }

  /** The last of the items that decides gives `d`. */
  ghost predicate LastGives<T>(xs: seq<T>, gives: (T, Decision) -> bool, d: Decision) {
    exists i :: 0 <= i < |xs| && gives(xs[i], d) && NoneGives(xs[i + 1..], gives)
  }

  ghost predicate NoneGives<T>(xs: seq<T>, gives: (T, Decision) -> bool) {
    forall j, d :: 0 <= j < |xs| ==> !gives(xs[j], d)
  }

  ghost function GivenByColumn(patterns: Patterns, column: string): (Element, Decision) -> bool {
    (e: Element, d: Decision) => ColumnGives(patterns, column, e, d)
  }

  /** What a table element decides: the last of its column elements of that name that decides. */
  ghost function GivenByTable(patterns: Patterns, table: string, column: string): (Element, Decision) -> bool {
    (e: Element, d: Decision) =>
      EndsWith(e.tag, "table") && HasName(e, table) && LastGives(Elements(e), GivenByColumn(patterns, column), d)
  }

  ghost function GivenByFile(patterns: Patterns, schema: string, table: string, column: string)
    : (SchemaFile, Decision) -> bool
  {
    (f: SchemaFile, d: Decision) =>
      f.schema == schema && f.tree.Some?
      && LastGives(Elements(f.tree.value), GivenByTable(patterns, table, column), d)
  }

  lemma {:induction false} LastRuleConcat(a: seq<Rule>, b: seq<Rule>, s: string, t: string, c: string)
    ensures LastRule(a + b, s, t, c) == if LastRule(b, s, t, c).Some? then LastRule(b, s, t, c)
                                        else LastRule(a, s, t, c)
  {
    if b == [] {
      assert a + b == a;
    } else {
      assert (a + b)[..|a + b| - 1] == a + b[..|b| - 1];
      LastRuleConcat(a, b[..|b| - 1], s, t, c);
    }
  }

  ghost predicate Agree<T(!new)>(f: T -> seq<Rule>, gives: (T, Decision) -> bool, s: string, t: string, c: string) {
    forall x, d :: LastRule(f(x), s, t, c) == Some(d) <==> gives(x, d)
  }

  lemma NoneGivesSnoc<T>(xs: seq<T>, x: T, gives: (T, Decision) -> bool)
    ensures NoneGives(xs + [x], gives) <==> NoneGives(xs, gives) && NoneGives([x], gives)
  {
    var all := xs + [x];
    assert all[|xs|] == x && [x][0] == x && forall j :: 0 <= j < |xs| ==> all[j] == xs[j];
  }

  lemma LastGivesSnoc<T>(xs: seq<T>, x: T, gives: (T, Decision) -> bool, d: Decision)
    ensures LastGives(xs + [x], gives, d) <==>
      gives(x, d) || (LastGives(xs, gives, d) && NoneGives([x], gives))
  {
    var all := xs + [x];
    if gives(x, d) { assert all[|xs|] == x && all[|xs| + 1..] == []; }
    if LastGives(xs, gives, d) && NoneGives([x], gives) {
      var i :| 0 <= i < |xs| && gives(xs[i], d) && NoneGives(xs[i + 1..], gives);
      assert all[i] == xs[i] && all[i + 1..] == xs[i + 1..] + [x];
      NoneGivesSnoc(xs[i + 1..], x, gives);
    }
    if LastGives(all, gives, d) && !gives(x, d) {
      var i :| 0 <= i < |all| && gives(all[i], d) && NoneGives(all[i + 1..], gives);
      assert all[i] == xs[i] && all[i + 1..] == xs[i + 1..] + [x];
      NoneGivesSnoc(xs[i + 1..], x, gives);
    }
  }

  lemma {:induction false} LastRuleFlatMap<T(!new)>(f: T -> seq<Rule>, xs: seq<T>, gives: (T, Decision) -> bool,
                                                    s: string, t: string, c: string, d: Decision)
    requires Agree(f, gives, s, t, c)
    ensures LastRule(FlatMap(f, xs), s, t, c) == Some(d) <==> LastGives(xs, gives, d)
    decreases |xs|
  {
    if xs != [] {
      var before, x := xs[..|xs| - 1], xs[|xs| - 1];
      Unsnoc(xs);
      LastRuleFlatMap(f, before, gives, s, t, c, d);
      FlatMapSnoc(f, before, x);
      LastRuleConcat(FlatMap(f, before), f(x), s, t, c);
      LastGivesSnoc(before, x, gives, d);
      if LastRule(f(x), s, t, c).Some? { assert gives(x, LastRule(f(x), s, t, c).value); }
    }
  }

  lemma ColumnAgrees(patterns: Patterns, schema: string, table: string, column: string)
    ensures Agree(RulesOfColumn(schema, table, patterns), GivenByColumn(patterns, column), schema, table, column)
  {
    forall e, d
      ensures LastRule(RulesOfColumn(schema, table, patterns)(e), schema, table, column) == Some(d)
              <==> ColumnGives(patterns, column, e, d)
    {
      var rules := RuleOf(schema, table, e, patterns);
      HasNameIff(e, column);
      DecideFromXmlAttrsIs(e);
      PatternKindIs(patterns, column, d.kind);
      assert rules != [] ==> rules[..0] == [];
    }
  }

  lemma OtherRules(schema: string, table: string, patterns: Patterns, es: seq<Element>, s: string, t: string, c: string)
    requires schema != s || table != t
    ensures LastRule(FlatMap(RulesOfColumn(schema, table, patterns), es), s, t, c) == None
  {
    var list := FlatMap(RulesOfColumn(schema, table, patterns), es);
    LastRuleIff(list, s, t, c);
    if r :| r in list && RuleFor(r, s, t, c) {
      InFlatMap(RulesOfColumn(schema, table, patterns), es, r);
    }
  }

  lemma TableAgrees(patterns: Patterns, schema: string, table: string, column: string)
    ensures Agree(RulesOfTable(schema, patterns), GivenByTable(patterns, table, column), schema, table, column)
  {
    forall e, d
      ensures LastRule(RulesOfTable(schema, patterns)(e), schema, table, column) == Some(d)
              <==> GivenByTable(patterns, table, column)(e, d)
    {
      HasNameIff(e, table);
      if ElementName(e) == table {
        ColumnAgrees(patterns, schema, table, column);
        LastRuleFlatMap(RulesOfColumn(schema, table, patterns), Elements(e), GivenByColumn(patterns, column), schema,
                        table, column, d);
      } else {
        OtherRules(schema, ElementName(e), patterns, Elements(e), schema, table, column);
      }
    }
  }

  lemma OtherSchema(f: SchemaFile, patterns: Patterns, s: string, t: string, c: string)
    requires f.schema != s && f.tree.Some?
    ensures LastRule(RulesOfFile(patterns)(f), s, t, c) == None
  {
    var list := RulesOfFile(patterns)(f);
    LastRuleIff(list, s, t, c);
    if r :| r in list && RuleFor(r, s, t, c) {
      InFlatMap(RulesOfTable(f.schema, patterns), Elements(f.tree.value), r);
      var e :| e in Elements(f.tree.value) && r in RulesOfTable(f.schema, patterns)(e);
      SchemaOfRule(f.schema, patterns, e, r);
    }
  }

  lemma SchemaOfRule(schema: string, patterns: Patterns, e: Element, r: Rule)
    requires r in RulesOfTable(schema, patterns)(e)
    ensures r.schema == schema
  {
    InFlatMap(RulesOfColumn(schema, ElementName(e), patterns), Elements(e), r);
    var c :| c in Elements(e) && r in RulesOfColumn(schema, ElementName(e), patterns)(c);
    assert r in RuleOf(schema, ElementName(e), c, patterns);
  }

  lemma FileAgrees(patterns: Patterns, schema: string, table: string, column: string)
    ensures Agree(RulesOfFile(patterns), GivenByFile(patterns, schema, table, column), schema, table, column)
  {
    forall f, d
      ensures LastRule(RulesOfFile(patterns)(f), schema, table, column) == Some(d)
              <==> GivenByFile(patterns, schema, table, column)(f, d)
    {
      if f.tree.Some? && f.schema == schema {
        TableAgrees(patterns, schema, table, column);
        LastRuleFlatMap(RulesOfTable(schema, patterns), Elements(f.tree.value), GivenByTable(patterns, table, column),
                        schema, table, column, d);
      } else if f.tree.Some? {
        OtherSchema(f, patterns, schema, table, column);
      }
    }
  }

  /** A loaded config holds for a column the decision of the last column element of that name that decides, in the
      last table element of that name that holds one, in the last file of that schema that holds one. */
  lemma LoadedRuleIff(files: seq<SchemaFile>, config: Config, s: string, t: string, c: string, d: Decision)
    requires Holds(config.rules, FileRules(files, config.patterns))
    ensures Lookup(config.rules, s, t, c) == Some(d) <==> LastGives(files, GivenByFile(config.patterns, s, t, c), d)
  {
    FileAgrees(config.patterns, s, t, c);
    LastRuleFlatMap(RulesOfFile(config.patterns), files, GivenByFile(config.patterns, s, t, c), s, t, c, d);
  }
}

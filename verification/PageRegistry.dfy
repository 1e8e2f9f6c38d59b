/** The web page registry over any prefix table (scripts/export_agent_contract.py, lines 119-120 and 653-724): every
    live web skill lands under one page anchor or among the unmapped ones, and the first matching prefix is the
    longest exactly when no prefix stands before one it begins. */
module PageRegistry {
  import opened Text
  import opened Sorting
  import opened Projection

  type Table = seq<(string, string)>

  // ----- classification

  function FirstMatch(table: Table, id: string): Option<nat> {
    if table == [] then None
    else if StartsWith(id, table[0].0) then Some(0)
    else var rest := FirstMatch(table[1..], id); if rest.Some? then Some(rest.value + 1) else None
  }

  function DeriveAnchor(table: Table, id: string): Option<string> {
    var i := FirstMatch(table, id);
    if i.Some? && i.value < |table| then Some(table[i.value].1) else None
  }

  /** Entry `i` matches, and no entry that matches is longer. */
  predicate IsLongest(table: Table, id: string, i: nat) {
    i < |table| && StartsWith(id, table[i].0)
    && forall j :: 0 <= j < |table| && StartsWith(id, table[j].0) ==> |table[j].0| <= |table[i].0|
  }

  /** No entry is a proper prefix of a later one. */
  predicate LongFirst(table: Table) {
    forall i, j :: 0 <= i < j < |table| ==> !(table[i].0 < table[j].0)
  }

  lemma {:induction false} FirstMatchIs(table: Table, id: string)
    ensures match FirstMatch(table, id)
      case Some(i) =>
        i < |table| && StartsWith(id, table[i].0) && forall j :: 0 <= j < i ==> !StartsWith(id, table[j].0)
      case None => forall j :: 0 <= j < |table| ==> !StartsWith(id, table[j].0)
  {
    if table != [] && !StartsWith(id, table[0].0) {
      FirstMatchIs(table[1..], id);
      assert forall j :: 0 < j < |table| ==> table[j] == table[1..][j - 1];
    }
  }

  /** With long prefixes first, the first match is a longest match. */
  lemma LongFirstMatchesLongest(table: Table, id: string)
    requires LongFirst(table) && FirstMatch(table, id).Some?
    ensures IsLongest(table, id, FirstMatch(table, id).value)
  {
    FirstMatchIs(table, id);
    var i := FirstMatch(table, id).value;
    forall j | 0 <= j < |table| && StartsWith(id, table[j].0) ensures |table[j].0| <= |table[i].0| {
    }
  }

  /** And otherwise it is not: in a table of distinct prefixes, a prefix that stands before one it begins shadows it. */
  lemma ShortFirstMisses(table: Table, i: nat, j: nat)
    requires i < j < |table| && table[i].0 < table[j].0
    requires forall k :: 0 <= k < |table| && k != j ==> table[k].0 != table[j].0
    ensures FirstMatch(table, table[j].0).Some?
    ensures !IsLongest(table, table[j].0, FirstMatch(table, table[j].0).value)
  {
    var id := table[j].0;
    FirstMatchIs(table, id);
    var f := FirstMatch(table, id).value;
    assert StartsWith(id, table[i].0) && StartsWith(id, table[j].0) && f <= i;
    assert table[f].0 < id;
  }

  /** For distinct prefixes: every first match is a longest match exactly when no prefix stands before one it begins. */
  lemma LongFirstIff(table: Table)
    requires forall i, j :: 0 <= i < j < |table| ==> table[i].0 != table[j].0
    ensures LongFirst(table) <==>
      forall id :: FirstMatch(table, id).Some? ==> IsLongest(table, id, FirstMatch(table, id).value)
  {
    if LongFirst(table) {
      forall id | FirstMatch(table, id).Some? ensures IsLongest(table, id, FirstMatch(table, id).value) {
        LongFirstMatchesLongest(table, id);
      }
    } else {
      var i, j :| 0 <= i < j < |table| && table[i].0 < table[j].0;
      ShortFirstMisses(table, i, j);
    }
  }

  // ----- the anchors a table uses

  predicate AnchorsListed(table: Table, anchors: seq<string>) {
    forall i :: 0 <= i < |table| ==> table[i].1 in anchors
  }

  predicate Distinct(anchors: seq<string>) {
    forall i, j :: 0 <= i < j < |anchors| ==> anchors[i] != anchors[j]
  }

  // ----- the registry

  /** The skills of an anchor, in order; no anchor gives the unmapped ones. */
  function OnAnchor(table: Table, skills: seq<Skill>, anchor: Option<string>): seq<Skill> {
    if skills == [] then []
    else OnAnchor(table, skills[..|skills| - 1], anchor) + Placed(table, skills[|skills| - 1], anchor)
  }

  function Placed(table: Table, x: Skill, anchor: Option<string>): seq<Skill> {
    if DeriveAnchor(table, x.id) == anchor then [x] else []
  }

  lemma OnAnchorSnoc(table: Table, skills: seq<Skill>, x: Skill, anchor: Option<string>)
    ensures OnAnchor(table, skills + [x], anchor) == OnAnchor(table, skills, anchor) + Placed(table, x, anchor)
  {
    assert (skills + [x])[..|skills|] == skills;
  }

  /** A page holds the skills that its anchor classifies, each as often as it is given, and no others. */
  lemma {:induction false} PageHoldsItsAnchor(table: Table, skills: seq<Skill>, anchor: Option<string>, x: Skill)
    ensures multiset(OnAnchor(table, skills, anchor))[x]
         == if DeriveAnchor(table, x.id) == anchor then multiset(skills)[x] else 0
  {
    if skills != [] {
      var before, last := skills[..|skills| - 1], skills[|skills| - 1];
      Unsnoc(skills);
      PageHoldsItsAnchor(table, before, anchor, x);
    }
  }

  /** The pages of some anchors, one after the other. */
  function Pages(table: Table, skills: seq<Skill>, anchors: seq<string>): seq<seq<Skill>> {
    if anchors == [] then []
    else Pages(table, skills, anchors[..|anchors| - 1]) + [OnAnchor(table, skills, Some(anchors[|anchors| - 1]))]
  }

  function IdsOf(skills: seq<Skill>): (ids: seq<string>)
    ensures |ids| == |skills| && forall i :: 0 <= i < |skills| ==> ids[i] == skills[i].id
  {
    seq(|skills|, i requires 0 <= i < |skills| => skills[i].id)
  }

  function WebSkills(skills: seq<Skill>): seq<Skill> {
    SortSkills(OnSurface(skills, "webui"))
  }

  method BuildWebuiPageRegistry(table: Table, anchors: seq<string>, skills: seq<Skill>)
    returns (pages: seq<seq<Skill>>, unmapped: seq<string>)
    ensures pages == Pages(table, WebSkills(skills), anchors)
    ensures unmapped == Sorted(StringLe, IdsOf(OnAnchor(table, WebSkills(skills), None)))
  {
    var sorted := WebSkills(skills);
    var grouped, found := Group(table, sorted);
    unmapped := Sorted(StringLe, found);
    pages := [];
    for k := 0 to |anchors|
      invariant pages == Pages(table, sorted, anchors[..k])
    {
      var anchor := anchors[k];
      assert anchors[..k + 1][..k] == anchors[..k] && anchors[..k + 1][k] == anchor;
      pages := pages + [PageOf(grouped, anchor)];
    }
    assert anchors[..|anchors|] == anchors;
  }

  /** The loop that groups the sorted skills by anchor. */
  method Group(table: Table, sorted: seq<Skill>) returns (grouped: map<string, seq<Skill>>, unmapped: seq<string>)
    ensures unmapped == IdsOf(OnAnchor(table, sorted, None))
    ensures GroupedAs(table, sorted, grouped)
  {
    grouped, unmapped := map[], [];
    for k := 0 to |sorted|
      invariant unmapped == IdsOf(OnAnchor(table, sorted[..k], None))
      invariant GroupedAs(table, sorted[..k], grouped)
    {
      assert sorted[..k + 1] == sorted[..k] + [sorted[k]];
      IdsSnoc(table, sorted[..k], sorted[k]);
      ghost var before := grouped;
      var anchor := DeriveAnchor(table, sorted[k].id);
      if anchor == None {
        unmapped := unmapped + [sorted[k].id];
        GroupStep(table, sorted[..k], sorted[k], before, grouped);
        continue;
      }
      grouped := grouped[anchor.value := PageOf(grouped, anchor.value) + [sorted[k]]];
      GroupStep(table, sorted[..k], sorted[k], before, grouped);
    }
    assert sorted[..|sorted|] == sorted;
  }

  lemma IdsSnoc(table: Table, before: seq<Skill>, x: Skill)
    ensures IdsOf(OnAnchor(table, before + [x], None))
         == IdsOf(OnAnchor(table, before, None)) + if DeriveAnchor(table, x.id) == None then [x.id] else []
  {
    var rest := OnAnchor(table, before, None);
    OnAnchorSnoc(table, before, x, None);
    IdsOfMore(rest, x);
    assert rest + [] == rest && IdsOf(rest) + [] == IdsOf(rest);
  }

  lemma IdsOfMore(skills: seq<Skill>, x: Skill)
    ensures IdsOf(skills + [x]) == IdsOf(skills) + [x.id]
  {
  }

  function PageOf(grouped: map<string, seq<Skill>>, anchor: string): seq<Skill> {
    if anchor in grouped then grouped[anchor] else []
  }

  ghost predicate GroupedAs(table: Table, skills: seq<Skill>, grouped: map<string, seq<Skill>>) {
    forall a :: OnAnchor(table, skills, Some(a)) == PageOf(grouped, a)
  }

  lemma GroupStep(table: Table, before: seq<Skill>, x: Skill, grouped: map<string, seq<Skill>>,
                  next: map<string, seq<Skill>>)
    requires GroupedAs(table, before, grouped)
    requires match DeriveAnchor(table, x.id)
      case None => next == grouped
      case Some(a) => next == grouped[a := PageOf(grouped, a) + [x]]
    ensures GroupedAs(table, before + [x], next)
  {
    var home := DeriveAnchor(table, x.id);
    forall a ensures OnAnchor(table, before + [x], Some(a)) == PageOf(next, a) {
      OnAnchorSnoc(table, before, x, Some(a));
      assert OnAnchor(table, before, Some(a)) == PageOf(grouped, a);
      if home == Some(a) {
        assert Placed(table, x, Some(a)) == [x];
      } else {
        assert Placed(table, x, Some(a)) == [] && PageOf(next, a) == PageOf(grouped, a);
      }
    }
  }

  /** The skills on the pages of some anchors. */
  function Bag(table: Table, skills: seq<Skill>, anchors: seq<string>): multiset<Skill> {
    if anchors == [] then multiset{}
    else Bag(table, skills, anchors[..|anchors| - 1]) + multiset(OnAnchor(table, skills, Some(anchors[|anchors| - 1])))
  }

  lemma {:induction false} BagIsPages(table: Table, skills: seq<Skill>, anchors: seq<string>)
    ensures Bag(table, skills, anchors) == multiset(Flatten(Pages(table, skills, anchors)))
  {
    if anchors != [] {
      var before, last := anchors[..|anchors| - 1], Some(anchors[|anchors| - 1]);
      BagIsPages(table, skills, before);
      FlattenSnoc(Pages(table, skills, before), OnAnchor(table, skills, last));
    }
  }

  predicate HasHome(table: Table, x: Skill, anchors: seq<string>) {
    DeriveAnchor(table, x.id).Some? && DeriveAnchor(table, x.id).value in anchors
  }

  lemma HomeSplits(table: Table, x: Skill, anchors: seq<string>)
    requires anchors != [] && Distinct(anchors)
    ensures var before, last := anchors[..|anchors| - 1], Some(anchors[|anchors| - 1]);
      (HasHome(table, x, anchors) <==> HasHome(table, x, before) || DeriveAnchor(table, x.id) == last)
      && !(HasHome(table, x, before) && DeriveAnchor(table, x.id) == last)
  {
    assert anchors == anchors[..|anchors| - 1] + [anchors[|anchors| - 1]];
  }

  /** One more skill joins the page of its anchor and no other. */
  lemma {:induction false} OneMoreSkill(table: Table, skills: seq<Skill>, x: Skill, anchors: seq<string>)
    requires Distinct(anchors)
    ensures Bag(table, skills + [x], anchors)
         == Bag(table, skills, anchors) + if HasHome(table, x, anchors) then multiset{x} else multiset{}
  {
    if anchors != [] {
      var before, last := anchors[..|anchors| - 1], Some(anchors[|anchors| - 1]);
      OneMoreSkill(table, skills, x, before);
      OnAnchorSnoc(table, skills, x, last);
      HomeSplits(table, x, anchors);
      assert multiset(OnAnchor(table, skills + [x], last))
          == multiset(OnAnchor(table, skills, last)) + multiset(Placed(table, x, last));
    }
  }

  lemma {:induction false} BagConserves(table: Table, skills: seq<Skill>, anchors: seq<string>)
    requires AnchorsListed(table, anchors) && Distinct(anchors)
    ensures Bag(table, skills, anchors) + multiset(OnAnchor(table, skills, None)) == multiset(skills)
  {
    if skills == [] {
      NoSkillsNoPages(table, anchors);
    } else {
      var before, x := skills[..|skills| - 1], skills[|skills| - 1];
      Unsnoc(skills);
      BagConserves(table, before, anchors);
      BagStep(table, skills, before, x, anchors);
    }
  }

  lemma BagStep(table: Table, skills: seq<Skill>, before: seq<Skill>, x: Skill, anchors: seq<string>)
    requires AnchorsListed(table, anchors) && Distinct(anchors) && skills == before + [x]
    requires Bag(table, before, anchors) + multiset(OnAnchor(table, before, None)) == multiset(before)
    ensures Bag(table, skills, anchors) + multiset(OnAnchor(table, skills, None)) == multiset(skills)
  {
    var bag, rest := Bag(table, before, anchors), multiset(OnAnchor(table, before, None));
    OneMoreSkill(table, before, x, anchors);
    OneMoreUnmapped(table, before, x);
    MappedHasHome(table, x, anchors);
    if DeriveAnchor(table, x.id) == None {
      JoinRight(bag, rest, multiset(before), x);
    } else {
      JoinLeft(bag, rest, multiset(before), x);
    }
  }

  lemma OneMoreUnmapped(table: Table, before: seq<Skill>, x: Skill)
    ensures multiset(OnAnchor(table, before + [x], None))
         == if DeriveAnchor(table, x.id) == None then multiset(OnAnchor(table, before, None)) + multiset{x}
            else multiset(OnAnchor(table, before, None))
  {
    var rest := OnAnchor(table, before, None);
    OnAnchorSnoc(table, before, x, None);
    assert rest + [] == rest && multiset(rest + [x]) == multiset(rest) + multiset{x};
  }

  lemma MappedHasHome(table: Table, x: Skill, anchors: seq<string>)
    requires AnchorsListed(table, anchors)
    ensures HasHome(table, x, anchors) <==> DeriveAnchor(table, x.id).Some?
  {
  }

  lemma JoinRight<T>(a: multiset<T>, b: multiset<T>, whole: multiset<T>, x: T)
    requires a + b == whole
    ensures a + multiset{} + (b + multiset{x}) == whole + multiset{x}
  {
  }

  lemma JoinLeft<T>(a: multiset<T>, b: multiset<T>, whole: multiset<T>, x: T)
    requires a + b == whole
    ensures a + multiset{x} + b == whole + multiset{x}
  {
  }

  lemma {:induction false} NoSkillsNoPages(table: Table, anchors: seq<string>)
    ensures Bag(table, [], anchors) == multiset{}
  {
    if anchors != [] {
      NoSkillsNoPages(table, anchors[..|anchors| - 1]);
    }
  }

  /** Nothing is lost and nothing doubled: the skills on all pages together with the unmapped ones are exactly the
      skills given. */
  lemma RegistryConserves(table: Table, skills: seq<Skill>, anchors: seq<string>)
    requires AnchorsListed(table, anchors) && Distinct(anchors)
    ensures multiset(Flatten(Pages(table, skills, anchors))) + multiset(OnAnchor(table, skills, None))
         == multiset(skills)
  {
    BagIsPages(table, skills, anchors);
    BagConserves(table, skills, anchors);
  }

  /** Sorting the skills for the registry loses none either. */
  lemma WebSkillsConserve(skills: seq<Skill>)
    ensures multiset(WebSkills(skills)) == multiset(OnSurface(skills, "webui")) && IsSorted(SkillLe, WebSkills(skills))
  {
    SkillOrder();
    SortedSorts(SkillLe, OnSurface(skills, "webui"));
  }
}

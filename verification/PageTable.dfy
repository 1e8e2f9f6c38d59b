/** The script's own prefix table and page anchors (scripts/export_agent_contract.py, lines 603-650), and what the
    registry therefore promises of them. */
module PageTable {
  import opened Text
  import opened Sorting
  import opened Projection
  import opened PageRegistry

  const WEBUI_PAGE_PREFIX_MAP: Table := [
    ("workbench.", "P1"), ("data.search", "P2"), ("catalog.share_zone.", "P7"), ("zone.", "P7"), ("topic.", "P7"),
    ("subscription.", "P7"), ("catalog.", "P2"), ("metadata.", "P2"), ("application.", "P3"), ("approval.", "P3"),
    ("request.", "P3"), ("backflow.", "P3"), ("require.", "P3"), ("summary.", "P3"), ("supplement.", "P3"),
    ("delivery.", "P4"), ("credential.", "P4"), ("direct_access.", "P4"), ("provider.", "P5"), ("resource.", "P5"),
    ("service.", "P5"), ("governance.", "B1.1"), ("audit.", "B1.1"), ("compliance.", "B1.1"), ("objection.", "B1.1"),
    ("ops.", "B1.1"), ("risk.", "B1.1"), ("security.", "B1.1"), ("capability.", "B1.2"), ("external.", "B1.2"),
    ("standard.", "B1.2"), ("adapter.", "B1.2"), ("legacy.", "B1.2"), ("policy.", "B1.2"), ("actor.", "B1.2"),
    ("package.", "B1.2"), ("tenant.", "B1.2"), ("registry.", "B1.2"), ("org.", "B1.2"), ("approval_flow.", "B1.2"),
    ("form_schema.", "B1.2"), ("recommendation.", "B1.2"), ("system.", "P1")]

  const ORDERED_ANCHORS: seq<string> := ["P1", "P2", "P3", "P4", "P5", "P7", "B1.1", "B1.2"]

  /** A prefix whose only dot ends it. */
  predicate OneDot(s: string) {
    s != "" && s[|s| - 1] == '.' && forall k :: 0 <= k < |s| - 1 ==> s[k] != '.'
  }

  lemma MiddleHasOneDot()
    ensures forall i :: 3 <= i < 16 ==> OneDot(WEBUI_PAGE_PREFIX_MAP[i].0)
  {
  }

  lemma LaterHasOneDot()
    ensures forall i :: 16 <= i < 30 ==> OneDot(WEBUI_PAGE_PREFIX_MAP[i].0)
  {
  }

  lemma RestHasOneDot()
    ensures forall i :: 30 <= i < 43 ==> OneDot(WEBUI_PAGE_PREFIX_MAP[i].0)
  {
  }

  lemma StartIsLongFirst()
    ensures |WEBUI_PAGE_PREFIX_MAP| == 43
    ensures OneDot(WEBUI_PAGE_PREFIX_MAP[0].0)
    ensures WEBUI_PAGE_PREFIX_MAP[1].0 == "data.search" && WEBUI_PAGE_PREFIX_MAP[2].0 == "catalog.share_zone."
    ensures forall i, j :: 0 <= i < j < 3 ==> !(WEBUI_PAGE_PREFIX_MAP[i].0 < WEBUI_PAGE_PREFIX_MAP[j].0)
  {
    assert "workbench."[0] != "data.search"[0] && "workbench."[0] != "catalog.share_zone."[0];
    assert "data.search"[0] != "catalog.share_zone."[0];
  }

  /** A prefix with a dot before its end begins no prefix whose only dot ends it. */
  lemma OneDotIsNotExtended(p: string, q: string, dot: nat)
    requires dot < |p| && p[dot] == '.' && OneDot(q)
    ensures !(p < q)
  {
    if dot < |q| - 1 { assert q[dot] != '.'; }
  }

  lemma ScriptTableIsLongFirst()
    ensures LongFirst(WEBUI_PAGE_PREFIX_MAP)
  {
    forall i, j | 0 <= i < j < |WEBUI_PAGE_PREFIX_MAP|
      ensures !(WEBUI_PAGE_PREFIX_MAP[i].0 < WEBUI_PAGE_PREFIX_MAP[j].0)
    {
      if j >= 3 { LaterIsNoExtension(i, j); } else { StartIsLongFirst(); }
    }
  }

  lemma LaterOneDot(j: nat)
    requires 3 <= j < |WEBUI_PAGE_PREFIX_MAP|
    ensures OneDot(WEBUI_PAGE_PREFIX_MAP[j].0)
  {
    StartIsLongFirst();
    if j < 16 { MiddleHasOneDot(); } else if j < 30 { LaterHasOneDot(); } else { RestHasOneDot(); }
  }

  lemma LaterIsNoExtension(i: nat, j: nat)
    requires i < j < |WEBUI_PAGE_PREFIX_MAP| && j >= 3
    ensures !(WEBUI_PAGE_PREFIX_MAP[i].0 < WEBUI_PAGE_PREFIX_MAP[j].0)
  {
    var dot := DotAt(i);
    LaterOneDot(j);
    OneDotIsNotExtended(WEBUI_PAGE_PREFIX_MAP[i].0, WEBUI_PAGE_PREFIX_MAP[j].0, dot);
  }

  lemma DotAt(i: nat) returns (dot: nat)
    requires i < |WEBUI_PAGE_PREFIX_MAP|
    ensures dot < |WEBUI_PAGE_PREFIX_MAP[i].0| && WEBUI_PAGE_PREFIX_MAP[i].0[dot] == '.'
  {
    if i >= 3 {
      LaterOneDot(i);
      dot := |WEBUI_PAGE_PREFIX_MAP[i].0| - 1;
    } else {
      StartIsLongFirst();
      assert "data.search"[4] == '.' && "catalog.share_zone."[7] == '.';
      dot := if i == 1 then 4 else if i == 2 then 7 else |WEBUI_PAGE_PREFIX_MAP[i].0| - 1;
    }
  }

  /** On the script's table, first-match classification is longest-prefix classification for every skill id. */
  lemma AnchorIsOfLongestPrefix(id: string)
    ensures match FirstMatch(WEBUI_PAGE_PREFIX_MAP, id)
      case Some(i) => IsLongest(WEBUI_PAGE_PREFIX_MAP, id, i)
                      && DeriveAnchor(WEBUI_PAGE_PREFIX_MAP, id) == Some(WEBUI_PAGE_PREFIX_MAP[i].1)
      case None => DeriveAnchor(WEBUI_PAGE_PREFIX_MAP, id) == None
                   && forall j :: 0 <= j < |WEBUI_PAGE_PREFIX_MAP| ==> !StartsWith(id, WEBUI_PAGE_PREFIX_MAP[j].0)
  {
    ScriptTableIsLongFirst();
    FirstMatchIs(WEBUI_PAGE_PREFIX_MAP, id);
    if FirstMatch(WEBUI_PAGE_PREFIX_MAP, id).Some? { LongFirstMatchesLongest(WEBUI_PAGE_PREFIX_MAP, id); }
  }

  lemma FirstAnchorsListed()
    ensures forall i :: 0 <= i < 22 ==> WEBUI_PAGE_PREFIX_MAP[i].1 in ORDERED_ANCHORS
  {
    AnchorPositions();
  }

  lemma LastAnchorsListed()
    ensures forall i :: 22 <= i < 43 ==> WEBUI_PAGE_PREFIX_MAP[i].1 in ORDERED_ANCHORS
  {
    AnchorPositions();
  }

  lemma AnchorPositions()
    ensures ORDERED_ANCHORS[0] == "P1" && ORDERED_ANCHORS[1] == "P2" && ORDERED_ANCHORS[2] == "P3"
    ensures ORDERED_ANCHORS[3] == "P4" && ORDERED_ANCHORS[4] == "P5" && ORDERED_ANCHORS[5] == "P7"
    ensures ORDERED_ANCHORS[6] == "B1.1" && ORDERED_ANCHORS[7] == "B1.2"
    ensures Distinct(ORDERED_ANCHORS)
  {
    var a := ORDERED_ANCHORS;
    assert a[0][1] == '1' && a[1][1] == '2' && a[2][1] == '3' && a[3][1] == '4' && a[4][1] == '5' && a[5][1] == '7';
    assert a[6][3] == '1' && a[7][3] == '2' && |a[6]| == |a[7]| == 4;
  }

  lemma ScriptAnchorsListed()
    ensures AnchorsListed(WEBUI_PAGE_PREFIX_MAP, ORDERED_ANCHORS)
  {
    FirstAnchorsListed();
    LastAnchorsListed();
    StartIsLongFirst();
  }

  /** In the script's registry every live web skill is emitted exactly once. */
  lemma ScriptRegistryConserves(skills: seq<Skill>)
    ensures var web := WebSkills(skills);
      multiset(Flatten(Pages(WEBUI_PAGE_PREFIX_MAP, web, ORDERED_ANCHORS)))
      + multiset(OnAnchor(WEBUI_PAGE_PREFIX_MAP, web, None)) == multiset(OnSurface(skills, "webui"))
  {
    AnchorPositions();
    ScriptAnchorsListed();
    WebSkillsConserve(skills);
    RegistryConserves(WEBUI_PAGE_PREFIX_MAP, WebSkills(skills), ORDERED_ANCHORS);
  }
}

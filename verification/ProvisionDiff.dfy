/** The provisioning diff of scripts/export_iam_provisioning_request.py (lines 68-105 and 219-245) as a patch: which
    rows were added or changed since a previous export. */
module ProvisionDiff {
  import opened Text

  const CSV_COLUMNS: seq<string> := [
    "legacy_user_id", "account", "preferred_username", "display_name_mask", "phone_mask", "mobile_mask", "email_mask",
    "org_code", "org_name", "region_code", "region_name", "is_admin_level", "status", "type_code", "binding_status",
    "iaf_sub_placeholder", "note"]

  const EXCLUDED_FROM_DIFF: set<string> := {
    "legacy_user_id", "display_name_mask", "phone_mask", "mobile_mask", "email_mask", "org_name", "region_name",
    "iaf_sub_placeholder", "note"}

  type Row = map<string, string>

  const ID := "legacy_user_id"
  const NOTE := "note"

  function Get(row: Row, column: string): Option<string> {
    if column in row then Some(row[column]) else None
  }

  /** The rows agree on every compared column. */
  predicate SameData(a: Row, b: Row) {
    forall i :: 0 <= i < |CSV_COLUMNS| && CSV_COLUMNS[i] !in EXCLUDED_FROM_DIFF ==>
      Get(a, CSV_COLUMNS[i]) == Get(b, CSV_COLUMNS[i])
  }

  datatype Change = Added | Changed | Unchanged

  function Judge(row: Row, previous: map<string, Row>): Change
    requires ID in row
  {
    if row[ID] !in previous then Added else if SameData(row, previous[row[ID]]) then Unchanged else Changed
  }

  /** What the diff holds for a row. */
  function Reported(row: Row, previous: map<string, Row>): seq<Row>
    requires ID in row
  {
    match Judge(row, previous)
    case Added => [row[NOTE := if NOTE in row && row[NOTE] != "" then row[NOTE] else "iam_provisioning_pending"]]
    case Changed => [row[NOTE := "iam_provisioning_changed"]]
    case Unchanged => []
  }

  predicate Identified(rows: seq<Row>) {
    forall i :: 0 <= i < |rows| ==> ID in rows[i]
  }

  function Diff(current: seq<Row>, previous: map<string, Row>): seq<Row>
    requires Identified(current)
  {
    if current == [] then []
    else Diff(current[..|current| - 1], previous) + Reported(current[|current| - 1], previous)
  }

  function Number(current: seq<Row>, previous: map<string, Row>, change: Change): nat
    requires Identified(current)
  {
    if current == [] then 0
    else Number(current[..|current| - 1], previous, change)
         + if Judge(current[|current| - 1], previous) == change then 1 else 0
  }

  function Ids(rows: seq<Row>): set<string>
    requires Identified(rows)
  {
    set i | 0 <= i < |rows| :: rows[i][ID]
  }

  datatype Stats = Stats(added: nat, changed: nat, same: nat, previousOnly: nat)

  method DiffRows(current: seq<Row>, previous: map<string, Row>) returns (diff: seq<Row>, stats: Stats)
    requires Identified(current)
    ensures diff == Diff(current, previous)
    ensures stats.added == Number(current, previous, Added)
    ensures stats.changed == Number(current, previous, Changed)
    ensures stats.same == Number(current, previous, Unchanged)
    ensures stats.previousOnly == |previous.Keys - Ids(current)|
  {
    diff, stats := [], Stats(0, 0, 0, 0);
    var seen: set<string> := {};
    for k := 0 to |current|
      invariant seen == Ids(current[..k])
      invariant diff == Diff(current[..k], previous)
      invariant stats == Stats(Number(current[..k], previous, Added), Number(current[..k], previous, Changed),
                               Number(current[..k], previous, Unchanged), 0)
    {
      var row := current[k];
      DiffSnoc(current, k, previous);
      IdsSnoc(current, k);
      seen := seen + {row[ID]};
      if row[ID] !in previous {
        var note := if NOTE in row && row[NOTE] != "" then row[NOTE] else "iam_provisioning_pending";
        diff := diff + [row[NOTE := note]];
        stats := stats.(added := stats.added + 1);
        continue;
      }
      if !SameData(row, previous[row[ID]]) {
        diff := diff + [row[NOTE := "iam_provisioning_changed"]];
        stats := stats.(changed := stats.changed + 1);
      } else {
        stats := stats.(same := stats.same + 1);
      }
    }
    assert current[..|current|] == current;
    var only := CountUnseen(previous.Keys, seen);
    stats := stats.(previousOnly := only);
  }

  /** The loop over the previous ids. */
  method CountUnseen(ids: set<string>, seen: set<string>) returns (n: nat)
    ensures n == |ids - seen|
  {
    n := 0;
    var rest := ids;
    ghost var counted: set<string> := {};
    while rest != {}
      invariant rest <= ids && counted == (ids - rest) - seen && n == |counted|
      decreases rest
    {
      var id :| id in rest;
      if id !in seen {
        n := n + 1;
        counted := counted + {id};
      }
      rest := rest - {id};
    }
    assert counted == ids - seen;
  }

  lemma DiffSnoc(current: seq<Row>, k: nat, previous: map<string, Row>)
    requires k < |current| && Identified(current)
    ensures Diff(current[..k + 1], previous) == Diff(current[..k], previous) + Reported(current[k], previous)
    ensures forall c :: Number(current[..k + 1], previous, c)
                     == Number(current[..k], previous, c) + if Judge(current[k], previous) == c then 1 else 0
  {
    var longer := current[..k + 1];
    assert |longer| == k + 1 && longer[..k] == current[..k] && longer[k] == current[k];
  }

  lemma IdsSnoc(rows: seq<Row>, k: nat)
    requires k < |rows| && Identified(rows)
    ensures Ids(rows[..k + 1]) == Ids(rows[..k]) + {rows[k][ID]}
  {
    assert rows[..k + 1][k] == rows[k] && forall i :: 0 <= i < k ==> rows[..k + 1][i] == rows[..k][i];
    forall id | id in Ids(rows[..k]) ensures id in Ids(rows[..k + 1]) {
      var i :| 0 <= i < k && rows[..k][i][ID] == id;
      assert rows[..k + 1][i][ID] == id;
    }
    assert rows[..k + 1][k][ID] in Ids(rows[..k + 1]);
  }

  // ----- the diff as a patch

  /** The previous rows overlaid with a diff, by id. */
  function Overlay(previous: map<string, Row>, diff: seq<Row>): map<string, Row>
    requires Identified(diff)
  {
    if diff == [] then previous
    else Overlay(previous, diff[..|diff| - 1])[diff[|diff| - 1][ID] := diff[|diff| - 1]]
  }

  predicate UniqueIds(rows: seq<Row>)
    requires Identified(rows)
  {
    forall i, j :: 0 <= i < j < |rows| ==> rows[i][ID] != rows[j][ID]
  }

  lemma {:induction false} DiffIsIdentified(current: seq<Row>, previous: map<string, Row>)
    requires Identified(current)
    ensures Identified(Diff(current, previous))
  {
    if current != [] {
      DiffIsIdentified(current[..|current| - 1], previous);
      assert ID != NOTE by { assert |ID| != |NOTE|; }
    }
  }

  lemma {:induction false} OverlaySnoc(previous: map<string, Row>, diff: seq<Row>, more: seq<Row>)
    requires Identified(diff) && Identified(more) && |more| <= 1
    ensures Identified(diff + more)
    ensures Overlay(previous, diff + more)
         == if more == [] then Overlay(previous, diff) else Overlay(previous, diff)[more[0][ID] := more[0]]
  {
    if more == [] {
      assert diff + more == diff;
    } else {
      assert (diff + more)[..|diff|] == diff && (diff + more)[|diff|] == more[0];
    }
  }

  /** The patched rows hold every current row up to the columns that are not compared, and every row that only the
      previous export has. */
  predicate CaughtUp(current: seq<Row>, previous: map<string, Row>, patched: map<string, Row>)
    requires Identified(current)
  {
    patched.Keys == previous.Keys + Ids(current)
    && (forall i :: 0 <= i < |current| ==> current[i][ID] in patched && SameData(current[i], patched[current[i][ID]]))
    && forall id :: id in previous && id !in Ids(current) ==> id in patched && patched[id] == previous[id]
  }

  /** Patching in one more row. */
  lemma PatchRow(before: seq<Row>, row: Row, previous: map<string, Row>, patched: map<string, Row>,
                 next: map<string, Row>)
    requires Identified(before) && ID in row && row[ID] !in Ids(before) && CaughtUp(before, previous, patched)
    requires row[ID] in next && SameData(row, next[row[ID]])
    requires next == patched[row[ID] := next[row[ID]]]
    ensures CaughtUp(before + [row], previous, next)
  {
    var all := before + [row];
    IdsSnoc(all, |before|);
    assert all[..|before| + 1] == all && all[..|before|] == before;
    forall i | 0 <= i < |all| ensures all[i][ID] in next && SameData(all[i], next[all[i][ID]]) {
      if i < |before| { assert all[i] == before[i] && before[i][ID] in Ids(before); }
    }
  }

  /** What the diff says of a row has the row's id and data. */
  lemma ReportedRow(row: Row, previous: map<string, Row>)
    requires ID in row
    ensures Identified(Reported(row, previous)) && |Reported(row, previous)| <= 1
    ensures Reported(row, previous) != [] ==>
      Reported(row, previous)[0][ID] == row[ID] && SameData(row, Reported(row, previous)[0])
    ensures Reported(row, previous) == [] ==> row[ID] in previous && SameData(row, previous[row[ID]])
  {
    assert |ID| != |NOTE|;
    if Reported(row, previous) != [] {
    }
  }

  /** Overlaying the diff brings every current row up to date on the compared columns, and keeps the rows that only
      the previous export has. */
  lemma {:induction false} OverlayCatchesUp(current: seq<Row>, previous: map<string, Row>)
    requires Identified(current) && UniqueIds(current)
    ensures Identified(Diff(current, previous))
    ensures CaughtUp(current, previous, Overlay(previous, Diff(current, previous)))
  {
    DiffIsIdentified(current, previous);
    if current != [] {
      var n := |current| - 1;
      var before, row := current[..n], current[n];
      FreshId(current);
      OverlayCatchesUp(before, previous);
      assert before + [row] == current;
      OverlayMore(before, row, current, previous);
    }
  }

  lemma OverlayMore(before: seq<Row>, row: Row, current: seq<Row>, previous: map<string, Row>)
    requires Identified(before) && ID in row && current == before + [row] && row[ID] !in Ids(before)
    requires Identified(Diff(before, previous)) && Identified(Diff(current, previous))
    requires CaughtUp(before, previous, Overlay(previous, Diff(before, previous)))
    ensures CaughtUp(current, previous, Overlay(previous, Diff(current, previous)))
  {
    var patched, next := Overlay(previous, Diff(before, previous)), Overlay(previous, Diff(current, previous));
    assert current[..|before|] == before && current[|before|] == row;
    ReportedRow(row, previous);
    OverlaySnoc(previous, Diff(before, previous), Reported(row, previous));
    PatchReported(before, row, previous, patched, next);
  }

  lemma FreshId(rows: seq<Row>)
    requires rows != [] && Identified(rows) && UniqueIds(rows)
    ensures UniqueIds(rows[..|rows| - 1]) && rows[|rows| - 1][ID] !in Ids(rows[..|rows| - 1])
  {
  }

  lemma PatchReported(before: seq<Row>, row: Row, previous: map<string, Row>, patched: map<string, Row>,
                      next: map<string, Row>)
    requires Identified(before) && ID in row && row[ID] !in Ids(before) && CaughtUp(before, previous, patched)
    requires Identified(Reported(row, previous))
    requires var r := Reported(row, previous); next == if r == [] then patched else patched[r[0][ID] := r[0]]
    ensures CaughtUp(before + [row], previous, next)
  {
    ReportedRow(row, previous);
    PatchRow(before, row, previous, patched, next);
  }

  /** Every current row is counted once. */
  lemma {:induction false} CountsAddUp(current: seq<Row>, previous: map<string, Row>)
    requires Identified(current)
    ensures Number(current, previous, Added) + Number(current, previous, Changed)
            + Number(current, previous, Unchanged) == |current|
    ensures |Diff(current, previous)| == Number(current, previous, Added) + Number(current, previous, Changed)
  {
    if current != [] {
      CountsAddUp(current[..|current| - 1], previous);
    }
  }

  lemma {:induction false} AllUnchanged(current: seq<Row>, previous: map<string, Row>)
    requires Identified(current)
    requires forall i :: 0 <= i < |current| ==>
      current[i][ID] in previous && SameData(current[i], previous[current[i][ID]])
    ensures Diff(current, previous) == []
    ensures Number(current, previous, Added) == 0 && Number(current, previous, Changed) == 0
  {
    if current != [] {
      AllUnchanged(current[..|current| - 1], previous);
    }
  }

  /** Diffing again against the patched rows reports nothing. */
  lemma RediffIsEmpty(current: seq<Row>, previous: map<string, Row>)
    requires Identified(current) && UniqueIds(current)
    ensures Identified(Diff(current, previous))
    ensures var patched := Overlay(previous, Diff(current, previous));
      Diff(current, patched) == []
      && Number(current, patched, Added) == 0 && Number(current, patched, Changed) == 0
  {
    OverlayCatchesUp(current, previous);
    AllUnchanged(current, Overlay(previous, Diff(current, previous)));
  }

  /** The diff is empty only when nothing differs: no row is new and all agree on the compared columns. */
  lemma {:induction false} EmptyDiffIff(current: seq<Row>, previous: map<string, Row>)
    requires Identified(current)
    ensures Diff(current, previous) == [] <==>
      forall i :: 0 <= i < |current| ==> current[i][ID] in previous && SameData(current[i], previous[current[i][ID]])
  {
    if current != [] {
      var n := |current| - 1;
      EmptyDiffIff(current[..n], previous);
      assert forall i :: 0 <= i < n ==> current[..n][i] == current[i];
    }
  }

  // ----- what is reported of a row

  /** The columns whose difference counts as a change. */
  const COMPARED: seq<string> := [
    "account", "preferred_username", "org_code", "region_code", "is_admin_level", "status", "type_code",
    "binding_status"]

  lemma FirstColumns()
    ensures |CSV_COLUMNS| == 17 && |COMPARED| == 8
    ensures COMPARED[0] == CSV_COLUMNS[1] && COMPARED[1] == CSV_COLUMNS[2] && COMPARED[2] == CSV_COLUMNS[7]
    ensures COMPARED[3] == CSV_COLUMNS[9] && COMPARED[4] == CSV_COLUMNS[11] && COMPARED[5] == CSV_COLUMNS[12]
    ensures COMPARED[6] == CSV_COLUMNS[13] && COMPARED[7] == CSV_COLUMNS[14]
    ensures forall i :: i in {0, 3, 4, 5, 6, 8, 10, 15, 16} ==> CSV_COLUMNS[i] in EXCLUDED_FROM_DIFF
  {
  }

  lemma ComparedAreNotExcluded(i: nat)
    requires i < 8
    ensures COMPARED[i] !in EXCLUDED_FROM_DIFF
  {
    var c := COMPARED[i];
    assert "org_name"[4] == 'n' && "org_code"[4] == 'c' && "region_name"[7] == 'n' && "region_code"[7] == 'c';
    if i == 0 { assert c[0] == 'a'; }
    else if i == 1 { assert c[0] == 'p' && |c| == 18; }
    else if i == 2 { assert c[0] == 'o' && c[4] == 'c'; }
    else if i == 3 { assert c[0] == 'r' && c[7] == 'c'; }
    else if i == 4 { assert c[0] == 'i' && |c| == 14; }
    else if i == 5 { assert c[0] == 's'; }
    else if i == 6 { assert c[0] == 't'; }
    else { assert c[0] == 'b'; }
  }

  /** Both rows have the same value in the column, or neither has one. */
  predicate AgreeOn(a: Row, b: Row, column: string) {
    if column in a then column in b && a[column] == b[column] else column !in b
  }

  /** Rows agree exactly when they do so on the eight compared columns. */
  lemma SameDataIs(a: Row, b: Row)
    ensures SameData(a, b) <==> forall i :: 0 <= i < |COMPARED| ==> AgreeOn(a, b, COMPARED[i])
  {
    FirstColumns();
    assert forall c :: AgreeOn(a, b, c) <==> Get(a, c) == Get(b, c);
    forall i: nat | i < 8 ensures COMPARED[i] !in EXCLUDED_FROM_DIFF { ComparedAreNotExcluded(i); }
    if forall i :: 0 <= i < |COMPARED| ==> AgreeOn(a, b, COMPARED[i]) {
      forall i | 0 <= i < |CSV_COLUMNS| && CSV_COLUMNS[i] !in EXCLUDED_FROM_DIFF
        ensures Get(a, CSV_COLUMNS[i]) == Get(b, CSV_COLUMNS[i])
      {
        assert i in {1, 2, 7, 9, 11, 12, 13, 14};
      }
    }
  }

  predicate IsNew(row: Row, previous: map<string, Row>)
    requires ID in row
  {
    row[ID] !in previous
  }

  /** The previous export has the row with another value in a compared column. */
  predicate IsChanged(row: Row, previous: map<string, Row>)
    requires ID in row
  {
    row[ID] in previous && exists i :: 0 <= i < |COMPARED| && !AgreeOn(row, previous[row[ID]], COMPARED[i])
  }

  ghost function NewOrChanged(current: seq<Row>, previous: map<string, Row>): nat -> bool
    requires Identified(current)
  {
    (i: nat) => i < |current| && (IsNew(current[i], previous) || IsChanged(current[i], previous))
  }

  /** The row as it is, but for its note: a new row keeps a note that says something. */
  ghost function Noted(current: seq<Row>, previous: map<string, Row>): (nat, Row) -> bool
    requires Identified(current)
  {
    (i: nat, r: Row) =>
      i < |current| && NOTE in r && r.Keys == current[i].Keys + {NOTE}
      && (forall c :: c in current[i] && c != NOTE ==> r[c] == current[i][c])
      && if IsChanged(current[i], previous) then r[NOTE] == "iam_provisioning_changed"
         else if NOTE in current[i] && current[i][NOTE] != "" then r[NOTE] == current[i][NOTE]
         else r[NOTE] == "iam_provisioning_pending"
  }

  lemma ReportedIs(current: seq<Row>, previous: map<string, Row>, k: nat)
    requires Identified(current) && k < |current|
    ensures var more := Reported(current[k], previous);
      if NewOrChanged(current, previous)(k) then |more| == 1 && Noted(current, previous)(k, more[0]) else more == []
  {
    if current[k][ID] in previous { SameDataIs(current[k], previous[current[k][ID]]); }
  }

  /** The diff holds each new and each changed row of the current export, in their order, and nothing else. */
  lemma {:induction false} DiffUpTo(current: seq<Row>, previous: map<string, Row>, k: nat)
    requires Identified(current) && k <= |current|
    ensures Picks(k, NewOrChanged(current, previous), Noted(current, previous), Diff(current[..k], previous))
  {
    var keep, fits := NewOrChanged(current, previous), Noted(current, previous);
    if k == 0 {
      PicksNone(keep, fits);
    } else {
      DiffUpTo(current, previous, k - 1);
      ReportedIs(current, previous, k - 1);
      DiffSnoc(current, k - 1, previous);
      PicksMore(k - 1, keep, fits, Diff(current[..k - 1], previous), Reported(current[k - 1], previous));
    }
  }

  lemma DiffIs(current: seq<Row>, previous: map<string, Row>)
    requires Identified(current)
    ensures Picks(|current|, NewOrChanged(current, previous), Noted(current, previous), Diff(current, previous))
  {
    DiffUpTo(current, previous, |current|);
    assert current[..|current|] == current;
  }

  predicate IsChange(row: Row, previous: map<string, Row>, change: Change)
    requires ID in row
  {
    match change
    case Added => IsNew(row, previous)
    case Changed => IsChanged(row, previous)
    case Unchanged => !IsNew(row, previous) && !IsChanged(row, previous)
  }

  lemma JudgeIs(row: Row, previous: map<string, Row>)
    requires ID in row
    ensures IsChange(row, previous, Judge(row, previous))
    ensures forall c :: IsChange(row, previous, c) ==> c == Judge(row, previous)
  {
    if row[ID] in previous { SameDataIs(row, previous[row[ID]]); }
  }

  /** The places of the rows that are new, or changed, or neither. */
  function PlacesOf(current: seq<Row>, n: nat, previous: map<string, Row>, change: Change): set<nat>
    requires Identified(current) && n <= |current|
  {
    set i: nat | i < n && IsChange(current[i], previous, change)
  }

  lemma PlacesMore(current: seq<Row>, n: nat, previous: map<string, Row>, change: Change)
    requires Identified(current) && n < |current|
    ensures |PlacesOf(current, n + 1, previous, change)|
         == |PlacesOf(current, n, previous, change)| + if IsChange(current[n], previous, change) then 1 else 0
  {
    var before := PlacesOf(current, n, previous, change);
    assert PlacesOf(current, n + 1, previous, change)
        == if IsChange(current[n], previous, change) then before + {n} else before;
  }

  /** Each counter is the number of rows it stands for. */
  lemma {:induction false} NumberIs(current: seq<Row>, n: nat, previous: map<string, Row>, change: Change)
    requires Identified(current) && n <= |current|
    ensures Number(current[..n], previous, change) == |PlacesOf(current, n, previous, change)|
  {
    if n > 0 {
      NumberIs(current, n - 1, previous, change);
      PlacesMore(current, n - 1, previous, change);
      JudgeIs(current[n - 1], previous);
      DiffSnoc(current, n - 1, previous);
    } else {
      assert PlacesOf(current, n, previous, change) == {};
    }
  }
}

/** The VALUES rewriter of scripts/customer_export.py (lines 236-299): what it makes of any payload, and what two
    payloads that come out the same have in common. */
module Rewriter {
  import opened Text
  import opened SqlValues
  import opened DumpReader
  import opened RoundTrip
  import opened Redaction

  type Counts = map<string, nat>

  datatype Rewritten = Rewritten(text: string, rows: nat, counts: Counts)

  // ----- counters as multisets of kinds

  /** The counter dict that counts each element of a multiset. */
  function Tally(kinds: multiset<string>): Counts {
    map k | k in kinds :: kinds[k]
  }

  function Bump(counts: Counts, kind: string, n: nat): Counts {
    counts[kind := (if kind in counts then counts[kind] else 0) + n]
  }

  lemma TallyAdd(kinds: multiset<string>, kind: string)
    ensures Bump(Tally(kinds), kind, 1) == Tally(kinds + multiset{kind})
  {
    var all := kinds + multiset{kind};
    assert forall k :: k in all <==> k in kinds || k == kind;
  }

  // ----- masking

  function Decisions(config: Config, schema: string, table: string, columns: seq<string>): (d: seq<Decision>)
    ensures |d| == |columns|
  {
    seq(|columns|, i requires 0 <= i < |columns| => Decide(config, schema, table, columns[i]))
  }

  /** The masked row: redacted cells replaced, the others kept. */
  function MaskRow(columns: seq<string>, decisions: seq<Decision>, row: Row, hint: string -> bool): (r: Row)
    requires |columns| == |decisions| == |row|
    ensures |r| == |row|
  {
    seq(|row|, i requires 0 <= i < |row| => MaskValue(columns[i], row[i], decisions[i], hint))
  }

  /** The kinds of the redacted columns. */
  function Kinds(decisions: seq<Decision>): multiset<string> {
    if decisions == [] then multiset{}
    else Kinds(decisions[..|decisions| - 1]) +
         if decisions[|decisions| - 1].redact then multiset{decisions[|decisions| - 1].kind} else multiset{}
  }

  predicate NothingRedacted(decisions: seq<Decision>) {
    forall i :: 0 <= i < |decisions| ==> !decisions[i].redact
  }

  function RewriteRow(columns: seq<string>, decisions: seq<Decision>, row: Row, hint: string -> bool): Row
    requires |columns| == |decisions|
  {
    if |row| != |columns| then row else MaskRow(columns, decisions, row, hint)
  }

  function RewriteRows(columns: seq<string>, decisions: seq<Decision>, rows: seq<Row>, hint: string -> bool)
    : (r: seq<Row>)
    requires |columns| == |decisions|
    ensures |r| == |rows|
    ensures forall i :: 0 <= i < |rows| ==> r[i] == RewriteRow(columns, decisions, rows[i], hint)
  {
    seq(|rows|, i requires 0 <= i < |rows| => RewriteRow(columns, decisions, rows[i], hint))
  }

  /** The kinds counted over all rows: each full-width row counts every redacted column once. */
  function RowKinds(width: nat, kinds: multiset<string>, rows: seq<Row>): multiset<string> {
    if rows == [] then multiset{}
    else RowKinds(width, kinds, rows[..|rows| - 1]) +
         if |rows[|rows| - 1]| == width then kinds else multiset{}
  }

  function FullRows(width: nat, rows: seq<Row>): nat {
    if rows == [] then 0
    else FullRows(width, rows[..|rows| - 1]) + if |rows[|rows| - 1]| == width then 1 else 0
  }

  /** The whole rewriting. */
  function Rewrite(columns: seq<string>, decisions: seq<Decision>, payload: string, hint: string -> bool, py: Python)
    : Rewritten
    requires |columns| == |decisions|
  {
    var rows := ReadRows(payload, py);
    if NothingRedacted(decisions) then Rewritten(payload, |rows|, map[])
    else Rewritten(EmitRows(RewriteRows(columns, decisions, rows, hint)), |rows|,
                   Tally(RowKinds(|columns|, Kinds(decisions), rows)))
  }

  // ----- the script's loops

  method RewriteValues(schema: string, table: string, columns: seq<string>, payload: string, config: Config,
                       hint: string -> bool, py: Python) returns (r: Rewritten)
    ensures r == Rewrite(columns, Decisions(config, schema, table, columns), payload, hint, py)
  {
    var decisions := Decisions(config, schema, table, columns);
    var target := TargetIndexes(decisions);
    var rows := IterValueTuples(payload, py);
    if target == [] {
      return Rewritten(payload, |rows|, map[]);
    }
    var pieces: seq<string>, rowCount: nat, counts: Counts := [], 0, map[];
    for k := 0 to |rows|
      invariant rowCount == k
      invariant pieces == EmitTuples(RewriteRows(columns, decisions, rows[..k], hint))
      invariant counts == Tally(RowKinds(|columns|, Kinds(decisions), rows[..k]))
    {
      RowsSnoc(columns, decisions, rows, k, hint);
      if |rows[k]| != |columns| {
        pieces := pieces + [EmitTuple(rows[k])];
        rowCount := rowCount + 1;
        continue;
      }
      var newRow;
      newRow, counts := MaskCells(columns, decisions, target, rows[k], hint, counts,
                                  RowKinds(|columns|, Kinds(decisions), rows[..k]));
      pieces := pieces + [EmitTuple(newRow)];
      rowCount := rowCount + 1;
    }
    assert rows[..|rows|] == rows;
    r := Rewritten(Join(pieces, ","), rowCount, counts);
  }

  /** The positions of the redacted columns, in order. */
  method TargetIndexes(decisions: seq<Decision>) returns (target: seq<nat>)
    ensures IsTarget(decisions, target)
    ensures target == [] <==> NothingRedacted(decisions)
  {
    target := [];
    for i := 0 to |decisions|
      invariant IsTarget(decisions[..i], target)
    {
      if decisions[i].redact {
        target := target + [i];
      }
    }
    assert decisions[..|decisions|] == decisions;
    if target != [] { assert decisions[target[0]].redact; }
  }

  predicate IsTarget(decisions: seq<Decision>, target: seq<nat>) {
    (forall j :: 0 <= j < |target| ==> target[j] < |decisions| && decisions[target[j]].redact)
    && (forall i :: 0 <= i < |decisions| && decisions[i].redact ==> i in target)
    && (forall j, k :: 0 <= j < k < |target| ==> target[j] < target[k])
  }

  /** The kinds at some positions. */
  function KindsAt(decisions: seq<Decision>, target: seq<nat>): multiset<string>
    requires forall j :: 0 <= j < |target| ==> target[j] < |decisions|
  {
    if target == [] then multiset{}
    else KindsAt(decisions, target[..|target| - 1]) + multiset{decisions[target[|target| - 1]].kind}
  }

  method MaskCells(columns: seq<string>, decisions: seq<Decision>, target: seq<nat>, row: Row, hint: string -> bool,
                   before: Counts, ghost kinds: multiset<string>) returns (newRow: Row, counts: Counts)
    requires |columns| == |decisions| == |row| && IsTarget(decisions, target) && before == Tally(kinds)
    ensures newRow == MaskRow(columns, decisions, row, hint)
    ensures counts == Tally(kinds + Kinds(decisions))
  {
    newRow, counts := row, before;
    ghost var counted := kinds;
    assert kinds + multiset{} == kinds;
    for j := 0 to |target|
      invariant newRow == MaskAt(columns, decisions, target[..j], row, hint)
      invariant counts == Tally(counted) && counted == kinds + KindsAt(decisions, target[..j])
    {
      var i := target[j];
      var decision := decisions[i];
      MaskAtSnoc(columns, decisions, target, j, row, hint);
      CountSnoc(decisions, target, j, kinds, counted);
      newRow := newRow[i := MaskValue(columns[i], newRow[i], decision, hint)];
      counts, counted := Bump(counts, decision.kind, 1), counted + multiset{decision.kind};
    }
    assert target[..|target|] == target;
    TargetKinds(decisions, target);
    MaskAtAll(columns, decisions, target, row, hint);
  }

  /** Masking the next position finds its cell as it was in the row. */
  lemma MaskAtSnoc(columns: seq<string>, decisions: seq<Decision>, target: seq<nat>, j: nat, row: Row,
                   hint: string -> bool)
    requires |columns| == |decisions| == |row| && IsTarget(decisions, target) && j < |target|
    ensures var i, before := target[j], MaskAt(columns, decisions, target[..j], row, hint);
      MaskAt(columns, decisions, target[..j + 1], row, hint)
      == before[i := MaskValue(columns[i], before[i], decisions[i], hint)]
  {
    assert target[..j + 1][..j] == target[..j] && target[..j + 1][j] == target[j];
    MaskAtCells(columns, decisions, target[..j], row, hint);
  }

  lemma MaskAtAll(columns: seq<string>, decisions: seq<Decision>, target: seq<nat>, row: Row, hint: string -> bool)
    requires |columns| == |decisions| == |row| && IsTarget(decisions, target)
    ensures MaskAt(columns, decisions, target, row, hint) == MaskRow(columns, decisions, row, hint)
  {
    MaskAtCells(columns, decisions, target, row, hint);
  }

  /** Counting the kind at the next position. */
  lemma CountSnoc(decisions: seq<Decision>, target: seq<nat>, j: nat, kinds: multiset<string>,
                  counted: multiset<string>)
    requires j < |target| && forall k :: 0 <= k < |target| ==> target[k] < |decisions|
    requires counted == kinds + KindsAt(decisions, target[..j])
    ensures var kind := decisions[target[j]].kind;
      counted + multiset{kind} == kinds + KindsAt(decisions, target[..j + 1])
      && Bump(Tally(counted), kind, 1) == Tally(counted + multiset{kind})
  {
    TargetSnoc(decisions, target, j);
    TallyAdd(counted, decisions[target[j]].kind);
  }

  lemma TargetSnoc(decisions: seq<Decision>, target: seq<nat>, j: nat)
    requires j < |target| && forall k :: 0 <= k < |target| ==> target[k] < |decisions|
    ensures KindsAt(decisions, target[..j + 1])
         == KindsAt(decisions, target[..j]) + multiset{decisions[target[j]].kind}
  {
    assert target[..j + 1][..j] == target[..j] && target[..j + 1][j] == target[j];
  }

  /** The row with the cells at some positions masked, one after the other. */
  function MaskAt(columns: seq<string>, decisions: seq<Decision>, target: seq<nat>, row: Row, hint: string -> bool)
    : (r: Row)
    requires |columns| == |decisions| == |row| && forall j :: 0 <= j < |target| ==> target[j] < |row|
    ensures |r| == |row|
  {
    if target == [] then row
    else
      var i := target[|target| - 1];
      var masked := MaskAt(columns, decisions, target[..|target| - 1], row, hint);
      masked[i := MaskValue(columns[i], row[i], decisions[i], hint)]
  }

  lemma {:induction false} MaskAtCells(columns: seq<string>, decisions: seq<Decision>, target: seq<nat>, row: Row,
                                       hint: string -> bool)
    requires |columns| == |decisions| == |row| && forall j :: 0 <= j < |target| ==> target[j] < |row|
    ensures forall i :: 0 <= i < |row| ==>
      MaskAt(columns, decisions, target, row, hint)[i]
      == if i in target then MaskValue(columns[i], row[i], decisions[i], hint) else row[i]
  {
    if target != [] {
      MaskAtCells(columns, decisions, target[..|target| - 1], row, hint);
      assert target == target[..|target| - 1] + [target[|target| - 1]];
    }
  }

  /** The target positions carry exactly the kinds of the redacted columns. */
  lemma {:induction false} TargetKinds(decisions: seq<Decision>, target: seq<nat>)
    requires IsTarget(decisions, target)
    ensures KindsAt(decisions, target) == Kinds(decisions)
  {
    if decisions != [] {
      if decisions[|decisions| - 1].redact {
        LastTarget(decisions, target);
        TargetKinds(decisions[..|decisions| - 1], target[..|target| - 1]);
        WithLastKind(decisions, target);
      } else {
        TargetKinds(decisions[..|decisions| - 1], target);
        KindsAtPrefix(decisions, target);
      }
    }
  }

  lemma WithLastKind(decisions: seq<Decision>, target: seq<nat>)
    requires decisions != [] && decisions[|decisions| - 1].redact
    requires target != [] && target[|target| - 1] == |decisions| - 1
    requires forall j :: 0 <= j < |target| - 1 ==> target[j] < |decisions| - 1
    requires KindsAt(decisions[..|decisions| - 1], target[..|target| - 1]) == Kinds(decisions[..|decisions| - 1])
    ensures KindsAt(decisions, target) == Kinds(decisions)
  {
    KindsAtPrefix(decisions, target[..|target| - 1]);
  }

  lemma LastTarget(decisions: seq<Decision>, target: seq<nat>)
    requires IsTarget(decisions, target) && decisions != [] && decisions[|decisions| - 1].redact
    ensures target != [] && target[|target| - 1] == |decisions| - 1
    ensures IsTarget(decisions[..|decisions| - 1], target[..|target| - 1])
    ensures forall j :: 0 <= j < |target| - 1 ==> target[j] < |decisions| - 1
  {
    var n := |decisions| - 1;
    assert n in target;
    var last := target[|target| - 1];
    assert forall k :: 0 <= k < |target| ==> target[k] <= last <= n;
    var j := |target| - 1;
    forall i | 0 <= i < n && decisions[i].redact ensures i in target[..j] {
      var m :| 0 <= m < |target| && target[m] == i;
      assert target[..j][m] == i;
    }
  }

  lemma {:induction false} KindsAtPrefix(decisions: seq<Decision>, target: seq<nat>)
    requires decisions != [] && forall j :: 0 <= j < |target| ==> target[j] < |decisions| - 1
    ensures KindsAt(decisions, target) == KindsAt(decisions[..|decisions| - 1], target)
  {
    if target != [] {
      KindsAtPrefix(decisions, target[..|target| - 1]);
    }
  }

  lemma {:induction false} EmitTuplesSnoc(rows: seq<Row>, row: Row)
    ensures EmitTuples(rows + [row]) == EmitTuples(rows) + [EmitTuple(row)]
  {
    if rows == [] {
      assert [] + [row] == [row] && [row][1..] == [];
    } else {
      assert (rows + [row])[1..] == rows[1..] + [row];
      EmitTuplesSnoc(rows[1..], row);
    }
  }

  lemma RowsSnoc(columns: seq<string>, decisions: seq<Decision>, rows: seq<Row>, k: nat, hint: string -> bool)
    requires |columns| == |decisions| && k < |rows|
    ensures EmitTuples(RewriteRows(columns, decisions, rows[..k + 1], hint))
         == EmitTuples(RewriteRows(columns, decisions, rows[..k], hint))
            + [EmitTuple(RewriteRow(columns, decisions, rows[k], hint))]
    ensures RowKinds(|columns|, Kinds(decisions), rows[..k + 1])
         == RowKinds(|columns|, Kinds(decisions), rows[..k])
            + if |rows[k]| == |columns| then Kinds(decisions) else multiset{}
  {
    assert rows[..k + 1][..k] == rows[..k];
    assert RewriteRows(columns, decisions, rows[..k + 1], hint)
        == RewriteRows(columns, decisions, rows[..k], hint) + [RewriteRow(columns, decisions, rows[k], hint)];
    EmitTuplesSnoc(RewriteRows(columns, decisions, rows[..k], hint), RewriteRow(columns, decisions, rows[k], hint));
  }

  // ----- what a payload becomes, cell by cell

  /** An unredacted cell stays, NULL stays NULL, any other redacted cell becomes 0 under a numeric column name and else
      the placeholder with its kind in capitals. */
  predicate CellBecomes(column: string, d: Decision, v: Value, out: Value, hint: string -> bool) {
    if !d.redact then out == v
    else if v == Null then out == Null
    else if hint(column) then out == Int(0)
    else if d.kind == "" then out == Str("<REDACTED:REDACTED>")
    else out == Str("<REDACTED:" + Upper(d.kind) + ">")
  }

  lemma MaskValueIs(column: string, d: Decision, v: Value, hint: string -> bool)
    ensures CellBecomes(column, d, v, MaskValue(column, v, d, hint), hint)
  {
    assert Upper("redacted") == "REDACTED";
    assert "<REDACTED:" + "REDACTED" + ">" == "<REDACTED:REDACTED>";
  }

  /** A row as wide as the table is masked cell by cell, any other row stays. */
  predicate RowBecomes(columns: seq<string>, decisions: seq<Decision>, row: Row, out: Row, hint: string -> bool)
    requires |columns| == |decisions|
  {
    if |row| != |columns| then out == row
    else |out| == |row| && forall i :: 0 <= i < |row| ==> CellBecomes(columns[i], decisions[i], row[i], out[i], hint)
  }

  /** With nothing to redact a payload stays as it is; otherwise it is printed anew from its rows, each of them masked,
      in their order, and reads back as these. */
  ghost predicate PayloadBecomes(columns: seq<string>, decisions: seq<Decision>, payload: string, text: string,
                                 hint: string -> bool, py: Python)
    requires |columns| == |decisions|
  {
    if forall i :: 0 <= i < |decisions| ==> !decisions[i].redact then text == payload
    else exists out: seq<Row> ::
      |out| == |ReadRows(payload, py)| && text == EmitRows(out)
      && (ReprReads(py) ==> ReadRows(text, py) == SettledRows(out))
      && forall j :: 0 <= j < |out| ==> RowBecomes(columns, decisions, ReadRows(payload, py)[j], out[j], hint)
  }

  lemma RewriteRowIs(columns: seq<string>, decisions: seq<Decision>, row: Row, hint: string -> bool)
    requires |columns| == |decisions|
    ensures RowBecomes(columns, decisions, row, RewriteRow(columns, decisions, row, hint), hint)
  {
    if |row| == |columns| {
      forall i | 0 <= i < |row|
        ensures CellBecomes(columns[i], decisions[i], row[i], RewriteRow(columns, decisions, row, hint)[i], hint)
      {
        MaskValueIs(columns[i], decisions[i], row[i], hint);
      }
    }
  }

  /** What the rewriter makes of any payload. */
  lemma RewriteIs(columns: seq<string>, decisions: seq<Decision>, payload: string, hint: string -> bool, py: Python)
    requires |columns| == |decisions|
    ensures var w := Rewrite(columns, decisions, payload, hint, py);
      PayloadBecomes(columns, decisions, payload, w.text, hint, py) && w.rows == |ReadRows(payload, py)|
  {
    if !NothingRedacted(decisions) {
      var rows := ReadRows(payload, py);
      var out := RewriteRows(columns, decisions, rows, hint);
      forall j | 0 <= j < |rows| ensures RowBecomes(columns, decisions, rows[j], out[j], hint) {
        RewriteRowIs(columns, decisions, rows[j], hint);
      }
      if ReprReads(py) { OutputReadsAs(columns, decisions, payload, hint, py); }
    }
  }

  /** The redacted cells of a kind in the rows that are as wide as the table, by row and column. */
  function CellsOfKind(decisions: seq<Decision>, rows: seq<Row>, kind: string): set<(nat, nat)> {
    set j: nat, i: nat | j < |rows| && i < |decisions| && IsCellOfKind(decisions, rows, kind, j, i) :: (j, i)
  }

  predicate IsCellOfKind(decisions: seq<Decision>, rows: seq<Row>, kind: string, j: nat, i: nat)
    requires j < |rows| && i < |decisions|
  {
    |rows[j]| == |decisions| && decisions[i].redact && decisions[i].kind == kind
  }

  function ColumnsOfKind(decisions: seq<Decision>, n: nat, kind: string): set<nat>
    requires n <= |decisions|
  {
    set i: nat | i < n && decisions[i].redact && decisions[i].kind == kind
  }

  lemma {:induction false} KindsAreColumns(decisions: seq<Decision>, n: nat, kind: string)
    requires n <= |decisions|
    ensures Kinds(decisions[..n])[kind] == |ColumnsOfKind(decisions, n, kind)|
  {
    if n > 0 {
      KindsAreColumns(decisions, n - 1, kind);
      assert decisions[..n][..n - 1] == decisions[..n - 1];
      var before := ColumnsOfKind(decisions, n - 1, kind);
      assert ColumnsOfKind(decisions, n, kind)
          == if decisions[n - 1].redact && decisions[n - 1].kind == kind then before + {n - 1} else before;
    }
  }

  function RowCells(j: nat, columns: set<nat>): set<(nat, nat)> {
    set i | i in columns :: (j, i)
  }

  lemma {:induction false} RowCellsCount(j: nat, columns: set<nat>)
    ensures |RowCells(j, columns)| == |columns|
  {
    if columns != {} {
      var i :| i in columns;
      RowCellsCount(j, columns - {i});
      assert RowCells(j, columns) == RowCells(j, columns - {i}) + {(j, i)};
    }
  }

  lemma MoreCells(decisions: seq<Decision>, rows: seq<Row>, row: Row, kind: string)
    ensures var columns := ColumnsOfKind(decisions, |decisions|, kind);
      CellsOfKind(decisions, rows + [row], kind)
      == CellsOfKind(decisions, rows, kind) + if |row| == |decisions| then RowCells(|rows|, columns) else {}
  {
    var all, columns := rows + [row], ColumnsOfKind(decisions, |decisions|, kind);
    var more := if |row| == |decisions| then RowCells(|rows|, columns) else {};
    forall j: nat, i: nat
      ensures (j, i) in CellsOfKind(decisions, all, kind)
              <==> (j, i) in CellsOfKind(decisions, rows, kind) || (j, i) in more
    {
      if j < |rows| { assert all[j] == rows[j]; }
    }
  }

  /** A kind is counted once for each redacted cell of that kind in a row as wide as the table. */
  lemma {:induction false} CountsAreCells(decisions: seq<Decision>, rows: seq<Row>, kind: string)
    ensures RowKinds(|decisions|, Kinds(decisions), rows)[kind] == |CellsOfKind(decisions, rows, kind)|
  {
    if rows != [] {
      var before, row := rows[..|rows| - 1], rows[|rows| - 1];
      var columns := ColumnsOfKind(decisions, |decisions|, kind);
      Unsnoc(rows);
      CountsAreCells(decisions, before, kind);
      MoreCells(decisions, before, row, kind);
      RowCellsCount(|before|, columns);
      KindsAreColumns(decisions, |decisions|, kind);
      assert decisions[..|decisions|] == decisions;
      DisjointCells(decisions, before, kind, columns);
    }
  }

  lemma DisjointCells(decisions: seq<Decision>, rows: seq<Row>, kind: string, columns: set<nat>)
    ensures CellsOfKind(decisions, rows, kind) !! RowCells(|rows|, columns)
  {
  }

  // ----- two runs

  /** Rows a reader of the output is not meant to tell apart: full-width rows that agree outside the redacted
      columns and on which redacted cells are NULL; other rows are not redacted and have to be equal. */
  predicate Alike(decisions: seq<Decision>, a: Row, b: Row) {
    if |a| != |decisions| then a == b
    else |b| == |a| && forall i :: 0 <= i < |a| ==>
      if decisions[i].redact then a[i] == Null <==> b[i] == Null else a[i] == b[i]
  }

  /** Payloads whose rows are pairwise alike. */
  predicate AlikeRows(decisions: seq<Decision>, a: seq<Row>, b: seq<Row>) {
    |a| == |b| && forall i :: 0 <= i < |a| ==> Alike(decisions, a[i], b[i])
  }

  /** Redacted cells of full-width rows do not influence the output: text, row count and counters are the same for
      payloads whose rows read pairwise alike. */
  lemma {:induction false} RedactedCellsDoNotShow(columns: seq<string>, decisions: seq<Decision>, p: string, q: string,
                                                  hint: string -> bool, py: Python)
    requires |columns| == |decisions| && !NothingRedacted(decisions)
    requires AlikeRows(decisions, ReadRows(p, py), ReadRows(q, py))
    ensures Rewrite(columns, decisions, p, hint, py) == Rewrite(columns, decisions, q, hint, py)
  {
    var a, b := ReadRows(p, py), ReadRows(q, py);
    forall i | 0 <= i < |a|
      ensures RewriteRow(columns, decisions, a[i], hint) == RewriteRow(columns, decisions, b[i], hint)
    {
      assert Alike(decisions, a[i], b[i]);
    }
    assert RewriteRows(columns, decisions, a, hint) == RewriteRows(columns, decisions, b, hint);
    SameWidthsCountAlike(|columns|, Kinds(decisions), a, b);
  }

  lemma {:induction false} SameWidthsCountAlike(width: nat, kinds: multiset<string>, a: seq<Row>, b: seq<Row>)
    requires |a| == |b| && forall i :: 0 <= i < |a| ==> |a[i]| == |b[i]|
    ensures RowKinds(width, kinds, a) == RowKinds(width, kinds, b)
  {
    if a != [] {
      SameWidthsCountAlike(width, kinds, a[..|a| - 1], b[..|b| - 1]);
    }
  }

  lemma RewrittenRowsAreOk(columns: seq<string>, decisions: seq<Decision>, rows: seq<Row>, hint: string -> bool,
                           py: Python)
    requires |columns| == |decisions| && RowsOk(rows, py)
    ensures RowsOk(RewriteRows(columns, decisions, rows, hint), py)
  {
    forall i | 0 <= i < |rows| ensures RowOk(RewriteRow(columns, decisions, rows[i], hint), py) {
      assert RowOk(rows[i], py);
    }
  }

  /** What the output of the slow path reads as. */
  lemma OutputReadsAs(columns: seq<string>, decisions: seq<Decision>, payload: string, hint: string -> bool, py: Python)
    requires |columns| == |decisions| && ReprReads(py) && !NothingRedacted(decisions)
    ensures ReadRows(Rewrite(columns, decisions, payload, hint, py).text, py)
         == SettledRows(RewriteRows(columns, decisions, ReadRows(payload, py), hint))
  {
    RowsReadAreOk(payload, py);
    RewrittenRowsAreOk(columns, decisions, ReadRows(payload, py), hint, py);
    EmittedRowsReadBack(RewriteRows(columns, decisions, ReadRows(payload, py), hint), py);
  }

  /** Nothing else that was read is lost: the output reads as the same rows, with unredacted cells in place, NULLs
      still NULL and rows of another width as they were, up to the bytes of hexadecimal literals. */
  lemma UnredactedCellsSurvive(columns: seq<string>, decisions: seq<Decision>, payload: string, hint: string -> bool,
                               py: Python)
    requires |columns| == |decisions| && ReprReads(py)
    ensures var text := Rewrite(columns, decisions, payload, hint, py).text;
      if NothingRedacted(decisions) then text == payload
      else AlikeRows(decisions, SettledRows(ReadRows(payload, py)), ReadRows(text, py))
  {
    var rows := ReadRows(payload, py);
    if !NothingRedacted(decisions) { OutputReadsAs(columns, decisions, payload, hint, py); }
    forall i | 0 <= i < |rows|
      ensures Alike(decisions, SettledRow(rows[i]), SettledRow(RewriteRow(columns, decisions, rows[i], hint)))
    {
      MaskedIsAlike(columns, decisions, rows[i], hint);
    }
  }

  lemma MaskedIsAlike(columns: seq<string>, decisions: seq<Decision>, row: Row, hint: string -> bool)
    requires |columns| == |decisions|
    ensures Alike(decisions, SettledRow(row), SettledRow(RewriteRow(columns, decisions, row, hint)))
  {
  }

  /** All tuples of a payload survive, alike, exactly when nothing but blanks and commas stands before any of them. */
  lemma TuplesSurviveIff(columns: seq<string>, decisions: seq<Decision>, payload: string, hint: string -> bool,
                         py: Python)
    requires |columns| == |decisions| && ReprReads(py) && !NothingRedacted(decisions)
    ensures AlikeRows(decisions, SettledRows(AllRows(payload, py)),
                      ReadRows(Rewrite(columns, decisions, payload, hint, py).text, py))
            <==> Orderly(payload, py)
  {
    UnredactedCellsSurvive(columns, decisions, payload, hint, py);
    AllRowsReadIff(payload, py);
    var read, all := ReadRows(payload, py), AllRows(payload, py);
    assert |read| == |all| ==> read == all;
  }

  lemma SameCellIff(column: string, d: Decision, v: Value, w: Value, hint: string -> bool)
    ensures Settled(MaskValue(column, v, d, hint)) == Settled(MaskValue(column, w, d, hint))
            <==> if d.redact then Settled(v) == Null <==> Settled(w) == Null else Settled(v) == Settled(w)
  {
  }

  lemma SameRowIff(columns: seq<string>, decisions: seq<Decision>, a: Row, b: Row, hint: string -> bool)
    requires |columns| == |decisions|
    ensures SettledRow(RewriteRow(columns, decisions, a, hint)) == SettledRow(RewriteRow(columns, decisions, b, hint))
            <==> Alike(decisions, SettledRow(a), SettledRow(b))
  {
    var x := SettledRow(RewriteRow(columns, decisions, a, hint));
    var y := SettledRow(RewriteRow(columns, decisions, b, hint));
    assert |x| == |a| && |y| == |b|;
    if |a| == |b| == |columns| {
      forall i | 0 <= i < |a|
        ensures x[i] == y[i] <==>
          if decisions[i].redact then SettledRow(a)[i] == Null <==> SettledRow(b)[i] == Null
          else SettledRow(a)[i] == SettledRow(b)[i]
      {
        SameCellIff(columns[i], decisions[i], a[i], b[i], hint);
      }
      assert x == y <==> forall i :: 0 <= i < |a| ==> x[i] == y[i];
    }
  }

  lemma SameRowsIff(columns: seq<string>, decisions: seq<Decision>, a: seq<Row>, b: seq<Row>, hint: string -> bool)
    requires |columns| == |decisions|
    ensures SettledRows(RewriteRows(columns, decisions, a, hint))
            == SettledRows(RewriteRows(columns, decisions, b, hint))
            <==> AlikeRows(decisions, SettledRows(a), SettledRows(b))
  {
    var x := SettledRows(RewriteRows(columns, decisions, a, hint));
    var y := SettledRows(RewriteRows(columns, decisions, b, hint));
    assert x == y <==> |x| == |y| && forall i :: 0 <= i < |x| ==> x[i] == y[i];
    if |a| == |b| {
      forall i | 0 <= i < |a| ensures x[i] == y[i] <==> Alike(decisions, SettledRows(a)[i], SettledRows(b)[i]) {
        SameRowIff(columns, decisions, a[i], b[i], hint);
      }
    }
  }

  /** What the output tells: two payloads come out the same, text, row count and counters, if and only if their rows
      read pairwise alike outside redacted cells, up to the bytes of hexadecimal literals. */
  lemma SameOutputIff(columns: seq<string>, decisions: seq<Decision>, p: string, q: string, hint: string -> bool,
                      py: Python)
    requires |columns| == |decisions| && !NothingRedacted(decisions) && ReprReads(py)
    ensures var same := AlikeRows(decisions, SettledRows(ReadRows(p, py)), SettledRows(ReadRows(q, py)));
      (Rewrite(columns, decisions, p, hint, py).text == Rewrite(columns, decisions, q, hint, py).text <==> same)
      && (Rewrite(columns, decisions, p, hint, py) == Rewrite(columns, decisions, q, hint, py) <==> same)
  {
    var a, b := ReadRows(p, py), ReadRows(q, py);
    OutputReadsAs(columns, decisions, p, hint, py);
    OutputReadsAs(columns, decisions, q, hint, py);
    SameRowsIff(columns, decisions, a, b, hint);
    if AlikeRows(decisions, SettledRows(a), SettledRows(b)) {
      SettledPrintsAlike(RewriteRows(columns, decisions, a, hint));
      SettledPrintsAlike(RewriteRows(columns, decisions, b, hint));
      AlikeWidths(decisions, a, b);
      SameWidthsCountAlike(|columns|, Kinds(decisions), a, b);
    }
  }

  lemma AlikeWidths(decisions: seq<Decision>, a: seq<Row>, b: seq<Row>)
    requires AlikeRows(decisions, SettledRows(a), SettledRows(b))
    ensures |a| == |b| && forall i :: 0 <= i < |a| ==> |a[i]| == |b[i]|
  {
    forall i | 0 <= i < |a| ensures |a[i]| == |b[i]| {
      assert Alike(decisions, SettledRows(a)[i], SettledRows(b)[i]);
    }
  }

  // ----- rewriting twice

  /** Rewriting an already rewritten payload gives the same bytes, row count and counters, whatever the payload. */
  lemma RewriteIsIdempotent(columns: seq<string>, decisions: seq<Decision>, payload: string, hint: string -> bool,
                            py: Python)
    requires |columns| == |decisions| && ReprReads(py)
    ensures var w := Rewrite(columns, decisions, payload, hint, py);
      Rewrite(columns, decisions, w.text, hint, py) == w
  {
    if !NothingRedacted(decisions) {
      var rows := ReadRows(payload, py);
      var once := RewriteRows(columns, decisions, rows, hint);
      OutputReadsAs(columns, decisions, payload, hint, py);
      SettledTwice(columns, decisions, rows, hint);
      SettledPrintsAlike(once);
      SameWidthsCountAlike(|columns|, Kinds(decisions), rows, SettledRows(once));
    }
  }

  lemma SettledTwice(columns: seq<string>, decisions: seq<Decision>, rows: seq<Row>, hint: string -> bool)
    requires |columns| == |decisions|
    ensures var once := SettledRows(RewriteRows(columns, decisions, rows, hint));
      RewriteRows(columns, decisions, once, hint) == once
      && forall i :: 0 <= i < |rows| ==> |rows[i]| == |once[i]|
  {
    forall i | 0 <= i < |rows|
      ensures var once := SettledRow(RewriteRow(columns, decisions, rows[i], hint));
        RewriteRow(columns, decisions, once, hint) == once && |once| == |rows[i]|
    {
    }
  }

  // ----- conservation

  lemma MulStep(a: int, f: int)
    ensures a * (f + 1) == a * f + a
  {
  }

  /** Each kind is counted once per redacted column of that kind and full-width row. */
  lemma {:induction false} KindCount(width: nat, kinds: multiset<string>, rows: seq<Row>, kind: string)
    ensures RowKinds(width, kinds, rows)[kind] == kinds[kind] * FullRows(width, rows)
  {
    if rows != [] {
      KindCount(width, kinds, rows[..|rows| - 1], kind);
      MulStep(kinds[kind], FullRows(width, rows[..|rows| - 1]));
    }
  }

  /** The counters of a rewritten payload add up to (redacted columns) x (full-width rows). */
  lemma {:induction false} CountersAddUp(width: nat, kinds: multiset<string>, rows: seq<Row>)
    ensures |RowKinds(width, kinds, rows)| == |kinds| * FullRows(width, rows)
  {
    if rows != [] {
      CountersAddUp(width, kinds, rows[..|rows| - 1]);
      MulStep(|kinds|, FullRows(width, rows[..|rows| - 1]));
    }
  }
}

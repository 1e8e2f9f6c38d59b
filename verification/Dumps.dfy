/** Whole dumps of scripts/customer_export.py (lines 161-233), line by line. Line patterns, text encoding and SHA-256
    come in from outside. */
module Dumps {
  import opened Text
  import opened SqlValues
  import opened DumpReader
  import opened Redaction
  import opened Rewriter
  import opened Checksum

  /** One line of a dump, as read, with what the script's patterns find in it. */
  datatype Line = Line(raw: string, create: Option<string>, column: Option<string>, closes: bool,
                       insert: Option<(string, string)>)

  type Columns = map<string, seq<string>>

  datatype Dump = Dump(name: string, lines: seq<Line>)

  /** What the commands take from their surroundings. */
  datatype Tools = Tools(config: Config, hint: string -> bool, py: Python, schemaOf: string -> string,
                         encode: string -> seq<Byte>, sha256: seq<Byte> -> string)

  // ----- columns of each table

  function ColumnsOf(columns: Columns, table: string): seq<string> {
    if table in columns then columns[table] else []
  }

  predicate NoneCloses(lines: seq<Line>, from: nat, to: nat)
    requires to <= |lines|
  {
    forall m :: from <= m < to ==> !lines[m].closes
  }

  /** Line `i` opens a table: it is a CREATE line that stands in no open table. */
  predicate Opens(lines: seq<Line>, i: nat)
    requires i < |lines|
    decreases i, 0
  {
    lines[i].create.Some? && !exists h :: 0 <= h < i && Inside(lines, h, i)
  }

  /** Line `k` stands in the table that line `h` opens: no line between them closes it. */
  predicate Inside(lines: seq<Line>, h: nat, k: nat)
    requires h < k <= |lines|
    decreases h, 1
  {
    NoneCloses(lines, h + 1, k) && Opens(lines, h)
  }

  /** Line `j` is a column of a table. */
  predicate IsColumn(lines: seq<Line>, j: nat, table: string)
    requires j < |lines|
  {
    lines[j].column.Some? && !lines[j].closes
    && exists h :: 0 <= h < j && Inside(lines, h, j) && lines[h].create == Some(table)
  }

  /** The columns of a table among the first `k` lines, in order. */
  function Listed(lines: seq<Line>, table: string, k: nat): seq<string>
    requires k <= |lines|
  {
    if k == 0 then []
    else Listed(lines, table, k - 1) + if IsColumn(lines, k - 1, table) then [lines[k - 1].column.value] else []
  }

  /** The tables that one of the first `k` lines opens. */
  function Opened(lines: seq<Line>, k: nat): set<string>
    requires k <= |lines|
  {
    set h | 0 <= h < k && Opens(lines, h) :: lines[h].create.value
  }

  /** The columns of a dump: for each table that is opened, the column lines between each line that opens it and the
      next closing line. */
  function TableColumns(lines: seq<Line>): Columns {
    map table | table in Opened(lines, |lines|) :: Listed(lines, table, |lines|)
  }

  /** At most one table is open. */
  lemma OneIsOpen(lines: seq<Line>, g: nat, h: nat, k: nat)
    requires g < h < k <= |lines|
    ensures !(Inside(lines, g, k) && Inside(lines, h, k))
  {
    if Opens(lines, h) { assert !Inside(lines, g, h); }
  }

  /** `current` is the table that line `k` stands in. */
  predicate IsCurrent(lines: seq<Line>, k: nat, current: Option<string>)
    requires k <= |lines|
  {
    if current.Some? then exists h :: 0 <= h < k && Inside(lines, h, k) && lines[h].create == current
    else forall h :: 0 <= h < k ==> !Inside(lines, h, k)
  }

  /** `columns` is what the first `k` lines give. */
  ghost predicate IsScanned(lines: seq<Line>, k: nat, columns: Columns)
    requires k <= |lines|
  {
    columns.Keys == Opened(lines, k) && forall table :: ColumnsOf(columns, table) == Listed(lines, table, k)
  }

  lemma CurrentOwns(lines: seq<Line>, k: nat, current: Option<string>, table: string)
    requires k < |lines| && IsCurrent(lines, k, current)
    ensures IsColumn(lines, k, table) <==> lines[k].column.Some? && !lines[k].closes && current == Some(table)
  {
    if current.Some? {
      var g :| 0 <= g < k && Inside(lines, g, k) && lines[g].create == current;
      forall h | 0 <= h < k && h != g ensures !Inside(lines, h, k) {
        if g < h { OneIsOpen(lines, g, h, k); } else { OneIsOpen(lines, h, g, k); }
      }
    }
  }

  function NextTable(line: Line, current: Option<string>): Option<string> {
    if current == None then line.create else if line.closes then None else current
  }

  /** One more line. */
  lemma NextCurrent(lines: seq<Line>, k: nat, current: Option<string>)
    requires k < |lines| && IsCurrent(lines, k, current)
    ensures Opens(lines, k) <==> current == None && lines[k].create.Some?
    ensures IsCurrent(lines, k + 1, NextTable(lines[k], current))
  {
    var n := k + 1;
    forall h | 0 <= h < k ensures Inside(lines, h, n) <==> Inside(lines, h, k) && !lines[k].closes {
      assert NoneCloses(lines, h + 1, n) <==> NoneCloses(lines, h + 1, k) && !lines[k].closes;
    }
    assert Inside(lines, k, n) <==> Opens(lines, k);
    if current.Some? {
      var g :| 0 <= g < k && Inside(lines, g, k) && lines[g].create == current;
      assert !Opens(lines, k);
      assert Inside(lines, g, n) <==> !lines[k].closes;
    } else {
      assert Opens(lines, k) <==> lines[k].create.Some?;
    }
    if NextTable(lines[k], current) == None {
      forall h | 0 <= h < n ensures !Inside(lines, h, n) { assert h == k ==> !Opens(lines, k); }
    }
  }

  lemma OpenedMore(lines: seq<Line>, k: nat)
    requires k < |lines|
    ensures Opened(lines, k + 1)
         == Opened(lines, k) + if Opens(lines, k) then {lines[k].create.value} else {}
  {
    forall t ensures t in Opened(lines, k + 1) <==>
                     t in Opened(lines, k) || (Opens(lines, k) && t == lines[k].create.value)
    {
      if t in Opened(lines, k + 1) {
        var h :| 0 <= h < k + 1 && Opens(lines, h) && lines[h].create.value == t;
      }
      if Opens(lines, k) && t == lines[k].create.value { assert 0 <= k < k + 1; }
    }
  }

  /** What a line makes of the columns so far. */
  function NextColumns(line: Line, current: Option<string>, columns: Columns): Columns {
    if current == None then
      if line.create == None then columns else columns[line.create.value := ColumnsOf(columns, line.create.value)]
    else if line.closes || line.column == None then columns
    else columns[current.value := ColumnsOf(columns, current.value) + [line.column.value]]
  }

  lemma ListedMore(lines: seq<Line>, k: nat, current: Option<string>, columns: Columns, table: string)
    requires k < |lines| && IsCurrent(lines, k, current) && ColumnsOf(columns, table) == Listed(lines, table, k)
    ensures ColumnsOf(NextColumns(lines[k], current, columns), table) == Listed(lines, table, k + 1)
  {
    CurrentOwns(lines, k, current, table);
  }

  lemma KeysMore(lines: seq<Line>, k: nat, current: Option<string>, columns: Columns)
    requires k < |lines| && IsCurrent(lines, k, current) && columns.Keys == Opened(lines, k)
    ensures NextColumns(lines[k], current, columns).Keys == Opened(lines, k + 1)
  {
    NextCurrent(lines, k, current);
    OpenedMore(lines, k);
    if current.Some? {
      var h :| 0 <= h < k && Inside(lines, h, k) && lines[h].create == current;
      assert Opens(lines, h) && current.value in Opened(lines, k);
    }
  }

  lemma ScannedMore(lines: seq<Line>, k: nat, current: Option<string>, columns: Columns)
    requires k < |lines| && IsCurrent(lines, k, current) && IsScanned(lines, k, columns)
    ensures IsScanned(lines, k + 1, NextColumns(lines[k], current, columns))
  {
    var next := NextColumns(lines[k], current, columns);
    KeysMore(lines, k, current, columns);
    forall table ensures ColumnsOf(next, table) == Listed(lines, table, k + 1) {
      assert ColumnsOf(columns, table) == Listed(lines, table, k);
      ListedMore(lines, k, current, columns, table);
    }
  }

  /** The scan has come to line `k`. */
  ghost predicate IsAt(lines: seq<Line>, k: nat, current: Option<string>, columns: Columns) {
    k <= |lines| && IsCurrent(lines, k, current) && IsScanned(lines, k, columns)
  }

  lemma Advance(lines: seq<Line>, k: nat, current: Option<string>, columns: Columns)
    requires k < |lines| && IsAt(lines, k, current, columns)
    ensures IsAt(lines, k + 1, NextTable(lines[k], current), NextColumns(lines[k], current, columns))
  {
    NextCurrent(lines, k, current);
    ScannedMore(lines, k, current, columns);
  }

  lemma AtStart(lines: seq<Line>)
    ensures IsAt(lines, 0, None, map[])
  {
  }

  method ColumnsByTable(lines: seq<Line>) returns (columns: Columns)
    ensures columns == TableColumns(lines)
  {
    columns := map[];
    var current: Option<string> := None;
    AtStart(lines);
    for k := 0 to |lines|
      invariant IsAt(lines, k, current, columns)
    {
      Advance(lines, k, current, columns);
      if current.Some? {
        if lines[k].closes {
          current := None;
          continue;
        }
        if lines[k].column.Some? {
          var table := current.value;
          columns := columns[table := (if table in columns then columns[table] else []) + [lines[k].column.value]];
        }
        continue;
      }
      if lines[k].create.Some? {
        current := lines[k].create;
        columns := columns[current.value := if current.value in columns then columns[current.value] else []];
      }
    }
    ScannedIsTable(lines, columns);
  }

  lemma ScannedIsTable(lines: seq<Line>, columns: Columns)
    requires IsScanned(lines, |lines|, columns)
    ensures columns == TableColumns(lines)
  {
    forall table | table in columns ensures columns[table] == TableColumns(lines)[table] {
      assert ColumnsOf(columns, table) == Listed(lines, table, |lines|);
    }
  }

  // ----- one dump

  /** What one line becomes: its text, its rows, and the kinds it counts. */
  datatype Piece = Piece(text: string, rows: nat, kinds: multiset<string>)

  function ProcessLine(line: Line, schema: string, columns: Columns, tools: Tools): Piece {
    if line.insert == None || ColumnsOf(columns, line.insert.value.0) == [] then Piece(line.raw, 0, multiset{})
    else
      var (table, payload) := line.insert.value;
      var names := columns[table];
      var decisions := Decisions(tools.config, schema, table, names);
      var rewritten := Rewrite(names, decisions, payload, tools.hint, tools.py);
      Piece("INSERT INTO `" + table + "` VALUES " + rewritten.text + ";\n", rewritten.rows,
            KindsOf(names, decisions, payload, tools.py))
  }

  /** The kinds counted while rewriting a payload. */
  function KindsOf(names: seq<string>, decisions: seq<Decision>, payload: string, py: Python): multiset<string>
    requires |names| == |decisions|
  {
    if NothingRedacted(decisions) then multiset{}
    else RowKinds(|names|, Kinds(decisions), ReadRows(payload, py))
  }

  /** Two pieces in a row. */
  function Both(a: Piece, b: Piece): Piece {
    Piece(a.text + b.text, a.rows + b.rows, a.kinds + b.kinds)
  }

  function ProcessLines(lines: seq<Line>, schema: string, columns: Columns, tools: Tools): Piece {
    if lines == [] then Piece("", 0, multiset{})
    else Both(ProcessLines(lines[..|lines| - 1], schema, columns, tools),
              ProcessLine(lines[|lines| - 1], schema, columns, tools))
  }

  lemma ProcessSnoc(lines: seq<Line>, k: nat, schema: string, columns: Columns, tools: Tools)
    requires k < |lines|
    ensures ProcessLines(lines[..k + 1], schema, columns, tools)
         == Both(ProcessLines(lines[..k], schema, columns, tools), ProcessLine(lines[k], schema, columns, tools))
  {
    assert lines[..k + 1][..k] == lines[..k] && lines[..k + 1][k] == lines[k];
  }

  function Process(dump: Dump, tools: Tools): Piece {
    ProcessLines(dump.lines, tools.schemaOf(dump.name), TableColumns(dump.lines), tools)
  }

  function Plus(a: Counts, b: Counts): Counts {
    map k | k in a.Keys + b.Keys :: (if k in a then a[k] else 0) + (if k in b then b[k] else 0)
  }

  /** `for k, v in more.items(): counts[k] += v`. */
  method AddCounts(counts: Counts, more: Counts) returns (sum: Counts)
    ensures sum == Plus(counts, more)
  {
    sum := counts;
    var rest := more.Keys;
    while rest != {}
      invariant rest <= more.Keys
      invariant sum.Keys == counts.Keys + (more.Keys - rest)
      invariant forall k :: k in sum ==>
        sum[k] == (if k in counts then counts[k] else 0) + (if k in more && k !in rest then more[k] else 0)
      decreases rest
    {
      var k :| k in rest;
      sum := Bump(sum, k, more[k]);
      rest := rest - {k};
    }
  }

  lemma PlusTally(a: multiset<string>, b: multiset<string>)
    ensures Plus(Tally(a), Tally(b)) == Tally(a + b)
  {
    assert forall k :: k in a + b <==> k in a || k in b;
  }

  /** Rewrites a dump, without yet writing the result. */
  method ProcessDump(dump: Dump, tools: Tools) returns (text: string, rows: nat, counts: Counts)
    ensures text == Process(dump, tools).text && rows == Process(dump, tools).rows
    ensures counts == Tally(Process(dump, tools).kinds)
    ensures exists kinds :: DumpBecomes(dump.lines, tools.schemaOf(dump.name), TableColumns(dump.lines), tools,
                                        Piece(text, rows, kinds))
                            && forall kind :: kinds[kind] == if kind in counts then counts[kind] else 0
  {
    ProcessIs(dump, tools);
    assert Process(dump, tools) == Piece(Process(dump, tools).text, Process(dump, tools).rows,
                                         Process(dump, tools).kinds);
    var columns := ColumnsByTable(dump.lines);
    text, rows, counts := ProcessAll(dump.lines, tools.schemaOf(dump.name), columns, tools);
  }

  /** The loop over the lines. */
  method ProcessAll(lines: seq<Line>, schema: string, columns: Columns, tools: Tools)
    returns (text: string, rows: nat, counts: Counts)
    ensures var all := ProcessLines(lines, schema, columns, tools);
      text == all.text && rows == all.rows && counts == Tally(all.kinds)
  {
    text, rows, counts := "", 0, map[];
    ghost var done := Piece("", 0, multiset{});
    assert Tally(multiset{}) == map[];
    for k := 0 to |lines|
      invariant ProcessLines(lines[..k], schema, columns, tools) == done
      invariant text == done.text && rows == done.rows && counts == Tally(done.kinds)
    {
      var line := lines[k];
      ghost var piece := ProcessLine(line, schema, columns, tools);
      ProcessSnoc(lines, k, schema, columns, tools);
      if line.insert == None || line.insert.value.0 !in columns || columns[line.insert.value.0] == [] {
        RawLine(done, line, schema, columns, tools);
        text := text + line.raw;
      } else {
        var insert, rewritten;
        insert, rewritten, counts := RewriteInsert(line, schema, columns, tools, counts, done.kinds);
        rows := rows + rewritten;
        text := text + insert;
      }
      done := Both(done, piece);
    }
    assert lines[..|lines|] == lines;
  }

  /** Any other line is copied and counts nothing. */
  lemma RawLine(done: Piece, line: Line, schema: string, columns: Columns, tools: Tools)
    requires line.insert == None || ColumnsOf(columns, line.insert.value.0) == []
    ensures Both(done, ProcessLine(line, schema, columns, tools)) == done.(text := done.text + line.raw)
  {
    assert done.kinds + multiset{} == done.kinds;
  }

  /** The body of that loop for an INSERT line of a known table. */
  method RewriteInsert(line: Line, schema: string, columns: Columns, tools: Tools, before: Counts,
                       ghost kinds: multiset<string>)
    returns (text: string, rows: nat, counts: Counts)
    requires line.insert.Some? && line.insert.value.0 in columns && columns[line.insert.value.0] != []
    requires before == Tally(kinds)
    ensures var piece := ProcessLine(line, schema, columns, tools);
      text == piece.text && rows == piece.rows && counts == Tally(kinds + piece.kinds)
  {
    var (table, payload) := line.insert.value;
    var r := RewriteValues(schema, table, columns[table], payload, tools.config, tools.hint, tools.py);
    ghost var decisions := Decisions(tools.config, schema, table, columns[table]);
    PlusTally(kinds, KindsOf(columns[table], decisions, payload, tools.py));
    counts := AddCounts(before, r.counts);
    rows := r.rows;
    text := "INSERT INTO `" + table + "` VALUES " + r.text + ";\n";
  }

  // ----- what a dump becomes, line by line

  /** The decisions on the columns of a table. */
  ghost predicate AreDecisions(decisions: seq<Decision>, schema: string, table: string, names: seq<string>,
                               config: Config)
  {
    |decisions| == |names| && forall i :: 0 <= i < |names| ==> decisions[i] == Decide(config, schema, table, names[i])
  }

  /** An INSERT line of a table whose columns are known becomes an INSERT into the same table with the rewritten
      payload, and counts the rows read and the redacted cells; any other line stays. */
  ghost predicate LineBecomes(line: Line, schema: string, columns: Columns, tools: Tools, text: string, rows: nat,
                              kinds: multiset<string>)
  {
    if line.insert.Some? && line.insert.value.0 in columns && columns[line.insert.value.0] != [] then
      var (table, payload) := line.insert.value;
      exists payload', decisions ::
        AreDecisions(decisions, schema, table, columns[table], tools.config)
        && PayloadBecomes(columns[table], decisions, payload, payload', tools.hint, tools.py)
        && text == "INSERT INTO `" + table + "` VALUES " + payload' + ";\n"
        && rows == |ReadRows(payload, tools.py)|
        && forall kind :: kinds[kind] == |CellsOfKind(decisions, ReadRows(payload, tools.py), kind)|
    else text == line.raw && rows == 0 && kinds == multiset{}
  }

  lemma NothingIsCounted(decisions: seq<Decision>, rows: seq<Row>, kind: string)
    requires NothingRedacted(decisions)
    ensures CellsOfKind(decisions, rows, kind) == {}
  {
  }

  lemma LineBecomesPiece(line: Line, schema: string, columns: Columns, tools: Tools)
    ensures var p := ProcessLine(line, schema, columns, tools);
      LineBecomes(line, schema, columns, tools, p.text, p.rows, p.kinds)
  {
    if line.insert.Some? && ColumnsOf(columns, line.insert.value.0) != [] {
      var (table, payload) := line.insert.value;
      var names, rows := columns[table], ReadRows(payload, tools.py);
      var decisions := Decisions(tools.config, schema, table, names);
      RewriteIs(names, decisions, payload, tools.hint, tools.py);
      forall kind ensures KindsOf(names, decisions, payload, tools.py)[kind] == |CellsOfKind(decisions, rows, kind)| {
        if NothingRedacted(decisions) {
          NothingIsCounted(decisions, rows, kind);
        } else {
          CountsAreCells(decisions, rows, kind);
        }
      }
      assert AreDecisions(decisions, schema, table, names, tools.config);
    }
  }

  function Sum(ns: seq<nat>): nat {
    if ns == [] then 0 else ns[0] + Sum(ns[1..])
  }

  lemma {:induction false} SumSnoc(ns: seq<nat>, n: nat)
    ensures Sum(ns + [n]) == Sum(ns) + n
  {
    if ns == [] {
      assert [n][1..] == [] && [] + [n] == [n];
    } else {
      assert (ns + [n])[1..] == ns[1..] + [n];
      SumSnoc(ns[1..], n);
    }
  }

  /** One text, one number of rows and one bag of counted kinds for each line, in order. */
  ghost predicate LinesBecome(lines: seq<Line>, schema: string, columns: Columns, tools: Tools, texts: seq<string>,
                              rows: seq<nat>, kinds: seq<multiset<string>>)
  {
    |texts| == |rows| == |kinds| == |lines|
    && forall i :: 0 <= i < |lines| ==>
         LineBecomes(lines[i], schema, columns, tools, texts[i], rows[i], kinds[i])
  }

  function KindCounts(kinds: seq<multiset<string>>, kind: string): (counts: seq<nat>)
    ensures |counts| == |kinds| && forall i :: 0 <= i < |kinds| ==> counts[i] == kinds[i][kind]
  {
    seq(|kinds|, i requires 0 <= i < |kinds| => kinds[i][kind])
  }

  /** A dump becomes the texts of its lines, one after the other; rows and counters are the totals. */
  ghost predicate DumpBecomes(lines: seq<Line>, schema: string, columns: Columns, tools: Tools, all: Piece) {
    exists texts, rows, kinds ::
      LinesBecome(lines, schema, columns, tools, texts, rows, kinds) && AddUp(all, texts, rows, kinds)
  }

  ghost predicate AddUp(all: Piece, texts: seq<string>, rows: seq<nat>, kinds: seq<multiset<string>>) {
    all.text == Flatten(texts) && all.rows == Sum(rows)
    && forall kind :: all.kinds[kind] == Sum(KindCounts(kinds, kind))
  }

  lemma KindsMore(kinds: seq<multiset<string>>, more: multiset<string>, kind: string)
    ensures Sum(KindCounts(kinds + [more], kind)) == Sum(KindCounts(kinds, kind)) + more[kind]
  {
    assert KindCounts(kinds + [more], kind) == KindCounts(kinds, kind) + [more[kind]];
    SumSnoc(KindCounts(kinds, kind), more[kind]);
  }

  lemma AddUpMore(all: Piece, p: Piece, texts: seq<string>, rows: seq<nat>, kinds: seq<multiset<string>>)
    requires AddUp(all, texts, rows, kinds)
    ensures AddUp(Both(all, p), texts + [p.text], rows + [p.rows], kinds + [p.kinds])
  {
    FlattenSnoc(texts, p.text);
    SumSnoc(rows, p.rows);
    forall kind ensures Both(all, p).kinds[kind] == Sum(KindCounts(kinds + [p.kinds], kind)) {
      KindsMore(kinds, p.kinds, kind);
    }
  }

  lemma {:induction false} PiecesAddUp(lines: seq<Line>, schema: string, columns: Columns, tools: Tools)
    returns (texts: seq<string>, rows: seq<nat>, kinds: seq<multiset<string>>)
    ensures |texts| == |rows| == |kinds| == |lines|
    ensures forall i :: 0 <= i < |lines| ==>
      Piece(texts[i], rows[i], kinds[i]) == ProcessLine(lines[i], schema, columns, tools)
    ensures AddUp(ProcessLines(lines, schema, columns, tools), texts, rows, kinds)
  {
    if lines == [] {
      texts, rows, kinds := [], [], [];
    } else {
      var before, p := lines[..|lines| - 1], ProcessLine(lines[|lines| - 1], schema, columns, tools);
      texts, rows, kinds := PiecesAddUp(before, schema, columns, tools);
      AddUpMore(ProcessLines(before, schema, columns, tools), p, texts, rows, kinds);
      texts, rows, kinds := texts + [p.text], rows + [p.rows], kinds + [p.kinds];
    }
  }

  /** What a whole dump becomes. */
  lemma ProcessIs(dump: Dump, tools: Tools)
    ensures DumpBecomes(dump.lines, tools.schemaOf(dump.name), TableColumns(dump.lines), tools, Process(dump, tools))
  {
    var schema, columns := tools.schemaOf(dump.name), TableColumns(dump.lines);
    var texts, rows, kinds := PiecesAddUp(dump.lines, schema, columns, tools);
    forall i | 0 <= i < |dump.lines|
      ensures LineBecomes(dump.lines[i], schema, columns, tools, texts[i], rows[i], kinds[i])
    {
      LineBecomesPiece(dump.lines[i], schema, columns, tools);
    }
    assert LinesBecome(dump.lines, schema, columns, tools, texts, rows, kinds);
  }

  // ----- two runs

  /** Lines that differ at most in redacted cells: the same line, or INSERT lines into a table with a redacted column
      whose rows are pairwise alike. */
  ghost predicate AlikeLines(a: Line, b: Line, schema: string, columns: Columns, tools: Tools) {
    a == b
    || (a.create == b.create && a.column == b.column && a.closes == b.closes && a.insert.Some? && b.insert.Some?
        && a.insert.value.0 == b.insert.value.0 && ColumnsOf(columns, a.insert.value.0) != []
        && AlikePayloads(Decisions(tools.config, schema, a.insert.value.0, columns[a.insert.value.0]),
                         a.insert.value.1, b.insert.value.1, tools.py))
  }

  predicate AlikePayloads(decisions: seq<Decision>, p: string, q: string, py: Python) {
    !NothingRedacted(decisions) && AlikeRows(decisions, ReadRows(p, py), ReadRows(q, py))
  }

  lemma AlikePayloadsCountAlike(names: seq<string>, decisions: seq<Decision>, p: string, q: string, py: Python)
    requires |names| == |decisions| && AlikePayloads(decisions, p, q, py)
    ensures KindsOf(names, decisions, p, py) == KindsOf(names, decisions, q, py)
  {
    var a, b := ReadRows(p, py), ReadRows(q, py);
    forall i | 0 <= i < |a| ensures |a[i]| == |b[i]| { assert Alike(decisions, a[i], b[i]); }
    SameWidthsCountAlike(|names|, Kinds(decisions), a, b);
  }

  lemma AlikeLinesComeOutAlike(a: Line, b: Line, schema: string, columns: Columns, tools: Tools)
    requires AlikeLines(a, b, schema, columns, tools)
    ensures ProcessLine(a, schema, columns, tools) == ProcessLine(b, schema, columns, tools)
  {
    if a != b {
      var table, p, q := a.insert.value.0, a.insert.value.1, b.insert.value.1;
      var decisions := Decisions(tools.config, schema, table, columns[table]);
      AlikePayloadsCountAlike(columns[table], decisions, p, q, tools.py);
      RedactedCellsDoNotShow(columns[table], decisions, p, q, tools.hint, tools.py);
    }
  }

  lemma {:induction false} AlikeLinesProcessAlike(a: seq<Line>, b: seq<Line>, schema: string, columns: Columns,
                                                  tools: Tools)
    requires |a| == |b| && forall i :: 0 <= i < |a| ==> AlikeLines(a[i], b[i], schema, columns, tools)
    ensures ProcessLines(a, schema, columns, tools) == ProcessLines(b, schema, columns, tools)
  {
    if a != [] {
      var n := |a| - 1;
      AlikeLinesProcessAlike(a[..n], b[..n], schema, columns, tools);
      AlikeLinesComeOutAlike(a[n], b[n], schema, columns, tools);
    }
  }

  predicate SameHeaders(a: seq<Line>, b: seq<Line>) {
    |a| == |b| && forall i :: 0 <= i < |a| ==>
      a[i].create == b[i].create && a[i].column == b[i].column && a[i].closes == b[i].closes
  }

  lemma {:induction false} SameHeadersOpenAlike(a: seq<Line>, b: seq<Line>, i: nat)
    requires SameHeaders(a, b) && i < |a|
    ensures Opens(a, i) <==> Opens(b, i)
    decreases i
  {
    forall h | 0 <= h < i ensures Inside(a, h, i) <==> Inside(b, h, i) { SameHeadersOpenAlike(a, b, h); }
  }

  lemma SameHeadersSameOwners(a: seq<Line>, b: seq<Line>, j: nat, table: string)
    requires SameHeaders(a, b) && j < |a|
    ensures IsColumn(a, j, table) <==> IsColumn(b, j, table)
  {
    forall h | 0 <= h < j ensures Inside(a, h, j) <==> Inside(b, h, j) { SameHeadersOpenAlike(a, b, h); }
  }

  lemma {:induction false} SameHeadersListAlike(a: seq<Line>, b: seq<Line>, table: string, k: nat)
    requires SameHeaders(a, b) && k <= |a|
    ensures Listed(a, table, k) == Listed(b, table, k)
  {
    if k > 0 {
      SameHeadersListAlike(a, b, table, k - 1);
      SameHeadersSameOwners(a, b, k - 1, table);
    }
  }

  lemma SameHeadersSameColumns(a: seq<Line>, b: seq<Line>)
    requires SameHeaders(a, b)
    ensures TableColumns(a) == TableColumns(b)
  {
    forall i | 0 <= i < |a| ensures Opens(a, i) <==> Opens(b, i) { SameHeadersOpenAlike(a, b, i); }
    forall table ensures Listed(a, table, |a|) == Listed(b, table, |b|) { SameHeadersListAlike(a, b, table, |a|); }
    assert Opened(a, |a|) == Opened(b, |b|);
  }

  /** Nothing of a redacted cell gets out of a dump: dumps that differ only in such cells are rewritten to the same
      text, with the same row count and counters, so a bundle of them has the same files and the same manifest. */
  lemma AlikeDumpsComeOutAlike(a: Dump, b: Dump, tools: Tools)
    requires a.name == b.name && |a.lines| == |b.lines|
    requires forall i :: 0 <= i < |a.lines| ==>
      AlikeLines(a.lines[i], b.lines[i], tools.schemaOf(a.name), TableColumns(a.lines), tools)
    ensures Process(a, tools) == Process(b, tools)
  {
    var columns := TableColumns(a.lines);
    forall i | 0 <= i < |a.lines|
      ensures a.lines[i].create == b.lines[i].create && a.lines[i].column == b.lines[i].column
      ensures a.lines[i].closes == b.lines[i].closes
    {
      assert AlikeLines(a.lines[i], b.lines[i], tools.schemaOf(a.name), columns, tools);
    }
    SameHeadersSameColumns(a.lines, b.lines);
    AlikeLinesProcessAlike(a.lines, b.lines, tools.schemaOf(a.name), columns, tools);
  }

  // ----- counters

  /** The kinds a payload counts: (redacted columns) x (full-width rows). */
  lemma PayloadCounters(names: seq<string>, decisions: seq<Decision>, payload: string, py: Python)
    requires |names| == |decisions|
    ensures |KindsOf(names, decisions, payload, py)| == |Kinds(decisions)| * FullRows(|names|, ReadRows(payload, py))
  {
    if NothingRedacted(decisions) {
      NothingCounts(decisions);
    } else {
      CountersAddUp(|names|, Kinds(decisions), ReadRows(payload, py));
    }
  }

  lemma {:induction false} NothingCounts(decisions: seq<Decision>)
    requires NothingRedacted(decisions)
    ensures Kinds(decisions) == multiset{}
  {
    if decisions != [] {
      NothingCounts(decisions[..|decisions| - 1]);
    }
  }
}

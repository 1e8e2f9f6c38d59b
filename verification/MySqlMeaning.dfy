/** What a VALUES payload means to MySQL, against what the dump reader of zw_brain/adapters/legacy/parser.py (lines
    97-162) makes of it.
    - the meaning: strings as in section 9.1.1 of the MySQL 5.7 Reference Manual, NULL, integers, and the tuples and
      lists of tuples made of them; any other text has none;
    - what can be seen on the text: strings that another string follows, and the escapes `\%` and `\_`;
    - how far the reading of a string, a cell, a tuple and a payload is off from its meaning, counted in these;
    - hence when the two agree. */
module MySqlMeaning {
  import opened Text
  import opened SqlValues
  import opened DumpReader
  import opened RoundTrip

  // ----- the meaning of a payload

  /** What a backslash and the character after it mean. */
  function Meant(c: char): string {
    match c
    case '0' => [0 as char]
    case 'b' => [8 as char]
    case 'n' => [10 as char]
    case 'r' => [13 as char]
    case 't' => [9 as char]
    case 'Z' => [26 as char]
    case '%' => "\\%"
    case '_' => "\\_"
    case _ => [c]
  }

  function Prepend(s: string, r: Option<(string, string)>): (r': Option<(string, string)>)
    ensures r'.Some? <==> r.Some?
    ensures r.Some? ==> r'.value == (s + r.value.0, r.value.1)
  {
    if r.Some? then Some((s + r.value.0, r.value.1)) else None
  }

  predicate QuoteNext(t: string) {
    SkipBlanks(t) != "" && SkipBlanks(t)[0] == '\''
  }

  /** The rest of a string after its opening quote: a doubled quote is a quote, strings next to each other are one. */
  function StringMeaning(t: string): (r: Option<(string, string)>)
    ensures r.Some? ==> |r.value.1| < |t|
    decreases |t|
  {
    if t == "" then None
    else if t[0] == '\\' then if |t| > 1 then Prepend(Meant(t[1]), StringMeaning(t[2..])) else None
    else if t[0] == '\'' then
      if !QuoteNext(t[1..]) then Some(("", t[1..]))
      else Prepend(if t[1] == '\'' then "'" else "", StringMeaning(SkipBlanks(t[1..])[1..]))
    else Prepend([t[0]], StringMeaning(t[1..]))
  }

  /** Blanks around a number are the only space that a payload has. */
  function IntegerMeaning(raw: string): Option<int> {
    var token := Strip(raw);
    if exists i :: 0 <= i < |raw| && !IsDigit(raw[i]) && raw[i] != '-' && !IsBlank(raw[i]) then None
    else if AllDigits(token) then Some(DecimalValue(token))
    else if token != "" && token[0] == '-' && AllDigits(token[1..]) then Some(0 - DecimalValue(token[1..]))
    else None
  }

  /** `NULL` and, behind blanks, what ends a cell. */
  predicate NullMeant(t: string) {
    "NULL" <= t && (SkipBlanks(t[4..]) == "" || SkipBlanks(t[4..])[0] == ',' || SkipBlanks(t[4..])[0] == ')')
  }

  lemma NullIsRead(t: string)
    requires NullMeant(t)
    ensures NullHere(t)
  {
    if |t| > 4 && !IsBlank(t[4]) { assert SkipBlanks(t[4..]) == t[4..]; }
  }

  function CellMeaning(t: string): (r: Option<(Value, string)>)
    ensures r.Some? ==> |r.value.1| <= |t|
  {
    if t != "" && t[0] == '\'' then
      var s := StringMeaning(t[1..]);
      if s.Some? then Some((Str(s.value.0), s.value.1)) else None
    else if NullMeant(t) then Some((Null, t[4..]))
    else
      var k := TokenLength(t);
      var n := IntegerMeaning(t[..k]);
      if n.Some? then Some((Int(n.value), t[k..])) else None
  }

  /** One or more comma-separated cells and the closing parenthesis. */
  function CellsMeaning(t: string): (r: Option<(Row, string)>)
    ensures r.Some? ==> |r.value.1| <= |t|
    decreases |t|
  {
    var cell := CellMeaning(SkipBlanks(t));
    if cell == None then None
    else
      var rest := SkipBlanks(cell.value.1);
      if rest == "" then None
      else if rest[0] == ')' then Some(([cell.value.0], rest[1..]))
      else if rest[0] != ',' then None
      else
        var more := CellsMeaning(rest[1..]);
        if more.Some? then Some(([cell.value.0] + more.value.0, more.value.1)) else None
  }

  function TupleMeaning(t: string): (r: Option<(Row, string)>)
    ensures r.Some? ==> |r.value.1| <= |t|
  {
    var u := SkipBlanks(t);
    if u != "" && u[0] == ')' then Some(([], u[1..])) else CellsMeaning(t)
  }

  /** The rows of a payload, or nothing when it is no list of tuples. */
  function RowsMeaning(t: string): Option<seq<Row>>
    decreases |t|
  {
    var u := SkipBlanks(t);
    if u == "" || u[0] != '(' || TupleMeaning(u[1..]) == None then None
    else
      var row, rest := TupleMeaning(u[1..]).value.0, SkipBlanks(TupleMeaning(u[1..]).value.1);
      if rest == "" then Some([row])
      else if rest[0] != ',' then None
      else
        var more := RowsMeaning(rest[1..]);
        if more.Some? then Some([row] + more.value) else None
  }

  // ----- what can be seen on the text

  /** How many strings are followed, but for blanks, by another; `inside` says whether the text starts in a string. */
  function Rejoins(t: string, inside: bool): nat
    decreases |t|
  {
    if t == "" then 0
    else if !inside then Rejoins(t[1..], t[0] == '\'')
    else if t[0] == '\\' && |t| > 1 then Rejoins(t[2..], true)
    else if t[0] == '\'' then (if QuoteNext(t[1..]) then 1 else 0) + Rejoins(t[1..], false)
    else Rejoins(t[1..], true)
  }

  /** How many times `\%` or `\_` stands in a string. */
  function Patterns(t: string, inside: bool): nat
    decreases |t|
  {
    if t == "" then 0
    else if !inside then Patterns(t[1..], t[0] == '\'')
    else if t[0] == '\\' && |t| > 1 then (if t[1] == '%' || t[1] == '_' then 1 else 0) + Patterns(t[2..], true)
    else if t[0] == '\'' then Patterns(t[1..], false)
    else Patterns(t[1..], true)
  }

  lemma {:induction false} QuietText(t: string, k: nat)
    requires k <= |t| && forall i :: 0 <= i < k ==> t[i] != '\''
    ensures Rejoins(t, false) == Rejoins(t[k..], false) && Patterns(t, false) == Patterns(t[k..], false)
    decreases k
  {
    if k > 0 {
      QuietText(t[1..], k - 1);
      assert t[1..][k - 1..] == t[k..];
    } else {
      assert t[0..] == t;
    }
  }

  lemma {:induction false} QuietBlanks(t: string)
    ensures Rejoins(t, false) == Rejoins(SkipBlanks(t), false) && Patterns(t, false) == Patterns(SkipBlanks(t), false)
  {
    if t != "" && IsBlank(t[0]) { QuietBlanks(t[1..]); }
  }

  // ----- what the reader makes of one string

  /** The cells that the reader makes of a string: it starts a new one at every quote that is not escaped. */
  function SplitCells(t: string): (cells: Row)
    ensures cells != [] && forall i :: 0 <= i < |cells| ==> cells[i].Str?
    decreases |t|
  {
    var s := ReadString(t);
    [Str(s.0)] + if QuoteNext(s.1) then SplitCells(SkipBlanks(s.1)[1..]) else []
  }

  function SplitRest(t: string): string
    decreases |t|
  {
    var s := ReadString(t);
    if QuoteNext(s.1) then SplitRest(SkipBlanks(s.1)[1..]) else s.1
  }

  lemma {:induction false} StringReadsSplit(t: string, py: Python)
    ensures ReadCells("'" + t, py) == Onto(SplitCells(t), ReadCells(AfterCell(SplitRest(t)), py))
    decreases |t|
  {
    var s := ReadString(t);
    QuotedCell(t, py);
    OneCell("'" + t, Str(s.0), s.1, py);
    if QuoteNext(s.1) {
      var u := SkipBlanks(s.1);
      assert AfterCell(s.1) == u == "'" + u[1..];
      StringReadsSplit(u[1..], py);
      OntoFirst(Str(s.0), SplitCells(u[1..]), ReadCells(AfterCell(SplitRest(t)), py));
    } else {
      assert SplitCells(t) == [Str(s.0)] && SplitRest(t) == s.1;
    }
  }

  lemma OntoFirst<T>(x: T, done: seq<T>, rest: (seq<T>, string))
    ensures Onto([x] + done, rest) == ([x] + Onto(done, rest).0, rest.1)
  {
    assert [x] + done + rest.0 == [x] + (done + rest.0);
  }

  // ----- how far a reading is off

  /** What a string means and the cells it is read as, with `d` splits and `p` lost backslashes. */
  predicate StringOff(meant: string, cells: Row, d: int, p: int) {
    d >= 0 && p >= 0 && |cells| == 1 + d && (forall i :: 0 <= i < |cells| ==> cells[i].Str?)
    && (d == 0 ==> |cells[0].s| + p == |meant| && (p == 0 ==> cells[0].s == meant))
  }

  /** The text in front of a string's next character: one more character in the meaning and in the first cell. */
  lemma StringOffMore(v: string, cells: Row, d: int, p: int, c: char, meant: string)
    requires StringOff(v, cells, d, p) && (meant == [c] || |meant| == 2)
    ensures StringOff(meant + v, [Str([c] + cells[0].s)] + cells[1..], d, p + if meant == [c] then 0 else 1)
  {
  }

  /** The cells the reader makes of a string are off by the strings that follow another and the patterns in it. */
  predicate StringAccounted(t: string) {
    StringMeaning(t).Some? ==>
      var (meant, rest) := StringMeaning(t).value;
      SplitRest(t) == rest
      && StringOff(meant, SplitCells(t), Rejoins(t, true) - Rejoins(rest, false),
                   Patterns(t, true) - Patterns(rest, false))
  }

  lemma {:induction false} StringOffBy(t: string)
    ensures StringAccounted(t)
    decreases |t|
  {
    if StringMeaning(t).Some? {
      if t[0] == '\\' {
        StringOffBy(t[2..]);
        PairFirst(t);
      } else if t[0] != '\'' {
        StringOffBy(t[1..]);
        PlainFirst(t);
      } else if QuoteNext(t[1..]) {
        StringOffBy(SkipBlanks(t[1..])[1..]);
        SplitFirst(t);
      } else {
        assert ReadString(t) == ("", t[1..]);
      }
    }
  }

  lemma PairFirst(t: string)
    requires |t| > 1 && t[0] == '\\' && StringAccounted(t[2..])
    ensures StringAccounted(t)
  {
    if StringMeaning(t).Some? {
      var (v, rest) := StringMeaning(t[2..]).value;
      var cells := SplitCells(t[2..]);
      assert ReadString(t) == ([Unescape(t[1])] + ReadString(t[2..]).0, ReadString(t[2..]).1);
      assert SplitCells(t) == [Str([Unescape(t[1])] + cells[0].s)] + cells[1..];
      StringOffMore(v, cells, Rejoins(t[2..], true) - Rejoins(rest, false),
                    Patterns(t[2..], true) - Patterns(rest, false), Unescape(t[1]), Meant(t[1]));
    }
  }

  lemma PlainFirst(t: string)
    requires t != "" && t[0] != '\\' && t[0] != '\'' && StringAccounted(t[1..])
    ensures StringAccounted(t)
  {
    if StringMeaning(t).Some? {
      var (v, rest) := StringMeaning(t[1..]).value;
      var cells := SplitCells(t[1..]);
      assert ReadString(t) == ([t[0]] + ReadString(t[1..]).0, ReadString(t[1..]).1);
      assert SplitCells(t) == [Str([t[0]] + cells[0].s)] + cells[1..];
      StringOffMore(v, cells, Rejoins(t[1..], true) - Rejoins(rest, false),
                    Patterns(t[1..], true) - Patterns(rest, false), t[0], [t[0]]);
    }
  }

  /** A string followed by another: the reader ends a cell where the meaning goes on. */
  lemma SplitFirst(t: string)
    requires t != "" && t[0] == '\'' && QuoteNext(t[1..]) && StringAccounted(SkipBlanks(t[1..])[1..])
    ensures StringAccounted(t)
  {
    if StringMeaning(t).Some? {
      var w := SkipBlanks(t[1..]);
      assert ReadString(t) == ("", t[1..]);
      QuietBlanks(t[1..]);
      assert Rejoins(w, false) == Rejoins(w[1..], true) && Patterns(w, false) == Patterns(w[1..], true);
      assert SplitCells(t) == [Str("")] + SplitCells(w[1..]);
    }
  }

  // ----- cells

  /** The cells that MySQL and the reader know: strings, integers and NULL. */
  predicate Plain(row: Row) {
    forall i :: 0 <= i < |row| ==> !row[i].Float? && !row[i].Bytes?
  }

  predicate NoneHeld(held: seq<int>) {
    forall i :: 0 <= i < |held| ==> held[i] == 0
  }

  /** What a tuple means and the cells it is read as, with `d` splits in all, `p` patterns in all and `held` in each
      cell that is meant. */
  predicate OffBy(meant: Row, read: Row, d: int, p: int, held: seq<int>) {
    d >= 0 && p >= 0 && |read| == |meant| + d && |held| == |meant| && Plain(meant) && Plain(read)
    && (p == 0 <==> NoneHeld(held))
    && (d == 0 ==> forall i :: 0 <= i < |meant| ==>
         (read[i] == Null <==> meant[i] == Null) && (read[i] == meant[i] <==> held[i] == 0))
  }

  lemma OffByCons(v: Value, cells: Row, d: int, p: int, m: Row, r: Row, d': int, p': int, held: seq<int>)
    requires OffBy([v], cells, d, p, [p]) && OffBy(m, r, d', p', held)
    ensures OffBy([v] + m, cells + r, d + d', p + p', [p] + held)
  {
    var all := [p] + held;
    assert all[0] == p && all[1..] == held && [p][0] == p;
    if NoneHeld(all) {
      forall i | 0 <= i < |held| ensures held[i] == 0 { assert all[i + 1] == held[i]; }
    }
    if d + d' == 0 {
      var read, meant := cells + r, [v] + m;
      forall i | 0 <= i < |meant|
        ensures (read[i] == Null <==> meant[i] == Null) && (read[i] == meant[i] <==> all[i] == 0)
      {
        if i > 0 { assert read[i] == r[i - 1] && meant[i] == m[i - 1] && all[i] == held[i - 1]; }
      }
    }
  }

  lemma IntegerReads(raw: string, py: Python)
    requires IntegerMeaning(raw).Some?
    ensures Scalar(Strip(raw), py) == Int(IntegerMeaning(raw).value)
    ensures forall i :: 0 <= i < |raw| ==> raw[i] != '\''
  {
    var token := Strip(raw);
    if AllDigits(token) {
      ScalarOfDigits(token, py);
    } else {
      assert token == "-" + token[1..];
      ScalarOfMinus(token[1..], py);
    }
  }

  /** The patterns of a text up to where its rest starts. */
  function Held(t: string, rest: string): int {
    Patterns(t, false) - Patterns(rest, false)
  }

  function Split(t: string, rest: string): int {
    Rejoins(t, false) - Rejoins(rest, false)
  }

  /** The cells the reader makes of one cell, and the text behind. */
  lemma CellOffBy(t: string, py: Python) returns (cells: Row)
    requires CellMeaning(t).Some? && CellStart(t)
    ensures var (v, rest) := CellMeaning(t).value;
      ReadCells(t, py) == Onto(cells, ReadCells(AfterCell(rest), py))
      && OffBy([v], cells, Split(t, rest), Held(t, rest), [Held(t, rest)])
  {
    if t[0] == '\'' {
      StringOffBy(t[1..]);
      StringReadsSplit(t[1..], py);
      assert t == "'" + t[1..];
      cells := SplitCells(t[1..]);
      var (meant, rest) := StringMeaning(t[1..]).value;
      StringCellOff(meant, cells, Split(t, rest), Held(t, rest));
    } else {
      var (v, rest) := CellMeaning(t).value;
      cells := [v];
      BareCell(t, py);
      OneCell(t, v, rest, py);
      assert [0][0] == 0;
    }
  }

  lemma StringCellOff(meant: string, cells: Row, d: int, p: int)
    requires StringOff(meant, cells, d, p)
    ensures OffBy([Str(meant)], cells, d, p, [p])
  {
    assert [p][0] == p;
  }

  lemma BareCell(t: string, py: Python)
    requires CellMeaning(t).Some? && CellStart(t) && t[0] != '\''
    ensures var (v, rest) := CellMeaning(t).value;
      (v == Null || v.Int?) && ReadCell(t, py) == (v, rest) && Split(t, rest) == 0 && Held(t, rest) == 0
  {
    if NullMeant(t) {
      NullIsRead(t);
      assert "NULL" == t[..4] && "NULL"[0] != '\'' && "NULL"[1] != '\'' && "NULL"[2] != '\'' && "NULL"[3] != '\'';
      QuietText(t, 4);
    } else {
      if "NULL" <= t { NullIsNoNumber(t); }
      IntegerReads(t[..TokenLength(t)], py);
      QuietText(t, TokenLength(t));
    }
  }

  lemma NullIsNoNumber(t: string)
    requires "NULL" <= t
    ensures IntegerMeaning(t[..TokenLength(t)]) == None
  {
    assert t[0] == "NULL"[0] == 'N' && TokenLength(t) > 0;
    assert t[..TokenLength(t)][0] == 'N';
  }

  /** For each cell that is meant, how many patterns stand in its text. */
  function CellsHold(t: string): (held: seq<int>)
    requires CellsMeaning(t).Some?
    decreases |t|
  {
    var u := SkipBlanks(t);
    var behind := CellMeaning(u).value.1;
    var rest := SkipBlanks(behind);
    [Held(u, behind)] + if rest[0] == ')' then [] else CellsHold(rest[1..])
  }

  lemma {:induction false} CellsOffBy(t: string, py: Python)
    requires CellsMeaning(t).Some?
    ensures var (row, rest) := CellsMeaning(t).value;
      ReadCells(t, py).1 == rest && OffBy(row, ReadCells(t, py).0, Split(t, rest), Held(t, rest), CellsHold(t))
    decreases |t|
  {
    var u := SkipBlanks(t);
    QuietBlanks(t);
    MeaningStarts(u);
    var (v, behind) := CellMeaning(u).value;
    var cells := CellOffBy(u, py);
    SameCells(t, py);
    QuietBlanks(behind);
    var rest := SkipBlanks(behind);
    QuietText(rest, 1);
    if rest[0] == ')' {
      CloseCells(rest, py);
      assert AfterCell(behind) == rest && cells + [] == cells;
      assert CellsHold(t) == [Held(u, behind)] && Held(t, rest[1..]) == Held(u, behind);
    } else {
      CellsOffBy(rest[1..], py);
      var (more, after) := CellsMeaning(rest[1..]).value;
      OffByCons(v, cells, Split(u, behind), Held(u, behind), more, ReadCells(rest[1..], py).0,
                Split(rest[1..], after), Held(rest[1..], after), CellsHold(rest[1..]));
    }
  }

  lemma SameCells(t: string, py: Python)
    ensures ReadCells(t, py) == ReadCells(SkipBlanks(t), py)
  {
  }

  lemma MeaningStarts(t: string)
    requires CellMeaning(t).Some? && (t == "" || !IsBlank(t[0]))
    ensures CellStart(t)
  {
    if t == "" || t[0] == ')' { NoCellMeant(t); }
  }

  lemma NoCellMeant(t: string)
    requires t == "" || t[0] == ')'
    ensures CellMeaning(t) == None
  {
    assert t[..TokenLength(t)] == "" && Strip("") == "" && IntegerMeaning("") == None;
    assert t != "" ==> t[0] != "NULL"[0];
  }

  function TupleHolds(t: string): seq<int>
    requires TupleMeaning(t).Some?
  {
    var u := SkipBlanks(t);
    if u != "" && u[0] == ')' then [] else CellsHold(t)
  }

  lemma TupleOffBy(t: string, py: Python)
    requires TupleMeaning(t).Some?
    ensures var (row, rest) := TupleMeaning(t).value;
      ReadCells(t, py).1 == rest && OffBy(row, ReadCells(t, py).0, Split(t, rest), Held(t, rest), TupleHolds(t))
  {
    var u := SkipBlanks(t);
    if u != "" && u[0] == ')' {
      QuietBlanks(t);
      QuietText(u, 1);
      SameCells(t, py);
      CloseCells(u, py);
    } else {
      CellsOffBy(t, py);
    }
  }

  // ----- payloads

  /** For each cell of each row that is meant, how many patterns stand in its text. */
  function PatternsHeld(t: string): seq<seq<int>>
    requires RowsMeaning(t).Some?
    decreases |t|
  {
    var u := SkipBlanks(t);
    var rest := SkipBlanks(TupleMeaning(u[1..]).value.1);
    [TupleHolds(u[1..])] + if rest == "" then [] else PatternsHeld(rest[1..])
  }

  /** The row is read cell by cell, each as it is meant exactly when it holds no pattern, and NULL as NULL. */
  predicate ReadsUpTo(meant: Row, read: Row, held: seq<int>) {
    |read| == |meant| == |held|
    && forall i :: 0 <= i < |meant| ==>
         (read[i] == Null <==> meant[i] == Null) && (read[i] == meant[i] <==> held[i] == 0)
  }

  predicate RowOff(meant: Row, read: Row, held: seq<int>) {
    Plain(meant) && Plain(read) && |held| == |meant| && (|read| == |meant| ==> ReadsUpTo(meant, read, held))
  }

  predicate SameWidths(meant: seq<Row>, read: seq<Row>) {
    |read| == |meant| && forall j :: 0 <= j < |meant| ==> |read[j]| == |meant[j]|
  }

  predicate NoneHeldIn(held: seq<seq<int>>) {
    forall j :: 0 <= j < |held| ==> NoneHeld(held[j])
  }

  predicate RowsOff(meant: seq<Row>, read: seq<Row>, held: seq<seq<int>>) {
    |read| == |meant| == |held| && forall j :: 0 <= j < |meant| ==> RowOff(meant[j], read[j], held[j])
  }

  /** The rows of a payload and what it is read as, with `d` splits and `p` patterns in all. */
  predicate RowsOffBy(meant: seq<Row>, read: seq<Row>, d: int, p: int, held: seq<seq<int>>) {
    d >= 0 && p >= 0 && (d == 0 <==> SameWidths(meant, read)) && (p == 0 <==> NoneHeldIn(held))
    && RowsOff(meant, read, held)
  }

  lemma RowsOffByCons(m: Row, r: Row, d: int, p: int, h: seq<int>, ms: seq<Row>, rs: seq<Row>, d': int, p': int,
                      hs: seq<seq<int>>)
    requires OffBy(m, r, d, p, h) && RowsOffBy(ms, rs, d', p', hs)
    ensures RowsOffBy([m] + ms, [r] + rs, d + d', p + p', [h] + hs)
  {
    SameWidthsCons(m, r, ms, rs);
    NoneHeldCons(h, hs);
    assert |r| == |m| <==> d == 0;
    assert RowOff(m, r, h);
    RowsOffCons(m, r, h, ms, rs, hs);
  }

  lemma SameWidthsCons(m: Row, r: Row, ms: seq<Row>, rs: seq<Row>)
    ensures SameWidths([m] + ms, [r] + rs) <==> |r| == |m| && SameWidths(ms, rs)
  {
    var meant, read := [m] + ms, [r] + rs;
    if SameWidths(meant, read) {
      assert |read[0]| == |meant[0]|;
      forall j | 0 <= j < |ms| ensures |rs[j]| == |ms[j]| { assert read[j + 1] == rs[j] && meant[j + 1] == ms[j]; }
    }
  }

  lemma NoneHeldCons(h: seq<int>, hs: seq<seq<int>>)
    ensures NoneHeldIn([h] + hs) <==> NoneHeld(h) && NoneHeldIn(hs)
  {
    var held := [h] + hs;
    if NoneHeldIn(held) {
      assert NoneHeld(held[0]);
      forall j | 0 <= j < |hs| ensures NoneHeld(hs[j]) { assert held[j + 1] == hs[j]; }
    }
  }

  lemma RowsOffCons(m: Row, r: Row, h: seq<int>, ms: seq<Row>, rs: seq<Row>, hs: seq<seq<int>>)
    requires RowOff(m, r, h) && RowsOff(ms, rs, hs)
    ensures RowsOff([m] + ms, [r] + rs, [h] + hs)
  {
    var meant, read, held := [m] + ms, [r] + rs, [h] + hs;
    forall j | 0 <= j < |meant| ensures RowOff(meant[j], read[j], held[j]) {
      if j > 0 { assert meant[j] == ms[j - 1] && read[j] == rs[j - 1] && held[j] == hs[j - 1]; }
    }
  }

  lemma BlankGap(t: string)
    requires SkipBlanks(t) != "" && SkipBlanks(t)[0] == '('
    ensures SkipGap(t) == SkipBlanks(t)
  {
    BlanksThenGap(t);
  }

  lemma {:induction false} BlanksThenGap(t: string)
    ensures SkipGap(t) == SkipGap(SkipBlanks(t))
  {
    if t != "" && IsBlank(t[0]) { BlanksThenGap(t[1..]); }
  }

  lemma CommaGap(t: string, py: Python)
    requires SkipBlanks(t) != "" && SkipBlanks(t)[0] == ','
    ensures ReadRows(t, py) == ReadRows(SkipBlanks(t)[1..], py)
  {
    BlanksThenGap(t);
  }

  lemma NoMoreRows(t: string, py: Python)
    requires SkipBlanks(t) == ""
    ensures ReadRows(t, py) == []
  {
    BlanksThenGap(t);
  }

  /** The first row of a payload, and the text behind it. */
  lemma FirstRow(t: string, py: Python) returns (row: Row, behind: string, read: Row, held: seq<int>)
    requires RowsMeaning(t).Some?
    ensures SkipBlanks(t) != "" && TupleMeaning(SkipBlanks(t)[1..]) == Some((row, behind))
    ensures held == TupleHolds(SkipBlanks(t)[1..])
    ensures OffBy(row, read, Split(t, behind), Held(t, behind), held)
    ensures ReadRows(t, py) == [read] + ReadRows(behind, py)
  {
    var u := SkipBlanks(t);
    QuietBlanks(t);
    QuietText(u, 1);
    row, behind := TupleMeaning(u[1..]).value.0, TupleMeaning(u[1..]).value.1;
    TupleOffBy(u[1..], py);
    BlankGap(t);
    RowsStep(t, u, behind, py);
    read, held := ReadCells(u[1..], py).0, TupleHolds(u[1..]);
  }

  lemma {:induction false} PayloadOffBy(t: string, py: Python)
    requires RowsMeaning(t).Some?
    ensures RowsOffBy(RowsMeaning(t).value, ReadRows(t, py), Rejoins(t, false), Patterns(t, false), PatternsHeld(t))
    decreases |t|
  {
    var row, behind, read, held := FirstRow(t, py);
    QuietBlanks(behind);
    var rest := SkipBlanks(behind);
    if rest == "" {
      NoMoreRows(behind, py);
      RowsOffByCons(row, read, Split(t, behind), Held(t, behind), held, [], [], 0, 0, []);
    } else {
      QuietText(rest, 1);
      CommaGap(behind, py);
      PayloadOffBy(rest[1..], py);
      RowsOffByCons(row, read, Split(t, behind), Held(t, behind), held, RowsMeaning(rest[1..]).value,
                    ReadRows(rest[1..], py), Rejoins(rest[1..], false), Patterns(rest[1..], false),
                    PatternsHeld(rest[1..]));
    }
  }

  /** The reader reads a text as MySQL does exactly when it is a list of tuples in which no string is followed by
      another and none holds `\%` or `\_`. */
  lemma ReadAsMeantIff(t: string, py: Python)
    ensures RowsMeaning(t) == Some(ReadRows(t, py)) <==>
      RowsMeaning(t).Some? && Rejoins(t, false) == 0 && Patterns(t, false) == 0
  {
    if RowsMeaning(t).Some? {
      PayloadOffBy(t, py);
      SameReading(RowsMeaning(t).value, ReadRows(t, py), Rejoins(t, false), Patterns(t, false), PatternsHeld(t));
    }
  }

  lemma SameReading(meant: seq<Row>, read: seq<Row>, d: int, p: int, held: seq<seq<int>>)
    requires RowsOffBy(meant, read, d, p, held)
    ensures read == meant <==> d == 0 && p == 0
  {
    if d == 0 {
      forall j | 0 <= j < |meant| ensures read[j] == meant[j] <==> NoneHeld(held[j]) {
        assert RowOff(meant[j], read[j], held[j]) && |read[j]| == |meant[j]|;
      }
    }
  }
}

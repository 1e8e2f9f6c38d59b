/** What the dump reader makes of the text that scripts/customer_export.py emits (lines 278-299), and of a text that
    holds anything but blanks and commas between its tuples.
    - strings, numbers and NULL read back as they were printed, one cell at a time;
    - so do tuples and lists of tuples, up to the bytes of hexadecimal literals, which were printed as strings;
    - of any text the tuples before the first garbage are read, and a tuple that the text ends in as far as it goes. */
module RoundTrip {
  import opened Text
  import opened SqlValues
  import opened DumpReader

  /** Python's promise for floats: `repr` gives a float's text, and reading that text gives the same float. */
  ghost predicate ReprReads(py: Python) {
    forall t :: py.float(t).Some? ==> ReprOk(py.float(t).value, py)
  }

  predicate ReprOk(r: string, py: Python) {
    FloatText(r) && py.float(r) == Some(r)
  }

  /** How a cell reads back: the bytes of a hexadecimal literal were printed as a string. */
  function Settled(v: Value): Value {
    if v.Bytes? then Str(v.shown) else v
  }

  function SettledRow(row: Row): (r: Row)
    ensures |r| == |row| && forall i :: 0 <= i < |row| ==> r[i] == Settled(row[i])
  {
    seq(|row|, i requires 0 <= i < |row| => Settled(row[i]))
  }

  function SettledRows(rows: seq<Row>): (r: seq<Row>)
    ensures |r| == |rows| && forall i :: 0 <= i < |rows| ==> r[i] == SettledRow(rows[i])
  {
    seq(|rows|, i requires 0 <= i < |rows| => SettledRow(rows[i]))
  }

  /** A cell as a reader under `py` can give it. */
  predicate CellOk(v: Value, py: Python) {
    v.Float? ==> ReprOk(v.repr, py)
  }

  predicate RowOk(row: Row, py: Python) {
    forall i :: 0 <= i < |row| ==> CellOk(row[i], py)
  }

  predicate RowsOk(rows: seq<Row>, py: Python) {
    forall i :: 0 <= i < |rows| ==> RowOk(rows[i], py)
  }

  lemma {:induction false} CellsReadAreOk(t: string, py: Python)
    requires ReprReads(py)
    ensures RowOk(ReadCells(t, py).0, py)
    decreases |t|
  {
    if SkipBlanks(t) != "" && SkipBlanks(t)[0] != ')' {
      CellsStep(t, py);
      var cell := ReadCell(SkipBlanks(t), py);
      CellsReadAreOk(AfterCell(cell.1), py);
      assert CellOk(cell.0, py);
    }
  }

  /** Whatever the text, the reader gives floats as their `repr`. */
  lemma {:induction false} RowsReadAreOk(t: string, py: Python)
    requires ReprReads(py)
    ensures RowsOk(ReadRows(t, py), py)
    decreases |t|
  {
    var u := SkipGap(t);
    if u != "" && u[0] == '(' {
      CellsReadAreOk(u[1..], py);
      RowsStep(t, u, ReadCells(u[1..], py).1, py);
      RowsReadAreOk(ReadCells(u[1..], py).1, py);
    }
  }

  // ----- strings

  lemma ReadPair(c: char, tail: string)
    ensures ReadString(['\\', c] + tail) == ([Unescape(c)] + ReadString(tail).0, ReadString(tail).1)
  {
    var t := ['\\', c] + tail;
    assert t[0] == '\\' && t[1] == c && t[2..] == tail;
  }

  lemma ReadCode(e: string, c: char, code: char, tail: string)
    requires e == ['\\', code] && Unescape(code) == c
    ensures ReadString(e + tail) == ([c] + ReadString(tail).0, ReadString(tail).1)
  {
    ReadPair(code, tail);
  }

  lemma ReadPlain(c: char, tail: string)
    requires c != '\\' && c != '\''
    ensures ReadString([c] + tail) == ([c] + ReadString(tail).0, ReadString(tail).1)
  {
    var t := [c] + tail;
    assert t[0] == c && t[1..] == tail;
  }

  lemma UnescapeEscaped(c: char, tail: string)
    ensures ReadString(EscapeChar(c) + tail) == ([c] + ReadString(tail).0, ReadString(tail).1)
  {
    var e := EscapeChar(c);
    if c == '\n' { ReadCode(e, c, 'n', tail); }
    else if c == '\r' { ReadCode(e, c, 'r', tail); }
    else if c == '\t' { ReadCode(e, c, 't', tail); }
    else if c == '\0' { ReadCode(e, c, '0', tail); }
    else if c == '\\' || c == '\'' { ReadCode(e, c, c, tail); }
    else { ReadPlain(c, tail); }
  }

  lemma {:induction false} ReadEscaped(s: string, tail: string)
    ensures ReadString(EscapeEach(s) + "'" + tail) == (s, tail)
  {
    if s == "" {
      assert EscapeEach(s) + "'" + tail == "'" + tail && ("'" + tail)[1..] == tail;
    } else {
      ReadEscaped(s[1..], tail);
      UnescapeEscaped(s[0], EscapeEach(s[1..]) + "'" + tail);
      assert EscapeEach(s) + "'" + tail == EscapeChar(s[0]) + (EscapeEach(s[1..]) + "'" + tail);
      assert [s[0]] + s[1..] == s;
    }
  }

  // ----- tokens

  /** What may stand behind a cell. */
  predicate Ends(tail: string) {
    tail == "" || tail[0] == ',' || tail[0] == ')'
  }

  /** Characters of numbers as the script prints them. */
  predicate IsNumberChar(c: char) {
    IsDigit(c) || c in "+-.einfa"
  }

  predicate NumberText(t: string) {
    t != "" && forall i :: 0 <= i < |t| ==> IsNumberChar(t[i])
  }

  lemma {:induction false} TokenOfNumber(t: string, tail: string)
    requires (forall i :: 0 <= i < |t| ==> IsNumberChar(t[i])) && Ends(tail)
    ensures TokenLength(t + tail) == |t|
  {
    if t == "" {
      assert t + tail == tail;
    } else {
      assert (t + tail)[1..] == t[1..] + tail;
      TokenOfNumber(t[1..], tail);
    }
  }

  lemma NumberCharIsNoSpace(c: char)
    requires IsNumberChar(c)
    ensures !IsSpace(c) && !IsBlank(c) && c != ',' && c != ')' && c != '\'' && c != 'N' && c != 'x' && c != 'X'
  {
    assert forall d :: d in "+-.einfa" ==> !IsSpace(d);
  }

  lemma NumberStaysStripped(t: string)
    requires NumberText(t)
    ensures Strip(t) == t
  {
    NumberCharIsNoSpace(t[0]);
    NumberCharIsNoSpace(t[|t| - 1]);
    StripKeepsTrimmed(t);
  }

  /** A bare cell: neither a string nor NULL. */
  lemma ReadBare(u: string, k: nat, py: Python)
    requires u != "" && u[0] != '\'' && u[0] != 'N' && TokenLength(u) == k
    ensures ReadCell(u, py) == (Scalar(Strip(u[..k]), py), u[k..])
  {
    assert "NULL"[0] == 'N';
  }

  lemma ReadNumber(t: string, tail: string, py: Python)
    requires NumberText(t) && Ends(tail)
    ensures ReadCell(t + tail, py) == (Scalar(t, py), tail)
    ensures !IsBlank((t + tail)[0]) && (t + tail)[0] != ')'
  {
    var u := t + tail;
    assert u[0] == t[0];
    NumberCharIsNoSpace(t[0]);
    NumberStaysStripped(t);
    TokenOfNumber(t, tail);
    ReadBare(u, |t|, py);
    assert u[..|t|] == t && u[|t|..] == tail;
  }

  lemma {:induction false} NatTextReads(n: nat)
    ensures AllDigits(NatText(n)) && DecimalValue(NatText(n)) == n
  {
    if n >= 10 {
      NatTextReads(n / 10);
      assert NatText(n)[..|NatText(n)| - 1] == NatText(n / 10);
    } else {
      assert NatText(n)[..0] == "";
    }
  }

  lemma NotHex(t: string)
    requires NumberText(t)
    ensures !("0x" <= t) && !("0X" <= t)
  {
    if |t| > 1 { NumberCharIsNoSpace(t[1]); }
    assert "0x"[1] == 'x' && "0X"[1] == 'X';
  }

  lemma ScalarOfDigits(d: string, py: Python)
    requires AllDigits(d)
    ensures NumberText(d) && Scalar(d, py) == Int(DecimalValue(d))
  {
    assert IsDigit(d[0]);
    NotHex(d);
  }

  lemma ScalarOfMinus(d: string, py: Python)
    requires AllDigits(d)
    ensures NumberText("-" + d) && Scalar("-" + d, py) == Int(0 - DecimalValue(d))
  {
    var t := "-" + d;
    assert t[1..] == d && IsDigit(d[0]);
    assert DropMinus(d) == d && DropMinus(t) == d;
    forall i | 0 <= i < |t| ensures IsNumberChar(t[i]) { if i > 0 { assert t[i] == d[i - 1]; } }
    NotHex(t);
  }

  lemma IntTextReads(n: int, py: Python)
    ensures NumberText(IntText(n)) && Scalar(IntText(n), py) == Int(n)
  {
    NatTextReads(if n < 0 then -n else n);
    if n < 0 { ScalarOfMinus(NatText(-n), py); } else { ScalarOfDigits(NatText(n), py); }
  }

  lemma {:induction false} NatTextIs(n: nat)
    ensures AllDigits(NatText(n)) && (|NatText(n)| > 1 ==> NatText(n)[0] != '0') && (NatText(n)[0] == '0' <==> n == 0)
  {
    if n >= 10 { NatTextIs(n / 10); }
  }

  /** Integers are printed with a sign exactly when they are negative, and without leading zeros. */
  lemma IntTextIs(n: int)
    ensures IntText(n)[0] == '-' <==> n < 0
    ensures n < 0 ==> AllDigits(IntText(n)[1..]) && IntText(n)[1] != '0'
    ensures n >= 0 ==> AllDigits(IntText(n)) && (IntText(n)[0] == '0' <==> IntText(n) == "0")
  {
    NatTextIs(if n < 0 then -n else n);
    if n < 0 { assert IntText(n)[1..] == NatText(-n); } else { assert IsDigit(IntText(n)[0]); }
  }

  lemma FloatTextReads(r: string, py: Python)
    requires ReprOk(r, py)
    ensures NumberText(r) && Scalar(r, py) == Float(r)
  {
    assert NumberText(r);
    NotHex(r);
  }

  // ----- cells, tuples, rows

  lemma ReadQuoted(s: string, tail: string, py: Python)
    ensures ReadCell("'" + Escape(s) + "'" + tail, py) == (Str(s), tail)
  {
    EscapeIsPerCharacter(s);
    ReadEscaped(s, tail);
    QuotedCell(EscapeEach(s) + "'" + tail, py);
    assert "'" + Escape(s) + "'" + tail == "'" + (EscapeEach(s) + "'" + tail);
  }

  lemma QuotedCell(t: string, py: Python)
    ensures ReadCell("'" + t, py) == (Str(ReadString(t).0), ReadString(t).1)
  {
    assert ("'" + t)[0] == '\'' && ("'" + t)[1..] == t;
  }

  lemma ReadNull(tail: string, py: Python)
    requires Ends(tail)
    ensures ReadCell("NULL" + tail, py) == (Null, tail)
  {
    var t := "NULL" + tail;
    assert t[0] == 'N' && t[..4] == "NULL" && t[4..] == tail;
    assert tail != "" ==> t[4] == tail[0];
  }

  predicate CellStart(t: string) {
    t != "" && !IsBlank(t[0]) && t[0] != ')'
  }

  lemma {:induction false} ReadScalar(v: Value, tail: string, py: Python)
    requires Ends(tail) && CellOk(v, py)
    ensures ReadCell(EmitScalar(v) + tail, py) == (Settled(v), tail) && CellStart(EmitScalar(v) + tail)
  {
    match v
    case Null =>
      ReadNull(tail, py);
      assert ("NULL" + tail)[0] == 'N';
    case Int(n) =>
      IntTextReads(n, py);
      ReadNumber(IntText(n), tail, py);
    case Str(s) =>
      ReadQuoted(s, tail, py);
      assert ("'" + Escape(s) + "'" + tail)[0] == '\'';
    case Float(r) =>
      FloatTextReads(r, py);
      ReadNumber(r, tail, py);
    case Bytes(s) =>
      ReadQuoted(s, tail, py);
      assert ("'" + Escape(s) + "'" + tail)[0] == '\'';
  }

  /** One cell and the text behind it, in a tuple. */
  lemma OneCell(t: string, v: Value, rest: string, py: Python)
    requires CellStart(t) && ReadCell(t, py) == (v, rest)
    ensures ReadCells(t, py) == ([v] + ReadCells(AfterCell(rest), py).0, ReadCells(AfterCell(rest), py).1)
  {
    CellsStep(t, py);
  }

  lemma CloseReads(tail: string, py: Python)
    ensures ReadCells(")" + tail, py) == ([], tail) && AfterCell(")" + tail) == ")" + tail
  {
    assert (")" + tail)[1..] == tail;
  }

  lemma CommaReads(more: string)
    requires more == "" || !IsBlank(more[0])
    ensures AfterCell("," + more) == more
  {
    assert ("," + more)[1..] == more;
  }

  lemma Regroup(a: string, b: string, c: string, d: string)
    ensures a + b + c + d == a + (b + (c + d))
  {
    assert a + b + c + d == a + b + (c + d);
  }

  /** `close` is what ends the tuple: a parenthesis, or nothing when the text ends. */
  predicate Closes(close: string) {
    close == "" || close[0] == ')'
  }

  function AfterClose(close: string): string {
    if close == "" then "" else close[1..]
  }

  lemma CloseCells(close: string, py: Python)
    requires Closes(close)
    ensures ReadCells(close, py) == ([], AfterClose(close)) && AfterCell(close) == close && Ends(close)
  {
  }

  lemma LastCell(e: string, v: Value, close: string, py: Python)
    requires Closes(close) && CellStart(e + close) && ReadCell(e + close, py) == (v, close)
    ensures ReadCells(e + close, py) == ([v], AfterClose(close))
  {
    CloseCells(close, py);
    OneCell(e + close, v, close, py);
    assert [v] + [] == [v];
  }

  lemma CellBefore(e: string, v: Value, more: string, row: Row, after: string, py: Python)
    requires CellStart(e + ("," + more)) && ReadCell(e + ("," + more), py) == (v, "," + more)
    requires CellStart(more) && ReadCells(more, py) == (row, after)
    ensures ReadCells(e + ("," + more), py) == ([v] + row, after)
  {
    OneCell(e + ("," + more), v, "," + more, py);
    CommaReads(more);
  }

  lemma {:induction false} ReadEmittedCells(row: Row, close: string, py: Python)
    requires row != [] && RowOk(row, py) && Closes(close)
    ensures ReadCells(EmitCells(row) + close, py) == (SettledRow(row), AfterClose(close))
    ensures CellStart(EmitCells(row) + close)
  {
    var e := EmitScalar(row[0]);
    SettledFirst(row);
    if |row| == 1 {
      CloseCells(close, py);
      ReadScalar(row[0], close, py);
      LastCell(e, Settled(row[0]), close, py);
    } else {
      var more := EmitCells(row[1..]) + close;
      ReadEmittedCells(row[1..], close, py);
      ReadScalar(row[0], "," + more, py);
      CellBefore(e, Settled(row[0]), more, SettledRow(row[1..]), AfterClose(close), py);
      Regroup(e, ",", EmitCells(row[1..]), close);
    }
  }

  lemma SettledFirst(row: Row)
    requires row != []
    ensures SettledRow(row) == [Settled(row[0])] + SettledRow(row[1..])
    ensures |row| == 1 ==> SettledRow(row) == [Settled(row[0])]
  {
  }

  lemma ReadTupleCells(row: Row, tail: string, py: Python)
    requires RowOk(row, py)
    ensures ReadCells(EmitCells(row) + (")" + tail), py) == (SettledRow(row), tail)
  {
    if row == [] {
      CloseReads(tail, py);
      assert EmitCells(row) + (")" + tail) == ")" + tail;
    } else {
      ReadEmittedCells(row, ")" + tail, py);
      assert (")" + tail)[1..] == tail;
    }
  }

  lemma ReadEmittedTuple(row: Row, tail: string, py: Python)
    requires RowOk(row, py)
    ensures ReadRows(EmitTuple(row) + tail, py) == [SettledRow(row)] + ReadRows(tail, py)
  {
    var cells := EmitCells(row) + (")" + tail);
    ReadTupleCells(row, tail, py);
    TupleFirst(cells, py);
    TupleText(EmitCells(row), tail);
  }

  lemma TupleText(cells: string, tail: string)
    ensures "(" + cells + ")" + tail == "(" + (cells + (")" + tail))
  {
    assert "(" + cells + ")" + tail == "(" + cells + (")" + tail);
  }

  lemma TupleFirst(cells: string, py: Python)
    ensures ReadRows("(" + cells, py) == [ReadCells(cells, py).0] + ReadRows(ReadCells(cells, py).1, py)
  {
    var t := "(" + cells;
    assert t[0] == '(' && t[1..] == cells && SkipGap(t) == t;
    RowsStep(t, t, ReadCells(cells, py).1, py);
  }

  lemma GapFirst(t: string, py: Python)
    ensures ReadRows("," + t, py) == ReadRows(t, py)
  {
    assert ("," + t)[1..] == t;
  }

  lemma EmitMoreRows(rows: seq<Row>)
    requires |rows| > 1
    ensures EmitRows(rows) == EmitTuple(rows[0]) + ("," + EmitRows(rows[1..]))
  {
    assert EmitTuples(rows)[1..] == EmitTuples(rows[1..]) && |EmitTuples(rows)| > 1;
  }

  /** Emitted rows read back as they were, up to the bytes of hexadecimal literals. */
  lemma {:induction false} EmittedRowsReadBack(rows: seq<Row>, py: Python)
    requires RowsOk(rows, py)
    ensures ReadRows(EmitRows(rows), py) == SettledRows(rows)
  {
    if rows != [] {
      assert RowOk(rows[0], py);
      assert SettledRows(rows) == [SettledRow(rows[0])] + SettledRows(rows[1..]);
      if |rows| == 1 {
        OneRow(rows[0]);
        assert rows == [rows[0]] && ReadRows("", py) == [];
        ReadEmittedTuple(rows[0], "", py);
      } else {
        var more := EmitRows(rows[1..]);
        EmitMoreRows(rows);
        ReadEmittedTuple(rows[0], "," + more, py);
        GapFirst(more, py);
        EmittedRowsReadBack(rows[1..], py);
      }
    }
  }

  lemma OneRow(row: Row)
    ensures EmitRows([row]) == EmitTuple(row) + ""
  {
    assert [row][1..] == [] && EmitTuples([row]) == [EmitTuple(row)];
  }

  /** A cell reads back as the same value exactly when it is not the bytes of a hexadecimal literal. */
  lemma CellSurvivesIff(v: Value, tail: string, py: Python)
    requires Ends(tail) && CellOk(v, py)
    ensures ReadCell(EmitScalar(v) + tail, py).0 == v <==> !v.Bytes?
  {
    ReadScalar(v, tail, py);
  }

  /** Printing does not tell a cell from the value it reads back as. */
  lemma SettledPrintsAlike(rows: seq<Row>)
    ensures EmitRows(SettledRows(rows)) == EmitRows(rows)
  {
    SettledTuplesPrintAlike(rows);
  }

  lemma {:induction false} SettledTuplesPrintAlike(rows: seq<Row>)
    ensures EmitTuples(SettledRows(rows)) == EmitTuples(rows)
  {
    if rows != [] {
      SettledTuplesPrintAlike(rows[1..]);
      assert SettledRows(rows)[1..] == SettledRows(rows[1..]);
      SettledCellsPrintAlike(rows[0]);
    }
  }

  lemma {:induction false} SettledCellsPrintAlike(row: Row)
    ensures EmitCells(SettledRow(row)) == EmitCells(row)
  {
    if |row| > 1 {
      SettledCellsPrintAlike(row[1..]);
      assert SettledRow(row)[1..] == SettledRow(row[1..]);
    }
  }

  // ----- texts that do not read to their end

  function NextTuple(t: string): (r: string)
    ensures |r| <= |t| && (r == "" || r[0] == '(')
  {
    if t != "" && t[0] != '(' then NextTuple(t[1..]) else t
  }

  /** The tuples of a text with whatever stands between them passed over. */
  function AllRows(t: string, py: Python): seq<Row>
    decreases |t|
  {
    var u := NextTuple(t);
    if u == "" then [] else var row := ReadCells(u[1..], py); [row.0] + AllRows(row.1, py)
  }

  /** Before each tuple stand only blanks and commas. */
  predicate Orderly(t: string, py: Python)
    decreases |t|
  {
    var u := NextTuple(t);
    u == "" || (SkipGap(t) == u && Orderly(ReadCells(u[1..], py).1, py))
  }

  lemma {:induction false} GapOrTuple(t: string)
    ensures NextTuple(SkipGap(t)) == NextTuple(t)
    ensures SkipGap(t) != "" && SkipGap(t)[0] == '(' ==> SkipGap(t) == NextTuple(t)
  {
    if t != "" && (IsBlank(t[0]) || t[0] == ',') { GapOrTuple(t[1..]); }
  }

  /** All tuples of a text are read exactly when nothing but blanks and commas stands before any of them; otherwise
      those before the first garbage are, and the rest is dropped without a word. */
  lemma {:induction false} AllRowsReadIff(t: string, py: Python)
    ensures ReadRows(t, py) <= AllRows(t, py)
    ensures ReadRows(t, py) == AllRows(t, py) <==> Orderly(t, py)
    decreases |t|
  {
    GapOrTuple(t);
    var u := SkipGap(t);
    if u != "" && u[0] == '(' {
      var rest := ReadCells(u[1..], py).1;
      RowsStep(t, u, rest, py);
      AllRowsReadIff(rest, py);
      SamePrefix(ReadCells(u[1..], py).0, ReadRows(rest, py), AllRows(rest, py));
    }
  }

  lemma SamePrefix<T>(x: T, a: seq<T>, b: seq<T>)
    ensures [x] + a <= [x] + b <==> a <= b
    ensures [x] + a == [x] + b <==> a == b
  {
    assert ([x] + a)[1..] == a && ([x] + b)[1..] == b;
  }

  /** A tuple that the text ends in counts with the cells it has. */
  lemma CutTupleIsKept(row: Row, py: Python)
    requires row != [] && RowOk(row, py)
    ensures ReadRows("(" + EmitCells(row), py) == [SettledRow(row)]
  {
    ReadEmittedCells(row, "", py);
    assert EmitCells(row) + "" == EmitCells(row);
    TupleFirst(EmitCells(row), py);
    assert ReadRows("", py) == [];
  }

  // ----- bare tokens, told apart

  /** The token is a decimal integer with at most one sign. */
  predicate IsInteger(token: string, n: int) {
    (AllDigits(token) && n == DecimalValue(token))
    || (token != "" && token[0] == '-' && AllDigits(token[1..]) && n == 0 - DecimalValue(token[1..]))
  }

  predicate IsHex(token: string) {
    |token| >= 2 && token[0] == '0' && (token[1] == 'x' || token[1] == 'X')
  }

  /** Digits behind any number of signs: not tried as a float. */
  predicate IsSigned(token: string) {
    exists k :: 0 <= k <= |token| && AllDigits(token[k..]) && forall i :: 0 <= i < k ==> token[i] == '-'
  }

  lemma {:induction false} IsSignedIff(token: string)
    ensures IsSigned(token) <==> AllDigits(DropMinus(token))
  {
    if token != "" && token[0] == '-' {
      var rest := token[1..];
      IsSignedIff(rest);
      if k :| 0 <= k <= |rest| && AllDigits(rest[k..]) && forall i :: 0 <= i < k ==> rest[i] == '-' {
        assert token[k + 1..] == rest[k..];
        assert forall i :: 0 < i < k + 1 ==> token[i] == rest[i - 1];
      }
      if k :| 0 <= k <= |token| && AllDigits(token[k..]) && forall i :: 0 <= i < k ==> token[i] == '-' {
        assert k > 0 by { assert token[0..] == token && !IsDigit(token[0]); }
        assert rest[k - 1..] == token[k..];
        assert forall i :: 0 <= i < k - 1 ==> rest[i] == token[i + 1];
      }
    } else if token != "" {
      assert token[0..] == token;
    }
  }

  /** What a bare token reads as: nothing as an empty string, hexadecimal digits as bytes, an integer with at most one
      sign as that number, what Python takes for a float as one, and anything else as its own text. */
  lemma ScalarIs(token: string, py: Python)
    ensures var v := Scalar(token, py);
      match v
      case Null => false
      case Bytes(b) => IsHex(token) && py.fromHex(token[2..]) == Some(b)
      case Int(n) => !IsHex(token) && IsInteger(token, n)
      case Float(r) => token != "" && !IsHex(token) && !IsSigned(token) && py.float(token) == Some(r)
      case Str(s) =>
        s == token && (forall n :: !IsInteger(token, n))
        && (IsHex(token) ==> py.fromHex(token[2..]) == None)
        && (token != "" && !IsHex(token) && !IsSigned(token) ==> py.float(token) == None)
  {
    IsSignedIff(token);
    assert IsHex(token) <==> "0x" <= token || "0X" <= token;
    if token != "" && token[0] == '-' { assert DropMinus(token) == DropMinus(token[1..]); }
    DropMinusOnce(token);
    if IsHex(token) { assert !AllDigits(token) && token[0] != '-'; }
  }

  lemma DropMinusOnce(token: string)
    ensures AllDigits(token) ==> DropMinus(token) == token
    ensures token != "" && token[0] == '-' && AllDigits(token[1..]) ==> DropMinus(token) == token[1..]
    ensures AllDigits(DropMinus(token)) && |DropMinus(token)| == |token| - 1 ==>
      token[0] == '-' && DropMinus(token) == token[1..]
  {
    if token != "" { DropMinusShrinks(token[1..]); }
  }

  lemma {:induction false} DropMinusShrinks(s: string)
    ensures |DropMinus(s)| <= |s| && (|DropMinus(s)| == |s| ==> DropMinus(s) == s)
  {
    if s != "" && s[0] == '-' { DropMinusShrinks(s[1..]); }
  }
}

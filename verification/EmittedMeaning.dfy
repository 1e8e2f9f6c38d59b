/** What the text that scripts/customer_export.py emits (lines 278-299) means to MySQL: the rows it was emitted from, up
    to the bytes of hexadecimal literals, which are printed as strings. Escaped text means itself, one character after
    the other; integers and NULL mean what was printed; then cells, tuples and lists of tuples follow, as they do for
    the dump reader. Floats are not part of the meaning of a payload. */
module EmittedMeaning {
  import opened Text
  import opened SqlValues
  import opened DumpReader
  import opened RoundTrip
  import opened MySqlMeaning

  lemma MeansPair(c: char, tail: string)
    ensures StringMeaning(['\\', c] + tail) == Prepend(Meant(c), StringMeaning(tail))
  {
    var t := ['\\', c] + tail;
    assert t[0] == '\\' && t[1] == c && t[2..] == tail;
  }

  lemma MeansCode(e: string, c: char, code: char, tail: string)
    requires e == ['\\', code] && Meant(code) == [c]
    ensures StringMeaning(e + tail) == Prepend([c], StringMeaning(tail))
  {
    MeansPair(code, tail);
  }

  lemma MeansPlain(c: char, tail: string)
    requires c != '\\' && c != '\''
    ensures StringMeaning([c] + tail) == Prepend([c], StringMeaning(tail))
  {
    var t := [c] + tail;
    assert t[0] == c && t[1..] == tail;
  }

  lemma MeansEscapedChar(c: char, tail: string)
    ensures StringMeaning(EscapeChar(c) + tail) == Prepend([c], StringMeaning(tail))
  {
    var e := EscapeChar(c);
    if c == '\n' { MeansCode(e, c, 'n', tail); }
    else if c == '\r' { MeansCode(e, c, 'r', tail); }
    else if c == '\t' { MeansCode(e, c, 't', tail); }
    else if c == '\0' { MeansCode(e, c, '0', tail); }
    else if c == '\\' || c == '\'' { MeansCode(e, c, c, tail); }
    else { MeansPlain(c, tail); }
  }

  lemma PrependTwice(a: string, b: string, r: Option<(string, string)>)
    ensures Prepend(a, Prepend(b, r)) == Prepend(a + b, r) && Prepend("", r) == r
  {
    if r.Some? { assert a + (b + r.value.0) == a + b + r.value.0 && "" + r.value.0 == r.value.0; }
  }

  lemma EscapedHead(s: string, tail: string)
    requires s != ""
    ensures EscapeEach(s) + tail == EscapeChar(s[0]) + (EscapeEach(s[1..]) + tail) && s == [s[0]] + s[1..]
  {
    Regrouped(EscapeChar(s[0]), EscapeEach(s[1..]), tail);
  }

  lemma Regrouped(a: string, b: string, c: string)
    ensures a + b + c == a + (b + c)
  {
  }

  /** Escaped text means itself. */
  lemma {:induction false} MeansEscaped(s: string, tail: string)
    ensures StringMeaning(EscapeEach(s) + tail) == Prepend(s, StringMeaning(tail))
  {
    if s == "" {
      PrependTwice("", "", StringMeaning(tail));
      assert EscapeEach(s) + tail == tail;
    } else {
      MeansEscaped(s[1..], tail);
      MeansEscapedChar(s[0], EscapeEach(s[1..]) + tail);
      EscapedHead(s, tail);
      PrependTwice([s[0]], s[1..], StringMeaning(tail));
    }
  }

  lemma MeansClosed(tail: string)
    requires !QuoteNext(tail)
    ensures StringMeaning("'" + tail) == Some(("", tail))
  {
    assert ("'" + tail)[1..] == tail;
  }

  // ----- cells

  lemma MeansQuoted(s: string, tail: string)
    requires !QuoteNext(tail)
    ensures CellMeaning("'" + Escape(s) + "'" + tail) == Some((Str(s), tail))
  {
    EscapeIsPerCharacter(s);
    MeansEscaped(s, "'" + tail);
    MeansClosed(tail);
    var t := "'" + Escape(s) + "'" + tail;
    assert t == "'" + (EscapeEach(s) + ("'" + tail)) && t[0] == '\'';
    assert t[1..] == EscapeEach(s) + ("'" + tail) && s + "" == s;
  }

  lemma MeansInteger(n: int)
    ensures NumberText(IntText(n)) && IntegerMeaning(IntText(n)) == Some(n)
  {
    var digits := NatText(if n < 0 then -n else n);
    NatTextReads(if n < 0 then -n else n);
    forall i | 0 <= i < |digits| ensures IsDigit(digits[i]) {}
    DigitsAreNumber(IntText(n), digits);
    if n < 0 { assert IntText(n)[0] == '-' && IntText(n)[1..] == digits; }
  }

  lemma DigitsAreNumber(t: string, digits: string)
    requires AllDigits(digits) && (t == digits || t == "-" + digits)
    ensures NumberText(t) && Strip(t) == t && (t != digits ==> !AllDigits(t))
    ensures forall i :: 0 <= i < |t| ==> IsDigit(t[i]) || t[i] == '-'
  {
    forall i | 0 <= i < |t| ensures IsNumberChar(t[i]) && (IsDigit(t[i]) || t[i] == '-') {
      if t != digits && i > 0 { assert t[i] == digits[i - 1]; }
    }
    if t != digits { assert t[0] == '-' && !IsDigit(t[0]); }
    NumberCharIsNoSpace(t[0]);
    NumberCharIsNoSpace(t[|t| - 1]);
  }

  lemma MeansBare(t: string, tail: string)
    requires NumberText(t) && Ends(tail) && IntegerMeaning(t).Some?
    ensures CellMeaning(t + tail) == Some((Int(IntegerMeaning(t).value), tail))
  {
    var u := t + tail;
    assert u[0] == t[0];
    NumberCharIsNoSpace(t[0]);
    assert "NULL"[0] == 'N';
    TokenOfNumber(t, tail);
    assert u[..|t|] == t && u[|t|..] == tail;
  }

  lemma MeansNull(tail: string)
    requires Ends(tail)
    ensures CellMeaning("NULL" + tail) == Some((Null, tail))
  {
    var t := "NULL" + tail;
    assert t[0] == 'N' && t[..4] == "NULL" && t[4..] == tail && SkipBlanks(tail) == tail;
  }

  /** An emitted cell means its value. */
  lemma MeansScalar(v: Value, tail: string, py: Python)
    requires Ends(tail) && !v.Float? && !v.Bytes?
    ensures CellMeaning(EmitScalar(v) + tail) == Some((v, tail)) && CellStart(EmitScalar(v) + tail)
  {
    ReadScalar(v, tail, py);
    match v
    case Null => MeansNull(tail);
    case Int(n) =>
      MeansInteger(n);
      MeansBare(IntText(n), tail);
    case Str(s) => MeansQuoted(s, tail);
  }

  // ----- tuples and rows

  lemma MeansLastCell(t: string, v: Value, tail: string)
    requires CellStart(t) && CellMeaning(t) == Some((v, ")" + tail))
    ensures CellsMeaning(t) == Some(([v], tail))
  {
    var rest := ")" + tail;
    assert SkipBlanks(t) == t;
    assert SkipBlanks(rest) == rest && rest[0] == ')' && rest[1..] == tail;
  }

  lemma MeansCellBefore(t: string, v: Value, more: string, row: Row, tail: string)
    requires CellStart(t) && CellMeaning(t) == Some((v, "," + more)) && CellsMeaning(more) == Some((row, tail))
    ensures CellsMeaning(t) == Some(([v] + row, tail))
  {
    var rest := "," + more;
    assert SkipBlanks(t) == t;
    assert SkipBlanks(rest) == rest && rest[0] == ',' && rest[1..] == more;
  }

  lemma {:induction false} MeansCells(row: Row, tail: string, py: Python)
    requires row != [] && Plain(row)
    ensures CellsMeaning(EmitCells(row) + (")" + tail)) == Some((row, tail))
    ensures CellStart(EmitCells(row) + (")" + tail))
  {
    var first, rest := row[0], row[1..];
    var e, close := EmitScalar(first), ")" + tail;
    assert row == [first] + rest;
    if |row| == 1 {
      assert row == [first] && EmitCells(row) == e;
      MeansScalar(first, close, py);
      MeansLastCell(e + close, first, tail);
    } else {
      var more := EmitCells(rest) + close;
      MeansCells(rest, tail, py);
      MeansScalar(first, "," + more, py);
      MeansCellBefore(e + ("," + more), first, more, rest, tail);
      Regroup(e, ",", EmitCells(rest), close);
    }
  }

  lemma MeansTuple(row: Row, tail: string, py: Python)
    requires Plain(row)
    ensures TupleMeaning(EmitCells(row) + (")" + tail)) == Some((row, tail))
  {
    var t := EmitCells(row) + (")" + tail);
    if row == [] {
      assert t == ")" + tail && t[1..] == tail;
    } else {
      MeansCells(row, tail, py);
    }
  }

  predicate PlainRows(rows: seq<Row>) {
    forall j :: 0 <= j < |rows| ==> Plain(rows[j])
  }

  lemma MeansFirst(row: Row, tail: string, py: Python)
    requires Plain(row)
    ensures var t := EmitTuple(row) + tail;
      t != "" && SkipBlanks(t) == t && t[0] == '(' && TupleMeaning(t[1..]) == Some((row, tail))
  {
    MeansTuple(row, tail, py);
    assert EmitTuple(row) + tail == "(" + (EmitCells(row) + (")" + tail));
  }

  lemma MeansLastRow(t: string, row: Row)
    requires t != "" && SkipBlanks(t) == t && t[0] == '(' && TupleMeaning(t[1..]) == Some((row, ""))
    ensures RowsMeaning(t) == Some([row])
  {
  }

  lemma MeansRowBefore(t: string, row: Row, more: string, rows: seq<Row>)
    requires t != "" && SkipBlanks(t) == t && t[0] == '(' && TupleMeaning(t[1..]) == Some((row, "," + more))
    requires RowsMeaning(more) == Some(rows)
    ensures RowsMeaning(t) == Some([row] + rows)
  {
    var rest := "," + more;
    assert SkipBlanks(rest) == rest && rest[0] == ',' && rest[1..] == more;
  }

  lemma {:induction false} MeansRows(rows: seq<Row>, py: Python)
    requires rows != [] && PlainRows(rows)
    ensures RowsMeaning(EmitRows(rows)) == Some(rows)
  {
    assert Plain(rows[0]) && rows == [rows[0]] + rows[1..];
    if |rows| == 1 {
      OneRow(rows[0]);
      assert rows == [rows[0]];
      MeansFirst(rows[0], "", py);
      MeansLastRow(EmitRows(rows), rows[0]);
    } else {
      var more := EmitRows(rows[1..]);
      MeansRows(rows[1..], py);
      EmitMoreRows(rows);
      MeansFirst(rows[0], "," + more, py);
      assert EmitRows(rows) != "";
      MeansRowBefore(EmitRows(rows), rows[0], more, rows[1..]);
    }
  }

  predicate NoFloats(rows: seq<Row>) {
    forall j, i :: 0 <= j < |rows| && 0 <= i < |rows[j]| ==> !rows[j][i].Float?
  }

  /** Emitted rows mean what they were, up to the bytes of hexadecimal literals. */
  lemma EmittedRowsMean(rows: seq<Row>, py: Python)
    requires rows != [] && NoFloats(rows)
    ensures RowsMeaning(EmitRows(rows)) == Some(SettledRows(rows))
  {
    forall j | 0 <= j < |rows| ensures Plain(SettledRows(rows)[j]) {
      assert SettledRows(rows)[j] == SettledRow(rows[j]);
    }
    SettledPrintsAlike(rows);
    MeansRows(SettledRows(rows), py);
  }
}

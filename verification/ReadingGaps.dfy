/** Payloads on which the dump reader (zw_brain/adapters/legacy/parser.py, lines 97-162) parts from MySQL, and what the
    rewriter of scripts/customer_export.py (lines 236-269) then prints.
    - a string with a doubled quote: one redacted cell that is printed, in two cells;
    - a payload cut off behind its first cell: nothing to MySQL, a row that is printed;
    - a pattern escape: a cell that loses its backslash. */
module ReadingGaps {
  import opened Text
  import opened SqlValues
  import opened DumpReader
  import opened RoundTrip
  import opened Redaction
  import opened Rewriter
  import opened MySqlMeaning
  import opened EmittedMeaning

  /** A one-cell row with a doubled quote in its string. */
  function Doubled(a: string, b: string): string {
    "('" + (EscapeEach(a) + ("''" + (EscapeEach(b) + "')")))
  }

  lemma MeansDoubled(tail: string)
    ensures StringMeaning("''" + tail) == Prepend("'", StringMeaning(tail))
  {
    var t := "''" + tail;
    assert t[1..] == "'" + tail && SkipBlanks(t[1..]) == t[1..] && t[1..][1..] == tail;
  }

  lemma OneStringMeans(t: string, v: string)
    requires StringMeaning(t) == Some((v, ")"))
    ensures RowsMeaning("('" + t) == Some([[Str(v)]])
  {
    var u := "('" + t;
    assert u[0] == '(' && u[1..] == "'" + t && ("'" + t)[1..] == t;
    assert ")"[1..] == "";
    assert CellMeaning("'" + t) == Some((Str(v), ")"));
    assert CellsMeaning("'" + t) == Some(([Str(v)], ""));
  }

  lemma DoubledMeans(a: string, b: string)
    ensures RowsMeaning(Doubled(a, b)) == Some([[Str(a + ("'" + b))]])
  {
    MeansClosed(")");
    MeansEscaped(b, "')");
    MeansDoubled(EscapeEach(b) + "')");
    MeansEscaped(a, "''" + (EscapeEach(b) + "')"));
    assert b + "" == b;
    OneStringMeans(EscapeEach(a) + ("''" + (EscapeEach(b) + "')")), a + ("'" + b));
  }

  /** A string and what follows its closing quote, in a tuple. */
  lemma StringCell(a: string, behind: string, py: Python)
    ensures ReadCells("'" + (EscapeEach(a) + ("'" + behind)), py)
         == ([Str(a)] + ReadCells(AfterCell(behind), py).0, ReadCells(AfterCell(behind), py).1)
  {
    var t := EscapeEach(a) + ("'" + behind);
    ReadEscaped(a, behind);
    assert EscapeEach(a) + "'" + behind == t;
    QuotedCell(t, py);
    OneCell("'" + t, Str(a), behind, py);
  }

  lemma DoubledReads(a: string, b: string, py: Python)
    ensures ReadRows(Doubled(a, b), py) == [[Str(a), Str(b)]]
  {
    var second := "'" + (EscapeEach(b) + ("'" + ")"));
    assert ("'" + ")") == "')";
    CloseCells(")", py);
    StringCell(b, ")", py);
    StringCell(a, second, py);
    assert AfterCell(second) == second && [Str(b)] + [] == [Str(b)] && [Str(a)] + [Str(b)] == [Str(a), Str(b)];
    DoubledText(a, b, second);
    TupleFirst("'" + (EscapeEach(a) + ("'" + second)), py);
    assert ReadRows("", py) == [];
  }

  lemma DoubledText(a: string, b: string, second: string)
    requires second == "'" + (EscapeEach(b) + "')")
    ensures Doubled(a, b) == "(" + ("'" + (EscapeEach(a) + ("'" + second)))
  {
    assert "''" + (EscapeEach(b) + "')") == "'" + second;
  }

  /** `('O''B')`: one redacted cell to MySQL, two cells to the reader, so the row is too wide and is printed as it is.
      Two such payloads that mean rows alike come out different as soon as their text before the quote differs. */
  lemma DoubledQuoteShows(column: string, d: Decision, a: string, b: string, a': string, b': string,
                          hint: string -> bool, py: Python)
    requires d.redact && a != a'
    ensures RowsMeaning(Doubled(a, b)) == Some([[Str(a + ("'" + b))]])
    ensures AlikeRows([d], [[Str(a + ("'" + b))]], [[Str(a' + ("'" + b'))]])
    ensures Rewrite([column], [d], Doubled(a, b), hint, py).text == EmitRows([[Str(a), Str(b)]])
    ensures Rewrite([column], [d], Doubled(a, b), hint, py).text
         != Rewrite([column], [d], Doubled(a', b'), hint, py).text
  {
    DoubledMeans(a, b);
    TooWide(column, d, a, b, hint, py);
    TooWide(column, d, a', b', hint, py);
    DifferentPrint(a, b, a', b', py);
  }

  lemma DifferentPrint(a: string, b: string, a': string, b': string, py: Python)
    requires a != a'
    ensures EmitRows([[Str(a), Str(b)]]) != EmitRows([[Str(a'), Str(b')]])
  {
    EmittedRowsReadBack([[Str(a), Str(b)]], py);
    EmittedRowsReadBack([[Str(a'), Str(b')]], py);
    assert SettledRows([[Str(a), Str(b)]])[0][0] == Str(a) && SettledRows([[Str(a'), Str(b')]])[0][0] == Str(a');
  }

  lemma TooWide(column: string, d: Decision, a: string, b: string, hint: string -> bool, py: Python)
    requires d.redact
    ensures Rewrite([column], [d], Doubled(a, b), hint, py).text == EmitRows([[Str(a), Str(b)]])
  {
    DoubledReads(a, b, py);
    assert [d][0].redact;
    assert RewriteRows([column], [d], [[Str(a), Str(b)]], hint) == [[Str(a), Str(b)]];
  }

  /** A payload cut off behind its first cell: nothing to MySQL, a row to the reader, too narrow for a table of two
      columns or more, so the cell is printed as it is. */
  lemma CutPayloadShows(columns: seq<string>, decisions: seq<Decision>, s: string, hint: string -> bool, py: Python)
    requires |columns| == |decisions| > 1 && !NothingRedacted(decisions)
    ensures var t := "('" + (EscapeEach(s) + "'");
      RowsMeaning(t) == None && Rewrite(columns, decisions, t, hint, py).text == t + ")"
  {
    var t, row := "('" + (EscapeEach(s) + "'"), [Str(s)];
    CutText(s);
    CutTupleIsKept(row, py);
    assert SettledRow(row) == row;
    TooNarrow(columns, decisions, row, hint);
    OneRow(row);
    CutMeansNothing(s);
  }

  lemma CutText(s: string)
    ensures "('" + (EscapeEach(s) + "'") == "(" + EmitCells([Str(s)])
    ensures EmitTuple([Str(s)]) + "" == "('" + (EscapeEach(s) + "'") + ")"
  {
    EscapeIsPerCharacter(s);
    assert EmitScalar(Str(s)) == "'" + EscapeEach(s) + "'";
  }

  lemma TooNarrow(columns: seq<string>, decisions: seq<Decision>, row: Row, hint: string -> bool)
    requires |columns| == |decisions| && |row| < |columns|
    ensures RewriteRows(columns, decisions, [row], hint) == [row]
  {
  }

  lemma CutMeansNothing(s: string)
    ensures RowsMeaning("('" + (EscapeEach(s) + "'")) == None
  {
    var u := EscapeEach(s) + "'";
    MeansClosed("");
    assert "'" + "" == "'";
    MeansEscaped(s, "'");
  }

  /** `\%` in an unredacted cell loses its backslash. */
  lemma PatternLosesBackslash(py: Python)
    ensures RowsMeaning("('\\%')") == Some([[Str("\\%")]]) && ReadRows("('\\%')", py) == [[Str("%")]]
  {
    var t := ['\\', '%'] + "')";
    PatternText(t);
    MeansClosed(")");
    MeansPair('%', "')");
    OneStringMeans(t, "\\%");
    PatternReads(t, py);
  }

  lemma PatternText(t: string)
    requires t == ['\\', '%'] + "')"
    ensures "('\\%')" == "('" + t && "('" + t == "(" + ("'" + t)
    ensures "'" + ")" == "')" && Meant('%') + "" == "\\%"
  {
  }

  lemma PatternReads(t: string, py: Python)
    requires t == ['\\', '%'] + "')"
    ensures ReadRows("(" + ("'" + t), py) == [[Str("%")]]
  {
    ReadEscaped("", ")");
    assert EscapeEach("") + "'" + ")" == "')";
    ReadPair('%', "')");
    assert [Unescape('%')] + "" == "%" && [Str("%")] + [] == [Str("%")];
    QuotedCell(t, py);
    CloseCells(")", py);
    OneCell("'" + t, Str("%"), ")", py);
    TupleFirst("'" + t, py);
    assert ReadRows("", py) == [];
  }
}

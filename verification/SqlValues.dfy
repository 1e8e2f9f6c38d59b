/** VALUES payloads as scripts/customer_export.py prints them (lines 278-299). */
module SqlValues {
  import opened Text

  /** A cell as the dump reader gives it. A float stands for its `repr`, the bytes of a hexadecimal literal for their
      `str`; both forms are what the script prints. */
  datatype Value = Null | Int(n: int) | Str(s: string) | Float(repr: string) | Bytes(shown: string)

  type Row = seq<Value>

  // ----- printing

  /** Python's `s.replace(c, with)` for a one-character pattern. */
  function Replace(s: string, c: char, with: string): string {
    if s == "" then "" else (if s[0] == c then with else [s[0]]) + Replace(s[1..], c, with)
  }

  /** The six replacements of the script, in its order. */
  function Escape(s: string): string {
    var s1 := Replace(s, '\\', "\\\\");
    var s2 := Replace(s1, '\'', "\\'");
    var s3 := Replace(s2, '\n', "\\n");
    var s4 := Replace(s3, '\r', "\\r");
    var s5 := Replace(s4, '\t', "\\t");
    Replace(s5, '\0', "\\0")
  }

  /** One character at a time. */
  function EscapeChar(c: char): string {
    if c == '\\' then "\\\\" else if c == '\'' then "\\'" else if c == '\n' then "\\n"
    else if c == '\r' then "\\r" else if c == '\t' then "\\t" else if c == '\0' then "\\0" else [c]
  }

  function EscapeEach(s: string): string {
    if s == "" then "" else EscapeChar(s[0]) + EscapeEach(s[1..])
  }

  function NatText(n: nat): string {
    if n < 10 then [('0' as int + n) as char] else NatText(n / 10) + [('0' as int + n % 10) as char]
  }

  function IntText(n: int): string {
    if n < 0 then "-" + NatText(-n) else NatText(n)
  }

  function EmitScalar(v: Value): string {
    match v
    case Null => "NULL"
    case Int(n) => IntText(n)
    case Str(s) => "'" + Escape(s) + "'"
    case Float(repr) => repr
    case Bytes(shown) => "'" + Escape(shown) + "'"
  }

  predicate IsDigit(c: char) {
    '0' <= c <= '9'
  }

  predicate AllDigits(s: string) {
    s != "" && forall i :: 0 <= i < |s| ==> IsDigit(s[i])
  }

  function DropMinus(s: string): string {
    if s != "" && s[0] == '-' then DropMinus(s[1..]) else s
  }

  /** What Python's `repr` gives for a float: digits with a sign, a point or an exponent, `nan` or `inf`. */
  predicate FloatText(r: string) {
    r != "" && (forall i :: 0 <= i < |r| ==> IsDigit(r[i]) || r[i] in "+-.einfa") && !AllDigits(DropMinus(r))
  }

  predicate FloatsOk(row: Row) {
    forall i :: 0 <= i < |row| && row[i].Float? ==> FloatText(row[i].repr)
  }

  function EmitCells(row: Row): string {
    if row == [] then "" else if |row| == 1 then EmitScalar(row[0]) else EmitScalar(row[0]) + "," + EmitCells(row[1..])
  }

  function EmitTuple(row: Row): string {
    "(" + EmitCells(row) + ")"
  }

  function EmitTuples(rows: seq<Row>): seq<string> {
    if rows == [] then [] else [EmitTuple(rows[0])] + EmitTuples(rows[1..])
  }

  function EmitRows(rows: seq<Row>): string {
    Join(EmitTuples(rows), ",")
  }

  // ----- the replacements act on each character once

  lemma {:induction false} ReplaceConcat(a: string, b: string, c: char, with: string)
    ensures Replace(a + b, c, with) == Replace(a, c, with) + Replace(b, c, with)
  {
    if a == "" {
      assert a + b == b;
    } else {
      assert (a + b)[1..] == a[1..] + b;
      ReplaceConcat(a[1..], b, c, with);
    }
  }

  lemma {:induction false} EscapeConcat(a: string, b: string)
    ensures Escape(a + b) == Escape(a) + Escape(b)
  {
    ReplaceConcat(a, b, '\\', "\\\\");
    var a1, b1 := Replace(a, '\\', "\\\\"), Replace(b, '\\', "\\\\");
    ReplaceConcat(a1, b1, '\'', "\\'");
    var a2, b2 := Replace(a1, '\'', "\\'"), Replace(b1, '\'', "\\'");
    ReplaceConcat(a2, b2, '\n', "\\n");
    var a3, b3 := Replace(a2, '\n', "\\n"), Replace(b2, '\n', "\\n");
    ReplaceConcat(a3, b3, '\r', "\\r");
    var a4, b4 := Replace(a3, '\r', "\\r"), Replace(b3, '\r', "\\r");
    ReplaceConcat(a4, b4, '\t', "\\t");
    var a5, b5 := Replace(a4, '\t', "\\t"), Replace(b4, '\t', "\\t");
    ReplaceConcat(a5, b5, '\0', "\\0");
  }

  lemma ReplaceOne(x: char, c: char, with: string)
    ensures Replace([x], c, with) == if x == c then with else [x]
  {
    assert [x][1..] == "";
  }

  lemma ReplacePair(x: char, y: char, c: char, with: string)
    requires x != c && y != c
    ensures Replace([x, y], c, with) == [x, y]
  {
    ReplaceOne(y, c, with);
    assert [x, y][1..] == [y];
  }

  lemma EscapeOne(c: char)
    ensures Escape([c]) == EscapeChar(c)
  {
    ReplaceOne(c, '\\', "\\\\");
    ReplaceOne(c, '\'', "\\'");
    ReplaceOne(c, '\n', "\\n");
    ReplaceOne(c, '\r', "\\r");
    ReplaceOne(c, '\t', "\\t");
    ReplaceOne(c, '\0', "\\0");
    forall y | y in "\\'nrt0" && [ '\\', y ] == EscapeChar(c)
      ensures Replace(['\\', y], '\n', "\\n") == ['\\', y] && Replace(['\\', y], '\r', "\\r") == ['\\', y]
      ensures Replace(['\\', y], '\t', "\\t") == ['\\', y] && Replace(['\\', y], '\0', "\\0") == ['\\', y]
      ensures y != '\'' ==> Replace(['\\', y], '\'', "\\'") == ['\\', y]
    {
      ReplacePair('\\', y, '\n', "\\n");
      ReplacePair('\\', y, '\r', "\\r");
      ReplacePair('\\', y, '\t', "\\t");
      ReplacePair('\\', y, '\0', "\\0");
      if y != '\'' { ReplacePair('\\', y, '\'', "\\'"); }
    }
  }

  /** The six chained replacements are one map over characters: no replacement touches another's output. */
  lemma {:induction false} EscapeIsPerCharacter(s: string)
    ensures Escape(s) == EscapeEach(s)
  {
    if s != "" {
      assert s == [s[0]] + s[1..];
      EscapeConcat([s[0]], s[1..]);
      EscapeOne(s[0]);
      EscapeIsPerCharacter(s[1..]);
    }
  }

  // ----- emitted text stays on one line and keeps its quotes

  predicate OneLine(t: string) {
    forall i :: 0 <= i < |t| ==> t[i] != '\n' && t[i] != '\r'
  }

  /** Scanned with backslash pairs, the text shows no quote. */
  predicate NoBareQuote(t: string) {
    t == ""
    || (t[0] == '\\' && |t| > 1 && NoBareQuote(t[2..]))
    || (t[0] != '\\' && t[0] != '\'' && NoBareQuote(t[1..]))
  }

  /** Inside the literal's quotes no quote stands unescaped, and nothing breaks the line. */
  lemma {:induction false} EscapedIsSafe(s: string)
    ensures NoBareQuote(Escape(s)) && OneLine(Escape(s))
  {
    EscapeIsPerCharacter(s);
    EscapedEachIsSafe(s);
  }

  lemma {:induction false} EscapedEachIsSafe(s: string)
    ensures NoBareQuote(EscapeEach(s)) && OneLine(EscapeEach(s))
  {
    if s != "" {
      EscapedEachIsSafe(s[1..]);
      var e := EscapeChar(s[0]);
      assert EscapeEach(s)[|e|..] == EscapeEach(s[1..]);
    }
  }

  lemma {:induction false} NatTextIsDigits(n: nat)
    ensures AllDigits(NatText(n))
  {
    if n >= 10 { NatTextIsDigits(n / 10); }
  }

  lemma {:induction false} EmittedScalarIsOneLine(v: Value)
    requires v.Float? ==> FloatText(v.repr)
    ensures OneLine(EmitScalar(v))
  {
    match v
    case Null =>
    case Int(n) => NatTextIsDigits(if n < 0 then -n else n);
    case Str(s) => EscapedIsSafe(s);
    case Float(repr) => assert '\n' !in "+-.einfa" && '\r' !in "+-.einfa";
    case Bytes(shown) => EscapedIsSafe(shown);
  }

  lemma {:induction false} EmittedCellsAreOneLine(row: Row)
    requires FloatsOk(row)
    ensures OneLine(EmitCells(row))
  {
    if row != [] {
      EmittedScalarIsOneLine(row[0]);
      EmittedCellsAreOneLine(row[1..]);
    }
  }

  /** A whole payload never breaks its line. */
  lemma {:induction false} EmittedRowsAreOneLine(rows: seq<Row>)
    requires forall i :: 0 <= i < |rows| ==> FloatsOk(rows[i])
    ensures OneLine(EmitRows(rows))
  {
    if rows != [] {
      EmittedCellsAreOneLine(rows[0]);
      EmittedRowsAreOneLine(rows[1..]);
      assert EmitTuples(rows)[1..] == EmitTuples(rows[1..]);
      assert OneLine(EmitTuple(rows[0]));
    }
  }
}

/** The total reader of VALUES payloads (zw_brain/adapters/legacy/parser.py, lines 32-42 and 97-192) that the rewriter
    uses: it stops at the first character that can start no tuple. Its loops are methods proved equal to functions. */
module DumpReader {
  import opened Text
  import opened SqlValues

  /** What the reader asks of Python: `repr(float(token))` and `str(bytes.fromhex(token))`, where they succeed. */
  datatype Python = Python(float: string -> Option<string>, fromHex: string -> Option<string>)

  // ----- one literal

  /** What a backslash and the character after it stand for. */
  function Unescape(c: char): char {
    if c == 'n' then '\n' else if c == 't' then '\t' else if c == 'r' then '\r' else if c == '0' then '\0'
    else if c == 'Z' then 26 as char else if c == 'b' then 8 as char else c
  }

  /** The rest of a string after its opening quote: its value and the text behind it. */
  function ReadString(t: string): (r: (string, string))
    ensures |r.1| <= |t|
    decreases |t|
  {
    if t == "" then ("", "")
    else if t[0] == '\\' && |t| > 1 then var r := ReadString(t[2..]); ([Unescape(t[1])] + r.0, r.1)
    else if t[0] == '\'' then ("", t[1..])
    else var r := ReadString(t[1..]); ([t[0]] + r.0, r.1)
  }

  predicate IsBlank(c: char) {
    c == ' ' || c == '\t'
  }

  function SkipBlanks(t: string): (r: string)
    ensures |r| <= |t| && (r == "" || !IsBlank(r[0]))
  {
    if t != "" && IsBlank(t[0]) then SkipBlanks(t[1..]) else t
  }

  /** Spaces and tabs are passed over, and with `commas` commas too. */
  predicate IsPassed(c: char, commas: bool) {
    c == ' ' || c == '\t' || (commas && c == ',')
  }

  /** `rest` starts at the first character that is not passed over. */
  predicate StartsPast(t: string, rest: string, commas: bool) {
    |rest| <= |t| && rest == t[|t| - |rest|..]
    && (forall i :: 0 <= i < |t| - |rest| ==> IsPassed(t[i], commas)) && (rest == "" || !IsPassed(rest[0], commas))
  }

  lemma PastMore(t: string, rest: string, commas: bool)
    requires t != "" && IsPassed(t[0], commas) && StartsPast(t[1..], rest, commas)
    ensures StartsPast(t, rest, commas)
  {
    var u := t[1..];
    assert t[|t| - |rest|..] == u[|u| - |rest|..];
    forall i | 0 <= i < |t| - |rest| ensures IsPassed(t[i], commas) { assert i > 0 ==> u[i - 1] == t[i]; }
  }

  lemma PastNone(t: string, commas: bool)
    requires t == "" || !IsPassed(t[0], commas)
    ensures StartsPast(t, t, commas)
  {
    assert t[0..] == t;
  }

  lemma {:induction false} SkipBlanksIs(t: string)
    ensures StartsPast(t, SkipBlanks(t), false)
  {
    if t != "" && IsBlank(t[0]) {
      SkipBlanksIs(t[1..]);
      PastMore(t, SkipBlanks(t[1..]), false);
    } else {
      PastNone(t, false);
    }
  }

  lemma {:induction false} SkipGapIs(t: string)
    ensures StartsPast(t, SkipGap(t), true)
  {
    if t != "" && (IsBlank(t[0]) || t[0] == ',') {
      SkipGapIs(t[1..]);
      PastMore(t, SkipGap(t[1..]), true);
    } else {
      PastNone(t, true);
    }
  }

  /** How far a bare token goes. */
  function TokenLength(t: string): (k: nat)
    ensures k <= |t|
  {
    if t != "" && t[0] != ',' && t[0] != ')' then 1 + TokenLength(t[1..]) else 0
  }

  function DigitValue(c: char): nat {
    if IsDigit(c) then c as int - '0' as int else 0
  }

  function DecimalValue(t: string): nat {
    if t == "" then 0 else 10 * DecimalValue(t[..|t| - 1]) + DigitValue(t[|t| - 1])
  }

  /** `_parse_scalar`: an integer has at most one sign, a token nothing else takes stays text. */
  function Scalar(token: string, py: Python): Value {
    if token == "" then Str("")
    else if "0x" <= token || "0X" <= token then
      var b := py.fromHex(token[2..]);
      if b.Some? then Bytes(b.value) else Str(token)
    else if AllDigits(DropMinus(token)) then
      if DropMinus(token) == token then Int(DecimalValue(token))
      else if |DropMinus(token)| == |token| - 1 then Int(0 - DecimalValue(DropMinus(token)))
      else Str(token)
    else
      var f := py.float(token);
      if f.Some? then Float(f.value) else Str(token)
  }

  predicate NullHere(t: string) {
    "NULL" <= t && (|t| == 4 || t[4] == ',' || t[4] == ')' || IsBlank(t[4]))
  }

  // ----- tuples

  function ReadCell(t: string, py: Python): (r: (Value, string))
    ensures |r.1| <= |t|
    ensures t != "" && t[0] != ',' && t[0] != ')' ==> |r.1| < |t|
  {
    if t != "" && t[0] == '\'' then var r := ReadString(t[1..]); (Str(r.0), r.1)
    else if NullHere(t) then (Null, t[4..])
    else (Scalar(Strip(t[..TokenLength(t)]), py), t[TokenLength(t)..])
  }

  /** Past the blanks and the one comma behind a cell. */
  function AfterCell(t: string): (r: string)
    ensures |r| <= |t| && (t != "" && t[0] == ',' ==> |r| < |t|)
  {
    var u := SkipBlanks(t);
    if u != "" && u[0] == ',' then u[1..] else u
  }

  /** The rest of a tuple after its opening parenthesis: its cells and the text behind it. */
  function ReadCells(t: string, py: Python): (r: (Row, string))
    ensures |r.1| <= |t|
    decreases |t|
  {
    var u := SkipBlanks(t);
    if u == "" then ([], "")
    else if u[0] == ')' then ([], u[1..])
    else
      var cell := ReadCell(u, py);
      var more := ReadCells(AfterCell(cell.1), py);
      ([cell.0] + more.0, more.1)
  }

  function SkipGap(t: string): (r: string)
    ensures |r| <= |t| && (r == "" || (!IsBlank(r[0]) && r[0] != ','))
  {
    if t != "" && (IsBlank(t[0]) || t[0] == ',') then SkipGap(t[1..]) else t
  }

  /** The rows of a payload. */
  function ReadRows(t: string, py: Python): seq<Row>
    decreases |t|
  {
    var u := SkipGap(t);
    if u == "" || u[0] != '(' then []
    else var row := ReadCells(u[1..], py); [row.0] + ReadRows(row.1, py)
  }

  // ----- the script's loops

  lemma Step(t: string, i: nat)
    requires i < |t|
    ensures t[i..] != "" && t[i..][0] == t[i] && t[i..][1..] == t[i + 1..]
    ensures i + 2 <= |t| ==> |t[i..]| > 1 && t[i..][1] == t[i + 1] && t[i..][2..] == t[i + 2..]
  {
    var u := t[i..];
    assert u[1..] == t[i + 1..];
    if i + 2 <= |t| { assert u[2..] == t[i + 2..]; }
  }

  /** What was read so far, before what the rest gives. */
  function Onto<T>(done: seq<T>, rest: (seq<T>, string)): (seq<T>, string) {
    (done + rest.0, rest.1)
  }

  lemma OntoMore<T>(done: seq<T>, x: T, rest: (seq<T>, string))
    ensures Onto(done, ([x] + rest.0, rest.1)) == Onto(done + [x], rest)
  {
    assert done + ([x] + rest.0) == done + [x] + rest.0;
  }

  method ParseQuotedString(payload: string, start: nat) returns (value: string, i: nat)
    requires start <= |payload|
    ensures start <= i <= |payload| && ReadString(payload[start..]) == (value, payload[i..])
  {
    value, i := "", start;
    assert "" + ReadString(payload[start..]).0 == ReadString(payload[start..]).0;
    while i < |payload|
      invariant start <= i <= |payload|
      invariant ReadString(payload[start..]) == Onto(value, ReadString(payload[i..]))
    {
      Step(payload, i);
      var c := payload[i];
      if c == '\\' && i + 1 < |payload| {
        OntoMore(value, Unescape(payload[i + 1]), ReadString(payload[i + 2..]));
        value := value + [Unescape(payload[i + 1])];
        i := i + 2;
      } else if c == '\'' {
        i := i + 1;
        assert value + "" == value;
        return;
      } else {
        OntoMore(value, c, ReadString(payload[i + 1..]));
        value := value + [c];
        i := i + 1;
      }
    }
    assert payload[i..] == "" && value + "" == value;
  }

  method SkipBlanksFrom(payload: string, start: nat) returns (i: nat)
    requires start <= |payload|
    ensures start <= i <= |payload| && payload[i..] == SkipBlanks(payload[start..])
  {
    i := start;
    while i < |payload| && IsBlank(payload[i])
      invariant start <= i <= |payload| && SkipBlanks(payload[i..]) == SkipBlanks(payload[start..])
    {
      Step(payload, i);
      i := i + 1;
    }
    if i < |payload| { Step(payload, i); }
  }

  method TokenEnd(payload: string, start: nat) returns (i: nat)
    requires start <= |payload|
    ensures i == start + TokenLength(payload[start..]) && i <= |payload|
  {
    i := start;
    while i < |payload| && payload[i] != ',' && payload[i] != ')'
      invariant start <= i <= |payload|
      invariant i + TokenLength(payload[i..]) == start + TokenLength(payload[start..])
    {
      Step(payload, i);
      i := i + 1;
    }
    if i < |payload| { Step(payload, i); }
  }

  /** One cell of `_parse_tuple`. */
  method ParseCell(payload: string, start: nat, py: Python) returns (value: Value, i: nat)
    requires start < |payload|
    ensures start <= i <= |payload| && ReadCell(payload[start..], py) == (value, payload[i..])
  {
    Step(payload, start);
    ghost var t := payload[start..];
    if payload[start] == '\'' {
      var s;
      s, i := ParseQuotedString(payload, start + 1);
      return Str(s), i;
    }
    var end := if start + 4 <= |payload| then start + 4 else |payload|;
    assert payload[start..end] == "NULL" <==> "NULL" <= t;
    if payload[start..end] == "NULL"
       && (start + 4 == |payload| || payload[start + 4] in ",)" || IsBlank(payload[start + 4])) {
      assert t[4..] == payload[start + 4..];
      return Null, start + 4;
    }
    i := TokenEnd(payload, start);
    assert payload[start..i] == t[..i - start] && payload[i..] == t[i - start..];
    value := Scalar(Strip(payload[start..i]), py);
  }

  /** Past the blanks and the one comma behind a cell. */
  method PassCell(payload: string, start: nat) returns (i: nat)
    requires start <= |payload|
    ensures start <= i <= |payload| && payload[i..] == AfterCell(payload[start..])
  {
    i := SkipBlanksFrom(payload, start);
    if i < |payload| {
      Step(payload, i);
      if payload[i] == ',' {
        i := i + 1;
      }
    }
  }

  lemma CellsStep(t: string, py: Python)
    requires SkipBlanks(t) != "" && SkipBlanks(t)[0] != ')'
    ensures var cell := ReadCell(SkipBlanks(t), py); var rest := AfterCell(cell.1);
      |rest| < |t| && ReadCells(t, py) == ([cell.0] + ReadCells(rest, py).0, ReadCells(rest, py).1)
  {
  }

  lemma CellsEnd(t: string, row: Row, py: Python)
    requires SkipBlanks(t) == "" || SkipBlanks(t)[0] == ')'
    ensures Onto(row, ReadCells(t, py)) == (row, if SkipBlanks(t) == "" then "" else SkipBlanks(t)[1..])
  {
    assert row + [] == row;
  }

  method ParseTuple(payload: string, start: nat, py: Python) returns (row: Row, i: nat)
    requires start <= |payload|
    ensures start <= i <= |payload| && ReadCells(payload[start..], py) == (row, payload[i..])
  {
    row, i := [], start;
    assert [] + ReadCells(payload[start..], py).0 == ReadCells(payload[start..], py).0;
    while i < |payload|
      invariant start <= i <= |payload|
      invariant ReadCells(payload[start..], py) == Onto(row, ReadCells(payload[i..], py))
      decreases |payload| - i
    {
      ghost var before := payload[i..];
      i := SkipBlanksFrom(payload, i);
      if i >= |payload| {
        CellsEnd(before, row, py);
        return;
      }
      Step(payload, i);
      if payload[i] == ')' {
        CellsEnd(before, row, py);
        i := i + 1;
        return;
      }
      CellsStep(before, py);
      var value;
      value, i := ParseCell(payload, i, py);
      i := PassCell(payload, i);
      OntoMore(row, value, ReadCells(payload[i..], py));
      row := row + [value];
    }
    assert payload[i..] == "";
    CellsEnd("", row, py);
  }

  lemma RowsStep(t: string, u: string, rest: string, py: Python)
    requires SkipGap(t) == u && u != "" && u[0] == '(' && rest == ReadCells(u[1..], py).1
    ensures |rest| < |t| && ReadRows(t, py) == [ReadCells(u[1..], py).0] + ReadRows(rest, py)
  {
  }

  method SkipGapFrom(payload: string, start: nat) returns (i: nat)
    requires start <= |payload|
    ensures start <= i <= |payload| && payload[i..] == SkipGap(payload[start..])
  {
    i := start;
    while i < |payload| && payload[i] in " \t,"
      invariant start <= i <= |payload| && SkipGap(payload[i..]) == SkipGap(payload[start..])
    {
      Step(payload, i);
      i := i + 1;
    }
    if i < |payload| { Step(payload, i); }
  }

  lemma NoRow(t: string, rows: seq<Row>, py: Python)
    requires SkipGap(t) == "" || SkipGap(t)[0] != '('
    ensures rows + ReadRows(t, py) == rows
  {
  }

  lemma OneMoreRow(rows: seq<Row>, row: Row, rest: seq<Row>)
    ensures rows + ([row] + rest) == rows + [row] + rest
  {
  }

  lemma NextRow(t: string, u: string, row: Row, rest: string, rows: seq<Row>, py: Python)
    requires SkipGap(t) == u && u != "" && u[0] == '(' && ReadCells(u[1..], py) == (row, rest)
    ensures |rest| < |t| && rows + ReadRows(t, py) == (rows + [row]) + ReadRows(rest, py)
  {
    RowsStep(t, u, rest, py);
    OneMoreRow(rows, row, ReadRows(rest, py));
  }

  /** All tuples the generator yields. */
  method IterValueTuples(payload: string, py: Python) returns (rows: seq<Row>)
    ensures rows == ReadRows(payload, py)
  {
    rows := [];
    var i := 0;
    assert payload[0..] == payload && [] + ReadRows(payload, py) == ReadRows(payload, py);
    while i < |payload|
      invariant 0 <= i <= |payload|
      invariant ReadRows(payload, py) == rows + ReadRows(payload[i..], py)
      decreases |payload| - i
    {
      ghost var before := payload[i..];
      i := SkipGapFrom(payload, i);
      if i >= |payload| {
        NoRow(before, rows, py);
        return;
      }
      Step(payload, i);
      if payload[i] != '(' {
        NoRow(before, rows, py);
        return;
      }
      ghost var u := payload[i..];
      var row;
      row, i := ParseTuple(payload, i + 1, py);
      NextRow(before, u, row, payload[i..], rows, py);
      rows := rows + [row];
    }
    assert payload[i..] == "";
    NoRow("", rows, py);
  }
}

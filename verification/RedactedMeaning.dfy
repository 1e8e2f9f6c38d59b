/** Redaction by meaning: what the payloads that scripts/customer_export.py rewrites (lines 236-269) and the rewritten
    ones mean to MySQL. */
module RedactedMeaning {
  import opened Text
  import opened SqlValues
  import opened DumpReader
  import opened RoundTrip
  import opened Redaction
  import opened Rewriter
  import opened MySqlMeaning
  import opened EmittedMeaning

  /** No cell that is kept holds a pattern; the redacted cells of table-wide rows may. */
  predicate KeptHoldNone(decisions: seq<Decision>, held: seq<seq<int>>) {
    forall j :: 0 <= j < |held| ==> KeptOfRow(decisions, held[j])
  }

  predicate KeptOfRow(decisions: seq<Decision>, held: seq<int>) {
    forall i :: 0 <= i < |held| && held[i] != 0 ==> |held| == |decisions| && decisions[i].redact
  }

  /** No string of the payload is followed by another, and `\%` and `\_` stand in redacted cells only. */
  predicate KeepsMeaning(decisions: seq<Decision>, t: string)
    requires RowsMeaning(t).Some?
  {
    Rejoins(t, false) == 0 && KeptHoldNone(decisions, PatternsHeld(t))
  }

  lemma RowAlikeIff(decisions: seq<Decision>, meant: Row, read: Row, held: seq<int>)
    requires ReadsUpTo(meant, read, held)
    ensures Alike(decisions, read, meant) <==> KeptOfRow(decisions, held)
  {
    assert read == meant <==> forall i :: 0 <= i < |meant| ==> read[i] == meant[i];
  }

  lemma RowsAlikeIff(decisions: seq<Decision>, meant: seq<Row>, read: seq<Row>, d: int, p: int, held: seq<seq<int>>)
    requires RowsOffBy(meant, read, d, p, held)
    ensures AlikeRows(decisions, read, meant) <==> d == 0 && KeptHoldNone(decisions, held)
  {
    if d == 0 {
      forall j | 0 <= j < |meant| ensures Alike(decisions, read[j], meant[j]) <==> KeptOfRow(decisions, held[j]) {
        assert RowOff(meant[j], read[j], held[j]) && |read[j]| == |meant[j]|;
        RowAlikeIff(decisions, meant[j], read[j], held[j]);
      }
    }
    if AlikeRows(decisions, read, meant) {
      forall j | 0 <= j < |meant| ensures |read[j]| == |meant[j]| { assert Alike(decisions, read[j], meant[j]); }
    }
  }

  lemma PlainIsSettled(rows: seq<Row>)
    requires PlainRows(rows)
    ensures SettledRows(rows) == rows && NoFloats(rows)
  {
    forall j | 0 <= j < |rows| ensures SettledRow(rows[j]) == rows[j] { assert Plain(rows[j]); }
  }

  /** A payload is read, outside redacted cells, as MySQL means it exactly when it keeps its meaning. */
  lemma ReadAlikeIff(decisions: seq<Decision>, t: string, py: Python)
    requires RowsMeaning(t).Some?
    ensures PlainRows(ReadRows(t, py)) && PlainRows(RowsMeaning(t).value) && RowsMeaning(t).value != []
    ensures |ReadRows(t, py)| == |RowsMeaning(t).value|
    ensures AlikeRows(decisions, ReadRows(t, py), RowsMeaning(t).value) <==> KeepsMeaning(decisions, t)
  {
    var meant, read, held := RowsMeaning(t).value, ReadRows(t, py), PatternsHeld(t);
    PayloadOffBy(t, py);
    RowsAlikeIff(decisions, meant, read, Rejoins(t, false), MySqlMeaning.Patterns(t, false), held);
    forall j | 0 <= j < |meant| ensures Plain(meant[j]) && Plain(read[j]) {
      assert RowOff(meant[j], read[j], held[j]);
    }
  }

  /** The canonical payload of some rows is read as them. */
  lemma CanonicalReads(rows: seq<Row>, py: Python)
    requires PlainRows(rows)
    ensures ReadRows(EmitRows(rows), py) == rows
  {
    forall j | 0 <= j < |rows| ensures RowOk(rows[j], py) { assert Plain(rows[j]); }
    PlainIsSettled(rows);
    EmittedRowsReadBack(rows, py);
  }

  /** A payload comes out as the canonical payload of its meaning does exactly when no string in it is followed by
      another and no kept cell holds a pattern. */
  lemma CanonicalOutputIff(columns: seq<string>, decisions: seq<Decision>, t: string, hint: string -> bool, py: Python)
    requires |columns| == |decisions| && !NothingRedacted(decisions) && ReprReads(py) && RowsMeaning(t).Some?
    ensures var q := EmitRows(RowsMeaning(t).value);
      RowsMeaning(q) == RowsMeaning(t)
      && (Rewrite(columns, decisions, t, hint, py).text == Rewrite(columns, decisions, q, hint, py).text
          <==> KeepsMeaning(decisions, t))
  {
    var meant := RowsMeaning(t).value;
    ReadAlikeIff(decisions, t, py);
    PlainIsSettled(ReadRows(t, py));
    PlainIsSettled(meant);
    CanonicalReads(meant, py);
    EmittedRowsMean(meant, py);
    SameOutputIff(columns, decisions, t, EmitRows(meant), hint, py);
  }

  /** The output means to MySQL the masked rows that the payload means exactly when the payload keeps its meaning. */
  lemma OutputMeansMaskedIff(columns: seq<string>, decisions: seq<Decision>, t: string, hint: string -> bool,
                             py: Python)
    requires |columns| == |decisions| && !NothingRedacted(decisions) && RowsMeaning(t).Some?
    ensures RowsMeaning(Rewrite(columns, decisions, t, hint, py).text)
            == Some(RewriteRows(columns, decisions, RowsMeaning(t).value, hint))
            <==> KeepsMeaning(decisions, t)
  {
    var meant, read := RowsMeaning(t).value, ReadRows(t, py);
    ReadAlikeIff(decisions, t, py);
    PlainIsSettled(read);
    PlainIsSettled(meant);
    MaskedIsPlain(columns, decisions, read, hint);
    MaskedIsPlain(columns, decisions, meant, hint);
    EmittedRowsMean(RewriteRows(columns, decisions, read, hint), py);
    SameRowsIff(columns, decisions, read, meant, hint);
  }

  lemma MaskedIsPlain(columns: seq<string>, decisions: seq<Decision>, rows: seq<Row>, hint: string -> bool)
    requires |columns| == |decisions| && PlainRows(rows)
    ensures var masked := RewriteRows(columns, decisions, rows, hint);
      PlainRows(masked) && SettledRows(masked) == masked && NoFloats(masked)
  {
    var masked := RewriteRows(columns, decisions, rows, hint);
    forall j | 0 <= j < |rows| ensures Plain(masked[j]) { assert Plain(rows[j]); }
    PlainIsSettled(masked);
  }

  /** Two payloads that keep their meaning come out the same if and only if they mean rows alike outside redacted
      cells, whatever those cells hold. */
  lemma RedactedMeaningDoesNotShow(columns: seq<string>, decisions: seq<Decision>, p: string, q: string,
                                   hint: string -> bool, py: Python)
    requires |columns| == |decisions| && !NothingRedacted(decisions) && ReprReads(py)
    requires RowsMeaning(p).Some? && KeepsMeaning(decisions, p) && RowsMeaning(q).Some? && KeepsMeaning(decisions, q)
    ensures Rewrite(columns, decisions, p, hint, py) == Rewrite(columns, decisions, q, hint, py)
            <==> AlikeRows(decisions, RowsMeaning(p).value, RowsMeaning(q).value)
  {
    ReadAlikeIff(decisions, p, py);
    ReadAlikeIff(decisions, q, py);
    PlainIsSettled(ReadRows(p, py));
    PlainIsSettled(ReadRows(q, py));
    SameOutputIff(columns, decisions, p, q, hint, py);
    AlikeThrough(decisions, ReadRows(p, py), RowsMeaning(p).value, ReadRows(q, py), RowsMeaning(q).value);
  }

  lemma AlikeThrough(decisions: seq<Decision>, a: seq<Row>, a': seq<Row>, b: seq<Row>, b': seq<Row>)
    requires AlikeRows(decisions, a, a') && AlikeRows(decisions, b, b')
    ensures AlikeRows(decisions, a, b) <==> AlikeRows(decisions, a', b')
  {
    forall j | 0 <= j < |a| && j < |b| ensures Alike(decisions, a[j], b[j]) <==> Alike(decisions, a'[j], b'[j]) {
      assert Alike(decisions, a[j], a'[j]) && Alike(decisions, b[j], b'[j]);
    }
  }

  // ----- which redacted cells are printed

  /** A cell that tells nothing: NULL or the placeholder of its column. */
  predicate Hidden(columns: seq<string>, decisions: seq<Decision>, row: Row, i: nat, hint: string -> bool)
    requires |columns| == |decisions| && i < |row| && i < |columns|
  {
    row[i] == Null || row[i] == MaskValue(columns[i], Int(0), decisions[i], hint)
  }

  /** Whatever the text, a cell under a redacted column is hidden in the output exactly when its row reads as wide as
      the table, or when the cell itself was hidden already. */
  lemma HiddenIff(columns: seq<string>, decisions: seq<Decision>, t: string, j: nat, i: nat, hint: string -> bool,
                  py: Python)
    requires |columns| == |decisions| && ReprReads(py)
    requires i < |columns| && decisions[i].redact && j < |ReadRows(t, py)| && i < |ReadRows(t, py)[j]|
    ensures var row := ReadRows(t, py)[j];
      var out := ReadRows(Rewrite(columns, decisions, t, hint, py).text, py);
      j < |out| && |out[j]| == |row|
      && (Hidden(columns, decisions, out[j], i, hint)
          <==> |row| == |columns| || Hidden(columns, decisions, SettledRow(row), i, hint))
  {
    OutputReadsAs(columns, decisions, t, hint, py);
  }
}

/** Backfilling identity subjects into a binding manifest (scripts/ingest_iam_sub_backfill.py, lines 88-239). The
    manifest's entries are objects the script changes in place through an index by id. */
module Backfill {
  import opened Text

  const PLACEHOLDER_PREFIX := "iaf-sd-"
  const MISSING_TOKENS: set<string> := {"", "iam_account_missing", "missing", "none", "null"}
  const WATERMARK := " | iam-sub backfilled"

  datatype Row = Row(legacyId: string, iafSub: string, status: string)

  /** An entry's fields that matter here, as a value. */
  datatype Binding = Binding(legacyId: string, iafSub: string, status: string)

  class Entry {
    const legacyId: string
    const account: string
    var iafSub: string
    var status: string

    constructor (legacyId: string, account: string, iafSub: string, status: string)
      ensures this.legacyId == legacyId && this.account == account && this.iafSub == iafSub && this.status == status
    {
      this.legacyId, this.account, this.iafSub, this.status := legacyId, account, iafSub, status;
    }

    function Value(): Binding
      reads this
    {
      Binding(legacyId, iafSub, status)
    }
  }

  /** The subject and status to write for a row. */
  function Classify(sub: string, declared: string): (string, string) {
    var status := Lower(Strip(declared));
    if status == "disabled" || status == "unmatched" then (Strip(sub), status)
    else if Lower(Strip(sub)) in MISSING_TOKENS then ("", "iam_account_missing")
    else (Strip(sub), if status == "" then "bound" else status)
  }

  // ----- the result, as a function of the entries and the rows

  function LastRow(rows: seq<Row>, id: string): Option<Row> {
    if rows == [] then None
    else if rows[|rows| - 1].legacyId == id then Some(rows[|rows| - 1])
    else LastRow(rows[..|rows| - 1], id)
  }

  /** The index by id keeps the last entry with an id. */
  predicate IsLast(entries: seq<Binding>, i: nat)
    requires i < |entries|
  {
    forall j :: i < j < |entries| ==> entries[j].legacyId != entries[i].legacyId
  }

  predicate Known(entries: seq<Binding>, id: string) {
    exists i :: 0 <= i < |entries| && entries[i].legacyId == id
  }

  function Filled(b: Binding, row: Option<Row>): Binding {
    if row == None then b
    else var c := Classify(row.value.iafSub, row.value.status); b.(iafSub := c.0, status := c.1)
  }

  /** Each entry the index reaches takes the classification of the last row with its id; nothing else changes. */
  function Backfilled(entries: seq<Binding>, rows: seq<Row>): (r: seq<Binding>)
    ensures |r| == |entries|
    ensures forall i :: 0 <= i < |entries| ==> r[i].legacyId == entries[i].legacyId
    ensures forall i :: 0 <= i < |entries| ==>
      r[i] == if IsLast(entries, i) then Filled(entries[i], LastRow(rows, entries[i].legacyId)) else entries[i]
  {
    seq(|entries|, i requires 0 <= i < |entries| =>
      if IsLast(entries, i) then Filled(entries[i], LastRow(rows, entries[i].legacyId)) else entries[i])
  }

  datatype Stats = Stats(rows: nat, replaced: nat, missing: nat, same: nat, notFound: nat)

  /** How one row counts, given the entries as the rows before it left them. */
  function Count(stats: Stats, entries: seq<Binding>, row: Row): Stats {
    var s := stats.(rows := stats.rows + 1);
    if !Known(entries, row.legacyId) then s.(notFound := s.notFound + 1)
    else
      var current, c := Current(entries, row.legacyId), Classify(row.iafSub, row.status);
      if (current.iafSub, current.status) == c then s.(same := s.same + 1)
      else if c.1 == "iam_account_missing" then s.(missing := s.missing + 1)
      else s.(replaced := s.replaced + 1)
  }

  /** The entry the index has for an id. */
  function Current(entries: seq<Binding>, id: string): Binding
    requires Known(entries, id)
  {
    if entries[|entries| - 1].legacyId == id then entries[|entries| - 1] else Current(entries[..|entries| - 1], id)
  }

  function StatsOf(entries: seq<Binding>, rows: seq<Row>): Stats {
    if rows == [] then Stats(0, 0, 0, 0, 0)
    else
      var before := rows[..|rows| - 1];
      Count(StatsOf(entries, before), Backfilled(entries, before), rows[|rows| - 1])
  }

  function Watermarked(description: string): string {
    if Contains(description, WATERMARK) then description else description + WATERMARK
  }

  // ----- the script's loop over live entries

  class Manifest {
    var entries: seq<Entry>
    var description: string

    constructor (entries: seq<Entry>, description: string)
      ensures this.entries == entries && this.description == description
    {
      this.entries, this.description := entries, description;
    }

    ghost predicate Valid()
      reads this
    {
      forall i, j :: 0 <= i < j < |entries| ==> entries[i] != entries[j]
    }

    function Values(): (v: seq<Binding>)
      reads this, entries
      ensures |v| == |entries| && forall i :: 0 <= i < |entries| ==> v[i] == entries[i].Value()
    {
      seq(|entries|, i requires 0 <= i < |entries| reads this, entries => entries[i].Value())
    }

    /** `_apply`: writes the rows into the entries and stamps the description. */
    method Apply(rows: seq<Row>) returns (stats: Stats)
      requires Valid()
      modifies this`description, entries
      ensures Valid() && entries == old(entries)
      ensures Values() == Backfilled(old(Values()), rows)
      ensures description == Watermarked(old(description))
      ensures stats == StatsOf(old(Values()), rows)
    {
      stats := ApplyRows(rows);
      if !Contains(description, WATERMARK) {
        description := description + WATERMARK;
      }
    }

    /** The loop over the rows. */
    method ApplyRows(rows: seq<Row>) returns (stats: Stats)
      requires Valid()
      modifies entries
      ensures Values() == Backfilled(old(Values()), rows) && stats == StatsOf(old(Values()), rows)
    {
      ghost var start := Values();
      var byId, at := IndexById();
      IndexPositions(byId, at, entries, start);
      stats := Stats(0, 0, 0, 0, 0);
      NothingRead(start, rows);
      for k := 0 to |rows|
        invariant Values() == Backfilled(start, rows[..k]) && stats == StatsOf(start, rows[..k])
      {
        ghost var now := Values();
        ghost var before := stats;
        stats := ApplyRow(rows[k], byId, at, stats);
        RowCounted(start, rows, k, now, Values(), at, before, stats);
      }
      assert rows[..|rows|] == rows;
    }

    /** The body of that loop, for one row. */
    method ApplyRow(row: Row, byId: map<string, Entry>, ghost at: map<string, nat>, before: Stats)
      returns (stats: Stats)
      requires Valid() && IndexOk(byId, at, entries, Values())
      modifies entries
      ensures stats == Count(before, old(Values()), row)
      ensures Values() == Written(old(Values()), row, at)
    {
      ghost var now := Values();
      stats := before.(rows := before.rows + 1);
      if row.legacyId !in byId {
        return stats.(notFound := stats.notFound + 1);
      }
      var entry := byId[row.legacyId];
      ghost var i := at[row.legacyId];
      var (newSub, newStatus) := Classify(row.iafSub, row.status);
      var was := (entry.iafSub, entry.status);
      CountAt(before, now, i, row);
      Write(entry, i, newSub, newStatus);
      if was == (newSub, newStatus) {
        stats := stats.(same := stats.same + 1);
      } else if newStatus == "iam_account_missing" {
        stats := stats.(missing := stats.missing + 1);
      } else {
        stats := stats.(replaced := stats.replaced + 1);
      }
    }

    /** The two assignments to an entry reached through the index. */
    method Write(entry: Entry, ghost i: nat, sub: string, status: string)
      requires Valid() && i < |entries| && entries[i] == entry
      modifies entry
      ensures Values() == old(Values())[i := Binding(entry.legacyId, sub, status)]
    {
      entry.iafSub := sub;
      entry.status := status;
      assert forall j :: 0 <= j < |entries| && j != i ==> entries[j] != entry;
    }

    /** The dict comprehension `{id: entry}`: later entries win. */
    method IndexById() returns (byId: map<string, Entry>, ghost at: map<string, nat>)
      ensures IndexOk(byId, at, entries, Values())
    {
      byId, at := map[], map[];
      ghost var v := Values();
      for k := 0 to |entries|
        invariant byId.Keys == at.Keys
        invariant forall i :: 0 <= i < k ==> v[i].legacyId in at
        invariant forall id :: id in at ==> at[id] < k && v[at[id]].legacyId == id && byId[id] == entries[at[id]]
        invariant forall id, j :: id in at && at[id] < j < k ==> v[j].legacyId != id
      {
        byId := byId[entries[k].legacyId := entries[k]];
        at := at[entries[k].legacyId := k];
      }
      assert v == Values();
    }

    /** `_scan_residual_placeholders`: the ids that still carry a placeholder subject. */
    method ResidualPlaceholders() returns (residual: seq<string>)
      ensures residual == PlaceholderIds(Values())
    {
      residual := [];
      for k := 0 to |entries|
        invariant residual == PlaceholderIds(Values()[..k])
      {
        assert Values()[..k + 1][..k] == Values()[..k] && Values()[..k + 1][k] == entries[k].Value();
        if StartsWith(entries[k].iafSub, PLACEHOLDER_PREFIX) {
          residual := residual + [entries[k].legacyId];
        }
      }
      assert Values()[..|entries|] == Values();
    }

    /** `main`: 1 for a row without an entry, 2 for a remaining placeholder, else 0; only then, and not in a dry run,
        the manifest is written. */
    method Ingest(rows: seq<Row>, dryRun: bool) returns (code: int, written: Option<(seq<Binding>, string)>)
      requires Valid()
      modifies this`description, entries
      ensures var after := Backfilled(old(Values()), rows);
        code == if !AllKnown(old(Values()), rows) then 1 else if !NoPlaceholders(after) then 2 else 0
      ensures written == if code == 0 && !dryRun
                         then Some((Backfilled(old(Values()), rows), Watermarked(old(description)))) else None
    {
      ghost var start := Values();
      var stats := Apply(rows);
      var residual := ResidualPlaceholders();
      NotFoundCounts(start, rows);
      PlaceholdersIff(Values());
      if stats.notFound > 0 {
        return 1, None;
      }
      if residual != [] {
        return 2, None;
      }
      code, written := 0, None;
      if !dryRun {
        written := Some((Values(), description));
      }
    }
  }

  /** The index holds, for every id, the last entry with it; `at` gives the positions. */
  ghost predicate IndexOk(byId: map<string, Entry>, at: map<string, nat>, entries: seq<Entry>, v: seq<Binding>)
    requires |v| == |entries|
  {
    byId.Keys == at.Keys
    && (forall i :: 0 <= i < |v| ==> v[i].legacyId in at)
    && (forall id :: id in at ==> at[id] < |v| && v[at[id]].legacyId == id && byId[id] == entries[at[id]])
    && forall id, j :: id in at && at[id] < j < |v| ==> v[j].legacyId != id
  }

  ghost predicate PositionsOk(start: seq<Binding>, at: map<string, nat>) {
    (forall id :: id in at ==> at[id] < |start| && IsLast(start, at[id]) && start[at[id]].legacyId == id)
    && forall id :: id !in at ==> !Known(start, id)
  }

  lemma IndexPositions(byId: map<string, Entry>, at: map<string, nat>, entries: seq<Entry>, start: seq<Binding>)
    requires |start| == |entries| && IndexOk(byId, at, entries, start)
    ensures PositionsOk(start, at)
  {
  }

  /** The entries after one row is written to the position the index has for it. */
  ghost function Written(v: seq<Binding>, row: Row, at: map<string, nat>): seq<Binding>
    requires forall id :: id in at ==> at[id] < |v|
  {
    if row.legacyId !in at then v
    else v[at[row.legacyId] := Binding(row.legacyId, Classify(row.iafSub, row.status).0,
                                       Classify(row.iafSub, row.status).1)]
  }

  lemma RowApplied(start: seq<Binding>, rows: seq<Row>, k: nat, now: seq<Binding>, next: seq<Binding>,
                   at: map<string, nat>)
    requires k < |rows| && now == Backfilled(start, rows[..k])
    requires PositionsOk(start, at)
    requires next == Written(now, rows[k], at)
    ensures next == Backfilled(start, rows[..k + 1])
  {
    BackfilledRow(start, rows, k);
  }

  lemma NothingRead(start: seq<Binding>, rows: seq<Row>)
    ensures Backfilled(start, rows[..0]) == start && StatsOf(start, rows[..0]) == Stats(0, 0, 0, 0, 0)
  {
    assert rows[..0] == [];
  }

  /** One more round of the loop. */
  lemma RowCounted(start: seq<Binding>, rows: seq<Row>, k: nat, now: seq<Binding>, next: seq<Binding>,
                   at: map<string, nat>, before: Stats, stats: Stats)
    requires k < |rows| && now == Backfilled(start, rows[..k]) && before == StatsOf(start, rows[..k])
    requires PositionsOk(start, at)
    requires next == Written(now, rows[k], at) && stats == Count(before, now, rows[k])
    ensures next == Backfilled(start, rows[..k + 1]) && stats == StatsOf(start, rows[..k + 1])
  {
    RowApplied(start, rows, k, now, next, at);
    StatsSnoc(start, rows, k);
  }

  lemma StatsSnoc(start: seq<Binding>, rows: seq<Row>, k: nat)
    requires k < |rows|
    ensures StatsOf(start, rows[..k + 1])
         == Count(StatsOf(start, rows[..k]), Backfilled(start, rows[..k]), rows[k])
  {
    assert rows[..k + 1][..k] == rows[..k] && rows[..k + 1][k] == rows[k];
  }

  predicate NoPlaceholders(entries: seq<Binding>) {
    forall i :: 0 <= i < |entries| ==> !StartsWith(entries[i].iafSub, PLACEHOLDER_PREFIX)
  }

  /** The ids of the entries with a placeholder subject, in order. */
  function PlaceholderIds(entries: seq<Binding>): seq<string> {
    if entries == [] then []
    else
      var last := entries[|entries| - 1];
      PlaceholderIds(entries[..|entries| - 1])
      + if StartsWith(last.iafSub, PLACEHOLDER_PREFIX) then [last.legacyId] else []
  }

  lemma {:induction false} PlaceholdersIff(entries: seq<Binding>)
    ensures PlaceholderIds(entries) == [] <==> NoPlaceholders(entries)
  {
    if entries != [] {
      var before, last := entries[..|entries| - 1], entries[|entries| - 1];
      PlaceholdersIff(before);
      assert entries == before + [last];
      assert NoPlaceholders(entries) <==> NoPlaceholders(before) && !StartsWith(last.iafSub, PLACEHOLDER_PREFIX) by {
        assert entries[|before|] == last && forall i :: 0 <= i < |before| ==> entries[i] == before[i];
      }
    }
  }

  predicate AllKnown(entries: seq<Binding>, rows: seq<Row>) {
    forall k :: 0 <= k < |rows| ==> Known(entries, rows[k].legacyId)
  }

  lemma {:induction false} CurrentIsLast(entries: seq<Binding>, i: nat)
    requires i < |entries| && IsLast(entries, i)
    ensures Known(entries, entries[i].legacyId) && Current(entries, entries[i].legacyId) == entries[i]
  {
    if i < |entries| - 1 {
      assert entries[|entries| - 1].legacyId != entries[i].legacyId;
      CurrentIsLast(entries[..|entries| - 1], i);
    }
  }

  /** One more row changes the one entry the index has for its id, if any. */
  lemma BackfilledRow(entries: seq<Binding>, rows: seq<Row>, k: nat)
    requires k < |rows|
    ensures var now, next, row := Backfilled(entries, rows[..k]), Backfilled(entries, rows[..k + 1]), rows[k];
      (!Known(entries, row.legacyId) ==> next == now)
      && forall i :: 0 <= i < |entries| && entries[i].legacyId == row.legacyId && IsLast(entries, i) ==>
        next == now[i := Binding(row.legacyId, Classify(row.iafSub, row.status).0,
                                 Classify(row.iafSub, row.status).1)]
  {
    var now, next := Backfilled(entries, rows[..k]), Backfilled(entries, rows[..k + 1]);
    LastRowSnoc(rows, k);
    if !Known(entries, rows[k].legacyId) {
      assert next == now;
    }
    forall i | 0 <= i < |entries| && entries[i].legacyId == rows[k].legacyId && IsLast(entries, i)
      ensures next == now[i := Binding(rows[k].legacyId, Classify(rows[k].iafSub, rows[k].status).0,
                                       Classify(rows[k].iafSub, rows[k].status).1)]
    {
      forall j | 0 <= j < |entries| && j != i ensures next[j] == now[j] {
        assert IsLast(entries, j) ==> entries[j].legacyId != rows[k].legacyId;
      }
    }
  }

  lemma LastRowSnoc(rows: seq<Row>, k: nat)
    requires k < |rows|
    ensures forall id :: LastRow(rows[..k + 1], id) == if rows[k].legacyId == id then Some(rows[k])
                                                        else LastRow(rows[..k], id)
  {
    var longer := rows[..k + 1];
    assert |longer| == k + 1 && longer[..k] == rows[..k] && longer[k] == rows[k];
    forall id
      ensures LastRow(longer, id) == if rows[k].legacyId == id then Some(rows[k]) else LastRow(rows[..k], id)
    {
    }
  }

  // ----- what the counters say

  /** Every row read is counted exactly once. */
  lemma {:induction false} CountersAddUp(entries: seq<Binding>, rows: seq<Row>)
    ensures var s := StatsOf(entries, rows);
      s.rows == |rows| && s.replaced + s.missing + s.same + s.notFound == s.rows
  {
    if rows != [] {
      CountersAddUp(entries, rows[..|rows| - 1]);
    }
  }

  /** How a row counts whose id the index has at position `i`. */
  lemma CountAt(stats: Stats, v: seq<Binding>, i: nat, row: Row)
    requires i < |v| && IsLast(v, i) && v[i].legacyId == row.legacyId
    ensures var s, c := stats.(rows := stats.rows + 1), Classify(row.iafSub, row.status);
      Count(stats, v, row) == if (v[i].iafSub, v[i].status) == c then s.(same := s.same + 1)
                              else if c.1 == "iam_account_missing" then s.(missing := s.missing + 1)
                              else s.(replaced := s.replaced + 1)
  {
    CurrentIsLast(v, i);
  }

  lemma CountNotFound(stats: Stats, entries: seq<Binding>, row: Row)
    ensures Count(stats, entries, row).notFound == stats.notFound + if Known(entries, row.legacyId) then 0 else 1
  {
  }

  /** Rows without an entry are counted as such. */
  lemma {:induction false} NotFoundCounts(entries: seq<Binding>, rows: seq<Row>)
    ensures StatsOf(entries, rows).notFound == 0 <==> AllKnown(entries, rows)
  {
    if rows != [] {
      var before, last := rows[..|rows| - 1], rows[|rows| - 1];
      NotFoundCounts(entries, before);
      CountNotFound(StatsOf(entries, before), Backfilled(entries, before), last);
      AllKnownSnoc(entries, before, last);
      assert rows == before + [last];
    }
  }

  lemma AllKnownSnoc(entries: seq<Binding>, before: seq<Row>, last: Row)
    ensures AllKnown(entries, before + [last]) <==> AllKnown(entries, before) && Known(entries, last.legacyId)
  {
    var rows := before + [last];
    assert rows[|before|] == last && forall i :: 0 <= i < |before| ==> rows[i] == before[i];
  }

  // ----- running the same backfill again

  /** The same rows again change nothing. */
  lemma BackfillTwice(entries: seq<Binding>, rows: seq<Row>)
    ensures Backfilled(Backfilled(entries, rows), rows) == Backfilled(entries, rows)
  {
    var once := Backfilled(entries, rows);
    assert forall i :: 0 <= i < |entries| ==> (IsLast(once, i) <==> IsLast(entries, i));
  }

  /** Nor do they touch the watermark. */
  lemma WatermarkTwice(description: string)
    ensures Watermarked(Watermarked(description)) == Watermarked(description)
  {
    if !Contains(description, WATERMARK) {
      assert OccursAt(description + WATERMARK, WATERMARK, |description|);
    }
  }

  /** The entry of a known id already holds what the row says. */
  predicate Holds(entries: seq<Binding>, row: Row) {
    Known(entries, row.legacyId) ==>
      (Current(entries, row.legacyId).iafSub, Current(entries, row.legacyId).status)
      == Classify(row.iafSub, row.status)
  }

  predicate NoChange(stats: Stats) {
    stats.replaced == 0 && stats.missing == 0
  }

  lemma CountChange(stats: Stats, entries: seq<Binding>, row: Row)
    ensures NoChange(Count(stats, entries, row)) <==> NoChange(stats) && Holds(entries, row)
  {
  }

  lemma HeldRowWritesNothing(entries: seq<Binding>, before: seq<Row>, row: Row)
    requires Holds(entries, row) && Backfilled(entries, before) == entries
    ensures Backfilled(entries, before + [row]) == entries
  {
    var rows := before + [row];
    assert rows[..|before|] == before && rows[..|before| + 1] == rows && rows[|before|] == row;
    BackfilledRow(entries, rows, |before|);
    if Known(entries, row.legacyId) {
      var at := LastEntry(entries, row.legacyId);
      CurrentIsLast(entries, at);
    }
  }

  predicate AllHold(entries: seq<Binding>, rows: seq<Row>) {
    forall i :: 0 <= i < |rows| ==> Holds(entries, rows[i])
  }

  lemma AllHoldSnoc(entries: seq<Binding>, before: seq<Row>, row: Row)
    ensures AllHold(entries, before + [row]) <==> AllHold(entries, before) && Holds(entries, row)
  {
    var rows := before + [row];
    assert rows[|before|] == row && forall i :: 0 <= i < |before| ==> rows[i] == before[i];
  }

  lemma StatsOfMore(entries: seq<Binding>, before: seq<Row>, row: Row)
    ensures StatsOf(entries, before + [row]) == Count(StatsOf(entries, before), Backfilled(entries, before), row)
  {
    assert (before + [row])[..|before|] == before;
  }

  lemma NoChangeStep(entries: seq<Binding>, before: seq<Row>, row: Row, rows: seq<Row>)
    requires rows == before + [row]
    requires NoChange(StatsOf(entries, before)) <==> AllHold(entries, before)
    requires NoChange(StatsOf(entries, before)) ==> Backfilled(entries, before) == entries
    ensures NoChange(StatsOf(entries, rows)) <==> AllHold(entries, rows)
    ensures NoChange(StatsOf(entries, rows)) ==> Backfilled(entries, rows) == entries
  {
    AllHoldSnoc(entries, before, row);
    StatsOfMore(entries, before, row);
    CountChange(StatsOf(entries, before), Backfilled(entries, before), row);
    if NoChange(StatsOf(entries, rows)) { HeldRowWritesNothing(entries, before, row); }
  }

  /** A run counts no change exactly when every row of a known id says what its entry holds. */
  lemma {:induction false} NoChangeIff(entries: seq<Binding>, rows: seq<Row>)
    ensures NoChange(StatsOf(entries, rows)) <==> AllHold(entries, rows)
    ensures NoChange(StatsOf(entries, rows)) ==> Backfilled(entries, rows) == entries
  {
    if rows != [] {
      Unsnoc(rows);
      NoChangeIff(entries, rows[..|rows| - 1]);
      NoChangeStep(entries, rows[..|rows| - 1], rows[|rows| - 1], rows);
    }
  }

  /** Rows that share a known id classify alike. */
  predicate RowsAgree(entries: seq<Binding>, rows: seq<Row>) {
    forall i, j :: 0 <= i < |rows| && 0 <= j < |rows| && rows[i].legacyId == rows[j].legacyId
                   && Known(entries, rows[i].legacyId) ==>
      Classify(rows[i].iafSub, rows[i].status) == Classify(rows[j].iafSub, rows[j].status)
  }

  lemma {:induction false} LastRowIs(rows: seq<Row>, k: nat) returns (l: nat)
    requires k < |rows|
    ensures l < |rows| && rows[l].legacyId == rows[k].legacyId && LastRow(rows, rows[k].legacyId) == Some(rows[l])
  {
    var n := |rows| - 1;
    if rows[n].legacyId == rows[k].legacyId { l := n; } else { l := LastRowIs(rows[..n], k); }
  }

  /** After a run, an entry holds what the last row with its id says. */
  lemma CurrentAfter(entries: seq<Binding>, rows: seq<Row>, k: nat) returns (l: nat)
    requires k < |rows|
    ensures l < |rows| && rows[l].legacyId == rows[k].legacyId
    ensures Known(Backfilled(entries, rows), rows[k].legacyId) <==> Known(entries, rows[k].legacyId)
    ensures Holds(Backfilled(entries, rows), rows[k]) <==>
      (Known(entries, rows[k].legacyId) ==>
        Classify(rows[l].iafSub, rows[l].status) == Classify(rows[k].iafSub, rows[k].status))
  {
    var once, id := Backfilled(entries, rows), rows[k].legacyId;
    l := LastRowIs(rows, k);
    if Known(entries, id) {
      var at := LastEntry(once, id);
      CurrentIsLast(once, at);
      assert entries[at].legacyId == id && IsLast(entries, at);
    }
  }

  /** A second run over the result counts no row as replaced or missing exactly when the rows of each known id
      classify alike. */
  lemma SecondRunIsUnchangedIff(entries: seq<Binding>, rows: seq<Row>)
    ensures NoChange(StatsOf(Backfilled(entries, rows), rows)) <==> RowsAgree(entries, rows)
  {
    var once := Backfilled(entries, rows);
    NoChangeIff(once, rows);
    forall k | 0 <= k < |rows|
      ensures RowsAgree(entries, rows) ==> Holds(once, rows[k])
    {
      var l := CurrentAfter(entries, rows, k);
    }
    if forall k :: 0 <= k < |rows| ==> Holds(once, rows[k]) {
      forall i, j | 0 <= i < |rows| && 0 <= j < |rows| && rows[i].legacyId == rows[j].legacyId
                    && Known(entries, rows[i].legacyId)
        ensures Classify(rows[i].iafSub, rows[i].status) == Classify(rows[j].iafSub, rows[j].status)
      {
        BothHold(entries, rows, i, j);
      }
    }
  }

  lemma BothHold(entries: seq<Binding>, rows: seq<Row>, i: nat, j: nat)
    requires i < |rows| && j < |rows| && rows[i].legacyId == rows[j].legacyId && Known(entries, rows[i].legacyId)
    requires Holds(Backfilled(entries, rows), rows[i]) && Holds(Backfilled(entries, rows), rows[j])
    ensures Classify(rows[i].iafSub, rows[i].status) == Classify(rows[j].iafSub, rows[j].status)
  {
  }

  lemma {:induction false} LastEntry(entries: seq<Binding>, id: string) returns (i: nat)
    requires Known(entries, id)
    ensures i < |entries| && entries[i].legacyId == id && IsLast(entries, i)
  {
    var n := |entries| - 1;
    if entries[n].legacyId == id {
      i := n;
    } else {
      i := LastEntry(entries[..n], id);
    }
  }

  // ----- what a row writes and how it counts

  /** The declared status, without case and space. */
  predicate Declares(row: Row, status: string) {
    Lower(Strip(row.status)) == status
  }

  /** The row names no account: its subject is blank or one of the words for a missing one. */
  predicate NamesNone(row: Row) {
    var sub := Lower(Strip(row.iafSub));
    sub == "" || sub == "iam_account_missing" || sub == "missing" || sub == "none" || sub == "null"
  }

  /** What an entry holds after a row: a disabled or unmatched account keeps its subject, a missing one has none, and
      any other is bound unless the row declares another status. */
  predicate Says(row: Row, sub: string, status: string) {
    if Declares(row, "disabled") then sub == Strip(row.iafSub) && status == "disabled"
    else if Declares(row, "unmatched") then sub == Strip(row.iafSub) && status == "unmatched"
    else if NamesNone(row) then sub == "" && status == "iam_account_missing"
    else if Declares(row, "") then sub == Strip(row.iafSub) && status == "bound"
    else sub == Strip(row.iafSub) && Declares(row, status)
  }

  lemma ClassifyIs(row: Row)
    ensures forall sub, status :: Says(row, sub, status) <==> (sub, status) == Classify(row.iafSub, row.status)
  {
  }

  /** The row is the last one with its id. */
  predicate IsLastRow(rows: seq<Row>, k: nat)
    requires k < |rows|
  {
    forall j :: k < j < |rows| ==> rows[j].legacyId != rows[k].legacyId
  }

  lemma {:induction false} LastRowIff(rows: seq<Row>, id: string, row: Row)
    ensures LastRow(rows, id) == Some(row)
            <==> exists k: nat :: k < |rows| && rows[k] == row && row.legacyId == id && IsLastRow(rows, k)
  {
    if rows != [] {
      var n := |rows| - 1;
      var before := rows[..n];
      LastRowIff(before, id, row);
      if rows[n].legacyId == id {
        assert IsLastRow(rows, n);
        forall k: nat | k < n && rows[k].legacyId == id ensures !IsLastRow(rows, k) {}
      } else {
        forall k: nat | k < n && rows[k].legacyId == id ensures IsLastRow(before, k) <==> IsLastRow(rows, k) {
          assert forall j :: k < j < n ==> before[j] == rows[j];
        }
      }
    }
  }

  /** After the run an entry that the index reaches says what the last row with its id does; every other entry, and one
      without a row, is as it was. */
  lemma BackfilledIs(entries: seq<Binding>, rows: seq<Row>, i: nat)
    requires i < |entries|
    ensures var was, now := entries[i], Backfilled(entries, rows)[i];
      now.legacyId == was.legacyId
      && ((forall k: nat :: k < |rows| && rows[k].legacyId == was.legacyId ==> !IsLast(entries, i)) ==> now == was)
      && forall k: nat :: k < |rows| && rows[k].legacyId == was.legacyId && IsLast(entries, i) && IsLastRow(rows, k) ==>
           Says(rows[k], now.iafSub, now.status)
  {
    var id := entries[i].legacyId;
    var last := LastRow(rows, id);
    if last.Some? {
      LastRowIff(rows, id, last.value);
      ClassifyIs(last.value);
    }
    forall k: nat | k < |rows| && rows[k].legacyId == id && IsLastRow(rows, k) ensures last == Some(rows[k]) {
      LastRowIff(rows, id, rows[k]);
    }
  }

  /** The entry that the index has for the row's id, as the rows before left it, already says what the row does. */
  ghost predicate SaysAlready(entries: seq<Binding>, rows: seq<Row>, k: nat)
    requires k < |rows|
  {
    exists i: nat :: i < |entries| && entries[i].legacyId == rows[k].legacyId && IsLast(entries, i)
      && Says(rows[k], Backfilled(entries, rows[..k])[i].iafSub, Backfilled(entries, rows[..k])[i].status)
  }

  /** The row makes its entry a missing account. */
  ghost predicate SaysMissing(row: Row) {
    exists sub :: Says(row, sub, "iam_account_missing")
  }

  datatype Kind = NotFound | Same | Missing | Replaced

  /** How row `k` counts. */
  ghost function KindOf(entries: seq<Binding>, rows: seq<Row>, k: nat): Kind
    requires k < |rows|
  {
    if !Known(entries, rows[k].legacyId) then NotFound
    else if SaysAlready(entries, rows, k) then Same
    else if SaysMissing(rows[k]) then Missing
    else Replaced
  }

  ghost function KindsOf(entries: seq<Binding>, rows: seq<Row>): (kinds: seq<Kind>)
    ensures |kinds| == |rows| && forall k :: 0 <= k < |rows| ==> kinds[k] == KindOf(entries, rows, k)
  {
    seq(|rows|, k requires 0 <= k < |rows| => KindOf(entries, rows, k))
  }

  function PlacesOf(kinds: seq<Kind>, n: nat, kind: Kind): set<nat>
    requires n <= |kinds|
  {
    set k: nat | k < n && kinds[k] == kind
  }

  lemma SaysAlreadyIff(entries: seq<Binding>, rows: seq<Row>, k: nat)
    requires k < |rows| && Known(entries, rows[k].legacyId)
    ensures SaysAlready(entries, rows, k) <==>
      var b := Current(Backfilled(entries, rows[..k]), rows[k].legacyId);
      (b.iafSub, b.status) == Classify(rows[k].iafSub, rows[k].status)
  {
    var now, id := Backfilled(entries, rows[..k]), rows[k].legacyId;
    var at := LastEntry(entries, id);
    assert IsLast(now, at);
    CurrentIsLast(now, at);
    ClassifyIs(rows[k]);
    forall i: nat | i < |entries| && entries[i].legacyId == id && IsLast(entries, i) ensures i == at {
      LastIsOne(entries, i, at);
    }
  }

  lemma LastIsOne(entries: seq<Binding>, i: nat, j: nat)
    requires i < |entries| && j < |entries| && entries[i].legacyId == entries[j].legacyId
    requires IsLast(entries, i) && IsLast(entries, j)
    ensures i == j
  {
  }

  function Counter(stats: Stats, kind: Kind): nat {
    match kind
    case NotFound => stats.notFound
    case Same => stats.same
    case Missing => stats.missing
    case Replaced => stats.replaced
  }

  lemma CountIs(entries: seq<Binding>, rows: seq<Row>, k: nat, stats: Stats, kind: Kind)
    requires k < |rows|
    ensures Counter(Count(stats, Backfilled(entries, rows[..k]), rows[k]), kind)
         == Counter(stats, kind) + if KindOf(entries, rows, k) == kind then 1 else 0
  {
    assert Known(Backfilled(entries, rows[..k]), rows[k].legacyId) <==> Known(entries, rows[k].legacyId);
    if Known(entries, rows[k].legacyId) { SaysAlreadyIff(entries, rows, k); }
    ClassifyIs(rows[k]);
    var c := Classify(rows[k].iafSub, rows[k].status);
    assert c.1 == "iam_account_missing" ==> Says(rows[k], c.0, "iam_account_missing");
  }

  lemma MoreOfKind(kinds: seq<Kind>, n: nat, kind: Kind)
    requires n < |kinds|
    ensures |PlacesOf(kinds, n + 1, kind)| == |PlacesOf(kinds, n, kind)| + if kinds[n] == kind then 1 else 0
  {
    var before := PlacesOf(kinds, n, kind);
    assert PlacesOf(kinds, n + 1, kind) == if kinds[n] == kind then before + {n} else before;
  }

  lemma CounterMore(entries: seq<Binding>, rows: seq<Row>, k: nat, kind: Kind)
    requires k < |rows|
    ensures Counter(StatsOf(entries, rows[..k + 1]), kind)
         == Counter(StatsOf(entries, rows[..k]), kind) + if KindOf(entries, rows, k) == kind then 1 else 0
  {
    StatsSnoc(entries, rows, k);
    CountIs(entries, rows, k, StatsOf(entries, rows[..k]), kind);
  }

  lemma {:induction false} StatsUpTo(entries: seq<Binding>, rows: seq<Row>, n: nat, kind: Kind)
    requires n <= |rows|
    ensures Counter(StatsOf(entries, rows[..n]), kind) == |PlacesOf(KindsOf(entries, rows), n, kind)|
  {
    if n > 0 {
      StatsUpTo(entries, rows, n - 1, kind);
      CounterMore(entries, rows, n - 1, kind);
      MoreOfKind(KindsOf(entries, rows), n - 1, kind);
    } else {
      assert rows[..n] == [] && PlacesOf(KindsOf(entries, rows), n, kind) == {};
    }
  }

  /** Each counter is the number of rows of its kind. */
  lemma StatsAre(entries: seq<Binding>, rows: seq<Row>, kind: Kind)
    ensures Counter(StatsOf(entries, rows), kind) == |PlacesOf(KindsOf(entries, rows), |rows|, kind)|
  {
    StatsUpTo(entries, rows, |rows|, kind);
    assert rows[..|rows|] == rows;
  }

  /** The stamp is there afterwards, once more only if it was not there before. */
  lemma WatermarkedIs(description: string)
    ensures var w := Watermarked(description);
      Contains(w, " | iam-sub backfilled")
      && (Contains(description, " | iam-sub backfilled") ==> w == description)
      && (!Contains(description, " | iam-sub backfilled") ==> w == description + " | iam-sub backfilled")
  {
    assert OccursAt(description + WATERMARK, WATERMARK, |description|);
  }

  ghost function Placeholders(entries: seq<Binding>): nat -> bool {
    (i: nat) => i < |entries| && "iaf-sd-" <= entries[i].iafSub
  }

  ghost function IdAt(entries: seq<Binding>): (nat, string) -> bool {
    (i: nat, id: string) => i < |entries| && id == entries[i].legacyId
  }

  /** The residual ids are those of the entries with a placeholder subject, in order. */
  lemma {:induction false} PlaceholderIdsAre(entries: seq<Binding>, k: nat)
    requires k <= |entries|
    ensures Picks(k, Placeholders(entries), IdAt(entries), PlaceholderIds(entries[..k]))
  {
    var keep, fits := Placeholders(entries), IdAt(entries);
    if k == 0 {
      PicksNone(keep, fits);
    } else {
      PlaceholderIdsAre(entries, k - 1);
      assert entries[..k][..k - 1] == entries[..k - 1];
      PicksMore(k - 1, keep, fits, PlaceholderIds(entries[..k - 1]),
                if keep(k - 1) then [entries[k - 1].legacyId] else []);
    }
  }
}

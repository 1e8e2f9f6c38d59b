/** Batches of dumps in scripts/customer_export.py (lines 94-189): bundling rewritten dumps into a directory with a
    manifest, and verifying the directory against it. The directory is an object the commands write to. */
module Batch {
  import opened Text
  import opened SqlValues
  import opened Rewriter
  import opened Checksum
  import opened Dumps

  /** What rewriting a dump gave. */
  datatype Output = Output(name: string, schema: string, piece: Piece)

  datatype Entry = Entry(filename: string, schema: string, rowcount: nat, crc32: string, sha256: string,
                         counts: Counts)

  datatype Manifest = Manifest(entries: seq<Entry>, totalRows: nat, summary: Counts)

  /** The files of a directory, by name. */
  type Directory = map<string, seq<Byte>>

  datatype Failure = Missing(name: string) | CrcMismatch(name: string) | ShaMismatch(name: string)

  function OutputOf(dump: Dump, tools: Tools): Output {
    Output(dump.name, tools.schemaOf(dump.name), Process(dump, tools))
  }

  function Outputs(dumps: seq<Dump>, tools: Tools): (o: seq<Output>)
    ensures |o| == |dumps| && forall i :: 0 <= i < |dumps| ==> o[i] == OutputOf(dumps[i], tools)
  {
    seq(|dumps|, i requires 0 <= i < |dumps| => OutputOf(dumps[i], tools))
  }

  /** What the glob `dump-*.sql` and a directory listing give: distinct names with that suffix. */
  predicate DumpNames(outs: seq<Output>) {
    (forall i :: 0 <= i < |outs| ==> EndsWith(outs[i].name, ".sql"))
    && forall i, j :: 0 <= i < j < |outs| ==> outs[i].name != outs[j].name
  }

  // ----- the manifest and the directory of a batch

  function EntryOf(o: Output, tools: Tools): Entry {
    var bytes := tools.encode(o.piece.text);
    Entry(o.name, o.schema, o.piece.rows, Hex8(Crc32(bytes)), tools.sha256(bytes), Tally(o.piece.kinds))
  }

  function EntriesOf(outs: seq<Output>, tools: Tools): (e: seq<Entry>)
    ensures |e| == |outs| && forall i :: 0 <= i < |outs| ==> e[i] == EntryOf(outs[i], tools)
  {
    seq(|outs|, i requires 0 <= i < |outs| => EntryOf(outs[i], tools))
  }

  function TotalRows(outs: seq<Output>): nat {
    if outs == [] then 0 else TotalRows(outs[..|outs| - 1]) + outs[|outs| - 1].piece.rows
  }

  /** The kinds counted over a whole batch. */
  function AllKinds(outs: seq<Output>): multiset<string> {
    if outs == [] then multiset{} else AllKinds(outs[..|outs| - 1]) + outs[|outs| - 1].piece.kinds
  }

  /** The manifest of a batch: one entry a dump, rows and counters summed over the files. */
  function ManifestOf(outs: seq<Output>, tools: Tools): Manifest {
    Manifest(EntriesOf(outs, tools), TotalRows(outs), Tally(AllKinds(outs)))
  }

  /** A directory with a dump, its checksum file and its row-count file written to it. */
  function Written(files: Directory, o: Output, tools: Tools): Directory {
    files[o.name := tools.encode(o.piece.text)]
         [o.name + ".crc" := tools.encode(Hex8(Crc32(tools.encode(o.piece.text))) + "\n")]
         [o.name + ".rowcount" := tools.encode(IntText(o.piece.rows) + "\n")]
  }

  /** The directory after all dumps were written to it, in order. */
  function WrittenAll(files: Directory, outs: seq<Output>, tools: Tools): Directory {
    if outs == [] then files
    else Written(WrittenAll(files, outs[..|outs| - 1], tools), outs[|outs| - 1], tools)
  }

  class BatchDir {
    var files: Directory
    var manifest: Option<Manifest>

    constructor ()
      ensures files == map[] && manifest == None
    {
      files, manifest := map[], None;
    }

    /** `bundle`: rewrites every dump into this directory and records the batch. Exit code 2 leaves a non-empty
        directory alone. */
    method Bundle(dumps: seq<Dump>, tools: Tools, force: bool) returns (code: int)
      modifies this
      ensures code == if !force && old(files != map[] || manifest.Some?) then 2 else 0
      ensures code == 2 ==> files == old(files) && manifest == old(manifest)
      ensures code == 0 ==> manifest == Some(ManifestOf(Outputs(dumps, tools), tools))
      ensures code == 0 ==> files == WrittenAll(old(files), Outputs(dumps, tools), tools)
      ensures code == 0 ==> Lists(manifest.value, dumps, tools)
    {
      ManifestLists(dumps, tools);
      if (files != map[] || manifest.Some?) && !force {
        return 2;
      }
      code := 0;
      var recorded := BundleAll(dumps, tools);
      manifest := Some(recorded);
    }

    /** The loop over the dumps. */
    method BundleAll(dumps: seq<Dump>, tools: Tools) returns (recorded: Manifest)
      modifies this`files
      ensures recorded == ManifestOf(Outputs(dumps, tools), tools)
      ensures files == WrittenAll(old(files), Outputs(dumps, tools), tools)
    {
      var entries: seq<Entry>, totalRows: nat, summary: Counts := [], 0, map[];
      ghost var start, outs: seq<Output> := files, [];
      for k := 0 to |dumps|
        invariant Gave(dumps, k, outs, tools)
        invariant SoFar(outs, entries, totalRows, summary, start, files, tools)
      {
        var entry := Postprocess(dumps[k], tools);
        ghost var o := OutputOf(dumps[k], tools);
        GaveStep(dumps, outs, tools);
        BatchStep(outs, o, entries, totalRows, summary, start, tools);
        entries := entries + [entry];
        totalRows := totalRows + entry.rowcount;
        summary := AddCounts(summary, entry.counts);
        outs := outs + [o];
      }
      GaveAll(dumps, outs, tools);
      recorded := Manifest(entries, totalRows, summary);
    }

    /** `postprocess`: rewrites one dump into this directory. */
    method Postprocess(dump: Dump, tools: Tools) returns (entry: Entry)
      modifies this`files
      ensures entry == EntryOf(OutputOf(dump, tools), tools)
      ensures files == Written(old(files), OutputOf(dump, tools), tools)
    {
      var text, rows, counts := ProcessDump(dump, tools);
      entry := WriteDump(dump.name, tools.schemaOf(dump.name), text, rows, counts, tools);
    }

    /** The tail of `postprocess`: the dump, its `.crc` and its `.rowcount`. */
    method WriteDump(name: string, schema: string, text: string, rows: nat, counts: Counts, tools: Tools)
      returns (entry: Entry)
      modifies this`files
      ensures var bytes := tools.encode(text);
        entry == Entry(name, schema, rows, Hex8(Crc32(bytes)), tools.sha256(bytes), counts)
      ensures files == Written(old(files), Output(name, schema, Piece(text, rows, multiset{})), tools)
    {
      var bytes := tools.encode(text);
      files := files[name := bytes];
      var crc := Crc32Hex(bytes);
      files := files[name + ".crc" := tools.encode(crc + "\n")];
      files := files[name + ".rowcount" := tools.encode(IntText(rows) + "\n")];
      entry := Entry(name, schema, rows, crc, tools.sha256(bytes), counts);
    }

    /** `verify`: 2 without a manifest, 1 with failures, 0 otherwise. */
    method Verify(sha256: seq<Byte> -> string) returns (code: int, failures: seq<Failure>)
      ensures code == 2 <==> manifest == None
      ensures manifest.Some? ==> failures == FailuresOf(manifest.value.entries, files, sha256)
      ensures manifest.Some? ==> code == if failures == [] then 0 else 1
      ensures manifest.Some? ==> FailuresStand(manifest.value.entries, files, sha256, failures)
    {
      failures := [];
      if manifest == None {
        return 2, [];
      }
      var entries := manifest.value.entries;
      for k := 0 to |entries|
        invariant failures == FailuresOf(entries[..k], files, sha256)
      {
        FailuresSnoc(entries, k, files, sha256);
        var more := CheckEntry(entries[k], sha256);
        failures := failures + more;
      }
      assert entries[..|entries|] == entries;
      FailuresStandIs(entries, files, sha256);
      code := if failures == [] then 0 else 1;
    }

    /** The body of that loop, for one entry. */
    method CheckEntry(entry: Entry, sha256: seq<Byte> -> string) returns (failures: seq<Failure>)
      ensures failures == FailuresFor(entry, files, sha256)
    {
      if entry.filename !in files {
        return [Missing(entry.filename)];
      }
      failures := [];
      var observedCrc := Crc32Hex(files[entry.filename]);
      var observedSha := sha256(files[entry.filename]);
      if observedCrc != entry.crc32 {
        failures := failures + [CrcMismatch(entry.filename)];
      }
      if observedSha != entry.sha256 {
        failures := failures + [ShaMismatch(entry.filename)];
      }
    }
  }

  /** The first `k` dumps gave `outs`. */
  ghost predicate Gave(dumps: seq<Dump>, k: nat, outs: seq<Output>, tools: Tools) {
    |outs| == k <= |dumps| && forall i :: 0 <= i < k ==> outs[i] == OutputOf(dumps[i], tools)
  }

  lemma GaveStep(dumps: seq<Dump>, outs: seq<Output>, tools: Tools)
    requires |outs| < |dumps| && Gave(dumps, |outs|, outs, tools)
    ensures Gave(dumps, |outs| + 1, outs + [OutputOf(dumps[|outs|], tools)], tools)
  {
  }

  lemma GaveAll(dumps: seq<Dump>, outs: seq<Output>, tools: Tools)
    requires Gave(dumps, |dumps|, outs, tools)
    ensures outs == Outputs(dumps, tools)
  {
  }

  /** The loop of `bundle` after the dumps that gave `outs`. */
  ghost predicate SoFar(outs: seq<Output>, entries: seq<Entry>, totalRows: nat, summary: Counts, start: Directory,
                        files: Directory, tools: Tools)
  {
    Manifest(entries, totalRows, summary) == ManifestOf(outs, tools) && files == WrittenAll(start, outs, tools)
  }

  lemma ManifestSnoc(outs: seq<Output>, o: Output, tools: Tools)
    ensures var m := ManifestOf(outs, tools);
      ManifestOf(outs + [o], tools) == Manifest(m.entries + [EntryOf(o, tools)], m.totalRows + o.piece.rows,
                                                Plus(m.summary, Tally(o.piece.kinds)))
  {
    assert (outs + [o])[..|outs|] == outs;
    PlusTally(AllKinds(outs), o.piece.kinds);
  }

  lemma BatchStep(outs: seq<Output>, o: Output, entries: seq<Entry>, totalRows: nat, summary: Counts,
                  start: Directory, tools: Tools)
    requires SoFar(outs, entries, totalRows, summary, start, WrittenAll(start, outs, tools), tools)
    ensures SoFar(outs + [o], entries + [EntryOf(o, tools)], totalRows + o.piece.rows,
                  Plus(summary, Tally(o.piece.kinds)), start, Written(WrittenAll(start, outs, tools), o, tools), tools)
  {
    ManifestSnoc(outs, o, tools);
  }

  // ----- what a bundle leaves in its directory

  /** A dump's rewritten bytes are in the directory under its own name. */
  predicate Present(o: Output, files: Directory, tools: Tools) {
    o.name in files && files[o.name] == tools.encode(o.piece.text)
  }

  /** Beside it stand its checksum and its row count, one line each. */
  predicate Annotated(o: Output, files: Directory, tools: Tools) {
    o.name + ".crc" in files && o.name + ".rowcount" in files
    && files[o.name + ".crc"] == tools.encode(Hex8(Crc32(tools.encode(o.piece.text))) + "\n")
    && files[o.name + ".rowcount"] == tools.encode(IntText(o.piece.rows) + "\n")
  }

  predicate Stored(outs: seq<Output>, files: Directory, tools: Tools) {
    forall i :: 0 <= i < |outs| ==> Present(outs[i], files, tools)
  }

  /** Different dumps write different files. */
  lemma NamesAreDisjoint(n: string, m: string)
    requires EndsWith(n, ".sql") && EndsWith(m, ".sql")
    ensures n != m + ".crc" && n != m + ".rowcount" && n + ".crc" != m + ".rowcount"
    ensures n != m ==> n + ".crc" != m + ".crc" && n + ".rowcount" != m + ".rowcount"
  {
    Endings(n);
    Endings(m);
    assert (n + ".crc")[..|n|] == n && (m + ".crc")[..|m|] == m;
    assert (n + ".rowcount")[..|n|] == n && (m + ".rowcount")[..|m|] == m;
  }

  lemma Endings(n: string)
    requires EndsWith(n, ".sql")
    ensures n[|n| - 1] == 'l' && (n + ".crc")[|n| + 3] == 'c' && (n + ".rowcount")[|n| + 8] == 't'
  {
    assert n[|n| - 1] == n[|n| - 4..][3];
  }

  lemma WrittenElsewhere(files: Directory, o: Output, other: Output, tools: Tools)
    requires EndsWith(o.name, ".sql") && EndsWith(other.name, ".sql") && o.name != other.name
    requires Present(o, files, tools) && Annotated(o, files, tools)
    ensures Present(o, Written(files, other, tools), tools) && Annotated(o, Written(files, other, tools), tools)
  {
    NamesAreDisjoint(o.name, other.name);
    NamesAreDisjoint(other.name, o.name);
  }

  lemma WrittenHere(files: Directory, o: Output, tools: Tools)
    ensures Present(o, Written(files, o, tools), tools) && Annotated(o, Written(files, o, tools), tools)
  {
    assert |o.name + ".crc"| == |o.name| + 4 && |o.name + ".rowcount"| == |o.name| + 9;
  }

  /** Every dump is there with its side files. */
  predicate Complete(outs: seq<Output>, files: Directory, tools: Tools) {
    forall i :: 0 <= i < |outs| ==> Present(outs[i], files, tools) && Annotated(outs[i], files, tools)
  }

  lemma CompleteStep(outs: seq<Output>, o: Output, all: seq<Output>, before: Directory, after: Directory, tools: Tools)
    requires all == outs + [o] && DumpNames(all) && Complete(outs, before, tools) && after == Written(before, o, tools)
    ensures Complete(all, after, tools)
  {
    assert all[|outs|] == o;
    WrittenHere(before, o, tools);
    forall i | 0 <= i < |outs| ensures Present(all[i], after, tools) && Annotated(all[i], after, tools) {
      assert all[i] == outs[i] && outs[i].name != o.name && EndsWith(all[i].name, ".sql");
      WrittenElsewhere(before, outs[i], o, tools);
    }
  }

  /** After bundling, every dump stands in the directory with its checksum and row-count files, whatever was there
      before: no later dump overwrites an earlier one's files. */
  lemma {:induction false} BundledIsStored(start: Directory, outs: seq<Output>, tools: Tools)
    requires DumpNames(outs)
    ensures Complete(outs, WrittenAll(start, outs, tools), tools)
  {
    if outs != [] {
      var n := |outs| - 1;
      Unsnoc(outs);
      BundledIsStored(start, outs[..n], tools);
      var before := WrittenAll(start, outs[..n], tools);
      CompleteStep(outs[..n], outs[n], outs, before, WrittenAll(start, outs, tools), tools);
    }
  }

  /** What the entries of a manifest count for one kind. */
  function KindTotal(entries: seq<Entry>, kind: string): nat {
    if entries == [] then 0
    else KindTotal(entries[..|entries| - 1], kind) + CountOf(entries[|entries| - 1].counts, kind)
  }

  function CountOf(counts: Counts, kind: string): nat {
    if kind in counts then counts[kind] else 0
  }

  function RowTotal(entries: seq<Entry>): nat {
    if entries == [] then 0 else RowTotal(entries[..|entries| - 1]) + entries[|entries| - 1].rowcount
  }

  predicate AddsUp(m: Manifest, kind: string) {
    CountOf(m.summary, kind) == KindTotal(m.entries, kind) && m.totalRows == RowTotal(m.entries)
  }

  lemma AddsUpMore(outs: seq<Output>, o: Output, all: seq<Output>, tools: Tools, kind: string)
    requires all == outs + [o] && AddsUp(ManifestOf(outs, tools), kind)
    ensures AddsUp(ManifestOf(all, tools), kind)
  {
    ManifestSnoc(outs, o, tools);
    EntriesSnoc(ManifestOf(outs, tools).entries, EntryOf(o, tools), kind);
  }

  /** The manifest adds up: its summary is the sum of its entries' counters, its total the sum of their rows. */
  lemma {:induction false} SummaryIsSum(outs: seq<Output>, tools: Tools, kind: string)
    ensures AddsUp(ManifestOf(outs, tools), kind)
  {
    if outs == [] {
      NothingAddsUp(tools, kind);
    } else {
      var n := |outs| - 1;
      Unsnoc(outs);
      SummaryIsSum(outs[..n], tools, kind);
      AddsUpMore(outs[..n], outs[n], outs, tools, kind);
    }
  }

  lemma NothingAddsUp(tools: Tools, kind: string)
    ensures AddsUp(ManifestOf([], tools), kind)
  {
  }

  lemma EntriesSnoc(entries: seq<Entry>, e: Entry, kind: string)
    ensures KindTotal(entries + [e], kind) == KindTotal(entries, kind) + CountOf(e.counts, kind)
    ensures RowTotal(entries + [e]) == RowTotal(entries) + e.rowcount
  {
    assert (entries + [e])[..|entries|] == entries;
  }

  // ----- verifying

  function FailuresFor(entry: Entry, files: Directory, sha256: seq<Byte> -> string): seq<Failure> {
    if entry.filename !in files then [Missing(entry.filename)]
    else
      (if Hex8(Crc32(files[entry.filename])) != entry.crc32 then [CrcMismatch(entry.filename)] else [])
      + (if sha256(files[entry.filename]) != entry.sha256 then [ShaMismatch(entry.filename)] else [])
  }

  function FailuresOf(entries: seq<Entry>, files: Directory, sha256: seq<Byte> -> string): seq<Failure> {
    if entries == [] then []
    else FailuresOf(entries[..|entries| - 1], files, sha256) + FailuresFor(entries[|entries| - 1], files, sha256)
  }

  lemma FailuresSnoc(entries: seq<Entry>, k: nat, files: Directory, sha256: seq<Byte> -> string)
    requires k < |entries|
    ensures FailuresOf(entries[..k + 1], files, sha256)
         == FailuresOf(entries[..k], files, sha256) + FailuresFor(entries[k], files, sha256)
  {
    assert entries[..k + 1][..k] == entries[..k] && entries[..k + 1][k] == entries[k];
  }

  ghost predicate CollisionFree(sha256: seq<Byte> -> string) {
    forall a, b :: sha256(a) == sha256(b) ==> a == b
  }

  /** The listed file is exactly what was recorded. */
  predicate Intact(entry: Entry, files: Directory, sha256: seq<Byte> -> string) {
    entry.filename in files && Hex8(Crc32(files[entry.filename])) == entry.crc32
    && sha256(files[entry.filename]) == entry.sha256
  }

  lemma IntactIff(entry: Entry, files: Directory, sha256: seq<Byte> -> string)
    ensures FailuresFor(entry, files, sha256) == [] <==> Intact(entry, files, sha256)
  {
  }

  predicate AllIntact(entries: seq<Entry>, files: Directory, sha256: seq<Byte> -> string) {
    forall i :: 0 <= i < |entries| ==> Intact(entries[i], files, sha256)
  }

  lemma AllIntactSnoc(entries: seq<Entry>, e: Entry, all: seq<Entry>, files: Directory, sha256: seq<Byte> -> string)
    requires all == entries + [e]
    ensures AllIntact(all, files, sha256) <==> AllIntact(entries, files, sha256) && Intact(e, files, sha256)
  {
    assert all[|entries|] == e && forall i :: 0 <= i < |entries| ==> all[i] == entries[i];
  }

  lemma {:induction false} NoFailuresIff(entries: seq<Entry>, files: Directory, sha256: seq<Byte> -> string)
    ensures FailuresOf(entries, files, sha256) == [] <==> AllIntact(entries, files, sha256)
  {
    if entries != [] {
      var n := |entries| - 1;
      NoFailuresIff(entries[..n], files, sha256);
      IntactIff(entries[n], files, sha256);
      AllIntactSnoc(entries[..n], entries[n], entries, files, sha256);
    }
  }

  /** Verifying any directory against the manifest of a batch reports nothing exactly when every listed dump is there
      with the bytes bundling wrote, given a collision-free hash. */
  lemma VerifyIff(outs: seq<Output>, tools: Tools, files: Directory)
    requires CollisionFree(tools.sha256)
    ensures FailuresOf(ManifestOf(outs, tools).entries, files, tools.sha256) == [] <==> Stored(outs, files, tools)
  {
    NoFailuresIff(EntriesOf(outs, tools), files, tools.sha256);
    forall i | 0 <= i < |outs|
      ensures Intact(EntriesOf(outs, tools)[i], files, tools.sha256) <==> Present(outs[i], files, tools)
    {
      PresentIsIntact(outs[i], tools, files);
    }
  }

  lemma PresentIsIntact(o: Output, tools: Tools, files: Directory)
    ensures Present(o, files, tools) ==> Intact(EntryOf(o, tools), files, tools.sha256)
    ensures CollisionFree(tools.sha256) && Intact(EntryOf(o, tools), files, tools.sha256) ==> Present(o, files, tools)
  {
  }

  /** Without any assumption on the hash, an untouched batch verifies. */
  lemma UntouchedBatchVerifies(outs: seq<Output>, tools: Tools, start: Directory)
    requires DumpNames(outs)
    ensures FailuresOf(ManifestOf(outs, tools).entries, WrittenAll(start, outs, tools), tools.sha256) == []
  {
    var files := WrittenAll(start, outs, tools);
    BundledIsStored(start, outs, tools);
    NoFailuresIff(EntriesOf(outs, tools), files, tools.sha256);
    forall i | 0 <= i < |outs| ensures Intact(EntriesOf(outs, tools)[i], files, tools.sha256) {
      PresentIsIntact(outs[i], tools, files);
    }
  }

  // ----- which failures are reported

  /** What is wrong with the file of an entry: it is not there, or its checksum or its hash is another one. */
  predicate IsFailure(entry: Entry, files: Directory, sha256: seq<Byte> -> string, f: Failure) {
    f.name == entry.filename
    && match f
       case Missing(n) => n !in files
       case CrcMismatch(n) => n in files && Hex8(Crc32(files[n])) != entry.crc32
       case ShaMismatch(n) => n in files && sha256(files[n]) != entry.sha256
  }

  /** The failures of each entry stand together, in the order of the entries: every failure once, the checksum's before
      the hash's. */
  ghost predicate FailuresStand(entries: seq<Entry>, files: Directory, sha256: seq<Byte> -> string,
                                failures: seq<Failure>)
  {
    exists parts: seq<seq<Failure>> ::
      |parts| == |entries| && failures == Flatten(parts)
      && forall i :: 0 <= i < |entries| ==> EntryFailures(entries[i], files, sha256, parts[i])
  }

  ghost predicate EntryFailures(entry: Entry, files: Directory, sha256: seq<Byte> -> string, part: seq<Failure>) {
    (forall f :: f in part <==> IsFailure(entry, files, sha256, f))
    && (forall i, j :: 0 <= i < j < |part| ==> part[i].CrcMismatch? && part[j].ShaMismatch?)
  }

  lemma FailuresForAre(entry: Entry, files: Directory, sha256: seq<Byte> -> string)
    ensures EntryFailures(entry, files, sha256, FailuresFor(entry, files, sha256))
  {
  }

  lemma {:induction false} FailuresAre(entries: seq<Entry>, files: Directory, sha256: seq<Byte> -> string)
    returns (parts: seq<seq<Failure>>)
    ensures |parts| == |entries| && FailuresOf(entries, files, sha256) == Flatten(parts)
    ensures forall i :: 0 <= i < |entries| ==> EntryFailures(entries[i], files, sha256, parts[i])
  {
    if entries == [] {
      parts := [];
    } else {
      var n := |entries| - 1;
      parts := FailuresAre(entries[..n], files, sha256);
      FailuresForAre(entries[n], files, sha256);
      FlattenSnoc(parts, FailuresFor(entries[n], files, sha256));
      parts := parts + [FailuresFor(entries[n], files, sha256)];
    }
  }

  /** Verifying reports exactly the failures of the listed files. */
  lemma FailuresStandIs(entries: seq<Entry>, files: Directory, sha256: seq<Byte> -> string)
    ensures FailuresStand(entries, files, sha256, FailuresOf(entries, files, sha256))
  {
    var parts := FailuresAre(entries, files, sha256);
  }

  // ----- what the manifest records

  /** One entry for each dump, in order: its name and schema, and the rows, checksum, hash and counters of what it was
      rewritten to. */
  ghost predicate Lists(m: Manifest, dumps: seq<Dump>, tools: Tools) {
    |m.entries| == |dumps|
    && forall i :: 0 <= i < |dumps| ==> IsEntry(m.entries[i], dumps[i], tools)
  }

  ghost predicate IsEntry(entry: Entry, dump: Dump, tools: Tools) {
    entry.filename == dump.name && entry.schema == tools.schemaOf(dump.name)
    && exists text, kinds: multiset<string> ::
         DumpBecomes(dump.lines, entry.schema, TableColumns(dump.lines), tools, Piece(text, entry.rowcount, kinds))
         && entry.crc32 == Hex8(Crc32(tools.encode(text))) && entry.sha256 == tools.sha256(tools.encode(text))
         && forall kind :: kinds[kind] == CountOf(entry.counts, kind)
  }

  lemma IsEntryOf(dump: Dump, tools: Tools)
    ensures IsEntry(EntryOf(OutputOf(dump, tools), tools), dump, tools)
  {
    var p, entry := Process(dump, tools), EntryOf(OutputOf(dump, tools), tools);
    ProcessIs(dump, tools);
    assert p == Piece(p.text, entry.rowcount, p.kinds);
    assert forall kind :: p.kinds[kind] == CountOf(entry.counts, kind);
  }

  /** The manifest of a bundle lists its dumps. */
  lemma ManifestLists(dumps: seq<Dump>, tools: Tools)
    ensures Lists(ManifestOf(Outputs(dumps, tools), tools), dumps, tools)
  {
    forall i | 0 <= i < |dumps|
      ensures IsEntry(ManifestOf(Outputs(dumps, tools), tools).entries[i], dumps[i], tools)
    {
      IsEntryOf(dumps[i], tools);
    }
  }
}

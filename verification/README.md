# Guards, dump export and feature status: a verified model

This project models the checkers and data-migration scripts under `scripts/` and proves what they are for. Each loop
of a script is a method proved equal to a function (or against a declarative specification), each object a script
changes in place is a class, and the promises of the scripts are lemmas about those functions, over all inputs, all
runs and all reachable states. What a function gives is also said without it, by a lemma named after it that ends in
`Is`, `Are` or `Iff`: which items a loop keeps and in which order, which condition leads to which result.

`dafny verify dfyconfig.toml` checks everything. The modules follow the scripts:

- **Read-path full-scan check** (`QueryChains`, `FullScanCheck`, `FullScanExact`, `FullScanVerdict`,
  `FullScanMisses`). The check collects the query-builder chains of a function, marks the links under an `if`, and
  reports a hot table that is listed with only a tenant filter and no limit. Function bodies get a run semantics in
  which every `if` may go either way, every `with` runs and a `return` ends the run; a full scan is an unlimited query
  on a hot table none of whose conditions can tell two rows of one tenant apart. The verdict on a chain is exact, both
  for the script's own test of conditions and for what they can tell apart: some run brings a full scan to an
  expression if and only if its chain is a violation and the statements before can be passed without narrowing the
  query. `FullScanVerdict` carries this to whole functions, guard clauses and `with` blocks included: it says exactly
  when a function is reported, when a full scan leaves it, and when the two differ. They differ on shapes of sinks that
  the script does not follow (`q.all()`, `session.scalars(q)`, further calls on a result as in
  `session.execute(q).mappings().all()`, an `execute()` without argument, `return q.order_by()`), on conditions it
  misjudges, on branches that cannot be skipped, and on sinks behind a `return`. `FullScanMisses` has a concrete
  function for each.
- **Dump redaction** (`Redaction`, `SqlValues`, `DumpReader`, `RoundTrip`, `Rewriter`, `MySqlMeaning`,
  `EmittedMeaning`, `RedactedMeaning`, `ReadingGaps`, `Checksum`, `Dumps`, `Batch`). Which columns the loaded rules
  redact; the six-step escape pipeline; the total reader of VALUES payloads and its round trip with the printer; the
  rewriter as a two-run property (two payloads come out the same if and only if their rows read alike outside redacted
  cells), its idempotence and conservation; the chunked CRC-32; bundling against verifying. The two-run property is
  lifted to whole dumps, hence to the bytes, checksums and manifest of a batch. A payload also has a meaning to MySQL,
  and the output means the masked rows of that meaning exactly when no string in the payload is followed by another (a
  doubled quote is such a pair: the row gets too wide and its redacted cells are printed) and no kept cell holds `\%`
  or `\_` (it loses the backslash). Behind other text between tuples all rows are dropped, and a payload cut off inside
  a tuple gives a row that is too narrow to be masked.
- **Computed feature status** (`Fingerprint`, `FeatureStatus`, `Signoff`, `StatusRuns`). A state machine whose steps
  edit a file, run a full or a scoped capture, land a sign-off or squash history. In every reachable state Done means
  signed and measured over the very bytes the files hold now.
- **Batched grep guards** (`GuardScan`). One shared traversal gives each guard what a traversal of its own would, and
  the batch fails exactly when a section on its own fails. Each condition of that theorem is shown to be needed.
- **Luhn check and string-literal lexer** (`Luhn`, `StringLiterals`), against Annex B of ISO/IEC 7812-1 and a
  declarative tokenisation.
- **Manifest backfill and provisioning diff** (`Backfill`, `ProvisionDiff`): in-place updates through an index, last
  row wins, a second run changes nothing; the diff as a patch.
- **Contract projections** (`Projection`, `PageRegistry`, `PageTable`): the generator and the drift check over a file
  system, and the prefix table that assigns skills to pages.

`Text` and `Sorting` hold the parts of Python's `str` and `sorted` that the scripts rely on.

Where code and documentation differ, or the code surprises, the model follows the code. The cases met: the sinks and
payloads above; a column wrapped in a function call (`where(lower(M.name) == x)`) counts as tenant-only
(`WrappedColumnIsMissed`), and an attribute of the caller (`where(M.tenant_id == self.tenant)`) as a filter
(`CallerValueIsTakenForFilter`), so a tenant-only scan goes unreported; a sink that no run reaches is reported
(`DeadSinkIsFlagged`); `iter_files` reads an empty extension list or root list as "no restriction", `scan_many` as
"nothing" (`NoExtensionsDiffers`, `EmptyRootsDiffers`); a hexadecimal literal is printed as the text of a Python bytes
object (`CellSurvivesIff`); a sign-off is written although its merge date or only approver is blank, or its covers do
not exist, and then fails the ledger guard (`WrittenLedgerPassesIff`); a second backfill with the same rows may count
changes although it makes none in the end (`SecondRunIsUnchangedIff`).

The outside world enters as parameters: file contents and listings, parsed XML and YAML, regular expressions as
predicates, test runs as exit codes with counts, SHA-256 as a function that is collision-free where a lemma says so,
text encoding as a function, timestamps as integers, and Python's `float` and `bytes.fromhex` as functions on tokens,
where `ReprReads` is Python's promise that a float's `repr` reads back as that float.

## Model

| member | source | states |
|---|---|---|
| QueryChains.ChainAttrsAndWhereArgs | scripts/check_read_path_full_scan.py:161-177 | the walk returns the chain's method names and all its `where` arguments, outermost first |
| QueryChains.FindSelectInChain | scripts/check_read_path_full_scan.py:180-191 | finds the model exactly when the expression under the chain's method calls is `select(Model)` |
| QueryChains.SelectModelIs | scripts/check_read_path_full_scan.py:152-191 | the model of a chain is the first argument of the `select` call under its method calls |
| QueryChains.HasNonTenantFilterIff | scripts/check_read_path_full_scan.py:194-224 | a condition is taken for a filter if and only if, under `and`, `or`, `not` and the arguments of calls, it has a comparison with another attribute than the tenant's, a method call on one, one by itself, or anything else that is no comparison, operator or call |
| QueryChains.SeparatesIffMentions | scripts/check_read_path_full_scan.py:194-224 | a condition can tell two rows of one tenant apart, for some meaning of its operators and names, exactly when a column of the model other than the tenant's stands in it; attributes of anything else have one value for all rows |
| QueryChains.VerdictOnConditionsIff | scripts/check_read_path_full_scan.py:194-231 | the tenant-only verdict on a `where` list agrees with what its conditions can do exactly when the list is seen to filter just if it mentions another column of the model; the two ways to part, both with their exact condition |
| QueryChains.WrappedColumnIsMissed | scripts/check_read_path_full_scan.py:197-206 | a column under a function call is judged tenant-only although it separates rows of one tenant |
| QueryChains.CallerValueIsTakenForFilter | scripts/check_read_path_full_scan.py:201-203 | `M.tenant_id == self.tenant` is judged a filter although it separates no rows of one tenant |
| FullScanCheck.CollectFunctionStatementChains | scripts/check_read_path_full_scan.py:288-326 | the loop over a function's statements folds starts and continuations into chains per name |
| FullScanCheck.ChainIs | scripts/check_read_path_full_scan.py:288-326 | the chain of a name is made of the last statement that assigns it a `select` and the later ones that continue it, in order, each marked when it stands under an `if` |
| FullScanCheck.InsideIfIff | scripts/check_read_path_full_scan.py:260-269 | a node stands under an `if` exactly when one comes before any function or lambda on the way up |
| FullScanCheck.ClassifyChainSegments | scripts/check_read_path_full_scan.py:329-350 | the first unconditional model; a limit and the absence of a non-tenant filter among the unconditional links, both directions |
| FullScanCheck.ResolveTerminalToChain | scripts/check_read_path_full_scan.py:362-411 | a classification worth reporting is returned exactly for list terminals whose receiver is a call and whose chain is a violation |
| FullScanCheck.ScanFunction | scripts/check_read_path_full_scan.py:445-479 | exactly the flagged terminals are reported, each as often as it stands in the function and in the order of the traversal, and then the flagged returns, each with the first unconditional model of the chain behind it |
| FullScanCheck.ReportedIff | scripts/check_read_path_full_scan.py:445-479 | a violation is reported if and only if its node is a flagged terminal or a flagged return of the function and its model the first unconditional one of the chain behind it |
| FullScanCheck.TerminalsIff | scripts/check_read_path_full_scan.py:353-359 | the terminals of an expression are exactly the calls in it, at any depth, that end a query |
| FullScanExact.LeakIffSuspect | scripts/check_read_path_full_scan.py:288-411 | for any test of conditions: some run brings what the test takes for a full scan to an expression if and only if the expression's chain is a violation by the test and the statements before can be passed without narrowing it |
| FullScanExact.LeakIff | scripts/check_read_path_full_scan.py:288-411 | some run brings a hot table, unlimited and with no condition that separates rows of one tenant, to an expression if and only if its chain is a violation by what the conditions mention and the statements before can be passed likewise |
| FullScanVerdict.ReachedIff | scripts/check_read_path_full_scan.py:353-442 | a run of a function of the fragment comes to a sink exactly when no statement of the tail stops every run before it, with the queries that some run of the prefix builds |
| FullScanVerdict.FlaggedIffSuspectSink | scripts/check_read_path_full_scan.py:445-479 | a function of the fragment is reported if and only if some followed terminal or return lets out a query whose chain the script classifies as a violation |
| FullScanVerdict.SinkLeaksIff | scripts/check_read_path_full_scan.py:445-479 | some run brings a full scan to a sink if and only if the sink can be reached and the chain of its query is a violation by what the conditions mention, with statements before that can be passed |
| FullScanVerdict.NotFlaggedIsSafe | scripts/check_read_path_full_scan.py:194-231 | if a function is not reported, a full scan leaves through a followed sink exactly when the sink can be reached, a condition is taken for a filter that mentions no other column, and the statements before can be passed; otherwise nothing is missed |
| FullScanVerdict.FlaggedIsReal | scripts/check_read_path_full_scan.py:302-350 | a sink for which a function without `else` before it is reported lets a full scan out exactly when it can be reached and no condition that mentions another column goes unseen |
| FullScanVerdict.OneQueryVerdict | scripts/check_read_path_full_scan.py:362-479 | for a function that lets out one query, the exact condition for being reported and the exact condition for a full scan to leave it |
| FullScanVerdict.UnfollowedIsMissed | scripts/check_read_path_full_scan.py:370-411 | a leaky query that leaves only through sinks the script does not follow, one of which can be reached, is missed |
| FullScanVerdict.WithKeepsFragment | scripts/check_read_path_full_scan.py:272-285 | a function of the fragment stays in it inside a `with` |
| FullScanVerdict.GuardChangesNothing | scripts/check_read_path_full_scan.py:302-442 | a guard clause `if c: return []` in front of a function of the fragment changes neither the verdict nor what leaks |
| FullScanMisses.BareTerminalIsMissed | scripts/check_read_path_full_scan.py:377-379 | after any violating start a full scan fetched by `q.all()` goes unreported |
| FullScanMisses.SessionScalarsIsMissed | scripts/check_read_path_full_scan.py:377-379 | so does one fetched by `session.scalars(q)` |
| FullScanMisses.MappingsIsMissed | scripts/check_read_path_full_scan.py:380-382 | and one fetched by `session.execute(q).mappings().all()` |
| FullScanMisses.ReturnedContinuationIsMissed | scripts/check_read_path_full_scan.py:424-431 | and one returned as `q.order_by()` |
| FullScanMisses.BothBranchesLimitIsStillFlagged | scripts/check_read_path_full_scan.py:302-350 | a function that limits its query on both branches is reported although no run leaks |
| FullScanMisses.StartIsViolating | scripts/check_read_path_full_scan.py:288-350 | `q = select(Hot).where(tenant)` is such a violating start |
| FullScanMisses.OneConditionVerdict | scripts/check_read_path_full_scan.py:194-479 | `select(Hot).where(c)` fetched through the session, for any `c`: reported exactly when the script takes `c` for no filter, a full scan exactly when `c` mentions no other column |
| FullScanMisses.CallerValueIsMissed | scripts/check_read_path_full_scan.py:201-203 | so with `Hot.tenant_id == self.tenant` a tenant-only scan goes unreported |
| FullScanMisses.WrappedColumnIsFlagged | scripts/check_read_path_full_scan.py:197-206 | and with `lower(Hot.name) == x` a filtered query is reported |
| FullScanMisses.DeadSinkIsFlagged | scripts/check_read_path_full_scan.py:445-479 | a terminal behind a `return` in the same branch is reported although no run comes to it |
| Redaction.LoadRedactionConfig | scripts/_export_redaction_rules.py:86-127 | the nested loops over files, tables and columns hold, for every column, the last rule in document order (spelt out by LoadedRuleIff) |
| Redaction.DecideFromXmlAttrsIs | scripts/_export_redaction_rules.py:130-142 | an element redacts if and only if its stripped level is 3 or 4, or encryption or masking is asked for with a stripped 1; the level wins over encryption, encryption over masking |
| Text.SpacesAre | scripts/_export_redaction_rules.py:136-140 | of ASCII, stripping removes blanks, line ends and separators and no printable character |
| Text.CaseIs | scripts/_export_redaction_rules.py:159 | capitals and small letters change letters only, to the letter of the other case |
| Redaction.LoadedRuleIff | scripts/_export_redaction_rules.py:86-127 | a loaded config holds for a column the decision of the last column element of that name that decides, by its mark or else by the first pattern that matches, in the last such table element of the last such file |
| Redaction.LoadedDecideIff | scripts/_export_redaction_rules.py:64-142 | a loaded config redacts a column if and only if its name matches a pattern, or some column element of that name under a table element of that name has level 3 or 4 or asks for encryption or masking |
| SqlValues.EscapeIsPerCharacter | scripts/customer_export.py:291-298 | the six chained replacements equal one map over characters |
| SqlValues.EscapedIsSafe | scripts/customer_export.py:290-299 | an escaped string shows no unescaped quote and no line break |
| SqlValues.EmittedRowsAreOneLine | scripts/customer_export.py:278-299 | an emitted payload contains no newline and no carriage return |
| DumpReader.IterValueTuples | zw_brain/adapters/legacy/parser.py:97-113 | the generator's loop yields the rows of the specification and ends at the first character that starts no tuple |
| RoundTrip.EmittedRowsReadBack | scripts/customer_export.py:278-299 | emitted rows read back as they were, up to hexadecimal literals, which read back as strings |
| RoundTrip.CellSurvivesIff | scripts/customer_export.py:283-299 | a cell reads back as the same value exactly when it is not the bytes of a hexadecimal literal |
| RoundTrip.AllRowsReadIff | zw_brain/adapters/legacy/parser.py:101-113 | of any text the reader gives the tuples before the first garbage, and all of them exactly when nothing but blanks and commas stands before any |
| RoundTrip.CutTupleIsKept | zw_brain/adapters/legacy/parser.py:116-146 | a tuple that the text ends in counts with the cells it has |
| RoundTrip.ScalarIs | zw_brain/adapters/legacy/parser.py:163-180 | a bare token reads as bytes, an integer with at most one sign, a float or its own text, each exactly when it has that form |
| RoundTrip.IntTextIs | scripts/customer_export.py:288-289 | integers are printed with a sign exactly when negative and without leading zeros |
| Rewriter.RewriteValues | scripts/customer_export.py:236-269 | the loop returns the emitted masked rows, the number of rows read and the counters of the specification, for any payload |
| Rewriter.RewriteIs | scripts/customer_export.py:236-269 | without redacted columns a payload stays; otherwise it is printed anew from its rows in order, each table-wide one masked cell by cell: NULL stays NULL, a numeric column gets 0, any other the placeholder with its kind in capitals |
| Rewriter.CountsAreCells | scripts/customer_export.py:258-265 | a kind is counted once for each redacted cell of that kind in a table-wide row |
| Rewriter.SameOutputIff | scripts/customer_export.py:236-269 | two payloads come out the same, text, row count and counters, if and only if their rows read alike outside redacted cells, up to hexadecimal literals |
| Rewriter.UnredactedCellsSurvive | scripts/customer_export.py:236-269 | for any payload the output reads as the rows that were read, in order, with unredacted cells, NULLs and rows of another width unchanged up to hexadecimal literals; without redacted columns the payload is unchanged |
| Rewriter.TuplesSurviveIff | scripts/customer_export.py:255-269 | all tuples of a payload survive exactly when nothing but blanks and commas stands before any of them |
| Rewriter.RewriteIsIdempotent | scripts/customer_export.py:236-269 | rewriting a rewritten payload gives the same bytes, row count and counters, for any payload |
| MySqlMeaning.ReadAsMeantIff | zw_brain/adapters/legacy/parser.py:97-162 | the reader reads a text as MySQL does exactly when it is a list of tuples in which no string is followed by another and none holds `\%` or `\_` |
| EmittedMeaning.EmittedRowsMean | scripts/customer_export.py:278-299 | an emitted payload means to MySQL the rows it was emitted from, up to hexadecimal literals |
| RedactedMeaning.CanonicalOutputIff | scripts/customer_export.py:236-269 | a payload comes out as the canonical payload of its meaning does exactly when no string in it is followed by another and no kept cell holds `\%` or `\_` |
| RedactedMeaning.OutputMeansMaskedIff | scripts/customer_export.py:236-299 | under the same exact condition the output means to MySQL the masked rows that the payload means |
| RedactedMeaning.RedactedMeaningDoesNotShow | scripts/customer_export.py:236-269 | two such payloads come out the same if and only if they mean rows alike outside redacted cells, whatever the redacted cells hold |
| RedactedMeaning.HiddenIff | scripts/customer_export.py:258-267 | whatever the text, a cell under a redacted column is printed as NULL or its placeholder exactly when its row reads as wide as the table or the cell was that already |
| ReadingGaps.DoubledQuoteShows | scripts/customer_export.py:257-260 | a redacted string with a doubled quote is printed in two cells, and two such payloads that mean rows alike come out different |
| ReadingGaps.CutPayloadShows | scripts/customer_export.py:257-260 | a payload cut off behind its first cell means nothing and is printed unmasked |
| ReadingGaps.PatternLosesBackslash | zw_brain/adapters/legacy/parser.py:149-162 | `\%` is read without its backslash |
| Checksum.Crc32Hex | scripts/customer_export.py:302-310 | the chunk loop returns the eight hex digits of the one-shot CRC-32 of the whole file |
| Checksum.ChunksDoNotMatter | scripts/customer_export.py:303-309 | for every split into chunks, feeding them one after the other gives the one-shot CRC-32 |
| Checksum.TableDivides | scripts/customer_export.py:309 | one table lookup divides a register word by the polynomial eight bits at a time |
| Checksum.CheckValues | scripts/customer_export.py:302-310 | the CRC-32 of two one-byte strings, which fixes polynomial, register and bit order |
| Checksum.Hex8Is | scripts/customer_export.py:310 | the eight lower-case digits stand for the register, four bits each, highest first |
| Dumps.ColumnsByTable | scripts/customer_export.py:205-233 | a table is listed exactly when a CREATE line outside any open table opens it, and its columns are the column lines between each such line and the next closing line, in order |
| Dumps.ProcessDump | scripts/customer_export.py:161-189 | the output has one piece for each line, in order: an INSERT into a table with known columns becomes an INSERT into the same table with the rewritten payload, `;` and a newline, any other line stays; rows and counters are the totals of the rows read and of the redacted cells in these payloads |
| Dumps.AlikeDumpsComeOutAlike | scripts/customer_export.py:161-189 | dumps whose lines read alike outside redacted cells are rewritten to the same text, row count and counters |
| Dumps.PayloadCounters | scripts/customer_export.py:255-265 | the kinds counted for a payload number (redacted columns) x (table-wide rows) |
| Batch.BatchDir.Bundle | scripts/customer_export.py:94-130 | leaves a non-empty directory alone without force; otherwise the manifest lists every dump with the rows, checksum, hash and counters of what it was rewritten to, and the directory is that of the rewritten dumps |
| Batch.BatchDir.Verify | scripts/customer_export.py:133-158 | code 2 without a manifest, 1 with failures, 0 otherwise; the failures are, entry by entry in order, exactly the missing files, the wrong checksums and then the wrong hashes |
| Batch.SummaryIsSum | scripts/customer_export.py:113-123 | the summary is the sum of the entries' counters and the total the sum of their rows |
| Batch.BundledIsStored | scripts/customer_export.py:106-115 | after bundling every dump stands in the directory with its own checksum and row-count files |
| Batch.VerifyIff | scripts/customer_export.py:94-158 | with a collision-free hash, verifying any directory reports nothing exactly when every listed dump is there with the bytes bundling wrote |
| Batch.UntouchedBatchVerifies | scripts/customer_export.py:94-158 | an untouched batch verifies without failure, whatever the hash |
| Fingerprint.FeatureFingerprint | scripts/feature_status_lib.py:112-143 | the digest is the hash of the specified byte string |
| Fingerprint.HashedIs | scripts/feature_status_lib.py:112-143 | the byte string is the specification, then every test in the order of the paths and every shared file, each behind a separator with its path, with a placeholder for a missing file |
| Fingerprint.FingerprintIsSensitive | scripts/feature_status_lib.py:112-143 | with the references unchanged, changing the specification, a test or a shared file changes the byte string |
| Fingerprint.ReferenceOrderDoesNotMatter | scripts/feature_status_lib.py:129 | the order of the references does not matter |
| Fingerprint.CleanFingerprintsAgree | scripts/feature_status_lib.py:112-143 | when the covered files hold neither NUL nor SOH, equal byte strings mean that the specification, the references and everything they show are equal |
| Fingerprint.UncleanFilesCollide | scripts/feature_status_lib.py:136-142 | with a separator inside a file, two different trees feed the same bytes |
| FeatureStatus.ComputeClassify | scripts/capture_feature_status.py:106-129 | a run's result as specified: timeouts and non-zero exits fail, zero passes are a vacuous skip |
| FeatureStatus.TotalIs | scripts/capture_feature_status.py:99-103 | numbers of one kind add up, those of another do not count |
| FeatureStatus.Capture | scripts/capture_feature_status.py:194-252 | a capture runs each distinct test once and records every feature by its own references |
| FeatureStatus.RefResultIs | scripts/capture_feature_status.py:106-176 | the result of one reference: a module passes with either run and else has the result of the second, a spec that is allowed has the result of its run, another is not run, anything else fails |
| FeatureStatus.RecordIs | scripts/capture_feature_status.py:222-252 | a record holds the references judged, in order, the worst of their results and the fingerprint given |
| FeatureStatus.PassIffEvidence | scripts/capture_feature_status.py:106-252 | an unscoped capture records a pass if and only if the feature has references and each ended with exit 0 and a pass within its allowed runs |
| FeatureStatus.LoadMeasurement | scripts/feature_status_lib.py:146-169 | selects an artefact no other was captured later than, or none from an empty listing |
| FeatureStatus.LatestIs | scripts/feature_status_lib.py:146-169 | of several such artefacts the first of the listing |
| FeatureStatus.StatusIs | scripts/feature_status_lib.py:197-258 | each status if and only if its condition on deferral, signature, measurement and kinds of references holds |
| StatusRuns.ArtifactsWereMeasured | scripts/capture_feature_status.py:264-274 | in every reachable state each artefact that the non-recursive glob finds came from a full capture of the run |
| StatusRuns.MeasureIs | scripts/capture_feature_status.py:194-252 | a capture records every feature file and nothing else, with the hash of its bytes and the record of its references |
| StatusRuns.EditIs | scripts/feature_status_lib.py:112-143 | an edit gives one file its content or removes it, and touches nothing else |
| StatusRuns.DoneMeansEvidence | scripts/feature_status_lib.py:197-258 | in every reachable state Done means covered by a ledger, and measured by a full capture with evidence for each of at least one reference over the byte string the files give now |
| StatusRuns.DoneMeansUnchanged | scripts/feature_status_lib.py:112-143 | when the covered files are text, Done also means that the specification, its references and every covered file are as the capture found them |
| StatusRuns.SquashAndScopedChangeNothing | scripts/capture_feature_status.py:264-274 | squashing history and scoped captures change no listing and no status |
| StatusRuns.LandingNeverLowers | scripts/signoff_from_pr.py:114-144 | landing any pull request never lowers a feature's status |
| FeatureStatus.LadderRises | scripts/feature_status_lib.py:224-258 | where Draft, InTest, Ready and Done rise in this order |
| StatusRuns.FreshCaptureMakesDone | scripts/feature_status_lib.py:224-258 | then a signed, undeferred feature whose tests all give evidence in it is Done |
| Signoff.LedgerDir.Record | scripts/signoff_from_pr.py:114-144 | adds exactly the ledger of the scope that the event signs, when it has none and it is no dry check, and changes no other; exit code 1 exactly for a merged event that names a scope and signs none |
| Signoff.BuildSignoffIff | scripts/signoff_from_pr.py:59-111 | an event signs a scope if and only if it is merged, its first scope label names it, its block repeats it with one of the three kinds, and its covers are a list that is empty exactly when it is decision-only; the ledger records the event's scope, kind, approvers, date and stripped covers |
| Signoff.WrittenLedgerPassesIff | scripts/signoff_from_pr.py:66-111 | a written ledger passes the guard if and only if merge date and approvers are not blank and the covers are existing `.feature` files |
| Signoff.LedgersOnlyGrow | scripts/signoff_from_pr.py:132-141 | over any events no ledger changes, the signed set only grows, and every new ledger records an event that signs its scope |
| Signoff.CheckLedger | scripts/check_signoff_ledger.py:49-70 | no failure exactly for a valid ledger, and then every cover is counted |
| Signoff.RejectedIff | scripts/check_signoff_ledger.py:49-70 | the exact conditions under which a ledger fails, field by field |
| Signoff.CheckLedgers | scripts/check_signoff_ledger.py:39-80 | exit code 0 exactly when every ledger file parses and is valid |
| Signoff.LoadSignoffFeatures | scripts/feature_status_lib.py:175-194 | the union of the `.feature` covers of all ledgers |
| Signoff.SignedIff | scripts/feature_status_lib.py:175-194 | a feature is signed exactly when some ledger has it, stripped, among its listed covers |
| GuardScan.LineHasReasonedExempt | scripts/guard_lib.py:124-134 | exempt exactly when something other than space follows some occurrence of the marker |
| GuardScan.ReasonedExemptIff | scripts/guard_lib.py:124-134 | that is, when the line reads as something, the marker and a text that is not blank |
| GuardScan.ScanFileIs | scripts/guard_lib.py:153-181 | a guard finds in a readable file, in line order, one violation for each line that matches, carries no allowed marker and has no reasoned exemption, with the path, the line number from one, the line and the reason; and nothing else |
| GuardScan.IterFilesIs | scripts/guard_lib.py:90-120 | a listing keeps exactly the tracked files that pass the filters, as often and in the order they are tracked |
| GuardScan.ScanMany | scripts/guard_lib.py:197-233 | for every id the violations and the file count over the shared traversal: a violation is there if and only if some guard with that id is handed a tracked file of which that line offends |
| GuardScan.SharedEqualsAloneIff | scripts/guard_lib.py:90-233 | with distinct ids the shared traversal gives a guard the file count, and with it the violations and their order, of scanning alone exactly when no tracked file is lost to it |
| GuardScan.SharedEqualsAlone | scripts/guard_lib.py:197-233 | so a guard with extensions, with roots that are None or not empty and with the shared skip list gets exactly the result of scanning alone |
| GuardScan.RunBatch | scripts/check_grep_guards_batch.py:225-237 | the exit code is 1 exactly when some section is handed a readable tracked file with an offending line |
| GuardScan.BatchFailsIffSomeSectionFails | scripts/check_grep_guards_batch.py:218-237 | for any specs with distinct ids the batch fails if and only if some single-section run fails |
| GuardScan.BatchOfThree | scripts/check_grep_guards_batch.py:162-186 | the script's own three sections lose no file, and the batch fails exactly when one of them does, for any matchers and exemptions |
| GuardScan.NoExtensionsDiffers | scripts/guard_lib.py:111-112 | a guard without extensions scans a file alone and none in a batch |
| GuardScan.EmptyRootsDiffers | scripts/guard_lib.py:107 | a guard with an empty root list scans a file alone and none in a batch |
| GuardScan.MissingSkipDiffers | scripts/guard_lib.py:210 | a guard that does not skip a shared fragment loses those files in a batch |
| GuardScan.SharedIdMixes | scripts/guard_lib.py:207-208 | two guards under one id each get both guards' violations and counts |
| Luhn.LuhnOk | scripts/check_fixture_pii.py:68-78 | the loop accepts exactly the numbers whose weighted digit sum, doubling every second digit from the right, is a multiple of ten |
| Luhn.SubstitutionIsCaught | scripts/check_fixture_pii.py:68-78 | changing any one digit of a valid number makes it invalid |
| Luhn.SwapIsCaughtExceptZeroNine | scripts/check_fixture_pii.py:68-78 | swapping neighbours in a valid number goes unnoticed exactly when they are equal or 0 and 9 |
| Luhn.OneCheckDigit | scripts/check_fixture_pii.py:68-78 | every payload has exactly one valid check digit |
| Luhn.LeadingZeros | scripts/check_fixture_pii.py:68-78 | leading zeros never change the verdict |
| StringLiterals.EnclosingStringLiteral | scripts/check_ui_term_blacklist.py:86-107 | returns the content of the closed literal strictly around the position, and nothing exactly when there is none |
| StringLiterals.BodyIff | scripts/check_ui_term_blacklist.py:98-103 | a literal runs up to the first of its quotes that stands behind an even number of backslashes |
| StringLiterals.QuotesAre | scripts/check_ui_term_blacklist.py:95 | single and double quotes and backquotes open a literal, no other character does |
| StringLiterals.LiteralsAreDisjoint | scripts/check_ui_term_blacklist.py:92-107 | closed literals are pairwise disjoint, so the enclosing one is unique |
| Backfill.Manifest.Apply | scripts/ingest_iam_sub_backfill.py:105-149 | the entries, the description and the statistics after the rows are those of the specification |
| Backfill.BackfilledIs | scripts/ingest_iam_sub_backfill.py:88-141 | an entry that the index reaches says what the last row with its id does (subject and status by cases: disabled or unmatched, missing, bound, as declared); all others are as they were |
| Backfill.StatsAre | scripts/ingest_iam_sub_backfill.py:113-141 | each counter is the number of rows without an entry, of rows that say what their entry holds, of rows that newly make it missing, and of the rest |
| Backfill.PlaceholdersIff | scripts/ingest_iam_sub_backfill.py:160-171 | the list of ids with a placeholder subject is empty exactly when no entry carries one |
| Backfill.Manifest.Ingest | scripts/ingest_iam_sub_backfill.py:174-239 | exit codes and write: a manifest is written exactly when every row is known, no placeholder is left and it is no dry run |
| Backfill.Backfilled | scripts/ingest_iam_sub_backfill.py:105-141 | each entry the index reaches holds the classification of the last row with its id; all others are untouched |
| Backfill.CountersAddUp | scripts/ingest_iam_sub_backfill.py:113-141 | replaced, missing, unchanged and not-found add up to the rows read |
| Backfill.BackfillTwice | scripts/ingest_iam_sub_backfill.py:105-141 | the same rows again change no entry |
| Backfill.WatermarkTwice | scripts/ingest_iam_sub_backfill.py:143-147 | nor the watermark |
| Backfill.WatermarkedIs | scripts/ingest_iam_sub_backfill.py:143-147 | the stamp is appended exactly when it is not there |
| Backfill.SecondRunIsUnchangedIff | scripts/ingest_iam_sub_backfill.py:132-141 | a second run with the same rows counts none exactly when the rows of each known id classify alike |
| ProvisionDiff.DiffRows | scripts/export_iam_provisioning_request.py:219-245 | the diff and the four counts of the specification; previous-only counts exactly the ids missing from the current rows |
| ProvisionDiff.DiffIs | scripts/export_iam_provisioning_request.py:219-245 | the diff holds exactly the new rows and those that differ in one of the eight compared columns, in order, as they are but for the note that says which |
| ProvisionDiff.NumberIs | scripts/export_iam_provisioning_request.py:222-241 | each counter is the number of rows of its kind |
| ProvisionDiff.OverlayCatchesUp | scripts/export_iam_provisioning_request.py:219-245 | overlaying the diff agrees with every current row on the compared columns and keeps the rows only the previous export has |
| ProvisionDiff.RediffIsEmpty | scripts/export_iam_provisioning_request.py:219-245 | diffing again against the overlay reports nothing added or changed |
| ProvisionDiff.EmptyDiffIff | scripts/export_iam_provisioning_request.py:225-241 | the diff is empty exactly when every current row has a previous one that agrees on the compared columns |
| Projection.Disk.CheckProjectionDrift | scripts/export_agent_contract.py:988-1001 | reports exactly the missing, differing and unexpected files |
| Projection.DriftIff | scripts/export_agent_contract.py:988-1001 | what is reported of a path: missing, different or unexpected, each exactly when it is |
| Projection.ExpectedIs | scripts/export_agent_contract.py:802-847 | what every projection file should hold, and for each tool the descriptor of the last one with its id |
| Projection.ListsAre | scripts/export_agent_contract.py:805-833 | the skills that go into a file are those without an error, and the live ones of the surface, in order |
| Projection.ToolsAre | scripts/export_agent_contract.py:119-120 | tools are sorted with those without side effects first, then by id |
| Projection.Disk.Generate | scripts/export_agent_contract.py:1045-1049 | the whole file system after a generate run |
| Projection.Disk.Run | scripts/export_agent_contract.py:1004-1055 | exit codes; a check changes nothing, anything else generates |
| Projection.CleanIff | scripts/export_agent_contract.py:988-1034 | the check is clean exactly when every projection and the document hold what they should and the tools directory nothing else |
| Projection.GenerateMakesClean | scripts/export_agent_contract.py:1004-1055 | after a generate run the check is clean |
| Projection.CleanIffGenerateChangesNothing | scripts/export_agent_contract.py:1004-1055 | the check is clean if and only if a generate run would change no file |
| Projection.GenerateTouchesNothingElse | scripts/export_agent_contract.py:973-985 | files that are no projection, descriptor or document are never touched |
| PageRegistry.LongFirstIff | scripts/export_agent_contract.py:603-657 | for distinct prefixes, every first match is a longest match if and only if no prefix stands before one it begins |
| PageRegistry.BuildWebuiPageRegistry | scripts/export_agent_contract.py:660-724 | the pages of the ordered anchors, each with its skills in order, and the sorted unmapped ids |
| PageRegistry.PageHoldsItsAnchor | scripts/export_agent_contract.py:671-692 | a page holds exactly the skills its anchor classifies, each as often as it is given |
| PageRegistry.RegistryConserves | scripts/export_agent_contract.py:660-724 | with distinct anchors that list the table's, all pages and the unmapped skills together are exactly the skills given |
| PageTable.AnchorIsOfLongestPrefix | scripts/export_agent_contract.py:603-657 | for every skill id the script's first match is its longest matching prefix |
| PageTable.ScriptRegistryConserves | scripts/export_agent_contract.py:660-724 | every live web skill is emitted exactly once by the script's registry, under one anchor or as unmapped |

## Left out

- FullScanVerdict.NotFlaggedIsSafe: is stated for the shapes the check follows; the others are missed by UnfollowedIsMissed.
- FullScanVerdict.FlaggedIsReal: needs a prefix without `else`; the general condition is in SinkLeaksIff.
- Full-scan fragment: each name is started once and unconditionally and continued only by itself, under `if` and `with`; returns before the last such statement let no query out (guard clauses), and all other sinks come after it, under `if` and `with` to any depth. Loops, nested functions, foreign reassignments, queries built after the first sink and aliases of models or of `select` are not modelled.
- Sinks that the model does not read as such: `(await session.execute(q)).scalars()`, `return session.execute(q)` and `list(session.execute(q))`; the script reports none of them either.
- Query semantics: methods other than `where` and `limit` keep a query's rows. Conditions are values over one row of the query's own model: columns of joined models count as values of the caller, operators and names may mean anything, but the same for all rows.
- The `# full-scan-ok` comment window, file discovery and printed reports of the full-scan check.
- Keyword arguments of `where` conditions: the script does not look at them either.
- MySqlMeaning.ReadAsMeantIff: the meaning covers tuples of single-quoted strings, NULL and integers with blanks between tokens; double-quoted strings, hexadecimal, floating-point and other literals have no meaning in it, though the reader and the rewriter are modelled on them.
- DumpReader.IterValueTuples: digits are ASCII and integers have no length limit, where Python's `int` also takes other decimal digits and refuses very long ones; `strip` removes the characters that `str.isspace` accepts.
- RoundTrip.EmittedRowsReadBack: assumes of Python that a float's `repr` reads back as that float (`ReprReads`).
- Boolean cells: the reader gives none.
- Regular expressions of the redaction patterns, the dump's line patterns and the test counters; `upper` and `lower` are ASCII only.
- Whole-dump idempotence: the line patterns are not modelled, so it is stated for payloads (Rewriter.RewriteIsIdempotent).
- Batch.BatchDir.Bundle: input and output are different directories by construction; timestamps, sizes and batch ids of the manifest are not modelled, nor its JSON form.
- Checksum.TableDivides: the table is described as eight division steps per entry; its 256 stored values are not listed.
- FeatureStatus.LoadMeasurement: timestamps are integers and artefacts that do not parse are absent from the listing.
- StatusRuns.DoneMeansEvidence: editing or deleting artefacts and ledgers by hand is not a step.
- Feature headers: how a specification names its tests and its deferral is a parameter.
- Signoff.CheckLedger: YAML values are given; a ledger that is not a mapping and a scope that contains a path separator are not modelled.
- Printed reports, details and hint texts of all scripts, and the exit code of a capture.
- Guard matchers, allow lists and file decoding enter GuardScan as parameters; the fallback when git is absent is not modelled.
- Backfill: reading the CSV file and the JSON manifest; a missing field counts as empty, as the script's `or ""` makes it.
- ProvisionDiff.OverlayCatchesUp: needs current rows with distinct ids; building and masking the rows is not modelled.
- Projection: the contents of the projections are functions of the skills; skill ids that contain `/` are not modelled.
- PageRegistry: the text of the generated registry file, roles and permissions.
- Scripts whose effects lie in handlers, repositories or databases (`customer_demo_*.py`, `check_orphan_rows.py`, `repair_actor_identity_duplicates.py`, `import_loggedin_users.py`, migrations) and the structural guards.

# A verified model of the ingestion control plane

The repository ingests ERP data behind fail-closed gates and lets people promote answers about it.
This project models the parts of it that are small protocols or parsers with state, in Dafny 4.11,
and proves what they keep over every input, every run and every interleaving. `dafny verify
dfyconfig.toml` checks everything.

Where the code changes state step by step, so does the model: classes with the source's fields,
loops with invariants, each method proved against a function of the old state; the lemmas about that
function are the results. Beside the functions stand laws that say what they compute without naming
them: as relations, tables or conditions on the input (the `Laws` and `Yaml` files above). What the code asks of its surroundings (SHA-256, HMAC, clocks, SQL
engines, HTTP servers, the file tree) is a parameter or a step-wise environment.

| files | what they model |
|---|---|
| `PyText`, `YamlScan`, `YamlParser`, `YamlReader` | the YAML-subset parser (YAML 1.2.2, sections 5.7, 6.6, 7.3 and 8.2), as functions and as the loops that refine them |
| `YamlLeaves`, `YamlSurface`, `YamlRoundTrip`, `YamlCanonical`, `YamlDoubleQuotes` | how documents can be written - every scalar style, block scalars, quoted keys, any indentation, notes - and what they read as |
| `EvidenceMatrix`, `EvidenceVerifier`, `EvidenceLaws`, `TestRefs` | the checks of the evidence matrix, the loops that turn them into an exit code, what each type of evidence asks for, and what a passing test ref says |
| `CanonicalJson`, `JsonReader`, `CanonicalJsonProofs`, `ReceiptArgs`, `ReceiptArgLaws`, `Receipts`, `ReceiptLaws`, `ReceiptRaces` | approval receipts: the printer and an independent reader (RFC 8259, sections 2 to 7), the binding, signing, verifying, what MAC and id cover, single use under the ledger lock |
| `Claims`, `ClaimLaws`, `ClaimRuns`, `ClaimExport`, `ClaimExportLaws` | the claim lifecycle over its append-only ledger, its moves and refusals, and the bytes of an export |
| `Guardrails`, `GuardrailLaws` | SQL comment stripping and statement validation, and what stripping keeps |
| `Staging`, `Snapshots` | the shared extraction template: batches, merge, tombstones |
| `Documents`, `TextNumbers`, `BisTrack`, `BisTrackRuns`, `BisTrackExact`, `BisTrackHistories` | keyset paging with one checkpoint per document type; histories of incremental runs and backfills |
| `Agility`, `AgilityLaws`, `AgilityRuns`, `InvoiceRuns` | the chunk walk that restarts after a lost session; trailing invoice windows |
| `ControlPlane`, `CsvDrop`, `CsvLaws`, `CsvDropRuns`, `Spruce`, `SpruceLaws`, `SpruceRuns` | manifest-gated file drops |
| `Superset`, `Promotion`, `Layout`, `LayoutLaws`, `LayoutRuns` | promotion: find-then-create under a per-question mutex, and the dashboard tree |

## What the proofs found

Each is a lemma that says exactly when the code does what is expected of it, or how far it does not, with an input on which it does not.

- Double-quoted YAML scalars read back as written exactly when no backslash is followed by `n` or `t` (`DoubleQuotesReadBackIff`, `BackslashN`).
- The parser's documentation lists flow mappings among what it reads. After a dash one is taken apart at its first separating colon: `- {a: b}` reads as a mapping whose key is `{a`. A bracketed value after a dash is read as one exactly when it has no such colon (`BracketAfterDashIff`, `FlowItemIsTakenApart`).
- A pytest evidence ref passes exactly when the last part of it, if it is not blank, stands somewhere in the file after `def` and a blank (`NodePassesIff`). The header comment promises that the test function exists. Reading the file line by line, some line defines it exactly when one of those occurrences opens its line and ends its name (`PassingIsDefinedIff`); a ref also passes on a longer name, on a comment, or with nothing to look for (`LongerNamePasses`, `CommentPasses`, `BlankPartPasses`).
- The report of the evidence matrix counts ids: it is short exactly when two failing rows go by one id (`FailedCountIff`, `TwoRowsCountOnce`).
- A receipt's arguments pass through `dict()`. One that carries an empty list passes for a call without arguments, a list of pairs for the dict of those pairs; receipt and call normalize to one tree exactly when the receipt carries an object (`VerifyPassesExactly`, `OneTreeExactlyForObjects`, `EmptyListPasses`).
- Four-eyes compares with `opened_by`. The module's documentation speaks of the actor who submits; a submitter may approve and lock exactly when they are not the opener, and the opener may be the confirmer (`SubmitterIsStoppedIffOpener`, `TwoPeopleCanLock`).
- A failed backfill rewrites the live file with whole batches only, dropping keys that are never tombstoned (`FailureConservesExactly`, `FailedBackfillLosesAKey`); a first incremental run that fails after a whole batch makes the next one stage rows twice (`FirstFailureThenSuccess`, `WholeBatchComesTwice`).
- A backfill leaves no checkpoint for the incremental mode. The first incremental run after it reads everything again and appends it: the staged file then holds every row of the backfill twice, unless it read none (`SwitchIsExactIff`, `BackfilledRowComesTwice`).
- A natural id determines its fields exactly when there is one field or none holds a colon (`IdentityIsUniqueIff`, `ColonsCollide`).
- The larger of two document numbers is not a maximum when numbers and a code stand the wrong way round (`MixedKindsCycleIff`, `MixedKindsCycle`).
- Unpadded numbers in a text column are compared as texts by the database and as numbers by the checkpoint: staged numbers come again, or new ones are missed, exactly when leading digits disagree (`TextScanIsExactIff`, `NineComesAgain`).
- Keep-first after a lost session drops a record exactly when the pages lost with it held another version of it, while the stamp moves past the edit (`UpdateIsLostIff`, `EditedRecordIsLost`).
- An incremental invoice run asks for the trailing window again and appends it. Run daily, a line is staged once for every day its window was open, `invoice_window_days + 1` times in all (`StagedPerRun`, `DailyRunsRepeat`).
- The idempotency gate of the CSV drop takes any audit row for a promotion. The comments speak of bytes already promoted; a file quarantined once, say under a manifest with a wrong row count, is skipped for ever and its runs report success (`SoundDeliveryPromotedIff`, `QuarantineIsForever`, `CorrectedManifestIsSkipped`).
- The header gate trims names, the rows are read under untrimmed ones: a padded header field passes, and its column is empty throughout (`CellHoldsIff`, `PaddedColumnReadsNull`, `OneSpaceLosesTheValue`).
- A delivery may never overwrite a newer generation. It does exactly when its own mode's watermark is absent or behind what was staged (`OverwritesIff`, `LagsIffOpen`), and a watermark falls behind in exactly two ways: an older re-delivery is absorbed, which writes the watermark too, or newer rows are staged under the other mode, whose watermark is another one (`LagBeginsIff`, `OlderBatchOverwritesNewer`, `MixedModesOverwrite`).
- A PROMOTED audit row is said to imply a staged file. After a write that fails, a refused manifest on the same connector instance, be it of another entity, records the row that was held back (`DishonestIff`, `FalseReceipt`).
- The mutex is per question, a physical backing table is not: a missing table gets a second dataset exactly when promotions of different questions name it (`SecondDatasetIff`, `TwoQuestionsTwoDatasets`).
- Datasets are found by table name alone and never updated: the dataset behind a chart carries the SQL and the database of the last promotion exactly when the first one found or made happens to (`CarriesLastAskedIff`, `OldSourceStays`).
- A slug carries its date, a grid row does not: promoting a question again on a later day makes a chart that the dashboard never shows (`MergedShowsIff`, `NextDayIsNotShown`).
- When a question's row was removed from the dashboard and its chart hangs elsewhere, promoting it again gives the chart's node a second place, and the layout stops being a tree (`MergedKeepsLayoutIff`, `MovedChartBreaks`).

## Model

| member | source | states |
|---|---|---|
| `PyText.SplitJoin` | tools/verify_evidence_matrix.py:130-130 | splitting joined break-free lines gives the lines back |
| `PyText.ParseIntText` | tools/verify_evidence_matrix.py:296-299 | the text of an int reads back as that int, within the interpreter's digit limit |
| `YamlScan.ScanComment` | tools/verify_evidence_matrix.py:108-124 | the quote-aware loop finds the same comment start as the recursive reading of the rule |
| `YamlScan.ScanKey` | tools/verify_evidence_matrix.py:177-196 | the loop over a line finds the key separator outside quotes that the specification names, or none |
| `YamlScan.PrepareLines` | tools/verify_evidence_matrix.py:127-139 | the loop keeps exactly the non-blank, non-comment lines with indent and number, and refuses tab indentation |
| `YamlParser.ParseBlock` | tools/verify_evidence_matrix.py:168-174 | terminates; on a line at or above the minimum indent it advances, over lines indented no less than its first |
| `YamlParser.ParseMapping` | tools/verify_evidence_matrix.py:199-225 | a key line at this indent is consumed, and nothing indented less |
| `YamlParser.ParseItem` | tools/verify_evidence_matrix.py:228-258 | an item consumes at least its own line, across the re-sliced sub-list, and nothing indented less |
| `YamlParser.ParseList` | tools/verify_evidence_matrix.py:228-258 | an item line at this indent is consumed, and nothing indented less |
| `YamlParser.WholeTextIsRead` | tools/verify_evidence_matrix.py:149-165 | a value is returned only when every line was consumed, none of them indented less than the first |
| `YamlReader.ReadBlock` | tools/verify_evidence_matrix.py:168-174 | the index-updating block reader returns what the specification returns |
| `YamlReader.ReadMapping` | tools/verify_evidence_matrix.py:199-225 | the mapping loop returns what the recursion returns, errors included |
| `YamlReader.ReadList` | tools/verify_evidence_matrix.py:228-258 | the list loop returns what the recursion returns, errors included |
| `YamlReader.ReadItem` | tools/verify_evidence_matrix.py:228-258 | the "- key: value" re-slice gives the specified value and next line |
| `YamlReader.ReadBlockScalar` | tools/verify_evidence_matrix.py:261-272 | the collected deeper lines are the text of the block scalar |
| `YamlReader.ReadYamlSubset` | tools/verify_evidence_matrix.py:149-165 | the reader agrees with the specification on every text, errors included |
| `YamlLeaves.UndoubleDoubled` | tools/verify_evidence_matrix.py:285-290 | replacing doubled quotes undoes doubling |
| `YamlLeaves.PlainReads` | tools/verify_evidence_matrix.py:275-305 | a trimmed text on one line with no note in it, no quotation mark or bracket in front, neither a word for a bool or null nor shaped like a number, is read as itself - a condition on its characters |
| `YamlLeaves.LeafReads` | tools/verify_evidence_matrix.py:275-305 | a scalar in any style - word, number, plain, single- or double-quoted, bracketed - reads as the value it writes |
| `YamlLeaves.DashHasNoKey` | tools/verify_evidence_matrix.py:177-196 | after a dash, a scalar is not taken for a key and its value |
| `YamlSurface.RowIsPrepared` | tools/verify_evidence_matrix.py:108-139 | an indented row, with a note behind it or not, is prepared as its own indentation and content |
| `YamlSurface.FieldSplits` | tools/verify_evidence_matrix.py:177-196 | a written entry splits at its own colon, whatever its key and its value hold |
| `YamlSurface.LastValueCounts` | tools/verify_evidence_matrix.py:199-225 | of a repeated key the last value counts; every key written is there, once |
| `YamlSurface.FirstPlaceCounts` | tools/verify_evidence_matrix.py:199-225 | a key keeps the place where it came first |
| `YamlRoundTrip.SplitBroken` | tools/verify_evidence_matrix.py:130-130 | lines ended by any line break, mixed, or the last by none, are split as they were |
| `YamlRoundTrip.WrittenIsPrepared` | tools/verify_evidence_matrix.py:127-139 | rows written among blank lines and notes, with notes behind them, are prepared as those rows |
| `YamlRoundTrip.BlockReads` | tools/verify_evidence_matrix.py:261-272 | the lines of a block scalar, at any deeper indentation, read as their joined or folded text, chomped as asked |
| `YamlRoundTrip.ItemOpensMapping` | tools/verify_evidence_matrix.py:228-258 | an item that opens a mapping in place re-slices to the rows of that mapping |
| `YamlRoundTrip.FieldsParse` | tools/verify_evidence_matrix.py:199-225 | the rows of a mapping, anywhere in a document, parse to its entries and stop where they end |
| `YamlRoundTrip.ItemsParse` | tools/verify_evidence_matrix.py:228-258 | the rows of a list, anywhere in a document, parse to its items and stop where they end |
| `YamlRoundTrip.DocumentReads` | tools/verify_evidence_matrix.py:108-305 | every document - lists and mappings nested at any deeper steps, lists flush with their key, keys plain or quoted, scalars in every style, block scalars, among notes and blank lines, under any line ends - reads as the value it writes |
| `YamlRoundTrip.AsidesReadAsNull` | tools/verify_evidence_matrix.py:159-161 | a text of blank lines and notes reads as null |
| `YamlCanonical.PlainEntryReads` | tools/verify_evidence_matrix.py:275-305 | `k: s` reads as the mapping of `k` to `s`, for every plain text that is not a block indicator |
| `YamlCanonical.RoundTrip` | tools/verify_evidence_matrix.py:108-305 | every tree of non-empty maps and lists over scalars reads back from its two-space rendering |
| `YamlCanonical.RenderingIsInjective` | tools/verify_evidence_matrix.py:108-305 | different trees have different renderings |
| `YamlCanonical.BracketAfterDashIff` | tools/verify_evidence_matrix.py:240-257 | a bracketed value after a dash is read by the flow parser exactly when it has no separating colon outside quotes; else the item is a mapping, or an error |
| `YamlCanonical.FlowItemIsTakenApart` | tools/verify_evidence_matrix.py:240-257 | `- {a: b}` reads as a mapping with the key `{a` |
| `YamlCanonical.TabsAreRefused` | tools/verify_evidence_matrix.py:127-133 | a text is refused exactly when the white space in front of some line holds a tab, under the number of the first such line |
| `YamlDoubleQuotes.NextStage` | tools/verify_evidence_matrix.py:288-289 | what each of the four chained replacements does to an escaped text |
| `YamlDoubleQuotes.DoubleQuotesReadBackIff` | tools/verify_evidence_matrix.py:285-289 | an escaped double-quoted text reads back exactly when it has no backslash before `n` or `t` |
| `YamlDoubleQuotes.BackslashN` | tools/verify_evidence_matrix.py:285-289 | a backslash followed by `n` does not read back |
| `EvidenceMatrix.CutIsFirst` | tools/verify_evidence_matrix.py:412-438 | a text is found exactly when it occurs, at its first occurrence |
| `EvidenceMatrix.EqualIffSameShape` | tools/verify_evidence_matrix.py:497-510 | pinned and found values are equal exactly when they are the same tree up to dictionary order and the way numbers are written; a bool is never a number, not-a-number equals nothing |
| `EvidenceVerifier.CheckEvidenceEntry` | tools/verify_evidence_matrix.py:561-582 | an entry has no failure exactly when it is well formed and the check of its type passes |
| `EvidenceVerifier.VerifyClaim` | tools/verify_evidence_matrix.py:610-657 | a row's verdicts all pass exactly when the row holds and its id is new; a valid new id is remembered |
| `EvidenceVerifier.OneMoreHolds` | tools/verify_evidence_matrix.py:627-634 | rows hold with pairwise distinct ids exactly when each new id is not among those seen |
| `EvidenceVerifier.VerifyMatrix` | tools/verify_evidence_matrix.py:694-741 | the report is clean exactly for a verified matrix, refused exactly for an unusable document, and its failing rows are those that do not hold or repeat an id |
| `EvidenceVerifier.PrintReport` | tools/verify_evidence_matrix.py:749-781 | exit code 0 exactly for a clean report with claims; the failing claims are the ids of failing verdicts |
| `EvidenceVerifier.FailedCountIff` | tools/verify_evidence_matrix.py:755-780 | the ids counted are as many as the failing rows exactly when no two failing rows share one |
| `EvidenceVerifier.TwoRowsCountOnce` | tools/verify_evidence_matrix.py:755-780 | two failing rows of one id, counted once by every report |
| `EvidenceVerifier.Verify` | tools/verify_evidence_matrix.py:784-812 | end to end on a matrix text: 0 exactly when verified, 2 exactly when it cannot judge, else 1 |
| `EvidenceLaws.WalkIff` | tools/verify_evidence_matrix.py:480-494 | walking a dotted path finds a value exactly when it stands under the path: by dict key, or by decimal index into a list, piece by piece |
| `EvidenceLaws.FieldIff` | tools/verify_evidence_matrix.py:513-538 | manifest_field passes exactly when the file is there and parses, a value stands under the path, and the pinned value is the same tree; numbers by value, a bool no number |
| `EvidenceLaws.HashIff` | tools/verify_evidence_matrix.py:541-558 | artifact_hash passes exactly when the file's digest is the pin, trimmed and in lower case, of 64 hex digits |
| `EvidenceLaws.ScriptIff` | tools/verify_evidence_matrix.py:471-477 | script passes exactly when the script is there and ends well within its positive timeout, 120 when none is given |
| `EvidenceLaws.TestIff` | tools/verify_evidence_matrix.py:412-438 | test passes exactly as a node id, as a target of one of the three runners whose manifest is somewhere in the tree, or as a file of the tree |
| `EvidenceLaws.EvidenceIff` | tools/verify_evidence_matrix.py:561-582 | an entry passes exactly when it has one of the four types, only the keys of that type, a non-blank ref, and what that type asks for |
| `EvidenceLaws.ClaimIff` | tools/verify_evidence_matrix.py:610-657 | a row holds exactly when it has a well-formed id, the texts it needs, a source file of the tree, and evidence of which every entry passes |
| `EvidenceLaws.VerifiedIff` | tools/verify_evidence_matrix.py:694-741 | a matrix is verified exactly when it has schema version 1, only known fields, claims without a repeated id, and every row passes, stated by keys, types and literals |
| `EvidenceLaws.ParsedIsPlain` | tools/verify_evidence_matrix.py:149-165 | what the parser returns has no repeated key in any mapping |
| `EvidenceLaws.TextIsVerifiedIff` | tools/verify_evidence_matrix.py:694-741 | so the exit code of a matrix text is 0 under that very condition |
| `TestRefs.NodePassesIff` | tools/verify_evidence_matrix.py:412-424 | a ref with `::` passes exactly when its file is in the tree, what follows is not blank, and its last part is blank or stands in the file after "def " |
| `TestRefs.ClassIsNotAsked` | tools/verify_evidence_matrix.py:419-419 | with a class before the node a ref passes exactly when it passes without |
| `TestRefs.DefinesIff` | tools/verify_evidence_matrix.py:37-39 | reading line by line finds a function of the name exactly when some occurrence opens its line (white space and `async` aside) and ends the name |
| `TestRefs.PassingIsDefinedIff` | tools/verify_evidence_matrix.py:412-424 | a ref to a function that its file defines passes; a ref names a defined function exactly when one of the occurrences is a definition |
| `TestRefs.LongerNamePasses` | tools/verify_evidence_matrix.py:412-424 | a ref to `test_a` passes on a file that only defines `test_ab` |
| `TestRefs.CommentPasses` | tools/verify_evidence_matrix.py:412-424 | a ref to `test_a` passes on a file that only mentions it in a comment |
| `TestRefs.BlankPartPasses` | tools/verify_evidence_matrix.py:419-424 | a ref whose last part is blank passes on every file |
| `CanonicalJson.SortByKey` | api/genbi/receipts.py:119-122 | sorting keeps every entry of a dictionary |
| `CanonicalJsonProofs.SortCorrect` | api/genbi/receipts.py:119-122 | sorted keys ascend and every key keeps its value |
| `JsonReader.EscapedText` | api/genbi/receipts.py:105-107 | a reader of section 7 of RFC 8259 reads an escaped text back |
| `JsonReader.PrintReadsBack` | api/genbi/receipts.py:105-107 | an independent JSON reader reads every printed tree back, nothing left over |
| `CanonicalJsonProofs.CanonicalReadsBack` | api/genbi/receipts.py:105-107 | the canonical text reads back as the same tree with ascending keys all the way down |
| `CanonicalJsonProofs.PrintPrefix` | api/genbi/receipts.py:105-107 | two printed trees followed by anything that ends a value are equal texts only if the trees are equal |
| `CanonicalJsonProofs.PrintInjective` | api/genbi/receipts.py:105-107 | the printed text determines the tree |
| `CanonicalJsonProofs.NormalizeIsNormal` | api/genbi/receipts.py:110-125 | normalizing gives ascending keys and no null entries, all the way down |
| `CanonicalJsonProofs.NormalizeIdempotent` | api/genbi/receipts.py:110-125 | normalizing twice is normalizing once |
| `CanonicalJsonProofs.BindingDeterminesNormalForm` | api/genbi/receipts.py:215-217 | two binding texts are equal exactly when the normalized arguments are |
| `CanonicalJsonProofs.BindingMeansAgreement` | api/genbi/receipts.py:110-125 | bindings are equal exactly when the arguments agree key by key, an absent key counting as null |
| `ReceiptArgs.BindingMeansCoercion` | api/genbi/receipts.py:215-217 | whatever JSON a receipt carries binds like the call's arguments exactly when dict() makes a dict of it that agrees with them |
| `ReceiptArgs.ListsBind` | api/genbi/receipts.py:215-217 | empty lists and texts bind like an empty dict, a pair like the dict of it |
| `ReceiptArgLaws.PairIff` | api/genbi/receipts.py:215-217 | an element is a pair exactly when it is a list of a hashable key and a value, a text of two characters, or a dict of two keys |
| `ReceiptArgLaws.LastPairCounts` | api/genbi/receipts.py:215-217 | dict() of a list of pairs has every key once, as first written, with the value given last; true is one and false is zero |
| `ReceiptArgLaws.CoercesIff` | api/genbi/receipts.py:110-125 | arguments make a dict that can be sorted exactly when they are an object, an empty text, or a list of pairs whose keys are all texts, all numbers, or all one key |
| `Receipts.ApprovalReceiptLedger.Redemption` | api/genbi/receipts.py:248-253 | the scan returns the first redemption of that id, if there is one |
| `Receipts.ApprovalReceiptLedger.RedeemOnce` | api/genbi/receipts.py:259-270 | appends exactly when the id was unspent, else returns the prior redemption |
| `Receipts.ApprovalReceiptService.Sign` | api/genbi/receipts.py:299-339 | mints the receipt of the request and logs it without its MAC |
| `Receipts.ApprovalReceiptService.VerifyAndRedeem` | api/genbi/receipts.py:342-404 | accepts, and spends the receipt, exactly when verification passes and its id is unspent; refusals leave the ledger alone |
| `Receipts.VerifyPassesExactly` | api/genbi/receipts.py:361-385 | verification passes exactly for an authentic, unexpired receipt of this tool, policy and actor whose arguments coerce to a dict that agrees with the call's, with no assumption on the hash |
| `Receipts.OneTreeExactlyForObjects` | api/genbi/receipts.py:371-377 | a passing receipt and its call normalize to one tree exactly when the receipt carries an object |
| `Receipts.EmptyListPasses` | api/genbi/receipts.py:371-377 | a receipt carrying an empty list passes for a call without arguments |
| `Receipts.FreshReceiptPasses` | api/genbi/receipts.py:299-404 | a receipt just signed passes for every agreeing request until it expires |
| `ReceiptLaws.MacCovers` | api/genbi/receipts.py:424-429 | two receipts have one MAC text exactly when they carry the same under each of ten named fields |
| `ReceiptLaws.SameIdSameApproval` | api/genbi/receipts.py:299-339 | under a hash that is injective on its first 16 digits two signed receipts share an id only if they agree in tool, actor, arguments, policy, lifetime, instant and nonce |
| `ReceiptLaws.StructuredAs` | api/genbi/receipts.py:408-422 | a receipt is refused for its shape under the first of five named defects, and only then |
| `ReceiptLaws.RefusedAs` | api/genbi/receipts.py:342-385 | a well-formed receipt is refused for the first of the reasons that holds, and else accepted with what it records |
| `ReceiptRaces.SingleUse` | api/genbi/receipts.py:259-270 | in every interleaving no id is redeemed twice, and redemptions and accepted calls match one to one |
| `ReceiptRaces.SomeAttemptIsAccepted` | api/genbi/receipts.py:259-270 | of the finished attempts on an unspent id exactly one is accepted |
| `ReceiptRaces.LoneAttemptIsAccepted` | api/genbi/receipts.py:342-404 | an undisturbed attempt on an unspent id is accepted, on a spent one refused |
| `Claims.ClaimEngine.Open` | control_plane/claims.py:223-265 | opens a draft and logs it, or refuses and changes nothing |
| `Claims.ClaimEngine.Apply` | control_plane/claims.py:268-329 | moves exactly one claim and logs the move, or refuses for the first reason that holds and changes nothing |
| `Claims.ClaimEngine.Export` | control_plane/claims.py:332-361 | all requested claims with their histories, or nothing and the list of those not locked |
| `Claims.ClaimEngine.Load` | control_plane/claims.py:376-433 | the replay loop over any ledger gives the replayed state |
| `ClaimLaws.MoveIff` | control_plane/claims.py:96-105 | the moves are eight triples of status, action and status, spelled out |
| `ClaimLaws.TerminalIff` | control_plane/claims.py:94-95 | the statuses called terminal are exactly those that no action leaves |
| `ClaimLaws.MoveRefusedAs` | control_plane/claims.py:268-318 | an action is refused for the first reason that holds: unknown claim, a pair outside the eight, no actor, four eyes, no confirmer, confirmer is actor |
| `ClaimLaws.MoveMeans` | control_plane/claims.py:268-329 | an accepted action moves its claim by one of the eight triples, logs just that, and leaves all else |
| `ClaimLaws.OpeningRefusedAs` | control_plane/claims.py:223-265 | an opening is refused exactly for a taken id or a blank statement, in that order |
| `ClaimLaws.OpeningMeans` | control_plane/claims.py:223-265 | an accepted opening adds the draft it was given, with no history |
| `ClaimLaws.StatusMeansMove` | control_plane/claims.py:96-105 | in every reachable state each status says what the last transition was: Rejected a Reject from UnderReview, Withdrawn a Withdraw, and so on; Draft that there was none |
| `ClaimLaws.ReplayIs` | control_plane/claims.py:376-433 | loading any ledger, whoever wrote it: a claim is there exactly when opened, is what its last opening says moved by the last transition and confirmed by the last lock after that, and has all its transitions as history |
| `ClaimLaws.ExportIs` | control_plane/claims.py:332-361 | an export is refused when empty or with the requested claims that are not locked, in order; else it holds each claim asked for in its place, and its history |
| `ClaimRuns.WrittenReplays` | control_plane/claims.py:164-184 | replaying the line an operation wrote does what the operation did |
| `ClaimRuns.ReplayIsLive` | control_plane/claims.py:376-433 | after any sequence of accepted and refused operations, loading the ledger gives the live claims and history |
| `ClaimRuns.ReloadingRefines` | control_plane/claims.py:376-433 | engines loaded per request answer and write like one long-lived engine |
| `ClaimRuns.LockedMeansReviewed` | control_plane/claims.py:96-105 | a locked claim's history is exactly submit, start review, approve, lock, by people other than the opener, with a confirmer other than the locker |
| `ClaimRuns.TerminalIsForever` | control_plane/claims.py:268-329 | locked, rejected and withdrawn claims and their histories never change again |
| `ClaimRuns.ExportIsForever` | control_plane/claims.py:332-367 | an export gives the same package after any further operations, and on reload |
| `ClaimExport.Render` | control_plane/claims.py:357-367 | the bytes are the canonical text of the package and the content hash is theirs |
| `ClaimExport.ExportBytesIff` | control_plane/claims.py:332-367 | two exports have the same bytes exactly when they hold the same claims in the same order with the same histories, whatever order the dicts were built in |
| `ClaimExportLaws.ExportReads` | control_plane/claims.py:332-367 | the bytes of an export, read by a JSON reader, tell the package: every field of every claim and transition under its own name, each history under its claim |
| `ClaimExport.DictsIff` | control_plane/claims.py:146-148 | the entries of two maps, in any order, sort alike exactly when the maps are equal |
| `ClaimRuns.SubmitterIsStoppedIffOpener` | control_plane/claims.py:293-312 | in every reachable state the submitter is refused approval, and refused the lock, exactly when they are the opener |
| `ClaimRuns.TwoPeopleCanLock` | control_plane/claims.py:293-312 | a run in which one person submits, approves and locks and the opener confirms |
| `Guardrails.StripCommentsClears` | api/genbi/guardrails.py:117-120 | the result has no `--` and no closed block comment |
| `Guardrails.StripCommentsKeeps` | api/genbi/guardrails.py:117-120 | a text free of comments is returned unchanged |
| `Guardrails.StripCommentsIdempotent` | api/genbi/guardrails.py:117-120 | stripping twice is stripping once |
| `GuardrailLaws.KeptExactly` | api/genbi/guardrails.py:117-120 | the result is exactly the pieces between closed block comments, then between line comments, in order, one space for each comment |
| `GuardrailLaws.NoteGoes` | api/genbi/guardrails.py:117-120 | a line comment becomes one space; what stands before it and what follows its line is kept |
| `GuardrailLaws.KeptWordStops` | api/genbi/guardrails.py:117-142 | a forbidden word in any piece outside the comments stops the statement |
| `GuardrailLaws.OpensIff` | api/genbi/guardrails.py:129-131 | a text opens with a keyword exactly when its first letters are the word in any case and no word character follows |
| `GuardrailLaws.RefusedAs` | api/genbi/guardrails.py:123-142 | a statement is refused for the first reason that holds, forbidden words listed exactly, else its trimmed stripped text is returned |
| `Guardrails.TokensAreMaximalRuns` | api/genbi/guardrails.py:137-137 | the tokens found are exactly the maximal runs of token characters |
| `Guardrails.AcceptedExactly` | api/genbi/guardrails.py:123-142 | a statement is accepted exactly when its stripped text is one select or with, without forbidden words or table-function calls, and that text is returned |
| `Guardrails.TableCallIff` | api/genbi/guardrails.py:69-74 | what counts as a table-function call, as a condition on the text |
| `Guardrails.ValidationIsAFixpoint` | api/genbi/guardrails.py:123-142 | whatever validation returns, validating again returns unchanged |
| `Staging.StagedFile.WriteRecords` | connectors/base.py:393-435 | the file after a stream that ends or raises: merged, replaced, or cut to whole batches |
| `Snapshots.SnapshotConnector.Extract` | connectors/base.py:209-249 | the staged file and the tombstones after one run, failing or not |
| `Snapshots.SuccessConserves` | connectors/base.py:315-340 | a run that ends tombstones exactly the old keys missing from the new file |
| `Snapshots.SnapshotsConserveKeys` | connectors/base.py:209-249 | over any successful runs, the keys ever staged are those staged now together with those tombstoned |
| `Snapshots.FailureConservesExactly` | connectors/base.py:418-435 | a failed run keeps the books exactly when it had nothing to write, or merged, or every staged key without a tombstone is in the whole batches that arrived |
| `Snapshots.FailedBackfillLosesAKey` | connectors/base.py:408-425 | one failed backfill, one key gone without a tombstone |
| `Snapshots.NaturalIdDetermines` | connectors/base.py:139-146 | ids determine their key fields when all fields but the last are free of colons |
| `Snapshots.IdentityIsUniqueIff` | connectors/base.py:139-146 | no other fields share an id exactly when there is one field or none holds a colon |
| `Snapshots.ColonsCollide` | connectors/base.py:139-146 | two keys with a colon share an id |
| `Documents.MaxDocumentIsMaximum` | connectors/bistrack/connector.py:224-238 | on numbers of one kind the result is one of the two and no smaller than either |
| `Documents.MixedKindsCycleIff` | connectors/bistrack/connector.py:224-238 | two numbers and a code go in a circle, none of them a maximum, exactly when the code stands between their texts the wrong way round |
| `Documents.MixedKindsCycle` | connectors/bistrack/connector.py:224-238 | "10", "9" and "1a" beat each other in a circle |
| `TextNumbers.SameWidth` | connectors/bistrack/connector.py:227-231 | numbers of one width are ordered like their texts |
| `TextNumbers.MissedIff` | connectors/bistrack/connector.py:645-647 | a new number in a text column is missed exactly when it is longer than the checkpoint and begins below it |
| `TextNumbers.AgainIff` | connectors/bistrack/connector.py:645-647 | a staged number comes again exactly when it is shorter than the checkpoint, which begins below it |
| `TextNumbers.TextScanIsExactIff` | connectors/bistrack/connector.py:645-647 | a scan over unpadded numbers delivers exactly the new ones exactly when their leads agree; one width suffices |
| `TextNumbers.NineComesAgain` | connectors/bistrack/connector.py:645-647 | 9 comes again after 10, 100 is missed after 20 |
| `BisTrack.CursorSelectsAfter` | connectors/bistrack/connector.py:647-658 | the keyset cursor selects exactly the rows after the last one read |
| `BisTrack.PageExtends` | connectors/bistrack/connector.py:448-479 | a page after the rows read extends the scanned prefix; a short page completes it |
| `BisTrack.BisTrackConnector.ScanType` | connectors/bistrack/connector.py:448-479 | the paging loop terminates with exactly the wanted rows in order, or a prefix when the driver fails; an incremental scan observes every one |
| `BisTrackRuns.ComposeWatermark` | connectors/bistrack/connector.py:577-593 | the loop raises each stored maximum by what was observed and keeps the others |
| `BisTrackRuns.DocumentFeed.Extract` | connectors/bistrack/connector.py:448-479 | one run over all types, incremental or backfill: staged file, checkpoint and memory, on success and on failure |
| `BisTrackExact.WantedIsNew` | connectors/bistrack/connector.py:640-645 | above a checkpoint that fits the staged rows, a scan wants exactly the new rows |
| `BisTrackExact.RunIsExactIff` | connectors/bistrack/connector.py:448-479 | for a feed that has staged its rows once, a successful run leaves every row of the scope staged once exactly when every row gained since is numbered above the staged rows of its scan |
| `BisTrackExact.MarkAdvances` | connectors/bistrack/connector.py:577-593 | the new checkpoint of a type is its largest document |
| `BisTrackHistories.RowsAreTallied` | connectors/base.py:408-433 | over any incremental runs and backfills, failing anywhere, of a source that adds above: unless a failure took rows, the staged file holds every row of the last successful run's source, none more than twice, and each once exactly when no incremental run had to read again what only a backfill had read |
| `BisTrackHistories.EveryRowExactlyOnce` | connectors/bistrack/connector.py:448-479 | over incremental runs alone, with failures anywhere but in a first run that has written a whole batch, the staged file holds every row of the last successful run's source exactly once |
| `BisTrackHistories.SwitchIsExactIff` | connectors/bistrack/connector.py:577-593 | after a backfill, incremental runs leave every row staged once exactly when none of them has succeeded yet or the backfill read nothing; else every row of the backfill is there twice |
| `BisTrackHistories.BackfilledRowComesTwice` | connectors/bistrack/connector.py:577-593 | one row, one backfill, one incremental run: staged twice |
| `BisTrackHistories.FirstFailureThenSuccess` | connectors/base.py:408-425 | after a failed first run the next one stages every row once exactly when no whole batch had been written |
| `BisTrackHistories.WholeBatchComesTwice` | connectors/base.py:408-425 | a first run that fails after exactly one batch, and the next one stages that batch again |
| `AgilityRuns.AgilityConnector.WalkPages` | connectors/dmsi_agility/connector.py:686-723 | the walk, each page joined as it comes, terminates; it gives up exactly at a second lost session, else ends like the undisturbed walk: its records, keys and stamp |
| `AgilityRuns.AgilityConnector.JoinDocuments` | connectors/dmsi_agility/connector.py:613-656 | details join the first header of their value; one without a header refuses the page |
| `AgilityRuns.AgilityConnector.ObserveIncremental` | connectors/dmsi_agility/connector.py:763-772 | the stamp kept is the latest, the earlier text on a tie |
| `AgilityRuns.AgilityConnector.Extract` | connectors/dmsi_agility/connector.py:500-514 | a run over all customers and windows gives up exactly in a walk that loses two sessions; else it yields the records and the stamp of the undisturbed run |
| `AgilityLaws.WalkIff` | connectors/dmsi_agility/connector.py:686-723 | a walk returns the payloads of the chain of pointers from its start to the last page, and of no other |
| `AgilityLaws.JoinIff` | connectors/dmsi_agility/connector.py:613-656 | a page is refused exactly when some detail's join value is absent or borne by no header; else each detail stands, in order, under the first header that bears it |
| `AgilityLaws.RunIff` | connectors/dmsi_agility/connector.py:500-514 | a run fails exactly when some walk does or some page is refused; else it holds the records of every request in order |
| `AgilityLaws.LatestIs` | connectors/dmsi_agility/connector.py:763-772 | the stamp kept is one of those seen and none is later |
| `Agility.FreshIgnoresReplay` | connectors/dmsi_agility/connector.py:504-514 | delivering a prefix twice adds nothing to the first occurrences |
| `Agility.ReplayIsHarmless` | connectors/dmsi_agility/connector.py:686-723 | a replayed walk is worth the undisturbed one: records, keys seen, latest stamp |
| `Agility.UpdateIsLostIff` | connectors/dmsi_agility/connector.py:504-514 | when pages change between the walks, a record is dropped exactly when its key was delivered before with other content, while the stamp moves past it |
| `Agility.EditedRecordIsLost` | connectors/dmsi_agility/connector.py:504-514 | one line whose header was edited between the walks: the new version is dropped, its stamp kept |
| `AgilityRuns.RequestWindows` | connectors/dmsi_agility/connector.py:730-754 | backfill windows tile go-live to today exactly, none longer than configured, for every positive length; an incremental run takes one trailing window, an entity without windows none |
| `AgilityRuns.TilesCoverOnce` | connectors/dmsi_agility/connector.py:747-754 | every day of the range is in a window, and windows do not overlap |
| `InvoiceRuns.StagedPerRun` | connectors/dmsi_agility/connector.py:741-747 | over any incremental invoice runs a line is staged once more for every successful run whose window covers it |
| `InvoiceRuns.DailyRunsRepeat` | connectors/dmsi_agility/connector.py:741-747 | run daily, a new line is staged as often as days of its window have passed, in the end one time more than the window has days |
| `ControlPlane.ControlPlaneStore.RecordFileAudit` | control_plane/store.py:314-334 | inserts the row unless its hash has one |
| `CsvDrop.CsvSftpConnector.ValidatedRows` | connectors/csv_sftp/connector.py:271-342 | the records of a file that passes every gate, or the first gate it fails |
| `CsvDrop.CsvSftpConnector.IterRecords` | connectors/csv_sftp/connector.py:222-265 | absorbs, refuses or hands over the rows, holding the audit row back |
| `CsvDrop.CsvSftpConnector.Extract` | connectors/csv_sftp/connector.py:195-220 | staged rows, watermark and audit rows after one run, for every outcome |
| `CsvLaws.CellIs` | connectors/csv_sftp/connector.py:80-98 | a cell reads as null when blank, as the trimmed text, the int, the decimal or the date it writes, by the type of its column, and not at all when it is not of that type |
| `CsvLaws.PromotedCells` | connectors/csv_sftp/connector.py:319-342 | every row of a promoted file is staged in its place with its number and batch and every column holding what its trimmed text says |
| `CsvLaws.IntsAreStaged` | connectors/csv_sftp/connector.py:88-89 | the text of an int is staged as that int |
| `CsvLaws.HeaderFitsIff` | connectors/csv_sftp/connector.py:303-318 | the header gate passes exactly when every approved column is among the trimmed fields and, unless additive columns are allowed, no other |
| `CsvLaws.RefusedAs` | connectors/csv_sftp/connector.py:271-342 | a declared file is refused by the first gate it fails, and by ParseError exactly when some non-blank text is not of its column's type |
| `CsvLaws.RunIsJudged` | connectors/csv_sftp/connector.py:222-265 | a run is absorbed, promoted or quarantined exactly under the stated conditions |
| `CsvLaws.RunLeaves` | connectors/csv_sftp/connector.py:195-265 | the staged rows, the watermark and the audit row each verdict leaves, and nothing else |
| `CsvDropRuns.PromotedAtMostOnce` | control_plane/store.py:314-345 | over any runs a content hash is promoted at most once, and never one that had an audit row |
| `CsvDropRuns.PromotedFits` | connectors/csv_sftp/connector.py:271-342 | a promoted file has the manifest's hash and row count and every value cast |
| `CsvDropRuns.FailuresChangeNothing` | connectors/csv_sftp/connector.py:195-211 | over any runs an entity's staged rows change only by a promotion of it, and its watermarks not while its files fail |
| `CsvDropRuns.SoundDeliveryPromotedIff` | connectors/csv_sftp/connector.py:238-253 | a delivery passing every gate is promoted exactly when its content has no audit row of any status and its batch is new |
| `CsvDropRuns.QuarantineIsForever` | control_plane/store.py:336-345 | content quarantined once is never promoted by any later run |
| `CsvDropRuns.CorrectedManifestIsSkipped` | connectors/csv_sftp/connector.py:238-253 | a corrected manifest for a quarantined file: success reported, watermark moved, nothing staged |
| `CsvDropRuns.CellHoldsIff` | connectors/csv_sftp/connector.py:319-330 | a cell holds something exactly when the row has a non-blank text under the approved name itself |
| `CsvDropRuns.PaddedColumnReadsNull` | connectors/csv_sftp/connector.py:303-330 | a padded header field passes the gate and its column reads as empty |
| `CsvDropRuns.OneSpaceLosesTheValue` | connectors/csv_sftp/connector.py:303-330 | a file with one padded field that passes every gate and loses its value |
| `Spruce.WatermarkReadsBackIff` | connectors/eci_spruce/connector.py:181-194 | the watermark text reads back as its stamp exactly when both parts are there and the generation has no bar |
| `Spruce.EciSpruceConnector.EnforceBatchOrder` | connectors/eci_spruce/connector.py:429-463 | refuses regenerated and stale manifests, lets the others through |
| `Spruce.EciSpruceConnector.Extract` | connectors/eci_spruce/connector.py:355-427 | the whole new state after one attempt, a failing write included: audit rows, the watermarks of every entity and mode, the staged files and the row held back |
| `SpruceLaws.WatermarkReads` | connectors/eci_spruce/connector.py:181-194 | a watermark reads as the stamp it names up to its first bar, as none when empty, and is refused when a part is missing |
| `SpruceLaws.JudgedAs` | connectors/eci_spruce/connector.py:382-463 | the verdict by the first question that decides it: declared, known content, watermark readable, same batch, timestamps, later generation, row gates |
| `SpruceLaws.WatermarksLeft` | connectors/eci_spruce/connector.py:344-349 | only an absorbed or a staged delivery moves the watermark of its entity and mode, to its own manifest; no other watermark moves |
| `SpruceLaws.FilesLeft` | connectors/eci_spruce/connector.py:355-427 | only a promotion with rows touches the file of its entity: appended, replaced, or what a failing disk left |
| `SpruceLaws.HeldBack` | connectors/eci_spruce/connector.py:355-380 | an audit row is held back exactly by a promotion that breaks off, and goes with the next attempt that flushes it |
| `SpruceLaws.AuditsLeft` | connectors/eci_spruce/connector.py:355-380 | which audit row each verdict adds, under which hash, never over one that is there |
| `SpruceRuns.PromotedIsNewer` | connectors/eci_spruce/connector.py:429-463 | a promoted delivery has another batch id and a strictly later generation than the stamp stored for its entity and mode |
| `SpruceRuns.OverwritesIff` | connectors/eci_spruce/connector.py:436-463 | a sound delivery overwrites a generation that is not earlier exactly when the watermark of its own mode is absent, or of another batch and earlier |
| `SpruceRuns.LagsIffOpen` | connectors/eci_spruce/connector.py:436-463 | some delivery can overwrite a newer generation under a watermark exactly when the watermark is behind what was staged |
| `SpruceRuns.LagsAfterIff` | control_plane/store.py:285-312 | which attempts leave which watermark behind what was staged |
| `SpruceRuns.LagBeginsIff` | connectors/eci_spruce/connector.py:344-349 | a watermark begins to lag exactly when an older re-delivery is absorbed under its mode, or newer rows are staged under the other mode |
| `SpruceRuns.SteadyRunsAreSafe` | connectors/eci_spruce/connector.py:436-463 | over any run in which each entity keeps to one mode and nothing older than what is staged is absorbed, no delivery overwrites a newer generation |
| `SpruceRuns.NewestIsStaged` | connectors/eci_spruce/connector.py:382-427 | over such a run the staged file of a backfilled entity is always exactly its newest generation |
| `SpruceRuns.RefusalsChangeNothing` | connectors/eci_spruce/connector.py:382-427 | over any attempts without a promotion for the entity its staged file stays, and its watermarks of both modes unless one is absorbed |
| `SpruceRuns.GoesBackIff` | connectors/eci_spruce/connector.py:344-349 | a stored generation goes back exactly when an older re-delivery is absorbed under its entity and mode |
| `SpruceRuns.GenerationsNeverDecrease` | connectors/eci_spruce/connector.py:344-349 | over runs that absorb nothing older than the stored stamp of an entity and mode, its generation never decreases |
| `SpruceRuns.OlderBatchOverwritesNewer` | connectors/eci_spruce/connector.py:400-407 | a run of one mode in which a stale batch replaces newer rows |
| `SpruceRuns.MixedModesOverwrite` | control_plane/store.py:285-312 | an incremental delivery, then a backfill of an earlier generation that replaces its rows; under the same mode it is refused |
| `SpruceRuns.DishonestIff` | connectors/eci_spruce/connector.py:355-380 | a PROMOTED audit row comes to name unstaged content exactly when a manifest is refused, for whatever entity, while a failed attempt's row is held back |
| `SpruceRuns.HonestWhileDiskHolds` | connectors/eci_spruce/connector.py:355-380 | over any runs without a failing write every PROMOTED audit row names staged content |
| `SpruceRuns.FalseReceipt` | connectors/eci_spruce/connector.py:355-380 | a failing write of one entity, then a stale manifest at another: a receipt for rows that were never staged |
| `Superset.SupersetClient.FindOne` | api/genbi/superset.py:102-108 | the first object of that name, if there is one |
| `Superset.SupersetClient.EnsureDataset` | api/genbi/superset.py:143-161 | creates exactly when the name was missing; a dataset found by name is answered as it is |
| `Superset.SupersetClient.EnsureChart` | api/genbi/superset.py:163-194 | creates exactly when the slug was missing, else gives the first chart of the slug the new payload; answers with its id and uuid |
| `Superset.NamedIs` | api/genbi/superset.py:102-108 | nothing is found exactly when no object bears the name; what is found is the first that does |
| `Superset.RedrawnIs` | api/genbi/superset.py:186-190 | of the charts of a slug the first gets the new payload and keeps id and place; every other chart stays |
| `Superset.EnsuredTwice` | api/genbi/superset.py:143-161 | ensuring a name twice keeps one object with its id and body, whatever happened to other names |
| `Superset.CarriesLastAskedIff` | api/genbi/superset.py:143-161 | over any promotions the dataset of a name carries the last request's database, schema and SQL exactly when the first one found or made does |
| `Superset.OldSourceStays` | api/genbi/superset.py:143-161 | changed SQL is not taken up, and a like-named dataset of another database is used |
| `Superset.SlugDetermines` | api/genbi/slugs.py:24-26 | equal slugs have equal question hashes and dates |
| `Promotion.LonePromotion` | api/genbi/promote.py:376-412 | a promotion that gets its mutex and is not disturbed ends, whatever the others are doing: dataset and chart of its names ensured, nothing else made, the mutex given back, its chart the first of its slug |
| `Promotion.NoSecondChart` | api/genbi/promote.py:73-83 | in every interleaving, with failures anywhere, no slug gets a second chart |
| `Promotion.SameDaySameChart` | api/genbi/promote.py:219-222 | promotions of one question on one day end with the same chart |
| `Promotion.NoSecondVirtualDataset` | api/genbi/promote.py:376-390 | without physical backings no table name gets a second dataset |
| `Promotion.SecondDatasetIff` | api/genbi/superset.py:143-161 | a missing table can get a second dataset exactly when two questions name it |
| `Promotion.TwoQuestionsTwoDatasets` | api/genbi/superset.py:143-161 | two questions over one missing table, each looking before the other makes: two datasets |
| `Layout.Dashboard.EnsureRoot` | api/genbi/layout.py:48-56 | adds the skeleton nodes and the version that are missing, in place |
| `Layout.Dashboard.EnsureAskSaveHeader` | api/genbi/layout.py:59-94 | adds the header, or fills in its missing content keys, in place |
| `Layout.Dashboard.AppendChartRow` | api/genbi/layout.py:97-145 | adds the question's row, column and chart, or nothing when the row is there |
| `Layout.Dashboard.MergeChart` | api/genbi/promote.py:396-408 | the three edits of a promotion in their order |
| `LayoutLaws.NewRowIs` | api/genbi/layout.py:97-145 | after a merge of a new question its chart's node carries the width, height, uuid and id asked for, alone in its column and row, at the end of the grid |
| `LayoutLaws.SkeletonIs` | api/genbi/layout.py:48-94 | a merge into an empty dashboard makes the whole skeleton, kinds, parents, children and header content |
| `LayoutLaws.HeaderIsHealed` | api/genbi/layout.py:59-94 | a merge fills in the header content that is missing and keeps what is there |
| `LayoutLaws.ChartStays` | api/genbi/layout.py:97-145 | after any merges each new question's chart is as it was first asked for |
| `LayoutRuns.MergedKeepsLayoutIff` | api/genbi/layout.py:48-145 | one merge keeps the tree - children exist, paths agree, no child twice, containers and charts renderable - exactly when the question has its row or the chart's node is free |
| `LayoutRuns.MovedChartBreaks` | api/genbi/layout.py:113-145 | a chart moved under the grid, its question's row removed: the next promotion breaks the tree |
| `LayoutRuns.RunKeepsLayout` | api/genbi/layout.py:48-145 | any sequence of merges keeps the tree, appends only, and overwrites no edited content |
| `LayoutRuns.MergeTwice` | api/genbi/layout.py:97-113 | promoting a question again changes nothing, whatever the chart |
| `LayoutRuns.RunPlacesOnce` | api/genbi/layout.py:59-145 | after any merges the header and the row of each merged question hang in exactly one place |
| `LayoutRuns.RunShows` | api/genbi/layout.py:97-145 | after any sequence of merges each question shows the chart of its first merge |
| `LayoutRuns.MergedShowsIff` | api/genbi/layout.py:97-113 | a merge shows its chart exactly when the question had no row or already showed it |
| `LayoutRuns.NextDayIsNotShown` | api/genbi/slugs.py:24-44 | on another day a second chart is made and not shown |

## Left out

- Flow values (`{..}`, `[..]`): a one-line parser passed as a parameter; the one in the code does not return on `[}`.
- PyYAML, when it is installed, replaces the built-in parser; only the built-in one is modelled.
- Floats: kept as their text; what a float text stands for is a parameter, as are running a script, reading a manifest file and hashing an artifact.
- Non-ASCII digits and the Unicode tables behind lower-casing and regular expressions: ASCII, or a parameter.
- The wording of messages and the printed report, except which claims failed.
- Ledgers are sequences of records; their JSON lines, and the binary encodings of Parquet, CSV and SQL, are not modelled.
- SHA-256, HMAC, UUIDs and the clock: uninterpreted. ISO timestamps are read back by a function that inverts the one that writes them.
- Receipt arguments: numbers are integers; calls always pass an object, as the promotion route does.
- Key resolution, policy versions, settings, the CHP gate (an external package), contract rules and the audit trail around a promotion.
- `execute_readonly`: the watchdog thread, the row cap and the engine.
- Concurrent claim requests on one ledger, and concurrent layout writes of different questions: the code does not serialize them.
- `ensure_dashboard` and the read-only check of the target database; removal or renaming of remote objects by others.
- BisTrack: the JSON text of the checkpoint, parsing of the type list, malformed rows, and the key scan; scans rely on document numbers of one kind and on unique (document, line).
- The scheduled anti-join of staged keys with a separate key scan (`reconcile_deletes`): a set difference.
- Agility: list surfaces, malformed pages, retries, failed logins and unparseable stamps; but for `UpdateIsLostIff` the server is taken to repeat its pages.
- Drops: decoding CSV and JSON manifests, quarantine copies; for the Spruce connector also splits, keep-first collapse, row gates (a parameter) and the key scan.
- The CSV drop's disk is taken to work; a failing write is modelled for the Spruce connector.
- The remaining connectors (Eclipse, Business Central, cloud REST, Essbase), KPI SQL, dbt, Dagster wiring and provisioning scripts: the same paging shapes in easier form, or foreign languages.
- PassingIsDefinedIff: definitions are read line by line, written `def` and one blank; a line inside a triple-quoted string counts as code.
- RowsAreTallied: a failed run that changed the staged rows ends the count until a backfill succeeds; how it changes them is `FailureConservesExactly` and `FirstFailureThenSuccess`.
- StagedPerRun: the server is taken to answer a window with the lines dated in it; load stamps, which differ from run to run, are not part of a line.
- SteadyRunsAreSafe: manifests are taken to carry timestamps that parse; one that does not is refused once a watermark is stored.
- SameDaySameChart: for a catalogue that holds two charts of a slug from the start, takes the server to list them in a fixed order.
- AcceptedExactly: the gates are conditions on the text; SQL literals and quoted names are not parsed, by the code or here.
- Promotion: datasets and charts carry only id and name there; what they carry besides is in `Superset`, one promotion after another.
- DocumentReads: quoted keys do not hold their own quotation mark, plain keys none at all; block scalars hold no blank lines (the parser drops them); decimals stand for the numbers with a fraction, and bracketed values are what the flow parser makes of them.
- LeafReads: of double-quoted texts, those without a backslash before `n` or `t`; the others are `DoubleQuotesReadBackIff`.
- VerifiedIff: takes manifest files to have no repeated keys, as JSON and YAML readers return them; for the matrix itself that is `ParsedIsPlain`, of flow values it is asked.
- SameIdSameApproval: takes the first sixteen digits of the hash, and the text of an instant, to be injective.

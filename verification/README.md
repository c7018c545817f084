# Verified model of the price and stock pipeline

A Dafny model of the backend's state machines and arithmetic: what happens to supplier price lists, 1C stock exports and
collected messages on their way to offers, inventory, prices and listings. Database tables are maps, sequences and sets;
a commit is one step; a lock is an entry of a store; the queue is a multiset or sequence of job identifiers.
`dafny verify dfyconfig.toml` checks everything.

| file | models |
|---|---|
| `Availability.dfy` | one supplier offer under FULL and PARTIAL snapshots arriving in any order |
| `SupplierSnapshots.dfy` | the processing of a snapshot: lines, quality gate, availability, counters, failures and retries |
| `SnapshotGate.dfy` | which snapshots count, and what a run leaves of every offer, over the lines themselves |
| `OneCParser.dfy`, `Inventory.dfy`, `OneCImporter.dfy` | 1C files, the per-variant register with its histories, and import runs |
| `OneCGates.dfy` | which imports are turned away, over the records and the inventory |
| `OneCPreview.dfy`, `OneCZeroing.dfy` | when a dry run is a faithful preview, and when an import undoes one of its own rows |
| `Arithmetic.dfy`, `Pricing.dfy`, `PricingEngine.dfy` | price formulas, the choice of what a price is built on, decision history |
| `Scheduling.dfy`, `Locks.dfy`, `JobLifecycle.dfy` | slots and ticks, the source lock, and the life of a job over all interleavings |
| `CollectingSection.dfy` | who can be collecting for a source at once: running jobs, lock and commits interleaved |
| `PriceConflicts.dfy`, `Matcher.dfy` | contradictions inside a price text, and matching a line to a variant |
| `PriceLines.dfy`, `MatchChoices.dfy` | the same said over the text and over the fields of item and catalogue |
| `Content.dfy`, `ContentPath.dfy` | facts, drafts, image sets and listings, their approval, and the way to it |
| `RevisionLog.dfy`, `SupplierCodes.dfy` | message revisions and the collection cursor; unique supplier codes |
| `Common.dfy` | shared datatypes and facts about sequences and sets |

Objects that the program updates in place are classes whose methods are proved against functions on values; what the
program promises is proved about those functions, over all runs where a run is meant. `ProcessSnapshot`, `ImportFile`,
`Tick`, `CollectSource`, `ParsePriceText`, `MatchLoadedItem` and the methods of `ContentService` are the entry points.

## Where the code gives less than one would expect

Each of these is a theorem of the model, named in the table below.

- Out-of-order snapshots can declare an offer out of stock earlier than chronological arrival would
  (`ArrivalOrderDecidesStockOut`). Orders in which the latest listing precedes the later misses and these come in turn
  agree (`OrderlyArrivalsAgree`), and only they leave the chronological history from the last listing on
  (`EndingIsChronologicalExactlyWhen`); whether the offer is in stock never depends on the order.
- A closing summary that raises marks a snapshot FAILED after its effect was committed, and a retry applies it again
  (`ReapplyingIsHarmlessExactlyWhen` says when that matters).
- A FULL 1C import can zero a variant that a row of the same file has just updated, under every tolerated share of
  missing variants above zero (`AcceptedImportZeroesOwnRow`), and a failed run keeps what it had written
  (`ApplyImport`).
- A dry run previews the real run for every inventory only if no two rows match one variant; for a particular
  inventory it may still agree (`PreviewedExactlyWhen`).
- A run rejected for its missing ratio has already brought the items up to date (`ApplyImport`).
- Contradicting duplicate records are counted twice in the reported total of a 1C file (`ParseRecords`).
- At most one job per elapsed interval plus one is true from a tick on the grid, not from a late one
  (`OnePerIntervalExactlyWhen`); nothing keeps a collection interval from being negative, and the slot loop then does
  not end (`LoopNeverEnds`).
- A redelivered job is marked skipped while its worker collects, and marked succeeded by that worker later
  (`SkippedJobCanSucceed`); a job whose worker lives can be recovered and queued again (`RecoveredJobCanSucceed`); a
  QUEUED status recorded after the message was taken strands the job (`LateRecordStrandsJob`,
  `RecordKeepsExactlyWhen`); a retry whose sender stops before recording it is sent twice (`DeadSenderSendsTwice`); a
  job committed but not queued stays pending (`StuckExactlyWhen`).
- Two workers can collect for one source. With no second delivery and no job put back while it is collected, that
  takes starts that together last as long as a lock lives (`TwoCollectingStartedSlowly`, `SlowStartsCollide`), however
  long the workers collect; otherwise an expired lock is enough (`RedeliveryCollides`, `PuttingBackCollides`).
- Conflicts recorded by the parser name no variant, and so never keep an offer from being priced
  (`ConflictsWithoutVariantDecideNothing`).
- A new variant under an inactive product makes every later match fail (`InactiveProductStopsMatching`); one without a
  model code is not found again if two alias rows lead to its product (`ParsedRematchIsStableExactlyWhen`).
- Facts that return to an older value do not become the latest (`LatestFactsAreCurrentExactlyWhen`); a price that
  changes and changes back can leave a variant without any listing that can be approved (`ReadyRowsCanBeUnapprovable`,
  with the exact condition in `SomeListingApprovableExactlyWhen`); a rejection does not outlive the next approval
  (`RejectionDoesNotBind`).
- An edit back to an older text is not recorded (`CollectedTextIsLastExactlyWhen`); a message whose handling failed
  can be passed by the cursor (`NumberIsPassedExactlyWhen`, `FailedTextIsPassed`); a new text whose snapshot fails
  leaves a revision that never gets one (`SnapshotsCompleteExactlyWhen`, `LostSnapshotIsNeverMade`); a failure between
  the two commits of a new message can separate its log from its raw record (`StartsWithRecordExactlyWhen`).

## Model

| member | source | states |
|---|---|---|
| Availability.SeenKeepsAgreement | apps/api/app/services/supplier_snapshots.py:292-310 | If an offer agrees with its accepted history (counter = length of the trailing run of misses, level a function of the history, last time = time of the last accepted event), it still does after a snapshot that lists it, stale snapshots included. |
| Availability.MissingKeepsAgreement | apps/api/app/services/supplier_snapshots.py:268-282 | The same after a FULL snapshot that does not list it, for every threshold of at least one. |
| Availability.AcceptedIsChronological | apps/api/app/services/supplier_snapshots.py:271-272 | Although snapshots arrive in any order, the events that are taken into account are in chronological order. |
| Availability.OutOfStockMeansThresholdMisses | apps/api/app/services/supplier_snapshots.py:274-278 | An offer is out of stock only if the last `threshold` accepted events are all misses, none of them before an accepted listing. |
| Availability.LatestCaptureDecides | apps/api/app/services/supplier_snapshots.py:269-310 | Over every order of arrival and from every earlier state, a strictly latest capture decides: the offer ends in stock exactly when that capture listed it, and its last processed time is that capture's. |
| Availability.ArrivalOrderIrrelevantForStock | apps/api/app/services/supplier_snapshots.py:269-310 | Two orders of arrival of the same captures end with the same last processed time and agree on being in stock. |
| Availability.ArrivalOrderDecidesStockOut | apps/api/app/services/supplier_snapshots.py:271-282 | An input on which they do not agree on suspected versus out of stock: a late listing between two misses is dropped as stale, and both misses then count in a row. The rows below say when orders agree. |
| Availability.AcceptedExactly | apps/api/app/services/supplier_snapshots.py:271-272 | An event is taken into account exactly when nothing captured later has arrived before it. |
| Availability.AllAcceptedExactlyWhenChronological | apps/api/app/services/supplier_snapshots.py:269-298 | Nothing is ignored exactly when the snapshots arrive in non-decreasing capture time. |
| Availability.OrderlyArrivalsAgree | apps/api/app/services/supplier_snapshots.py:261-310 | For every offer and threshold and every two orders of the same captures with distinct times: if in both the latest listing arrives before every miss captured later and those misses arrive in capture order, counter, level and time end the same. |
| Availability.ChronologicalIsOrderly | apps/api/app/services/supplier_snapshots.py:261-310 | Chronological arrival is such an order, so every orderly arrival ends as it would. |
| Availability.EndingIsChronologicalExactlyWhen | apps/api/app/services/supplier_snapshots.py:261-310 | What an arrival leaves in the accepted trace from its last listing on is what chronological arrival leaves exactly when the arrival is orderly in this sense. |
| Availability.EndingDecidesStanding | apps/api/app/services/supplier_snapshots.py:274-282 | The counter and the level of a history are those of its part from the last listing on. |
| Availability.RunIsBounded | apps/api/app/services/supplier_snapshots.py:276-298 | The last processed time of an offer never lies beyond the captures it has met. |
| SupplierSnapshots.SnapshotFollowsLog | apps/api/app/services/supplier_snapshots.py:261-310 | Applying a snapshot to every offer at once keeps the whole table in agreement with the log of completed snapshots. |
| SupplierSnapshots.UpsertFollowsLog | apps/api/app/services/offers.py:15-91 | A price update on the matching path leaves every offer in agreement with its history, and a created offer starts in UNKNOWN with an empty one. |
| SupplierSnapshots.LinesKeepAvailability | apps/api/app/services/supplier_snapshots.py:106-162 | Matching a whole list of lines changes no level, counter or processed time of an existing offer. |
| SupplierSnapshots.CountersPartitionChanges | apps/api/app/services/supplier_snapshots.py:180-185 | The four moved/restored counters together are the number of offers whose availability differs before and after. |
| SupplierSnapshots.MovesExtend | apps/api/app/services/supplier_snapshots.py:313-328 | One offer's transition adds one to the one counter that its change of level belongs to, and to no other. |
| SupplierSnapshots.OutcomesPartitionCandidates | apps/api/app/services/supplier_snapshots.py:103-130 | The five outcome counters sum to the lines that are not ignored. |
| SupplierSnapshots.ReapplyingIsHarmlessExactlyWhen | apps/api/app/services/supplier_snapshots.py:196-212 | Taking one snapshot into account twice, as happens after its closing summary raised, changes something exactly when it is FULL and some offer of the supplier that it does not list has seen nothing newer. |
| SupplierSnapshots.RecordedAfterReopening | apps/api/app/services/supplier_snapshots.py:205-212 | The number of times a snapshot took effect is its completion plus the times a failing summary reopened it. |
| SupplierSnapshots.SnapshotProcessor.CreateSnapshot | apps/api/app/services/supplier_snapshots.py:31-69 | An existing snapshot is returned unchanged; a new one starts without any effect on offers. |
| SupplierSnapshots.SnapshotProcessor.TransitionOffer | apps/api/app/services/supplier_snapshots.py:313-372 | Level, counter and audit row move together, and not at all when the level stays. |
| SupplierSnapshots.SnapshotProcessor.MarkSeenOffersInStock | apps/api/app/services/supplier_snapshots.py:286-310 | The loop equals the simultaneous effect on all listed offers; its counters are exact and each change has one audit row. |
| SupplierSnapshots.SnapshotProcessor.ApplySnapshotAvailability | apps/api/app/services/supplier_snapshots.py:261-283 | The two loops of a FULL snapshot equal its simultaneous effect on the supplier's offers, with exact counters. |
| SupplierSnapshots.SnapshotProcessor.UpsertSupplierOffer | apps/api/app/services/offers.py:15-91 | Creates an offer or updates its price; an unknown level in the payload leaves the availability alone. |
| SupplierSnapshots.SnapshotProcessor.MatchLines | apps/api/app/services/supplier_snapshots.py:106-162 | The seen set is the offers of the snapshot's own supplier for matched lines; each counted line adds to one outcome; the log grows by exactly the offers created, in order. |
| SupplierSnapshots.SnapshotProcessor.ParserQualityCounts | apps/api/app/services/supplier_snapshots.py:215-237 | Counts candidate, usable, doubtful and conflicting lines as their definitions over the list say, usable ones never more than candidates. |
| SupplierSnapshots.SnapshotProcessor.Commit | apps/api/app/services/supplier_snapshots.py:180-195 | Availability, status and log move on together: the snapshot enters the log exactly if it completes. |
| SupplierSnapshots.SnapshotProcessor.ProcessLocked | apps/api/app/services/supplier_snapshots.py:81-212 | One attempt with a possible error at any point: offers and status are those of a full run, or the availability part is not applied at all; the log grows by the offers created and, exactly if the availability part was applied, by the snapshot with what it showed; only an error in the closing summary after that counts as reopening. |
| SupplierSnapshots.SnapshotProcessor.ProcessSnapshot | apps/api/app/services/supplier_snapshots.py:72-86 | Completed and rejected snapshots are left alone; every other call adds to the log exactly the offers created and, if it took effect, this snapshot; every call keeps the offers in agreement with the log and the log with the statuses, so without summary errors a snapshot takes effect at most once over all attempts. |
| SnapshotGate.CompletedExactlyWhen | apps/api/app/services/supplier_snapshots.py:166-262 | A FULL snapshot processed without error ends COMPLETED exactly when its text is not empty, some line is usable (not ignored, priced, without a flag that spoils the price), some line names a variant for which the supplier has an offer by then, and the positions of usable lines times the denominator are at least the numerator times the positions not ignored; otherwise it ends REJECTED. A PARTIAL one always completes. |
| SnapshotGate.ReasonExactlyWhen | apps/api/app/services/supplier_snapshots.py:239-262 | The reason noted with a snapshot: empty text exactly without lines, no valid items exactly without a usable line or an offer shown, low ratio exactly below the share, none otherwise. |
| SnapshotGate.UsableLineNeverRejects | apps/api/app/services/supplier_snapshots.py:207-262 | Making any one line usable, with what it matches kept, never turns COMPLETED into REJECTED, for every ratio. |
| SnapshotGate.RunLeavesOffers | apps/api/app/services/supplier_snapshots.py:101-310 | After a run without error there are exactly the offers of before and those that lines store. Each carries the price of the last line that stores it, and is otherwise as it was if the snapshot does not count, is another supplier's, or is older than what the offer has seen; else it is in stock if some line shows it, and one miss further, by the threshold, if the snapshot is FULL and shows it nowhere. |
| SnapshotGate.LinesPrice | apps/api/app/services/offers.py:15-92 | Over any list of lines, the price of an offer is that of the last matched and priced line that stores it, and no other field of an existing offer changes but the record. |
| SnapshotGate.UpsertedInFields | apps/api/app/services/offers.py:15-92 | Storing an offer gives a new one the price, record and level of the payload without history, and an existing one the price and, if known, the level, with the record if either is new. |
| SnapshotGate.ShownKeys | apps/api/app/services/supplier_snapshots.py:127-144 | An offer is shown exactly when some line names its variant and the supplier has an offer for it from before or from a line up to there. |
| SnapshotGate.LineCountsArePositions | apps/api/app/services/supplier_snapshots.py:101-262 | The outcome counters and the quality counters are numbers of line positions with the status or outcome in question; a line in conflict counts as blocked without being matched. |
| SnapshotGate.CounterOfEachChange | apps/api/app/services/supplier_snapshots.py:265-345 | Each change of level belongs to the counter of its kind: to suspect, to out of stock, restored from one of these, or in stock from unknown. |
| Inventory.LatestUpdateWins | apps/api/app/integrations/one_c/importer.py:192-218 | Per variant, a strictly latest update that is not older than the stored state decides stock, source and time wherever it stands, and the cost too if it carries one. |
| Inventory.UpdateOrderIrrelevant | apps/api/app/integrations/one_c/importer.py:179-226 | Two orders of the same updates whose strictly latest one carries a cost end in the same state. |
| Inventory.StoredTimeIsGreatest | apps/api/app/integrations/one_c/importer.py:193-217 | The stored time is the greatest one offered, so it never goes back. |
| Inventory.OlderUpdatesIgnored | apps/api/app/integrations/one_c/importer.py:193-194 | A state newer than every update is left as it is. |
| Inventory.HistoriesFitAfter | apps/api/app/integrations/one_c/importer.py:195-226 | After every write both histories of every variant end in its current stock and cost, and neighbouring rows differ. |
| Inventory.LogsFitAfter | apps/api/app/integrations/one_c/importer.py:195-226 | The same for the histories of one variant, which grow exactly by a real change. |
| OneCParser.KeptCodes | apps/api/app/integrations/one_c/parser.py:92-95 | A code is kept exactly when some well-formed record carries it. |
| OneCParser.KeptCodesUnique | apps/api/app/integrations/one_c/parser.py:77-100 | No two kept rows share a code. |
| OneCParser.KeptRowsAreFirst | apps/api/app/integrations/one_c/parser.py:92-95 | A row is kept exactly when it is the first well-formed record of its code. |
| OneCParser.DictionaryDecides | apps/api/app/integrations/one_c/parser.py:92-99 | What the dictionary of earlier rows says about a record is whether it repeats, and whether it contradicts, an earlier record. |
| OneCParser.InvalidRowsAreFlawed | apps/api/app/integrations/one_c/parser.py:77-100 | A record is listed as invalid, in order and under its number from one, exactly when it has the wrong keys, a bad field, or contradicts the row kept for its code, with that reason. |
| OneCParser.ParseRecords | apps/api/app/integrations/one_c/parser.py:77-100 | The rows are the first record of each code; duplicates and warnings are counted exactly; the total that a run reports exceeds the number of records by the contradicting duplicates, which are counted twice. |
| OneCImporter.RowsAppliedPointwise | apps/api/app/integrations/one_c/importer.py:158-165 | Applying the matched rows in file order acts on each variant as a fold of the updates meant for it. |
| OneCImporter.ImportedPointwise | apps/api/app/integrations/one_c/importer.py:158-171 | An accepted import acts on each variant alone: its rows in order, then zero if it was listed as missing. |
| OneCImporter.ImportSpecification | apps/api/app/integrations/one_c/importer.py:149-171 | With matched rows on distinct variants, none listed as missing: each takes its row unless older, each listed one becomes zero unless newer than the export, every other is unchanged. |
| OneCImporter.RowedStockSurvivesExactlyWhen | apps/api/app/integrations/one_c/importer.py:149-171 | Without those conditions, what the rows wrote survives the zeroing exactly when it is no positive stock, or the variant was not listed, or the row is newer than the export. |
| OneCZeroing.OwnRowIsZeroed | apps/api/app/integrations/one_c/importer.py:149-171 | A row that is matched to a variant listed as missing, and is neither older than its stock nor newer than the export, is applied and then zeroed. |
| OneCZeroing.AcceptedImportZeroesOwnRow | apps/api/app/integrations/one_c/importer.py:108-171 | For every least number of rows and every tolerated share above zero there are an inventory over known items and an export that is accepted and does that. |
| OneCImporter.ZeroedByAbsenceBounded | apps/api/app/integrations/one_c/importer.py:149-156 | An accepted FULL import zeroes by absence at most the configured share of the variants in stock; a PARTIAL one zeroes none. |
| OneCImporter.DryRunPreviews | apps/api/app/integrations/one_c/importer.py:116-176 | From the same tables and file, a dry run finishes with the same record, counters and status included, as the real run, if no two rows match one variant. |
| OneCImporter.LiveCountsArePreview | apps/api/app/integrations/one_c/importer.py:158-165 | With distinct variants the counters of the loop do not depend on whether its own writes happen. |
| OneCPreview.CountersPreviewedExactlyWhen | apps/api/app/integrations/one_c/importer.py:158-165 | The counters of a dry run are those of the real run, from every inventory whose source items exist and beside whatever other items, exactly when no two rows are matched to one variant. |
| OneCPreview.PreviewedExactlyWhen | apps/api/app/integrations/one_c/importer.py:108-176 | The finished record of a dry run is that of the real run, from every inventory whose source items exist and beside whatever other items that leave the matching of the rows as it is, exactly when the file is turned away at the gate or no two of its rows are matched to one variant. |
| OneCPreview.SharedVariantBreaksPreview | apps/api/app/integrations/one_c/importer.py:158-165 | If two rows share a variant and the empty inventory shows no difference, the inventory that already holds the second row's stock does. |
| OneCImporter.MatchedComeFromRows | apps/api/app/integrations/one_c/importer.py:117-126 | Matched, unmatched and ambiguous rows partition the rows of the file. |
| OneCImporter.UpdatesForDistinct | apps/api/app/integrations/one_c/importer.py:158-165 | With distinct variants each matched variant receives exactly its own row. |
| OneCImporter.Importer.ApplyState | apps/api/app/integrations/one_c/importer.py:179-226 | State and histories change together as the register says, and stay in step. |
| OneCImporter.Importer.MatchRows | apps/api/app/integrations/one_c/importer.py:116-147 | Rows are matched against the items as they were before the file, although the loop updates items; a dry run updates none. |
| OneCImporter.Importer.ApplyRows | apps/api/app/integrations/one_c/importer.py:158-165 | Up to an error in any row, exactly the rows before it have been applied. |
| OneCImporter.Importer.ZeroMissing | apps/api/app/integrations/one_c/importer.py:167-171 | As many of the listed variants as asked for are zeroed with the cost they have by then, all of them if all are asked for. |
| OneCImporter.Importer.WriteStates | apps/api/app/integrations/one_c/importer.py:158-171 | The two writing loops in turn, with an error at any point of either. |
| OneCImporter.Importer.ApplyImport | apps/api/app/integrations/one_c/importer.py:100-176 | The finished record and the tables are the functions above; a rejected run writes no inventory; an error while matching leaves the items of the rows before it, one while applying the matched rows before it, one while zeroing all rows and as many zeroes as were written. |
| OneCImporter.Importer.ImportFile | apps/api/app/integrations/one_c/importer.py:25-92 | A file already covered by a standing run changes nothing; otherwise the finished record with its counters, the items and the inventory are those of the file read, or what an error leaves of them; rejected and dry runs change no state and no history; the stock history grows by values of matched rows and, behind them, by zeroes marked as due to absence; at most one standing run exists per file and kind over any sequence of imports. |
| OneCGates.RejectedExactlyWhen | apps/api/app/integrations/one_c/importer.py:101-150 | An import that no error strikes ends REJECTED exactly when it is FULL and the distinct codes of well-formed records are too few, or are below the least share of the records counted with contradictions twice, or the variants in stock whose source no record carries exceed the tolerated share of those in stock; a PARTIAL one never does. |
| OneCGates.ReportInFields | apps/api/app/integrations/one_c/importer.py:101-165 | The finished record over the records of the file: total, valid, invalid and duplicates, a warning exactly if some record is malformed or contradicts an earlier one, matched, unmatched and ambiguous rows that add up to the valid ones, the variants to be zeroed, and the stock and cost counters as numbers of rows; a run turned away at the gate reports no matches and no changes. |
| OneCGates.CountersAreRows | apps/api/app/integrations/one_c/importer.py:158-162 | The stock and cost counters are the numbers of matched rows whose variant has no state yet or another stock, or another cost or currency, compared with the table before a dry run and as left by the rows before in a real one. |
| OneCGates.ItemsInFields | apps/api/app/integrations/one_c/importer.py:117-141 | After a run that is not dry the item of every row carries what the row says; a mapping made by hand stays, and every other item takes what the catalog gives for the row. |
| OneCGates.RowsAreCodes | apps/api/app/integrations/one_c/parser.py:77-100 | The rows kept of a file are as many as the distinct codes of its well-formed records. |
| Pricing.CeilDiv | apps/api/app/services/pricing/formulas.py:7-10 | An error for a denominator that is not positive; otherwise the quotient rounded up. |
| Pricing.CeilQuotientLeast | apps/api/app/services/pricing/formulas.py:7-10 | The ceiling is the least integer whose multiple reaches the numerator. |
| Pricing.FloorIsLeastCoveringPrice | apps/api/app/services/pricing/formulas.py:45-53 | The integer prices that cover base cost, required costs and minimum profit after the fixed fee and the rounded-up percentage of that price are exactly those at or above the hard floor. |
| Pricing.FloorDecomposes | apps/api/app/services/pricing/formulas.py:45-53 | Floor = base + required + marketplace costs + profit, with no rounding remainder. |
| Pricing.RawIsFloorPlusMarkup | apps/api/app/services/pricing/formulas.py:91-92 | Hence the raw recommendation is the floor plus the markup. |
| Pricing.FloorMonotone | apps/api/app/services/pricing/formulas.py:45-53 | A dearer purchase never lowers the floor. |
| Pricing.RoundUpIsLeastMultiple | apps/api/app/services/pricing/formulas.py:17-27 | Rounding up gives the least multiple of the step at or above the price. |
| Pricing.RoundNearestIsNearest | apps/api/app/services/pricing/formulas.py:23-26 | Rounding to nearest gives a closest multiple, the upper one of two. |
| Pricing.RoundPriceMonotone | apps/api/app/services/pricing/formulas.py:17-27 | Both roundings keep the order of prices, also for a step that is not positive. |
| Pricing.RecommendedMonotoneInCost | apps/api/app/services/pricing/formulas.py:91-93 | The recommended price is monotone in the base cost, in every mode and under either rounding. |
| Pricing.RecommendedIsRounded | apps/api/app/services/pricing/formulas.py:92-93 | Under UP it is the least step multiple at or above raw; under NEAREST the nearest multiple, or the floor exactly when that multiple falls below it. |
| Pricing.ActiveExactlyWhen | apps/api/app/services/pricing/formulas.py:68-141 | A decision is active exactly for a commission below 10000 basis points and, with a manual price, a manual price that keeps the minimum profit. |
| Pricing.ActiveKeepsMinimumProfit | apps/api/app/services/pricing/formulas.py:56-141 | Every active decision leaves the minimum profit after the commission on the final price itself. |
| Pricing.MinimumProfitIsLeast | apps/api/app/services/pricing/formulas.py:30-31 | The required profit is the least integer that is neither below the fixed minimum nor below the percentage of the cost. |
| Pricing.MarkupOfEachMode | apps/api/app/services/pricing/formulas.py:34-44 | The markup of each mode in policy fields: the larger of fixed and percentage amount, that plus the margin, the aggressive amount, the clearance amount. |
| Pricing.SoldExactlyWhenProfitable | apps/api/app/services/pricing/formulas.py:45-140 | In policy fields: a priced decision is Active exactly when the price leaves, after purchase, required costs, fee and the commission on that very price, at least the fixed minimum profit and at least the percentage of the cost; there is no price exactly for a commission of 10000 or more or a missing manual price. |
| Pricing.AskedPrice | apps/api/app/services/pricing/formulas.py:45-140 | The price asked is the manual one, or the floor plus markup rounded to the least or the nearest multiple and never below the floor, where the floor is the least price among all integers that leaves both minimum profits. |
| Pricing.NotedExactlyWhen | apps/api/app/services/pricing/formulas.py:56-140 | What is noted beside a price: the floor exactly when the recommended price does not exceed it, the manual price as applied or as too low exactly by the outcome, the policy as unusable exactly for a commission of 10000 or more; what was given stays in front. |
| Pricing.HardFloorReasonExact | apps/api/app/services/pricing/formulas.py:94-97 | The floor is given as a reason exactly when the recommended price is the floor. |
| PricingEngine.SupplierCandidates | apps/api/app/services/pricing/engine.py:147-163 | The loop keeps exactly the offers in stock, without open conflict and fresh, and reports whether any was dropped for each of the two reasons. |
| PricingEngine.First | apps/api/app/services/pricing/engine.py:128 | The chosen offer comes first by price, then by latest sighting, then by supplier. |
| PricingEngine.BuildDecision | apps/api/app/services/pricing/engine.py:101-144 | Own stock comes before suppliers, the first usable offer before the reasons for not pricing, and those in the order conflict, stale, none. |
| PricingEngine.SoldAboveCost | apps/api/app/services/pricing/engine.py:101-144 | Whatever is sold leaves the minimum profit over the real cost of the stock or offer it is built on. |
| PricingEngine.VerdictInFields | apps/api/app/services/pricing/engine.py:96-166 | In the fields of the rows: own stock first and only with a cost; then the offer in stock, fresh and in no open dispute by source or supplier about this variant that is cheapest, latest seen among equals, first by supplier among these; then a dispute, staleness or nothing as the reason. |
| PricingEngine.SoldExactlyWhenItPays | apps/api/app/services/pricing/engine.py:96-166 | Whatever is priced is sold exactly if it leaves, over its own cost or the chosen offer's price and after the commission on the price asked, both minimum profits. |
| PricingEngine.StoredInFields | apps/api/app/services/pricing/engine.py:170-240 | The stored row sells exactly what is sold, pauses exactly for stale offers, is out of stock exactly for nothing at all, and names supplier, cost, prices and mode of the decision. |
| PricingEngine.OfferOrderIrrelevant | apps/api/app/services/pricing/engine.py:126-139 | The order in which offers are read changes neither the decision nor the supplier. |
| PricingEngine.ConflictsWithoutVariantDecideNothing | apps/api/app/services/pricing/engine.py:166-177 | Conflict rows without a variant, the only kind that parsing and 1C imports write, never change a pricing decision. |
| PricingEngine.RowsExtend | apps/api/app/services/pricing/engine.py:202-243 | A new decision extends the chain of history rows: each starts from the price the one before ended with and differs from it. |
| PricingEngine.PricingStore.PersistDecision | apps/api/app/services/pricing/engine.py:202-246 | The history grows by one row exactly when the material decision changed, and always ends in the current state; the parts of the floor are stored with every decision and not compared. |
| PricingEngine.PricingStore.RecalculateVariantPricing | apps/api/app/services/pricing/engine.py:74-89 | The state becomes the snapshot of the decision for the present rows. |
| PricingEngine.RecalculationIsStable | apps/api/app/services/pricing/engine.py:74-89 | Recalculating from the same rows in any order gives the same snapshot, so nothing is recorded. |
| PricingEngine.CostsAddUpToFloor | apps/api/app/services/pricing/engine.py:202-246 | The stored parts of a priced decision and its base cost add up to the stored floor. |
| Scheduling.NextFutureSlot | apps/api/app/jobs/service.py:52-56 | For a positive interval the loop ends at the first grid point after the slot that is strictly after now; without one it ends only if the first step is already in the future. |
| Scheduling.LoopNeverEnds | apps/api/app/jobs/service.py:52-56 | Without a positive interval and with the first step not in the future, no number of steps gets past now. |
| Scheduling.FirstStepBeyondNow | apps/api/app/jobs/service.py:52-56 | The first step past now is the least grid point past now. |
| Scheduling.JobsWellSpaced | apps/api/app/jobs/service.py:145-174 | Over every run of ticks with non-decreasing times, slots stay on the original grid, each later slot lies after the tick that served the earlier one and at least an interval after its slot, and scheduled times increase. |
| Scheduling.ScheduledKeysDistinct | apps/api/app/jobs/service.py:59-60 | No two scheduled jobs of a source get the same idempotency key. |
| Scheduling.JobsInWindow | apps/api/app/jobs/service.py:155-171 | For any two jobs of a source, one interval for each job strictly between them adds up to less than the time between their ticks. |
| Scheduling.OnTimeTickBounds | apps/api/app/jobs/service.py:155-171 | From a tick on the grid, jobs are at most one per elapsed interval plus one. |
| Scheduling.OnePerIntervalExactlyWhen | apps/api/app/jobs/service.py:155-171 | That bound holds for every continuation exactly when the first tick is on the grid. |
| Scheduling.LateTickIsFollowedTooSoon | apps/api/app/jobs/service.py:155-171 | After a late tick the next slot gives a second job before an interval has passed. |
| Scheduling.KeyRepeatsExactlyWhen | apps/api/app/jobs/service.py:155-175 | If a tick stops before the slot has moved on, a later tick meets the same key exactly while the slot is at most an interval late, and the job is then for the slot itself. |
| Scheduling.AddedJobsAreTimely | apps/api/app/jobs/service.py:145-175 | A tick adds jobs of the scheduled type only, each for a due source, within an interval before the tick, and for its slot unless that is more than an interval late. |
| Scheduling.Scheduler.CreateJob | apps/api/app/jobs/service.py:77-108 | A key that exists creates nothing. |
| Scheduling.Scheduler.Tick | apps/api/app/jobs/service.py:145-174 | Each due source gets at most one job however many slots it missed, its slot moves on as the function says, and only new jobs are queued, each once. |
| Locks.SourceLock.Acquire | apps/api/app/jobs/locks.py:17-18 | Succeeds exactly when no live entry exists, and then enters its token with a lifetime. |
| Locks.SourceLock.Release | apps/api/app/jobs/locks.py:20-27 | Removes the entry only if it is live and carries the own token. |
| Locks.StepKeepsInv | apps/api/app/jobs/locks.py:9-27 | Entering, leaving, dying and the passing of time keep: a worker inside within its lifetime owns the live entry of its source, and tokens are never shared. |
| Locks.TwoInsideMeansOneOverstayed | apps/api/app/jobs/locks.py:9-27 | In every state that the lock alone allows, of two workers inside for one source at least one has outlived its lock. What an execution checks besides is in `CollectingSection`. |
| Locks.OverstayingBreaksExclusion | apps/api/app/jobs/locks.py:17-27 | On the steps of the lock alone, a worker that stays as long as its entry lives can be joined by another. |
| CollectingSection.StepKeepsInv | apps/api/app/jobs/service.py:184-250 | Every step of any number of workers keeps: a holder within its lifetime owns the live entry of its source, two holders of one source took the lock a lifetime apart, a worker that is starting looked before any undisturbed other one of the source was marked, and no job is started twice at once. |
| CollectingSection.RunKeepsInv | apps/api/app/jobs/service.py:184-250 | That holds over every run in which looks for running jobs, lock, commits, endings, deaths, second deliveries and put-back jobs interleave. |
| CollectingSection.TwoCollectingStartedSlowly | apps/api/app/jobs/service.py:203-232 | In every reachable state, if two workers collect for one source and neither job was delivered again or put back while being collected, then the times from their looks for a running job to their RUNNING commits add up to a lifetime of the lock at least; how long they collect does not matter. |
| CollectingSection.SlowStartsCollide | apps/api/app/jobs/service.py:203-232 | The bound is exact: for any two start times that add up to a lifetime there is a run in which both workers collect. |
| CollectingSection.RedeliveryCollides | apps/api/app/jobs/service.py:184-232 | A run in which starts take no time and a second delivery of a job that is being collected lets a second worker in once the lock has expired. |
| CollectingSection.PuttingBackCollides | apps/api/app/jobs/service.py:352-375 | A run in which starts take no time and a job is put back to waiting while its worker collects, by recovery or by a late QUEUED status, and another job of the source is let in once the lock has expired. |
| Locks.ReleaseRemovesOnlyOwn | apps/api/app/jobs/locks.py:20-27 | In every reachable state a release removes no entry that carries another token. |
| Locks.FreeAfterOneLifetime | apps/api/app/jobs/locks.py:17-18 | A source locked by a dead worker can be entered after one lifetime. |
| JobLifecycle.RunKeepsInv | apps/api/app/jobs/service.py:111-375 | Over every interleaving that keeps to four assumptions (a message is delivered once, recovery hits dead workers, a message is taken after its status was recorded, nobody stops between sending and recording): attempts stay within the bound, a job waiting for a retry has one left, and each queued job has exactly one message. |
| JobLifecycle.StepDecreasesMeasure | apps/api/app/jobs/service.py:187-375 | Every step of a job decreases the pair of attempts left and status rank. |
| JobLifecycle.LifeIsBounded | apps/api/app/jobs/service.py:187-375 | Hence the number of steps of a job is bounded by its attempts over runs of any length. |
| JobLifecycle.StuckExactlyWhen | apps/api/app/jobs/service.py:77-118 | In every state that such runs reach, the jobs that can move no further are exactly those that ended and those whose creator stopped between commit and send. |
| JobLifecycle.BeginDecides | apps/api/app/jobs/service.py:184-230 | A message of an ended job changes nothing; one of an open job fails it exactly for a missing source, starts it exactly for an enabled source with nothing else running and a free lock, and skips it otherwise; a started job can be recovered only more than 900 seconds later. |
| JobLifecycle.EndDecides | apps/api/app/jobs/service.py:234-332 | A collected job has succeeded; a transient failure waits for a retry exactly while an attempt is left, and its message can be sent exactly from 30, 120 or 300 seconds later on; every other failure, a permanent one always, is final. |
| JobLifecycle.RecoveryDecides | apps/api/app/jobs/service.py:352-375 | A recovered job waits for a retry exactly while an attempt is left, under the same pauses, and has failed otherwise, whether its worker lives or not; no message is sent. |
| JobLifecycle.RedeliveryKeepsExactlyWhen | apps/api/app/jobs/service.py:184-230 | A second delivery keeps the invariant exactly when no message for the job is under way or about to be and, if a worker is still collecting, the delivery starts collecting too. |
| JobLifecycle.SkippedJobCanSucceed | apps/api/app/jobs/service.py:187-249 | A run in which a second delivery marks a job SKIPPED and its first worker then marks it SUCCEEDED, so a terminal status is not final. |
| JobLifecycle.RecoveryKeepsExactlyWhen | apps/api/app/jobs/service.py:352-375 | Recovering an old running job keeps the invariant exactly when its worker is gone. |
| JobLifecycle.RecoveredJobCanSucceed | apps/api/app/jobs/service.py:335-375 | A run in which the job of a living worker is recovered and queued again, and then ends as SUCCEEDED with a message left. |
| JobLifecycle.DeliveryKeepsExactlyWhen | apps/api/app/jobs/service.py:111-117 | Taking a message keeps the invariant exactly when nobody is still to record its job as queued. |
| JobLifecycle.RecordKeepsExactlyWhen | apps/api/app/jobs/service.py:111-117 | Whatever happened to a job since its message was sent, recording it as queued, new or retried, puts it in order exactly while that message is untaken and no worker is collecting it. |
| JobLifecycle.LateRecordStrandsJob | apps/api/app/jobs/service.py:111-117 | From every state of the invariant in which a sent message is not yet recorded and no other job of the source runs: a worker that takes it and finishes first leaves a job that the late record marks queued for good, with no step left for it. |
| JobLifecycle.LateRecordHappens | apps/api/app/jobs/service.py:111-117 | A run from empty tables ends like that. |
| JobLifecycle.SenderDeathKeepsExactlyWhen | apps/api/app/jobs/service.py:111-117 | Stopping while queueing a job keeps the invariant exactly before the message is sent. |
| JobLifecycle.DeadSenderSendsTwice | apps/api/app/jobs/service.py:335-349 | Stopping between the send and the record of a retry leaves the retry due, and it is sent a second time. |
| JobLifecycle.OneRunningPerSource | apps/api/app/jobs/service.py:203-216 | Over every run, second deliveries, recoveries of living workers' jobs and late records included, at most one job of a source is marked RUNNING. |
| JobLifecycle.CollectedSourcesDiffer | apps/api/app/jobs/service.py:203-249 | Over every run that keeps to the assumptions, two jobs that workers are collecting have different sources, whatever the locks do, when the start of an execution is one step. |
| JobLifecycle.SecondWorkerExactlyWhen | apps/api/app/jobs/service.py:203-230 | Beginning a job lets a second worker in beside a living one of the source exactly when the job has not ended, the lock is free, and no other job of the source is marked RUNNING, the living worker's included; the state is then outside the invariant. |
| JobLifecycle.RecoveredSourceCollectedTwice | apps/api/app/jobs/service.py:352-375 | A run from empty tables in which the job of a living worker is recovered and another job of the source then comes to be collected beside it. |
| JobLifecycle.JobTable.EnqueueJob | apps/api/app/jobs/service.py:111-117 | Sending and recording in turn leave the job queued with its attempt and one more message, and no job waiting to be recorded. |
| JobLifecycle.JobTable.BeginExecution | apps/api/app/jobs/service.py:184-230 | The branches before collecting leave the job in the state of the protocol step. |
| JobLifecycle.JobTable.EndExecution | apps/api/app/jobs/service.py:233-249 | So do the branches after collecting. |
| JobLifecycle.JobTable.EnqueueDueRetries | apps/api/app/jobs/service.py:335-349 | Exactly the due jobs with an attempt left get their next attempt and one message each. |
| JobLifecycle.JobTable.RecoverStaleRunningJobs | apps/api/app/jobs/service.py:352-375 | Exactly the stale running jobs wait for another attempt, or fail when none is left, whether or not their workers live. |
| PriceConflicts.ConflictExactlyWhenContradicted | apps/api/app/services/parser/pipeline.py:59-63 | After parsing any text a line is CONFLICT exactly when it is not ignored and another line that is not ignored has the same identity key and a different price. |
| PriceConflicts.FlaggedExactlyWhenContradicted | apps/api/app/services/parser/pipeline.py:157-175 | The same for the conflict flag, so the later rescoring can neither hide nor invent a conflict. |
| PriceConflicts.OnePricePerIdentity | apps/api/app/services/parser/pipeline.py:157-175 | Among the other lines a key has one price, and a key with a conflict has no line outside it. |
| PriceConflicts.OneConflictPerIdentity | apps/api/app/services/parser/pipeline.py:233-266 | Exactly one data conflict is recorded for each identity with two prices and none for any other, with exactly the prices and lines of that identity as evidence. |
| PriceConflicts.ConflictingMeansContradicted | apps/api/app/services/parser/pipeline.py:163-166 | A group has two prices exactly when each of its lines is contradicted by another. |
| PriceConflicts.BuildGroups | apps/api/app/services/parser/pipeline.py:158-161 | The dictionary holds, per key in the order of first lines, the positions of all lines that count, in order. |
| PriceConflicts.GroupAscends | apps/api/app/services/parser/pipeline.py:158-161 | A group lists its lines in the order of the text, each once. |
| PriceConflicts.DetectPriceConflicts | apps/api/app/services/parser/pipeline.py:157-175 | The in-place marking of the items equals, for every position, the marking computed from the items as they were. |
| PriceConflicts.ReadLines | apps/api/app/services/parser/pipeline.py:28-57 | Section context and the map of seen lines are carried through the text; repeats are flagged with the line they repeat. |
| PriceConflicts.ParsePriceText | apps/api/app/services/parser/pipeline.py:28-65 | The whole parse: first pass, detection, rescoring, in place, for every reader of single lines. |
| PriceLines.SectionIsLastHeader | apps/api/app/services/parser/pipeline.py:33-49 | The section that holds at a line is that of the last header before it. |
| PriceLines.SeenIsLastRegistered | apps/api/app/services/parser/pipeline.py:52-57 | The lines that repeats are compared with: per lookup form the first line that is no header, or the last one after it that is no product. |
| PriceLines.FirstPassInFields | apps/api/app/services/parser/pipeline.py:33-58 | Before prices are compared: a header or no product is ignored; a product carries what is read in the last header's section, and is flagged as a repeat, with the right line number, exactly when an earlier line of the same lookup form exists. |
| PriceLines.ResultInFields | apps/api/app/services/parser/pipeline.py:33-66 | Each line of the result keeps its reading; it is PARSED exactly without flags and with brand, model, price, memory and two of code, colour and region; PARTIAL exactly when it is neither that nor contradicted nor badly priced and its points less four a flag reach 80. |
| PriceLines.ScoreInPoints | apps/api/app/services/parser/confidence.py:8-39 | The confidence is the sum of the points of the fields that are there less four for each penalised flag, kept between 0 and 100. |
| PriceConflicts.CreateDataConflicts | apps/api/app/services/parser/pipeline.py:233-266 | The recorded conflicts are those of the flagged groups, in the order of their first line. |
| PriceConflicts.RecordedForExactly | apps/api/app/services/parser/pipeline.py:241-266 | Each recorded conflict carries the whole flagged group of its key, and no key is recorded twice. |
| Matcher.ParsedRematchIsStableExactlyWhen | apps/api/app/services/matcher.py:164-213 | For the item of any parsed line: matching it again right after it got a variant gives the same variant and creates nothing, from every catalogue, exactly unless the variant is new and its product inactive, or it is new, has no model code, and two alias rows lead to its product. |
| Matcher.RematchIsStableExactlyWhen | apps/api/app/services/matcher.py:164-213 | The step to it, for items of any origin: a new variant with a model code is not found again either if the brand is the empty text, which no parsed line with enough confidence has. |
| Matcher.ParsedItemsAreNamed | apps/api/app/services/parser/confidence.py:8-40 | An item of a parsed line from which anything may be created has a brand and a model: without them its confidence stays below the threshold of creation. |
| MatchChoices.ByCodeExactlyWhen | apps/api/app/services/matcher.py:266-284 | An item is matched by model code to a variant exactly when nothing blocks it and that variant is the only active one with its code whose product has its brand and with which no field that both sides give differs. |
| MatchChoices.ByAliasExactlyWhen | apps/api/app/services/matcher.py:287-325 | It is matched by alias exactly when no active variant has its code and all alias rows of its text together lead to the variant once: by naming it without contradiction of the brand, or by naming its product when every storage, memory, code, colour and region that the item gives is the variant's own. |
| MatchChoices.ByAttributesExactlyWhen | apps/api/app/services/matcher.py:115-187 | It is matched by attributes exactly when neither code nor alias says anything and the variant is the only active one of that brand and model whose storage, memory, code, colour and region are those that the item gives, with the same condition. |
| MatchChoices.CreateExactlyWhen | apps/api/app/services/matcher.py:328-369 | A variant is created exactly when nothing matches in these ways, no active variant has a similar name or agrees in fields worth 76 of 100 points, and the item names brand, model and storage with a confidence of at least 0.98. |
| MatchChoices.FailureExactlyWhen | apps/api/app/services/matcher.py:240-247 | Matching fails exactly for an unblocked item while some active variant has no active product. |
| MatchChoices.CreatedInFields | apps/api/app/services/matcher.py:371-423 | Creating finds or adds the active product of that brand and name, and finds or adds under it the variant of that key with all that the item gives. |
| MatchChoices.LineGetsWhatItSays | apps/api/app/services/matcher.py:164-213 | From text to variant: a parsed line that is matched by attributes or for which a variant is created anew gets one with the storage, code, colour and region that were read, under the brand and model that were read. |
| MatchChoices.UnpricedLinesAreNotMatched | apps/api/app/services/matcher.py:216-226 | A line without a price, with an invalid one, or ignored gets no variant and leaves the catalogue as it is. |
| Matcher.InactiveProductStopsMatching | apps/api/app/services/matcher.py:240-246 | After a creation, matching fails for every item that is not blocked exactly when a new variant was put under an inactive product. |
| Matcher.CreationBreaksExactlyWhen | apps/api/app/services/matcher.py:371-423 | A creation breaks the product lookup exactly in that case. |
| Matcher.CreationKeepsValid | apps/api/app/services/matcher.py:371-423 | Find-or-create keeps product names and variant keys unique and references intact. |
| Matcher.CreatedIsFound | apps/api/app/services/matcher.py:371-423 | What was created is found the next time, under the same numbers. |
| Matcher.ContradictedLinesAreNotMatched | apps/api/app/services/matcher.py:216-226 | A line that contradicts another line of its text never gets a variant or a place in the catalogue. |
| Matcher.EntriesExtend | apps/api/app/services/matcher.py:287-325 | Zero, one or several alias entries mean no, exactly one, or no single target, whatever the order of the rows. |
| Matcher.Service.CollectCandidates | apps/api/app/services/matcher.py:240-263 | For every order of the variants the loop collects the same candidates, and fails exactly when some active variant has no active product. |
| Matcher.Service.TryModelCodeExact | apps/api/app/services/matcher.py:266-284 | For every order of the candidates, the single compatible code match is chosen; several or none send the item to review. |
| Matcher.Service.TryAliasExact | apps/api/app/services/matcher.py:287-325 | For every order of the alias rows, one entry over all of them decides, several are ambiguous, none decide nothing. |
| Matcher.Service.Decide | apps/api/app/services/matcher.py:164-213 | The branches in order give a decision that depends on the item and the catalogue only, never on an order of enumeration. |
| Matcher.Service.GetOrCreateProduct | apps/api/app/services/matcher.py:371-388 | Returns the product of that brand and name, active or not, or adds it. |
| Matcher.Service.GetOrCreateVariant | apps/api/app/services/matcher.py:390-423 | Returns the variant of that canonical key or adds it. |
| Matcher.Service.MatchLoadedItem | apps/api/app/services/matcher.py:164-213 | The effect on the catalogue is that of the decision; an offer is created exactly when the supplier has none for the variant. |
| Content.ApprovedTextIsSupported | apps/api/app/services/content.py:388-403 | Over every run of operations, an approved draft was validated, was made from the latest facts, and makes no claim they do not support. |
| Content.LiveListingsUseLatestFacts | apps/api/app/services/content.py:419-429 | Over every run, a ready or approved listing was ready when built and shows the text of a draft made from the latest facts. |
| Content.ListingApprovedExactlyWhen | apps/api/app/services/content.py:571-581 | Approving a listing succeeds exactly when it is still marked ready and the present rows give its digest; readiness evaluated on the present rows is then READY. |
| Content.ReadyExactlyWhen | apps/api/app/services/content.py:584-617 | Readiness is READY exactly for approved and validated text, approved images, a price with an active decision, no floor or supplier conflict reason, and facts without conflict. |
| ContentPath.ReasonsExactlyWhen | apps/api/app/services/content.py:584-617 | What speaks against a listing, each of the reasons exactly under its own condition on text, images, price and facts. |
| ContentPath.NeedsReviewExactlyWhen | apps/api/app/services/content.py:584-617 | A listing needs review exactly for conflicting facts or a price under review. |
| Content.StepKeepsInv | apps/api/app/services/content.py:105-581 | Every operation keeps drafts and listings sound, and facts, drafts and listings free of repeats. |
| Content.LatestFactsAreCurrentExactlyWhen | apps/api/app/services/content.py:105-118 | After a rebuild the latest facts are the catalogue's exactly when those are new or were the latest; facts that return to an older value supersede nothing. |
| Content.StaleStays | apps/api/app/services/content.py:419-429 | A stale listing stays stale under its digest over every run. |
| Content.StaleKeyBlocksApproval | apps/api/app/services/content.py:510-581 | Once a listing went stale, no listing can be approved while the present rows give its digest, whatever was done in between. |
| Content.SomeListingApprovableExactlyWhen | apps/api/app/services/content.py:510-581 | With a freshly built listing some listing can be approved exactly when readiness of the present rows is READY and no row with their digest has left the ready mark. |
| Content.PriceThereAndBackBlocks | apps/api/app/services/content.py:510-581 | From every state: after a price change, a validation of the listing and the change back, the present rows give the old digest again and nothing can be approved. |
| Content.ReadyRowsCanBeUnapprovable | apps/api/app/services/content.py:510-581 | Such a state is reachable from empty tables with readiness READY. |
| Content.RejectionDoesNotBind | apps/api/app/services/content.py:388-416 | A rejected draft is approved again exactly when its validation has passed and its facts are the latest. |
| Content.ContentService.SupersedeStaleContent | apps/api/app/services/content.py:419-429 | The two loops supersede exactly the approved drafts of other facts and stale exactly the ready and approved listings. |
| Content.ContentService.RebuildContentFacts | apps/api/app/services/content.py:105-145 | New facts are appended and supersede; known facts change nothing. |
| Content.ContentService.GenerateContentDraft | apps/api/app/services/content.py:277-311 | A draft with the same facts, text and generator is not made twice; missing facts are built first. |
| ContentPath.GeneratedFromLatestFacts | apps/api/app/services/content.py:277-311 | From every sound state: after generating there is exactly one draft of the provider's text for the latest facts, or for the catalogue's if there were none, under its name and prompt, and no other row is touched. |
| ContentPath.GeneratedDraftIsApprovedExactlyWhen | apps/api/app/services/content.py:277-403 | Generating, validating that draft and approving it succeeds exactly when that text makes no unsupported claim. |
| ContentPath.ValidatedInFields | apps/api/app/services/content.py:314-329 | Validating sets result, status and need of review of that draft by the claims of its text and the conflicts of its facts, and changes nothing else. |
| ContentPath.RebuiltInFields | apps/api/app/services/content.py:105-145 | New facts become the latest, supersede exactly the approved drafts of other facts and make stale exactly the ready and approved listings; everything else stays. |
| ContentPath.StaledInFields | apps/api/app/services/content.py:557-568 | A listing validated under another digest becomes stale with the reason and keeps digest and text. |
| ContentPath.ImagesApprovedExactlyWhen | apps/api/app/services/content.py:450-508 | A new image set cannot be approved; a validated one can exactly if it has no errors. |
| Content.ContentService.ValidateContentDraft | apps/api/app/services/content.py:314-329 | Validation is of the draft's own facts, and takes an approval back. |
| Content.ContentService.ApproveContentDraft | apps/api/app/services/content.py:388-403 | Approves exactly with the latest facts and a passed validation; each error has its own condition. |
| Content.ContentService.BuildGenericListing | apps/api/app/services/content.py:510-554 | Returns the row with the present digest, new or old, and adds at most one. |
| Content.ContentService.ValidateListing | apps/api/app/services/content.py:557-568 | Marks the listing stale exactly when the present digest is another. |
| Content.ContentService.ApproveListing | apps/api/app/services/content.py:571-581 | Succeeds exactly under the condition above and otherwise approves nothing. |
| RevisionLog.LogIsFirstOccurrences | apps/api/app/integrations/telegram/collector.py:198-270 | For every sequence of collected and edited messages with errors anywhere, a message's log is the list of its stored distinct texts in order of first arrival, so an edit back to an older text leaves it as it was. |
| RevisionLog.RunKeepsValid | apps/api/app/integrations/telegram/collector.py:198-270 | Logs are numbered from one without gaps and hold no text twice; each revision has at most one snapshot. |
| RevisionLog.RunOnlyAppends | apps/api/app/integrations/telegram/collector.py:198-270 | Logs and snapshots only grow at the end, and a raw record's text never changes. |
| RevisionLog.RecordKeepsFirstText | apps/api/app/integrations/telegram/collector.py:208-220 | The raw record holds the first text that reached it. |
| RevisionLog.StartsWithRecordExactlyWhen | apps/api/app/integrations/telegram/collector.py:208-231 | A log starts with its raw record's text exactly when the first text whose revision was stored is the first that reached the record. |
| RevisionLog.CollectedTextIsLastExactlyWhen | apps/api/app/integrations/telegram/collector.py:233-270 | After a text was collected the log ends with it exactly when the text was new or already last. |
| RevisionLog.SnapshotsCompleteExactlyWhen | apps/api/app/integrations/telegram/collector.py:127-179 | When every revision has its snapshot before a run, every revision has one after it exactly when no message of the run loses one: its snapshot fails, and its text was neither in the log nor stored by an earlier message of the run. |
| RevisionLog.SnapshotCanBeLost | apps/api/app/integrations/telegram/collector.py:156-168 | A run of one message that loses its snapshot, which no later collection makes. |
| RevisionLog.LostSnapshotIsNeverMade | apps/api/app/integrations/telegram/collector.py:156-168 | A revision whose snapshot was not created never gets one from later collections. |
| RevisionLog.NothingLostWithoutFaults | apps/api/app/integrations/telegram/collector.py:127-179 | A run in which nothing fails has every text in its log. |
| RevisionLog.FailedTextIsPassed | apps/api/app/integrations/telegram/collector.py:148-156 | A text whose handling failed is behind the committed cursor for good once a later message with a greater number is stored, and its log is what it was. |
| RevisionLog.NumberIsPassedExactlyWhen | apps/api/app/integrations/telegram/collector.py:127-195 | For every run and every message number, that of a failed message included: it is behind the committed cursor afterwards exactly when it was before, or was pending, or was passed by some message of the run, and nothing threw that gain back before the next commit, the end of the run being one. |
| RevisionLog.StepMovesCursor | apps/api/app/integrations/telegram/collector.py:127-179 | Each message commits the cursor, throws it back to its committed value, moves it to its own number, or leaves it, by the branch it takes. |
| RevisionLog.CommittedCursorStays | apps/api/app/integrations/telegram/collector.py:127-179 | The committed cursor never goes back. |
| RevisionLog.CursorNeverPassesUnseen | apps/api/app/integrations/telegram/collector.py:127-179 | The cursor never passes the greatest message number seen. |
| RevisionLog.Collector.PersistMessageRevision | apps/api/app/integrations/telegram/collector.py:198-270 | The greatest number plus one is the length plus one; the unique indexes refuse exactly the texts already present. |
| RevisionLog.Collector.CollectSource | apps/api/app/integrations/telegram/collector.py:94-195 | The loop, with rollback of the uncommitted cursor, equals the run of the model. |
| SupplierCodes.UniqueSupplierCode | apps/api/app/services/suppliers.py:57-64 | For every finite set of codes the loop ends with the seed or the first free numbered code, at a number of at most two more than the set is large, and within 64 characters while that number has at most 63 digits. |
| SupplierCodes.NumberedCodesDiffer | apps/api/app/services/suppliers.py:60-63 | Different numbers give different codes, however much of the seed was cut off. |
| SupplierCodes.NumberedFitsExactlyWhen | apps/api/app/services/suppliers.py:61-62 | A numbered code fits in 64 characters exactly when its number has at most 63 digits. |
| SupplierCodes.SeedIsWellFormed | apps/api/app/services/suppliers.py:15-17 | Every name, also one without a usable character, gives a seed of at most 48 letters, digits and single dashes that does not start with a dash. |
| SupplierCodes.SeedJoinsWords | apps/api/app/services/suppliers.py:15-17 | The seed is made of all runs of letters and digits of the name, in order, joined by single dashes and cut off after 48 characters; a name without any gives "supplier". |
| SupplierCodes.ValueOfDecimal | apps/api/app/services/suppliers.py:61 | The decimal digits of a number determine it. |

## Left out

- Routes, the web interface, the control bots, dashboards, command-line entry points and migrations: plumbing and
  display.
- Telegram, Redis, the job queue's transport and PostgreSQL: a commit is one atomic step, and what goes wrong between
  two commits is an input of the model.
- Field extraction by regular expressions, text similarity and normal forms: functions given to the model.
- Digests: identified with the values they are taken of, that is, taken to be injective.
- Clocks: the current time is a parameter; `last_seen_at`, `started_at` of supplier rows and similar stamps that
  decide nothing in the modelled code are not kept.
- Ratios of the quality gates are compared as integers cross-multiplied, without the rounding of floating point.
- The price history rows written beside an offer and their suppression of repeats (`supplier_snapshots.py:330-372`).
- Audit rows other than those that availability changes write.
- Parsing of file bytes, of single 1C rows and of dates; the search of a 1C row's variant by barcode, code and name,
  and mapping by hand, which would add single-branch facts.
- The list of candidates shown in a match review, its order and the review row: only the decision is modelled.
- `MemorySourceLock`, a stand-in for the lock in one process.
- Publication jobs, authentication, settings and alerts.
- RevisionLog.Collector.CollectSource: the run's counters are not modelled; an error rolls them back to the last
  commit.
- JobLifecycle.JobTable.BeginExecution: taken as one step with the look-up of other running jobs and the lock; its
  three parts interleave in `CollectingSection`, which in turn leaves out attempts and messages.
- JobLifecycle.RunKeepsInv: assumes four things; `RedeliveryKeepsExactlyWhen`, `RecoveryKeepsExactlyWhen`,
  `DeliveryKeepsExactlyWhen` and `SenderDeathKeepsExactlyWhen` say when the other steps keep the invariant.
- JobLifecycle.JobTable.EnqueueDueRetries: retries are taken to be queued by one process at a time.
- JobLifecycle.JobTable.RecoverStaleRunningJobs: a row is taken to be as it was read when it is written.
- Snapshots of one supplier are taken to run one after the other: the program locks per snapshot
  (`supplier_snapshots.py:72-78`), so two of one supplier could read the same missing counter and lose a miss.
- RevisionLog.Collector.PersistMessageRevision: after the rollback for an older text the row of its revision is taken
  to be readable; should the session refuse to reload it, the message would count as failed and leave the cursor.
- SupplierSnapshots.SnapshotProcessor.CreateSnapshot: an insertion that loses a race and reads the winner's row again
  is the branch of the existing row, and is not modelled apart.
- SupplierSnapshots.SnapshotProcessor.TransitionOffer: without the price history row beside the offer.
- Content.ContentService.BuildGenericListing: category, attributes and the disabled marketplace readiness of a listing
  are left out; of two approvals at the same instant the later row counts.
- Matcher.ParsedRematchIsStableExactlyWhen: the offer is not part of the statement; `MatchLoadedItem` says that an
  offer is created only if the supplier has none for the variant, so the second match updates it.
- PriceConflicts.OneConflictPerIdentity: prices are a set, where the program stores them sorted.
- OneCImporter.ImportSpecification: needs matched rows on distinct variants, none of them listed as missing; without
  that it is false, and `ImportedPointwise` and `RowedStockSurvivesExactlyWhen` say what holds then.

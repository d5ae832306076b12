# Guarded repair writers of the retail ledger

A Dafny model of the scripts that repair a retail ledger: an allocator that moves orders between
days, the write protocol the copied-database writers share, conflict resolution for SKU identities
and payment schedules, appliers that must converge when they are run again, and the planners of a
shared spreadsheet board. Every module names the script it follows. Loops of the source are loops
here, objects the source changes in place are classes, and each method is proved against a
specification about which the lemmas then speak.

| module | what it covers |
|---|---|
| `DateDriftSelect`, `DateDriftRows` | candidate loading, greedy selection of date moves in two dimensions, write-back to rows |
| `GuardedWrite` | backup, rollback record, transaction, report, restore and sidecar files, with a fault possible at every step and a copy that can break off |
| `CashRepair` | append-only cash repair on that protocol, and any number of runs, each possibly cut off |
| `FormulaPromotion` | in-place promotion on that protocol; the writer whose restore error is not escalated |
| `StagingSwap` | staging copy, two content checks and an atomic replace while other processes write |
| `CogsIdentity`, `CogsLadder`, `CogsCollisions` | evidence, which source of it decides, conflicts, unique-key collisions and their split |
| `CogsWriteBack` | the updates on a table with its UNIQUE constraint or without, and the keys afterwards |
| `CogsFailures` | three whole runs on which that constraint decides |
| `PaymentOverride`, `ScheduleRows` | selectors, replacement, stable sort, publication of the schedule |
| `ReturnQc` | buckets, idempotency keys, batches against what came back |
| `EntrySidecar` | completing order entries from a consistent part |
| `BoardSplit`, `BoardPatch`, `ColumnLetters` | header activation, cell patches, column names |
| `CrmArchive` | fill-only backfill of two sheets |

`Wrappers`, `LexOrder` and `Permutations` hold small shared definitions.

Amounts are integers in hundredths; the tolerance multiplier is a real. A SHA-256 or a logical hash
is taken to be injective, so equal digests are equal contents. Steps outside the shown code (SQLite,
files, the Sheets API, environment gates, unseen modules) are inputs that say how they end.

## What the proofs found

Each of these is a promise that holds under a condition; the condition is proved exact, or a lemma
gives inputs on which the promise fails.

- The write-back succeeds exactly when no row is named again after a move took it elsewhere: the second
  update finds its date changed (`DateDriftRows.RunSucceedsIffNoReuse`). A candidate that lists its own
  day can be left there exactly when one of its amounts is negative
  (`DateDriftSelect.CanStayIffNegative`, whose example run then has no capacity left; in
  `DateDriftSelect.StayingMoveIsSelected` such a move is selected and written). Two candidates that agree
  on the whole sort key make the sort compare candidates, which have no order; the model calls that end
  `UnorderableTie`.
- A cash repair cut off between its first INSERT and COMMIT leaves a journal beside the target, and every
  later run is refused for it. A rerun of a whole target converges exactly when no such sidecar is left
  (`CashRepair.SidecarCanStay`, `CashRepair.RerunConverges`).
- The formula promotion writer restores outside any handler after a failed transaction, so a failure
  that is not called AMBIGUOUS can leave a torn target (`FormulaPromotion.UnmarkedTornTarget`);
  `FormulaPromotion.Promote` says exactly when. A report survives a restored run exactly when it was
  written and the restore record or the unlink then fails (`GuardedWrite.Disk.GuardedApply`).
- The staging wrapper's checks are sound on a history of the file exactly when no content of it is left
  and returned to (`StagingSwap.SoundIffNoReturn`). A write after the last check looked is overwritten.
- The COGS repair checks its own keys, not the table's constraint. `sales_fact_v2` is declared with
  UNIQUE(order_id, sku_id, store_code, kaspi_offer_name), which only migration 032 drops. With the
  constraint a run that passes every check commits exactly when new keys are distinct and no update takes a
  key that a later row, or one outside the repair, still holds (`CogsWriteBack.RunOnPath`); otherwise it
  raises and nothing is written. Where store codes are spelled plainly and different sizes have different
  SKU ids, that means no split candidate lands on the key of another group and no key is taken before it
  is free (`CogsWriteBack.CommitsIffNoLandingNorHeldKey`). Without the constraint every such run commits,
  and leaves duplicate keys exactly after a landing (`CogsWriteBack.CleanRun`).
  Three runs show the difference: a landing (`CogsFailures.LandingRun`), an empty store code, which the
  candidate and the collision query spell differently (`CogsFailures.EmptyStoreRun`), and a mere chain of
  keys that are unique before and after (`CogsFailures.ChainRun`).
- A schedule published twice equals one published once exactly when every row is OPEX and not before
  the boundary (`PaymentOverride.PublishTwiceIffReplaceable`).
- The return check does not add up the events of one batch: a batch is safe on every ledger exactly
  when no two of the events it lists once share a key (`ReturnQc.SafeIffOneEventPerKey`). Keys are joined
  with `|`: a key identifies its parts exactly when none holds a bar (`ReturnQc.IdentifiedIffBarFree`),
  and a bar inside an order id lets another order count as already booked
  (`ReturnQc.BarMergesTwoOrders`).
- The board planner reads MY_SIZE through the header mapping but writes to the contract's column. With
  a blank header column in front it overwrites another column and, as long as that is not the key
  column, never converges (`BoardPatch.BlankColumnMisplaces`, `BoardPatch.MisplacedPlanRepeats`). The
  shipped contract has the key behind MY_SIZE, where that cannot be (`BoardPatch.KeyColumnIsNeverWritten`);
  with the key in front the write can destroy a key unnoticed (`BoardPatch.OverwrittenKeyFoolsReadback`).

## Model

| member | source | states |
|---|---|---|
| DateDriftSelect.FitsIsNotOver | scripts/apply_workbook_anchor_date_drift_repair.py:373-385 | the capacity test with its 1e-6 never admits a total that the rounded overage test calls over; the overage test fires exactly above half a hundredth |
| DateDriftSelect.RankOrder | scripts/apply_workbook_anchor_date_drift_repair.py:483-503 | the score key is a strict order whose ties are the ones `TieMeaning` describes |
| DateDriftSelect.StepLeavesLeast | scripts/apply_workbook_anchor_date_drift_repair.py:483-503 | of all candidates of the day with a feasible target, the moved one leaves the least overage, units weighted 10000 to one; of equals it has the higher net, then the lesser order, then the lesser store |
| DateDriftSelect.TieMeaning | scripts/apply_workbook_anchor_date_drift_repair.py:483-503 | two candidates tie exactly when they leave the same overage and agree on net, order and store |
| DateDriftSelect.OverageIsExcess | scripts/apply_workbook_anchor_date_drift_repair.py:373-385 | each overage is what its own dimension exceeds its own tolerance by, rounded to a whole hundredth; a day fails exactly when either excess is above half a hundredth |
| DateDriftSelect.StepTakesEarliest | scripts/apply_workbook_anchor_date_drift_repair.py:467-482 | a candidate that lists days outside the window goes to the earliest of them, and else to the earliest listed day with room in both dimensions |
| DateDriftSelect.UnscoredHasNoDay | scripts/apply_workbook_anchor_date_drift_repair.py:461-482 | a candidate of the day is passed over exactly when it was moved before or lists neither a day outside nor one with room |
| DateDriftSelect.StepBreaksNoDay | scripts/apply_workbook_anchor_date_drift_repair.py:448-510 | no selected move makes a day within tolerance fail, whatever the signs of the amounts |
| DateDriftSelect.RunNeverRebreaks | scripts/apply_workbook_anchor_date_drift_repair.py:445-510 | a day within tolerance at any point of a run is so at its end |
| DateDriftSelect.TargetLeavesSource | scripts/apply_workbook_anchor_date_drift_repair.py:467-482 | with amounts of at least zero a selected target is not the source day and is itself within tolerance |
| DateDriftSelect.CanStayIffNegative | scripts/apply_workbook_anchor_date_drift_repair.py:467-482 | on inputs the function can be given, a candidate that lists its own day can be left there by some run if and only if one of its amounts is negative |
| DateDriftSelect.StayingMoveIsSelected | scripts/apply_workbook_anchor_date_drift_repair.py:444-524 | an input whose selected moves, which are then written, hold one that stays on its day |
| DateDriftSelect.RunUsesCandidatesOnce | scripts/apply_workbook_anchor_date_drift_repair.py:461-510 | every move takes a different candidate of the list, so a run is no longer than the list |
| DateDriftSelect.StepConserves | scripts/apply_workbook_anchor_date_drift_repair.py:504-509 | one move keeps the window total, or lowers it by the moved amount when the target is outside |
| DateDriftSelect.RunConserves | scripts/apply_workbook_anchor_date_drift_repair.py:445-510 | over a run, window total plus amount moved outside is constant |
| DateDriftSelect.UnsourcedDayStaysFailing | scripts/apply_workbook_anchor_date_drift_repair.py:445-521 | with amounts of at least zero, a failing day that is nobody's source fails to the end |
| DateDriftSelect.PickTarget | scripts/apply_workbook_anchor_date_drift_repair.py:467-482 | the least feasible target, days outside the window first, or none exactly when none is feasible |
| DateDriftSelect.ScoreDay | scripts/apply_workbook_anchor_date_drift_repair.py:461-496 | exactly the unmoved candidates of the day that have a feasible target |
| DateDriftSelect.SortedFirst | scripts/apply_workbook_anchor_date_drift_repair.py:503-503 | the first of the sorted scores, or a raise exactly when two share the whole key |
| DateDriftSelect.ChooseMove | scripts/apply_workbook_anchor_date_drift_repair.py:461-503 | one greedy step, or stuck because no candidate of the day has a feasible target, or a tie |
| DateDriftSelect.ClearDay | scripts/apply_workbook_anchor_date_drift_repair.py:448-510 | the while loop ends, and normally only with the day within tolerance in both dimensions |
| DateDriftSelect.ClearDays | scripts/apply_workbook_anchor_date_drift_repair.py:444-510 | after the outer loop every in-window source day is clear and the moves are a greedy run |
| DateDriftSelect.SelectMoves | scripts/apply_workbook_anchor_date_drift_repair.py:422-524 | each way the function ends, with the run it ends on, whose every step is the one `StepLeavesLeast` and `StepTakesEarliest` describe: selected means every window day is clear |
| DateDriftSelect.OutcomeMeaning | scripts/apply_workbook_anchor_date_drift_repair.py:512-524 | nothing is selected exactly when no day fails; the final check reports exactly the failing days that were nobody's source |
| DateDriftSelect.OutcomeIsDetermined | scripts/apply_workbook_anchor_date_drift_repair.py:422-524 | moves and outcome are a function of the input: any two that meet what `SelectMoves` promises are equal |
| DateDriftRows.QueryLine | scripts/apply_workbook_anchor_date_drift_repair.py:263-285 | exactly the delivered rows of the line's order, date, store and source file, and their total |
| DateDriftRows.LoadLine | scripts/apply_workbook_anchor_date_drift_repair.py:255-303 | a line loads if and only if it is complete, has rows, and units and net are within one of what was published; which error otherwise; the candidate holds every row of the line and no other |
| DateDriftRows.LoadCandidates | scripts/apply_workbook_anchor_date_drift_repair.py:242-306 | raises if and only if a line of the two drift buckets, from one of the two rebuild sources and in the workbook on another day, does not load, or there is none; else one loaded candidate for each such line |
| DateDriftRows.SalesFactTable.ExecuteUpdate | scripts/apply_workbook_anchor_date_drift_repair.py:589-597 | row by row: exactly the rows with that id on that date take the new date and nothing else changes; on keyed rows the count is one if there is such a row and zero if not |
| DateDriftRows.SalesFactTable.FindMissing | scripts/apply_workbook_anchor_date_drift_repair.py:580-584 | finds nothing if and only if every named row is in the table; a missing one means the updates cannot all succeed |
| DateDriftRows.SalesFactTable.RunMoves | scripts/apply_workbook_anchor_date_drift_repair.py:586-602 | the update loop runs every update in order, or stops at one that does not hit one row |
| DateDriftRows.SalesFactTable.ApplyMovesToDb | scripts/apply_workbook_anchor_date_drift_repair.py:579-625 | success is the result of every update hitting one row; which of the two errors otherwise; the read-back checks never raise |
| DateDriftRows.NoReuseRunSucceeds | scripts/apply_workbook_anchor_date_drift_repair.py:586-602 | updates that name no row again after moving it all succeed, and each row lands where it was sent |
| DateDriftRows.RepeatedIdFails | scripts/apply_workbook_anchor_date_drift_repair.py:589-601 | a second update of a row that an earlier one moved hits nothing and the run raises |
| DateDriftRows.RunSucceedsIffNoReuse | scripts/apply_workbook_anchor_date_drift_repair.py:586-602 | the updates go through if and only if no row is named again after an update that moved it |
| DateDriftRows.SuccessLands | scripts/apply_workbook_anchor_date_drift_repair.py:604-624 | after any success every row is where its updates sent it and differs in the date only |
| DateDriftRows.UpdateShiftsDaySum | scripts/apply_workbook_anchor_date_drift_repair.py:589-597 | one update takes its row's amount from the sum of one day to the sum of another |
| DateDriftRows.BatchShiftsDaySum | scripts/apply_workbook_anchor_date_drift_repair.py:587-602 | the updates of one move shift exactly their rows' amounts between the two days |
| DateDriftRows.RowsFollowTotals | scripts/apply_workbook_anchor_date_drift_repair.py:503-510 | whenever the updates go through, the rows change every window day's sum exactly as the simulated totals change |
| DateDriftRows.MovesLeaveTheirDay | scripts/apply_workbook_anchor_date_drift_repair.py:467-482 | no move of a run with amounts of at least zero stays on its day |
| DateDriftRows.RepairAppliesIffRowsDisjoint | scripts/apply_workbook_anchor_date_drift_repair.py:579-602 | with loaded candidates the write-back succeeds if and only if no row is named again after a move took it elsewhere; with amounts of at least zero, if and only if the selected candidates share no row |
| DateDriftRows.AppliedRepairClearsTheRows | scripts/apply_workbook_anchor_date_drift_repair.py:579-625 | an applied repair, whatever the signs of the amounts, changed dates only, named no moved row again, and the row sums hold every window day within tolerance; with amounts of at least zero the moved rows were disjoint |
| GuardedWrite.Disk.MakeBackup | scripts/apply_order_cash_repair_manifest.py:300-302 | a verified backup equals the target, which no step of it touches |
| GuardedWrite.Disk.WriteRecord | scripts/apply_order_cash_repair_manifest.py:52-62 | the record is replaced whole or not at all, and a late fault still left it |
| GuardedWrite.Disk.Restore | scripts/apply_order_cash_repair_manifest.py:106-121 | restores the pre-image unless sidecars, the copy or a check fail; recoverable at every instant, torn copy included |
| GuardedWrite.Disk.RunTransaction | scripts/apply_order_cash_repair_manifest.py:317-367 | the target changes at COMMIT only, to the whole post-image; once the transaction is open, a state with the pre-image, its backup and record, and a sidecar is passed |
| GuardedWrite.Disk.Prepare | scripts/apply_order_cash_repair_manifest.py:294-316 | the transaction starts if and only if backup, its check and the PREPARED record all succeed; the target is not touched before |
| GuardedWrite.Disk.GuardedApply | scripts/apply_order_cash_repair_manifest.py:294-474 | at every instant a changed target or a sidecar has a verified backup and a record, and a record that says the pre-image was restored is true; normal return is post-image, READY and report; which faults end AMBIGUOUS, which raw, and which leave a report behind, each as an if and only if on the faults alone; what the record says at each end |
| GuardedWrite.Disk.AfterFailedTransaction | scripts/apply_order_cash_repair_manifest.py:368-400 | a failed transaction ends restored if and only if the restore succeeds, else marked or raw by variant; the record says rolled back and restored exactly after the first, restore failed after the second, unless its write failed |
| GuardedWrite.Disk.AfterFailedPostCommit | scripts/apply_order_cash_repair_manifest.py:437-474 | which of the four ends a failed finalisation has, each if and only if the named faults, and what the record then says; when a report stays behind |
| GuardedWrite.Disk.Finalize | scripts/apply_order_cash_repair_manifest.py:401-474 | applied if and only if barrier, READY record and report all succeed; AMBIGUOUS if and only if they do not and the restore fails; else the pre-image is back; what the record says at each end |
| CashRepair.ExactAppliedState | scripts/apply_order_cash_repair_manifest.py:141-173 | the check, loop by loop, computes the state that `AppliedStateMeaning` and `ExactIsUnaltered` interpret |
| CashRepair.AppliedStateMeaning | scripts/apply_order_cash_repair_manifest.py:141-173 | strict trichotomy: no expected event present, or every one present in exactly one row with its amount and its other columns as expected, or a raise |
| CashRepair.ExactIsUnaltered | scripts/apply_order_cash_repair_manifest.py:141-173 | in a table found exact, every row with the hash of an expected event has that event's amount and payload |
| CashRepair.InsertEvents | scripts/apply_order_cash_repair_manifest.py:194-215 | the events are appended in order under fresh ids |
| CashRepair.NextAfterGreatest | scripts/apply_order_cash_repair_manifest.py:194-215 | a fresh id is the next after the greatest in the table, and at least 1 |
| CashRepair.CheckPairs | scripts/apply_order_cash_repair_manifest.py:332-343 | passes if and only if every pair counts two rows that net to zero |
| CashRepair.Transact | scripts/apply_order_cash_repair_manifest.py:327-361 | commits the whole insert, with every other table as it was, or nothing |
| CashRepair.PairCancels | scripts/apply_order_cash_repair_manifest.py:332-343 | a pair that passed is an old row and its inserted reversal, and they cancel |
| CashRepair.CommittedRepairAppends | scripts/apply_order_cash_repair_manifest.py:350-357 | prior cash rows and other tables are unchanged; behind them stand the events in order, each with its hash, amount and payload; the table grows by exactly the expected count |
| CashRepair.CommittedRepairConserves | scripts/apply_order_cash_repair_manifest.py:332-349 | superseded, reversals and replacements add up to the declared total, and the ledger total moves by that less what was superseded |
| CashRepair.InsertedExactly | scripts/apply_order_cash_repair_manifest.py:329-331 | a reviewed manifest's events are absent before its insert and exactly present after |
| CashRepair.BuiltManifestPasses | scripts/apply_order_cash_repair_manifest.py:253-264 | on the database it was built from, a reviewed manifest passes every check of the transaction |
| CashRepair.Preflight | scripts/apply_order_cash_repair_manifest.py:231-293 | exactly when it writes, reports, replays or refuses; a sidecar beside the target refuses before anything is compared |
| CashRepair.ApplyManifest | scripts/apply_order_cash_repair_manifest.py:218-474 | every state a run can be cut off in, the one inside the transaction with its sidecar included; what a fault-free rerun does for each database it finds; a replay found every event there once and unaltered |
| CashRepair.RunsEndInThreeStates | scripts/apply_order_cash_repair_manifest.py:241-474 | after any number of cut-off runs the target is untouched, fully repaired, or a torn restore copy; the last two are final, and so is any state with a sidecar |
| CashRepair.RunsInsertOnce | scripts/apply_order_cash_repair_manifest.py:241-285 | no number of runs puts an event in twice, and the applied-state check never meets a partial or drifted set |
| CashRepair.SidecarCanStay | scripts/apply_order_cash_repair_manifest.py:80-91 | every run that opens its transaction on the sealed database passes a state with the target untouched and a sidecar; cut off there, it leaves what refuses every later run |
| CashRepair.RerunConverges | scripts/apply_order_cash_repair_manifest.py:241-285 | from any such whole state one undisturbed rerun ends repaired exactly once, by inserting all or by a zero-insert replay, if and only if no sidecar is left; with a sidecar, or torn, it is refused and changes nothing |
| FormulaPromotion.RunUpdates | scripts/apply_api_order_entry_formula_promotion_manifest.py:295-313 | the update loop sets the three columns of every target in order |
| FormulaPromotion.Transact | scripts/apply_api_order_entry_formula_promotion_manifest.py:286-331 | commits if and only if pre-images, post-images and the replayed post-images all read back |
| FormulaPromotion.UntargetedUnchanged | scripts/apply_api_order_entry_formula_promotion_manifest.py:316-317 | a row no target names stays as it was |
| FormulaPromotion.TargetedSet | scripts/apply_api_order_entry_formula_promotion_manifest.py:295-323 | a named row ends with its target's delivery fee, net revenue and profit, and its id and every other column as they were |
| FormulaPromotion.ReplayChangesNothing | scripts/apply_api_order_entry_formula_promotion_manifest.py:122-157 | the replay inside the transaction is a no-op |
| FormulaPromotion.PromotionMeaning | scripts/apply_api_order_entry_formula_promotion_manifest.py:286-331 | the transaction commits if and only if every target's pre-image is in the table and its post-image keeps the id and every column but the three; every target row is then its post-image |
| FormulaPromotion.Promote | scripts/apply_api_order_entry_formula_promotion_manifest.py:253-460 | applied means every post-image; which faults end in the raw restore error, and exactly when that end leaves a changed target; every other end not called AMBIGUOUS has the pre-image back |
| FormulaPromotion.UnmarkedTornTarget | scripts/apply_api_order_entry_formula_promotion_manifest.py:338-353 | a run of this writer that leaves a torn target unmarked, where the cash writer marks it |
| StagingSwap.EqualReadsEncloseNoChange | scripts/apply_rebuild_snapshot_production_safe.py:246-394 | two equal reads of a file that returns to no content it left enclose that content alone, rewrites of it allowed |
| StagingSwap.SoundIffNoReturn | scripts/apply_rebuild_snapshot_production_safe.py:246-394 | for every history of the file: wherever the steps of a run fall in it, two passing checks mean that backup and staging hold the expected content, if and only if no content of the history is left and returned to |
| StagingSwap.ReturnFoolsBothChecks | scripts/apply_rebuild_snapshot_production_safe.py:246-394 | for any return in a history, a run whose two checks pass around it and whose backup is the content in between |
| StagingSwap.SharedTarget.Read | scripts/apply_rebuild_snapshot_production_safe.py:38-72 | a digest or copy sees one content held meanwhile, or a mixture |
| StagingSwap.SharedTarget.Stage | scripts/apply_rebuild_snapshot_production_safe.py:246-387 | up to the checked staging file only others' writes reach the target; exactly when a staged result exists |
| StagingSwap.SharedTarget.SwapIn | scripts/apply_rebuild_snapshot_production_safe.py:222-450 | when no content is left and returned to, a replacement puts in the validated work on the pre-image with the pre-image as backup; what it overwrites is what others wrote after the last check looked; otherwise the target is others' work alone |
| CogsIdentity.EvidenceIsForRow | scripts/apply_sales_fact_v2_cogs_identity_repair.py:417-511 | every piece of evidence carries its row's identity |
| CogsLadder.StrongestSourceDecides | scripts/apply_sales_fact_v2_cogs_identity_repair.py:417-532 | the chosen identity is what the strongest source that says anything says, of one SKU key and the least SKU id: an entry with the old identity, the only entry, the offer name, order rows of that name, the only order row, each said on the lookups, with the size each gives |
| CogsLadder.EvidenceIsCollected | scripts/apply_sales_fact_v2_cogs_identity_repair.py:417-511 | the evidence is exactly what the five sources say, each with its own priority |
| CogsLadder.NoEvidenceIffSilent | scripts/apply_sales_fact_v2_cogs_identity_repair.py:408-511 | a row has no evidence if and only if no source says anything |
| CogsLadder.ConflictIffDecidingContradicts | scripts/apply_sales_fact_v2_cogs_identity_repair.py:517-531 | a conflict if and only if the strongest source that says anything names two SKU keys, whatever weaker ones say |
| CogsLadder.SkuIdMeaning | scripts/apply_sales_fact_v2_cogs_identity_repair.py:239-245 | the known SKU id of the size, else of NAN, else of 0; with none known, the key with the size |
| CogsLadder.AgreedIffUnanimous | scripts/apply_sales_fact_v2_cogs_identity_repair.py:543-568 | the derived identity: entries that have a say all stand for it, with the size of the offer name before that of the offer id before that of the old row |
| CogsLadder.RightfulMeaning | scripts/apply_sales_fact_v2_cogs_identity_repair.py:584-615 | in the combined list a row has the deciding source's identity if that names one SKU key, and else the one its entries agree on |
| CogsIdentity.Choose | scripts/apply_sales_fact_v2_cogs_identity_repair.py:517-532 | the strongest evidence with the least SKU id, the first of equal ones; a conflict if and only if the strongest disagree on the SKU key |
| CogsIdentity.PrimaryRow | scripts/apply_sales_fact_v2_cogs_identity_repair.py:417-532 | a row gets the best of its evidence, which is what `CogsLadder.StrongestSourceDecides` says it is, or a conflict record, or neither when there is none |
| CogsIdentity.Primary | scripts/apply_sales_fact_v2_cogs_identity_repair.py:408-533 | over all targets, in their order: a candidate exactly where the strongest evidence agrees, and it is the best in that sense; no conflict record if and only if no target's evidence conflicts |
| CogsIdentity.AgreedIdentity | scripts/apply_sales_fact_v2_cogs_identity_repair.py:543-568 | the identity all usable entries give, or none exactly when there is no such identity |
| CogsIdentity.Derive | scripts/apply_sales_fact_v2_cogs_identity_repair.py:536-581 | a derived candidate carries that agreed identity |
| CogsIdentity.Derived | scripts/apply_sales_fact_v2_cogs_identity_repair.py:592-615 | every target without a primary candidate gets a derived one if its entries agree on an identity, and an unresolved record if not; no record if and only if all do |
| CogsIdentity.Combine | scripts/apply_sales_fact_v2_cogs_identity_repair.py:584-615 | at most one candidate per target, the rightful one, primary evidence first and else in the order of the targets, and a record for every target without; no record if and only if the evidence decides every target |
| CogsCollisions.GroupByKey | scripts/apply_sales_fact_v2_cogs_identity_repair.py:627-635 | each key once, in the order first met, with exactly the candidates that have it, in order |
| CogsCollisions.SplitGroups | scripts/apply_sales_fact_v2_cogs_identity_repair.py:637-673 | alone under its key a candidate is kept; a group of one SKU key with different known sizes is divided by them; the members of any other group are named in a record; no record if and only if every group settles |
| CogsCollisions.SettlesIff | scripts/apply_sales_fact_v2_cogs_identity_repair.py:627-663 | a candidate's group settles if and only if no other has its order, normalised store, SKU id and offer, or all that have share the SKU key and differ in sizes known for it |
| CogsCollisions.SettlesTo | scripts/apply_sales_fact_v2_cogs_identity_repair.py:637-663 | alone it stays as it is; divided it takes the size of its sales row and that size's SKU id and keeps sale, order, store, offer and SKU key |
| CogsCollisions.CheckExisting | scripts/apply_sales_fact_v2_cogs_identity_repair.py:675-709 | kept are exactly the candidates whose key the first other row to hold it, if any, gives up in the repair; the others are recorded, and with none recorded the list is unchanged |
| CogsCollisions.BlockedMeaning | scripts/apply_sales_fact_v2_cogs_identity_repair.py:675-701 | a candidate is excluded exactly when the first other row with its order, offer, new SKU id and normalised store is no candidate's |
| CogsCollisions.BlockedMeansOutsider | scripts/apply_sales_fact_v2_cogs_identity_repair.py:675-709 | on a table with unique keys that is: exactly the candidates whose key no row outside the repair holds |
| CogsCollisions.BuildCandidates | scripts/apply_sales_fact_v2_cogs_identity_repair.py:584-619 | nothing is dropped silently: every target ends in the final list or in an exclusion record; there is no record if and only if evidence decides every target, every group settles and no key is held outside |
| CogsWriteBack.ApplyCandidates | scripts/apply_sales_fact_v2_cogs_identity_repair.py:730-746 | without the UNIQUE constraint exactly the candidates' rows get their new identity, one row each; with it the loop goes through if and only if new keys are distinct and none is taken while a row that comes later, or not at all, still holds it; else it stops at the first rejected update and nothing is written |
| CogsWriteBack.RewrittenMeaning | scripts/apply_sales_fact_v2_cogs_identity_repair.py:730-746 | a named row has its candidate's key, id and size and neither cost nor profit; its sale, order, store and offer stay, and so does every other row |
| CogsWriteBack.RejectedIff | scripts/migrate_028_operational_stock_truth_p0_schema.py:234-257 | one update breaks the declared constraint if and only if its key was given to an earlier row or is held by one not rewritten before |
| CogsWriteBack.ApplicableIffEachTableUnique | scripts/migrate_028_operational_stock_truth_p0_schema.py:234-257 | that condition holds if and only if the table obeys the constraint before, between and after the updates |
| CogsWriteBack.ApplicableIffPrefixesFree | scripts/apply_sales_fact_v2_cogs_identity_repair.py:675-746 | where store codes are spelled plainly, in the keys of the collision check: for every first part of the list its new keys are distinct and no row outside that part holds one |
| CogsWriteBack.TableUniqueIff | scripts/apply_sales_fact_v2_cogs_identity_repair.py:675-746 | after all updates the key is unique if and only if the new keys are pairwise distinct and no row outside the repair holds one |
| CogsWriteBack.KeysDistinctIffNoLanding | scripts/apply_sales_fact_v2_cogs_identity_repair.py:637-663 | the new keys are pairwise distinct if and only if no split result lands on another group's key |
| CogsFailures.LandingRun | scripts/apply_sales_fact_v2_cogs_identity_repair.py:643-778 | three rows of one order that pass every check, a split size landing on another group's key: without the constraint the run ends with two rows of one key, with it nothing is written |
| CogsFailures.ChainRun | scripts/apply_sales_fact_v2_cogs_identity_repair.py:700-778 | two rows that pass every check, keys unique before and after: without the constraint the run succeeds, with it the first update is rejected for a key the second row has yet to give up |
| CogsFailures.EmptyStoreRun | scripts/apply_sales_fact_v2_cogs_identity_repair.py:675-709 | the same for an empty store code, which the candidate replaces by UNIVERSAL and the collision query does not |
| CogsWriteBack.CoverCounts | scripts/apply_sales_fact_v2_cogs_identity_repair.py:771-777 | a list that covers the targets once each is as long as the targets |
| CogsWriteBack.CleanRun | scripts/apply_sales_fact_v2_cogs_identity_repair.py:749-778 | after a clean run that rewrote every target the key is unique if and only if there was no landing |
| CogsWriteBack.CommitsIffNoLandingNorHeldKey | scripts/apply_sales_fact_v2_cogs_identity_repair.py:637-746 | a clean run commits under the constraint if and only if there was no landing and no candidate takes a key that a later one still holds |
| CogsWriteBack.RunOnPath | scripts/apply_sales_fact_v2_cogs_identity_repair.py:749-793 | succeeds if and only if nothing is excluded, the expected count, if given, is that of the targets, and the constraint, if there, rejects no update; then as many rows as targets are rewritten, each to its rightful identity, and no other; else the table is as it was, and which update was the first rejected |
| PaymentOverride.MatchOne | scripts/apply_opex_owner_input_schedule.py:201-215 | a selector is taken if and only if it is new and names exactly one row of the original list |
| PaymentOverride.MatchAll | scripts/apply_opex_owner_input_schedule.py:197-217 | the selector loop passes if and only if all selectors so far are distinct and exact |
| PaymentOverride.TakeObligation | scripts/apply_opex_owner_input_schedule.py:151-217 | one more obligation is accepted if and only if all of them together are acceptable |
| PaymentOverride.ApplyOverride | scripts/apply_opex_owner_input_schedule.py:136-266 | succeeds if and only if the manifest loads, obligations are valid with new refs, and every selector names exactly one original row and repeats none; the removed rows are those the selectors describe, one by one |
| PaymentOverride.AcceptableMeaning | scripts/apply_opex_owner_input_schedule.py:107-215 | a manifest is refused as a whole exactly without obligations, on a wrong count or total, or with a window that ends before it starts; obligations are accepted exactly when each is complete, in the window, a positive OPEX amount and, for a loan, withdrawn at least a day later; ref ids are new and pairwise different; selectors are pairwise different and each gives date, ref and amount of exactly one row |
| PaymentOverride.OverrideRows | scripts/apply_opex_owner_input_schedule.py:234-246 | the schedule holds exactly the rows whose date, ref and amount no selector gives, and for each obligation a row with its date, ref, amount, type and notes |
| PaymentOverride.OverrideConserves | scripts/apply_opex_owner_input_schedule.py:245-253 | output and removed are rows and inserted, as multisets; the total moves by the declared total less what was removed; output is sorted |
| PaymentOverride.ObligationOrderIrrelevant | scripts/apply_opex_owner_input_schedule.py:151-253 | any order of the obligations is accepted alike and gives the same list, row by row |
| PaymentOverride.Commitments.Publish | scripts/apply_opex_owner_input_schedule.py:560-591 | the table becomes what the publication never replaces followed by the schedule: rows of another type or before the boundary stay, OPEX rows from the boundary on go |
| PaymentOverride.PublishTwiceIffReplaceable | scripts/apply_opex_owner_input_schedule.py:560-591 | publishing again is a no-op if and only if every row is OPEX and on or after the boundary |
| PaymentOverride.PublishKeepsHistory | scripts/apply_opex_owner_input_schedule.py:550-591 | earlier history stays in order, and what a later publication would keep is that and the schedule's own history |
| ScheduleRows.FoldPermuted | scripts/apply_opex_owner_input_schedule.py:247-253 | the stable sort gives one list for every order of rows with distinct keys |
| ScheduleRows.FoldSorted | scripts/apply_opex_owner_input_schedule.py:247-253 | its result is sorted: earlier date first, then lesser ref id, then smaller amount |
| ScheduleRows.FoldContents | scripts/apply_opex_owner_input_schedule.py:247-253 | its result holds the same rows as its input |
| LexOrder.LessMeaning | scripts/apply_opex_owner_input_schedule.py:247-253 | the order of texts: a proper prefix first, else the smaller character at the first difference |
| ReturnQc.DeriveBuckets | scripts/apply_return_qc_events.py:83-116 | accepted rows split into buckets of at least zero that sum to the quantity |
| ReturnQc.PlainRowAccepted | scripts/apply_return_qc_events.py:83-105 | a row without given buckets is accepted exactly with a quantity and a word for one bucket, which gets it all; PARTIAL and MIXED ask for buckets |
| ReturnQc.RowWithBucketsAccepted | scripts/apply_return_qc_events.py:83-116 | a row with given buckets is accepted exactly with any known word, no bucket below zero and a sum that is the quantity; each bucket is then the given one, a blank one nothing |
| ReturnQc.EventFromRow | scripts/apply_return_qc_events.py:138-165 | a row gives an event exactly when store, order and SKU are there and its buckets are accepted; the event has them and the row's quantity |
| ReturnQc.IdentifiedIffBarFree | scripts/apply_return_qc_events.py:119-135 | for two parts or more: no other list of as many parts has the key if and only if no part holds a bar |
| ReturnQc.EqualIdsEqualFields | scripts/apply_return_qc_events.py:119-165 | a row without bars shares its key only with rows of the same order, entry, SKU, status, buckets, time and source |
| ReturnQc.SameKeyAtAnyTimeIffStamped | scripts/apply_return_qc_events.py:138-165 | a row loaded at two times has one key if and only if it carries its own `qc_ts` |
| ReturnQc.RowBack | scripts/apply_return_qc_events.py:201-206 | an order row that did not come back adds nothing; one that did adds its quantity, one when blank, nothing when negative |
| ReturnQc.BackIsReturnedPieces | scripts/apply_return_qc_events.py:201-206 | what came back is the sum over the returned order rows alone |
| ReturnQc.OnlyReturnedMeaning | scripts/apply_return_qc_events.py:201-206 | those rows are exactly the ones whose status names a return |
| ReturnQc.VerdictMeaning | scripts/apply_return_qc_events.py:195-234 | an event is accepted exactly when pieces came back, some row is confirmed in the warehouse, and with what is booked it stays within them; which refusal otherwise |
| ReturnQc.Judge | scripts/apply_return_qc_events.py:195-234 | the loop over the order rows computes that verdict |
| ReturnQc.BarMergesTwoOrders | scripts/apply_return_qc_events.py:119-135 | a bar in an order id gives another order the same key, whatever the entry id |
| ReturnQc.QcTable.Validate | scripts/apply_return_qc_events.py:182-239 | exactly which of the events not booked yet are planned and which are refused for what, each against the table as it was, by the verdict of `VerdictMeaning` |
| ReturnQc.QcTable.InsertAll | scripts/apply_return_qc_events.py:268-285 | all planned events go in, or none when the unique index objects |
| ReturnQc.QcTable.ApplyBatch | scripts/apply_return_qc_events.py:302-341 | the whole batch or nothing, and which of the two |
| ReturnQc.BatchStaysWithin | scripts/apply_return_qc_events.py:217-234 | an accepted batch with one new event per key keeps every key within the pieces of its returned order rows |
| ReturnQc.RunsStayWithin | scripts/apply_return_qc_events.py:182-239 | so does any sequence of such batches while what came back only grows |
| ReturnQc.StepTaken | scripts/apply_return_qc_events.py:182-239 | one more batch of a run books exactly its new events |
| ReturnQc.SafeIffOneEventPerKey | scripts/apply_return_qc_events.py:217-234 | a batch cannot overbook on any ledger if and only if no two of the events it lists once share a key; for a batch that repeats no id, if and only if no two of its events do |
| ReturnQc.ReplayAddsNothing | scripts/apply_return_qc_events.py:183-194 | giving a booked batch again, after any other runs, succeeds and adds nothing |
| EntrySidecar.LoadSidecar | scripts/apply_kaspi_order_entry_sidecar.py:189-257 | accepted if and only if orders and entry ids are distinct and every entry belongs to its order |
| EntrySidecar.AcceptedMeaning | scripts/apply_kaspi_order_entry_sidecar.py:189-257 | accepted exactly when every record has an order, a listed store, its date and entries with an id that name that order, no order and store and no entry id comes twice; the parsed list is then exactly the entries, each under its record's key |
| EntrySidecar.AddEntries | scripts/apply_kaspi_order_entry_sidecar.py:239-245 | an order's entries are accepted if and only if no id repeats |
| EntrySidecar.CompletionIsExact | scripts/apply_kaspi_order_entry_sidecar.py:407-476 | from any consistent part every sidecar order ends with exactly the sidecar's ids, every entry under its key with its content, new ones with their order's stamp, old rows unchanged |
| EntrySidecar.SecondApplyInsertsNothing | scripts/apply_kaspi_order_entry_sidecar.py:407-416 | after a completion nothing is missing and another one changes nothing |
| EntrySidecar.OrderEntries.FindMissing | scripts/apply_kaspi_order_entry_sidecar.py:407-416 | refuses if and only if an existing row differs from its entry; else exactly the absent entries |
| EntrySidecar.OrderEntries.Insert | scripts/apply_kaspi_order_entry_sidecar.py:446-454 | the missing entries are added with their order's stamp |
| EntrySidecar.OrderEntries.Apply | scripts/apply_kaspi_order_entry_sidecar.py:328-483 | succeeds if and only if what is there is a consistent part with headers and no statement fails; otherwise which refusal: an order without a header, a row of a sidecar order the sidecar does not list, an entry there under another order or with other content; and then nothing changes |
| ColumnLetters.ColumnLetter | scripts/activate_board_split_v1.py:58-64 | the loop computes the bijective base-26 name |
| ColumnLetters.DecodeLetters | scripts/activate_board_split_v1.py:58-64 | reading the name back gives the number, so names are injective |
| ColumnLetters.LettersDecode | scripts/activate_board_split_v1.py:58-64 | every word over A to Z is the name of exactly its number |
| ColumnLetters.ShortlexMonotone | scripts/activate_board_split_v1.py:58-64 | a column stands before another if and only if its name does, shorter names first |
| BoardSplit.RequiredIsProper | core/integrations/google_ops_board.py:23-33 | the required columns are five named columns on two different tabs |
| BoardSplit.PlanTab | scripts/activate_board_split_v1.py:172-182 | one update per appended column, at the columns after the observed header |
| BoardSplit.PlanHeaderUpdates | scripts/activate_board_split_v1.py:162-183 | a plan exists if and only if every tab shows exactly its legacy headers |
| BoardSplit.LegacyMeaning | core/integrations/google_ops_board.py:122-150 | the legacy headers are the contract's without the split-v1 columns, in the contract's order |
| BoardSplit.AppendsOnlyMeaning | scripts/activate_board_split_v1.py:273-277 | the readback condition in words: the contract row ends with the columns and none of them stands before |
| BoardSplit.PlanCount | scripts/activate_board_split_v1.py:172-183 | the plan has one cell per required column |
| BoardSplit.PlanWritten | scripts/activate_board_split_v1.py:162-183 | written on the legacy headers it gives the legacy row followed by the required columns in order |
| BoardSplit.PlanKeepsOthers | scripts/activate_board_split_v1.py:162-183 | no other tab changes |
| BoardSplit.ReadBack | scripts/activate_board_split_v1.py:273-277 | after the write the readback holds if and only if the contract appends the columns and has no earlier copy of one |
| BoardSplit.Board.Activate | scripts/activate_board_split_v1.py:194-306 | when it refuses, when it writes, what the board then shows, and that a second attempt is refused |
| BoardPatch.Plan | scripts/apply_kaspi_customer_size_google_board_my_size_patch.py:172-238 | exactly the keys whose cell is blank are updated, and exactly the missing and the conflicting ones are blockers |
| BoardPatch.BlockedMeaning | scripts/apply_kaspi_customer_size_google_board_my_size_patch.py:150-238 | a plan is blocked exactly when a patch is out of scope, lacks key or size, repeats a key, names a key that no data row carries, or meets another size; each blocker says which key |
| BoardPatch.PlanMeaning | scripts/apply_kaspi_customer_size_google_board_my_size_patch.py:202-238 | an update is planned exactly for a patch whose key's row reads a blank size: that key, that row, the contract's column, that size |
| BoardPatch.ResolveMeaning | core/integrations/google_ops_board.py:523-545 | row 1 is a header when it begins with the contract headers, is a beginning of them, or has them with blank columns between; each header is then read where it stands |
| BoardPatch.SizeWritten | scripts/apply_kaspi_customer_size_google_board_my_size_patch.py:373-377 | where the size was read as blank, the patch's size stands in the contract's column afterwards |
| BoardPatch.RestKept | scripts/apply_kaspi_customer_size_google_board_my_size_patch.py:373-377 | no other column and no other row changes |
| BoardPatch.IndexRows | scripts/apply_kaspi_customer_size_google_board_my_size_patch.py:194-200 | every key of a data row is mapped to a row that carries it with no later row carrying it |
| BoardPatch.PlanHitsDistinctBlankCells | scripts/apply_kaspi_customer_size_google_board_my_size_patch.py:194-238 | planned updates hit pairwise distinct rows, each the last that carries the patch's key, whose size cell was read as blank |
| BoardPatch.HeaderStays | core/integrations/google_ops_board.py:569-590 | on a board with a header row the column mapping survives the write |
| BoardPatch.MappingStaysIff | core/integrations/google_ops_board.py:523-545 | the mapping survives if and only if row 1 is a header already or no planned update of it completes it to one |
| BoardPatch.SizesKeepMapping | core/integrations/google_ops_board.py:523-545 | it survives whenever no patch writes the text of a header |
| BoardPatch.ReplanIsEmpty | scripts/apply_kaspi_customer_size_google_board_my_size_patch.py:377-391 | when MY_SIZE is read where it is written, replanning yields no update and no blocker, even with a key on several rows |
| BoardPatch.MisplacedPlanRepeats | scripts/apply_kaspi_customer_size_google_board_my_size_patch.py:202-238 | when it is not, and the written column is not the key's, the same plan comes back after every write |
| BoardPatch.KeyColumnIsNeverWritten | config/google_ops_board.yaml:50-68 | where the key stands behind MY_SIZE, as in the shipped contract, no header row makes the written column the key's |
| BoardPatch.OverwrittenKeyFoolsReadback | scripts/apply_kaspi_customer_size_google_board_my_size_patch.py:194-238 | where it stands in front, a whole apply that destroys the key of a row and still ends verified |
| BoardPatch.BlankColumnMisplaces | core/integrations/google_ops_board.py:523-545 | one blank header column before MY_SIZE shifts what is read by one column while the header is still accepted |
| BoardPatch.OpsBoard.Apply | scripts/apply_kaspi_customer_size_google_board_my_size_patch.py:369-391 | blocked leaves the board alone; the column mapping survives the write if and only if row 1 is a header or no update completes it to one; after a write the readback passes if and only if a second plan finds nothing to do, which, where the mapping survives and the write does not fall on the key column, is if and only if MY_SIZE is read where it is written |
| CrmArchive.LatestMeaning | scripts/backfill_crm_archive_period.py:307-319 | the row kept for an order is the one with the greatest time, the last of equal ones |
| CrmArchive.LoadDbPatches | scripts/backfill_crm_archive_period.py:307-321 | the loop computes that choice for every order |
| CrmArchive.CrmSheet.ApplyUpdates | scripts/backfill_crm_archive_period.py:326-415 | every row is filled as specified and the offers are the latest of the filled rows |
| CrmArchive.Backfill | scripts/backfill_crm_archive_period.py:584-647 | both sheets keep rows, order and every non-blank cell and non-zero fee; the unresolved orders are exactly those with a field that no source fills |
| CrmArchive.ArchiveRowAfter | scripts/backfill_crm_archive_period.py:448-506 | a row of the period whose order lacks something prefers, cell by cell, what it held, then the latest CRM row, then the latest database row, a fee of zero counting as none; any other row keeps its cells |
| CrmArchive.CrmRowAfter | scripts/backfill_crm_archive_period.py:376-401 | a CRM row prefers what it held, then the latest database row; its fee falls back on its own delivery fee |
| CrmArchive.SendDateAfter | scripts/backfill_crm_archive_period.py:508-518 | the send date is the row's own, else the latest CRM date of its order, else the truth file's |
| CrmArchive.UnresolvedWereTargets | scripts/backfill_crm_archive_period.py:639-647 | an order still incomplete after the run was a target before it |
| CrmArchive.UnresolvedIff | scripts/backfill_crm_archive_period.py:584-647 | an order stays unresolved if and only if some row of it in the period keeps a field for which neither the CRM sheet nor the database has anything, or only a zero fee |
| CrmArchive.SecondRunChangesNothing | scripts/backfill_crm_archive_period.py:584-647 | running again with the same database and truth file changes no value on either sheet |

## Left out

- DateDriftSelect.SelectMoves: does not model floating-point noise; amounts are hundredths and sums are exact.
- DateDriftRows.AppliedRepairClearsTheRows: takes the published totals to be the row sums of the day; how `_load_daily_maps` obtains them from a classifier report is not part of this model.
- GuardedWrite.Disk.GuardedApply: takes the journal to stand from BEGIN on, where SQLite may create it with the first write; and assumes one writing process, and that cleaning up the temporary file of a JSON write does not raise.
- CashRepair.RerunConverges: the content of a target is taken with its journal, so an unfinished transaction counts as the pre-image with a sidecar; that SQLite itself, opened by some other program, may roll the journal back and remove it is not modelled.
- CashRepair.CommittedRepairConserves: models rows of other tables as opaque lists that no statement touches; row hashes are equality of contents.
- FormulaPromotion.Promote: does not model the dry run, whose only effect is a report.
- StagingSwap.SharedTarget.SwapIn: the rebuild is any function of the staging file, a gate is one Boolean per group of checks, and a read that mixes two contents is taken to equal no whole content.
- CogsWriteBack.ApplyCandidates: knows the table-level UNIQUE constraint only; the indexes of migration 031 are on columns the updates leave alone. Stored texts are compared byte by byte, as SQLite does without a collation.
- PaymentOverride.ApplyOverride: the notes text of an inserted row travels with its obligation instead of being composed from the manifest, whose schema version, ids and source file are not checked here.
- ReturnQc.QcTable.Validate: order rows arrive by key with the returned flag already read from their two status columns; the truncated event id is as distinct as the key.
- EntrySidecar.LoadSidecar: the payload hash, date formats, store roster file and forbidden raw keys are one Boolean per record.
- BoardSplit.Board.Activate: the count of five and the layout detection of the planned headers are proved or implied by the validated contract and are not repeated as branches.
- BoardPatch.OpsBoard.Apply: approval text, environment gates and the automation lock are not modelled; a contract without the two columns is excluded, and all scope blockers are one value.
- CrmArchive.Backfill: dates, numbers and the latest-row patch values are read and printed by functions given as inputs.
- The publication binding, truth-view, identity repair and article-map writers: their protocol is the one of `GuardedWrite`; their own field checks are flat comparisons.
- The owner-stock ledger plan, the `fact_sales` replay, the order-size backfill and the header-only quarantine wrapper.
- The review-pack gate, audit and report scripts, dashboards, backup retention and waybill archiving.
- One-row constant repairs and thin entry points.
- Free-text size parsing by regular expressions; parsed sizes are inputs.

# FinConfig verification

A Dafny model of the configuration center's release, overlay, snapshot and outbox logic, with proofs of what its parts
promise each other. `dafny verify dfyconfig.toml` checks all of it.

The model follows four connected parts of the program.

1. **Release orders.** A multi-step aggregate (review, percentage rollout, overlay apply, base apply, compare, complete)
   whose configuration steps record effects. `OrderState` says what each operation means as a function; `Planning` and
   the class `ReleaseOrder.Aggregate` run the loops and update the fields in place, proved equal to it. `World` is the
   stored configuration and what applying an effect does to it. On top: the life cycle of an order (`Lifecycle`),
   rollback as a true inverse (`Rollback`, `RollbackRun`, `SingleRollback`), the percentage rollout and what clients see
   of it (`RolloutRun`, `RolloutView`), what a step and a whole run achieve (`Reach`, `FinalRun`), comparison
   (`Comparison`), compensation (`Compensation`, `CompensationRun`), which orders can be completed (`Completion`,
   `Completable`), concrete orders that meet these hypotheses (`Examples`), and the service call with request ids, stored results and retries (`Idempotency`,
   `ReleaseService`).
2. **Overlay algebra.** Bucket ranges (`Rollout`), rule compilation and layered evaluation (`Overlay`), release
   templates (`Template`) and effect validation (`Effects`). The copy of this code under
   `internal/distribution/overlay` is the same algebra and is modelled once.
3. **Snapshots.** Dependency groups (`Components`, `Dependencies`), building (`Snapshot`, `SnapshotBuild`), partial
   refresh (`Composition`, `PartialRefresh`, `SnapshotManager`), the delta protocol between server and SDK
   (`ConfigServer`, `SdkClient`, `DeltaSync`, `DeltaRuns`, `Serving`), the refresh coordinator (`Coordinator`,
   `CoordinatorProtocol`), the watch hub (`Watch`) and the hint receiver (`Hints`, `HintProtocol`).
4. **Outbox.** The lease protocol (`Outbox`, `OutboxProtocol`) and the relay (`Relay`).

`Text`, `Catalog` and `Wrappers` hold what these share. Where the program changes state in place there is a class or a
loop, proved against a function; the theorems are about the function, or about a state machine whose steps are the
program's locked sections, transactions and channel operations.

Assumptions that the theorems carry: each transaction and each guarded update is one atomic step; digests are taken as
injective (a digest is the payload it hashes); canonicalizing a record is a function parameter, idempotent where that
is stated; clocks, transports, callbacks and faults are arguments, so a theorem over all arguments is one over all of
them. Publishing to the watch hub is one step relative to receivers.

## Findings

What the code does where one might expect more; each is a theorem with its exact condition or a concrete witness.

- The data comparison of the release domain reads a missing field as empty and looks at one side's fields only. It is
  not symmetric and can take two records for equal that differ in a non-empty field. A base step, and a compensation,
  then silently leaves the old data (`Catalog.EqualDataNotSymmetric`, `Reach.BaseStepReaches`,
  `CompensationRun.CompensationUndoesBaseRun`, `Examples.MaskedCompensation`); a comparison can match while its two
  digests differ (`Comparison.MatchAgainstDigests`). The base step compares the old record with the desired one and
  COMPARE the desired one with the record, so an order with a COMPARE after its base step can be impossible to complete
  (`Completion.ComparisonToldFromStart`, `Completable.CompletableExactly`, `Examples.KeptNeverMatches`).
- Copying a DELETE rule gives it an empty content map instead of none. The rule table refuses a DELETE row with content,
  so an overlay or percentage step with a target that deletes a base record can never commit
  (`Reach.OverlayStepReaches`, `RolloutRun.PercentStepNeverStuck`, `Examples.HidingNeverCommits`), and a rollback that
  would write a DELETE rule back is refused (`RollbackRun.RollbackUndoesRun`). Evaluation refuses such a rule too: a
  DELETE row that got into the table another way makes the published snapshot unservable to the clients it applies to
  (`Serving.ServableExactly`).
- The item table wants a positive record revision for modifications and deletions and no base record for additions. The
  compensation of an overlay order that added a record is a deletion without a base record: it is planned and
  constructed, but cannot be stored (`CompensationRun.CompensationStored`, `Examples.AddingNotCompensated`).
- A mismatched comparison commits but stores no result. The same request id can then change the order again, and a
  repeat of the same payload is refused rather than answered (`Idempotency.ClosesItsIdUnlessMismatch`,
  `Idempotency.UnstoredRepeatIsAborted`).
- The mismatch error of an attempt that was rolled back and retried is not forgotten: a retry that matches executes the
  step, stores nothing and reports failure (`Idempotency.RetriedMismatchReportsFailure`,
  `Idempotency.RetriedMismatchHappens`).
- A review directly in front of COMPLETE can never finish (`Lifecycle.CompletionEnabled`).
- When the two calls of one SDK refresh are answered by different server instances and the second answer comes from the
  instance the client already follows, the full answer is merged as if it were a delta and removed collections stay
  (`DeltaRuns.FullAnswerWithoutReset`, `DeltaRuns.SplitAnswersKeepStaleCollections`).

## Model

| member | source | states |
|---|---|---|
| `Catalog.EqualDataExact` | internal/release/domain/order.go:1693-1703 | The data comparison accepts two different maps exactly when the left one has a field the right one lacks, and every such field is empty; on maps where no empty field is missing it is equality |
| `Catalog.EqualDataNotSymmetric` | internal/release/domain/order.go:1693-1703 | Two concrete maps that compare equal one way round and different the other way, although a non-empty field differs |
| `Rollout.NormalizeRanges` | internal/overlay/domain/digest.go:67-84 | Succeeds exactly when every range lies in 0..99 and no two share a bucket; then the same ranges, sorted and disjoint |
| `Rollout.ExpandRolloutRanges` | internal/overlay/domain/rollout.go:31-64 | Refused exactly when nothing is added or two buckets coincide; otherwise the canonical run list of the union of buckets, found by looking at the buckets one by one |
| `Rollout.SomeOverlap` | internal/overlay/domain/rollout.go:43-49 | The pairwise test is true exactly when the two slices share a bucket |
| `Rollout.MergeAdjacent` | internal/overlay/domain/rollout.go:50-63 | Merging leaves no two adjacent ranges and covers exactly the same buckets |
| `Rollout.CanonicalUnique` | internal/overlay/domain/rollout.go:31-64 | Two canonical lists covering the same buckets are the same list |
| `Rollout.WidthCountsBuckets` | internal/overlay/domain/rollout.go:31-64 | The total width of disjoint ranges is the number of buckets they cover |
| `Rollout.ExpandAddsWidths` | internal/overlay/domain/rollout.go:31-64 | The union is exactly as wide as the two slices together |
| `Rollout.ExpandCommutes` | internal/overlay/domain/rollout.go:31-64 | Adding two slices in either order gives the same list, or is refused both ways |
| `Rollout.ExpandAllMeaning` | internal/overlay/domain/rollout.go:31-64 | A whole rollout succeeds exactly when its slices are well formed and disjoint from one another and from the start; its result depends only on the set of buckets served |
| `Overlay.Evaluate` | internal/overlay/domain/evaluator.go:67-152 | The loop computes the two-layer fold of the live rules over the base records, in key order, with every error case |
| `Overlay.EvaluateKeyOrder` | internal/overlay/domain/evaluator.go:67-152 | Evaluated records come in strictly increasing key order, one per key |
| `Overlay.CompileThenEvaluate` | internal/overlay/domain/evaluator.go:67-152 | For distinct keys of one exact scope, each rule compiled from the base record at its key: evaluation succeeds, every served key shows its desired state, every other key is untouched |
| `Overlay.RuleOrderIrrelevant` | internal/overlay/domain/evaluator.go:67-152 | The same rules in any order evaluate to the same records |
| `Overlay.EvaluateClones` | internal/release/domain/order.go:1560-1595 | When rules evaluate, their copies evaluate to the same view exactly when no applying deletion is among them; otherwise the copies fail |
| `Overlay.ClonedDeleteRefused` | internal/overlay/domain/evaluator.go:105-108 | A concrete deletion that evaluates as compiled and is refused once it has been copied |
| `Overlay.EvaluatesExactly` | internal/overlay/domain/evaluator.go:67-152 | With one rule per scope and key, evaluation succeeds exactly when every environment-wide rule fits the base records and every rule of the stage fits what that layer leaves: readable ranges, additions of absent keys, modifications and deletions of present ones |
| `Template.CompileTemplate` | internal/release/domain/template.go:70-201 | Succeeds exactly when every step decodes strictly and the step list has distinct codes, disjoint percentage slices all before the base step, the counts its final effect needs, and one COMPLETE at the end; the result is those steps |
| `Template.TakeStep` | internal/release/domain/template.go:145-164 | The loop body keeps the counters, the codes seen and the running rollout union true of the steps so far, and refuses exactly a repeated code, a late percentage step or an overlapping slice |
| `Template.AppendGrowing` | internal/release/domain/template.go:85-201 | When one more step keeps what every prefix of a compiled template promises |
| `Template.PrefixGrowing` | internal/release/domain/template.go:85-201 | Every prefix of an acceptable step list is acceptable as a prefix, so stopping at the first fault loses nothing |
| `Effects.ValidateStepEffect` | internal/release/domain/effect_codec.go:46-150 | Accepts exactly the envelopes with one payload that matches the tag and satisfies all its identity, revision and change rules |
| `ReleaseOrder.NewAggregate` | internal/release/domain/order.go:323-454 | Builds the order exactly when the specification meets every constructor rule, for both final effects; a fresh object in the initial shape |
| `ReleaseOrder.Aggregate.ExecuteManualReview` | internal/release/domain/order.go:564-580 | Starts the review of the current step, or fails leaving every field as it was |
| `ReleaseOrder.Aggregate.ApproveManualReview` | internal/release/domain/order.go:582-595 | Settles the review for an authorized principal, or fails leaving every field as it was |
| `ReleaseOrder.Aggregate.RejectManualReview` | internal/release/domain/order.go:597-618 | Ends the order with conflict keys released and items not settled; effects already applied stay as they are |
| `ReleaseOrder.Aggregate.ExecuteBase` | internal/release/domain/order.go:641-712 | Records an effect holding every changed record and every rule to clean up, checked item by item against the authority; any stale fact aborts and changes nothing |
| `ReleaseOrder.Aggregate.ExecuteOverlay` | internal/release/domain/order.go:967-1030 | Records an effect with one compiled rule or rule removal per target; failure changes nothing |
| `ReleaseOrder.Aggregate.ExecutePercentRollout` | internal/release/domain/order.go:1032-1112 | Records an effect that extends each target's rule by the step's slice, refusing foreign rules, overlaps and changed content |
| `ReleaseOrder.Aggregate.ExecuteCompare` | internal/release/domain/order.go:1118-1185 | Records both digests and the differing keys; executes the step only when there is no difference |
| `ReleaseOrder.Aggregate.Advance` | internal/release/domain/order.go:1235-1246 | Moves to the next step of an executed or approved one |
| `ReleaseOrder.Aggregate.Complete` | internal/release/domain/order.go:1248-1270 | Ends the order with all items applied, only after an EXECUTED step |
| `ReleaseOrder.Aggregate.RollbackAll` | internal/release/domain/order.go:782-894 | Validates every effect, walks them newest first, and ends the order at its oldest effect with the inverse batch; failure changes nothing |
| `ReleaseOrder.Aggregate.RollbackBase` | internal/release/domain/order.go:714-777 | Rolls the last base effect back, additions only |
| `ReleaseOrder.Aggregate.RollbackOverlay` | internal/release/domain/order.go:1187-1233 | Rolls the last overlay effect back by swapping its rule changes |
| `ReleaseOrder.Aggregate.PlanCompensation` | internal/release/domain/order.go:1378-1440 | The loop computes the compensation plan without changing the order |
| `Planning.PlanInverseBase` | internal/release/domain/order.go:896-934 | The backward loop over record changes, rewriting the simulated records as it goes, computes the inverse batch or the first drift |
| `Planning.PlanInverseRules` | internal/release/domain/order.go:936-949 | The same for rules |
| `Planning.CheckEffects` | internal/release/domain/order.go:789-800 | Collects the indexes of the steps with effects, newest first, all valid; the last is the oldest effect |
| `Planning.LastIndexIsFirstEffect` | internal/release/domain/order.go:789-889 | The step the order ends at after RollbackAll is its oldest step with an effect |
| `Planning.BuildItems` | internal/release/domain/order.go:340-415 | Stops at the first item that breaks a constructor rule or repeats a target; otherwise builds every item |
| `Lifecycle.NewOrderShape` | internal/release/domain/order.go:323-543 | A new order has the shape of an order in progress at revision 1 |
| `Lifecycle.EveryStepKeepsShape` | internal/release/domain/order.go:564-1270 | Every operation that succeeds keeps the shape (earlier steps settled, later ones pending without effects, items pending with a conflict key while in progress; finished orders have a completion time and no conflict keys) and adds exactly one to the revision |
| `Lifecycle.FinishedRefusesAll` | internal/release/domain/order.go:564-1270 | A finished order refuses every operation |
| `Lifecycle.RunIsBounded` | internal/release/domain/order.go:564-1270 | Over any sequence of operations the revision counts the successes, and the successes other than mismatched comparisons never exceed what the remaining steps allow |
| `Lifecycle.ThreePerStep` | internal/release/domain/order.go:564-1270 | From creation on, at most three such successes per step |
| `Lifecycle.CompletionEnabled` | internal/release/domain/order.go:1248-1270 | A pending COMPLETE can finish exactly when a step other than a review stands right before it |
| `Comparison.ObservationUsable` | internal/release/domain/order.go:1140-1155 | An observation is usable exactly when each target is seen at most once and under the order's own identity |
| `Comparison.MatchesExactlyWhenTargetsAgree` | internal/release/domain/order.go:1157-1185 | A comparison matches exactly when every target agrees, and otherwise lists, sorted, exactly those that do not |
| `Comparison.DigestsEqualExactlyOnSameData` | internal/release/domain/order.go:1166-1175 | The two recorded digests are equal exactly when every target holds identical data |
| `Comparison.MatchAgainstDigests` | internal/release/domain/order.go:1157-1175 | Equal digests always match; a match means equal digests exactly when no expected field is missing from what was observed |
| `Rollback.UndoBase` | internal/release/domain/order.go:896-934 | Undoing record changes on the records they produced succeeds, recovers the records before them exactly, and yields a batch well-defined at every change |
| `Rollback.UndoRules` | internal/release/domain/order.go:936-949 | The same for rule changes, up to copies of nil contents |
| `Rollback.UnwindSucceeds` | internal/release/domain/order.go:802-852 | Walking a chain of effects back cannot fail on drift, chain or identity |
| `ReleaseRun.DispatchIsOneOp` | internal/release/application/service.go:1093-1208 | Every dispatched action is exactly one operation of the order's life cycle |
| `ReleaseRun.DispatchTracks` | internal/release/application/service.go:1093-1208 | Without another writer the recorded effects always lead from the starting configuration to the present one, each planned on what the one before left |
| `ReleaseRun.DispatchKeepsIdentity` | internal/release/application/service.go:1093-1208 | No action changes the order's identity, scope, step definitions or targets |
| `RollbackRun.RollbackRestores` | internal/release/domain/order.go:782-949 | After any run with no other writer RollbackAll succeeds, its batch is well-defined at every change, touches exactly the rules the order touched, and restores every record's data and every rule under a strictly larger revision; storage takes the batch exactly when no rule the order touched was a DELETE rule at the start |
| `RollbackRun.RollbackUndoesRun` | internal/release/application/service.go:1093-1208 | From a fresh order over every sequence of commands, through the service's dispatch: ROLLBACK ends the order and restores the configuration exactly when no touched rule was a DELETE rule at the start; otherwise it fails and changes nothing |
| `RollbackRun.StoredEffects` | db/migrations/mysql/000001_finconfig_v1.sql:286-287 | Over any chain of stored effects the rules written are never DELETE rules, so the rules an effect replaces are all storable again exactly when none of the touched rules was a DELETE rule at the start |
| `RollbackRun.RollbackRestoresRulesExactly` | internal/release/domain/order.go:782-949 | A stored rollback gives every rule back field for field exactly when no rule the order touched had a nil content map |
| `SingleRollback.OverlayRollbackRestores` | internal/release/domain/order.go:1187-1233 | At the revision its effect left, RollbackOverlay plans a batch that gives every rule back, storable exactly when no rule the effect replaced was a DELETE rule |
| `SingleRollback.BaseRollbackRestores` | internal/release/domain/order.go:714-777 | RollbackBase of a cleaning base effect succeeds exactly when the effect only added records; then it gives back all data and rules |
| `RolloutRun.ExpansionNeverRefused` | internal/release/domain/order.go:1071-1079 | In an order from a compiled template the expansion by the next slice cannot report an overlap and yields the canonical union |
| `RolloutRun.RolloutChain` | internal/release/domain/order.go:1032-1112 | After k percentage steps each target's rule carries the canonical union of the first k slices, is owned by the order and states its target; every recorded effect was planned at the revision and on the rules the previous one left, and together they lead to the present configuration |
| `RolloutRun.PercentStepNeverStuck` | internal/release/domain/order.go:1032-1112 | With no other writer a pending percentage step always executes; it commits exactly when no name is blank and no target deletes a base record |
| `RolloutRun.PercentStepStored` | db/migrations/mysql/000001_finconfig_v1.sql:286-287 | Any planned percentage step is stored exactly under that condition; a deletion fails as a storage error |
| `RolloutView.RolloutShows` | internal/release/domain/order.go:1032-1112 | Over every run, until the base step: the view evaluates for every client and shows each target as desired exactly if the client's bucket is in the union of the slices executed so far; everyone else sees the base record the order started from |
| `RolloutRun.ServedBucketsGrow` | internal/release/domain/order.go:1032-1112 | A bucket served once stays served until the base step |
| `Reach.BaseStepReaches` | internal/release/domain/order.go:641-712 | After a base step each target holds its desired data exactly unless the data comparison masks a difference; its rule is gone and all other records are untouched |
| `Reach.OverlayStepReaches` | internal/release/domain/order.go:967-1030 | An overlay step commits exactly when no name is blank and every target has a desired state or only a rule to remove, never when one deletes a base record; then evaluating the stored records and rules succeeds for every client, shows each target as desired, and no base record has changed. Were the rules written all the same, evaluation would succeed exactly when no target deletes a base record |
| `Reach.OverlayStepStored` | internal/release/mysqlstore/store.go:875-966 | The commit condition on its own, for any planned overlay step |
| `Reach.WrittenRulesEvaluate` | internal/release/domain/order.go:967-1030 | The rules an overlay step writes at its targets evaluate exactly when no target deletes a base record, and then show every target as desired |
| `FinalRun.RunLands` | internal/release/application/service.go:1093-1208 | An order from a compiled template that any run takes to SUCCEEDED is a finished order decided by its one base or overlay effect, and the configuration is what that effect made of the start: per target the written record or the written rule, nothing else changed |
| `FinalRun.BaseStepLands` | internal/release/domain/order.go:641-712 | A stored base step leaves at each target the record it was expected to find, overwritten unless it compared equal, names exactly the records it changed, and removes the rule |
| `Completable.CompletableExactly` | internal/release/application/service.go:1093-1208 | Some sequence of commands takes an order just created to SUCCEEDED exactly when every step allows it: reviews ask for a role and none stands right before COMPLETE; no name is blank and no percentage or overlay target deletes a base record; the base step has a slice to clean up or a record to change; each comparison sits where what it sees agrees |
| `Completion.ComparisonToldFromStart` | internal/release/domain/order.go:1118-1185 | Whether a comparison reached by a run finds a difference is decided by the configuration the order was created on: an overlay order sees its desired records once it is applied; before the base step a base order sees the starting records, or the desired ones where an effective preview's bucket has been reached; after it, everything but a kept record that compares equal one way round only |
| `Completion.ComparisonExactly` | internal/release/domain/order.go:1118-1185 | At a pending comparison, executing it matches exactly when every target's desired record accepts what the configured mode shows |
| `Compensation.CompensatingOrderConstructs` | internal/release/application/service.go:602-705 | The planned items meet every rule of the order constructor |
| `Compensation.CompensationExecutes` | internal/release/domain/order.go:641-712 | The compensating base step executes exactly when it has something to change or to clean up |
| `Compensation.CompensationOverlayExecutes` | internal/release/domain/order.go:967-1030 | The compensating overlay step always executes while the collection is as planned |
| `Compensation.CompensationRestoresBase` | internal/release/domain/order.go:1378-1477 | Executing it restores every target's base data exactly unless the data comparison masks the difference |
| `CompensationRun.RunCanBeCompensated` | internal/release/application/service.go:602-705 | An order created on a configuration and run to SUCCEEDED with no other writer has drifted nowhere, measured on the base records and the evaluated view of that configuration; its compensation is planned, constructed, and again an order created on the configuration; storage takes it exactly when the first order was BASE_FINAL or only modified its targets |
| `CompensationRun.BaseNeverDrifted` | internal/release/domain/order.go:1378-1440 | A succeeded BASE_FINAL order has drifted at no target, whatever it changed or left unchanged |
| `CompensationRun.OverlayDriftExactly` | internal/release/domain/order.go:1378-1440 | A succeeded OVERLAY_FINAL order has drifted at a target exactly when its item misstates the base record it was created on |
| `CompensationRun.CompensationStored` | db/migrations/mysql/000001_finconfig_v1.sql:181-187 | The item table refuses the compensation of an overlay order exactly when some item of that order was not a modification |
| `CompensationRun.BaseStepEnabled` | internal/release/domain/order.go:641-712 | For an order created on a configuration without rules at its targets, the base step executes, whatever ran before, exactly when a slice was rolled out or some record still differs; it is then stored exactly when collection, region and environment are named, the collection has a revision, and no rule to clean up has a blank key |
| `CompensationRun.OverlayStepEnabled` | internal/release/domain/order.go:967-1030 | For an order created on a configuration the overlay step always executes, whatever ran before, and is stored exactly when no name is blank and every target has something storable to write |
| `CompensationRun.CompensationNeverStuck` | internal/release/application/service.go:602-705 | A compensating order meets what those two statements ask, and a stored overlay compensation only ever writes storable rules |
| `CompensationRun.CompensationUndoesBaseRun` | internal/release/application/service.go:602-705 | Running the compensating order of a BASE_FINAL order to its end gives every target the data it had before the first order, exactly unless the data comparison masks the difference; then the record is as the first order left it |
| `CompensationRun.CompensationUndoesOverlayRun` | internal/release/application/service.go:602-705 | Running the compensating order of an OVERLAY_FINAL order to its end makes the evaluated view of every client show what was seen before the first order; no base record changes |
| `CompensationRun.CompensatingTwiceReturns` | internal/release/application/service.go:602-705 | Compensating the compensation of a BASE_FINAL order makes every target hold the first order's After again, exactly unless the comparison masked the first change or masks the last one |
| `CompensationRun.CompensatingOverlayTwiceReturns` | internal/release/application/service.go:602-705 | Compensating the compensation of an OVERLAY_FINAL order makes every client see the first order's After again |
| `Examples.MaskedCompensation` | internal/release/domain/order.go:1693-1703 | A concrete finished order whose compensation is planned and constructed, and whose base step then refuses to execute because it finds nothing to change, although the data to restore differ |
| `Examples.MaskedOrderIsARun` | internal/release/application/service.go:1093-1208 | A concrete run (execute, advance, complete) from an order just created to exactly that finished order and its configuration |
| `Examples.HidingNeverCommits` | db/migrations/mysql/000001_finconfig_v1.sql:286-287 | A concrete overlay deletion of a base record: its step is planned, storage refuses it, and no sequence of commands takes the order to SUCCEEDED |
| `Examples.AddingNotCompensated` | db/migrations/mysql/000001_finconfig_v1.sql:181-187 | A concrete overlay addition that some run completes, and whose compensation is planned and constructed but not storable |
| `Examples.KeptNeverMatches` | internal/release/domain/order.go:1118-1185 | A concrete rollout with a COMPARE after its base step: every other step allows completion, the comparison differs for ever, and no sequence of commands reaches SUCCEEDED |
| `ReleaseService.Service.Act` | internal/release/application/service.go:1055-1227 | The service call with its retries is the fold of at most three attempts, each a transaction body over a freshly loaded aggregate |
| `ReleaseService.DispatchCommand` | internal/release/application/service.go:1093-1208 | The in-place dispatch over the aggregate agrees with the dispatch as a function |
| `ReleaseService.ActIsARun` | internal/release/application/service.go:1335-1354 | An uninterrupted call is a run of the concurrent protocol below |
| `Idempotency.AttemptChanges` | internal/release/application/service.go:1071-1219 | An attempt that changes anything does so at the expected revision, adds one to it, and stores its result unless a mismatch is pending; any other attempt leaves the database alone |
| `Idempotency.OneCommitPerRevision` | internal/release/application/service.go:1084-1086 | Over all interleavings, faults and retries, of the calls expecting one revision at most one changes the order; a payload never changes it twice |
| `Idempotency.RequestActsOnceUnlessComparison` | internal/release/application/service.go:1073-1083 | A request id changes the order again only after a comparison of its own that was left unstored |
| `Idempotency.CleanReplyIsCommitted` | internal/release/application/service.go:1073-1226 | A clean reply shows the result of the one storing commit of that request, made for that very payload |
| `Idempotency.StoredResultAnswers` | internal/release/application/service.go:1073-1083 | Once a result is stored, its id writes nothing: the same payload gets the stored view, another one is refused |
| `Idempotency.ClosesItsIdUnlessMismatch` | internal/release/application/service.go:1152-1220 | A committed change leaves its request id open exactly when it executed a COMPARE step and some target does not agree with what is stored |
| `Idempotency.UnstoredRepeatIsAborted` | internal/release/application/service.go:1084-1086 | Repeating the payload of an unstored change is refused instead of answered |
| `Idempotency.StaleMismatchSpoilsCommit` | internal/release/application/service.go:1066-1219 | After a mismatch in a rolled back attempt, whatever the retry commits is reported as failed and not stored |
| `Idempotency.RetriedMismatchReportsFailure` | internal/release/application/service.go:1066-1226 | Whenever a comparison differs, is rolled back and retried after another transaction has made the records agree, the step is executed, nothing is stored and the caller is told it failed |
| `Idempotency.RetriedMismatchHappens` | internal/release/application/service.go:1066-1226 | Such a run on a concrete order and configuration |
| `Outbox.SelectedAreOldest` | internal/outbox/mysqlstore/store.go:40-49 | A claim takes the due, unlocked rows of lowest sequence, each once, and leaves a due row only behind a full batch |
| `Outbox.Store.Claim` | internal/outbox/mysqlstore/store.go:24-81 | Leases exactly the selected rows and hands out each as leased |
| `Outbox.Store.MarkSent` | internal/outbox/mysqlstore/store.go:83-94 | Takes effect exactly while the row is leased under this very claim |
| `Outbox.Store.MarkFailed` | internal/outbox/mysqlstore/store.go:96-115 | Retries or buries by the claim's attempts, under the same fence |
| `Outbox.Store.Replay` | internal/outbox/mysqlstore/store.go:117-176 | Requires the expected revision and a dead letter |
| `OutboxProtocol.EveryStepFences` | internal/outbox/mysqlstore/store.go:24-176 | Every transition raises the row's lease revision by one; SENT is final; only Replay leaves DEAD_LETTER; payloads never change |
| `OutboxProtocol.EveryRunKeepsInv` | internal/outbox/mysqlstore/store.go:24-176 | Over every interleaving of workers: claims of a row rise, live claims hold their rows, leased rows have a claim, waiting rows have attempts left |
| `OutboxProtocol.MarkSucceedsExactlyForLiveClaim` | internal/outbox/mysqlstore/store.go:83-115 | After any run a mark takes effect exactly when its claim is the newest of its row and unsettled |
| `OutboxProtocol.ClaimsAreSettledOnce` | internal/outbox/mysqlstore/store.go:83-115 | Every claim is settled at most once, and a pending row has attempts below the maximum |
| `OutboxProtocol.LeasedRowHasOneLiveClaim` | internal/outbox/mysqlstore/store.go:24-81 | A leased row has exactly one live claim, held by the worker it is locked by |
| `OutboxProtocol.SentIsFinal` | internal/outbox/mysqlstore/store.go:83-94 | Over any continuation lease revisions never fall and a sent row stays exactly as it is |
| `Relay.RunOnce` | internal/outbox/relay.go:107-137 | Claimed equals sent plus retried plus dead letters plus persistence errors under any interference; with none there are no errors and each claimed row ends as its delivery decided |
| `Dependencies.DependencyGroups` | internal/distribution/snapshot/manager.go:274-358 | The groups are a function of the set of names and the set of models alone, so map iteration order cannot be seen; the search terminates |
| `Dependencies.BuiltConnectsWhatIsLinked` | internal/distribution/snapshot/manager.go:275-322 | Paths along the edges built (a star per shared model code) are exactly paths along option sources and shared codes |
| `Dependencies.Explore` | internal/distribution/snapshot/manager.go:333-355 | Breadth-first search from an unvisited name yields exactly its connected component, sorted |
| `Components.GroupsCover` | internal/distribution/snapshot/manager.go:324-357 | Every node is in a group |
| `Components.GroupsAreComponents` | internal/distribution/snapshot/manager.go:324-357 | Groups are sorted and disjoint, and two nodes share a group exactly when a path joins them |
| `SnapshotBuild.BuildSnapshot` | internal/distribution/snapshot/manager.go:544-640 | Succeeds exactly when every input is acceptable, names and model codes are distinct and option sources resolve; the result is the snapshot of those inputs, with sorted views and authorizations |
| `Composition.AcceptedIsWellBuilt` | internal/distribution/snapshot/manager.go:544-671 | What a build publishes has canonical records within the collection revision, matching digests, copied rules and resolved options |
| `Composition.PreviousInputRebuilds` | internal/distribution/snapshot/manager.go:379-407 | Round trip: the input taken from a published view builds into that very view |
| `PartialRefresh.KeptGroupBuilds` | internal/distribution/snapshot/manager.go:379-407 | The previous views of a dependency group build on their own |
| `PartialRefresh.DifferentGroupsCross` | internal/distribution/snapshot/manager.go:298-322 | Inputs of different groups, loaded or kept, never clash in name or model code |
| `PartialRefresh.CompositionNeverFails` | internal/distribution/snapshot/manager.go:225-272 | The final build of a partial refresh always succeeds, whatever loaded and whatever failed |
| `PartialRefresh.GroupIsIncomingOrPrevious` | internal/distribution/snapshot/manager.go:225-272 | Restricted to any group, the candidate's views and models are exactly the incoming build or exactly the previous ones |
| `SnapshotManager.BuildPartial` | internal/distribution/snapshot/manager.go:225-272 | A partial refresh fails exactly for malformed names, malformed failures, or the failure of every group |
| `SnapshotManager.Manager.Refresh` | internal/distribution/snapshot/manager.go:145-189 | On failure the published value stays; on success it becomes the next generation, published once, and fit for any later refresh |
| `ConfigServer.GetSnapshot` | internal/configserver/service.go:113-201 | The loop over visible collections computes the delta against the known versions, with every error case |
| `ConfigServer.ListingDigest` | internal/distribution/readmodel/canonical.go:111-141 | The digest of the sorted listing is the digest of the records by key |
| `SdkClient.BuildCandidate` | sdk/finconfig/client.go:433-500 | Accepts exactly the responses that pass all checks, and computes the candidate |
| `SdkClient.ChangedCollections` | sdk/finconfig/client.go:511-528 | Lists, sorted, exactly the names whose revision, digest or presence differs |
| `SdkClient.Client.Refresh` | sdk/finconfig/client.go:362-398 | One refresh: fetch, possibly in full, check, ask the callback, swap; any failure keeps the snapshot held |
| `DeltaSync.DeltaMeaning` | internal/configserver/service.go:150-200 | The delta lists, once each, exactly the visible collections not held in this version, and deletes exactly the held ones no longer visible |
| `DeltaSync.DeltaEqualsFull` | sdk/finconfig/client.go:433-500 | An accepted delta leaves the client with exactly the names, revisions, digests and data of a full answer |
| `DeltaSync.HonestAnswerAccepted` | sdk/finconfig/client.go:433-500 | An answer computed from a published snapshot passes every check exactly unless the environment differs or the snapshot is older than what the client has from the same instance |
| `DeltaRuns.OneRefresh` | sdk/finconfig/client.go:362-398 | A refresh against one snapshot fails exactly when it cannot be served, is older than what the client holds from that instance, or the callback refuses the names that change; then nothing changes, and otherwise the client shows all of the snapshot |
| `DeltaRuns.RunShowsLastSuccess` | sdk/finconfig/client.go:362-398 | After any sequence of refreshes the client shows exactly what a full answer of its last success would have shown |
| `DeltaRuns.FullAnswerWithoutReset` | sdk/finconfig/client.go:444-461 | A full answer merged without a reset is complete exactly when the client holds nothing the server no longer shows |
| `DeltaRuns.SplitAnswersKeepStaleCollections` | sdk/finconfig/client.go:375-381 | That happens when the two calls of one refresh reach different instances and the second is the one already followed |
| `DeltaRuns.DiffPartitions` | internal/configserver/service.go:203-234 | Added, modified and deleted partition the differences between known and visible versions |
| `DeltaRuns.DiffVersions` | internal/configserver/service.go:203-234 | Refuses empty or repeated known names first, then splits the delta of the trimmed request into sorted added and modified names |
| `Serving.ServableExactly` | internal/configserver/service.go:125-201 | A published snapshot with one rule per scope and key can be served to a client exactly when, in every collection it may see, each rule reaching the client has readable ranges, adds an absent key or modifies a present one (layer by layer), and none adds the empty key |
| `Serving.PublishedDeleteStopsDelivery` | internal/distribution/snapshot/manager.go:682-690 | In particular a published deletion that applies to a client makes the snapshot unservable to it |
| `Coordinator.RefreshCoordinator.Submit` | internal/distribution/snapshot/coordinator.go:64-116 | Merges the batch by maximum, drops what is reached, and takes all or nothing under the capacity |
| `Coordinator.RefreshCoordinator.ProcessPending` | internal/distribution/snapshot/coordinator.go:186-212 | Clears what is reached around one refresh and credits it with the forced requests made before it |
| `Coordinator.RefreshCoordinator.RetryDelay` | internal/distribution/snapshot/coordinator.go:244-256 | The delay is the minimum of the maximum and the initial backoff times two to the attempt; it stays within both and never overflows 64 bits |
| `CoordinatorProtocol.AcceptedIsNeverLost` | internal/distribution/snapshot/coordinator.go:64-220 | Over every interleaving an accepted target was reached by a published snapshot or is covered by a pending watermark, and the queue keeps its capacity |
| `CoordinatorProtocol.ForcedRefreshIsReal` | internal/distribution/snapshot/coordinator.go:120-212 | A forced request counts as done only after a refresh that began after it has succeeded |
| `CoordinatorProtocol.BlockedRunnerIsWoken` | internal/distribution/snapshot/coordinator.go:131-242 | A blocked writer loop with work outstanding has a token to take or a caller about to leave one |
| `Watch.WatchHub.Publish` | internal/distribution/snapshot/watch.go:76-97 | Queues the event where there is room; drains, marks, closes and drops the subscriber otherwise; nothing without a snapshot; a step of the state machine |
| `Watch.WatchHub.Subscribe` | internal/distribution/snapshot/watch.go:55-67 | Within the subscriber limit a new channel starts with the current snapshot, or with a resync request when there is none; a step of the state machine |
| `Watch.NoSilentGap` | internal/distribution/snapshot/watch.go:55-111 | Each channel carries its first event and every publication since, or a cancelled prefix, or a prefix and one final resync; generations never fall, channels close at most once, limits hold |
| `Watch.DrainedSubscriberIsCurrent` | internal/distribution/snapshot/watch.go:55-97 | A subscriber that has emptied an open channel knows the newest published generation |
| `Hints.HintReceiver.Notify` | internal/distribution/snapshot/hint.go:62-98 | Checks, prunes, deduplicates, submits, remembers: which outcome and which cache each case leaves |
| `Hints.AcknowledgedWasSubmitted` | internal/distribution/snapshot/hint.go:62-120 | In any run an acknowledged hint had its targets accepted now, or an unexpired call with its event id had; the cache keeps its limit |
| `Hints.OnlyEarliestIsForgotten` | internal/distribution/snapshot/hint.go:108-120 | An unexpired event is forgotten only when an accepted one needs its place in a full cache, at most one at a time, and none that is kept expires earlier |
| `HintProtocol.AcknowledgedIsOwned` | internal/distribution/snapshot/hint.go:62-98 | With the coordinator's own Submit in place and anything else happening there, also between its two halves: an acknowledged hint is backed by a submission for its event, its own or an unexpired one, and at every later moment each target of it is reached by a published snapshot or covered by a pending watermark |

## Left out

- HTTP, gRPC, Kitex, the web console, metrics, shutdown and authentication: plumbing without a deep invariant.
- Order headers (release number, idempotency key, description, template and release type codes, request digest): checked
  for presence only and never read again by the operations modelled.
- Preserved sensitive fields, auto-fill and option selection of the release service: input massaging before the order.
  It runs on a compensating order as on any other, and an auto-fill rule can then change the data to restore.
- JSON decoding of effects and templates: a template document arrives decoded, with undecodable parts marked; the
  strict-field, type and count rules are modelled.
- Revisions, counters and lease revisions are unbounded naturals: wrap-around of 64-bit counters is not modelled. The
  retry delay is the exception, where 64-bit arithmetic is part of the claim.
- Records with nil data and nil authority maps: their error branches are not modelled.
- SQL isolation and locking. Of the table constraints only those on an item's states and on a rule's action and content
  are modelled; the other checks hold of every row the modelled code writes, and uniqueness across orders (active
  conflict keys, numbers) is left out.
- Environment-wide rules (empty stage) in the stored configuration of an order's scope: the rule compiler never makes one.
- Effective, activation and expiry times of rules: evaluation does not read them.
- Error texts: errors are kinds.
- The page of outbox events, diagnostics, and collection reads that wait for a revision (`GetCollections`): thin wrappers
  over what is modelled.
- SDK callbacks after publication, tickers and reconnects.
- `Relay.RunOnce` runs in one process with other workers' writes given between deliveries; the fencing over all
  interleavings is in `OutboxProtocol`.
- RollbackRun.RollbackUndoesRun: says nothing about orders whose configuration another writer has changed; there the walk reports drift.
- CompensationRun.RunCanBeCompensated: planning and creating a compensation are two transactions in the code and one
  moment here; creation repeats the checks on what it then finds.
- Watch.WatchHub.Publish: an event is identified by its generation; the version list it carries is not modelled.
- Coordinator.RefreshCoordinator.Submit: the class runs a call without interference; interleavings are in `CoordinatorProtocol`.
- SdkClient.Client.Refresh: the digest's textual form (64 lower-case hex digits) is not checked, digests being values.

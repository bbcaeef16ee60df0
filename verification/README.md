# Verification of the deployment cost reporter

A Dafny model of the four parts of the CloudFormation cost reporter whose correctness does not
follow from reading one function, and proofs about them. `dafny verify dfyconfig.toml` checks
everything.

**Conditions and values** (`Templates`, `Denotation`, `Fixpoints`, `BooleanRuns`, `Branches`,
`IntrinsicLaws`, `Evaluator`, `PropertyWalk`).
A template's Conditions block is read as equations over three truth values (true, false,
unknown). `Cond` and `Val` say what a node means given what is known; they have no memo, no stack
and no order. Knowing more never changes an answer, so every template has a least solution
(`Least`). The evaluator as it runs, with its memo table and its stack of conditions in progress,
terminates on every template. Any answer it resolves holds in *every* solution of the equations,
whatever was evaluated before. A condition that reaches no cycle has one solution, and the
evaluator computes exactly it, whatever the rest of the template is like. On a cycle the memo makes
unresolved answers depend on what was asked for first: `BooleanRuns.OrderMatters` has two conditions
of which one is false or unresolved depending on the order. The cycle cut alone would lose nothing:
without the memo every answer is the least solution's (`CutIsExact`). The lenient property walk
runs on the evaluator's memo and stack. When no two intrinsics of a tree share a path, a clean sink
means that the value is right, and where no cycle can be reached the sink is clean exactly when strict
resolution succeeds. What the evaluator computes is pinned down from the template as well: replacing
every Fn::If on a known condition by the branch it selects, at any depth, leaves all values as they
are (`DecidedKeepsValue`), and each intrinsic has a law of its own (`IntrinsicLaws`). With shared paths a later entry can hide a failure; `SinkTellsIff` says exactly
when.

**Delivery** (`Handler`, `Traces`, `Protocol`, `NoLoss`, `Recovery`, `Exclusion`, `Delivery`). `Handler.Advance` is
the handling of one message as an automaton over its calls and their replies; the handler code is
proved to follow it. `Protocol` runs any number of such invocations against one claim table and one queue, with
crashes, redelivery, ambiguous writes, an unreachable store and skewed clocks. Every run keeps, for
every key ever sent, either its delivered outcome or a message that nobody is about to delete; and
from every state a run reaches, each message can still be brought to its end within the length of a
lease (`EveryMessageCanEnd`). A settled key was accepted by every destination unless its analysis had
nothing to report (`SettledMeansPublished`). `Traces` lists the complete handlings of a message, call by call. If
the store answers and invocations end in time, one invocation at a time handles a key, rows of
others are never touched, completion is final, and without a failed attempt no destination gets a
report twice. `Delivery` runs the handler on the analyzer and its state table: a stack's row changes
only after every destination accepted the report, or when there is nothing to publish. The 30
seconds between timeout and lease absorb clock skew up to 14.5 seconds.

**Money** (`Money`, `Snapshots`, `Diffs`, `ReportLists`, `Reconciliation`, `Engine`, `PriceLaws`,
`NestedStacks`, `StackTree`, `Pipeline`, `StateStore`, `Analysis`, `Convergence`, `Reports`,
`ChangeSets`). Pricing, snapshots, diff and stored history.
`PriceLaws` says what a resource and a stack cost from the catalog, `ReportLists` which resources a
report lists from the two snapshots, `StackTree` what is collected from a tree of nested stacks. The exact accounting identity has a term the docstring of `reconciles` does not mention: the drift of resources counted
as unchanged, which is strictly below one cent each. So the self-check in a report can fail
although nothing was lost or counted twice (`DriftBreaksReconciles`); `ReconcilesIff` says exactly
when it passes. The walk through nested stacks supplies unique IDs, the engine supplies "unpriced
means free", and with these the bound holds for every report and telescopes over whole histories,
through the guarded store, from creation to deletion. The guard orders timed saves and retirements.
A save without an event time writes an explicit null, which no later guard gets past: after it every
timed write is ignored, and `save` returns normally without storing (`SavedIff`, `UntimedSaveBlocks`).
Stack events do not converge in every order: a deletion that finds no row retires nothing, so one that
overtakes all deployments of its stack is lost and the stack ends as a live one (`EarlyDeletionIsLost`).
In all other cases, for timed events and rows that are retained, the latest event wins
(`LatestShowsIff`). `Reports` says which events are passed over as late and how far apart the published
net changes and the bill can get when small ones go unreported.

**Prices** (`PriceCache`, `PriceSync`, `SyncLaws`). Whatever sync runs do between two steps of a reader, its
lookups answer what the table holds, and held at activation, for the generation it adopted; a run that
never activates leaves no trace in any reader, and one that activates is read back: a lookup finds the
last price it put under the key, and none exactly when it put none (`PublishedPricesAreRead`).
Grouping the fetches leaves the same cache as fetching for each rule separately; `SyncLaws` says from
the price list which keys have a price and which price that is.

Prices are exact reals. A table call has three outcomes: it worked, it was lost, or it was applied
and reported as failed. What the outside replies is arbitrary in every proof.

## Model

| member | source | states |
|---|---|---|
| Templates.JoinUndoesSplit | src/resolver/resolver.py:605-655 | joining the pieces of a split with the same non-empty delimiter gives the string back |
| Templates.SplitPiecesFree | src/resolver/resolver.py:637-655 | no piece of a split contains the delimiter, so the split is maximal |
| Denotation.JoinOfSplit | src/resolver/resolver.py:605-655 | Fn::Join of Fn::Split of any resolvable source resolves to that source's string |
| Denotation.SelectPicksIntended | src/resolver/resolver.py:557-603 | Fn::Select gives the member at the index among those not dropped as NoValue, from the end when negative, and nothing when a member is unresolved or the index out of range |
| Branches.IfTakesItsBranch | src/resolver/resolver.py:445-488 | Fn::If is its second argument under a true condition, its third under a false one, and nothing under an unknown one |
| Branches.DecidedTakesBranch | src/resolver/resolver.py:445-488 | the pruned tree replaces an Fn::If on a decided condition by the pruned branch |
| Branches.DecidedKeepsValue | src/resolver/resolver.py:445-488 | pruning every decided Fn::If, at any depth of a property tree, changes no value |
| IntrinsicLaws.LiteralsStand | src/resolver/resolver.py:226-301 | a tree without intrinsics resolves to itself |
| IntrinsicLaws.ReferencesGiveParameters | src/resolver/resolver.py:344-391 | Ref gives the pseudo parameter or parameter of that name, and nothing for any other name |
| IntrinsicLaws.NoValueIsDropped | src/resolver/resolver.py:276-301 | a list with AWS::NoValue in it resolves to the list without it |
| IntrinsicLaws.NamedCondition | src/resolver/conditions.py:104-148 | Condition gives what the named condition is known to be |
| IntrinsicLaws.NotLaw | src/resolver/conditions.py:171-182 | Fn::Not turns true into false, false into true, and leaves unknown unknown |
| IntrinsicLaws.AndOrLaw | src/resolver/conditions.py:184-223 | Fn::And is true exactly when all operands are, false exactly when one is; Fn::Or the other way round |
| IntrinsicLaws.EqualsLaw | src/resolver/conditions.py:150-169 | Fn::Equals is unknown exactly when a side is unresolved, true of equal values, and the same both ways round |
| IntrinsicLaws.EqualTexts | src/resolver/conditions.py:27-34 | strings, numbers, booleans and null are equal to a string exactly when they print as it |
| IntrinsicLaws.FindInMapFinds | src/resolver/resolver.py:392-443 | Fn::FindInMap gives the entry under its three keys, with or without a default |
| IntrinsicLaws.FindInMapMisses | src/resolver/resolver.py:392-443 | with an entry missing it gives the default, and nothing without one |
| IntrinsicLaws.SubLaw | src/resolver/resolver.py:492-555 | Fn::Sub is its template with each ${name} replaced by what the name refers to, and ${!name} unescaped |
| IntrinsicLaws.SubWithVariables | src/resolver/resolver.py:492-555 | the same with variables, which come before parameters |
| IntrinsicLaws.Base64Law | src/resolver/resolver.py:657-667 | Fn::Base64 encodes the value of its argument |
| Fixpoints.CondMono | src/resolver/conditions.py:104-223 | a boolean node's answer depends only on the conditions it may ask for, and never changes when more of them become known |
| Fixpoints.ValMono | src/resolver/resolver.py:209-301 | the same for every value node, mappings and lists included |
| Fixpoints.ApplyMono | src/resolver/resolver.py:305-603 | the same for every intrinsic, a mapping default and an Fn::If branch included |
| Fixpoints.KleeneMono | src/resolver/conditions.py:190-223 | And/Or settle on a decisive operand whatever the unknown ones turn out to be |
| Fixpoints.Least | src/resolver/conditions.py:66-102 | every template, cyclic or not, has a solution of its condition equations |
| Fixpoints.LeastIsLeast | src/resolver/conditions.py:66-102 | what the least solution knows holds in every solution |
| Fixpoints.AcyclicUnique | src/resolver/conditions.py:66-102 | without cycles through conditions, Fn::If and Fn::Equals the equations have one solution |
| Fixpoints.GroundedUnique | src/resolver/conditions.py:66-102 | a condition that reaches no cycle has the same value in every solution, whatever the rest of the template is like |
| Evaluator.NoCycle | src/resolver/conditions.py:79-92 | a condition that reaches no cycle is never already in progress when it is asked for |
| Evaluator.ConditionEvaluator.constructor | src/resolver/conditions.py:52-60 | starts with nothing known and nothing in progress |
| Evaluator.ConditionEvaluator.Evaluate | src/resolver/conditions.py:66-102 | a resolved answer is the least solution's; where no cycle can be reached every answer is; the stack is restored, cached entries never change, and a defined condition not in progress is cached with its answer |
| Evaluator.ConditionEvaluator.EvaluateExpression | src/resolver/conditions.py:104-188 | agrees in the same way with the meaning of the expression |
| Evaluator.ConditionEvaluator.EvalJunction | src/resolver/conditions.py:190-223 | the short-circuiting loop agrees with three-valued And/Or over all operands |
| Evaluator.ConditionEvaluator.ResolveArg | src/resolver/resolver.py:209-245 | strict resolution agrees with the meaning of the node |
| Evaluator.ConditionEvaluator.ResolveMapping | src/resolver/resolver.py:247-274 | strict resolution of a mapping: all members, NoValue dropped, order kept, or unresolved |
| Evaluator.ConditionEvaluator.ResolveSequence | src/resolver/resolver.py:276-301 | the same for a list |
| Evaluator.ConditionEvaluator.ResolveLocals | src/resolver/resolver.py:508-520 | the variables of Fn::Sub resolve together or not at all |
| Evaluator.ConditionEvaluator.FindInMapKeys | src/resolver/resolver.py:405-417 | the three lookup keys resolve together or not at all |
| Evaluator.ConditionEvaluator.ResolveDefault | src/resolver/resolver.py:419-423 | the fourth argument of Fn::FindInMap gives the default, and only under its own key |
| Evaluator.ConditionEvaluator.Dispatch | src/resolver/resolver.py:305-340 | every intrinsic agrees with its meaning in the least solution, however conditions and values call each other; the meaning itself is fixed by Branches and IntrinsicLaws |
| Evaluator.ConditionEvaluator.DispatchList | src/resolver/resolver.py:397-635 | the same for the intrinsics that take lists: Fn::If, Fn::FindInMap, Fn::Sub, Fn::Select, Fn::Join, Fn::Split |
| Evaluator.ConditionEvaluator.DetermineInclusion | src/resolver/resolver.py:184-205 | a resource is only excluded when its condition is false in every solution |
| BooleanRuns.OrderMatters | src/resolver/conditions.py:72-102 | on a cycle the memo can leave a condition unresolved that the equations determine, depending on what was asked for first |
| BooleanRuns.CutIsExact | src/resolver/conditions.py:79-92 | cutting cycles at the conditions in progress, without caching, finds exactly what the equations determine, on every template |
| BooleanRuns.UnmemoizedIsExact | src/resolver/conditions.py:66-102 | the evaluator's run without its cache answers what the equations say, for templates of And, Or and Not |
| PropertyWalk.WalkIsStrict | src/resolver/resolver.py:226-301 | for given conditions, strict resolution succeeds exactly when the lenient walk logs no unresolved intrinsic, with the same value |
| PropertyWalk.WalkDistinct | src/resolver/resolver.py:247-301 | with plain keys no two intrinsics of a property tree are recorded under one path |
| PropertyWalk.ItemsApart | src/resolver/resolver.py:284-285 | paths into different list items never coincide |
| PropertyWalk.FieldsApart | src/resolver/resolver.py:255-257 | paths into differently named properties never coincide |
| PropertyWalk.StrictIffNothingUnresolved | src/resolver/resolver.py:226-301 | when no two intrinsics share a path, strict resolution succeeds exactly when the sink shows no unresolved path, and then both agree |
| PropertyWalk.SinkTellsIff | src/resolver/resolver.py:226-301 | a clean sink means that strict resolution succeeds, and conversely, exactly unless every failure is hidden by a later entry for its path |
| PropertyWalk.PlainTreesTell | src/resolver/resolver.py:247-285 | keys without dots and brackets keep the paths apart |
| PropertyWalk.PathsAreSyntactic | src/resolver/resolver.py:247-301 | whether two intrinsics share a path depends on the property tree alone |
| Evaluator.ConditionEvaluator.ResolveLenient | src/resolver/resolver.py:226-245 | the lenient walk on the evaluator's own memo: each logged outcome is right or unresolved, only unresolved members are missing, and none where no cycle can be reached |
| Evaluator.ConditionEvaluator.ResolveProperties | src/resolver/resolver.py:130-170 | with distinct paths a clean sink means that the properties have this value in every solution, on cyclic templates too, and that it is the value of the properties with every decided Fn::If replaced by its branch |
| PropertyWalk.DottedKeyHidesFailure | src/resolver/resolver.py:256-268 | a dotted key that makes two paths coincide, where the sink looks clean although a property was dropped |
| Handler.PhaseHistory | src/runtime/handlers.py:297-313 | what must have happened before each phase of handling a message |
| Handler.PublishBeforeCommit | src/runtime/handlers.py:356-382 | a reported outcome is committed only after every destination accepted the report |
| Handler.Invocation.Claim | src/runtime/idempotency.py:103-140 | acquired on success and on an unavailable store; complete or busy only after inspecting the row |
| Handler.Invocation.ExistingClaim | src/runtime/idempotency.py:142-160 | a vanished, statusless or completed row reads as complete, anything else as busy |
| Handler.Invocation.Publish | src/runtime/publisher.py:213-227 | every destination is tried once, in order, and any failure makes the whole publish fail |
| Handler.Invocation.Deliver | src/runtime/handlers.py:356-382 | publish, then commit; skipped outcomes only commit |
| Handler.Invocation.Handle | src/runtime/handlers.py:297-313 | the calls made are those of the protocol, and it raises exactly when the message must be retried |
| Handler.AnalyzerHandler | src/runtime/handlers.py:189-214 | each record is handled by a complete trace, and the failures are computed from how these ended |
| Traces.FinishedIff | src/runtime/handlers.py:277-382 | a handling consists of exactly these calls: a refused claim is settled by the row read; an acquired one is analysed, a report is offered to every destination in order, and only if all accept is the state committed; the claim is completed exactly on success and given up otherwise |
| Traces.FailuresAre | src/runtime/handlers.py:189-214 | the failures are the records that raised and no others, each once, in the order of the batch |
| Delivery.Deliver | src/runtime/handlers.py:356-382 | a rejected report leaves every row as it was; otherwise the pending transition is applied |
| Delivery.HandleStackEvent | src/runtime/handlers.py:277-312 | the row changes only after all destinations accepted or nothing was to report, and then to what the event says; the report depends on the row and the event alone |
| Delivery.HandleChangeSet | src/runtime/handlers.py:315-353 | an estimate is the diff against the stored inventory and changes no row |
| NoLoss.StepStructure | src/runtime/handlers.py:189-214 | no step lets two live invocations hold a message or loses one that is held |
| NoLoss.GetSafe | src/runtime/idempotency.py:142-160 | acknowledging on a vanished row leaves another message for the key |
| NoLoss.FinishSafe | src/runtime/idempotency.py:162-196 | releasing a row leaves the message of the failed attempt on the queue |
| NoLoss.StepInvariant | src/runtime/idempotency.py:103-197 | every step keeps a message for every key whose outcome was not delivered |
| NoLoss.NoReportIsLost | src/runtime/handlers.py:297-313 | in every run a key that was sent is delivered or keeps a message that no live invocation will delete |
| Recovery.EveryMessageCanEnd | src/runtime/idempotency.py:103-196 | from every state that any run reaches, each message on the queue can be brought to its end within the length of a lease: off the queue, its key settled, and if it was not before, its report accepted by every destination |
| Recovery.StepLeasesEnd | src/runtime/idempotency.py:104-128 | no step writes a lease that ends later than 330 seconds from now, give or take the clocks |
| Recovery.SettledMeansPublished | src/runtime/handlers.py:356-382 | a key whose events always had something to report is only settled with its report accepted by every destination |
| Exclusion.LeaseOutlives | src/runtime/idempotency.py:104-128 | no claim succeeds on a key while the invocation that holds it can still be running |
| Exclusion.StepWorkers | src/runtime/idempotency.py:103-197 | every reliable step keeps each working invocation's own unexpired row in place |
| Exclusion.MutualExclusion | src/runtime/idempotency.py:103-140 | at most one invocation handles a key at any time |
| Exclusion.OnlyOwnRow | src/runtime/idempotency.py:162-196 | the unconditional delete and update only ever hit the invocation's own row |
| Exclusion.CompletedIsTerminal | src/runtime/idempotency.py:162-179 | a completed row stays completed and is never claimed again |
| Exclusion.AtMostOnce | src/runtime/handlers.py:304-312 | without a failed or crashed attempt no destination accepts a key's report twice |
| Money.SameCent | src/pricing/models.py:38-40 | amounts that round to one cent differ by strictly less than a cent |
| PriceLaws.RoundsToNearest | src/pricing/models.py:38-40 | rounding goes to the nearest cent, from the middle away from zero, and alike on both sides of it |
| PriceLaws.DiscountLeaves | src/pricing/models.py:43-56 | a discount of d percent leaves (100 - d)/100 of the cost, and never raises it |
| Snapshots.ByIdUnique | src/state/models.py:269-271 | the dictionary by logical ID keeps every resource, in order, when IDs are unique |
| Diffs.SortBySorts | src/state/diff.py:437-440 | the report's lists are sorted by logical ID and lose or gain nothing |
| Diffs.CompareCurrent | src/state/diff.py:400-424 | the first loop files every current resource as the specification function does; ReportLists says from the two resources which list that is |
| Diffs.CompareDeparted | src/state/diff.py:426-435 | the second loop files every departed resource as retained or removed |
| Diffs.DiffSnapshots | src/state/diff.py:361-442 | the diff as specified, a baseline without history unless something was created; its lists are those of ReportLists |
| Diffs.DiffDeletion | src/state/diff.py:445-456 | each resource of a deleted stack is listed once, retained or removed by its policy, and none as added, changed or unchanged |
| ReportLists.ChangedIff | src/state/diff.py:400-424 | a resource is listed as changed exactly when it is in both snapshots, its components, its cost to the cent or its physical ID differ, and it is not a replacement that retains its predecessor |
| ReportLists.AddedIff | src/state/diff.py:400-412 | it is listed as added exactly when it is new, or replaces a predecessor that its update policy retains |
| ReportLists.RetainedIff | src/state/diff.py:406-435 | a previous resource is listed as retained exactly when it was so replaced, or is gone under a retaining deletion policy |
| ReportLists.RemovedIff | src/state/diff.py:426-435 | it is listed as removed exactly when it is gone under any other deletion policy |
| ReportLists.UnchangedCounts | src/state/diff.py:414-424 | the number of unchanged resources is the number of IDs in both snapshots for which none of this holds |
| ReportLists.CreatedIsAdded | src/state/diff.py:379-395 | a creation without history lists everything as added |
| ReportLists.RetainPolicies | src/state/models.py:143-157 | a policy retains exactly when it reads retain, in any case and with any white space around it |
| Reconciliation.DeletionSaves | src/state/diff.py:445-456 | a deletion's net change is what is retained less the whole former total |
| Reconciliation.CurrentSplit | src/state/diff.py:400-424 | the current total is split over the lists without loss |
| Reconciliation.PreviousSplit | src/state/diff.py:426-435 | so is the previous total |
| Reconciliation.MatchedIsKept | src/state/diff.py:397-404 | each previous resource is matched by at most one current resource |
| Reconciliation.Reconciliation | src/state/diff.py:192-207 | the change of the total plus what is retained equals the net change plus the drift of unchanged resources |
| Reconciliation.ReconciliationBound | src/state/diff.py:192-207 | the unexplained part is 0 without unchanged resources, else strictly below one cent for each |
| Reconciliation.ReconcilesIff | src/state/diff.py:192-207 | the self-check passes exactly when subtracting the drift does not move the bill's change, computed from the two snapshots, to another cent |
| Reconciliation.ReconcilesWhenExact | src/state/diff.py:192-207 | it passes for creations without history, deletions, baselines, and when unchanged resources cost the same |
| Reconciliation.DriftBreaksReconciles | src/state/diff.py:192-207 | it can fail although no resource was lost or counted twice |
| Engine.PricedIff | src/pricing/engine.py:152-252 | a resource is priced exactly when it is deterministic and some component has a price; otherwise it costs nothing; what a priced one costs is PriceLaws.ResourceCosts |
| PriceLaws.ResourceCosts | src/pricing/engine.py:152-252 | the list cost is the sum over the components with a price of unit price times quantity, and the cost is that less the discount |
| PriceLaws.OneUnitCostsItsPrice | src/pricing/engine.py:226-252 | one component of quantity 1 costs its unit price |
| PriceLaws.CostScales | src/pricing/engine.py:226-252 | multiplying all quantities multiplies the cost |
| PriceLaws.CostsAddUp | src/pricing/engine.py:178-184 | the costs of two component lists add up to that of their concatenation |
| PriceLaws.ConfidenceIs | src/pricing/engine.py:188-200 | the confidence is unavailable without any price, medium when a price is missing or something is excluded, else high |
| PriceLaws.StackCosts | src/pricing/engine.py:139-150 | the inventory and the snapshot made of it cost the sum of what the included resources cost |
| Engine.SnapshotOfInventory | src/state/models.py:372-412 | the snapshot has the inventory's total, one entry per priced resource, and unpriced ones cost 0 |
| Engine.EngineReconciles | src/pricing/engine.py:139-150 | a diff against a freshly priced snapshot meets the bound |
| Engine.CoverageOf | src/pricing/models.py:241-266 | the counts are the sizes of five buckets that partition the resources |
| Engine.UnpricedOf | src/state/diff.py:228-249 | the three lists hold exactly the resources that coverage counts as gaps |
| PriceLaws.CoverageCounts | src/pricing/models.py:241-266 | each count is the number of resources of its pricing class; a deterministic resource without a price counts as unresolved |
| PriceLaws.BucketHolds | src/state/diff.py:216-249 | each list holds exactly the resources of its kind |
| NestedStacks.CollectOwn | src/analyzer/analyzer.py:511-538 | the stack's own resources under prefixed keys as specified; StackTree says from template and summaries which these are |
| NestedStacks.MarkProposed | src/analyzer/analyzer.py:543-563 | a marker for every proposed nested stack without a readable template |
| NestedStacks.MarkDepthLimit | src/analyzer/analyzer.py:571-585 | a marker for every nested stack beyond the depth limit |
| NestedStacks.CollectChildren | src/analyzer/analyzer.py:587-621 | the contents of every readable nested stack, a marker for the unreadable ones |
| NestedStacks.CollectStack | src/analyzer/analyzer.py:481-623 | the whole walk as specified, which ends on cyclic nesting too; StackTree says from the stacks what it collects |
| NestedStacks.CollectDistinct | src/analyzer/analyzer.py:494-496 | keys of different collected entries never clash when logical IDs contain no slash |
| NestedStacks.PhysicalIdsWithin | src/analyzer/analyzer.py:533-538 | every physical ID belongs to a collected entry |
| NestedStacks.NothingOmitted | src/analyzer/analyzer.py:571-621 | every existing nested stack is represented by its contents or by a marker |
| StackTree.OwnResourceIff | src/analyzer/analyzer.py:511-538 | a resource of the stack itself is collected exactly when the template declares it and, when only existing ones count, a summary says that it is present |
| StackTree.CollectedIff | src/analyzer/analyzer.py:481-623 | exactly these entries are collected: down every chain of present, readable nested stacks within the depth limit, the declared and present resources and the markers of its last stack |
| StackTree.PhysicalIdsIff | src/analyzer/analyzer.py:530-538 | a physical ID is recorded exactly for the collected resources that have one, and it is the one their stack records |
| Pipeline.ResolveAll | src/resolver/resolver.py:119-205 | every resource resolved with one memo; excluded only when its condition is false in every solution |
| Pipeline.LeftOutIff | src/pricing/engine.py:139-150 | a resource missing from the priced inventory has a false condition, and exactly those are missing if no cycle is reached |
| Pipeline.AnalysedIsGood | src/analyzer/analyzer.py:276-290 | every stored snapshot has unique IDs and free unpriced resources |
| Pipeline.ReportsReconcile | src/analyzer/analyzer.py:263-300 | collect, price, remember and diff together meet the bound, whatever is deployed and whatever prices are |
| StateStore.StampOrder | src/state/store.py:156-166 | comparing fixed-format timestamps as strings compares points in time |
| StateStore.SavedIff | src/state/store.py:156-173 | a timed save leaves the row at least as recent exactly when the row was not written without a time |
| StateStore.UntimedSaveBlocks | src/state/store.py:156-197 | after a save without a time no timed save or retirement changes the row |
| StateStore.TimeNeverDecreases | src/state/store.py:156-166 | a row's event time never goes back |
| StateStore.GreatestWins | src/state/store.py:156-249 | in any order of table writes the row ends as the one with the greatest event time left it |
| Convergence.HandledIsFinal | src/analyzer/analyzer.py:84-93 | where timestamps sort as the instants they denote, the staleness test skips only what the table's guard would refuse |
| Convergence.LatestShowsIff | src/analyzer/analyzer.py:166-349 | in any delivery order the row ends as the latest event leaves it, exactly unless that is a deletion that found no row |
| Convergence.DeliveriesConverge | src/state/store.py:156-249 | all deliveries agree when the row exists or the latest event is a deployment |
| Convergence.EarlyDeletionIsLost | src/analyzer/analyzer.py:182-208 | a deletion delivered before the only deployment of its stack leaves the row of a live stack |
| Convergence.RetirementKeeps | src/state/store.py:219-249 | a retired row keeps the inventory the deletion found |
| Convergence.LatestInventoryKeptIff | src/state/store.py:219-249 | that is the latest deployment's inventory exactly when it was delivered before the deletion, or the row held the same one |
| Convergence.InventoryDependsOnOrder | src/state/store.py:219-249 | one deployment and the deletion keep the same inventory in both orders exactly when the deployment did not change it |
| Reports.PassedOverIff | src/analyzer/analyzer.py:84-93 | in any delivery order an event is passed over exactly when one of a later instant was delivered before it and had a row to work on |
| StateStore.RepeatedSaveIsSafe | src/state/store.py:174-195 | repeating a save after anything else was delivered changes nothing |
| StateStore.DynamoStateStore.Load | src/state/store.py:97-114 | a failed read is an error, never an absent history |
| StateStore.DynamoStateStore.Save | src/state/store.py:116-197 | whatever the table did and other workers write before the verifying read, a normal return of a timed save means the row is at least as recent, or was written without a time; the row is one of the specified ones, and no other row changes |
| StateStore.DynamoStateStore.Invalidate | src/state/store.py:130-154 | an oversized snapshot leaves no history behind, or raises |
| StateStore.DynamoStateStore.Delete | src/state/store.py:199-249 | retires or deletes the row, never on behalf of an older event |
| Analysis.Analyzer.AnalyzeCurrentState | src/analyzer/analyzer.py:292-349 | no row changes; reported or suppressed, the pending snapshot is the one that was diffed |
| Analysis.Analyzer.AnalyzeDeletion | src/analyzer/analyzer.py:166-247 | the stored inventory is what the deletion is reported against |
| Analysis.Analyzer.Analyze | src/analyzer/analyzer.py:141-162 | which delta is reported and which transition is pending, for deployments and deletions |
| Analysis.Analyzer.AnalyzeChangeSet | src/analyzer/analyzer.py:353-477 | an estimate never has a pending transition |
| Analysis.Analyzer.Commit | src/analyzer/analyzer.py:122-137 | the pending transition is applied once, and a commit that raised can be repeated |
| Analysis.Telescope | src/state/diff.py:168-170 | deltas that each meet the bound add up over a history |
| Analysis.HistoryConserves | src/analyzer/analyzer.py:280-349 | over a history the net changes sum to the change of the total plus everything retained, within a cent per unchanged resource per step |
| Analysis.LifeCycleConserves | src/analyzer/analyzer.py:166-349 | from creation to deletion the net changes sum to what was retained, up to the same bound |
| Analysis.BaselineConserves | src/state/diff.py:379-395 | a history that starts with a baseline conserves from the baseline's total on |
| Reports.UnreportedIff | src/analyzer/analyzer.py:326-338 | an event that is not passed over goes unreported exactly when it is a deployment with history, or a creation, that moved the bill by less than the threshold and adds up to the cent |
| Reports.ReportsExplain | src/analyzer/analyzer.py:280-349 | over a history the published net changes sum to the change of the total plus everything retained, within a cent per unchanged resource and the threshold per unreported step |
| ChangeSets.MarkReplacements | src/analyzer/analyzer.py:429-433 | exactly the announced replacements get a physical ID of their own |
| ChangeSets.EstimateReconciles | src/analyzer/analyzer.py:426-449 | marking replacements moves no figure, and an estimate meets the bound |
| ChangeSets.ReplacementsShow | src/state/diff.py:400-424 | no replacement announced for a deployed resource is counted as unchanged, even at the same price |
| ReportLists.FirstEstimate | src/analyzer/analyzer.py:426-449 | an estimate without history is the total of everything when the stack was never deployed, and a baseline that lists nothing otherwise |
| PriceCache.PutElsewhere | src/pricing/dynamo_catalog.py:160-176 | writing one generation leaves every other one alone |
| PriceCache.DynamoPriceCatalog.Refresh | src/pricing/dynamo_catalog.py:54-74 | adopts the active generation and forgets everything memoised under another |
| PriceCache.DynamoPriceCatalog.Lookup | src/pricing/dynamo_catalog.py:76-118 | answers what the table holds for the adopted generation, memoised or not; that this is what was put there is PublishedPricesAreRead |
| PriceCache.NextOk | src/pricing/dynamo_catalog.py:54-188 | every step of a reader or a sync run keeps memo and table coherent and activated generations frozen |
| PriceCache.LookupReadsAdoptedGeneration | src/pricing/dynamo_catalog.py:76-118 | in every interleaving a lookup equals a direct read of the adopted generation, as it was at activation |
| PriceCache.RowsHoldPuts | src/pricing/dynamo_catalog.py:160-176 | the table holds under each generation and key the last price that was put there |
| PriceCache.PublishedPricesAreRead | src/pricing/dynamo_catalog.py:54-118 | after a run put its prices and activated its generation, a reader that adopts it finds the last price put under a key, and none exactly when none was put |
| PriceCache.SyncedPricesAreRead | src/runtime/handlers.py:438-478 | after a completed sync a reader that adopts its generation finds the last price that any region lists for a key, and none exactly when no region lists it |
| PriceCache.AnswersAreStable | src/runtime/handlers.py:429-478 | between refreshes nothing that sync runs do changes an answer |
| PriceCache.UnhealthyRunIsInvisible | src/runtime/handlers.py:438-478 | erasing all steps of a run that never activates changes neither a reader nor any of its answers, refreshes included |
| PriceCache.PriceTable.RunPriceSync | src/runtime/handlers.py:429-478 | the run's calls are steps of the interleaved model, and it activates only when all regions are healthy and completely written |
| PriceCache.PriceTable.WriteRegion | src/pricing/dynamo_catalog.py:140-176 | writes the batch, or a prefix of it when it fails, under its own generation only |
| PriceSync.Grouped | src/pricing/sync.py:561-566 | every rule is in the group of its own fetch, groups in order of first appearance |
| PriceSync.SyncRun.WritePrice | src/pricing/sync.py:528-550 | a write, and a collision exactly when an earlier list price of the key differs |
| PriceSync.SyncRun.SyncRule | src/pricing/sync.py:514-526 | a rule writes exactly when it matches and its key is complete |
| PriceSync.SyncRun.SyncProduct | src/pricing/sync.py:513-553 | one product against every rule of its group |
| PriceSync.SyncRun.SyncEntries | src/pricing/sync.py:502-553 | all products of one fetch, their number, and the first version among them |
| PriceSync.SyncRun.SyncGroup | src/pricing/sync.py:497-557 | one fetch, and the rules that matched nothing in it |
| PriceSync.SyncRun.Run | src/pricing/sync.py:489-559 | the cache of the grouped run; collisions names exactly the keys with two list prices and rules_with_no_matches exactly the names that contributed nothing to some fetch; healthy exactly when something was written, each rule's name contributed and each key has one price |
| PriceSync.GroupedRefinesSeparate | src/pricing/sync.py:489-566 | fetching each group once leaves the cache that fetching for every rule separately leaves |
| PriceSync.OrderOfProductsDoesNotMatter | src/pricing/sync.py:528-539 | without collisions the cache is the same for every order of products |
| PriceSync.HealthyMeansEveryRuleContributed | src/pricing/sync.py:461-468 | in a healthy run every rule whose name is its own within its fetch would have written something on its own |
| PriceSync.ContributedIff | src/pricing/sync.py:497-557 | no rule is reported missing exactly when for each rule some rule of its fetch and name would have written something |
| PriceSync.SharedNameHides | src/pricing/sync.py:499-557 | a rule that matches nothing goes unnoticed beside one of the same fetch and name |
| PriceSync.FirstVersionIs | src/pricing/sync.py:510-511 | the recorded version is that of the first entry that carries one |
| SyncLaws.WrittenIff | src/pricing/sync.py:489-566 | exactly one price is written for each rule and product such that the product is on the list of the rule's filter, has its family, required attributes and fragments and none of its rejected ones, and yields a key |
| SyncLaws.CachedIff | src/pricing/sync.py:489-566 | a key has a cached price exactly when some rule reads one off some product on its list |
| SyncLaws.PricedFrom | src/pricing/sync.py:541-549 | the cached price is that of such a product times the scale of the rule |
| SyncLaws.CachedPrice | src/pricing/sync.py:528-549 | without collisions, and with rules that never share a key, every such product has the cached price |
| SyncLaws.CollisionIff | src/pricing/sync.py:528-539 | a collision is reported exactly when two products that are read for one key differ in list price |

## Left out

- Which conditions stay unresolved once a cycle is reachable: BooleanRuns follows the memo exactly for conditions built with And, Or and Not, not through values.
- Exceptions inside the resolver: an empty Fn::Split delimiter makes Python raise; the model treats it as unresolved. int(), base64 and the text of a mapping are arbitrary functions.
- Reasons, details and provenance of resolved values; parameter coercion; the entry `$condition` that a resource's own condition adds to the sink.
- `retired` on load: the source does not look at it, so a stack ID seen again after its deletion would be diffed against its old inventory; histories end with a deletion.
- Parsing of timestamps in the staleness test: any partial map to instants; comparing one with an offset to one without raises in Python and is not modelled.
- Convergence with no retention: a hard delete leaves no row, so later deliveries start afresh; the order results ask for a positive retention.
- StateStore.DynamoStateStore.Save: rows expiring by TTL are not modelled; untimed and oversized saves reset the row and are outside the convergence results, which is why these ask for timed, storable operations. Analysis.Analyzer.Commit calls it with nobody else writing the row.
- Change set status, template and nested collection in Delivery.HandleChangeSet: the proposed inventory is given; NestedStacks covers its collection.
- InMemoryIdempotencyStore: two sets in one process, without lease or competition.
- Dead-letter queue, message retention and row expiry in Protocol: a message leaves the queue only by being deleted.
- Reading and parsing: CloudFormation and Price List calls, YAML, JSON, gzip, event parsing, price-list parsing, classification tables, platform lookup.
- Rendering, transport, subject lines, logging, metrics, configuration, Slack and email.
- Text of collision messages, the counters of unmatched and skipped products, skip reasons by name, `changed_dimensions`, and list prices next to discounted ones.
- Retain policies are recognised after stripping ASCII white space and lower-casing ASCII letters only.
- The fallback catalog that a price lookup may ask after a miss.
- Cache keys in PriceSync are what `build_query` returns, as a function of the rule; their text format is not modelled.

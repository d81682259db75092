# Stovepipe and its platform: a verified model

A Dafny model of the parts of the repository whose correctness depends on more
than one function at a time, with proofs of what they promise.
`dafny verify dfyconfig.toml` checks all of it.

| Files | What they model |
|---|---|
| `ResourceIds`, `MessageIdentity`, `Bytewise` | Resource ids, intent ids, event ids and the text a speculation path is hashed from |
| `IngestProtocol`, `IngestInvariant`, `IngestBookmark`, `IngestRuns`, `IngestController` | Ingest: any number of calls, process workers and other writers interleaved one store operation at a time, each of which may stop anywhere; and the call itself as the loop and branches of the source, every operation of which is shown to be a step of that protocol |
| `ConsumerLoop`, `ConsumerRuns`, `ConsumerLifecycle` | The queue consumer: dispatcher, partition workers, bounded channels, cancellation, shutdown and its time budget |
| `DeliveryOutcome`, `Redelivery` | Gate, hold, classification and the one call that ends a delivery; and one message over all its deliveries, on its topic and its dead-letter topic |
| `ErrorTrees`, `ErrorProcessor`, `Attribution` | Errors as trees, their classification, and what they attribute a failure to |
| `TargetGraph`, `ImpactDistance`, `ChangedTargets`, `ChangedTargetsWire` | Change impact: reading and merging target graphs, owners, the level-by-level search, the numbered messages |
| `QueueStatus` | Which enablement version covers a commit |
| `Keyset`, `AcceptanceList`, `OpenIssues`, `ProjectStatus` | Listings followed page by page |
| `Lifecycle` | Groups of components: start, rollback, stop |
| `Selection` | What it means for a list to be a selection of another, for the modules that filter |

What is assumed of code that is not modelled: a store's `Create` fails on a
present key; an `Update` goes through exactly when the stored version equals the
expected one; the counter never repeats a value; the topic drops a message whose
id it still retains; a store's `List` returns the first rows strictly beyond the
cursor in key order; ancestry answers are arbitrary, and a partial order only
where a lemma says so; moving a message to its dead-letter topic is one
transaction; page tokens survive their encoding. A store or network call that
fails, and a process that dies, is in the protocol models a step after which a
process does nothing more. A `char` stands for one byte.

Where the code does something other than its documentation says, the model
follows the code:

- `platform/consumer/consumer.go:248-251` says a slow message does not block
  other partitions. It does once that partition's channel is full:
  `DispatcherBlockedExactly` gives the exact condition and
  `SlowPartitionBlocksOthers` a run.
- `platform/consumer/consumer.go:732-737` promises a stop within the budget. The
  budget is an int64 of nanoseconds (`BudgetIsTheTimeoutExactly`), and a loop
  that has already exited can be reported as late, exactly when the budget is
  used up before its turn (`FinishedLoopReportedExactly`).
- The error processor's verdict decides whether a delivery is retried, except
  where the error was already retryable before it was processed:
  `RetryTestAgreesExactly` gives the condition,
  `UserWrapAroundRetryableIsRetried` and `GroupOrderCanDecideRetry` the cases.
- A conditional write of the queue row looks at an int32 version, which wraps.
  `UpdateGoesThrough` says exactly when it is fooled; the facts about the
  bookmark are stated while the row has been written at most 2^32 times.

## Model

| member | source | states |
|---|---|---|
| ResourceIds.ValidateAcceptsExactlyMinted | platform/base/id/id.go:24-47 | Validate accepts exactly the strings that FromCounter returns |
| ResourceIds.MintedRoundTrip | platform/base/id/id.go:24-47 | distinct positive counter values have distinct ids, and the id gives the value back |
| ResourceIds.ParseMinted | platform/base/id/id.go:68-77 | parsing succeeds exactly on minted ids and returns the minted value |
| ResourceIds.CompareIsNumeric | platform/base/id/id.go:49-66 | Compare succeeds exactly on two minted ids and is the order of their values |
| ResourceIds.CompareIsShorterFirstThenBytewise | platform/base/id/id.go:49-66 | on minted ids that order is shorter first, then bytewise |
| MessageIdentity.IntentIDInjective | platform/publish/publish.go:110-115 | an intent id determines its entity and every cause segment when they hold no slash |
| MessageIdentity.VersionedEventIDInjective | api/base/hook/event.go:35-43 | a versioned event id determines source, type, subject and version |
| MessageIdentity.UnversionedEventIDInjective | api/base/hook/event.go:45-50 | an unversioned event id determines its parts even if the cause id holds slashes |
| MessageIdentity.EventIDKindsDisjoint | api/base/hook/event.go:35-50 | the two kinds of event id never coincide when source, type and subject hold no slash |
| MessageIdentity.SlashInSubjectCollides | api/base/hook/event.go:35-50 | with a slash in the subject they can |
| MessageIdentity.WritePath | submitqueue/entity/speculation.go:66-77 | the loop builds the text that is hashed: head, then one line per dependency |
| MessageIdentity.PreHashInjective | submitqueue/entity/speculation.go:66-77 | that text determines head and ordered assumptions when ids hold no newline |
| IngestInvariant.InvStep | stovepipe/controller/ingest.go:100-351 | every step of any process keeps: rows and mapping agree, claims stay apart, what each call knows is in the stores; stores only grow |
| IngestBookmark.UpdateGoesThrough | stovepipe/controller/ingest.go:311-327 | a conditional write on an int32 version goes through exactly when the writes since the read are a multiple of 2^32 |
| IngestBookmark.DeliverRaises | stovepipe/controller/process/process.go:94-163 | what the process stage concludes from the rows a delivery finds is true of the bookmark from then on |
| IngestBookmark.BookmarkStep | stovepipe/controller/ingest.go:300-329 | every step keeps the bookmark at or past every published request, and never lowers it |
| IngestBookmark.NameStep | stovepipe/controller/ingest.go:300-329 | every bookmark, stored or read by any process, is empty or the id of a request, with no bound on the number of writes |
| IngestRuns.MappingNeverChanges | stovepipe/controller/ingest.go:205-239 | a claimed mapping never changes, and every later row of that URI has the mapped id |
| IngestRuns.ReturnedIdsAgree | stovepipe/controller/ingest.go:205-239 | two calls that returned, at any two moments of any interleaving, name the same id exactly when they named the same URI |
| IngestRuns.NoOrphanRows | stovepipe/controller/ingest.go:205-269 | in every reachable state each request row is the one its URI maps to |
| IngestRuns.ReturnedMeansInPlace | stovepipe/controller/ingest.go:142-175 | from the return of a call on, its mapping, its row and its published message are there |
| IngestRuns.AtMostOneRetainedMessage | platform/publish/publish.go:55-64 | the topic never retains two messages for one request |
| IngestRuns.PublishedWasInTopic | stovepipe/controller/ingest.go:336-351 | what the other rows call published is exactly what the topic held at that or an earlier moment |
| IngestRuns.MarkNeverMovesBack | stovepipe/controller/ingest.go:300-329 | between any two moments the bookmark does not decrease numerically, whoever else writes the row |
| IngestRuns.BookmarkCoversReturned | stovepipe/controller/ingest.go:300-329 | from the return of a call on, the bookmark is at least its id |
| IngestRuns.NoLostUpdate | stovepipe/controller/ingest.go:311-327 | every write of the queue row changes the bookmark or the other columns, never both |
| IngestRuns.RetriesAreBounded | stovepipe/controller/ingest.go:300-329 | a call has failed in its loop at most as often as the row was written since it began |
| IngestRuns.CallFailsOnlyOnBadCounter | stovepipe/controller/ingest.go:100-185 | a step of a call ends in an error exactly when it mints from a counter value that is not positive, however often the queue row was written |
| IngestRuns.DeliveryFindsBookmark | stovepipe/controller/process/process.go:94-163 | whoever receives a message finds its request, the queue row and a bookmark at or past it |
| IngestRuns.NewestIsNeverSuperseded | stovepipe/controller/process/process.go:201-229 | a superseded request is strictly older than the bookmark, at every later moment |
| IngestRuns.OnlyNewestIsAdmitted | stovepipe/controller/process/process.go:231-296 | the row write that confirms an admission still carries that request as the bookmark |
| IngestRuns.StepDescends | stovepipe/controller/ingest.go:100-351 | each step of a call left alone brings it nearer to its return |
| IngestRuns.CallAloneFinishes | stovepipe/controller/ingest.go:100-185 | from wherever a call stands, left alone it returns within 12 steps with everything in place |
| IngestRuns.RetryHeals | stovepipe/controller/ingest.go:100-185 | after any partial failure a fresh call left alone completes what is missing and returns the id already mapped |
| IngestController.Controller.ResolveID | stovepipe/controller/ingest.go:205-239 | a run of the protocol to the id the URI maps to; it fails only through the counter: never if the URI was mapped before, never if the value drawn is positive and nobody else draws it; with no others about, exactly when the value is unusable, and else the id is the one drawn |
| IngestController.Controller.EnsureRequest | stovepipe/controller/ingest.go:243-269 | always returns the stored row, whoever created it, and is a run of the protocol |
| IngestController.Controller.EnsureQueue | stovepipe/controller/ingest.go:273-296 | always returns the row stored at that moment, whoever created it |
| IngestController.Controller.AdvanceQueueLatestRequestID | stovepipe/controller/ingest.go:300-329 | always succeeds: the retry loop ends because each failed round is somebody else's write, the comparison cannot fail, and it is a run of the protocol |
| IngestController.Controller.PublishProcess | stovepipe/controller/ingest.go:336-351 | publishes under the request id as message id, the last step of the protocol |
| IngestController.Controller.Ingest | stovepipe/controller/ingest.go:100-185 | whatever others do in between, an id is returned only with its mapping, row and message in place; a URI mapped before gets its id again; and the call fails only through the counter, never if the URI was mapped before or the drawn value is positive and nobody else's |
| ErrorTrees.Group | platform/errs/group.go:24-44 | nil if all arguments are; otherwise a group of exactly the ones that are not, in their order |
| ErrorTrees.OutermostInfraIsFound | platform/errs/errs.go:166-178 | along the causes the retry and dependency tests see the outermost infra wrap and no other, and without one go on where the chain ends |
| ErrorTrees.FirstCauseIsFound | platform/errs/errs.go:166-178 | where an error has several causes, the first cause with an infra wrap decides |
| ErrorTrees.TextsOfLayersAndGroups | platform/errs/group.go:44-52 | layers add nothing to a message, and a Group's is its members' joined by a semicolon |
| ErrorProcessor.ClassifyByWalk | platform/errs/processor.go:144-171 | the walk down the causes computes the recursive verdict |
| ErrorProcessor.ProcessError | platform/errs/processor.go:93-142 | the loop over the spine leaves wrapped errors alone and wraps others by their verdict |
| ErrorProcessor.FirstClassifierDecides | platform/errs/processor.go:144-171 | the first classifier that recognises a node decides about it |
| ErrorProcessor.OutermostDecides | platform/errs/processor.go:144-171 | down the causes the outermost node that says anything decides; if none does, a Group at the end decides by its members |
| ErrorProcessor.GroupComesTo | platform/errs/processor.go:189-219 | which verdict a Group comes to, in terms of the verdicts that occur among its members |
| ErrorProcessor.ProcessWrapsByVerdict | platform/errs/processor.go:93-142 | an error with a framework wrap on its chain is returned as it is, any other in exactly the wrap its verdict names |
| ErrorProcessor.HeaviestIsMaximal | platform/errs/processor.go:144-219 | a Group's verdict is one of its members' and none of theirs outranks it |
| ErrorProcessor.ClassifyIgnoresOrder | platform/errs/processor.go:144-219 | permuting Group members at any depth leaves the verdict unchanged for classifiers that ignore order |
| ErrorProcessor.RetryTestAgreesExactly | platform/errs/errs.go:158-178 | the retry test on the processed error agrees with the verdict exactly unless the error was retryable before and its verdict adds no wrap |
| ErrorProcessor.LayeredRetryTestAgrees | platform/errs/processor.go:93-142 | they agree for every error in which no wrap or recognised node sits above another wrap and none hides in an opaque join |
| ErrorProcessor.LinearRetryTestAgreesExactly | platform/errs/processor.go:93-142 | along a single chain they disagree exactly for a user wrap above a retryable one |
| ErrorProcessor.UserWrapAroundRetryableIsRetried | platform/errs/errs.go:158-178 | such an error is classified as the user's and retried all the same |
| ErrorProcessor.GroupOrderCanDecideRetry | platform/errs/processor.go:93-142 | two orders of one Group, with the same verdict, of which one is retried and one is not |
| ErrorProcessor.ProcessIsIdempotent | platform/errs/processor.go:93-142 | processing twice is processing once |
| ErrorProcessor.AlwaysRetryableOverrides | platform/errs/processor.go:242-247 | whatever the error carries, the always-retryable processor makes it retryable and no dependency error |
| Attribution.Attribution | platform/errs/failure.go:86-120 | the loop yields the subjects outermost first without repeats, and the outermost detail of each key, in whatever order keys are visited |
| Attribution.FreshKeepsEachOnce | platform/errs/failure.go:86-120 | every subject on the spine is attributed exactly once |
| Attribution.FreshKeepsOrder | platform/errs/failure.go:86-120 | in the order of first occurrence |
| Attribution.EveryLayerCounts | platform/errs/failure.go:86-120 | a subject is attributed exactly if some layer on the chain names it |
| Attribution.OuterLayersComeFirst | platform/errs/failure.go:86-120 | a subject first named by an outer layer comes before one first named further in |
| Attribution.OutermostDetailWins | platform/errs/failure.go:86-120 | a detail key is there exactly if some layer has it, with the outermost such layer's value |
| Attribution.ProcessKeepsAttribution | platform/errs/failure.go:86-120 | processing an error leaves its attribution as it was |
| Attribution.LayersDoNotClassify | platform/errs/failure.go:47-64 | adding attribution layers never changes the verdict, for classifiers that ignore those layers |
| Attribution.LayersDoNotChangeOutcome | platform/errs/failure.go:47-64 | nor whether the processed error is retried |
| ConsumerLoop.InvStep | platform/consumer/consumer.go:270-396 | every step of dispatcher, workers and outside keeps the ledger of each partition, the channel discipline and no panic |
| ConsumerLoop.TurnHolds | platform/consumer/consumer.go:387-396 | a worker moves a delivery along its lane; it neither loses one nor lets one overtake |
| ConsumerLoop.RoutedKeeps | platform/consumer/consumer.go:301-326 | receiving a delivery finds or creates the one channel of its partition, and keeps the ledger of all |
| ConsumerRuns.LaneLedger | platform/consumer/consumer.go:270-396 | handled, in progress, given up, buffered and at the dispatcher are together what was received, in order; handled is a prefix; nothing is given up before cancellation |
| ConsumerRuns.PartitionsByTenantAndKey | platform/base/messagequeue/partition.go:15-32 | in every reachable state: all that a partition holds has its tenant and its key, two deliveries share a partition exactly if both agree, and exactly the deliveries without a tenant or for another queue are rejected |
| ConsumerRuns.LaneMembers | platform/base/messagequeue/identity.go:19-29 | a lane holds exactly the tenant-valid deliveries of its tenant and key |
| ConsumerRuns.LanePositions | platform/consumer/consumer.go:301-326 | in the order they were received, none left out |
| ConsumerRuns.EveryLaneHasChannel | platform/consumer/consumer.go:301-364 | nothing valid is received without a channel, and exactly the tenant-invalid deliveries are rejected |
| ConsumerRuns.CancelStopsWorkers | platform/consumer/consumer.go:387-396 | after cancellation a partition finishes at most the delivery it was processing |
| ConsumerRuns.ClosedOnce | platform/consumer/consumer.go:366-373 | a channel is closed at most once and never sent to afterwards |
| ConsumerRuns.DoneMeansAllExited | platform/consumer/consumer.go:270-275 | done is closed at most once, and only with every worker exited and every channel closed |
| ConsumerRuns.StepDescends | platform/consumer/consumer.go:270-396 | every step the consumer takes on its own uses up some of the work left |
| ConsumerRuns.StepsAreBounded | platform/consumer/consumer.go:270-396 | between any two moments of a run there are no more steps than the work left and what arrived account for |
| ConsumerRuns.QuietMeansHandled | platform/consumer/consumer.go:270-340 | an uncancelled consumer with nothing left to do has handled every valid delivery that arrived |
| ConsumerRuns.ShutdownCannotHang | platform/consumer/consumer.go:270-396 | a run that can go no further has closed done exactly if cancelled or out of deliveries, and in the latter case handled everything first |
| ConsumerRuns.DispatcherBlockedExactly | platform/consumer/consumer.go:328-337 | the dispatcher is stuck exactly while it holds a delivery for a partition whose channel is full |
| ConsumerRuns.SlowPartitionBlocksOthers | platform/consumer/consumer.go:248-251 | a run in which another partition's delivery waits for a slow worker |
| ConsumerLifecycle.Consumer.Register | platform/consumer/consumer.go:124-149 | registers unless stopped or the topic is taken; topics stay distinct |
| ConsumerLifecycle.Consumer.Start | platform/consumer/consumer.go:153-186 | either every controller is subscribed or none is left running, and the error names the first that failed |
| ConsumerLifecycle.Consumer.Await | platform/consumer/consumer.go:755-769 | one wait lasts no longer than the budget left, ends with done only if done is closed, and with the timer only if done was not closed before |
| ConsumerLifecycle.Consumer.UnsubscribeAll | platform/consumer/consumer.go:737-779 | in any order: all are cancelled and cleared, the waits sum to at most the budget plus the timers' lateness, exactly the loops reported are named, loops not reported have exited, loops that exit in time are not reported |
| ConsumerLifecycle.Consumer.Stop | platform/consumer/consumer.go:711-726 | the same, and nothing can be registered or started afterwards |
| ConsumerLifecycle.BudgetIsTheTimeoutExactly | platform/consumer/consumer.go:747-748 | the budget is the timeout exactly while the int64 product does not wrap |
| ConsumerLifecycle.FinishedLoopReportedExactly | platform/consumer/consumer.go:754-765 | a loop that has exited can be reported as timed out exactly when no budget is left |
| DeliveryOutcome.DeliveryWrapper.Hold | platform/consumer/controller.go:99-105 | the last call wins, clamped at zero |
| DeliveryOutcome.RunController | platform/consumer/controller.go:79-105 | after any sequence of holds the wrapper records the last of them |
| DeliveryOutcome.ProcessDelivery | platform/consumer/consumer.go:399-685 | which call ends a delivery, for every gate answer, error and hold: at most one, none exactly when the gate check was cancelled, Ack exactly after a nil hold-free run, Postpone by a second behind a closed gate or by the last hold, Reject or Nack by the retry test on the processed error |
| DeliveryOutcome.DeadLettersAreNeverRejected | platform/errs/processor.go:242-247 | the DLQ consumer never rejects, and acknowledges only success |
| DeliveryOutcome.RejectedByVerdict | platform/consumer/consumer.go:471-507 | for layered errors the primary consumer rejects exactly what is not classified retryable |
| DeliveryOutcome.UserErrorCanBeRetried | platform/consumer/consumer.go:471-507 | a user error around a retryable one is nacked |
| Redelivery.InvStep | platform/consumer/consumer.go:399-685 | every step, failed writes and crashes included, keeps the account of each delivery and of where the message may have gone |
| Redelivery.EachDeliveryIsSettledOnce | platform/consumer/consumer.go:399-685 | per delivery: controller at most once and never behind a closed gate, at most one call, none only if cancelled at the gate or dead; attempts within the limit |
| Redelivery.LeavesOnlyCompletedOrDeadLettered | platform/extension/messagequeue/delivery.go:35-63 | a message leaves its topic only into the DLQ or after a delivery whose controller returned nil, held nothing and was acknowledged; it leaves the DLQ only after such a one there |
| Redelivery.NeverLost | platform/extension/messagequeue/mysql/subscriber.go:1247-1310 | until there was such a delivery the poll loop can always take the message up again |
| Redelivery.RetriesAreBounded | platform/extension/messagequeue/mysql/subscriber.go:340-374 | the deliveries to the primary consumer number at most MaxAttempts times one more than the postpones |
| Redelivery.AttemptCountsPasses | platform/extension/messagequeue/mysql/delivery_state_store.go:44-127 | the attempt of a delivery is the number of passes of the poll loop over the message since its last postpone, and within the limit |
| Redelivery.DeadLetteredExactly | platform/extension/messagequeue/mysql/subscriber.go:340-437 | a message moves to the DLQ exactly by a Reject, by a Nack at the limit, or by a pass beyond the limit, and never comes back |
| Redelivery.CallTakesEffect | platform/extension/messagequeue/mysql/delivery_state_store.go:129-208 | what each call leaves behind: acknowledged for good, to be retried with the count going on, or to be handed out as a first attempt |
| TargetGraph.Owner | service/tangofake/tangofake.go:247-257 | the walk up ends at the deepest target directory above the file, or finds that there is none |
| TargetGraph.NearestIsUnique | service/tangofake/tangofake.go:247-257 | a file has at most one owner |
| TargetGraph.NearestMeans | service/tangofake/tangofake.go:246-264 | the owner's directory holds the file, and every other target directory that does holds the owner's directory |
| TargetGraph.PathSplits | service/tangofake/tangofake.go:246-277 | the last component of a path and what is before it |
| TargetGraph.LabelsAreDistinct | service/tangofake/tangofake.go:259-264 | different directories have different labels, and only the root has the bare one |
| TargetGraph.FilterInPlace | service/tangofake/tangofake.go:328-336 | filtering in the list's own array keeps exactly the known dependencies, in order |
| TargetGraph.KnownAreSelected | service/tangofake/tangofake.go:328-336 | the dependencies kept are those that are targets, each as often and in the order listed |
| TargetGraph.ReadGraph | service/tangofake/tangofake.go:328-338 | in any order of targets: every list filtered, and the graph closed |
| TargetGraph.KnownGraphIsClosed | service/tangofake/tangofake.go:328-338 | every edge kept ends at a target, and only edges to unknown targets are dropped |
| TargetGraph.MergeDeps | service/tangofake/tangofake.go:231-239 | the loop appends exactly the dependencies not yet held |
| TargetGraph.WithDepsExtends | service/tangofake/tangofake.go:231-239 | the target's own list stays in front, and nothing is listed twice that was not |
| TargetGraph.MergedEdges | service/tangofake/tangofake.go:154-173 | the union has an edge exactly where the base or a head has it |
| TargetGraph.MergedIsClosed | service/tangofake/tangofake.go:154-173 | the union of closed graphs is closed |
| ImpactDistance.Spread | service/tangofake/tangofake.go:194-220 | in any order: exactly the targets reachable over reversed edges, each with its shortest distance, all below their number; seeds keep their kind, others are CHANGED |
| ImpactDistance.DistancesAreUnique | service/tangofake/tangofake.go:194-220 | only one map of distances meets that, so no map order shows |
| ImpactDistance.StepReached | service/tangofake/tangofake.go:200-205 | a target is reached in n + 1 steps exactly through one of its dependencies |
| ImpactDistance.BuildDependents | service/tangofake/tangofake.go:200-205 | the reversed map has exactly the reversed edges |
| ChangedTargets.BuildUnion | service/tangofake/tangofake.go:154-173 | the union of all heads, and NEW exactly for what the base lacks and some head has |
| ChangedTargets.MarkDeleted | service/tangofake/tangofake.go:178-185 | DELETED exactly for union targets that are not NEW and whose file was deleted |
| ChangedTargets.MarkChanged | service/tangofake/tangofake.go:186-192 | CHANGED exactly for the remaining owners of touched files |
| ChangedTargets.CommitOf | service/tangofake/tangofake.go:266-277 | accepts exactly a last segment of 40 or 64 lower-case hex digits |
| ChangedTargets.ComputeChangedTargets | service/tangofake/tangofake.go:148-227 | succeeds exactly if the base and each change's commit are full hashes that can be read, names the first that cannot be, and returns the change set of those graphs and touched files |
| ChangedTargets.ChangeSetMeans | service/tangofake/tangofake.go:148-227 | in terms of the commits' graphs and diffs: which edges the answer has, which targets are NEW, DELETED or at distance 0, and that all distances are the shortest from there |
| ChangedTargets.HeadsAreTheTrees | service/tangofake/tangofake.go:154-173 | one graph per change, that of the commit its URI ends in, in order |
| ChangedTargets.TouchedAreTheDiffs | service/tangofake/tangofake.go:174-192 | the touched files are exactly those of the changes' diffs |
| ChangedTargets.ChangeSetIsUnique | service/tangofake/tangofake.go:148-227 | there is only one such change set: labels sorted, kinds, distances and edges are all determined |
| ChangedTargetsWire.Optimized | service/tangofake/tangofake.go:128-136 | the numbered dependencies read back as those of the target that changed too, in order |
| ChangedTargetsWire.Encode | service/tangofake/tangofake.go:96-126 | every target is sent with its kind and distance, its mapping is the numbering of the labels, and what a client decodes at each position is the target there |
| ChangedTargetsWire.MessageSays | service/tangofake/tangofake.go:96-136 | label i has number i + 1; an old node is sent unless the target is NEW, a new one unless it is DELETED; each has that number and, by number and in order, the dependencies that changed too |
| ChangedTargetsWire.RoundTrip | service/tangofake/tangofake.go:96-136 | reading the messages back gives labels, kinds, distances, and exactly the union edges among changed targets |
| QueueStatus.LoadVersion | stovepipe/core/queuelog/queue_summary.go:51-67 | succeeds exactly on a row that is valid and is the queue's and the version's own, and returns its snapshot |
| QueueStatus.LoadSummary | stovepipe/core/queuelog/queue_summary.go:26-48 | succeeds exactly if the retained row of the summary's version is good and says the same |
| QueueStatus.ResolveCommitEnablement | stovepipe/controller/get_queue_status.go:88-150 | the walk succeeds exactly when some version resolves, returns it, and otherwise ends for the reason found where it stops; with ResolvesExactly, in terms of the rows |
| QueueStatus.ResolvesExactly | stovepipe/controller/get_queue_status.go:88-150 | a version is the answer exactly if commit and newest boundary are on the tip's line, every row from it on is good, each newer boundary lies strictly after the commit in the opposite state and not behind the one before, and its own boundary is at or before the commit |
| QueueStatus.ResolvedIsLargestCovering | stovepipe/controller/get_queue_status.go:104-149 | the answer is the largest version in force at the commit, and the only answer |
| QueueStatus.ProperHistoryResolves | stovepipe/controller/get_queue_status.go:104-149 | on a complete history of good rows, alternating and comparable with the commit, there is always an answer |
| QueueStatus.CoverageHasNoGaps | stovepipe/controller/get_queue_status.go:104-149 | there, a version that covers the commit is preceded only by versions that do |
| QueueStatus.BoundaryIsInclusive | stovepipe/entity/queue_state.go:35-36 | asked for a boundary commit, the answer is a version with that very boundary |
| QueueStatus.RewrittenTipResolvesNothing | stovepipe/controller/get_queue_status.go:93-113 | no commit off the tip's line, and no queue whose boundary left it, resolves |
| Keyset.WalkAscends | stovepipe/controller/list.go:79-107 | over pages of any sizes, from stores that grow in between, keys ascend strictly |
| Keyset.WalkMissesNothing | stovepipe/controller/list.go:79-107 | what was there at the first page has been shown or is still beyond the cursor |
| Keyset.WalkIsTheStore | stovepipe/controller/project_status.go:313-345 | on a fixed store the pages and what is beyond them are the store |
| Keyset.WalkEnds | stovepipe/controller/project_status.go:313-345 | and they end |
| AcceptanceList.ResolveRange | stovepipe/controller/list_pagination.go:37-73 | a first call is accepted exactly if page size and bounds are in order, and has those bounds; a token exactly if it is in order and says what the request repeats, and has its own |
| AcceptanceList.ReadListSummary | stovepipe/controller/list.go:112-133 | a mapping is shown exactly when mapping and summary are consistent; a failed read is the only storage failure |
| AcceptanceList.List | stovepipe/controller/list.go:61-110 | succeeds exactly if the request is valid and every visible mapping consistent, and otherwise says which of these failed; the page is cut from the window, with a token exactly when a mapping is left over |
| AcceptanceList.PageIsAsAsked | stovepipe/controller/list.go:61-133 | at most as many as asked for, exactly so many before a token; all of the queue, found in the stores, and on a first call within the bounds asked for |
| AcceptanceList.EmittedTokenIsAccepted | stovepipe/controller/list_pagination.go:83-98 | every token List gives passes its own checks and carries the frozen window and last key on |
| AcceptanceList.FollowingTokensVisitsTheWindow | stovepipe/controller/list.go:79-107 | across all pages keys descend strictly by time and id within the bounds of the first request, as of the time it was made, and by the end every mapping within them that was there at that call was shown, whatever was accepted in between |
| OpenIssues.ScanOpenIssuesPage | stovepipe/controller/list_open_issues.go:116-152 | however batches fall: exactly the entries a scan one at a time would inspect, the open ones of them, and hasMore exactly if entries are left |
| OpenIssues.StopIsTight | stovepipe/controller/list_open_issues.go:116-152 | at most 500 inspected, at most pageSize shown, and it stops before the end only when one of the two is reached |
| OpenIssues.ListOpenIssues | stovepipe/controller/list_open_issues.go:70-114 | succeeds exactly if the request is valid and every inspected entry readable; the token carries the last entry inspected, shown or not |
| OpenIssues.PageIsAsAsked | stovepipe/controller/list_open_issues.go:70-152 | at most as many issues as asked for and at most 500 entries inspected, and a token only when one of the two is reached |
| OpenIssues.IssuesAreSelected | stovepipe/controller/list_open_issues.go:135-146 | exactly the entries whose issue is open and was first seen in the build the entry names are shown |
| OpenIssues.EmittedTokenAcceptedExactly | stovepipe/controller/list_open_issues.go:154-200 | a token is accepted back exactly when its key is within the identifier limits |
| OpenIssues.FollowedCovers | stovepipe/controller/list_open_issues.go:116-174 | each continued page moves on, even when it shows nothing |
| OpenIssues.PagesAreTheFilteredList | stovepipe/controller/list_open_issues.go:70-174 | concatenated pages are exactly the issues that index entries still stand for, open and with the same first build, once each in index order |
| ProjectStatus.ValidateRequest | stovepipe/controller/project_status.go:204-222 | accepts exactly distinct valid project names and a page size within bounds |
| ProjectStatus.ParseToken | stovepipe/controller/project_status.go:357-398 | without a token a page starts at the beginning; a token is taken exactly for the same request and projects, at a place inside them |
| ProjectStatus.GetRequestedPage | stovepipe/controller/project_status.go:248-285 | the facts there are of its stretch of projects, in order; succeeds exactly if each is absent or valid |
| ProjectStatus.ListPage | stovepipe/controller/project_status.go:287-346 | a page of the index beyond the rebuilt cursor; succeeds exactly if the cursor can be rebuilt and every entry is backed by its fact |
| ProjectStatus.LoadPage | stovepipe/controller/project_status.go:224-246 | one call in either mode; it is refused exactly for a token that does not fit, and otherwise succeeds exactly if every fact the page needs is there, valid and of this request and commit |
| ProjectStatus.PageIsAsAsked | stovepipe/controller/project_status.go:224-346 | at most as many facts as asked for, each as stored, of this request and commit, and of a project asked for |
| ProjectStatus.PresentIsSelected | stovepipe/controller/project_status.go:248-285 | the facts found for the projects asked for and no others, once each, in that order |
| ProjectStatus.EmittedTokenAcceptedExactly | stovepipe/controller/project_status.go:357-398 | a token is accepted back exactly when, in a listing, the project it names is a valid identifier |
| ProjectStatus.RequestedPagesPartitionTheAnswer | stovepipe/controller/project_status.go:248-285 | requested projects come back once each, in the order asked for, missing facts skipped |
| ProjectStatus.CursorIsRebuilt | stovepipe/controller/project_status.go:295-311 | the cursor rebuilt from the named project's immutable fact is the last entry of the page before |
| ProjectStatus.ListedPagesPartitionTheIndex | stovepipe/controller/project_status.go:287-346 | all facts, by strictly descending degree then ascending project; none that was there is missed, and on a fixed index the pages are the index |
| Lifecycle.Group.constructor | platform/lifecycle/lifecycle.go:52-60 | nil components are skipped and the rest keep their order |
| Lifecycle.MembersAreSelected | platform/lifecycle/lifecycle.go:52-60 | the members are the components that are not nil and no others, in the order given |
| Lifecycle.Group.StopRange | platform/lifecycle/lifecycle.go:86-94 | members hi to 0 are stopped, each once, whatever fails, and every failure is collected |
| Lifecycle.Group.Start | platform/lifecycle/lifecycle.go:66-75 | all are started, or those started before the first that failed are stopped in reverse |
| Lifecycle.Group.Stop | platform/lifecycle/lifecycle.go:80-82 | every member is stopped in reverse order |
| Lifecycle.RollbackIsExact | platform/lifecycle/lifecycle.go:66-75 | in that trace each member up to the failed one is started once, each before it stopped once, in mirrored order, and no other is stopped |
| Lifecycle.NoErrorIsSwallowed | platform/lifecycle/lifecycle.go:66-94 | the joined error holds the start failure and every stop failure of the rollback, and nothing else |
| Lifecycle.FailuresDescend | platform/lifecycle/lifecycle.go:86-94 | the failures are joined in the order the members were stopped in, each once |

## Left out

- IngestBookmark.BookmarkStep: stated while the queue row has been written at most 2^32 times; beyond that `UpdateGoesThrough` shows the int32 version no longer tells writes apart.
- IngestController.Controller.Ingest: a store that fails is the step `Stop`; with stores that answer, re-reading after a lost race always finds the row and comparing with the bookmark never fails, so those two error returns of the source do not appear.
- IngestRuns.RetryHeals: stated for a call left alone; with other writers active the retry loop is bounded by their writes, not by a constant.
- Ingest models one queue, since every store is bound to a queue; enablement changes, the request log and the build slots appear as other writers of the queue row or not at all.
- A request row's own version is not modelled: the process stage advances a request only while it is Accepted, which is what its conditional write achieves.
- Redelivery.LeavesOnlyCompletedOrDeadLettered: stated for tenant-valid messages and a primary subscription with its dead-letter topic enabled, as the pipeline wires it; rejecting on a subscription without one acknowledges.
- Delays, leases, watermarks, retention and the barrier a postponed message puts before its partition: a poll may come at any moment in the model.
- ConsumerRuns.ShutdownCannotHang: for channels of capacity at least one, and steps of the consumer's own; Go's select may keep choosing new deliveries over cancellation as long as they keep arriving, which `StepsAreBounded` accounts for.
- Rejecting a delivery with an invalid tenant is part of the step that receives it.
- ImpactDistance.Spread: distances are unbounded integers; they stay below the number of targets, so an int32 suffices for fewer than 2^31 of them, and the same holds for the ids of the messages.
- Git output: the graph at a commit and the files a head touches are inputs; file paths are relative, without empty or dot components, as git lists them.
- ChangedTargets.Sorted: the library's sort is stood in for by insertion.
- QueueStatus.ResolveCommitEnablement: the request's validation, the choice of stores and cancellation of the request are not part of this model.
- ProjectStatus.LoadPage: the selection of the request by id or URI and the repository fact are not part of this model, nor is rounding: degrees are real numbers in [0, 1].
- JSON, base64 and SHA-256: a page token either does not decode or carries the fields it was made from; speculation paths are proved distinct before hashing.
- Texts of error messages other than the ones errors are built from, logging, metrics, tracing and clocks; `publish.UniqueID`.
- SpeculationPath.Base, the state predicates and field validations of the entities, and the classifier tables: single-branch facts or finite maps. Classifiers are arbitrary functions of an error node.
- A user error around nil, whose text the source cannot produce, is not a value of the error trees.

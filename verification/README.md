# Planning platform: publication, replanning, leases and plan validation

The planning platform turns an approved backlog plan into work packages of a remote ticket
store. This project models the parts of it that must stay right when things go wrong, and
proves what they promise.

- **Publication.** `plan_diff` compares a plan with a snapshot of the store and emits an ordered
  list of guarded operations. The publisher runs the list against a write-ahead journal; a later
  call resumes it after a crash. `Operations`, `PlanDiff`, `DiffSoundness`, `DiffTheorems` and
  `DiffOrder` cover the list; `DiffContents` and `DiffSequence` say what it holds in which order,
  `PublishedState` what it leaves and `DiffGuards` what its guards answer in any store, all by the
  fields of plan and snapshot; `Publication`, `PublicationSafety` and `PublicationTheorems` cover
  every history of sessions, crashes, lost replies and requests that land late; `Journal` and
  `Publisher` are the imperative publisher, proved to follow that transition system, and
  `PublicationProgress` says from which journals it can finish.
  `OperationRecord`, `RecordEncoding` and `RecordChecks` tie the typed operations to the JSON
  records of the journal.
- **Bounded replanning.** `Ownership`, `Replan`, `ReplanRules` and `ReplanTheorems`: only the subtrees under
  selected roots may change, provenance is carried per node, and an accepted replan is silent
  outside its boundary.
- **Leases, tokens and fences.** `Deliveries` and `DeliveryWorkers` for lifecycle deliveries with
  any number of workers; `SyncBridge` for the bridges to synchronous calls that may be cancelled
  while they run; `Idempotency` and `IdempotencyLeases` for planner requests.
- **Algorithms underneath.** `CycleCheck`, `EndpointCollisions`, `Validation`, `ValidationRules`,
  `GeneratedRegion` and `Pagination`; `Basics`, `Ordering`, `Text` and `Backlog` hold the shared vocabulary.

`dafny verify dfyconfig.toml` checks everything.

## What the model assumes

- Digests are ideal: the managed hash of an item is modelled as its managed fields, an operation
  identifier as the content it digests. `RecordEncoding` asks injectivity of its digests explicitly.
- Random tokens are fresh numbers: the next one is the count of those handed out.
- Clocks are parameters. Every reading is arbitrary, also one that runs backwards.
- One publication session at a time: the advisory lock of the journal is held for the life of a
  session. No one else writes planned packages while a publication is under way.
- `Item.content` stands for all managed scalars and lists of an item that no theorem looks into.

## What the proofs brought to light

- A relation operation on a node whose parent was an unmanaged work package predicts that parent
  although the list replaces it first (`src/planning_platform/diff.py:152`). Such an operation is
  rejected by its own guard: `DiffTheorems.UnmanagedParentRejected`.
- Managed relations are read back by package, so their other end may be a package outside the
  listing, such as a moved one (`src/planning_platform/openproject_adapter.py:900-924`). Removing
  such a relation is refused because that end cannot be resolved:
  `DiffTheorems.StrandedRelationRejected`.
- A snapshot resolves parents within its own listing
  (`src/planning_platform/openproject_adapter.py:936-948`), a single work package is read with its
  parent wherever that is (`src/planning_platform/openproject_adapter.py:635-659`). Under a managed
  parent outside the listing every operation on the child is refused, and a re-parenting to the
  identity that parent carries already reads as landed before it was sent:
  `DiffTheorems.ForeignParentRejected`.
- `DiffTheorems.GuardChain` is an equivalence: on the managed level these three families are the
  only emitted operations that are refused. Below it a relation can still be refused by the native
  collision at `src/planning_platform/openproject_adapter.py:1693`, as when one kind replaces
  another on the same pair, and a re-parenting by the store's own rule against parent cycles.
- The recovery gate is always false for an audit record
  (`src/planning_platform/openproject_adapter.py:1862`). A session that dies between the intent and
  the outcome of the audit leaves a publication that no later session completes:
  `PublicationTheorems.LostAuditNeverCompletes`; `PublicationProgress.LostAuditReachable` shows that
  every passable publication can get there.
- A plain error may follow a commit (`src/planning_platform/openproject_adapter.py:1846`). The
  journal then calls the operation retryable, and unless the operation re-states a status every
  retry is refused by the publisher check: `PublicationTheorems.CommittedRetryRejected`, reached by
  `PublicationProgress.CommittedButRetryableReachable`. Safety is not affected.
- The endpoint-collision rule reports a pair declared with an unknown `related_to` target that no
  item owns: `EndpointCollisions.UnownedPairReported`. That is the only case in which it reports
  too much: `EndpointCollisions.CollisionCheckExact`. Such a plan also has a dangling reference.
- An acquired claim is lost only if the worker task of the bridge is cancelled itself before it
  collected the claim, as a closing event loop does: `SyncBridge.AcquireOwned` is an equivalence.
- Parent cycles are ruled out by the rank rule alone:
  `Validation.ParentCycleImpliesMeaninglessParent`.

## Model

| member | source | states |
|---|---|---|
| Operations.Identities | src/planning_platform/openproject.py:102-111 | One package per identity: exactly the listed packages, or a conflict exactly when two listed packages carry the same identity, naming one they share |
| PlanDiff.NodeDiff | src/planning_platform/diff.py:194-309 | The loop over one node, with its evolving predicted relations, emits exactly the specified status, content, parent, add and remove operations |
| PlanDiff.PlanDiff | src/planning_platform/diff.py:161-350 | The whole diff equals the specification list every theorem below is about: creations, per-node revisions of the items in sorted order, supersessions, one audit record if anything else was emitted |
| Backlog.SortAscending | src/planning_platform/diff.py:194 | The sorted items are in ascending key order and are the same items, repetitions included |
| Ordering.TextLeExact | src/planning_platform/diff.py:174 | Texts are compared by their first difference, and a prefix comes first |
| Backlog.ByKeyLast | src/planning_platform/models.py:147-148 | Where several items carry one key, the lookup finds the last of them |
| DiffContents.BindingExact | src/planning_platform/replan.py:23-34 | Version and commit of a node are those of the first retained binding that names it, otherwise the plan's version and the approved commit |
| DiffContents.ManagedExact | src/planning_platform/openproject.py:173-198 | The digested projection of an item is determined field by field: plan, key, content, and the provenance of the retained binding or of the plan |
| DiffContents.DesiredExact | src/planning_platform/diff.py:95-112 | An item owns a relation exactly if it declares it, or for a related pair if its key is not the greater one and either end declares it |
| DiffContents.BeforeExact | src/planning_platform/diff.py:273-295 | Relations are ordered by the name of their kind, then by plan and key of the other end |
| DiffContents.DiffExact | src/planning_platform/diff.py:161-334 | Membership, for every operation except the audit record: the diff holds it if and only if plan and snapshot call for it, with exactly that payload, before and after hash, identifier and preconditions, all stated by the fields of plan and snapshot |
| DiffContents.AuditExact | src/planning_platform/diff.py:335-349 | The diff is empty exactly if nothing is called for; otherwise its last operation, and no other, is the audit record, which lists the identifiers of all the others in their order and demands nothing of the store |
| DiffSequence.DiffSequenced | src/planning_platform/diff.py:173-349 | Creations by key come first, then the nodes by key with their steps in order and their relations sorted, then supersessions by key, then the audit record |
| DiffSequence.DiffDetermined | src/planning_platform/diff.py:161-350 | No other list than the diff has these contents in this order |
| PublishedState.EmptyDiffExact | src/planning_platform/diff.py:196-334 | The diff is empty if and only if every item is in the store by its own fields, under its parent, with the relations it owns and not superseded, and no former package is in use |
| PublishedState.OutcomeExact | src/planning_platform/diff.py:161-350 | After the diff every planned package shows its item by the fields; a new one is new and pending, a superseded one is ready, others keep status and evidence; former ones differ in their status alone, and everything else is as it was |
| DiffTheorems.EmptyDiffIffConverged | src/planning_platform/diff.py:161-350 | The diff is empty if and only if the store shows every node as planned and every former node superseded |
| DiffTheorems.DiffSound | src/planning_platform/diff.py:194-350 | In exactly the world its predecessors produced, for any snapshot and wherever parents are, each operation passes the publisher check if and only if it does not arrive stale, and the adapter checks if and only if moreover the other end of its relation is in the store; the recovery gate is settled for every operation just before and just after its effect |
| DiffTheorems.DiffConverges | src/planning_platform/diff.py:161-350 | For any snapshot, applying the diff of a well-referenced plan reaches a store whose next diff is empty; packages of other plans, evidence states and untouched statuses are kept and no identity appears or disappears beyond the planned ones |
| DiffTheorems.GuardChain | src/planning_platform/publisher.py:159-194 | All guards of the emitted list pass one after the other if and only if no existing node combines an unmanaged parent with relations to change, none has an unwanted relation to a package that is neither in the snapshot nor planned, and no package of the plan, planned or still to be superseded, hangs under a parent whose identity the snapshot does not show |
| DiffTheorems.GuardAt | src/planning_platform/openproject_adapter.py:683-713 | Each single operation passes both checks, in exactly the world its predecessors produced, if and only if it is not stale and the other end of its relation is in the snapshot or planned |
| DiffTheorems.UnreachableIffStranded | src/planning_platform/diff.py:283-309 | The list holds an operation on a relation whose other end the store will never list exactly when some node has an unwanted relation of that kind |
| DiffTheorems.StaleExact | src/planning_platform/diff.py:132-158 | The list holds an operation that predicts the wrong parent exactly when some existing node has an unmanaged parent and other relations than planned, or some package of the plan has a parent whose identity the snapshot does not show |
| DiffTheorems.UnmanagedParentRejected | src/planning_platform/diff.py:152-156 | A concrete plan and snapshot, without unlisted relation ends or parents, whose own guards reject the emitted list |
| DiffTheorems.StrandedRelationRejected | src/planning_platform/openproject_adapter.py:900-924 | A second concrete plan and snapshot, without unmanaged or unlisted parents, whose guards reject the removal of a relation to an unlisted package |
| DiffTheorems.ForeignParentRejected | src/planning_platform/openproject_adapter.py:635-659 | A third one, with a managed parent outside the listing: the re-parenting is refused, and the recovery gate takes it for landed before its effect |
| DiffTheorems.RecoveryGateExact | src/planning_platform/openproject_adapter.py:1860-1885 | For every emitted operation except the audit record: just before it the postcondition is true exactly for a re-parenting to the identity an unlisted parent carries, just after it false exactly for a stale operation that re-parents nothing, and a committed operation passes the publisher check again exactly if it re-states a status and is not stale |
| DiffGuards.PublisherCheckExact | src/planning_platform/publisher.py:159-194 | For every emitted operation and every store whatsoever: the publisher check passes if and only if the package to change exists, is the only one of its identity and reads exactly as plan and snapshot predict, or the one to create does not exist |
| DiffGuards.AdapterExact | src/planning_platform/openproject_adapter.py:683-713 | For every emitted operation and every store: the adapter goes on to its request if and only if moreover the identities it needs resolve; the hash is not looked at for relations |
| DiffGuards.GateExact | src/planning_platform/openproject_adapter.py:1860-1885 | For every emitted operation and every store: the recovery gate raises exactly on a duplicated identity, is true exactly if the package shows the effect in full, and is never true for an audit record |
| DiffOrder.DiffPairwise | src/planning_platform/diff.py:161-350 | No two operations of a diff share identity and action, and after a status change of an identity nothing changes its status again or creates it |
| DiffOrder.DiffDistinctIds | src/planning_platform/diff.py:57-69 | All operation identifiers of one diff differ |
| Journal.PublicationJournal.Resume | src/planning_platform/publication_journal.py:818-881 | Resume reports nothing, a mismatch, a terminal failure, an incomplete completion, or the recorded run, and changes no record |
| Journal.PublicationJournal.Begin | src/planning_platform/publication_journal.py:883-931 | A new event is recorded with every operation planned; a known one is resumed or rejected and nothing is recorded |
| Journal.PublicationJournal.Intent | src/planning_platform/publication_journal.py:933-940 | Accepted exactly from planned or retryable; one state changes |
| Journal.PublicationJournal.Outcome | src/planning_platform/publication_journal.py:942-949 | Accepted exactly from intent, retryable or ambiguous; one state becomes applied |
| Journal.PublicationJournal.Failure | src/planning_platform/publication_journal.py:951-959 | Accepted exactly from intent; one state becomes ambiguous or retryable |
| Journal.PublicationJournal.Finalize | src/planning_platform/publication_journal.py:975-997 | Completes the run exactly when every operation is applied and it did not fail |
| PublicationTheorems.DiffIsPublishable | src/planning_platform/diff.py:161-350 | Every diff meets what publication needs of a recorded list: distinct operations and an exact recovery gate at every position whose publisher check passes |
| PublicationSafety.NextKeeps | src/planning_platform/publisher.py:213-270 | Every step of every session, of the network and of a crash keeps the journal shape (applied, then at most one operation under way, which passed its check, then planned) and its tie to the store |
| PublicationSafety.IntendKeeps | src/planning_platform/publisher.py:244-252 | An operation is intended again only when its effect is absent or re-stating it changes nothing |
| PublicationSafety.GateIsCertain | src/planning_platform/publisher.py:227-240 | When the recovery gate reports an operation as landed, the store is exactly the fold up to and including it |
| PublicationTheorems.CrashSafety | src/planning_platform/publisher.py:213-300 | After any history of sessions, crashes, lost replies and late or repeated requests the store is the fold of the applied operations or of one more under way, effects other than re-stated statuses are committed in order and never twice, and a completed run is the fold of all operations |
| PublicationTheorems.TraceKeeps | src/planning_platform/publisher.py:213-270 | The invariant holds along every run that starts with it, so calls can follow one another for ever |
| PublicationTheorems.CompletionIsFinal | src/planning_platform/publication_journal.py:975-997 | Once completed, no later session or late request changes the run status or the published store |
| PublicationTheorems.CompletionConverges | src/planning_platform/publisher.py:271-300 | A completed publication leaves the store converged to the plan and keeps everything the plan does not manage |
| PublicationTheorems.LostAuditNeverCompletes | src/planning_platform/openproject_adapter.py:1862-1863 | An audit record left in intent or ambiguous by a dead session keeps its publication incomplete in every continuation |
| PublicationTheorems.CommittedRetryRejected | src/planning_platform/openproject_adapter.py:1842-1848 | A committed operation recorded as retryable is refused by the publisher check in every later step, whatever the network does, and the store stays as it is |
| Publisher.Apply | src/planning_platform/openproject_adapter.py:1757-1857 | One adapter call: sent exactly if it is no audit record, the adapter gets that far and accepts; normal return only after the exact postcondition was seen, a plain error only if no request travels any more or the postcondition holds, everything else is ambiguous |
| Publisher.RecoverPending | src/planning_platform/publisher.py:227-243 | An interrupted operation is skipped as applied exactly when the gate sees its effect, recorded as ambiguous when it sees none, and left as recorded when the gate raises; the store is not touched |
| Publisher.Attempt | src/planning_platform/publisher.py:244-262 | Check, intent, apply, outcome: under every fault the session follows the transition system; a failed check writes nothing, a cut-off call leaves the intent, and otherwise the journal holds applied, retryable or ambiguous as the adapter reported; without faults it advances exactly when both checks pass |
| Publisher.Drive | src/planning_platform/publisher.py:219-270 | The publication loop: every execution is a run of the transition system; without faults it finishes exactly when the pending operation and all later ones are passable, and it applies exactly the remaining suffix |
| Publisher.Publish | src/planning_platform/publisher.py:303-326 | A whole call, fresh or resumed, whatever goes wrong: a run of the transition system from the state found to the state left, which again meets what the next call needs; a stale snapshot, a duplicated identity or an unknown envelope stops it with journal and store untouched; otherwise the journal gains the event under the hash of its envelope, or only the run of the known event changes; published implies completed and fully folded; without faults success is characterised exactly |
| PublicationProgress.ResumeProgress | src/planning_platform/publisher.py:219-270 | When the recorded guards pass, one undisturbed session finishes from a reachable journal if and only if nothing is pending or the pending operation is planned, retryable and uncommitted or re-stating a status or the audit, or interrupted, not the audit, and its effect is in the store |
| PublicationProgress.DiffResumes | src/planning_platform/publisher.py:219-270 | The same for every diff whose plan and snapshot meet the condition of the guard chain |
| PublicationProgress.AllReached | src/planning_platform/publisher.py:279-293 | When the recorded guards pass, some history applies exactly the first k operations, for every k |
| PublicationProgress.LostAuditReachable | src/planning_platform/openproject_adapter.py:1862-1863 | Every such publication has a history that loses its audit record for good |
| PublicationProgress.CommittedButRetryableReachable | src/planning_platform/openproject_adapter.py:1842-1848 | Every such publication has a history that leaves any mutation other than a status change committed but retryable |
| PublicationProgress.DeadEndsExist | src/planning_platform/publisher.py:244-262 | Publishing a single new item can run into both dead ends |
| OperationRecord.RoundTripKeepsHash | src/planning_platform/publication_journal.py:65-86 | Storing and restoring any operation record keeps its canonical JSON and hence its hash, and a second trip changes nothing |
| OperationRecord.AssertCurrentKept | src/planning_platform/publisher.py:159-194 | The publisher check cannot tell a restored record from the original one |
| OperationRecord.TopologyKept | src/planning_platform/openproject_adapter.py:683-782 | Neither topology check of the adapter can tell a restored record from the original one |
| OperationRecord.PostconditionKept | src/planning_platform/openproject_adapter.py:1860-1885 | Nor can the recovery gate, for any kind of operation |
| RecordEncoding.AssertCurrentAgrees | src/planning_platform/publisher.py:159-194 | On the record of a typed operation the dictionary-level check gives the typed verdict, rejection for rejection |
| RecordEncoding.PostconditionAgrees | src/planning_platform/openproject_adapter.py:1860-1885 | On the record of a typed operation the dictionary-level recovery gate gives the typed verdict, including its errors |
| RecordEncoding.JournalRoundTrip | src/planning_platform/publication_journal.py:845-861 | A typed operation that went through the journal keeps identity and hash, and every check still returns the typed verdict |
| RecordEncoding.EncodingLossless | src/planning_platform/publication_journal.py:65-86 | Operations whose stored rows agree in everything but the identifier have the same action and payload, identity, preconditions and hashes |
| RecordChecks.RecordCheckExact | src/planning_platform/publisher.py:159-194 | On any record, malformed ones included, the publisher check passes if and only if presence, hash and topology are as demanded; a topology condition that cannot be read is never met |
| RecordChecks.RecordAcceptExact | src/planning_platform/openproject_adapter.py:683-713 | On any record the adapter accepts a topology if and only if all three conditions are present in their exact form and the package shows just these |
| RecordChecks.RecordGateRaises | src/planning_platform/openproject_adapter.py:715-782 | The recovery gate raises exactly on an existing package when conditions or payload cannot be read, or the relation was demanded already that is to be added, or was not that is to be removed |
| Ownership.SelectedRootOwner | src/planning_platform/replan.py:187-203 | The upward walk with its visited set terminates on parent cycles and equals the recursive specification |
| Ownership.OwnerExact | src/planning_platform/replan.py:187-203 | The walk finds an owner exactly when some number of parent steps first reaches a root, and then it is that root |
| Ownership.DescendantClosure | src/planning_platform/planner/models.py:293-299 | The downward fixpoint terminates and holds exactly the keys that hang some number of parent links below a root, also with repeated keys; with unique keys it equals the set of nodes whose upward walk reaches a root |
| Replan.BuildReplanScope | src/planning_platform/replan.py:37-67 | The loop collects exactly the retained bindings of the protected nodes, in item order |
| Replan.CrossBoundaryEdges | src/planning_platform/replan.py:206-234 | The set filled item by item is exactly the set of edges between a protected and an unprotected node |
| Replan.ApplyReplanBoundary | src/planning_platform/replan.py:70-115 | The overlay of protected and proposed items with the exact scope, accepted exactly when validation accepts it, each early rejection with its error |
| ReplanRules.VerdictExact | src/planning_platform/replan.py:118-184 | The verdict on any candidate answers the first broken rule: valid selection, no root below a root at any depth, succession of the base, exact scope, protected nodes, roots, root parents, nearest roots, rootedness, and the same declarations across the boundary |
| ReplanRules.AcceptedExact | src/planning_platform/replan.py:118-184 | A candidate is accepted if and only if it keeps all ten rules |
| ReplanRules.OwnerIsNearest | src/planning_platform/replan.py:187-203 | A node has an owner exactly if a selected root is among its ancestors or itself, and it is the nearest one |
| ReplanRules.ScopeExact | src/planning_platform/replan.py:37-67 | The exact scope names base version, selection and affected nodes, and binds one by one, in item order, every node that is not affected to the version and commit that own it |
| ReplanRules.BoundedOrder | src/planning_platform/replan.py:88-95 | Nodes of the base come first in its order, introduced ones follow in the order they were proposed |
| ReplanTheorems.BoundedMembers | src/planning_platform/replan.py:92-99 | The bounded plan holds exactly the base's protected items and the proposal's other items |
| ReplanTheorems.BoundedUnique | src/planning_platform/replan.py:92-99 | The overlay never introduces a duplicate key |
| ReplanTheorems.BoundaryIdempotent | src/planning_platform/replan.py:70-115 | Overlaying a candidate that is accepted already changes no item and is accepted again |
| ReplanTheorems.ReplanProvenance | src/planning_platform/replan.py:23-67 | After a replan a protected node keeps its version and commit and every other node takes the new ones |
| ReplanTheorems.ChainedProvenance | src/planning_platform/replan.py:23-67 | Over a chain of accepted replans of any length a node is owned by the latest plan that affected or introduced it |
| ReplanTheorems.DesiredKept | src/planning_platform/diff.py:95-112 | A protected node owns the same relations in the accepted candidate, although ownership of related pairs is decided over all items |
| ReplanTheorems.SilentOutsideBoundary | src/planning_platform/replan.py:118-184 | Against a store that shows the approved base, the diff of an accepted candidate mutates no protected node |
| ReplanTheorems.CrossingExact | src/planning_platform/replan.py:206-234 | A directed edge is listed exactly when it is declared and separates a protected from an unprotected node |
| ReplanTheorems.BoundaryRelationsKept | src/planning_platform/replan.py:175-184 | An accepted candidate declares exactly the base's parents and directed relations across the boundary |
| ReplanTheorems.OwnershipPartition | src/planning_platform/replan.py:141-174 | With the prior closure as affected set, for any prior plan, the candidate's own closure is exactly its unprotected nodes, each root owns itself and no surviving node changes its owner |
| Deliveries.DeliveryDeduplicator.Claim | src/planning_platform/lifecycle/dedupe.py:82-97 | Granted exactly when the key is unfenced and new or lease-expired; the grant is the only change; refusals report the known state |
| Deliveries.DeliveryDeduplicator.Renew | src/planning_platform/lifecycle/dedupe.py:99-103 | Accepted exactly while the token holds claim and fence; only that lease moves |
| Deliveries.DeliveryDeduplicator.Complete | src/planning_platform/lifecycle/dedupe.py:105-108 | Accepted exactly while the token holds the key; finishes it and drops its fence, nothing else |
| Deliveries.DeliveryDeduplicator.Retry | src/planning_platform/lifecycle/dedupe.py:110-122 | Accepted exactly with a reason and a holding token; the claim becomes claimable at once and unfenced |
| Deliveries.DeliveryDeduplicator.SendToDeadLetter | src/planning_platform/lifecycle/dedupe.py:124-150 | Accepted exactly with a reason and a holding token; the key becomes a dead letter and unfenced |
| Deliveries.DeliveryDeduplicator.RecoverDeadLetter | src/planning_platform/lifecycle/dedupe.py:152-171 | Granted exactly for an attributed, unfenced dead letter; a new token and fence are the only change |
| Deliveries.DeliveryDeduplicator.ReleaseFence | src/planning_platform/lifecycle/dedupe.py:173-175 | Drops a fence only for the token that owns it |
| Deliveries.RetriedClaimable | src/planning_platform/lifecycle/dedupe.py:110-122 | A key handed back can be claimed again from that moment on, and not by an earlier clock |
| Deliveries.GrantedClaimable | src/planning_platform/lifecycle/dedupe.py:82-97 | A granted key is closed to everyone while fenced, and without its fence until the lease is over |
| Deliveries.BeatClaimable | src/planning_platform/lifecycle/dedupe.py:99-103 | A heartbeat moves the lease end to the new one, whatever the old one was |
| Deliveries.SettledClosed | src/planning_platform/lifecycle/dedupe.py:105-150 | A completed key can be neither claimed nor recovered, a dead letter only recovered |
| Deliveries.ExecuteClaimed | src/planning_platform/lifecycle/worker.py:52-127 | Completed exactly when the effect returned under a holding token; every other end hands the delivery back unless a further cancellation skips that; the token's fence is gone unless the delivery was not finalized and a further cancellation skips the release |
| Deliveries.ExecuteDelivery | src/planning_platform/lifecycle/worker.py:16-49 | A refused claim changes nothing; a granted one ends finished, retried after a failure, given back after a cancelled acquisition, or as further cancellations leave it |
| SyncBridge.AwaitWorker | src/planning_platform/lifecycle/concurrency.py:23-34 | For every sequence of cancellations, thread ends, collections, task stops and wake-ups, the awaiting loop ends with the thread's own first result or notices that the task was stopped before it collected that result, and remembers exactly whether it was cancelled |
| SyncBridge.RunToCompletion | src/planning_platform/lifecycle/concurrency.py:10-37 | The bridge never returns while its thread still runs unless the worker task itself was cancelled; a failure is reported as such, and a cancellation only after the thread returned |
| SyncBridge.AcquireOwned | src/planning_platform/lifecycle/concurrency.py:40-72 | A value the thread acquires is delivered or passed to the cleanup, exactly once, if and only if the worker task was not cancelled before it collected the value, whatever befalls the cleanup; nothing that was not acquired is cleaned up |
| DeliveryWorkers.ApplyKeeps | src/planning_platform/lifecycle/worker.py:77-127 | Every step of every worker, including crashes, cancellations and late calls, keeps the tie between active workers, fences, claims and winners |
| DeliveryWorkers.MutualExclusion | src/planning_platform/lifecycle/worker.py:77-127 | In every run, at any moment, two effects in progress on one key are the same worker, and it holds claim and fence |
| DeliveryWorkers.SupersededTokenIsStale | src/planning_platform/lifecycle/dedupe.py:173-186 | While another worker is active on a key, an earlier worker's token does not hold it, that worker is not active, and no call it makes late changes anything |
| DeliveryWorkers.CompletedIsFinal | src/planning_platform/lifecycle/dedupe.py:82-94 | After completion the key stays completed and no worker holds it or runs its effect in any later state |
| DeliveryWorkers.CompletedExactlyOnce | src/planning_platform/lifecycle/dedupe.py:105-108 | A key is completed if and only if some worker won it, and at most one worker ever does |
| DeliveryWorkers.CompletionFollowsEffect | src/planning_platform/lifecycle/worker.py:112-118 | A key becomes completed only by the finish of a worker whose own effect had returned |
| DeliveryWorkers.IdleKeyReclaimable | src/planning_platform/lifecycle/worker.py:119-127 | When all workers of a key left in order, it is claimable exactly if new or lease-expired and recoverable exactly if dead-lettered |
| Idempotency.IdempotencyRepository.Claim | src/planning_platform/planner/idempotency.py:112-177 | Reply and new state are those of the specification step: replay, conflict, busy, recovery or a fresh grant; the repository invariant is kept |
| Idempotency.IdempotencyRepository.Renew | src/planning_platform/planner/idempotency.py:187-193 | Accepted exactly for the live token; only that lease moves |
| Idempotency.IdempotencyRepository.Finalize | src/planning_platform/planner/idempotency.py:179-185 | Accepted exactly for the live token; only that record completes |
| Idempotency.IdempotencyRepository.AbandonResume | src/planning_platform/planner/idempotency.py:195-232 | Reply and new state are those of the specification step, from blank attribution to the idempotent repetition |
| Idempotency.IdempotencyRepository.ThreadOwner | src/planning_platform/planner/idempotency.py:145-152 | Finds an unfinished record of the thread exactly when one exists |
| Idempotency.IdempotencyRepository.CompletedResumeMatches | src/planning_platform/planner/idempotency.py:234-248 | True exactly for a completed resume of the thread whose body is tied to that comment |
| Idempotency.OnePerThread | src/planning_platform/planner/idempotency.py:145-163 | In every reachable state a thread has at most one unfinished and at most one start record |
| Idempotency.NoTakeover | src/planning_platform/planner/idempotency.py:153-158 | While a key owns a thread, lease expired or not, no other key gains or changes a record on it |
| Idempotency.RunAdvances | src/planning_platform/planner/idempotency.py:112-232 | Over any run records keep their identity, terminal records and comment bindings never change, tokens are never reissued |
| Idempotency.OneLiveToken | src/planning_platform/planner/idempotency.py:179-193 | At any moment at most one token is accepted for a thread |
| Idempotency.StaleForever | src/planning_platform/planner/idempotency.py:179-193 | A token once issued and no longer live is rejected by renew and finalize in every later state |
| Idempotency.GrantsDiffer | src/planning_platform/planner/idempotency.py:133-177 | Every granted token is new |
| Idempotency.FinalizedOnce | src/planning_platform/planner/idempotency.py:124-128 | After a successful finalize no other succeeds for the key, and a claim of the key returns that response exactly for the same request |
| Idempotency.CompletedWasFinalized | src/planning_platform/planner/idempotency.py:179-185 | Every completed record, hence every replay, comes from an accepted finalize with that response |
| Idempotency.AbandonedForever | src/planning_platform/planner/idempotency.py:217-232 | An abandoned record never changes, and is never granted, renewed, finalized, replayed or matched again |
| Idempotency.MatchIsPermanent | src/planning_platform/planner/idempotency.py:234-248 | A completed resume that matches a comment matches it in every later state |
| IdempotencyLeases.HeldRecord | src/planning_platform/planner/idempotency.py:112-232 | In every run an unfinished record changes only through its own token, or by a claim or abandonment at or after its lease end |
| IdempotencyLeases.ClaimBeforeEnd | src/planning_platform/planner/idempotency.py:123-132 | Before the lease end a claim of the key answers busy until then, or conflict for another request, and changes nothing |
| IdempotencyLeases.ClaimAfterEnd | src/planning_platform/planner/idempotency.py:131-144 | From the lease end on the same request is granted: new token, new lease, nothing else changes; another request conflicts |
| IdempotencyLeases.ClaimBeside | src/planning_platform/planner/idempotency.py:145-158 | A new key on the thread answers busy until that lease end and conflict from it on, and changes nothing |
| IdempotencyLeases.FreshClaim | src/planning_platform/planner/idempotency.py:145-177 | A new key is granted exactly on a free thread with an unconflicting comment; record, lease, token and comment are stored and nothing else |
| IdempotencyLeases.GrantExact | src/planning_platform/planner/idempotency.py:112-177 | A claim is granted exactly on a new key with a free thread, or on its own unfinished request from the lease end on |
| IdempotencyLeases.GrantIsLive | src/planning_platform/planner/idempotency.py:133-177 | A granted token is live at once, until the lease end it states |
| IdempotencyLeases.ReplayExact | src/planning_platform/planner/idempotency.py:124-130 | A replay is exactly the stored response of the same completed request |
| IdempotencyLeases.RenewExact | src/planning_platform/planner/idempotency.py:187-193 | A renewal moves the lease of its own unfinished record and nothing else; any other token conflicts |
| IdempotencyLeases.AbandonExact | src/planning_platform/planner/idempotency.py:195-232 | An abandonment takes effect exactly on the named, bound, unfinished resume past its lease end, is repeatable with the same attribution, answers busy before the lease end, and is refused otherwise |
| IdempotencyLeases.LiveClaimHolds | src/planning_platform/planner/idempotency.py:112-232 | Over any number of calls: while nobody comes at or after the lease end and the holder does not finalize, its token stays live, only its own renewals move the lease, and all other claims of the key are turned away |
| IdempotencyLeases.MatchExact | src/planning_platform/planner/idempotency.py:234-248 | A completed resume matches exactly if, earlier in the run, it was first claimed on that thread, its body was tied to that comment, and its key was finalized |
| CycleCheck.CycleSearch.Visit | src/planning_platform/validation.py:63-73 | A visit that finds nothing restores the visiting set and adds the node in finishing order; one that finds something proves a cycle |
| CycleCheck.HasCycle | src/planning_platform/validation.py:59-75 | True if and only if the closed graph has a cycle; terminates because the visiting set grows |
| EndpointCollisions.CollisionIssues | src/planning_platform/validation.py:144-186 | The two tables filled in loops and the two sorted scans report exactly the nodes of crowded and of overlapping pairs |
| EndpointCollisions.DirectedManaged | src/planning_platform/diff.py:95-112 | A directed managed relation of the plan is exactly a directed reference of an item |
| EndpointCollisions.RelatedManaged | src/planning_platform/diff.py:100-109 | A related_to managed relation is exactly a declared pair whose lower key is an item, which owns it |
| EndpointCollisions.CollisionFreeKeepsApart | src/planning_platform/openproject_adapter.py:858-874 | If nothing is reported, all managed relations of any plan get different stored endpoints under every injective numbering |
| EndpointCollisions.CollisionCheckExact | src/planning_platform/validation.py:141-186 | For every plan: nothing is reported if and only if no directed reference repeats, none overlaps a pair that no item owns, and endpoints stay apart under every injective numbering |
| EndpointCollisions.CollisionCheckOnDistinctLists | src/planning_platform/validation.py:158-186 | For duplicate-free lists and unique keys: no issue if and only if no directed reference overlaps an unowned pair and endpoints stay apart under every injective numbering |
| EndpointCollisions.CollisionCheckOnKnownTargets | src/planning_platform/validation.py:158-186 | With known related_to targets besides: no issue if and only if endpoints stay apart under every injective numbering |
| EndpointCollisions.UnownedPairReported | src/planning_platform/validation.py:155-157 | A concrete plan with an unknown related_to target for which a collision is reported although none can occur |
| Validation.ValidatePlan | src/planning_platform/validation.py:78-299 | The structural issues listed are exactly the raised ones: duplicates, collisions, reference faults and the two cycles |
| Validation.CheckReference | src/planning_platform/validation.py:194-239 | One reference is blamed for exactly the listed faults, and for nothing else once it dangles |
| ValidationRules.RaisedExact | src/planning_platform/validation.py:78-299 | Each issue is listed if and only if the plan deserves it, stated by entries, references, allowed parents, repositories and loops |
| ValidationRules.CleanExact | src/planning_platform/validation.py:78-299 | No structural issue exists if and only if keys are unique, every reference is sound, no endpoint pairs collide and no item waits for itself |
| ValidationRules.BroaderExact | src/planning_platform/validation.py:34-42 | The rank comparison allows exactly the listed parents of each work type |
| Validation.CleanIsWellReferenced | src/planning_platform/validation.py:132-203 | A plan without issues has unique keys and only known references, which is what the publication theorems start from |
| Validation.BlockersAcyclic | src/planning_platform/validation.py:294-295 | In a plan without issues no chain of blockers returns to its start |
| Validation.ParentChainBounded | src/planning_platform/validation.py:217-223 | In a plan without issues no chain of parents is longer than four items |
| Validation.ParentCycleImpliesMeaninglessParent | src/planning_platform/validation.py:292-293 | A reported parent cycle always comes with a parent that is not broader than its child |
| Validation.CleanRelationsStayApart | src/planning_platform/validation.py:141-186 | In a plan without issues endpoints stay apart under every injective numbering |
| GeneratedRegion.PutGet | src/planning_platform/openproject.py:154-170 | Reading after writing a well-formed generated text returns it |
| GeneratedRegion.GetPut | src/planning_platform/openproject_adapter.py:350-358 | Writing back what was read changes nothing, for every readable description |
| GeneratedRegion.PutPut | src/planning_platform/openproject.py:154-170 | The second of two writes wins, also when the first one created the region |
| GeneratedRegion.HumanTextKept | src/planning_platform/openproject.py:161-170 | The text before and after the region is kept; a new region costs only trailing blanks |
| GeneratedRegion.ReplaceExact | src/planning_platform/openproject.py:161-169 | A write is refused exactly when markers are present that do not delimit one region |
| GeneratedRegion.NoStraddle | src/planning_platform/openproject.py:150-151 | A marker can never lie across the edge of a splice |
| GeneratedRegion.GeneratedWellFormed | src/planning_platform/openproject.py:120-147 | The joined description is well formed exactly when the item's own text holds no marker |
| Text.StripSplits | src/planning_platform/openproject.py:163 | Trimming takes blanks from both ends and leaves none there; the blanks are listed by code point |
| Pagination.Collection | src/planning_platform/openproject_adapter.py:510-626 | Request i asks for page i of the same collection and scope; requests stay within the page bound; success exactly on an unpaged collection or a complete run of pages, whose elements are returned in order and whose every reply announces their number; each failure is blamed on the reply that shows it; the loop guard never fires |
| Pagination.DecimalParses | src/planning_platform/openproject_adapter.py:623-626 | The page number written into a request reads back as that number |

## Left out

- Publication.Next: native relation replacement is not modelled; relations live at the managed level, so the native collision between relations on one pair cannot occur here.
- Publisher.Apply: HTTP, links, lock versions and the conflict retry of a patch are folded into one accepted or refused request with an arbitrary reply; native rejection of parent cycles is not modelled.
- Publisher.Publish: the fresh and the resumed loop are one loop here, and `publish` without `apply` is only the diff; artifact, target and boundary checks before the first read are not modelled.
- Journal.PublicationJournal.Resume: hash, target, archive and ordinal checks of stored rows and the lock that admits one session are not part of the state.
- Journal.PublicationJournal.Finalize: the in-memory journal's empty `finalize` is replaced by the durable rule.
- OperationRecord.AssertCurrentKept: assumes that the recorded relation list is a list and that `str` renders its entries alike with tuples and lists, as it does for texts.
- Ownership.DescendantClosure: the nested-root check of the planner request is not repeated; the same check of candidate validation is modelled.
- Idempotency.IdempotencyRepository.Claim: records are values of a map and updated there; the one-line lease expiry for fault injection and the durable repository's length limits are not modelled.
- Deliveries.ExecuteClaimed: heartbeats come before the end of the effect and nobody else acts on the key; interleavings are the matter of `DeliveryWorkers`.
- Deliveries.ExecuteDelivery: whether the acquisition was cancelled is one flag; the signals behind it are the matter of `SyncBridge`, and neither a claim lost to a stopped worker task nor a cleanup that itself fails is modelled here.
- SyncBridge.AwaitWorker: a worker task that is cancelled before its thread was started is not modelled.
- DeliveryWorkers.ApplyKeeps: a vanished worker's effect ends with it; a finalization that reaches the ledger after its worker vanished is that worker's own step taken first.
- Validation.ValidatePlan: schema, publication identity, replan metadata, repository names, traceability, wording and estimate rules are left out; order and multiplicity of the issues are not stated.
- Pagination.Collection: digits are the ASCII ones, link addresses are reduced to staying on the collection's path, and a failed or malformed page is one kind of bad reply.
- GeneratedRegion.GeneratedWellFormed: the sections of the description are one text between the two markers.
- Lifecycle service and store, planner graph and planner service: orchestration over SQL whose rules are mostly single-statement updates.
- SQL statements, schema migrations and readiness checks: only the state transition of each statement is modelled.
- Text screening, scoring, repository extraction, webhooks, discovery and bootstrap: shallow rules or plumbing.

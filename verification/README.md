# A verified model of the XStatefulSet controller

The controller keeps the pods of an XStatefulSet as its specification asks: one pod for every ordinal
`start .. start+replicas-1`, each with its own volume claims, at the current or the update revision of the pod template.
Its work is a *sync*, which lists the pods, creates, deletes or updates some of them, and records a status. This project
models a sync and everything it relies on, puts it into a transition system together with an environment that changes pods
on its own, and proves what the controller promises about single syncs and about whole runs.

## What is modelled

| file | module | content |
|---|---|---|
| `names.dfy` | `Names` | pod and claim names; the regular expression that takes a pod name apart |
| `pods.dfy` | `Pods` | pods as observed, health predicates, the status counters |
| `identity.dfy` | `Identity` | the pod object that a sync stamps: identity, storage, revision |
| `slowstart.dfy` | `SlowStart` | calls in batches of doubling size |
| `reconcile.dfy` | `Reconcile` | a sync as a function of the pods, the API server's answers and the time |
| `sync.dfy` | `Sync` | the loops of a sync over arrays, proved to compute that function |
| `placement.dfy` | `Placement` | sorting pods into slots and condemned pods |
| `discipline.dfy` | `Discipline` | what one OrderedReady or Parallel sync may and must do |
| `rollout.dfy` | `Rollout` | deletions of a rolling update, with and without the maxUnavailable budget |
| `status.dfy` | `StatusMeaning` | what the recorded status means, and when a rollout completes |
| `cluster.dfy` | `Cluster` | the transition system: syncs, and three kinds of environment |
| `safety.dfy` | `Safety` | partition, order and availability budget over all runs |
| `convergence.dfy` | `Convergence` | a cost that every call lowers by one, down to the specified state |
| `claims.dfy` | `Claims` | owner references of volume claims: the check and the repair |
| `revisions.dfy` | `Revisions` | revision order, choice of the update revision, collisions, truncation |
| `expectations.dfy` | `Expectations` | the counter store and the UID store of expected deletions |
| `nextcheck.dfy` | `NextCheck` | the next time at which a pod becomes available |

A sync is written twice. `Reconcile.SyncPods` is the function that the theorems talk about; the methods of `Sync` have the
loops and early exits of the source and are proved to compute it. Calls to the API server are answered by an `Api` value that
is a parameter everywhere, so a statement about a sync covers every combination of success, `NotFound`, `AlreadyExists` and
failure. The clock is a parameter too; instants are integers.

An environment is `Hostile` (pods die, disappear, become unready or finish at will), `ReadinessOnly` (only readiness changes
and terminating pods go away) or `Gentle` (no available replica becomes unavailable). In each of them nobody but the
controller creates pods or changes a pod's name or revision. A run alternates syncs and environment steps in any order; every
sync lists all pods, in any order.

The main results:

* `Convergence.RoundsConverge`: from any state, with working calls and pods coming up between syncs, after one round the missing
  slots plus twice the finished or outdated pods plus the pods outside the range is exactly the number of pods still to be created or
  deleted. It reaches zero, which is exactly the specified state (`CostZeroIsConverged`), within a number of syncs known from
  the first state, iff the management is Parallel or at most one finished pod is outside the range.
  `Convergence.ConvergedIsQuiet`: from then on no sync makes a call.
* `Safety.PartitionIsNeverCrossed`, `Safety.UpdatesFillASuffix`, `Safety.StatusRecordsTheSplit`, `Safety.BudgetIsKept`: in
  every reachable state, for every outcome of the calls.
* `Discipline.OrderedReadyDiscipline`, `Discipline.OrderedScaleDown` and `Discipline.OrderedFailures`: what an OrderedReady sync
  does, exactly when it scales down, and exactly when it fails; `Discipline.ParallelFailures` for the Parallel mode.
* `Placement.ListingOrderIsIrrelevant`: a sync does not depend on the order of the listing.
* `StatusMeaning.StatusIsExact`, `StatusMeaning.CurrentReplicasByInput` and `StatusMeaning.CompletionIsSound`: exactly what `currentReplicas` and the completion of a
  rollout mean.
* `Claims.RepairAgreesWithCheck` and `Claims.UpdateEstablishesCheck`: exactly when repairing a claim satisfies the check.
* `Revisions.UpdateIsNewest`, `Revisions.SecondCallKeeps`, `Revisions.AttemptsMeaning`, `Revisions.DoomedExactly`: the choice
  of the update revision, what its retried update comes to, and exactly which revisions truncation deletes.

## Where the code and its documentation differ

The model follows the code.

* The comment on `SlowStartInitialBatchSize` (pkg/controller/controller_utils.go:94-97) gives 1+floor(log2 N) batches and
  ignores the cap of 500 calls per batch. It is right exactly for N up to 1011 and, by coincidence, from 1024 to 1511:
  `SlowStart.CommentIsRight`; `SlowStart.BatchesOfCleanRun` has the right number for every N.
* With the MaxUnavailableStatefulSet gate off, the older update loop can delete a pod that was stamped in the same sync;
  `StatusMeaning.SyncDeletesStampedPod` says exactly when.
* `currentReplicas` is counted down for every update deletion, also of pods that were never counted up, so it can become
  negative, with the gate off (`StatusMeaning.LegacyDeletesStampedPod`) and on (`StatusMeaning.ThirdRevisionGoesNegative`).
  `StatusMeaning.CurrentReplicasByInput` says by how much a sync counts it down and exactly when it is negative.
* A rollout is completed by counting all pods, condemned ones included (pkg/controller/xstatefulset/xstateful_set_control.go:730,
  pkg/controller/xstatefulset/xstateful_set_utils.go:655-663), so it can complete while a slot is empty;
  it leaves a slot empty exactly when a pod is condemned: `StatusMeaning.CompletionFillsSlots`, with an input in
  `StatusMeaning.CompletionCountsCondemned`. Theorems about completion over runs therefore assume that no pod is outside the
  range. The comment there also says that the update revision and the updated replicas are cleared; the code leaves them.
* OrderedReady scale-down can wait forever although nothing else is wrong, in two ways. A condemned pod that is available but
  whose phase is not Running is neither healthy nor the first unavailable pod. And of two finished condemned pods that are not
  Ready, the higher one waits for the lower one, which is never looked at. `Discipline.OrderedScaleDown` shows the condition
  for a delete, `Convergence.AvailableNotRunningBlocks` the first way, `Convergence.FinishedPairBlocks` and
  `Convergence.RoundsConverge` that two finished pods block for good.
* Repairing a claim does not always satisfy the check: a reference with the right UID under another kind or name is never
  removed, and a stale reference to an owner that the policy wants needs a second repair. `Claims.RepairAgreesWithCheck` and
  `Claims.SecondRepair` have the exact conditions. A claim with a stale first reference counts as up to date and is left alone:
  `Claims.StaleClaimIsLeftAlone`.
* UpdateControllerRevision can report success without having written anything. `Revisions.AttemptsMeaning` says exactly when:
  after some number of conflicts the copy it goes on with has the wanted number already. The answer that makes this an error is
  a conflict that comes with no object while the cache holds none under the name: the next attempt takes the copy it has just
  failed to write for done (`Revisions.ConflictSwallowsUpdate`). A client that returns an empty object beside the error, as
  generated ones do, does not give that answer; if the cache has none under the empty name, the update then ends in an error
  (`Revisions.LostCopyIsRefused`). If conflicts lead back to the listed revision or to such an object, success means written:
  `Revisions.SuccessIsWritten`.
* When getStatefulSetRevisions fails, UpdateStatefulSet still truncates the history
  (pkg/controller/xstatefulset/xstateful_set_control.go:113-119) without knowing the current revision, which can be deleted:
  `Revisions.TruncationAfterFailure` says exactly when, `Revisions.FailureLosesHistory` gives an input.

## Assumptions

* `start + replicas - 1` fits a signed 32-bit integer (`StatefulSet.Valid`); ordinals are parsed as such.
* No two pods of a listing have the same ordinal. Nothing enforces this for pods that somebody else makes: with matching
  labels a pod "web-01" would share ordinal 1 with "web-1".
* Availability looks at the Ready condition only. Where this matters (the budget and convergence), finished pods are assumed not to be Ready.
* The names tried for one revision differ over as many collision counts as there are stored revisions, and one more;
  otherwise the probing loop of the source need not end. No more is assumed of the hash.
* Convergence assumes a fixed specification with a rollingUpdate block and a valid maxUnavailable, calls that succeed, no stale
  claims, a fresh listing for every sync, and that between syncs terminating pods vanish and pods that have not finished come
  up. Finished pods stay finished, and after the first round not Ready, until the controller deletes them. Nothing is assumed
  of the first state but that pods have a phase and carry the names of their ordinals; that two finished pods block for good is shown for first
  states whose finished pods are not Ready.
* In the theorems over runs the update revision exists and stays the same, and the revision that the status records as current
  is found in the history. Where it is not, the source takes the update revision for the current one
  (pkg/controller/xstatefulset/xstateful_set_control.go:343-345).
* The API server refuses to update a revision that is not stored, and so one without a name.
* The set and the pod that may own a claim have different kinds and different UIDs.

## Model

| member | source | states |
|---|---|---|
| Names.ParseIsRegex | pkg/controller/xstatefulset/xstateful_set_utils.go:73-91 | the model's parser finds a match iff the regular expression has one, and it is the leftmost, greedy one |
| Names.FormatParse | pkg/controller/xstatefulset/xstateful_set_utils.go:127-129 | printing a parsed ordinal restores its digits iff they have no superfluous leading zero |
| Names.ParsePrinted | pkg/controller/xstatefulset/xstateful_set_utils.go:79-103 | parsing a printed pod name gives back the ordinal (or -1 beyond int32), and the set name iff it contains no newline |
| Names.PrintParsed | pkg/controller/xstatefulset/xstateful_set_utils.go:79-129 | printing a parsed pod name gives it back iff the ordinal has no leading zero |
| Names.SamePodName | pkg/controller/xstatefulset/xstateful_set_utils.go:127-129 | set name and ordinal are determined by the pod name |
| Names.ClaimNameOfPod | pkg/controller/xstatefulset/xstateful_set_utils.go:127-136 | a claim is called after its template and its pod |
| Names.ClaimNameInjective | pkg/controller/xstatefulset/xstateful_set_utils.go:133-136 | within one set, claims of different templates or ordinals have different names |
| Pods.GetPodConditionFromList | pkg/controller/utils/pod.go:96-106 | the first condition of the kind, or -1 when there is none |
| Pods.ComputeReplicaStatus | pkg/controller/xstatefulset/xstateful_set_control.go:390-419 | each counter is the number of pods that meet its criterion |
| Pods.UpdateStatus | pkg/controller/xstatefulset/xstateful_set_control.go:421-435 | counting several lists is counting them laid end to end |
| Pods.TallyExtremes | pkg/controller/xstatefulset/xstateful_set_control.go:390-419 | a counter equals the list's length iff every pod meets the criterion, and zero iff none does |
| Pods.TallySqueeze | pkg/controller/xstatefulset/xstateful_set_control.go:390-419 | a narrower criterion with an equal counter holds of the same pods |
| Pods.TallyChanged | pkg/controller/xstatefulset/xstateful_set_control.go:390-419 | changing pods at n positions raises a counter by at most n |
| Pods.TallyIsCount | pkg/controller/xstatefulset/xstateful_set_control.go:390-419 | a counter is the number of positions that meet its criterion |
| Pods.CriteriaMeaning | pkg/controller/xstatefulset/xstateful_set_utils.go:473-510 | what each counter counts, by phase, first Ready condition, time, termination and revision |
| Identity.PodObject.UpdateIdentity | pkg/controller/xstatefulset/xstateful_set_utils.go:144-151 | name, namespace and the two labels are rewritten from set and ordinal; identityMatches holds beforehand iff the pod is the set's and nothing of this changes |
| Identity.PodObject.InitIdentity | pkg/controller/xstatefulset/xstateful_set_utils.go:452-457 | in addition host name and subdomain |
| Identity.PodObject.StorageMatches | pkg/controller/xstatefulset/xstateful_set_utils.go:154-173 | true iff every claim template's last volume is the pod's own claim, called after template, set and ordinal |
| Identity.PodObject.UpdateStorage | pkg/controller/xstatefulset/xstateful_set_utils.go:428-450 | afterwards storage matches; foreign volumes are kept in order, and there is one volume per template |
| Identity.PodObject.SetPodRevision | pkg/controller/xstatefulset/xstateful_set_utils.go:517-522 | the revision label is set and the identity label is untouched |
| Identity.NewStatefulSetPod | pkg/controller/xstatefulset/xstateful_set_utils.go:534-540 | a new pod has its template's labels and foreign volumes, its identity, host name and own claims; it passes storageMatches, and identityMatches iff the set name is newline-free |
| Identity.NewVersionedStatefulSetPod | pkg/controller/xstatefulset/xstateful_set_utils.go:546-557 | a pod is kept at the current revision below the partition, or below currentReplicas in a rollout without one; its label and the template it is built from are of the same revision, and the sync sees it as stamped |
| SlowStart.SlowStartBatch | pkg/controller/xstatefulset/xstateful_set_control.go:350-380 | for any order inside a batch each index of a prefix is called exactly once, successes and failures add up to the calls, and calls, batches and the start of the last batch are those of `Run` |
| SlowStart.RunBatch | pkg/controller/xstatefulset/xstateful_set_control.go:353-367 | one batch calls each of its indexes exactly once and counts the failures |
| SlowStart.RunIsBounded | pkg/controller/xstatefulset/xstateful_set_control.go:350-380 | the batch with failures is the last, failures are at most the calls before it plus the initial size, and without failures everything is called |
| SlowStart.BatchesOfCleanRun | pkg/controller/xstatefulset/xstateful_set_control.go:353-353 | the number of batches without errors: 1+floor(log2 N) up to 1011 calls, 9+ceil((N-511)/500) beyond |
| SlowStart.CommentIsRight | pkg/controller/controller_utils.go:94-97 | the documented number of batches is the real one iff N is at most 1011 or from 1024 to 1511 |
| Placement.PodsAreConserved | pkg/controller/xstatefulset/xstateful_set_control.go:622-657 | every observed pod with an ordinal is in exactly its slot or the condemned list; slot i has ordinal start+i; condemned is strictly descending and out of range |
| Placement.StampedOrdinal | pkg/controller/xstatefulset/xstateful_set_utils.go:546-557 | a stamped pod parses back to its ordinal |
| Placement.LastListedStays | pkg/controller/xstatefulset/xstateful_set_control.go:631-635 | of several listed pods with the ordinal of a slot the last stays |
| Placement.TallyIsConserved | pkg/controller/xstatefulset/xstateful_set_control.go:630-654 | no counter changes when pods are sorted into slots and condemned pods |
| Placement.CountsAreConserved | pkg/controller/xstatefulset/xstateful_set_control.go:620-657 | the status over the listing equals the status over slots and condemned pods |
| Placement.TallyForgetsListing | pkg/controller/xstatefulset/xstateful_set_control.go:390-419 | no counter depends on the order of the listing |
| Placement.ListingOrderIsIrrelevant | pkg/controller/xstatefulset/xstateful_set_control.go:586-777 | a sync has the same result for every order of the listing, whatever names its pods have |
| Sync.PartitionPods | pkg/controller/xstatefulset/xstateful_set_control.go:630-641 | the loop that fills the slot array and the condemned list |
| Sync.FillSlots | pkg/controller/xstatefulset/xstateful_set_control.go:643-654 | in place, empty slots get a pod at the right revision and others stay |
| Sync.FindFirstUnhealthy | pkg/controller/xstatefulset/xstateful_set_control.go:660-677 | the first unavailable pod among slots upwards, then condemned pods from the lowest ordinal |
| Sync.RunForAll | pkg/controller/xstatefulset/xstateful_set_control.go:562-575 | in-order visit with early exit, or batches |
| Sync.CountUnavailable | pkg/controller/xstatefulset/xstateful_set_control.go:811-817 | the unavailable slots, counted from the top |
| Sync.DeleteDownwards | pkg/controller/xstatefulset/xstateful_set_control.go:836-853 | the deletion loop under the budget, with its early return on errors |
| Sync.UpdateAfterInvariantEstablished | pkg/controller/xstatefulset/xstateful_set_control.go:779-855 | budget and deletions together; no index below the partition, and with all slots available the topmost outdated pod from the partition up |
| Sync.UpdateOneAtATime | pkg/controller/xstatefulset/xstateful_set_control.go:747-776 | the loop that runs with the gate off; the same about the partition |
| Sync.ProcessSlots | pkg/controller/xstatefulset/xstateful_set_control.go:689-777 | the phases of a sync and their early returns |
| Sync.UpdateStatefulSet | pkg/controller/xstatefulset/xstateful_set_control.go:586-777 | the imperative sync computes the function that all theorems are about |
| Sync.StatusObject.CompleteRollingUpdate | pkg/controller/xstatefulset/xstateful_set_utils.go:655-663 | the completion written into the status in place |
| Discipline.VisitFacts | pkg/controller/xstatefulset/xstateful_set_control.go:562-568 | an in-order visit stops exactly at the first index that exits or fails |
| Discipline.ReplicaVisit | pkg/controller/xstatefulset/xstateful_set_control.go:437-531 | OrderedReady goes past a slot only if it is healthy and makes at most one call, on the slot it stops at |
| Discipline.CondemnedVisit | pkg/controller/xstatefulset/xstateful_set_control.go:533-560 | OrderedReady deletes at most the first condemned pod, and any condemned pod ends the sync |
| Discipline.OrderedReadyDiscipline | pkg/controller/xstatefulset/xstateful_set_control.go:689-745 | each OrderedReady sync does at most one of: a create, a delete of a Failed or Succeeded pod, a scale-down delete, at most maxUnavailable update deletes, each only when the pods below (or all) are healthy |
| Discipline.HighestIsFirst | pkg/controller/xstatefulset/xstateful_set_control.go:660-677 | the highest condemned pod is the first unhealthy one iff it alone is unavailable |
| Discipline.OrderedScaleDown | pkg/controller/xstatefulset/xstateful_set_control.go:533-560 | only the highest condemned pod is deleted, and exactly when it is deleted |
| Discipline.CleanBatches | pkg/controller/xstatefulset/xstateful_set_control.go:562-575 | without errors Parallel mode visits everything |
| Discipline.ParallelDoesEverything | pkg/controller/xstatefulset/xstateful_set_control.go:689-728 | without errors a Parallel sync creates exactly the missing pods and deletes exactly the finished and condemned ones |
| Discipline.SomeFailure | pkg/controller/xstatefulset/xstateful_set_control.go:562-575 | Parallel mode stops, with an error, iff the call on some index fails |
| Discipline.FirstFailureIsAlone | pkg/controller/xstatefulset/xstateful_set_control.go:350-380 | a failing first call is the only one that Parallel mode makes |
| Discipline.ParallelReachesUpdate | pkg/controller/xstatefulset/xstateful_set_control.go:689-745 | exactly when a Parallel sync goes on to the update phase |
| Discipline.UpdateReached | pkg/controller/xstatefulset/xstateful_set_control.go:689-745 | in either mode exactly when a sync gets to the update phase, and what it then deletes and counts |
| Discipline.ParallelFailures | pkg/controller/xstatefulset/xstateful_set_control.go:689-777 | exactly when a Parallel sync returns an error: a call that a slot, a condemned pod or the update needs fails |
| Discipline.OrderedFailures | pkg/controller/xstatefulset/xstateful_set_control.go:689-777 | exactly when an OrderedReady sync returns an error: on the slot it stops at, in the claim work, in the scale-down delete, or in the update |
| Discipline.OrderedVisitErrs | pkg/controller/xstatefulset/xstateful_set_control.go:437-531 | the error of the visit is that of a call needed by the lowest slot that is not healthy or not enforced |
| Discipline.FailedCallsAreReported | pkg/controller/xstatefulset/xstateful_set_control.go:437-855 | a sync without error had no failed create or delete; only update deletes tolerate NotFound |
| Rollout.DeleteOutdatedRange | pkg/controller/xstatefulset/xstateful_set_control.go:836-853 | only outdated pods at or above the partition are deleted |
| Rollout.DeleteOutdatedCount | pkg/controller/xstatefulset/xstateful_set_control.go:834-853 | every deletion but a failed one is counted, and all fit the budget |
| Rollout.DeleteOutdatedOrder | pkg/controller/xstatefulset/xstateful_set_control.go:836-853 | deleted pods are the topmost outdated ones |
| Rollout.DeleteOutdatedAll | pkg/controller/xstatefulset/xstateful_set_control.go:836-853 | a loop that neither failed nor used up its budget deleted every outdated pod |
| Rollout.DeleteOutdatedErrors | pkg/controller/xstatefulset/xstateful_set_control.go:844-848 | only the lowest target can have failed, and a failure is reported |
| Rollout.LegacyTarget | pkg/controller/xstatefulset/xstateful_set_control.go:747-776 | exactly which pod the loop without budget deletes: the topmost outdated one, if all above it are available |
| Rollout.DeletionsCounted | pkg/controller/xstatefulset/xstateful_set_control.go:834-853 | the budgeted loop counts exactly what the budget allows of the outdated pods above the first refusal, and fails iff the budget reaches it |
| Rollout.UpdateCounts | pkg/controller/xstatefulset/xstateful_set_control.go:788-853 | the same for the whole update phase, with the budget from maxUnavailable |
| Rollout.MalformedIsAnError | pkg/controller/xstatefulset/xstateful_set_control.go:800-804 | a malformed maxUnavailable makes a gated update phase fail without touching a pod |
| Rollout.UpdateFacts | pkg/controller/xstatefulset/xstateful_set_control.go:747-855 | both loops delete from the top; deleted plus unavailable pods stay within maxUnavailable |
| Rollout.BudgetRespectsPartition | pkg/controller/xstatefulset/xstateful_set_control.go:788-853 | under the gate no index below the partition is deleted, and with all slots available the topmost outdated pod from the partition up is |
| Rollout.LegacyRespectsPartition | pkg/controller/xstatefulset/xstateful_set_control.go:747-776 | the same for the loop without budget |
| Rollout.MaxUnavailableBounds | pkg/controller/xstatefulset/xstateful_set_utils.go:704-715 | an integer counts but for at least one; percentages round down and up to 100% stay within max(1, replicas); only a malformed value is an error |
| Rollout.MaxUnavailableDefault | pkg/controller/xstatefulset/xstateful_set_utils.go:699-715 | exactly when one replica may be unavailable, so when no value is given |
| Rollout.BudgetOneRefinesLegacy | pkg/controller/xstatefulset/xstateful_set_control.go:747-855 | with maxUnavailable 1 the budgeted update is the older loop when all pods are available and does nothing otherwise |
| StatusMeaning.StampedPodIsDeleted | pkg/controller/xstatefulset/xstateful_set_control.go:747-776 | exactly when the update phase deletes a pod stamped in the same sync |
| StatusMeaning.SyncDeletesStampedPod | pkg/controller/xstatefulset/xstateful_set_control.go:689-777 | exactly when a whole sync does: in Parallel mode only, and when no needed call failed |
| StatusMeaning.NoStampedPodIsDeleted | pkg/controller/xstatefulset/xstateful_set_utils.go:546-557 | never with the gate on or a rollingUpdate block |
| StatusMeaning.LegacyDeletesStampedPod | pkg/controller/xstatefulset/xstateful_set_control.go:747-776 | inputs on which a pod is created and deleted in one sync and currentReplicas becomes -1 |
| StatusMeaning.MarkedTally | pkg/controller/xstatefulset/xstateful_set_control.go:406-416 | marking pods as terminating lowers a revision counter by the marked pods that counted |
| StatusMeaning.StatusIsDecremented | pkg/controller/xstatefulset/xstateful_set_control.go:836-853 | currentReplicas falls by one for each deletion that was not refused |
| StatusMeaning.StatusIsExact | pkg/controller/xstatefulset/xstateful_set_control.go:813-853 | currentReplicas is the number of live pods at the current revision after the deletions, less the deleted pods that were not counted |
| StatusMeaning.StatusIsExactForTwoRevisions | pkg/controller/xstatefulset/xstateful_set_control.go:813-853 | hence exact when all live pods are at the current or update revision |
| StatusMeaning.CurrentReplicasByInput | pkg/controller/xstatefulset/xstateful_set_control.go:689-853 | how far a sync counts currentReplicas down, by its inputs alone, and exactly when it is negative |
| StatusMeaning.LegacyCounts | pkg/controller/xstatefulset/xstateful_set_control.go:747-776 | the loop without budget counts one iff its only target is not refused |
| StatusMeaning.ThirdRevisionGoesNegative | pkg/controller/xstatefulset/xstateful_set_control.go:836-853 | an input with the gate on at which it becomes -1 |
| StatusMeaning.StatusMeansPods | pkg/controller/xstatefulset/xstateful_set_control.go:390-435 | each status counter is the number of slots and condemned pods that meet its criterion |
| StatusMeaning.DeletedSetIsLeftAlone | pkg/controller/xstatefulset/xstateful_set_control.go:683-687 | a set that is being deleted gets no call and no error |
| StatusMeaning.CompletedStatus | pkg/controller/xstatefulset/xstateful_set_utils.go:655-663 | what completing a rollout leaves in the status, and that nothing else changes it |
| StatusMeaning.CompletionIsSound | pkg/controller/xstatefulset/xstateful_set_utils.go:655-663 | a rollout completes iff as many pods were created as there are replicas and each is ready, not terminating and at the update revision |
| StatusMeaning.CompletionFillsSlots | pkg/controller/xstatefulset/xstateful_set_utils.go:655-663 | on completion every slot is up, ready and updated iff no pod is condemned; each condemned pod stands in for an empty slot |
| StatusMeaning.CompletionCountsCondemned | pkg/controller/xstatefulset/xstateful_set_control.go:730-730 | with a condemned pod a rollout can complete while the only slot is empty |
| Cluster.ListingIsView | pkg/controller/xstatefulset/xstateful_set_control.go:622-654 | a fresh listing in any order gives each slot the existing pod or a stamped one |
| Cluster.ListingOutside | pkg/controller/xstatefulset/xstateful_set_control.go:630-657 | the condemned pods of a fresh listing are exactly the existing pods out of range |
| Cluster.SyncIsJustified | pkg/controller/xstatefulset/xstateful_set_control.go:586-855 | in either mode every call of a sync has its reason in the pods it saw |
| Cluster.CallsKeepWellFormed | pkg/controller/xstatefulset/xstateful_set_control.go:586-855 | a sync never creates a pod out of range or under another ordinal |
| Safety.PartitionStep | pkg/controller/xstatefulset/xstateful_set_utils.go:546-557 | a step keeps old pods below the partition and the current revision |
| Safety.PartitionIsNeverCrossed | pkg/controller/xstatefulset/xstateful_set_control.go:837-853 | over every run with pods dying at will no pod below the partition runs the update revision and the current revision stays |
| Safety.DeletedInterval | pkg/controller/xstatefulset/xstateful_set_control.go:836-853 | deletions that succeed are an interval directly below the split |
| Safety.OldBelowNewStep | pkg/controller/xstatefulset/xstateful_set_control.go:832-853 | a step keeps old pods below new ones, with the split moving down only |
| Safety.UpdatesFillASuffix | pkg/controller/xstatefulset/xstateful_set_control.go:832-853 | over every run there is a split, at least the partition or the replica count: live old pods below, only new ones from it on, and it never moves up |
| Safety.CurrentReplicasIsTheSplit | pkg/controller/xstatefulset/xstateful_set_control.go:813-853 | the currentReplicas a sync computes is the split it leaves |
| Safety.StatusRecordsTheSplit | api/apps/v1/types.go:179-185 | the recorded current revision generates exactly the pods 0 to currentReplicas, whenever a sync has just written the status during a rollout |
| Safety.SyncRespectsBudget | pkg/controller/xstatefulset/xstateful_set_control.go:788-854 | a sync leaves at most max(unavailable before, maxUnavailable) slots unavailable |
| Safety.BudgetIsKept | pkg/controller/xstatefulset/xstateful_set_control.go:788-854 | over every run with a gentle environment at most maxUnavailable slots are unavailable |
| Convergence.CostZeroIsConverged | pkg/controller/xstatefulset/xstateful_set_control.go:577-585 | the cost is zero iff there is one pod per ordinal in range, none outside, none finished, and all updated but those below start + partition |
| Convergence.GapIsWorkedOn | pkg/controller/xstatefulset/xstateful_set_control.go:437-475 | an empty slot or a finished pod in one makes a sync create or delete |
| Convergence.CondemnedGo | pkg/controller/xstatefulset/xstateful_set_control.go:533-560 | with all slots healthy a condemned pod is deleted, except that in OrderedReady mode two finished ones may block |
| Convergence.UpdateFinds | pkg/controller/xstatefulset/xstateful_set_control.go:747-855 | with all pods available both update loops delete an outdated pod at or above the partition |
| Convergence.OutdatedGo | pkg/controller/xstatefulset/xstateful_set_control.go:733-855 | with all slots healthy and nothing condemned an outdated pod is deleted |
| Convergence.EveryStepPays | pkg/controller/xstatefulset/xstateful_set_control.go:586-855 | each round lowers the cost by exactly the number of pods it creates or deletes |
| Convergence.AvailableNotRunningBlocks | pkg/controller/xstatefulset/xstateful_set_control.go:533-560 | a highest condemned pod that is available but not Running blocks every OrderedReady scale-down and update |
| Convergence.FinishedPairBlocks | pkg/controller/xstatefulset/xstateful_set_control.go:533-560 | while two finished pods are out of range an OrderedReady sync deletes no finished pod there |
| Convergence.RoundSettles | pkg/controller/xstatefulset/xstateful_set_control.go:586-855 | a round from any state settles the pods and does not make a block |
| Convergence.SyncProgresses | pkg/controller/xstatefulset/xstateful_set_control.go:586-855 | while the cost is positive and nothing is blocked a sync makes a step, in both modes |
| Convergence.SettledRounds | pkg/controller/xstatefulset/xstateful_set_control.go:586-855 | over any number of rounds the steps made are the fall in cost |
| Convergence.RoundsConverge | pkg/controller/xstatefulset/xstateful_set_control.go:586-855 | from any state, after a number of rounds known in advance, the set is converged iff the mode is Parallel or at most one finished pod is out of range |
| Convergence.EveryReplicaIsUpdated | pkg/controller/xstatefulset/xstateful_set_control.go:577-585 | after that many rounds every ordinal in range holds a Running pod, and from start + partition up one at the update revision |
| Convergence.ConvergedIsQuiet | pkg/controller/xstatefulset/xstateful_set_control.go:586-855 | a sync of a converged set creates and deletes nothing, whatever calls would return and whatever the pods' health |
| Claims.HasOwner | pkg/controller/xstatefulset/xstateful_set_utils.go:369-377 | whether some reference has the owner's UID |
| Claims.FindStaleRef | pkg/controller/xstatefulset/xstateful_set_utils.go:381-388 | staleness is decided by the first matching reference |
| Claims.FindUnexpectedController | pkg/controller/xstatefulset/xstateful_set_utils.go:195-225 | a matching reference with another UID or a foreign controller, never under Retain/Retain |
| Claims.FindNonControllerOwner | pkg/controller/xstatefulset/xstateful_set_utils.go:228-237 | a reference to set or pod that is not a controller reference |
| Claims.IsClaimOwnerUpToDate | pkg/controller/xstatefulset/xstateful_set_utils.go:262-318 | the decision procedure, branch by branch |
| Claims.Claim.UpdateOwnerRefs | pkg/controller/xstatefulset/xstateful_set_utils.go:323-365 | the repair in place |
| Claims.AddControllerRef | pkg/controller/xstatefulset/xstateful_set_utils.go:391-401 | afterwards the owner is present, everything else is kept, and a reference is appended only if the owner was missing |
| Claims.RepairKeepsForeign | pkg/controller/xstatefulset/xstateful_set_utils.go:323-365 | the repair keeps everybody else's references in order, so each that differs from set and pod in version, kind or name |
| Claims.RepairAddsNoSecondController | pkg/controller/xstatefulset/xstateful_set_utils.go:195-225 | beside a foreign controller the repair adds no reference under any policy |
| Claims.RepairAgreesWithCheck | pkg/controller/xstatefulset/xstateful_set_utils.go:262-365 | exactly when the repaired references pass the check, for any references and policy |
| Claims.SecondRepair | pkg/controller/xstatefulset/xstateful_set_utils.go:262-365 | exactly when two repairs pass the check |
| Claims.StaleClaimIsLeftAlone | pkg/controller/xstatefulset/xstateful_set_utils.go:381-388 | a claim whose first matching reference has another UID counts as up to date and is not repaired |
| Claims.NoPolicyNoOwner | pkg/controller/xstatefulset/xstateful_set_utils.go:176-185 | without a policy the repair leaves no owner, and the check accepts claims without one |
| Claims.UpToDateMeaning | pkg/controller/xstatefulset/xstateful_set_utils.go:262-318 | an accepted claim refers to set and pod iff the policy wants it, by controller references only |
| Claims.ScaledDownClaimIsStale | pkg/controller/xstatefulset/xstateful_pod_control.go:277-298 | a claim handed to a scaled-down pod is stale for that pod's successor |
| Claims.ClaimStore.ClaimsMatchRetentionPolicy | pkg/controller/xstatefulset/xstateful_pod_control.go:222-240 | without error true iff every existing claim passes the check; an error iff a claim cannot be read and none before it fails the check |
| Claims.ClaimStore.PodClaimIsStale | pkg/controller/xstatefulset/xstateful_pod_control.go:277-298 | without error true iff the policy is not Retain when scaled and some existing claim is stale |
| Claims.ClaimStore.UpdatePodClaimForRetentionPolicy | pkg/controller/xstatefulset/xstateful_pod_control.go:244-272 | claims are repaired in order up to the first failing call, and no call before it failed |
| Claims.FixAllPointwise | pkg/controller/xstatefulset/xstateful_pod_control.go:244-272 | each listed claim is repaired once, no other claim changes |
| Claims.UpdateEstablishesCheck | pkg/controller/xstatefulset/xstateful_pod_control.go:222-272 | after a complete update the check passes iff every claim was up to date or repairable at once |
| Claims.PodClaimsAreDistinct | pkg/controller/xstatefulset/xstateful_set_utils.go:406-423 | different templates of a set give different claim names |
| Revisions.LessIsStrictTotal | pkg/controller/history/controller_history.go:156-164 | byRevision is a strict total order on revisions with different names |
| Revisions.LessMeaning | pkg/controller/history/controller_history.go:156-164 | lower numbers first, then older revisions, then lower names |
| Revisions.StringLessMeaning | pkg/controller/history/controller_history.go:159-159 | names compare at their first difference |
| Revisions.SortForgetsListing | pkg/controller/history/controller_history.go:123-125 | the sorted history does not depend on the order of the listing |
| Revisions.FindEqualRevisions | pkg/controller/history/controller_history.go:138-146 | the revisions with equal data, in order |
| Revisions.EqualMembers | pkg/controller/history/controller_history.go:129-146 | exactly the revisions with equal data, sorted if the history is |
| Revisions.ChoiceMeaning | pkg/controller/xstatefulset/xstateful_set_control.go:308-331 | when the newest revision is kept, which one is rolled back to, and that a new number is one above the highest |
| Revisions.ChoosingAgainKeeps | pkg/controller/xstatefulset/xstateful_set_control.go:312-325 | a newest revision with the proposed data is kept |
| Revisions.RevisionStore.CreateControllerRevision | pkg/controller/history/controller_history.go:237-265 | nothing stored is overwritten; the result is new or has equal data; collisionCount rises by exactly the clashes, at most the store's size; it fails iff its last call does |
| Revisions.RevisionStore.UpdateControllerRevision | pkg/controller/history/controller_history.go:267-288 | the retry loop with its rereads: what is returned and what is written |
| Revisions.AttemptsMeaning | pkg/controller/history/controller_history.go:267-288 | exactly, for any answers: when something is written and what, when success is reported without a write, and that success returns the wanted number |
| Revisions.WritesWhatWasAsked | pkg/controller/history/controller_history.go:267-288 | the given revision is written under the wanted number iff the attempt that writes has a copy of it |
| Revisions.SuccessIsWritten | pkg/controller/history/controller_history.go:267-288 | if conflicts lead back to the listed revision or to an object that is not stored, success means that it was written, and it is reached iff the conflicts before the write lead back to it |
| Revisions.ConflictSwallowsUpdate | pkg/controller/history/controller_history.go:270-285 | answers on which success is reported although nothing was written |
| Revisions.LostCopyIsRefused | pkg/controller/history/controller_history.go:270-285 | a conflict that leaves an object without a stored name ends in an error |
| Revisions.ConflictRereads | pkg/controller/history/controller_history.go:270-285 | after a conflict the cached copy under the name, or else the returned object, is what is written next |
| Revisions.RevisionStore.CarryOut | pkg/controller/xstatefulset/xstateful_set_control.go:308-331 | the four branches carry out the choice, fail iff the call they need does, and count the collisions |
| Revisions.RevisionStore.GetStatefulSetRevisions | pkg/controller/xstatefulset/xstateful_set_control.go:286-348 | it fails iff the call its choice needs does; unless a conflict leads to another stored copy or one that passes for written, the update revision is the newest of the resulting store and has the proposed data or matched; current is a listed revision with the recorded name, or update if there is none |
| Revisions.FindCurrent | pkg/controller/xstatefulset/xstateful_set_control.go:335-345 | the current revision by name |
| Revisions.UpdateIsNewest | pkg/controller/xstatefulset/xstateful_set_control.go:286-348 | the same as a property of any store in which the choice was carried out |
| Revisions.SecondCallKeeps | pkg/controller/xstatefulset/xstateful_set_control.go:312-325 | a second call with an unchanged template keeps the revision and writes nothing |
| Revisions.CollectLive | pkg/controller/xstatefulset/xstateful_set_control.go:202-212 | live are the current, the update and every pod's revision |
| Revisions.CollectHistory | pkg/controller/xstatefulset/xstateful_set_control.go:214-218 | the revisions that are not live, in order |
| Revisions.DeleteInOrder | pkg/controller/xstatefulset/xstateful_set_control.go:229-233 | exactly a prefix is deleted, up to the first failing call |
| Revisions.TruncateHistory | pkg/controller/xstatefulset/xstateful_set_control.go:195-235 | the store afterwards, with and without an error; the current, the update and every pod's revision are untouched |
| Revisions.LiveSurvive | pkg/controller/xstatefulset/xstateful_set_control.go:202-218 | no revision in use is set out to be deleted |
| Revisions.TruncationIsRight | pkg/controller/xstatefulset/xstateful_set_control.go:213-234 | no live revision is deleted, min(limit, count) others remain, and all deleted ones precede all remaining ones |
| Revisions.DoomedExactly | pkg/controller/xstatefulset/xstateful_set_control.go:213-234 | a revision is deleted iff it is not live and at least limit revisions that are not live are newer |
| Revisions.TruncationAfterFailure | pkg/controller/xstatefulset/xstateful_set_control.go:103-123 | exactly when a sync whose choice of revisions failed deletes the recorded current revision |
| Revisions.FailureLosesHistory | pkg/controller/xstatefulset/xstateful_set_control.go:103-123 | an input on which it deletes the whole history |
| Revisions.TruncationForgetsListing | pkg/controller/xstatefulset/xstateful_set_control.go:195-235 | what is deleted does not depend on the order of the listing |
| Expectations.ControllerExpectations.LowerExpectations | pkg/controller/controller_utils.go:255-261 | counters of a known key are lowered, an unknown key is ignored |
| Expectations.UIDTrackingExpectations.ExpectDeletions | pkg/controller/controller_utils.go:371-387 | both stores are set to the distinct UIDs |
| Expectations.UIDTrackingExpectations.DeletionObserved | pkg/controller/controller_utils.go:390-400 | a UID is removed and counted only if it was expected |
| Expectations.UIDTrackingExpectations.DeleteExpectations | pkg/controller/controller_utils.go:404-414 | both stores forget the key |
| Expectations.ControllerExpectations.SatisfiedExpectations | pkg/controller/controller_utils.go:205-233 | fulfilled, expired or never recorded |
| Expectations.StoresAgree | pkg/controller/controller_utils.go:350-414 | over every sequence of operations the deletion counter is the size of the UID set, which holds exactly the UIDs still waited for |
| Expectations.FulfilledIffNothingAwaited | pkg/controller/controller_utils.go:299-302 | expectations are fulfilled iff no deletion is still waited for |
| Expectations.SatisfiedMeaning | pkg/controller/controller_utils.go:205-238 | read off the history: a sync may go ahead iff nothing was expected, nothing is still waited for, or five minutes have passed |
| NextCheck.FindMinNextPodCheck | pkg/controller/controller_utils.go:934-945 | the least wait of all pods and the first pod that has it |
| NextCheck.PodBecomesAvailable | pkg/controller/controller_utils.go:914-929 | a pod becomes available exactly at the end of its wait |
| NextCheck.NextCheckIsExact | pkg/controller/controller_utils.go:934-945 | the set of available pods grows exactly from the shortest wait on |
| NextCheck.FindMinNextPodAvailabilityCheck | pkg/controller/controller_utils.go:952-965 | the returned wait is the first future instant, counted from now, by which the set has grown since the last evaluation |

## Left out

* The API server, informers, work queue, leader election, webhooks, events, logging and metrics. Calls appear as the answers in `Api`, `StoreApi` and the parameters `getFails` and `updateFails`.
* Stale caches and changes by others during a sync: a sync is atomic with respect to the environment.
* Conflict retries in UpdateStatefulPod and in the status update. For UpdateControllerRevision the number of attempts is that of the answers given, since the backoff is library behaviour.
* JSON, merge patches and hashing: a revision's data is an opaque string, its name an abstract function of data and collision count, and the semantic comparison with the newest revision a parameter. The cache in front of that comparison is not part of the model.
* The `Data.Object` of a revision, which the controller never sets; EqualRevision compares the raw data.
* Wrap-around of the 32-bit status counters and of collisionCount, and saturation of time durations.
* Floating-point rounding of percentages; the model rounds the exact quotient down.
* Creation of claims, and identity and claim enforcement on running pods inside a sync: they appear as success or failure. Identity, storage and ownership are modelled by themselves in `Identity` and `Claims`.
* Adoption and release of pods and revisions by owner reference, and the outer loop that lists, syncs, writes the status and truncates.
* ObservedGeneration, Selector and CollisionCount in the status, and the comparison that suppresses an unchanged status write.
* The library sorts are modelled by insertion on values; their results are characterised as the sorted order, which is unique.
* Goroutines of a batch are calls in an arbitrary order; the result of each call is fixed in advance.
* Pods inside a sync are values. The comparison of a condemned pod with the first unhealthy pod is by pointer in the source and by value here; with distinct ordinals they agree.
* Sets without a rollingUpdate block have no theorem over runs (their stamping depends on the recorded currentReplicas); they are covered by all theorems about one sync.
* UpdatePodCondition, ByLogging, ActivePods, ReplicaSet sorting, raising and creation expectations, and defaulting: not used by this controller or only easy branch tables.

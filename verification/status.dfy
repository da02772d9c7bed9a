/**
 What the status computed by a sync means, and when it completes a rollout.
 */
module StatusMeaning {
  import opened Prelude
  import opened Pods
  import opened Reconcile
  import opened Rollout
  import opened Discipline
  import Names

  /** Slots as a sync builds them: what has not been created is stamped. */
  predicate UncreatedAreStamped(t: Target, slots: seq<Pod>) {
    forall i :: 0 <= i < |slots| && !IsCreated(slots[i]) ==> slots[i] == Stamped(t, t.sts.start + i)
  }

  /**
   Whether the update phase deletes a pod that was stamped in the same sync, exactly: never with the gate on or with a
   rollingUpdate block, and otherwise iff the pod was stamped at a current revision that differs from the update
   revision and every pod above it is available and up to date.
   */
  lemma StampedPodIsDeleted(t: Target, slots: seq<Pod>, api: Api, clock: Clock, i: nat)
    requires UncreatedAreStamped(t, slots) && i < |slots| && !IsCreated(slots[i])
    ensures i in Update(t, slots, api, clock).targets <==>
            && !t.maxUnavailableGate
            && t.sts.strategy == UpdateStrategy(RollingUpdateType, None)
            && t.current != t.update && i < t.currentReplicas
            && forall j :: i < j < |slots| ==> !IsOutdated(slots[j], t.update) && !IsUnavailable(slots[j], clock)
  {
    LegacyTarget(slots, t.update, t.sts.UpdateMin(), |slots|, api, clock, i);
    UpdateFacts(t, slots, api, clock);
    assert Meets(slots[i], UnavailablePod, clock);
    TallyExtremes(slots, UnavailablePod, clock);
    hide LegacyUpdate;
    hide BudgetedUpdate;
    hide Tally;
    hide IsReady;
    hide Names.PodName;
  }

  /**
   The same for a whole sync. It gets as far as deleting a pod that it stamped only in Parallel mode and when no call
   that a slot or a condemned pod needs has failed.
   */
  lemma SyncDeletesStampedPod(
    t: Target, slots: seq<Pod>, condemned: seq<Pod>, api: Api, clock: Clock, i: nat)
    requires UncreatedAreStamped(t, slots) && i < |slots| && !IsCreated(slots[i])
    ensures i in SyncSlots(t, slots, condemned, api, clock).updated <==>
            && t.sts.parallel && !t.maxUnavailableGate
            && t.sts.strategy == UpdateStrategy(RollingUpdateType, None)
            && t.current != t.update && i < t.currentReplicas
            && (forall j :: 0 <= j < |slots| ==> !SlotFails(slots[j], j, api))
            && (forall j :: 0 <= j < |condemned| ==> !CondemnedFails(condemned[j], api))
            && forall j :: i < j < |slots| ==> !IsOutdated(slots[j], t.update) && !IsUnavailable(slots[j], clock)
  {
    StampedPodIsDeleted(t, slots, api, clock, i);
    hide Update;
    hide UncreatedAreStamped;
    hide IsOutdated;
    hide IsUnavailable;
    hide SlotFails;
    hide CondemnedFails;
    if t.sts.parallel {
      ParallelReachesUpdate(t, slots, condemned, api, clock);
    } else {
      OrderedReadyDiscipline(t, slots, condemned, api, clock);
    }
    hide SyncSlots;
  }

  /** So no pod stamped in a sync is deleted in it, unless the gate is off and there is no rollingUpdate block. */
  lemma NoStampedPodIsDeleted(t: Target, slots: seq<Pod>, api: Api, clock: Clock)
    requires UncreatedAreStamped(t, slots)
    requires t.maxUnavailableGate || t.sts.strategy.rollingUpdate.Some?
    ensures forall i :: i in Update(t, slots, api, clock).targets ==> i < |slots| && IsCreated(slots[i])
  {
    UpdateFacts(t, slots, api, clock);
    hide Update;
    hide UncreatedAreStamped;
    forall i | i in Update(t, slots, api, clock).targets
      ensures IsCreated(slots[i])
    {
      if !IsCreated(slots[i]) {
        StampedPodIsDeleted(t, slots, api, clock, i);
      }
    }
  }

  const QUIET: Api := Api(_ => Fresh, _ => Created, _ => Accepted(false), _ => false, _ => false, _ => false,
                          _ => Accepted(false), _ => Accepted(false))

  /**
   With the gate off, Parallel management and no rollingUpdate block, the only pod of a one-replica set is created at
   the current revision and deleted in the same sync, and currentReplicas is counted down to -1.
   */
  lemma LegacyDeletesStampedPod(t: Target, now: int)
    requires !t.maxUnavailableGate && t.sts.parallel && t.sts.replicas == 1 && !t.sts.deleting
    requires t.sts.strategy == UpdateStrategy(RollingUpdateType, None)
    requires t.current != t.update && t.currentReplicas >= 1
    ensures var r := SyncPods(t, [], QUIET, now);
            r.created == {0} && r.updated == {0} && r.status.currentReplicas == -1
  {
    hide Names.PodName;
    var slots, clock := [Stamped(t, t.sts.start)], Clock(t.sts.minReadySeconds, now);
    assert Slots(t, []) == slots;
    assert Condemned(t.sts, []) == [];
    var fn := ReplicaOutcomes(slots, false, QUIET, clock);
    assert fn == [Outcome(false, false, CreateCall)];
    OneCleanCall(fn);
    OneCleanCall([]);
    assert ClaimOutcomes([], QUIET) == [];
    assert Calls(fn, 1, CreateCall) == {0};
    assert slots + [] == slots;
    TallyExtremes(slots, AtRevision(t.current), clock);
    assert Update(t, slots, QUIET, clock) == Deletions({0}, 1, false);
  }

  lemma OneCleanCall(fn: seq<Outcome>)
    requires |fn| <= 1 && forall i :: 0 <= i < |fn| ==> !fn[i].err
    ensures VisitAll(fn, false) == Visit(|fn|, false, false)
  {
  }

  /** The slots with some of them marked as being deleted. */
  function Marked(slots: seq<Pod>, gone: set<nat>): (r: seq<Pod>)
    ensures |r| == |slots|
  {
    seq(|slots|, i requires 0 <= i < |slots| => if i in gone then slots[i].(terminating := true) else slots[i])
  }

  /** The members of gone at which a slot counts. */
  function Leaving(slots: seq<Pod>, gone: set<nat>, c: Criterion, clock: Clock): (r: set<nat>)
    ensures forall i :: i in r <==> i in gone && i < |slots| && Meets(slots[i], c, clock)
  {
    set i: nat | i in gone && i < |slots| && Meets(slots[i], c, clock)
  }

  lemma LeavingStep(slots: seq<Pod>, gone: set<nat>, c: Criterion, clock: Clock)
    requires slots != []
    ensures var last := |slots| - 1;
            |Leaving(slots, gone, c, clock)| ==
            |Leaving(slots[..last], gone, c, clock)| + if last in gone then Weight(slots[last], c, clock) else 0
  {
    hide Meets;
    var last := |slots| - 1;
    var leaving, before := Leaving(slots, gone, c, clock), Leaving(slots[..last], gone, c, clock);
    if last in gone && Meets(slots[last], c, clock) {
      assert leaving == before + {last};
    } else {
      assert leaving == before;
    }
  }

  lemma {:induction false} MarkedTally(slots: seq<Pod>, gone: set<nat>, revision: string, clock: Clock)
    ensures var c := AtRevision(revision);
            Tally(Marked(slots, gone), c, clock) + |Leaving(slots, gone, c, clock)| == Tally(slots, c, clock)
  {
    var c := AtRevision(revision);
    if slots == [] {
      assert Leaving(slots, gone, c, clock) == {};
    } else {
      var last := |slots| - 1;
      MarkedTally(slots[..last], gone, revision, clock);
      LeavingStep(slots, gone, c, clock);
      assert Marked(slots, gone)[..last] == Marked(slots[..last], gone);
    }
  }

  /** The update deletions of a sync that the API server did not refuse. */
  function Removed(r: SyncResult, api: Api): set<nat> {
    set i | i in r.updated && !api.deleteForUpdate(i).DeleteError?
  }

  /**
   What currentReplicas means after the update phase, for any pods: the created, non-terminating pods at the current
   revision once the deleted ones are marked terminating, less one for each deleted pod that was not counted there. So
   it is exact iff every pod deleted to update had been created and was at the current revision.
   */
  lemma StatusIsExact(t: Target, slots: seq<Pod>, condemned: seq<Pod>, api: Api, clock: Clock)
    ensures var r := SyncSlots(t, slots, condemned, api, clock);
            r.status.currentReplicas ==
            Tally(Marked(slots, Removed(r, api)) + condemned, AtRevision(t.current), clock)
            - |Strangers(t, slots, Removed(r, api))|
  {
    var r := SyncSlots(t, slots, condemned, api, clock);
    var gone := Removed(r, api);
    var c := AtRevision(t.current);
    StatusIsDecremented(t, slots, condemned, api, clock);
    MarkedTally(slots, gone, t.current, clock);
    TallyConcat(slots, condemned, c, clock);
    TallyConcat(Marked(slots, gone), condemned, c, clock);
    UpdateFacts(t, slots, api, clock);
    GoneSplits(t, slots, gone, clock);
  }

  /** So the counter is exact when all live pods are at the current or the update revision. */
  lemma StatusIsExactForTwoRevisions(t: Target, slots: seq<Pod>, condemned: seq<Pod>, api: Api, clock: Clock)
    requires UncreatedAreStamped(t, slots)
    requires t.maxUnavailableGate || t.sts.strategy.rollingUpdate.Some?
    requires forall i :: 0 <= i < |slots| && !slots[i].terminating ==> slots[i].revision in {t.current, t.update}
    ensures var r := SyncSlots(t, slots, condemned, api, clock);
            r.status.currentReplicas ==
            Tally(Marked(slots, Removed(r, api)) + condemned, AtRevision(t.current), clock)
  {
    StatusIsExact(t, slots, condemned, api, clock);
    StatusIsDecremented(t, slots, condemned, api, clock);
    UpdateFacts(t, slots, api, clock);
    NoStampedPodIsDeleted(t, slots, api, clock);
    hide Update;
    hide SyncSlots;
    hide Tally;
    var r := SyncSlots(t, slots, condemned, api, clock);
    assert Strangers(t, slots, Removed(r, api)) == {};
  }

  /**
   What currentReplicas comes to, by the inputs alone, and when it is negative. Under the gate the update phase takes
   off what its allowance leaves of the outdated pods above the first refusal; without the gate it takes off one iff
   the topmost outdated pod at or above the partition has only available pods above it and its deletion is not
   refused.
   */
  lemma CurrentReplicasByInput(t: Target, slots: seq<Pod>, condemned: seq<Pod>, api: Api, clock: Clock)
    ensures var steps := StepsDown(t, slots, condemned, api, clock);
            var counted := Tally(slots + condemned, AtRevision(t.current), clock);
            var status := SyncSlots(t, slots, condemned, api, clock).status;
            && status.currentReplicas == counted - steps
            && (status.currentReplicas < 0 <==> counted < steps)
  {
    UpdateReached(t, slots, condemned, api, clock);
    hide SyncSlots;
    hide GetsToUpdate;
    hide Tally;
    if t.maxUnavailableGate {
      UpdateCounts(t, slots, api, clock);
      hide Update;
    } else {
      LegacyCounts(t, slots, api, clock);
    }
  }

  /** The pod that the loop without budget deletes, in the words of LegacyTarget. */
  predicate IsLegacyTarget(t: Target, slots: seq<Pod>, clock: Clock, i: nat) {
    && t.sts.UpdateMin() <= i < |slots| && IsOutdated(slots[i], t.update)
    && forall j :: i < j < |slots| ==> !IsOutdated(slots[j], t.update) && !IsUnavailable(slots[j], clock)
  }

  /** How far a sync counts currentReplicas down. */
  ghost function StepsDown(t: Target, slots: seq<Pod>, condemned: seq<Pod>, api: Api, clock: Clock): nat {
    if !GetsToUpdate(t, slots, condemned, api, clock) then 0
    else if t.maxUnavailableGate then
      var f := RefusedBelow(slots, t.update, t.sts.UpdateMin(), |slots|, api);
      Min(Allowance(t, slots, clock), |OutdatedAt(slots, t.update, f, |slots|)|)
    else if !t.sts.strategy.kind.OnDeleteType? &&
            exists i: nat :: IsLegacyTarget(t, slots, clock, i) && !api.deleteForUpdate(i).DeleteError?
    then 1
    else 0
  }

  lemma LegacyCounts(t: Target, slots: seq<Pod>, api: Api, clock: Clock)
    ensures LegacyUpdate(slots, t.update, t.sts.UpdateMin(), |slots|, api, clock).counted ==
            if exists i: nat :: IsLegacyTarget(t, slots, clock, i) && !api.deleteForUpdate(i).DeleteError? then 1 else 0
  {
    var d := LegacyUpdate(slots, t.update, t.sts.UpdateMin(), |slots|, api, clock);
    LegacyFacts(slots, t.update, t.sts.UpdateMin(), |slots|, api, clock);
    forall i: nat
      ensures i in d.targets <==> IsLegacyTarget(t, slots, clock, i)
    {
      LegacyTarget(slots, t.update, t.sts.UpdateMin(), |slots|, api, clock, i);
    }
    hide LegacyUpdate;
    hide IsLegacyTarget;
    if i: nat :| i in d.targets {
      SingleTarget(d.targets, i);
      assert d.err ==> api.deleteForUpdate(i).DeleteError?;
    }
  }

  lemma SingleTarget(targets: set<nat>, i: nat)
    requires |targets| <= 1 && i in targets
    ensures targets == {i}
  {
    assert |targets - {i}| == 0;
  }

  /**
   An input, with the gate on: the healthy pod of a one-replica set, at a revision that is neither the current nor the
   update revision, is deleted to update and counted off although it was never counted.
   */
  lemma ThirdRevisionGoesNegative(t: Target, pod: Pod, now: int)
    requires t.maxUnavailableGate && !t.sts.parallel && !t.sts.deleting && t.sts.replicas == 1
    requires !t.sts.strategy.kind.OnDeleteType? && t.sts.UpdateMin() == 0 && MaxUnavailable(t.sts).Some?
    requires Ordinal(pod) == t.sts.start && IsHealthy(pod, Clock(t.sts.minReadySeconds, now))
    requires pod.revision != t.current && pod.revision != t.update
    ensures var r := SyncPods(t, [pod], QUIET, now);
            r.updated == {0} && r.status.currentReplicas == -1
  {
    hide Names.Ordinal;
    hide IsReady;
    hide IsAvailable;
    var clock := Clock(t.sts.minReadySeconds, now);
    OnlySlot(t, pod);
    UpdateReached(t, [pod], [], QUIET, clock);
    hide SyncSlots;
    assert [pod] + [] == [pod];
    TallyExtremes([pod], AtRevision(t.current), clock);
    TallyExtremes([pod], UnavailablePod, clock);
    hide Tally;
    assert DeleteOutdated([pod], t.update, 0, 1, MaxUnavailable(t.sts).value, QUIET) == Deletions({0}, 1, false);
  }

  lemma OnlySlot(t: Target, pod: Pod)
    requires t.sts.replicas == 1 && Ordinal(pod) == t.sts.start
    ensures Slots(t, [pod]) == [pod] && Condemned(t.sts, [pod]) == []
  {
    assert [pod][..0] == [];
    assert Place(t.sts, [pod]) == Place(t.sts, [])[0 := Some(pod)];
    assert Outside(t.sts, [pod]) == [];
  }

  lemma GoneSplits(t: Target, slots: seq<Pod>, gone: set<nat>, clock: Clock)
    requires forall i :: i in gone ==> i < |slots| && !slots[i].terminating
    ensures |gone| == |Strangers(t, slots, gone)| + |Leaving(slots, gone, AtRevision(t.current), clock)|
  {
    var strangers, leaving := Strangers(t, slots, gone), Leaving(slots, gone, AtRevision(t.current), clock);
    assert gone == strangers + leaving && strangers !! leaving;
  }

  /** Deleted pods that had not been counted as current: not created, or not at the current revision. */
  function Strangers(t: Target, slots: seq<Pod>, gone: set<nat>): set<nat> {
    set i: nat | i in gone && i < |slots| && !(IsCreated(slots[i]) && slots[i].revision == t.current)
  }

  /** The update phase lowers currentReplicas by one for each deletion that was not refused. */
  lemma StatusIsDecremented(t: Target, slots: seq<Pod>, condemned: seq<Pod>, api: Api, clock: Clock)
    ensures var r := SyncSlots(t, slots, condemned, api, clock);
            && (r.updated == {} || r.updated == Update(t, slots, api, clock).targets)
            && r.status.currentReplicas ==
               Tally(slots + condemned, AtRevision(t.current), clock) - |Removed(r, api)|
  {
    var r := SyncSlots(t, slots, condemned, api, clock);
    var d := Update(t, slots, api, clock);
    UpdateFacts(t, slots, api, clock);
    if r.updated == {} {
      assert Removed(r, api) == {};
      assert d.targets == {} ==> d.counted == 0;
    } else {
      RemovedCount(t, slots, r, api, d);
    }
  }

  lemma RemovedCount(t: Target, slots: seq<Pod>, r: SyncResult, api: Api, d: Deletions)
    requires TakenFromTop(slots, t.update, t.sts.UpdateMin(), |slots|, api, d)
    requires r.updated == d.targets != {}
    ensures |Removed(r, api)| == d.counted
  {
    if d.err {
      var i :| i in d.targets && api.deleteForUpdate(i).DeleteError?;
      assert Removed(r, api) == d.targets - {i};
    } else {
      assert Removed(r, api) == d.targets;
    }
  }

  /** The status counters of a sync, each by the pods it counts among slots and condemned pods. */
  lemma StatusMeansPods(t: Target, slots: seq<Pod>, condemned: seq<Pod>, api: Api, clock: Clock)
    ensures var status, pods := SyncSlots(t, slots, condemned, api, clock).status, slots + condemned;
            && status.replicas == |MetAt(pods, CreatedPod, clock)|
            && status.readyReplicas == |MetAt(pods, ReadyPod, clock)|
            && status.availableReplicas == |MetAt(pods, AvailablePod, clock)|
            && status.updatedReplicas == |MetAt(pods, AtRevision(t.update), clock)|
            && status.currentRevision == t.current && status.updateRevision == t.update
  {
    StatusCounts(t, slots, condemned, api, clock);
    hide SyncSlots;
    hide MetAt;
    var pods := slots + condemned;
    TallyIsCount(pods, CreatedPod, clock);
    TallyIsCount(pods, ReadyPod, clock);
    TallyIsCount(pods, AvailablePod, clock);
    TallyIsCount(pods, AtRevision(t.update), clock);
  }

  /**
   A set that is being deleted is left alone: no call, no error, and the status counts the pods that were listed.
   */
  lemma DeletedSetIsLeftAlone(t: Target, pods: seq<Pod>, api: Api, now: int)
    requires t.sts.deleting
    ensures var r := SyncPods(t, pods, api, now);
            && r.created == {} && r.finished == {} && r.scaledDown == {} && r.updated == {} && !r.err
            && r.status == StatusOver(t, pods, Clock(t.sts.minReadySeconds, now))
  {
  }

  /**
   What completing a rollout leaves: the update revision becomes the current one, all replicas count as current, and
   nothing else changes; unless it completes, nothing does.
   */
  lemma CompletedStatus(s: StatefulSet, status: Status)
    ensures var c := CompleteRollingUpdate(s, status);
            if s.strategy.kind == RollingUpdateType && status.updatedReplicas == status.readyReplicas == s.replicas
               && status.replicas == s.replicas
            then
              && c.currentRevision == c.updateRevision && c.currentReplicas == s.replicas
              && c == status.(currentRevision := c.currentRevision, currentReplicas := c.currentReplicas)
            else c == status
  {
  }

  /** A created pod that a finished rollout may contain. */
  predicate Rolled(pod: Pod, update: string) {
    IsRunningAndReady(pod) && !pod.terminating && pod.revision == update
  }

  /**
   completeRollingUpdate moves a rollout's current revision forward iff the set rolls, exactly as many pods have been
   created as there are replicas, and every created pod, condemned ones included, is ready, not terminating and at the
   update revision.
   */
  lemma CompletionIsSound(t: Target, slots: seq<Pod>, condemned: seq<Pod>, api: Api, clock: Clock)
    requires t.current != t.update
    ensures var pods := slots + condemned;
            var status := SyncSlots(t, slots, condemned, api, clock).status;
            CompleteRollingUpdate(t.sts, status).currentRevision == t.update <==>
            && t.sts.strategy.kind.RollingUpdateType?
            && Tally(pods, CreatedPod, clock) == t.sts.replicas
            && forall i :: 0 <= i < |pods| && IsCreated(pods[i]) ==> Rolled(pods[i], t.update)
  {
    hide SyncSlots;
    hide IsReady;
    hide IsAvailable;
    StatusCounts(t, slots, condemned, api, clock);
    var pods := slots + condemned;
    TallySqueeze(pods, ReadyPod, CreatedPod, clock);
    TallySqueeze(pods, AtRevision(t.update), CreatedPod, clock);
    if forall i :: 0 <= i < |pods| && IsCreated(pods[i]) ==> Rolled(pods[i], t.update) {
      forall i | 0 <= i < |pods| && IsCreated(pods[i])
        ensures Meets(pods[i], ReadyPod, clock) && Meets(pods[i], AtRevision(t.update), clock)
      {
        assert Rolled(pods[i], t.update);
      }
      TallySqueeze(pods, CreatedPod, ReadyPod, clock);
      TallySqueeze(pods, CreatedPod, AtRevision(t.update), clock);
    } else {
      var i :| 0 <= i < |pods| && IsCreated(pods[i]) && !Rolled(pods[i], t.update);
      assert Meets(pods[i], CreatedPod, clock);
    }
  }

  /** Whatever a sync does, only currentReplicas of the status depends on it. */
  lemma StatusCounts(t: Target, slots: seq<Pod>, condemned: seq<Pod>, api: Api, clock: Clock)
    ensures var status := SyncSlots(t, slots, condemned, api, clock).status;
            status == StatusOver(t, slots + condemned, clock).(currentReplicas := status.currentReplicas)
  {
  }

  /**
   A rollout that completes has every slot up, ready and at the update revision exactly when no pod is condemned: each
   condemned pod stands in for an empty slot.
   */
  lemma CompletionFillsSlots(t: Target, slots: seq<Pod>, condemned: seq<Pod>, api: Api, clock: Clock)
    requires t.current != t.update && |slots| == t.sts.replicas
    requires forall j :: 0 <= j < |condemned| ==> IsCreated(condemned[j])
    requires CompleteRollingUpdate(t.sts, SyncSlots(t, slots, condemned, api, clock).status).currentRevision == t.update
    ensures (forall i :: 0 <= i < |slots| ==> Rolled(slots[i], t.update)) <==> condemned == []
    ensures |slots| == Tally(slots, CreatedPod, clock) + |condemned|
  {
    CompletionIsSound(t, slots, condemned, api, clock);
    hide SyncSlots;
    hide Tally;
    TallyConcat(slots, condemned, CreatedPod, clock);
    TallyExtremes(slots, CreatedPod, clock);
    TallyExtremes(condemned, CreatedPod, clock);
    assert forall j :: 0 <= j < |condemned| ==> Meets(condemned[j], CreatedPod, clock);
    var pods := slots + condemned;
    if condemned == [] {
      forall i | 0 <= i < |slots|
        ensures Rolled(slots[i], t.update)
      {
        assert Meets(slots[i], CreatedPod, clock) && pods[i] == slots[i];
      }
    } else {
      var i :| 0 <= i < |slots| && !Meets(slots[i], CreatedPod, clock);
      assert !Rolled(slots[i], t.update);
    }
  }

  /**
   An input for the other case: the rollout of a one-replica set completes while its slot is empty, if the only pod is
   one outside the range that is ready and at the update revision.
   */
  lemma CompletionCountsCondemned(t: Target, pod: Pod, now: int)
    requires t.current != t.update && t.sts.strategy.kind.RollingUpdateType? && t.sts.replicas == 1 && !t.sts.deleting
    requires Rolled(pod, t.update) && !t.sts.InRange(Ordinal(pod)) && Ordinal(pod) >= 0
    ensures !IsCreated(Slots(t, [pod])[0])
    ensures CompleteRollingUpdate(t.sts, SyncPods(t, [pod], QUIET, now).status).currentRevision == t.update
  {
    hide SyncSlots;
    hide Names.Ordinal;
    OnlyOutside(t, pod);
    var slots, clock := Slots(t, [pod]), Clock(t.sts.minReadySeconds, now);
    TallyConcat(slots, [pod], CreatedPod, clock);
    TallyExtremes(slots, CreatedPod, clock);
    TallyExtremes([pod], CreatedPod, clock);
    CompletionIsSound(t, slots, [pod], QUIET, clock);
  }

  lemma OnlyOutside(t: Target, pod: Pod)
    requires t.sts.replicas == 1 && !t.sts.InRange(Ordinal(pod)) && Ordinal(pod) >= 0
    ensures Condemned(t.sts, [pod]) == [pod]
    ensures !IsCreated(Slots(t, [pod])[0])
  {
    assert [pod][..0] == [];
    assert Outside(t.sts, [pod]) == Outside(t.sts, []) + [pod];
    assert SortDescending([pod]) == InsertDescending(pod, SortDescending([]));
    assert Place(t.sts, [pod]) == Place(t.sts, []);
  }
}

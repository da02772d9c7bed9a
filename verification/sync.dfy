/**
 The loops of a sync (xstateful_set_control.go), proved to compute the function Reconcile.SyncPods.
 */
module Sync {
  import opened Prelude
  import opened Pods
  import opened Reconcile
  import opened Rollout
  import SlowStart
  import Identity
  import opened Placement

  /** The first loop of updateStatefulSet: an array of slots and a growing list of condemned pods. */
  method PartitionPods(sts: StatefulSet, pods: seq<Pod>) returns (slots: array<Option<Pod>>, condemned: seq<Pod>)
    ensures fresh(slots) && slots[..] == Place(sts, pods)
    ensures condemned == Outside(sts, pods)
  {
    slots := new Option<Pod>[sts.replicas](_ => None);
    condemned := [];
    assert slots[..] == Place(sts, []);
    for i := 0 to |pods|
      invariant slots[..] == Place(sts, pods[..i])
      invariant condemned == Outside(sts, pods[..i])
    {
      var pod := pods[i];
      assert pods[..i + 1][..i] == pods[..i];
      if sts.InRange(Ordinal(pod)) {
        slots[Ordinal(pod) - sts.start] := Some(pod);
      } else if Ordinal(pod) >= 0 {
        condemned := condemned + [pod];
      }
    }
    assert pods[..|pods|] == pods;
  }

  /** The second loop: every empty slot gets a pod stamped at the right revision. */
  method FillSlots(t: Target, slots: array<Option<Pod>>, current: Identity.Template, update: Identity.Template)
    requires t.sts.Valid() && slots.Length == t.sts.replicas
    modifies slots
    ensures forall i :: 0 <= i < slots.Length ==> slots[i] == Some(Fill(t, old(slots[..]))[i])
  {
    hide Stamped;
    hide Identity.IsKeptCurrent;
    hide Identity.StorageOk;
    hide Identity.Foreign;
    hide Identity.Identified;
    for i := 0 to slots.Length
      invariant forall j :: 0 <= j < i ==> slots[j] == Some(Fill(t, old(slots[..]))[j])
      invariant forall j :: i <= j < slots.Length ==> slots[j] == old(slots[j])
    {
      if slots[i].None? {
        var pod := Identity.NewVersionedStatefulSetPod(t, current, update, t.sts.start + i);
        slots[i] := Some(pod.Snapshot());
      }
    }
  }

  /** The two scans for the first unhealthy pod: slots upwards, then condemned pods from the lowest ordinal up. */
  method FindFirstUnhealthy(slots: seq<Pod>, condemned: seq<Pod>, clock: Clock) returns (first: Option<Pod>)
    ensures first == FirstUnhealthy(slots, condemned, clock)
  {
    first := None;
    ghost var all := slots + Reversed(condemned);
    for i := 0 to |slots|
      invariant FirstUnavailable(all, clock) == if first.Some? then first else FirstUnavailable(all[i..], clock)
    {
      assert all[i..][0] == slots[i] && all[i..][1..] == all[i + 1..];
      if IsUnavailable(slots[i], clock) && first.None? {
        first := Some(slots[i]);
      }
    }
    for i := |condemned| downto 0
      invariant FirstUnavailable(all, clock) ==
                if first.Some? then first else FirstUnavailable(all[|slots| + |condemned| - i..], clock)
    {
      var k := |slots| + |condemned| - i - 1;
      assert all[k..][0] == condemned[i] && all[k..][1..] == all[k + 1..];
      if IsUnavailable(condemned[i], clock) && first.None? {
        first := Some(condemned[i]);
      }
    }
  }

  /** runForAll: in order with an early exit, or in batches. */
  method RunForAll(fn: seq<Outcome>, monotonic: bool) returns (v: Visit)
    ensures v == VisitAll(fn, monotonic)
  {
    if monotonic {
      for i := 0 to |fn|
        invariant VisitInOrder(fn, 0) == VisitInOrder(fn, i)
      {
        if fn[i].exit || fn[i].err {
          return Visit(i + 1, true, fn[i].err);
        }
      }
      v := Visit(|fn|, false, false);
    } else {
      var _, failures, calls, _, _ := SlowStart.SlowStartBatch(1, Errors(fn));
      v := Visit(|calls|, failures > 0, failures > 0);
    }
  }

  /** The loop that counts unavailable replicas from the highest index down. */
  method CountUnavailable(slots: seq<Pod>, clock: Clock) returns (unavailable: nat)
    ensures unavailable == Tally(slots, UnavailablePod, clock)
  {
    unavailable := 0;
    assert slots[..|slots|] == slots;
    for target := |slots| downto 0
      invariant unavailable + Tally(slots[..target], UnavailablePod, clock) == Tally(slots, UnavailablePod, clock)
    {
      assert slots[..target + 1][..target] == slots[..target];
      if IsUnavailable(slots[target], clock) {
        unavailable := unavailable + 1;
      }
    }
  }

  /** The loop that deletes outdated pods from the highest index down while the budget lasts. */
  method DeleteDownwards(slots: seq<Pod>, update: string, updateMin: nat, podsToDelete: nat, api: Api)
    returns (d: Deletions)
    ensures d == DeleteOutdated(slots, update, updateMin, |slots|, podsToDelete, api)
  {
    var deleted: nat := 0;
    var targets: set<nat> := {};
    var top := |slots|;
    ghost var all := DeleteOutdated(slots, update, updateMin, |slots|, podsToDelete, api);
    while top > updateMin && deleted < podsToDelete
      invariant 0 <= top <= |slots| && deleted <= podsToDelete
      invariant var rest := DeleteOutdated(slots, update, updateMin, top, podsToDelete - deleted, api);
                all.targets == targets + rest.targets && all.counted == deleted + rest.counted && all.err == rest.err
      decreases top
    {
      top := top - 1;
      if slots[top].revision != update && !slots[top].terminating {
        targets := targets + {top};
        if api.deleteForUpdate(top).DeleteError? {
          return Deletions(targets, deleted, true);
        }
        deleted := deleted + 1;
      }
    }
    d := Deletions(targets, deleted, false);
  }

  /** updateStatefulSetAfterInvariantEstablished: the budget, then deletions from the highest index down. */
  method UpdateAfterInvariantEstablished(sts: StatefulSet, slots: seq<Pod>, update: string, api: Api, clock: Clock)
    returns (d: Deletions)
    ensures d == BudgetedUpdate(sts, slots, update, api, clock)
    ensures MaxUnavailable(sts).Some? ==> RespectsPartition(sts, slots, update, clock, d)
    ensures MaxUnavailable(sts).None? ==> d == Deletions({}, 0, true)
  {
    if MaxUnavailable(sts).Some? {
      BudgetRespectsPartition(sts, slots, update, api, clock);
    }
    hide RespectsPartition;
    var updateMin := 0;
    var maxUnavailable := Some(1);
    if sts.strategy.rollingUpdate.Some? {
      updateMin := sts.strategy.rollingUpdate.value.partition;
      maxUnavailable := MaxUnavailable(sts);
      if maxUnavailable.None? {
        return Deletions({}, 0, true);
      }
    }
    var unavailable := CountUnavailable(slots, clock);
    if unavailable >= maxUnavailable.value {
      return Deletions({}, 0, false);
    }
    d := DeleteDownwards(slots, update, updateMin, maxUnavailable.value - unavailable, api);
  }

  /** The update loop used when the MaxUnavailableStatefulSet gate is off. */
  method UpdateOneAtATime(sts: StatefulSet, slots: seq<Pod>, update: string, api: Api, clock: Clock)
    returns (d: Deletions)
    ensures d == LegacyUpdate(slots, update, sts.UpdateMin(), |slots|, api, clock)
    ensures RespectsPartition(sts, slots, update, clock, d)
  {
    LegacyRespectsPartition(sts, slots, update, api, clock);
    hide RespectsPartition;
    var top := |slots|;
    while top > sts.UpdateMin()
      invariant 0 <= top <= |slots|
      invariant LegacyUpdate(slots, update, sts.UpdateMin(), |slots|, api, clock) ==
                LegacyUpdate(slots, update, sts.UpdateMin(), top, api, clock)
      decreases top
    {
      top := top - 1;
      if slots[top].revision != update && !slots[top].terminating {
        if api.deleteForUpdate(top).DeleteError? {
          return Deletions({top}, 0, true);
        }
        return Deletions({top}, 1, false);
      }
      if IsUnavailable(slots[top], clock) {
        return Deletions({}, 0, false);
      }
    }
    return Deletions({}, 0, false);
  }

  /** From slots and condemned pods to the end of updateStatefulSet. */
  method ProcessSlots(t: Target, slots: seq<Pod>, condemned: seq<Pod>, api: Api, clock: Clock) returns (r: SyncResult)
    ensures r == SyncSlots(t, slots, condemned, api, clock)
  {
    hide VisitAll;
    hide CountsOf;
    hide BudgetedUpdate;
    hide LegacyUpdate;
    hide ReplicaOutcomes;
    hide ClaimOutcomes;
    hide CondemnedOutcomes;
    hide FirstUnhealthy;
    var monotonic := !t.sts.parallel;
    var first := FindFirstUnhealthy(slots, condemned, clock);
    var fn := ReplicaOutcomes(slots, monotonic, api, clock);
    var v := RunForAll(fn, monotonic);
    var created, finished := Calls(fn, v.visited, CreateCall), Calls(fn, v.visited, DeleteCall);
    var counts := UpdateStatus([slots, condemned], clock, t.current, t.update);
    FlattenTwo(slots, condemned);
    var status := StatusFrom(counts, t);
    if v.stop {
      return SyncResult(status, v.err, created, finished, {}, {});
    }
    var w := RunForAll(ClaimOutcomes(condemned, api), monotonic);
    if w.stop {
      return SyncResult(status, w.err, created, finished, {}, {});
    }
    var fn' := CondemnedOutcomes(condemned, first, monotonic, api, clock);
    var x := RunForAll(fn', monotonic);
    var scaledDown := OrdinalsAt(condemned, Calls(fn', x.visited, DeleteCall));
    if x.stop {
      return SyncResult(status, x.err, created, finished, scaledDown, {});
    }
    var d := Deletions({}, 0, false);
    if !t.sts.strategy.kind.OnDeleteType? {
      if t.maxUnavailableGate {
        d := UpdateAfterInvariantEstablished(t.sts, slots, t.update, api, clock);
      } else {
        d := UpdateOneAtATime(t.sts, slots, t.update, api, clock);
      }
    }
    status := status.(currentReplicas := status.currentReplicas - d.counted);
    return SyncResult(status, d.err, created, finished, scaledDown, d.targets);
  }

  lemma FlattenTwo(a: seq<Pod>, b: seq<Pod>)
    ensures Flatten([a, b]) == a + b
  {
    assert [a, b][..1] == [a];
    assert [a][..0] == [];
    assert Flatten([a]) == Flatten([]) + a;
  }

  /** updateStatefulSet. */
  method UpdateStatefulSet(
    t: Target, pods: seq<Pod>, current: Identity.Template, update: Identity.Template, api: Api, now: int)
    returns (r: SyncResult)
    requires t.sts.Valid()
    ensures r == SyncPods(t, pods, api, now)
  {
    var clock := Clock(t.sts.minReadySeconds, now);
    var slots, condemned := PartitionPods(t.sts, pods);
    FillSlots(t, slots, current, update);
    var filled := seq(slots.Length, i requires 0 <= i < slots.Length && slots[i].Some? reads slots => slots[i].value);
    assert filled == Slots(t, pods);
    if t.sts.deleting {
      var counts := ComputeReplicaStatus(pods, clock, t.current, t.update);
      return SyncResult(StatusFrom(counts, t), false, {}, {}, {}, {});
    }
    r := ProcessSlots(t, filled, SortDescending(condemned), api, clock);
  }

  /** completeRollingUpdate writes the completion into the status in place. */
  class StatusObject {
    var value: Status

    method CompleteRollingUpdate(sts: StatefulSet)
      modifies this
      ensures value == Reconcile.CompleteRollingUpdate(sts, old(value))
    {
      if sts.strategy.kind.RollingUpdateType? && value.updatedReplicas == sts.replicas
         && value.readyReplicas == sts.replicas && value.replicas == sts.replicas {
        value := value.(currentReplicas := value.updatedReplicas);
        value := value.(currentRevision := value.updateRevision);
      }
    }
  }
}

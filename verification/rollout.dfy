/**
 The deletions of a rolling update: their order, their budget, and the loop they replace.
 */
module Rollout {
  import opened Prelude
  import opened Pods
  import opened Reconcile

  /**
   What both update loops have in common. Targets are outdated pods at or above the partition, taken from the top; the
   counted deletions are those that did not fail, and only the lowest target can fail.
   */
  ghost predicate TakenFromTop(slots: seq<Pod>, update: string, updateMin: nat, top: nat, api: Api, d: Deletions)
    requires top <= |slots|
  {
    && (forall i :: i in d.targets ==> updateMin <= i < top && IsOutdated(slots[i], update))
    && (forall i, j :: i in d.targets && i < j < top && IsOutdated(slots[j], update) ==> j in d.targets)
    && (forall i :: i in d.targets && api.deleteForUpdate(i).DeleteError? ==>
          d.err && forall j :: j in d.targets ==> i <= j)
    && (d.err && d.targets != {} ==> exists i :: i in d.targets && api.deleteForUpdate(i).DeleteError?)
    && |d.targets| == d.counted + (if d.err && d.targets != {} then 1 else 0)
  }

  lemma {:induction false} DeleteOutdatedRange(
    slots: seq<Pod>, update: string, updateMin: nat, top: nat, budget: nat, api: Api, i: nat)
    requires top <= |slots|
    requires i in DeleteOutdated(slots, update, updateMin, top, budget, api).targets
    ensures updateMin <= i < top && IsOutdated(slots[i], update)
  {
    hide IsOutdated;
    if !IsOutdated(slots[top - 1], update) {
      DeleteOutdatedRange(slots, update, updateMin, top - 1, budget, api, i);
    } else if i != top - 1 {
      DeleteOutdatedRange(slots, update, updateMin, top - 1, budget - 1, api, i);
    }
  }

  /** Every deletion but one that failed is counted, and all of them fit the budget. */
  lemma {:induction false} DeleteOutdatedCount(
    slots: seq<Pod>, update: string, updateMin: nat, top: nat, budget: nat, api: Api)
    requires top <= |slots|
    ensures var d := DeleteOutdated(slots, update, updateMin, top, budget, api);
            && |d.targets| == d.counted + (if d.err then 1 else 0)
            && |d.targets| <= budget
  {
    hide IsOutdated;
    if top > updateMin && budget > 0 {
      if IsOutdated(slots[top - 1], update) {
        DeleteOutdatedCount(slots, update, updateMin, top - 1, budget - 1, api);
        var rest := DeleteOutdated(slots, update, updateMin, top - 1, budget - 1, api);
        if top - 1 in rest.targets {
          DeleteOutdatedRange(slots, update, updateMin, top - 1, budget - 1, api, top - 1);
        }
      } else {
        DeleteOutdatedCount(slots, update, updateMin, top - 1, budget, api);
      }
    }
  }

  lemma {:induction false} DeleteOutdatedOrder(
    slots: seq<Pod>, update: string, updateMin: nat, top: nat, budget: nat, api: Api, i: nat, j: nat)
    requires i < j < top <= |slots| && IsOutdated(slots[j], update)
    requires i in DeleteOutdated(slots, update, updateMin, top, budget, api).targets
    ensures j in DeleteOutdated(slots, update, updateMin, top, budget, api).targets
  {
    if j < top - 1 {
      if IsOutdated(slots[top - 1], update) {
        DeleteOutdatedOrder(slots, update, updateMin, top - 1, budget - 1, api, i, j);
      } else {
        DeleteOutdatedOrder(slots, update, updateMin, top - 1, budget, api, i, j);
      }
    }
  }

  /** A loop that neither failed nor used up its budget deleted every outdated pod. */
  lemma {:induction false} DeleteOutdatedAll(
    slots: seq<Pod>, update: string, updateMin: nat, top: nat, budget: nat, api: Api, j: nat)
    requires updateMin <= j < top <= |slots| && IsOutdated(slots[j], update)
    ensures var d := DeleteOutdated(slots, update, updateMin, top, budget, api);
            !d.err && |d.targets| < budget ==> j in d.targets
  {
    DeleteOutdatedCount(slots, update, updateMin, top, budget, api);
    if budget > 0 {
      if IsOutdated(slots[top - 1], update) {
        DeleteOutdatedCount(slots, update, updateMin, top - 1, budget - 1, api);
        if j < top - 1 {
          DeleteOutdatedAll(slots, update, updateMin, top - 1, budget - 1, api, j);
        }
      } else {
        DeleteOutdatedAll(slots, update, updateMin, top - 1, budget, api, j);
      }
    }
  }

  /** The outdated pods from..to. */
  function OutdatedAt(slots: seq<Pod>, update: string, from: nat, to: nat): (at: set<nat>)
    requires to <= |slots|
    ensures forall i :: i in at <==> from <= i < to && IsOutdated(slots[i], update)
  {
    set i: nat | from <= i < to && IsOutdated(slots[i], update)
  }

  lemma OutdatedStep(slots: seq<Pod>, update: string, from: nat, to: nat)
    requires from < to <= |slots|
    ensures |OutdatedAt(slots, update, from, to)| ==
            |OutdatedAt(slots, update, from, to - 1)| + (if IsOutdated(slots[to - 1], update) then 1 else 0)
  {
    hide IsOutdated;
    var before := OutdatedAt(slots, update, from, to - 1);
    if IsOutdated(slots[to - 1], update) {
      assert OutdatedAt(slots, update, from, to) == before + {to - 1};
    } else {
      assert OutdatedAt(slots, update, from, to) == before;
    }
  }

  /** One above the topmost outdated pod whose deletion the API server refuses, or updateMin if it refuses none. */
  function RefusedBelow(slots: seq<Pod>, update: string, updateMin: nat, top: nat, api: Api): (f: nat)
    requires top <= |slots|
    ensures updateMin <= f <= Max(updateMin, top)
    ensures f > updateMin ==> IsOutdated(slots[f - 1], update) && api.deleteForUpdate(f - 1).DeleteError?
    ensures forall i :: f <= i < top && IsOutdated(slots[i], update) ==> !api.deleteForUpdate(i).DeleteError?
  {
    if top <= updateMin then updateMin
    else if IsOutdated(slots[top - 1], update) && api.deleteForUpdate(top - 1).DeleteError? then top
    else RefusedBelow(slots, update, updateMin, top - 1, api)
  }

  /**
   How many deletions the budgeted loop counts, exactly: as many as the budget allows of the outdated pods above the
   first refusal. It ends in an error iff the budget reaches that far.
   */
  lemma {:induction false} DeletionsCounted(
    slots: seq<Pod>, update: string, updateMin: nat, top: nat, budget: nat, api: Api)
    requires top <= |slots|
    ensures var d := DeleteOutdated(slots, update, updateMin, top, budget, api);
            var f := RefusedBelow(slots, update, updateMin, top, api);
            && d.counted == Min(budget, |OutdatedAt(slots, update, f, top)|)
            && (d.err <==> f > updateMin && budget > |OutdatedAt(slots, update, f, top)|)
  {
    hide IsOutdated;
    hide OutdatedAt;
    var f := RefusedBelow(slots, update, updateMin, top, api);
    if top <= updateMin || f == top {
      assert OutdatedAt(slots, update, f, top) == {};
    } else {
      OutdatedStep(slots, update, f, top);
      var next := if IsOutdated(slots[top - 1], update) && budget > 0 then budget - 1 else budget;
      DeletionsCounted(slots, update, updateMin, top - 1, next, api);
    }
  }

  /** How many pods the update phase may delete, by its inputs alone. */
  function Allowance(t: Target, slots: seq<Pod>, clock: Clock): nat {
    if t.sts.strategy.kind.OnDeleteType? || MaxUnavailable(t.sts).None? then 0
    else Max(0, MaxUnavailable(t.sts).value - Tally(slots, UnavailablePod, clock))
  }

  /** A malformed maxUnavailable makes a gated update phase fail without touching a pod. */
  lemma MalformedIsAnError(t: Target, slots: seq<Pod>, api: Api, clock: Clock)
    requires t.maxUnavailableGate && t.sts.strategy.kind != OnDeleteType
    requires t.sts.strategy.rollingUpdate.Some?
    requires t.sts.strategy.rollingUpdate.value.maxUnavailable == Some(Malformed)
    ensures Update(t, slots, api, clock) == Deletions({}, 0, true)
  {
  }

  /**
   The update phase under the gate counts what the allowance leaves of the outdated pods above the first refusal.
   */
  lemma UpdateCounts(t: Target, slots: seq<Pod>, api: Api, clock: Clock)
    requires t.maxUnavailableGate
    ensures var f := RefusedBelow(slots, t.update, t.sts.UpdateMin(), |slots|, api);
            Update(t, slots, api, clock).counted ==
            Min(Allowance(t, slots, clock), |OutdatedAt(slots, t.update, f, |slots|)|)
  {
    DeletionsCounted(slots, t.update, t.sts.UpdateMin(), |slots|, Allowance(t, slots, clock), api);
    hide DeleteOutdated;
    hide Tally;
    hide OutdatedAt;
  }

  lemma {:induction false} DeleteOutdatedErrors(
    slots: seq<Pod>, update: string, updateMin: nat, top: nat, budget: nat, api: Api)
    requires top <= |slots|
    ensures var d := DeleteOutdated(slots, update, updateMin, top, budget, api);
            && (forall i :: i in d.targets && api.deleteForUpdate(i).DeleteError? ==>
                  d.err && forall j :: j in d.targets ==> i <= j)
            && (d.err ==> exists i :: i in d.targets && api.deleteForUpdate(i).DeleteError?)
  {
    if top > updateMin && budget > 0 {
      if IsOutdated(slots[top - 1], update) {
        var rest := DeleteOutdated(slots, update, updateMin, top - 1, budget - 1, api);
        forall i | i in rest.targets
          ensures i < top - 1
        {
          DeleteOutdatedRange(slots, update, updateMin, top - 1, budget - 1, api, i);
        }
        if api.deleteForUpdate(top - 1).DeleteError? {
          assert top - 1 in DeleteOutdated(slots, update, updateMin, top, budget, api).targets;
        } else {
          DeleteOutdatedErrors(slots, update, updateMin, top - 1, budget - 1, api);
        }
      } else {
        DeleteOutdatedErrors(slots, update, updateMin, top - 1, budget, api);
      }
    }
  }

  lemma DeleteOutdatedFacts(slots: seq<Pod>, update: string, updateMin: nat, top: nat, budget: nat, api: Api)
    requires top <= |slots|
    ensures var d := DeleteOutdated(slots, update, updateMin, top, budget, api);
            TakenFromTop(slots, update, updateMin, top, api, d) && |d.targets| <= budget
  {
    DeleteOutdatedCount(slots, update, updateMin, top, budget, api);
    DeleteOutdatedErrors(slots, update, updateMin, top, budget, api);
    var d := DeleteOutdated(slots, update, updateMin, top, budget, api);
    forall i | i in d.targets
      ensures updateMin <= i < top && IsOutdated(slots[i], update)
    {
      DeleteOutdatedRange(slots, update, updateMin, top, budget, api, i);
    }
    forall i, j | i in d.targets && i < j < top && IsOutdated(slots[j], update)
      ensures j in d.targets
    {
      DeleteOutdatedOrder(slots, update, updateMin, top, budget, api, i, j);
    }
  }

  lemma {:induction false} LegacyFacts(
    slots: seq<Pod>, update: string, updateMin: nat, top: nat, api: Api, clock: Clock)
    requires top <= |slots|
    ensures var d := LegacyUpdate(slots, update, updateMin, top, api, clock);
            TakenFromTop(slots, update, updateMin, top, api, d) && |d.targets| <= 1
  {
    if top > updateMin {
      var t := top - 1;
      if IsOutdated(slots[t], update) {
        assert LegacyUpdate(slots, update, updateMin, top, api, clock).targets == {t};
      } else if !IsUnavailable(slots[t], clock) {
        LegacyFacts(slots, update, updateMin, t, api, clock);
      }
    }
  }

  /**
   The old loop deletes the topmost outdated pod, and only if no pod above it is unavailable: the one-at-a-time
   discipline that maxUnavailable generalises.
   */
  lemma {:induction false} LegacyTarget(
    slots: seq<Pod>, update: string, updateMin: nat, top: nat, api: Api, clock: Clock, i: nat)
    requires top <= |slots|
    ensures i in LegacyUpdate(slots, update, updateMin, top, api, clock).targets <==>
            && updateMin <= i < top && IsOutdated(slots[i], update)
            && forall j :: i < j < top ==> !IsOutdated(slots[j], update) && !IsUnavailable(slots[j], clock)
  {
    hide IsOutdated;
    hide IsUnavailable;
    if top > updateMin && !IsOutdated(slots[top - 1], update) && !IsUnavailable(slots[top - 1], clock) {
      LegacyTarget(slots, update, updateMin, top - 1, api, clock, i);
    }
  }

  /** The update phase deletes from the top, and no more than what the budget leaves; one pod with the gate off. */
  lemma UpdateFacts(t: Target, slots: seq<Pod>, api: Api, clock: Clock)
    ensures var d := Update(t, slots, api, clock);
            && TakenFromTop(slots, t.update, t.sts.UpdateMin(), |slots|, api, d)
            && (t.maxUnavailableGate && d.targets != {} ==>
                  && MaxUnavailable(t.sts).Some?
                  && |d.targets| + Tally(slots, UnavailablePod, clock) <= MaxUnavailable(t.sts).value)
            && (!t.maxUnavailableGate ==> |d.targets| <= 1)
  {
    var n := |slots|;
    var max := MaxUnavailable(t.sts);
    var unavailable := Tally(slots, UnavailablePod, clock);
    if max.Some? && unavailable < max.value {
      DeleteOutdatedFacts(slots, t.update, t.sts.UpdateMin(), n, max.value - unavailable, api);
    }
    LegacyFacts(slots, t.update, t.sts.UpdateMin(), n, api, clock);
  }

  predicate IsTopmostOutdated(slots: seq<Pod>, update: string, j: nat) {
    j < |slots| && IsOutdated(slots[j], update) && forall i :: j < i < |slots| ==> !IsOutdated(slots[i], update)
  }

  /** Partition and reach of an update phase: nothing below the partition, and the topmost outdated pod above it. */
  ghost predicate RespectsPartition(sts: StatefulSet, slots: seq<Pod>, update: string, clock: Clock, d: Deletions) {
    var partition := match sts.strategy.rollingUpdate case None => 0 case Some(block) => block.partition;
    && (forall i :: i in d.targets ==> partition <= i < |slots|)
    && ((forall i :: 0 <= i < |slots| ==> !IsUnavailable(slots[i], clock)) ==>
          forall j :: partition <= j && IsTopmostOutdated(slots, update, j) ==> j in d.targets)
  }

  /** With the gate on: a malformed maxUnavailable is the only reason not to reach the pod at the partition. */
  lemma BudgetRespectsPartition(sts: StatefulSet, slots: seq<Pod>, update: string, api: Api, clock: Clock)
    requires MaxUnavailable(sts).Some?
    ensures RespectsPartition(sts, slots, update, clock, BudgetedUpdate(sts, slots, update, api, clock))
  {
    var max, n := MaxUnavailable(sts).value, |slots|;
    var unavailable := Tally(slots, UnavailablePod, clock);
    var d := BudgetedUpdate(sts, slots, update, api, clock);
    hide IsOutdated;
    hide IsUnavailable;
    if unavailable < max {
      DeleteOutdatedFacts(slots, update, sts.UpdateMin(), n, max - unavailable, api);
    }
    if forall i :: 0 <= i < n ==> !IsUnavailable(slots[i], clock) {
      assert forall i :: 0 <= i < n ==> !Meets(slots[i], UnavailablePod, clock);
      TallyExtremes(slots, UnavailablePod, clock);
      forall j: nat | sts.UpdateMin() <= j && IsTopmostOutdated(slots, update, j)
        ensures j in d.targets
      {
        TopIsDeleted(slots, update, sts.UpdateMin(), n, max, api, j);
      }
    }
  }

  lemma {:induction false} TopIsDeleted(
    slots: seq<Pod>, update: string, updateMin: nat, top: nat, budget: nat, api: Api, j: nat)
    requires updateMin <= j < top <= |slots| && budget > 0 && IsOutdated(slots[j], update)
    requires forall i :: j < i < top ==> !IsOutdated(slots[i], update)
    ensures j in DeleteOutdated(slots, update, updateMin, top, budget, api).targets
  {
    hide IsOutdated;
    if j < top - 1 {
      TopIsDeleted(slots, update, updateMin, top - 1, budget, api, j);
    }
  }

  /** With the gate off the same holds always. */
  lemma LegacyRespectsPartition(sts: StatefulSet, slots: seq<Pod>, update: string, api: Api, clock: Clock)
    ensures RespectsPartition(sts, slots, update, clock,
                              LegacyUpdate(slots, update, sts.UpdateMin(), |slots|, api, clock))
  {
    hide IsOutdated;
    hide IsUnavailable;
    hide LegacyUpdate;
    forall i: nat
      ensures i in LegacyUpdate(slots, update, sts.UpdateMin(), |slots|, api, clock).targets <==>
              && sts.UpdateMin() <= i < |slots| && IsOutdated(slots[i], update)
              && forall j :: i < j < |slots| ==> !IsOutdated(slots[j], update) && !IsUnavailable(slots[j], clock)
    {
      LegacyTarget(slots, update, sts.UpdateMin(), |slots|, api, clock, i);
    }
  }

  /**
   maxUnavailable is at least one; a percentage is rounded down, and one of at most 100 never exceeds the replica
   count or one; only a malformed value is an error.
   */
  lemma MaxUnavailableBounds(s: StatefulSet, m: IntOrPercent)
    requires s.strategy.rollingUpdate.Some? && s.strategy.rollingUpdate.value.maxUnavailable == Some(m)
    ensures MaxUnavailable(s).None? <==> m.Malformed?
    ensures !m.Malformed? ==> MaxUnavailable(s).value >= 1
    ensures m.Count? ==> MaxUnavailable(s).value == Max(m.n, 1)
    ensures m.Percent? && m.p >= 0 ==>
              var v := MaxUnavailable(s).value;
              && s.replicas * m.p < 100 * (v + 1)
              && (v > 1 ==> 100 * v <= s.replicas * m.p)
              && (m.p <= 100 ==> v <= Max(1, s.replicas))
  {
    if m.Percent? && 0 <= m.p {
      var total := s.replicas * m.p;
      assert 100 * (total / 100) <= total < 100 * (total / 100 + 1);
      if m.p <= 100 {
        assert total <= s.replicas * 100;
      }
    }
  }

  /** Without a value, or without a rollingUpdate block, one replica may be unavailable. */
  lemma MaxUnavailableDefault(s: StatefulSet)
    ensures MaxUnavailable(s) == Some(1) <==>
            match s.strategy.rollingUpdate
            case None => true
            case Some(block) =>
              match block.maxUnavailable
              case None => true
              case Some(Count(n)) => n <= 1
              case Some(Percent(p)) => s.replicas * p < 200
              case Some(Malformed) => false
  {
  }

  /**
   With maxUnavailable 1 the budgeted update is the old one-at-a-time loop, except that it does nothing at all while
   any replica is unavailable.
   */
  lemma BudgetOneRefinesLegacy(s: StatefulSet, slots: seq<Pod>, update: string, api: Api, clock: Clock)
    requires MaxUnavailable(s) == Some(1)
    ensures BudgetedUpdate(s, slots, update, api, clock) ==
            if forall i :: 0 <= i < |slots| ==> !IsUnavailable(slots[i], clock)
            then LegacyUpdate(slots, update, s.UpdateMin(), |slots|, api, clock)
            else Deletions({}, 0, false)
  {
    TallyExtremes(slots, UnavailablePod, clock);
    if forall i :: 0 <= i < |slots| ==> !IsUnavailable(slots[i], clock) {
      assert forall i :: 0 <= i < |slots| ==> !Meets(slots[i], UnavailablePod, clock);
      SameDeletion(slots, update, s.UpdateMin(), |slots|, api, clock);
    } else {
      var i :| 0 <= i < |slots| && IsUnavailable(slots[i], clock);
      assert Meets(slots[i], UnavailablePod, clock);
    }
  }

  lemma {:induction false} SameDeletion(
    slots: seq<Pod>, update: string, updateMin: nat, top: nat, api: Api, clock: Clock)
    requires top <= |slots|
    requires forall i :: 0 <= i < |slots| ==> !IsUnavailable(slots[i], clock)
    ensures DeleteOutdated(slots, update, updateMin, top, 1, api) ==
            LegacyUpdate(slots, update, updateMin, top, api, clock)
  {
    if top > updateMin && !IsOutdated(slots[top - 1], update) {
      SameDeletion(slots, update, updateMin, top - 1, api, clock);
    }
  }
}

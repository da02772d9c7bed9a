/**
 The OrderedReady discipline: what one sync may create and delete, and when.
 */
module Discipline {
  import opened Prelude
  import opened Pods
  import opened Reconcile
  import opened Placement
  import opened Rollout
  import Names
  import SlowStart

  lemma {:induction false} VisitFacts(fn: seq<Outcome>, from: nat)
    requires from <= |fn|
    ensures var v := VisitInOrder(fn, from);
            && (v.stop <==> exists i :: from <= i < |fn| && (fn[i].exit || fn[i].err))
            && (!v.stop ==> v.visited == |fn|)
            && (v.stop ==> from < v.visited && (fn[v.visited - 1].exit || fn[v.visited - 1].err))
            && (v.err <==> v.stop && fn[v.visited - 1].err)
            && (forall i :: from <= i < v.visited - (if v.stop then 1 else 0) ==> !fn[i].exit && !fn[i].err)
    decreases |fn| - from
  {
    if from < |fn| && !fn[from].exit && !fn[from].err {
      VisitFacts(fn, from + 1);
    }
  }

  predicate AllHealthy(slots: seq<Pod>, n: nat, clock: Clock)
    requires n <= |slots|
  {
    forall i :: 0 <= i < n ==> IsHealthy(slots[i], clock)
  }

  /** What OrderedReady mode does on each slot. */
  lemma OrderedOutcomes(slots: seq<Pod>, api: Api, clock: Clock)
    ensures var fn := ReplicaOutcomes(slots, true, api, clock);
            forall i :: 0 <= i < |fn| ==>
              && (!fn[i].exit && !fn[i].err <==> IsHealthy(slots[i], clock) && !api.enforce(i))
              && (!fn[i].exit && !fn[i].err ==> fn[i].call.NoCall?)
              && (fn[i].call.CreateCall? ==> !IsCreated(slots[i]))
              && (fn[i].call.DeleteCall? ==> IsFinished(slots[i]) && !slots[i].terminating)
  {
    hide IsReady;
    hide IsAvailable;
  }

  /** In OrderedReady mode only a healthy pod lets the controller look at the next slot, and no call is made on it. */
  lemma ReplicaVisit(slots: seq<Pod>, api: Api, clock: Clock)
    ensures var fn := ReplicaOutcomes(slots, true, api, clock);
            var v := VisitInOrder(fn, 0);
            && (!v.stop <==> AllHealthy(slots, |slots|, clock) && forall i :: 0 <= i < |slots| ==> !api.enforce(i))
            && (!v.stop ==> Calls(fn, v.visited, CreateCall) == Calls(fn, v.visited, DeleteCall) == {})
            && (v.stop ==>
                  && AllHealthy(slots, v.visited - 1, clock)
                  && (fn[v.visited - 1].call.CreateCall? ==> !IsCreated(slots[v.visited - 1]))
                  && (fn[v.visited - 1].call.DeleteCall? ==>
                        IsFinished(slots[v.visited - 1]) && !slots[v.visited - 1].terminating)
                  && Calls(fn, v.visited, CreateCall) ==
                     (if fn[v.visited - 1].call.CreateCall? then {v.visited - 1} else {})
                  && Calls(fn, v.visited, DeleteCall) ==
                     (if fn[v.visited - 1].call.DeleteCall? then {v.visited - 1} else {}))
  {
    hide ReplicaOutcomes;
    hide IsHealthy;
    hide IsFinished;
    hide VisitInOrder;
    VisitFacts(ReplicaOutcomes(slots, true, api, clock), 0);
    OrderedOutcomes(slots, api, clock);
  }

  /** In OrderedReady mode at most the first condemned pod is deleted, and any condemned pod ends the sync. */
  lemma CondemnedVisit(condemned: seq<Pod>, first: Option<Pod>, api: Api, clock: Clock)
    ensures var fn := CondemnedOutcomes(condemned, first, true, api, clock);
            var v := VisitInOrder(fn, 0);
            && (v.stop <==> condemned != [])
            && OrdinalsAt(condemned, Calls(fn, v.visited, DeleteCall)) ==
               (if condemned != [] && fn[0].call.DeleteCall? then {Ordinal(condemned[0])} else {})
  {
    hide Names.Ordinal;
    hide IsReady;
    hide IsAvailable;
    var fn := CondemnedOutcomes(condemned, first, true, api, clock);
    assert condemned != [] ==> Calls(fn, 1, DeleteCall) == if fn[0].call.DeleteCall? then {0} else {};
  }

  /**
   Every OrderedReady sync does one of these: nothing, create one pod, delete one finished pod, delete one pod to
   scale down, or delete pods to update. Creations and deletions at a slot happen only when all lower slots are
   healthy; scaling down only when all slots are; updating only when all slots are and no pod is condemned, and then
   at most maxUnavailable pods, or one with the gate off.
   */
  lemma OrderedReadyDiscipline(t: Target, slots: seq<Pod>, condemned: seq<Pod>, api: Api, clock: Clock)
    requires !t.sts.parallel
    ensures var r := SyncSlots(t, slots, condemned, api, clock);
            && |r.created| + |r.finished| + |r.scaledDown| <= 1
            && (r.created + r.finished != {} || r.scaledDown != {} ==> r.updated == {})
            && (forall i :: i in r.created ==> i < |slots| && !IsCreated(slots[i]) && AllHealthy(slots, i, clock))
            && (forall i :: i in r.finished ==>
                  && i < |slots| && slots[i].phase in {Succeeded, Failed} && !slots[i].terminating
                  && AllHealthy(slots, i, clock))
            && (r.scaledDown != {} ==> AllHealthy(slots, |slots|, clock))
            && (r.updated != {} ==>
                  && AllHealthy(slots, |slots|, clock) && condemned == []
                  && (t.maxUnavailableGate ==> MaxUnavailable(t.sts).Some?)
                  && |r.updated| <= (if t.maxUnavailableGate then MaxUnavailable(t.sts).value else 1))
  {
    hide ReplicaOutcomes;
    hide Calls;
    hide Names.Ordinal;
    hide IsReady;
    hide IsAvailable;
    hide VisitInOrder;
    hide FirstUnhealthy;
    hide StatusOver;
    UpdateFacts(t, slots, api, clock);
    hide Update;
    ReplicaVisit(slots, api, clock);
    VisitFacts(ClaimOutcomes(condemned, api), 0);
    CondemnedVisit(condemned, FirstUnhealthy(slots, condemned, clock), api, clock);
  }

  lemma {:induction false} FirstUnavailableAt(pods: seq<Pod>, clock: Clock, k: nat)
    requires k < |pods| && IsUnavailable(pods[k], clock)
    requires forall i :: 0 <= i < k ==> !IsUnavailable(pods[i], clock)
    ensures FirstUnavailable(pods, clock) == Some(pods[k])
  {
    if k > 0 {
      FirstUnavailableAt(pods[1..], clock, k - 1);
    }
  }

  lemma {:induction false} NoneUnavailable(pods: seq<Pod>, clock: Clock)
    requires forall i :: 0 <= i < |pods| ==> !IsUnavailable(pods[i], clock)
    ensures FirstUnavailable(pods, clock) == None
  {
    if pods != [] {
      NoneUnavailable(pods[1..], clock);
    }
  }

  /** The first unhealthy pod is the highest condemned pod exactly when that pod alone is unavailable. */
  lemma HighestIsFirst(slots: seq<Pod>, condemned: seq<Pod>, clock: Clock)
    requires AllHealthy(slots, |slots|, clock) && StrictlyDescending(condemned) && condemned != []
    ensures FirstUnhealthy(slots, condemned, clock) == Some(condemned[0]) <==>
            && IsUnavailable(condemned[0], clock)
            && forall j :: 0 < j < |condemned| ==> !IsUnavailable(condemned[j], clock)
  {
    hide Names.Ordinal;
    hide IsReady;
    hide IsAvailable;
    var all := slots + Reversed(condemned);
    var n, m := |slots|, |condemned|;
    LastUnavailable(condemned, clock, m);
    if j: nat :| LastOne(condemned, clock, j) {
      assert forall i :: n <= i < n + m ==> all[i] == condemned[n + m - 1 - i];
      FirstUnavailableAt(all, clock, n + m - 1 - j);
      assert FirstUnhealthy(slots, condemned, clock) == Some(condemned[j]);
    } else {
      NoneUnavailable(all, clock);
    }
  }

  ghost predicate LastOne(pods: seq<Pod>, clock: Clock, j: nat) {
    j < |pods| && IsUnavailable(pods[j], clock) && forall i :: j < i < |pods| ==> !IsUnavailable(pods[i], clock)
  }

  lemma {:induction false} LastUnavailable(pods: seq<Pod>, clock: Clock, n: nat)
    requires n <= |pods| && forall i :: n <= i < |pods| ==> !IsUnavailable(pods[i], clock)
    ensures (exists j: nat :: LastOne(pods, clock, j)) || forall i :: 0 <= i < |pods| ==> !IsUnavailable(pods[i], clock)
  {
    if n > 0 {
      if IsUnavailable(pods[n - 1], clock) {
        assert LastOne(pods, clock, n - 1);
      } else {
        LastUnavailable(pods, clock, n - 1);
      }
    }
  }

  /**
   OrderedReady scale-down, exactly: only the highest condemned ordinal can be deleted, and it is deleted iff every
   slot is healthy, no claim or identity work failed, the pod is not terminating, and it is either running, ready and
   available or the only unavailable condemned pod.
   */
  lemma OrderedScaleDown(t: Target, slots: seq<Pod>, condemned: seq<Pod>, api: Api, clock: Clock)
    requires !t.sts.parallel && StrictlyDescending(condemned) && condemned != []
    ensures var r := SyncSlots(t, slots, condemned, api, clock);
            var top := condemned[0];
            && r.scaledDown <= {Ordinal(top)}
            && (Ordinal(top) in r.scaledDown <==>
                  && AllHealthy(slots, |slots|, clock)
                  && (forall i :: 0 <= i < |slots| ==> !api.enforce(i))
                  && (forall j :: 0 <= j < |condemned| ==> !api.condemnedClaims(Ordinal(condemned[j])))
                  && !top.terminating
                  && (|| (IsRunningAndReady(top) && IsAvailable(top, clock))
                      || (&& !IsAvailable(top, clock)
                          && forall j :: 0 < j < |condemned| ==> !IsUnavailable(condemned[j], clock))))
  {
    hide Names.Ordinal;
    hide IsReady;
    hide IsAvailable;
    hide VisitInOrder;
    hide FirstUnhealthy;
    hide Update;
    hide StatusOver;
    ReplicaVisit(slots, api, clock);
    var claims := ClaimOutcomes(condemned, api);
    VisitFacts(claims, 0);
    assert forall j :: 0 <= j < |condemned| ==> (claims[j].err <==> api.condemnedClaims(Ordinal(condemned[j])));
    var first := FirstUnhealthy(slots, condemned, clock);
    CondemnedVisit(condemned, first, api, clock);
    if AllHealthy(slots, |slots|, clock) {
      HighestIsFirst(slots, condemned, clock);
    }
  }

  // ---------------------------------------------------------------- Parallel mode

  /** A sync in which the API server accepts every call and no claim is stale. */
  ghost predicate NoErrors(api: Api) {
    && (forall i: int :: api.stale(i).Fresh?)
    && (forall i: int :: api.create(i).Created?)
    && (forall i: int :: !api.missingClaims(i))
    && (forall i: int :: !api.enforce(i))
    && (forall i: int :: !api.condemnedClaims(i))
    && (forall i: int :: api.deleteFinished(i).Accepted?)
    && (forall i: int :: api.deleteCondemned(i).Accepted?)
    && (forall i: int :: api.deleteForUpdate(i).Accepted?)
  }

  /** Without errors Parallel mode visits everything. */
  lemma CleanBatches(fn: seq<Outcome>)
    requires forall i :: 0 <= i < |fn| ==> !fn[i].err
    ensures VisitAll(fn, false) == Visit(|fn|, false, false)
  {
    SlowStart.RunIsBounded(Errors(fn), 1);
  }

  /**
   A Parallel sync without errors waits for nothing: it creates every missing pod, deletes every finished pod, and
   deletes every condemned pod that is not terminating already.
   */
  lemma ParallelDoesEverything(t: Target, slots: seq<Pod>, condemned: seq<Pod>, api: Api, clock: Clock)
    requires t.sts.parallel && NoErrors(api)
    ensures var r := SyncSlots(t, slots, condemned, api, clock);
            && (forall i: nat :: i in r.created <==> i < |slots| && slots[i].phase == Uncreated)
            && (forall i: nat :: i in r.finished <==>
                  i < |slots| && slots[i].phase in {Succeeded, Failed} && !slots[i].terminating)
            && (forall p :: p in condemned && !p.terminating ==> Ordinal(p) in r.scaledDown)
            && (forall o :: o in r.scaledDown ==> exists p :: p in condemned && Ordinal(p) == o && !p.terminating)
  {
    hide IsReady;
    hide IsAvailable;
    hide Names.Ordinal;
    hide Update;
    hide StatusOver;
    hide FirstUnhealthy;
    hide VisitInBatches;
    var fn, claims := ReplicaOutcomes(slots, false, api, clock), ClaimOutcomes(condemned, api);
    var fn' := CondemnedOutcomes(condemned, FirstUnhealthy(slots, condemned, clock), false, api, clock);
    CleanBatches(fn);
    CleanBatches(claims);
    CleanBatches(fn');
    var scaledDown := SyncSlots(t, slots, condemned, api, clock).scaledDown;
    assert scaledDown == OrdinalsAt(condemned, Calls(fn', |fn'|, DeleteCall));
    forall p | p in condemned && !p.terminating
      ensures Ordinal(p) in scaledDown
    {
      var j :| 0 <= j < |condemned| && condemned[j] == p;
      assert j in Calls(fn', |fn'|, DeleteCall);
    }
    forall o | o in scaledDown
      ensures exists p :: p in condemned && Ordinal(p) == o && !p.terminating
    {
      var j :| j in Calls(fn', |fn'|, DeleteCall) && Ordinal(condemned[j]) == o;
      assert condemned[j] in condemned;
    }
  }

  // ---------------------------------------------------------------- errors

  lemma ErrorsOfVisit(fn: seq<Outcome>, monotonic: bool)
    ensures var v := VisitAll(fn, monotonic);
            && (v.err ==> v.stop)
            && (!v.err ==> forall i :: 0 <= i < v.visited ==> !fn[i].err)
  {
    VisitFacts(fn, 0);
  }

  /**
   In either mode, a failed call makes the sync return an error, so that it is tried again: a creation that did not go
   through completely, a finished or condemned pod that could not be deleted, even because it was already gone, and a
   failed update deletion unless the pod was already gone.
   */
  lemma FailedCallsAreReported(t: Target, slots: seq<Pod>, condemned: seq<Pod>, api: Api, clock: Clock)
    ensures var r := SyncSlots(t, slots, condemned, api, clock);
            !r.err ==>
              && (forall i :: i in r.created ==> api.create(i).Created?)
              && (forall i :: i in r.finished ==> api.deleteFinished(i).Accepted?)
              && (forall o :: o in r.scaledDown ==> api.deleteCondemned(o).Accepted?)
              && (forall i :: i in r.updated ==> !api.deleteForUpdate(i).DeleteError?)
  {
    hide IsReady;
    hide IsAvailable;
    hide Names.Ordinal;
    hide StatusOver;
    hide FirstUnhealthy;
    hide VisitAll;
    var monotonic := !t.sts.parallel;
    ErrorsOfVisit(ReplicaOutcomes(slots, monotonic, api, clock), monotonic);
    var first := FirstUnhealthy(slots, condemned, clock);
    ErrorsOfVisit(CondemnedOutcomes(condemned, first, monotonic, api, clock), monotonic);
    UpdateFacts(t, slots, api, clock);
    hide Update;
  }

  lemma {:induction false} SomeFailure(fn: seq<Outcome>)
    ensures VisitAll(fn, false).err <==> exists i :: 0 <= i < |fn| && fn[i].err
    ensures VisitAll(fn, false).stop == VisitAll(fn, false).err
  {
    SlowStart.RunIsBounded(Errors(fn), 1);
    var called := SlowStart.Run(Errors(fn), 1).called;
    if i :| 0 <= i < |fn| && fn[i].err {
      assert Errors(fn)[i];
      assert called == |fn| ==> SlowStart.Failures(Errors(fn), 0, called) > 0;
    }
  }

  /** One of the calls that slot i needs in Parallel mode fails. */
  predicate SlotFails(pod: Pod, i: nat, api: Api) {
    var isNew := !IsCreated(pod);
    || (IsFinished(pod) && !pod.terminating && !api.deleteFinished(i).Accepted?)
    || (isNew && (api.stale(i).StaleError? || (api.stale(i).Fresh? && !api.create(i).Created?)))
    || (pod.phase.Pending? && api.missingClaims(i))
    || (!IsFinished(pod) && !(isNew && !api.stale(i).Fresh?) && api.enforce(i))
  }

  predicate CondemnedFails(pod: Pod, api: Api) {
    api.condemnedClaims(Ordinal(pod)) || (!pod.terminating && !api.deleteCondemned(Ordinal(pod)).Accepted?)
  }

  /** Which of the three visits of a Parallel sync stop, and that they stop with an error. */
  lemma ParallelStops(t: Target, slots: seq<Pod>, condemned: seq<Pod>, api: Api, clock: Clock)
    ensures var first := FirstUnhealthy(slots, condemned, clock);
            var v := VisitAll(ReplicaOutcomes(slots, false, api, clock), false);
            var w := VisitAll(ClaimOutcomes(condemned, api), false);
            var x := VisitAll(CondemnedOutcomes(condemned, first, false, api, clock), false);
            && v.stop == v.err && w.stop == w.err && x.stop == x.err
            && (v.stop <==> exists i :: 0 <= i < |slots| && SlotFails(slots[i], i, api))
            && (w.stop || x.stop <==> exists j :: 0 <= j < |condemned| && CondemnedFails(condemned[j], api))
  {
    hide IsReady;
    hide IsAvailable;
    hide Names.Ordinal;
    hide FirstUnhealthy;
    hide VisitAll;
    var fn, claims := ReplicaOutcomes(slots, false, api, clock), ClaimOutcomes(condemned, api);
    var fn' := CondemnedOutcomes(condemned, FirstUnhealthy(slots, condemned, clock), false, api, clock);
    SomeFailure(fn);
    SomeFailure(claims);
    SomeFailure(fn');
    assert forall i :: 0 <= i < |slots| ==> (fn[i].err <==> SlotFails(slots[i], i, api));
    assert forall j :: 0 <= j < |condemned| ==> (claims[j].err || fn'[j].err <==> CondemnedFails(condemned[j], api));
  }

  /** A Parallel sync goes on to the update phase exactly when no call that a slot or a condemned pod needs fails. */
  lemma ParallelReachesUpdate(t: Target, slots: seq<Pod>, condemned: seq<Pod>, api: Api, clock: Clock)
    requires t.sts.parallel
    ensures var r := SyncSlots(t, slots, condemned, api, clock);
            if || (exists i :: 0 <= i < |slots| && SlotFails(slots[i], i, api))
               || (exists j :: 0 <= j < |condemned| && CondemnedFails(condemned[j], api))
            then r.err && r.updated == {}
            else r.err == Update(t, slots, api, clock).err && r.updated == Update(t, slots, api, clock).targets
  {
    hide IsReady;
    hide IsAvailable;
    hide Names.Ordinal;
    hide Update;
    hide StatusOver;
    hide FirstUnhealthy;
    hide VisitAll;
    hide ReplicaOutcomes;
    hide ClaimOutcomes;
    hide CondemnedOutcomes;
    hide SlotFails;
    hide CondemnedFails;
    ParallelStops(t, slots, condemned, api, clock);
  }

  /** Nothing is started beside the first call: if it fails it is the only one that Parallel mode makes. */
  lemma FirstFailureIsAlone(fn: seq<Outcome>)
    requires fn != [] && fn[0].err
    ensures VisitAll(fn, false) == Visit(1, true, true)
  {
    assert Errors(fn)[0];
    assert SlowStart.Failures(Errors(fn), 0, 1) == 1;
  }

  // ---------------------------------------------------------------- errors of an OrderedReady sync

  /** One of the calls that OrderedReady mode makes on slot i fails. */
  predicate OrderedSlotFails(pod: Pod, i: nat, api: Api, clock: Clock) {
    match pod.phase
    case Succeeded => !pod.terminating && !api.deleteFinished(i).Accepted?
    case Failed => !pod.terminating && !api.deleteFinished(i).Accepted?
    case Uncreated => api.stale(i).StaleError? || (api.stale(i).Fresh? && !api.create(i).Created?)
    case Pending => api.missingClaims(i)
    case Running => IsHealthy(pod, clock) && api.enforce(i)
    case Unknown => false
  }

  /** Slot i is the lowest that OrderedReady mode does not get past: it is not healthy, or its enforcement fails. */
  predicate StopsAt(slots: seq<Pod>, i: nat, api: Api, clock: Clock) {
    && i < |slots| && AllHealthy(slots, i, clock) && (forall j: nat :: j < i ==> !api.enforce(j))
    && (!IsHealthy(slots[i], clock) || api.enforce(i))
  }

  lemma OrderedErrors(slots: seq<Pod>, api: Api, clock: Clock)
    ensures var fn := ReplicaOutcomes(slots, true, api, clock);
            forall i :: 0 <= i < |fn| ==> (fn[i].err <==> OrderedSlotFails(slots[i], i, api, clock))
  {
    hide IsReady;
    hide IsAvailable;
  }

  lemma OrderedVisitErrs(slots: seq<Pod>, api: Api, clock: Clock)
    ensures VisitInOrder(ReplicaOutcomes(slots, true, api, clock), 0).err <==>
            exists i: nat :: StopsAt(slots, i, api, clock) && OrderedSlotFails(slots[i], i, api, clock)
  {
    hide ReplicaOutcomes;
    hide IsHealthy;
    hide IsFinished;
    hide VisitInOrder;
    hide OrderedSlotFails;
    var fn := ReplicaOutcomes(slots, true, api, clock);
    var v := VisitInOrder(fn, 0);
    VisitFacts(fn, 0);
    OrderedOutcomes(slots, api, clock);
    OrderedErrors(slots, api, clock);
    if v.stop {
      var k: nat := v.visited - 1;
      assert forall j :: 0 <= j < k ==> !fn[j].exit && !fn[j].err;
      assert StopsAt(slots, k, api, clock);
      assert forall i: nat :: StopsAt(slots, i, api, clock) ==> i == k;
    }
  }

  /** OrderedReady mode deletes the highest condemned pod, as OrderedScaleDown says. */
  predicate MayScaleDown(condemned: seq<Pod>, clock: Clock)
    requires condemned != []
  {
    var top := condemned[0];
    && !top.terminating
    && (|| (IsRunningAndReady(top) && IsAvailable(top, clock))
        || (!IsAvailable(top, clock) && forall j :: 0 < j < |condemned| ==> !IsUnavailable(condemned[j], clock)))
  }

  /**
   An OrderedReady sync returns an error in exactly these cases: a call fails on the slot it stops at; it passes all
   slots and the claim work on a condemned pod fails; it gets past that too and the delete of the highest condemned
   pod is not accepted; or no pod is condemned and the update phase fails.
   */
  lemma OrderedFailures(t: Target, slots: seq<Pod>, condemned: seq<Pod>, api: Api, clock: Clock)
    requires !t.sts.parallel && StrictlyDescending(condemned)
    ensures var passes := AllHealthy(slots, |slots|, clock) && forall i :: 0 <= i < |slots| ==> !api.enforce(i);
            var claimFails := exists j :: 0 <= j < |condemned| && api.condemnedClaims(Ordinal(condemned[j]));
            SyncSlots(t, slots, condemned, api, clock).err <==>
            || (exists i: nat :: StopsAt(slots, i, api, clock) && OrderedSlotFails(slots[i], i, api, clock))
            || (passes && claimFails)
            || (&& passes && !claimFails && condemned != [] && MayScaleDown(condemned, clock)
                && !api.deleteCondemned(Ordinal(condemned[0])).Accepted?)
            || (passes && condemned == [] && Update(t, slots, api, clock).err)
  {
    var first := FirstUnhealthy(slots, condemned, clock);
    OrderedVisitErrs(slots, api, clock);
    ReplicaVisit(slots, api, clock);
    ClaimsErr(condemned, api);
    if condemned != [] && AllHealthy(slots, |slots|, clock) {
      HighestIsFirst(slots, condemned, clock);
    }
    CondemnedErr(condemned, first, api, clock);
    CondemnedVisit(condemned, first, api, clock);
    StopsOrPasses(slots, api, clock);
    hide Names.Ordinal;
    hide IsReady;
    hide IsAvailable;
    hide ReplicaOutcomes;
    hide ClaimOutcomes;
    hide CondemnedOutcomes;
    hide VisitInOrder;
    hide FirstUnhealthy;
    hide Update;
    hide StatusOver;
    hide OrderedSlotFails;
    hide StopsAt;
    hide AllHealthy;
  }

  lemma StopsOrPasses(slots: seq<Pod>, api: Api, clock: Clock)
    ensures AllHealthy(slots, |slots|, clock) && (forall i :: 0 <= i < |slots| ==> !api.enforce(i)) ==>
              forall i: nat :: !StopsAt(slots, i, api, clock)
  {
    hide IsHealthy;
  }

  lemma ClaimsErr(condemned: seq<Pod>, api: Api)
    ensures var w := VisitInOrder(ClaimOutcomes(condemned, api), 0);
            w.stop == w.err == exists j :: 0 <= j < |condemned| && api.condemnedClaims(Ordinal(condemned[j]))
  {
    hide Names.Ordinal;
    var claims := ClaimOutcomes(condemned, api);
    VisitFacts(claims, 0);
    assert forall j :: 0 <= j < |condemned| ==> (claims[j].err <==> api.condemnedClaims(Ordinal(condemned[j])));
  }

  lemma CondemnedErr(condemned: seq<Pod>, first: Option<Pod>, api: Api, clock: Clock)
    ensures condemned != [] ==>
              (VisitInOrder(CondemnedOutcomes(condemned, first, true, api, clock), 0).err <==>
               && !condemned[0].terminating && !api.deleteCondemned(Ordinal(condemned[0])).Accepted?
               && (|| (IsRunningAndReady(condemned[0]) && IsAvailable(condemned[0], clock))
                   || Some(condemned[0]) == first))
    ensures condemned == [] ==> !VisitInOrder(CondemnedOutcomes(condemned, first, true, api, clock), 0).err
  {
    hide Names.Ordinal;
    hide IsReady;
    hide IsAvailable;
  }

  // ---------------------------------------------------------------- reaching the update phase

  /** Whether a sync gets as far as the update phase, by its inputs alone. */
  predicate GetsToUpdate(t: Target, slots: seq<Pod>, condemned: seq<Pod>, api: Api, clock: Clock) {
    if t.sts.parallel then
      && (forall i :: 0 <= i < |slots| ==> !SlotFails(slots[i], i, api))
      && (forall j :: 0 <= j < |condemned| ==> !CondemnedFails(condemned[j], api))
    else
      AllHealthy(slots, |slots|, clock) && (forall i :: 0 <= i < |slots| ==> !api.enforce(i)) && condemned == []
  }

  /**
   In either mode: what a sync that gets to the update phase deletes and counts, and that no other deletes to update.
   */
  lemma UpdateReached(t: Target, slots: seq<Pod>, condemned: seq<Pod>, api: Api, clock: Clock)
    ensures var r, d := SyncSlots(t, slots, condemned, api, clock), Update(t, slots, api, clock);
            var counted := Tally(slots + condemned, AtRevision(t.current), clock);
            if GetsToUpdate(t, slots, condemned, api, clock)
            then r.updated == d.targets && r.err == d.err && r.status.currentReplicas == counted - d.counted
            else r.updated == {} && r.status.currentReplicas == counted
  {
    hide IsReady;
    hide IsAvailable;
    hide Names.Ordinal;
    hide Update;
    hide FirstUnhealthy;
    hide SlotFails;
    hide CondemnedFails;
    hide ReplicaOutcomes;
    hide ClaimOutcomes;
    hide CondemnedOutcomes;
    hide VisitInOrder;
    hide VisitInBatches;
    hide Tally;
    if t.sts.parallel {
      ParallelStops(t, slots, condemned, api, clock);
    } else {
      ReplicaVisit(slots, api, clock);
      NoClaims(condemned, api);
      CondemnedVisit(condemned, FirstUnhealthy(slots, condemned, clock), api, clock);
    }
  }

  lemma NoClaims(condemned: seq<Pod>, api: Api)
    ensures condemned == [] ==> !VisitInOrder(ClaimOutcomes(condemned, api), 0).stop
  {
  }

  /**
   A Parallel sync returns an error exactly when a call fails that some slot or condemned pod needs, or the update
   phase fails, wherever in the batches that is: no failure is skipped over.
   */
  lemma ParallelFailures(t: Target, slots: seq<Pod>, condemned: seq<Pod>, api: Api, clock: Clock)
    requires t.sts.parallel
    ensures SyncSlots(t, slots, condemned, api, clock).err <==>
            || (exists i :: 0 <= i < |slots| && SlotFails(slots[i], i, api))
            || (exists j :: 0 <= j < |condemned| && CondemnedFails(condemned[j], api))
            || Update(t, slots, api, clock).err
  {
    ParallelReachesUpdate(t, slots, condemned, api, clock);
    hide SyncSlots;
    hide Update;
    hide SlotFails;
    hide CondemnedFails;
  }
}

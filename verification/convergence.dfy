/**
 Convergence: when calls succeed and pods come up between syncs, every sync makes progress unless two finished pods
 block an ordered scale-down; the work still to be done is known in advance, and the set ends up as specified and is
 then left alone.
 */
module Convergence {
  import opened Prelude
  import opened Pods
  import opened Reconcile
  import opened Placement
  import opened Discipline
  import opened Rollout
  import opened StatusMeaning
  import opened Cluster
  import Names

  /** A rolling set with a rollingUpdate block. */
  predicate Rolling(cfg: Config) {
    && cfg.sts.Valid() && !cfg.sts.deleting
    && !cfg.sts.strategy.kind.OnDeleteType? && cfg.sts.strategy.rollingUpdate.Some?
    && (cfg.gate ==> MaxUnavailable(cfg.sts).Some?)
  }

  /** A pod that has come up, or has finished and waits to be deleted. */
  predicate IsSettled(pod: Pod, clock: Clock) {
    IsHealthy(pod, clock) || (IsFinished(pod) && !IsReady(pod) && !pod.terminating)
  }

  predicate Settled(cfg: Config, s: State) {
    && WellFormed(s)
    && forall o :: o in s.pods ==> IsSettled(s.pods[o], ClockOf(cfg, s))
  }

  /**
   The environment round after a sync: live pods come up, finished ones stay as they are, terminating ones vanish.
   */
  ghost predicate Settles(cfg: Config, s: State, s': State) {
    && s'.current == s.current && s'.currentReplicas == s.currentReplicas && s'.now >= s.now
    && (forall o :: o in s'.pods <==> o in s.pods && !s.pods[o].terminating)
    && (forall o :: o in s'.pods ==>
          && s'.pods[o].name == s.pods[o].name && s'.pods[o].revision == s.pods[o].revision
          && IsSettled(s'.pods[o], ClockOf(cfg, s'))
          && (IsFinished(s'.pods[o]) <==> IsFinished(s.pods[o])))
  }

  /** One sync with a fresh listing and working API server, and the state it leaves. */
  datatype Round = Round(listing: seq<Pod>, api: Api, written: bool, after: State)

  ghost predicate IsRound(cfg: Config, s: State, round: Round, s': State) {
    && NoErrors(round.api)
    && SyncStep(cfg, s, round.listing, round.api, round.written, round.after)
    && Settles(cfg, round.after, s')
  }

  // ---------------------------------------------------------------- what is left to do

  /** Steps still needed for slot i: one to create a missing pod, two to replace a finished or outdated one. */
  function SlotCost(cfg: Config, s: State, i: nat): nat {
    var o := cfg.sts.start + i;
    if o !in s.pods then 1
    else if IsFinished(s.pods[o]) || (i >= cfg.sts.UpdateMin() && s.pods[o].revision != cfg.update) then 2
    else 0
  }

  function SlotCosts(cfg: Config, s: State, n: nat): nat {
    if n == 0 then 0 else SlotCosts(cfg, s, n - 1) + SlotCost(cfg, s, n - 1)
  }

  function PodsOutside(cfg: Config, s: State): (outside: set<int>)
    ensures forall o :: o in outside <==> o in s.pods && !cfg.sts.InRange(o)
  {
    set o | o in s.pods && !cfg.sts.InRange(o)
  }

  /** Missing slots, plus twice the finished or outdated pods, plus the pods outside the range. */
  function Cost(cfg: Config, s: State): nat {
    SlotCosts(cfg, s, cfg.sts.replicas) + |PodsOutside(cfg, s)|
  }

  /** An ordinal that the partition keeps from being updated; without a rollingUpdate block there is none. */
  predicate BelowPartition(sts: StatefulSet, o: int) {
    match sts.strategy.rollingUpdate
    case None => false
    case Some(block) => o < sts.start + block.partition
  }

  /** Exactly one pod per ordinal in range, none outside, none finished, all at or above the partition updated. */
  ghost predicate Converged(cfg: Config, s: State) {
    && (forall o :: cfg.sts.InRange(o) <==> o in s.pods)
    && (forall o :: o in s.pods ==> !IsFinished(s.pods[o]))
    && (forall o :: o in s.pods && !BelowPartition(cfg.sts, o) ==> s.pods[o].revision == cfg.update)
  }

  lemma {:induction false} SlotCostsZero(cfg: Config, s: State, n: nat)
    ensures SlotCosts(cfg, s, n) == 0 <==> forall i :: 0 <= i < n ==> SlotCost(cfg, s, i) == 0
    ensures SlotCosts(cfg, s, n) <= 2 * n
  {
    if n > 0 {
      SlotCostsZero(cfg, s, n - 1);
    }
  }

  /** Nothing is left to do exactly in the states the specification asks for. */
  lemma CostZeroIsConverged(cfg: Config, s: State)
    ensures Cost(cfg, s) == 0 <==> Converged(cfg, s)
  {
    hide IsFinished;
    SlotCostsZero(cfg, s, cfg.sts.replicas);
    if Cost(cfg, s) == 0 {
      assert PodsOutside(cfg, s) == {};
      forall o
        ensures cfg.sts.InRange(o) <==> o in s.pods
        ensures o in s.pods ==> !IsFinished(s.pods[o])
        ensures o in s.pods && !BelowPartition(cfg.sts, o) ==> s.pods[o].revision == cfg.update
      {
        assert o !in PodsOutside(cfg, s);
        if cfg.sts.InRange(o) {
          assert SlotCost(cfg, s, o - cfg.sts.start) == 0;
        }
      }
    }
    if Converged(cfg, s) {
      forall i: nat | i < cfg.sts.replicas
        ensures SlotCost(cfg, s, i) == 0
      {
        assert cfg.sts.InRange(cfg.sts.start + i);
      }
      assert PodsOutside(cfg, s) == {};
    }
  }

  /** Each member of a set of slots pays one. */
  lemma {:induction false} SlotCostsPaid(cfg: Config, s: State, s': State, paid: set<nat>, n: nat)
    requires forall i :: i in paid ==> i < n
    requires forall i :: 0 <= i < n ==> SlotCost(cfg, s, i) == SlotCost(cfg, s', i) + if i in paid then 1 else 0
    ensures SlotCosts(cfg, s, n) == SlotCosts(cfg, s', n) + |paid|
  {
    hide SlotCost;
    if n > 0 {
      SlotCostsPaid(cfg, s, s', paid - {n - 1}, n - 1);
      if n - 1 !in paid {
        assert paid - {n - 1} == paid;
      }
    } else {
      assert paid == {};
    }
  }

  // ---------------------------------------------------------------- every step pays

  lemma SettledFacts(pod: Pod, clock: Clock)
    requires IsSettled(pod, clock)
    ensures !pod.terminating && IsCreated(pod)
    ensures if IsFinished(pod) then IsUnavailable(pod, clock) && !IsAvailable(pod, clock) && !IsReady(pod)
            else IsHealthy(pod, clock)
  {
  }

  lemma HealthyFacts(pod: Pod, clock: Clock)
    requires IsHealthy(pod, clock)
    ensures !IsFinished(pod) && !pod.terminating && IsCreated(pod)
    ensures !IsUnavailable(pod, clock) && IsRunningAndReady(pod) && IsAvailable(pod, clock)
  {
  }

  predicate OutdatedSlots(cfg: Config, s: State, updated: set<nat>) {
    forall j :: j in updated ==> j < cfg.sts.replicas && cfg.sts.UpdateMin() <= j
                                 && IsCreated(View(cfg, s)[j]) && IsOutdated(View(cfg, s)[j], cfg.update)
  }

  /** What one round does to one slot. */
  lemma SlotPays(cfg: Config, s: State, condemned: seq<Pod>, api: Api, r: SyncResult, mid: State, s': State, i: nat)
    requires Rolling(cfg) && Settled(cfg, s) && NoErrors(api) && i < cfg.sts.replicas
    requires Justified(TargetOf(cfg, s), View(cfg, s), condemned, api, ClockOf(cfg, s), r)
    requires PodsAfter(cfg, s, r, api, mid) && Settles(cfg, mid, s')
    requires OutdatedSlots(cfg, s, r.updated)
    ensures i in r.created ==> i !in r.updated + r.finished
    ensures SlotCost(cfg, s, i) == SlotCost(cfg, s', i) + if i in r.created + (r.finished + r.updated) then 1 else 0
  {
    hide Update;
    hide Tally;
    hide Names.Ordinal;
    hide Names.PodName;
    hide IsSettled;
    hide IsFinished;
    var o := cfg.sts.start + i;
    assert Lookup(mid.pods, o) == PodAfter(cfg, s, r, api, o);
    assert View(cfg, s)[i] == SlotView(cfg, s, i);
    if o in s.pods {
      SettledFacts(s.pods[o], ClockOf(cfg, s));
    } else {
      UncreatedIsUnfinished(View(cfg, s)[i]);
    }
    assert i in r.created ==> o in mid.pods && mid.pods[o].phase.Pending? && !IsFinished(mid.pods[o]) by {
      if i in r.created {
        PendingIsUnfinished(mid.pods[o]);
      }
    }
  }

  lemma UncreatedIsUnfinished(pod: Pod)
    requires !IsCreated(pod)
    ensures !IsFinished(pod)
  {
  }

  lemma PendingIsUnfinished(pod: Pod)
    requires pod.phase.Pending?
    ensures !IsFinished(pod)
  {
  }

  lemma ScaledDownAreOutside(cfg: Config, s: State, condemned: seq<Pod>, api: Api, r: SyncResult)
    requires Justified(TargetOf(cfg, s), View(cfg, s), condemned, api, ClockOf(cfg, s), r)
    requires forall p :: p in condemned ==> Lookup(s.pods, Ordinal(p)) == Some(p) && !cfg.sts.InRange(Ordinal(p))
    ensures forall o :: o in r.scaledDown ==> o in s.pods && !cfg.sts.InRange(o)
  {
    hide Update;
    hide Tally;
    hide Names.Ordinal;
    forall o | o in r.scaledDown
      ensures o in s.pods && !cfg.sts.InRange(o)
    {
      var p :| p in condemned && Ordinal(p) == o && !p.terminating;
      assert Lookup(s.pods, Ordinal(p)) == Some(p);
    }
  }

  /** A pod outside the range outlasts a round iff it is neither terminating nor scaled down, finished iff it was. */
  lemma OneOutside(cfg: Config, s: State, api: Api, r: SyncResult, mid: State, s': State, o: int)
    requires NoErrors(api) && !cfg.sts.InRange(o)
    requires PodsAfter(cfg, s, r, api, mid) && Settles(cfg, mid, s')
    ensures o in s'.pods <==> o in s.pods && !s.pods[o].terminating && o !in r.scaledDown
    ensures o in s'.pods ==> (IsFinished(s'.pods[o]) <==> IsFinished(s.pods[o])) && !s'.pods[o].terminating
  {
    hide Names.Ordinal;
    hide IsReady;
    hide IsAvailable;
    assert Lookup(mid.pods, o) == PodAfter(cfg, s, r, api, o);
    assert o in s'.pods <==> o in mid.pods && !mid.pods[o].terminating;
  }

  /** Pods outside the range: exactly the scaled down ones are gone after the round. */
  lemma OutsidePays(cfg: Config, s: State, api: Api, r: SyncResult, mid: State, s': State)
    requires Settled(cfg, s) && NoErrors(api)
    requires forall o :: o in r.scaledDown ==> o in s.pods && !cfg.sts.InRange(o)
    requires PodsAfter(cfg, s, r, api, mid) && Settles(cfg, mid, s')
    ensures |PodsOutside(cfg, s)| == |PodsOutside(cfg, s')| + |r.scaledDown|
  {
    hide Names.Ordinal;
    hide IsHealthy;
    hide Settles;
    hide PodsAfter;
    hide PodsOutside;
    forall o
      ensures o in PodsOutside(cfg, s) <==> o in PodsOutside(cfg, s') || o in r.scaledDown
      ensures o in r.scaledDown ==> o !in PodsOutside(cfg, s')
    {
      if !cfg.sts.InRange(o) {
        OneOutside(cfg, s, api, r, mid, s', o);
        if o in s.pods {
          SettledFacts(s.pods[o], ClockOf(cfg, s));
        }
      }
    }
    assert PodsOutside(cfg, s) == PodsOutside(cfg, s') + r.scaledDown;
    assert PodsOutside(cfg, s') !! r.scaledDown;
  }

  /** The pods that a sync creates or deletes; a pod deleted as finished and as outdated counts once. */
  function Steps(r: SyncResult): nat {
    |r.created| + |r.finished + r.updated| + |r.scaledDown|
  }

  /** What EveryStepPays needs to know about the pods a sync deletes to update. */
  lemma UpdatedAreOutdated(cfg: Config, s: State, condemned: seq<Pod>, api: Api, r: SyncResult)
    requires Rolling(cfg) && UncreatedAreStamped(TargetOf(cfg, s), View(cfg, s))
    requires Justified(TargetOf(cfg, s), View(cfg, s), condemned, api, ClockOf(cfg, s), r)
    ensures OutdatedSlots(cfg, s, r.updated)
  {
    UpdateFacts(TargetOf(cfg, s), View(cfg, s), api, ClockOf(cfg, s));
    NoStampedPodIsDeleted(TargetOf(cfg, s), View(cfg, s), api, ClockOf(cfg, s));
    hide Update;
    hide Tally;
    hide Names.PodName;
  }

  lemma SlotsPay(cfg: Config, s: State, condemned: seq<Pod>, api: Api, r: SyncResult, mid: State, s': State)
    requires Rolling(cfg) && Settled(cfg, s) && NoErrors(api)
    requires UncreatedAreStamped(TargetOf(cfg, s), View(cfg, s))
    requires Justified(TargetOf(cfg, s), View(cfg, s), condemned, api, ClockOf(cfg, s), r)
    requires PodsAfter(cfg, s, r, api, mid) && Settles(cfg, mid, s')
    ensures SlotCosts(cfg, s, cfg.sts.replicas) ==
            SlotCosts(cfg, s', cfg.sts.replicas) + |r.created| + |r.finished + r.updated|
  {
    hide Update;
    hide Tally;
    hide PodsAfter;
    hide Settles;
    hide Settled;
    hide UncreatedAreStamped;
    hide SlotCost;
    UpdatedAreOutdated(cfg, s, condemned, api, r);
    var deleted := r.finished + r.updated;
    forall i: nat | i < cfg.sts.replicas
      ensures i in r.created ==> i !in deleted
      ensures SlotCost(cfg, s, i) == SlotCost(cfg, s', i) + if i in r.created + deleted then 1 else 0
    {
      SlotPays(cfg, s, condemned, api, r, mid, s', i);
    }
    SlotCostsPaid(cfg, s, s', r.created + deleted, cfg.sts.replicas);
    assert r.created !! deleted;
  }

  lemma SettlesToSettled(cfg: Config, mid: State, s': State)
    requires WellFormed(mid) && Settles(cfg, mid, s')
    ensures Settled(cfg, s')
  {
    hide Names.Ordinal;
    hide IsReady;
    hide IsAvailable;
  }

  /** The cost falls by exactly one for every pod that the sync creates or deletes. */
  lemma EveryStepPays(cfg: Config, s: State, round: Round, s': State)
    requires Rolling(cfg) && Settled(cfg, s) && IsRound(cfg, s, round, s')
    ensures Cost(cfg, s) == Cost(cfg, s') + Steps(SyncOf(cfg, s, round.listing, round.api))
  {
    hide SyncOf;
    hide Justified;
    hide PodsAfter;
    hide Names.Ordinal;
    hide IsSettled;
    hide Settles;
    hide SlotCosts;
    hide PodsOutside;
    var r, condemned := SyncOf(cfg, s, round.listing, round.api), Condemned(cfg.sts, round.listing);
    SyncIsJustified(cfg, s, round.listing, round.api);
    ListingOutside(cfg, s, round.listing);
    ListingIsView(cfg, s, round.listing);
    ScaledDownAreOutside(cfg, s, condemned, round.api, r);
    OutsidePays(cfg, s, round.api, r, round.after, s');
    SlotsPay(cfg, s, condemned, round.api, r, round.after, s');
  }

  // ---------------------------------------------------------------- finished pods outside the range

  function FinishedOutside(cfg: Config, s: State): (finished: set<int>)
    ensures forall o :: o in finished <==>
              o in s.pods && !cfg.sts.InRange(o) && IsFinished(s.pods[o]) && !s.pods[o].terminating
  {
    set o | o in s.pods && !cfg.sts.InRange(o) && IsFinished(s.pods[o]) && !s.pods[o].terminating
  }

  /** The pods outside the range can all be deleted: in OrderedReady mode two finished ones block each other. */
  predicate Clearable(cfg: Config, s: State) {
    cfg.sts.parallel || |FinishedOutside(cfg, s)| <= 1
  }

  /** While two finished pods are outside the range, an OrderedReady sync deletes no finished pod there. */
  lemma FinishedPairBlocks(cfg: Config, s: State, listing: seq<Pod>, api: Api)
    requires cfg.sts.Valid() && WellFormed(s) && FinishedAreNotReady(s) && Lists(s.pods, listing)
    requires !cfg.sts.parallel && !cfg.sts.deleting && |FinishedOutside(cfg, s)| >= 2
    ensures SyncOf(cfg, s, listing, api).scaledDown !! FinishedOutside(cfg, s)
  {
    hide Names.Ordinal;
    hide SyncSlots;
    hide FinishedOutside;
    ListingIsView(cfg, s, listing);
    ListingOutside(cfg, s, listing);
    var t, v, condemned, clock := TargetOf(cfg, s), View(cfg, s), Condemned(cfg.sts, listing), ClockOf(cfg, s);
    assert SyncOf(cfg, s, listing, api) == SyncSlots(t, v, condemned, api, clock);
    var some := AnotherMember(FinishedOutside(cfg, s), -1);
    assert s.pods[some] in condemned;
    OrderedScaleDown(t, v, condemned, api, clock);
    var top := condemned[0];
    assert top in condemned;
    if Ordinal(top) in FinishedOutside(cfg, s) {
      var other := AnotherMember(FinishedOutside(cfg, s), Ordinal(top));
      assert s.pods[other] in condemned;
      var j :| 0 <= j < |condemned| && condemned[j] == s.pods[other];
      assert j > 0 && IsUnavailable(condemned[j], clock) && !IsRunningAndReady(top);
    }
  }

  /**
   The other way in which an ordered scale-down waits: a highest pod outside the range that is available but not
   Running blocks every OrderedReady sync, whatever the other pods are and whatever calls would return.
   */
  lemma AvailableNotRunningBlocks(cfg: Config, s: State, listing: seq<Pod>, api: Api, o: int)
    requires cfg.sts.Valid() && WellFormed(s) && Lists(s.pods, listing) && !cfg.sts.parallel && !cfg.sts.deleting
    requires o in s.pods && !cfg.sts.InRange(o) && forall q :: q in s.pods && !cfg.sts.InRange(q) ==> q <= o
    requires IsAvailable(s.pods[o], ClockOf(cfg, s)) && !s.pods[o].phase.Running?
    ensures var r := SyncOf(cfg, s, listing, api);
            r.scaledDown == {} && r.updated == {}
  {
    hide Names.Ordinal;
    hide SyncSlots;
    hide IsReady;
    hide IsAvailable;
    ListingIsView(cfg, s, listing);
    ListingOutside(cfg, s, listing);
    var t, v, condemned, clock := TargetOf(cfg, s), View(cfg, s), Condemned(cfg.sts, listing), ClockOf(cfg, s);
    assert SyncOf(cfg, s, listing, api) == SyncSlots(t, v, condemned, api, clock);
    assert s.pods[o] in condemned && condemned[0] in condemned;
    var j :| 0 <= j < |condemned| && condemned[j] == s.pods[o];
    assert j == 0;
    OrderedScaleDown(t, v, condemned, api, clock);
    OrderedReadyDiscipline(t, v, condemned, api, clock);
  }

  lemma FinishedOutsideAfter(cfg: Config, s: State, api: Api, r: SyncResult, mid: State, s': State)
    requires NoErrors(api) && PodsAfter(cfg, s, r, api, mid) && Settles(cfg, mid, s')
    ensures FinishedOutside(cfg, s') == FinishedOutside(cfg, s) - r.scaledDown
    ensures PodsOutside(cfg, s') <= PodsOutside(cfg, s)
  {
    hide PodsAfter;
    hide Settles;
    hide IsFinished;
    hide FinishedOutside;
    hide PodsOutside;
    forall o
      ensures o in FinishedOutside(cfg, s') <==> o in FinishedOutside(cfg, s) && o !in r.scaledDown
      ensures o in PodsOutside(cfg, s') ==> o in PodsOutside(cfg, s)
    {
      if !cfg.sts.InRange(o) {
        OneOutside(cfg, s, api, r, mid, s', o);
      }
    }
  }

  /** A round from any state settles the pods, makes no block, and removes none if finished pods are not ready. */
  lemma RoundSettles(cfg: Config, s: State, round: Round, s': State)
    requires Rolling(cfg) && WellFormed(s) && IsRound(cfg, s, round, s')
    ensures Settled(cfg, s')
    ensures Clearable(cfg, s) ==> Clearable(cfg, s')
    ensures Clearable(cfg, s') && FinishedAreNotReady(s) ==> Clearable(cfg, s)
    ensures |PodsOutside(cfg, s')| <= |PodsOutside(cfg, s)|
  {
    hide SyncOf;
    hide Justified;
    hide PodsAfter;
    hide Settles;
    hide Settled;
    hide FinishedOutside;
    hide PodsOutside;
    hide FinishedAreNotReady;
    var r := SyncOf(cfg, s, round.listing, round.api);
    SyncIsJustified(cfg, s, round.listing, round.api);
    CallsKeepWellFormed(cfg, s, Condemned(cfg.sts, round.listing), round.api, r, round.after);
    SettlesToSettled(cfg, round.after, s');
    FinishedOutsideAfter(cfg, s, round.api, r, round.after, s');
    SubsetSize(PodsOutside(cfg, s'), PodsOutside(cfg, s));
    SubsetSize(FinishedOutside(cfg, s'), FinishedOutside(cfg, s));
    if !Clearable(cfg, s) && FinishedAreNotReady(s) {
      FinishedPairBlocks(cfg, s, round.listing, round.api);
      assert FinishedOutside(cfg, s') == FinishedOutside(cfg, s);
    }
  }

  // ---------------------------------------------------------------- every sync makes progress

  /** Slots of a settled state: settled pods and stamped ones. */
  predicate SettledSlots(slots: seq<Pod>, clock: Clock) {
    forall i :: 0 <= i < |slots| ==> !IsCreated(slots[i]) || IsSettled(slots[i], clock)
  }

  lemma CleanOutcomes(slots: seq<Pod>, monotonic: bool, api: Api, clock: Clock)
    requires SettledSlots(slots, clock) && NoErrors(api)
    ensures var fn := ReplicaOutcomes(slots, monotonic, api, clock);
            && (forall i :: 0 <= i < |fn| ==> !fn[i].err && (fn[i].call.CreateCall? <==> !IsCreated(slots[i])))
            && (forall i :: 0 <= i < |fn| ==> (fn[i].call.DeleteCall? <==> IsFinished(slots[i])))
            && (forall i :: 0 <= i < |fn| ==> fn[i].exit ==> !fn[i].call.NoCall?)
            && (forall i :: 0 <= i < |fn| && monotonic && !fn[i].call.NoCall? ==> fn[i].exit)
  {
    hide IsReady;
    hide IsAvailable;
  }

  /**
   An empty slot or a finished pod in one makes a sync create or delete: the first of them in OrderedReady mode, all
   of them in Parallel mode.
   */
  lemma GapIsWorkedOn(t: Target, slots: seq<Pod>, condemned: seq<Pod>, api: Api, clock: Clock, i: nat)
    requires SettledSlots(slots, clock) && NoErrors(api)
    requires i < |slots| && (!IsCreated(slots[i]) || IsFinished(slots[i]))
    ensures var r := SyncSlots(t, slots, condemned, api, clock);
            r.created + r.finished != {}
  {
    hide IsHealthy;
    hide IsSettled;
    hide Update;
    hide StatusOver;
    hide CondemnedOutcomes;
    hide FirstUnhealthy;
    hide ReplicaOutcomes;
    hide VisitInOrder;
    hide VisitInBatches;
    var monotonic := !t.sts.parallel;
    var fn := ReplicaOutcomes(slots, monotonic, api, clock);
    CleanOutcomes(slots, monotonic, api, clock);
    VisitFacts(fn, 0);
    CleanBatches(fn);
    var v := VisitAll(fn, monotonic);
    assert v.visited > 0;
    var k: nat := if monotonic then v.visited - 1 else i;
    assert k in Calls(fn, v.visited, CreateCall) || k in Calls(fn, v.visited, DeleteCall);
  }

  lemma CleanClaims(condemned: seq<Pod>, monotonic: bool, api: Api)
    requires NoErrors(api)
    ensures !VisitAll(ClaimOutcomes(condemned, api), monotonic).stop
  {
    hide Names.Ordinal;
    hide VisitInBatches;
    VisitFacts(ClaimOutcomes(condemned, api), 0);
    CleanBatches(ClaimOutcomes(condemned, api));
  }

  lemma CleanReplicas(slots: seq<Pod>, monotonic: bool, api: Api, clock: Clock)
    requires AllHealthy(slots, |slots|, clock) && NoErrors(api)
    ensures !VisitAll(ReplicaOutcomes(slots, monotonic, api, clock), monotonic).stop
  {
    hide VisitInBatches;
    hide IsReady;
    hide IsAvailable;
    var fn := ReplicaOutcomes(slots, monotonic, api, clock);
    CleanOutcomes(slots, monotonic, api, clock);
    VisitFacts(fn, 0);
    CleanBatches(fn);
  }

  /**
   With all slots up, a condemned pod is deleted, unless two condemned pods are finished and the mode is OrderedReady.
   */
  lemma CondemnedGo(t: Target, slots: seq<Pod>, condemned: seq<Pod>, api: Api, clock: Clock)
    requires AllHealthy(slots, |slots|, clock) && NoErrors(api)
    requires condemned != [] && StrictlyDescending(condemned) && SettledSlots(condemned, clock)
    requires forall j :: 0 <= j < |condemned| ==> IsCreated(condemned[j])
    requires t.sts.parallel ||
             forall i, j :: 0 <= i < j < |condemned| ==> !IsFinished(condemned[i]) || !IsFinished(condemned[j])
    ensures SyncSlots(t, slots, condemned, api, clock).scaledDown != {}
  {
    hide Names.Ordinal;
    hide SyncSlots;
    hide IsReady;
    hide IsAvailable;
    var top := condemned[0];
    assert IsSettled(top, clock);
    if t.sts.parallel {
      ParallelDoesEverything(t, slots, condemned, api, clock);
      assert top in condemned && Ordinal(top) in SyncSlots(t, slots, condemned, api, clock).scaledDown;
    } else {
      SettledFacts(top, clock);
      forall j | 0 < j < |condemned| && IsFinished(top)
        ensures !IsUnavailable(condemned[j], clock)
      {
        SettledFacts(condemned[j], clock);
        HealthyFacts(condemned[j], clock);
      }
      OrderedScaleDown(t, slots, condemned, api, clock);
      assert Ordinal(top) in SyncSlots(t, slots, condemned, api, clock).scaledDown;
    }
  }

  /** With all pods available both update loops find an outdated pod at or above the partition. */
  lemma UpdateFinds(t: Target, slots: seq<Pod>, api: Api, clock: Clock, j: nat)
    requires forall i :: 0 <= i < |slots| ==> !IsUnavailable(slots[i], clock)
    requires !t.sts.strategy.kind.OnDeleteType? && (t.maxUnavailableGate ==> MaxUnavailable(t.sts).Some?)
    requires (forall i :: api.deleteForUpdate(i).Accepted?)
    requires t.sts.UpdateMin() <= j < |slots| && IsOutdated(slots[j], t.update)
    ensures Update(t, slots, api, clock).targets != {}
  {
    hide IsUnavailable;
    hide IsOutdated;
    hide DeleteOutdated;
    hide LegacyUpdate;
    if t.maxUnavailableGate {
      assert forall i :: 0 <= i < |slots| ==> !Meets(slots[i], UnavailablePod, clock);
      TallyExtremes(slots, UnavailablePod, clock);
      var budget := MaxUnavailable(t.sts).value;
      DeleteOutdatedErrors(slots, t.update, t.sts.UpdateMin(), |slots|, budget, api);
      DeleteOutdatedAll(slots, t.update, t.sts.UpdateMin(), |slots|, budget, api, j);
    } else {
      var k := TopmostOutdated(slots, t.update, j);
      LegacyTarget(slots, t.update, t.sts.UpdateMin(), |slots|, api, clock, k);
    }
  }

  lemma TopmostOutdated(slots: seq<Pod>, update: string, j: nat) returns (k: nat)
    requires j < |slots| && IsOutdated(slots[j], update)
    ensures j <= k < |slots| && IsOutdated(slots[k], update)
    ensures forall i :: k < i < |slots| ==> !IsOutdated(slots[i], update)
  {
    k := |slots| - 1;
    while !IsOutdated(slots[k], update)
      invariant j <= k < |slots| && forall i :: k < i < |slots| ==> !IsOutdated(slots[i], update)
      decreases k
    {
      k := k - 1;
    }
  }

  /** With all slots up and nothing condemned, an outdated pod at or above the partition is deleted. */
  lemma OutdatedGo(t: Target, slots: seq<Pod>, api: Api, clock: Clock, j: nat)
    requires AllHealthy(slots, |slots|, clock) && NoErrors(api)
    requires !t.sts.strategy.kind.OnDeleteType? && (t.maxUnavailableGate ==> MaxUnavailable(t.sts).Some?)
    requires t.sts.UpdateMin() <= j < |slots| && IsOutdated(slots[j], t.update)
    ensures SyncSlots(t, slots, [], api, clock).updated != {}
  {
    hide IsHealthy;
    hide StatusOver;
    hide ReplicaOutcomes;
    hide ClaimOutcomes;
    hide CondemnedOutcomes;
    hide FirstUnhealthy;
    hide VisitInBatches;
    hide Update;
    var monotonic := !t.sts.parallel;
    CleanReplicas(slots, monotonic, api, clock);
    CleanClaims([], monotonic, api);
    CleanBatches([]);
    forall i | 0 <= i < |slots|
      ensures !IsUnavailable(slots[i], clock)
    {
      HealthyFacts(slots[i], clock);
    }
    UpdateFinds(t, slots, api, clock, j);
    assert CondemnedOutcomes([], FirstUnhealthy(slots, [], clock), monotonic, api, clock) == [];
  }

  /** As long as something is left to do and nothing is blocked, a sync of a settled state makes a step. */
  lemma SyncProgresses(cfg: Config, s: State, listing: seq<Pod>, api: Api)
    requires Rolling(cfg) && Settled(cfg, s) && NoErrors(api) && Lists(s.pods, listing)
    requires Cost(cfg, s) > 0 && Clearable(cfg, s)
    ensures Steps(SyncOf(cfg, s, listing, api)) > 0
  {
    hide SyncSlots;
    hide Names.Ordinal;
    hide Names.PodName;
    hide IsSettled;
    hide IsHealthy;
    hide IsFinished;
    hide Clearable;
    hide StrictlyDescending;
    ListingIsView(cfg, s, listing);
    ListingOutside(cfg, s, listing);
    var t, v, condemned, clock := TargetOf(cfg, s), View(cfg, s), Condemned(cfg.sts, listing), ClockOf(cfg, s);
    SettledView(cfg, s);
    assert SyncOf(cfg, s, listing, api) == SyncSlots(t, v, condemned, api, clock);
    var r := SyncSlots(t, v, condemned, api, clock);
    if i: nat :| i < |v| && (!IsCreated(v[i]) || IsFinished(v[i])) {
      GapIsWorkedOn(t, v, condemned, api, clock, i);
      assert r.created == {} ==> r.finished + r.updated != {};
    } else {
      forall i | 0 <= i < |v|
        ensures IsHealthy(v[i], clock)
      {
        SettledFacts(v[i], clock);
      }
      if condemned != [] {
        CondemnedAreSettled(cfg, s, condemned);
        CondemnedGo(t, v, condemned, api, clock);
      } else {
        var j := SomethingOutdated(cfg, s);
        OutdatedGo(t, v, api, clock, j);
        assert r.finished + r.updated != {};
      }
    }
  }

  lemma CondemnedAreSettled(cfg: Config, s: State, condemned: seq<Pod>)
    requires Settled(cfg, s) && Clearable(cfg, s) && StrictlyDescending(condemned)
    requires forall p :: p in condemned ==> Lookup(s.pods, Ordinal(p)) == Some(p) && !cfg.sts.InRange(Ordinal(p))
    ensures SettledSlots(condemned, ClockOf(cfg, s))
    ensures forall j :: 0 <= j < |condemned| ==> IsCreated(condemned[j])
    ensures cfg.sts.parallel ||
            forall i, j :: 0 <= i < j < |condemned| ==> !IsFinished(condemned[i]) || !IsFinished(condemned[j])
  {
    hide Names.Ordinal;
    hide IsSettled;
    hide IsFinished;
    hide FinishedOutside;
    forall j | 0 <= j < |condemned|
      ensures IsSettled(condemned[j], ClockOf(cfg, s)) && IsCreated(condemned[j]) && !condemned[j].terminating
    {
      assert condemned[j] in condemned;
      assert Lookup(s.pods, Ordinal(condemned[j])) == Some(condemned[j]);
      SettledFacts(condemned[j], ClockOf(cfg, s));
    }
    forall i, j | 0 <= i < j < |condemned| && IsFinished(condemned[i]) && IsFinished(condemned[j])
      ensures cfg.sts.parallel
    {
      assert condemned[i] in condemned && condemned[j] in condemned;
      TwoMembers(FinishedOutside(cfg, s), Ordinal(condemned[i]), Ordinal(condemned[j]));
    }
  }

  lemma SettledView(cfg: Config, s: State)
    requires Settled(cfg, s)
    ensures SettledSlots(View(cfg, s), ClockOf(cfg, s))
    ensures forall i :: 0 <= i < cfg.sts.replicas ==> (IsCreated(View(cfg, s)[i]) <==> cfg.sts.start + i in s.pods)
  {
    hide IsSettled;
    hide Names.PodName;
  }

  lemma SomethingOutdated(cfg: Config, s: State) returns (j: nat)
    requires Settled(cfg, s) && Cost(cfg, s) > 0
    requires forall i :: 0 <= i < cfg.sts.replicas ==> IsCreated(View(cfg, s)[i]) && !IsFinished(View(cfg, s)[i])
    requires forall o :: o in s.pods ==> cfg.sts.InRange(o)
    ensures cfg.sts.UpdateMin() <= j < cfg.sts.replicas && IsOutdated(View(cfg, s)[j], cfg.update)
  {
    hide Names.PodName;
    hide IsSettled;
    hide IsFinished;
    assert PodsOutside(cfg, s) == {};
    SlotCostsZero(cfg, s, cfg.sts.replicas);
    j :| j < cfg.sts.replicas && SlotCost(cfg, s, j) != 0;
    assert IsCreated(View(cfg, s)[j]) && View(cfg, s)[j] == SlotView(cfg, s, j);
    SettledFacts(View(cfg, s)[j], ClockOf(cfg, s));
  }

  // ---------------------------------------------------------------- whole runs

  ghost predicate Rounds(cfg: Config, states: seq<State>, rounds: seq<Round>) {
    && |states| == |rounds| + 1
    && forall k :: 0 <= k < |rounds| ==> IsRound(cfg, states[k], rounds[k], states[k + 1])
  }

  /** The steps of the rounds from..to. */
  function TotalSteps(cfg: Config, states: seq<State>, rounds: seq<Round>, from: nat, to: nat): nat
    requires from <= to <= |rounds| && to <= |states|
  {
    if from == to then 0
    else TotalSteps(cfg, states, rounds, from, to - 1) +
         Steps(SyncOf(cfg, states[to - 1], rounds[to - 1].listing, rounds[to - 1].api))
  }

  lemma SettledIsReadyToGo(cfg: Config, s: State)
    requires Settled(cfg, s)
    ensures WellFormed(s) && FinishedAreNotReady(s)
  {
    hide IsReady;
    hide IsAvailable;
    hide Names.Ordinal;
  }

  /**
   From a settled state on, the steps are exactly the fall in cost, and there is one in each round unless blocked.
   */
  lemma {:induction false} SettledRounds(cfg: Config, states: seq<State>, rounds: seq<Round>, from: nat, n: nat)
    requires Rolling(cfg) && Rounds(cfg, states, rounds) && from <= n < |states| && Settled(cfg, states[from])
    ensures Settled(cfg, states[n]) && (Clearable(cfg, states[n]) <==> Clearable(cfg, states[from]))
    ensures TotalSteps(cfg, states, rounds, from, n) + Cost(cfg, states[n]) == Cost(cfg, states[from])
    ensures Clearable(cfg, states[from]) ==> Cost(cfg, states[n]) <= Max(0, Cost(cfg, states[from]) - (n - from))
  {
    hide SyncOf;
    hide Cost;
    hide Settled;
    hide Clearable;
    hide Rolling;
    hide IsRound;
    if from < n {
      SettledRounds(cfg, states, rounds, from, n - 1);
      var s, round, s' := states[n - 1], rounds[n - 1], states[n];
      assert IsRound(cfg, s, round, s');
      SettledIsReadyToGo(cfg, s);
      RoundSettles(cfg, s, round, s');
      EveryStepPays(cfg, s, round, s');
      if Clearable(cfg, s) && Cost(cfg, s) > 0 {
        RoundProgresses(cfg, s, round, s');
      }
    }
  }

  lemma RoundProgresses(cfg: Config, s: State, round: Round, s': State)
    requires Rolling(cfg) && Settled(cfg, s) && IsRound(cfg, s, round, s')
    requires Cost(cfg, s) > 0 && Clearable(cfg, s)
    ensures Steps(SyncOf(cfg, s, round.listing, round.api)) > 0
  {
    SyncProgresses(cfg, s, round.listing, round.api);
  }

  lemma BlockedIsNotConverged(cfg: Config, s: State)
    requires !Clearable(cfg, s)
    ensures !Converged(cfg, s)
  {
    hide IsFinished;
    hide FinishedOutside;
    var o := AnotherMember(FinishedOutside(cfg, s), -1);
  }

  /** A bound on the rounds needed, known from the first state. */
  function Horizon(cfg: Config, s: State): nat {
    2 * cfg.sts.replicas + |PodsOutside(cfg, s)|
  }

  /**
   Convergence, from any well-formed state, in both management modes, for either gate setting and for any
   maxUnavailable and partition. The first round settles the pods; from then on the cost falls by exactly the steps
   made, at least one in each round unless blocked. After Horizon(first state) further rounds the set is converged iff
   after the first round the management is Parallel or at most one finished pod is outside the range. At most one to
   begin with is enough; and if finished pods are not Ready, with two to begin with the set never converges.
   */
  lemma RoundsConverge(cfg: Config, states: seq<State>, rounds: seq<Round>, n: nat)
    requires Rolling(cfg) && Rounds(cfg, states, rounds) && WellFormed(states[0]) && n < |states|
    ensures n >= 1 ==>
              && Settled(cfg, states[n])
              && Cost(cfg, states[1]) <= Horizon(cfg, states[0])
              && TotalSteps(cfg, states, rounds, 1, n) + Cost(cfg, states[n]) == Cost(cfg, states[1])
    ensures n >= 1 && Clearable(cfg, states[0]) ==>
              Cost(cfg, states[n]) <= Max(0, Cost(cfg, states[1]) - (n - 1))
    ensures n > Horizon(cfg, states[0]) ==> (Converged(cfg, states[n]) <==> Clearable(cfg, states[1]))
    ensures n > Horizon(cfg, states[0]) && Clearable(cfg, states[0]) ==> Converged(cfg, states[n])
    ensures FinishedAreNotReady(states[0]) && !Clearable(cfg, states[0]) ==> !Converged(cfg, states[n])
  {
    hide SyncOf;
    hide Settled;
    hide Clearable;
    hide Converged;
    hide Rolling;
    hide IsRound;
    if n == 0 {
      if !Clearable(cfg, states[0]) {
        BlockedIsNotConverged(cfg, states[0]);
      }
    } else {
      assert IsRound(cfg, states[0], rounds[0], states[1]);
      RoundSettles(cfg, states[0], rounds[0], states[1]);
      SlotCostsZero(cfg, states[1], cfg.sts.replicas);
      SettledRounds(cfg, states, rounds, 1, n);
      CostZeroIsConverged(cfg, states[n]);
      if !Clearable(cfg, states[n]) {
        BlockedIsNotConverged(cfg, states[n]);
      }
    }
  }

  /**
   What convergence comes to, in the words of the specification: after the horizon every ordinal from start +
   partition up holds a pod at the update revision, and every ordinal below holds some pod, unless the set is blocked.
   */
  lemma EveryReplicaIsUpdated(cfg: Config, states: seq<State>, rounds: seq<Round>, n: nat, o: int)
    requires Rolling(cfg) && Rounds(cfg, states, rounds) && WellFormed(states[0]) && n < |states|
    requires n > 2 * cfg.sts.replicas + |PodsOutside(cfg, states[0])|
    requires cfg.sts.parallel || |FinishedOutside(cfg, states[0])| <= 1
    ensures o in states[n].pods <==> cfg.sts.start <= o < cfg.sts.start + cfg.sts.replicas
    ensures o in states[n].pods ==> states[n].pods[o].phase.Running?
    ensures cfg.sts.start + cfg.sts.strategy.rollingUpdate.value.partition <= o < cfg.sts.start + cfg.sts.replicas ==>
              states[n].pods[o].revision == cfg.update
  {
    RoundsConverge(cfg, states, rounds, n);
    hide IsReady;
    hide IsAvailable;
    hide IsRound;
    hide Names.Ordinal;
    hide Cost;
    assert o in states[n].pods ==> IsSettled(states[n].pods[o], ClockOf(cfg, states[n]));
  }

  /** A sync of a converged set makes no call, whatever its pods' health and whatever calls would return. */
  lemma ConvergedIsQuiet(cfg: Config, s: State, listing: seq<Pod>, api: Api)
    requires cfg.sts.Valid() && WellFormed(s) && Converged(cfg, s) && Lists(s.pods, listing)
    ensures var r := SyncOf(cfg, s, listing, api);
            r.created == {} && r.finished == {} && r.scaledDown == {} && r.updated == {}
  {
    hide SyncOf;
    hide Names.Ordinal;
    hide Names.PodName;
    hide Tally;
    hide IsFinished;
    var r, t, v, clock := SyncOf(cfg, s, listing, api), TargetOf(cfg, s), View(cfg, s), ClockOf(cfg, s);
    SyncIsJustified(cfg, s, listing, api);
    ListingOutside(cfg, s, listing);
    UpdateFacts(t, v, api, clock);
    hide Update;
    forall i | 0 <= i < cfg.sts.replicas
      ensures IsCreated(v[i]) && !IsFinished(v[i])
      ensures i >= cfg.sts.UpdateMin() ==> !IsOutdated(v[i], cfg.update)
    {
      assert cfg.sts.InRange(cfg.sts.start + i) && v[i] == SlotView(cfg, s, i);
    }
    ScaledDownAreOutside(cfg, s, Condemned(cfg.sts, listing), api, r);
    assert forall o :: o !in r.scaledDown;
  }
}

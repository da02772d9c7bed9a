/**
 Safety over whole runs: a rolling update never crosses its partition, always leaves old pods below new ones, and
 never takes more replicas out of service than maxUnavailable allows.
 */
module Safety {
  import opened Prelude
  import opened Pods
  import opened Reconcile
  import opened Rollout
  import opened StatusMeaning
  import opened Placement
  import opened Cluster
  import Names

  // ---------------------------------------------------------------- the partition

  /** No pod outside the range, no pod below the partition at the update revision, and the rollout is not complete. */
  predicate PartitionKept(cfg: Config, partition: nat, s: State) {
    && WellFormed(s) && NoPodOutside(cfg, s)
    && s.current != cfg.update
    && forall o :: o in s.pods && o < cfg.sts.start + partition ==> s.pods[o].revision != cfg.update
  }

  predicate Partitioned(cfg: Config, partition: nat) {
    && cfg.sts.Valid() && cfg.sts.replicas >= 1
    && cfg.sts.strategy.rollingUpdate.Some? && partition >= 1
    && cfg.sts.strategy.rollingUpdate.value.partition == partition
  }

  lemma PodsBelowPartition(
    cfg: Config, partition: nat, s: State, condemned: seq<Pod>, api: Api, r: SyncResult, s': State)
    requires Partitioned(cfg, partition) && PartitionKept(cfg, partition, s)
    requires Justified(TargetOf(cfg, s), View(cfg, s), condemned, api, ClockOf(cfg, s), r)
    requires PodsAfter(cfg, s, r, api, s')
    ensures forall o :: o in s'.pods && o < cfg.sts.start + partition ==> s'.pods[o].revision != cfg.update
  {
    hide Update;
    hide Tally;
    hide Names.PodName;
    forall o | o in s'.pods && o < cfg.sts.start + partition
      ensures s'.pods[o].revision != cfg.update
    {
      assert Lookup(s'.pods, o) == PodAfter(cfg, s, r, api, o);
    }
  }

  /** The first slot is below the partition, so never all replicas are counted as updated. */
  lemma RolloutStaysOpen(cfg: Config, partition: nat, s: State, api: Api, r: SyncResult)
    requires Partitioned(cfg, partition) && PartitionKept(cfg, partition, s)
    requires Justified(TargetOf(cfg, s), View(cfg, s), [], api, ClockOf(cfg, s), r)
    ensures CompleteRollingUpdate(cfg.sts, r.status).currentRevision == s.current
  {
    hide Update;
    hide IsReady;
    hide IsAvailable;
    hide Names.PodName;
    var v := View(cfg, s);
    assert v + [] == v;
    TallyExtremes(v, AtRevision(cfg.update), ClockOf(cfg, s));
    assert !Meets(v[0], AtRevision(cfg.update), ClockOf(cfg, s));
  }

  lemma PartitionStep(cfg: Config, partition: nat, s: State, e: Event, s': State)
    requires Partitioned(cfg, partition) && PartitionKept(cfg, partition, s) && Step(cfg, Hostile, s, e, s')
    ensures PartitionKept(cfg, partition, s') && s'.current == s.current
  {
    hide SyncOf;
    hide Names.Ordinal;
    match e
    case EnvironmentEvent =>
    case SyncEvent(listing, api, written) =>
      var r := SyncOf(cfg, s, listing, api);
      SyncIsJustified(cfg, s, listing, api);
      ListingOutside(cfg, s, listing);
      CallsKeepWellFormed(cfg, s, [], api, r, s');
      PodsBelowPartition(cfg, partition, s, [], api, r, s');
      RolloutStaysOpen(cfg, partition, s, api, r);
  }

  /**
   The partition is never crossed: whatever pods die or change, and whatever calls fail, no pod below the partition
   ever runs the update revision, and the current revision of the set never moves.
   */
  lemma {:induction false} PartitionIsNeverCrossed(
    cfg: Config, partition: nat, states: seq<State>, events: seq<Event>, k: nat)
    requires Partitioned(cfg, partition) && Run(cfg, Hostile, states, events)
    requires PartitionKept(cfg, partition, states[0]) && k < |states|
    ensures PartitionKept(cfg, partition, states[k]) && states[k].current == states[0].current
  {
    hide Step;
    hide PartitionKept;
    if k > 0 {
      PartitionIsNeverCrossed(cfg, partition, states, events, k - 1);
      PartitionStep(cfg, partition, states[k - 1], events[k - 1], states[k]);
    }
  }

  // ---------------------------------------------------------------- old pods below new pods

  predicate HoldsOld(s: State, o: int, prior: string) {
    o in s.pods && !s.pods[o].terminating && s.pods[o].revision == prior
  }

  predicate HoldsNewIfLive(s: State, o: int, update: string) {
    o in s.pods && !s.pods[o].terminating ==> s.pods[o].revision == update
  }

  /** All slots below k hold live pods at the old revision; what lives at k and above is at the update revision. */
  ghost predicate OldBelowNew(cfg: Config, prior: string, s: State, k: nat) {
    && WellFormed(s) && NoPodOutside(cfg, s) && NoneFinished(s)
    && Min(cfg.sts.UpdateMin(), cfg.sts.replicas) <= k <= cfg.sts.replicas
    && (forall o :: cfg.sts.start <= o < cfg.sts.start + k ==> HoldsOld(s, o, prior))
    && (forall o :: cfg.sts.start + k <= o < cfg.sts.start + cfg.sts.replicas ==> HoldsNewIfLive(s, o, cfg.update))
  }

  /** A set closed upwards below k is an interval ending at k. */
  lemma {:induction false} UpwardsClosed(s: set<nat>, k: nat) returns (m: nat)
    requires forall i :: i in s ==> i < k
    requires forall i, j :: i in s && i < j < k ==> j in s
    ensures m <= k && forall i :: i in s <==> m <= i < k
  {
    m := k;
    while m > 0 && m - 1 in s
      invariant m <= k && forall i :: m <= i < k ==> i in s
    {
      m := m - 1;
    }
    if i :| i in s && i < m {
      assert m - 1 in s;
    }
  }

  /** The outdated pods a sync sees are those below k, so the deletions that succeed are the topmost of them. */
  lemma DeletedInterval(cfg: Config, prior: string, s: State, k: nat, api: Api, r: SyncResult) returns (m: nat)
    requires cfg.sts.strategy.rollingUpdate.Some? && prior != cfg.update
    requires OldBelowNew(cfg, prior, s, k)
    requires Justified(TargetOf(cfg, s), View(cfg, s), [], api, ClockOf(cfg, s), r)
    ensures Min(cfg.sts.UpdateMin(), cfg.sts.replicas) <= m <= k
    ensures forall i :: i in Removed(r, api) <==> m <= i < k
  {
    var t, v := TargetOf(cfg, s), View(cfg, s);
    var d := Update(t, v, api, ClockOf(cfg, s));
    UpdateFacts(t, v, api, ClockOf(cfg, s));
    hide Update;
    hide Tally;
    hide Names.Ordinal;
    hide Names.PodName;
    var gone := Removed(r, api);
    forall i | cfg.sts.UpdateMin() <= i < |v|
      ensures IsOutdated(v[i], cfg.update) <==> i < k
    {
      var o := cfg.sts.start + i;
      assert i < k ==> HoldsOld(s, o, prior);
      assert i >= k ==> HoldsNewIfLive(s, o, cfg.update);
    }
    m := UpwardsClosed(gone, k);
    assert m < k ==> m in gone;
  }

  lemma SlotsAfterUpdate(cfg: Config, prior: string, s: State, k: nat, m: nat, api: Api, r: SyncResult, s': State)
    requires cfg.sts.Valid() && cfg.sts.strategy.rollingUpdate.Some? && prior != cfg.update
    requires OldBelowNew(cfg, prior, s, k) && m <= k && m >= Min(cfg.sts.UpdateMin(), cfg.sts.replicas)
    requires forall i :: i in Removed(r, api) <==> m <= i < k
    requires Justified(TargetOf(cfg, s), View(cfg, s), [], api, ClockOf(cfg, s), r) && PodsAfter(cfg, s, r, api, s')
    requires WellFormed(s') && NoPodOutside(cfg, s')
    ensures OldBelowNew(cfg, prior, s', m)
  {
    hide Update;
    hide Tally;
    hide Names.Ordinal;
    hide Names.PodName;
    forall o | cfg.sts.InRange(o)
      ensures o < cfg.sts.start + m ==> HoldsOld(s', o, prior)
      ensures o >= cfg.sts.start + m ==> HoldsNewIfLive(s', o, cfg.update)
      ensures o in s'.pods ==> !IsFinished(s'.pods[o])
    {
      var i: nat := o - cfg.sts.start;
      assert Lookup(s'.pods, o) == PodAfter(cfg, s, r, api, o);
      assert View(cfg, s)[i] == SlotView(cfg, s, i);
      assert i < k ==> HoldsOld(s, o, prior);
      assert i >= k ==> HoldsNewIfLive(s, o, cfg.update);
      assert i in Removed(r, api) <==> i in r.updated && !api.deleteForUpdate(i).DeleteError?;
    }
  }

  lemma OldBelowNewStep(cfg: Config, prior: string, s: State, k: nat, e: Event, s': State) returns (m: nat)
    requires cfg.sts.Valid() && cfg.sts.strategy.rollingUpdate.Some? && prior != cfg.update
    requires OldBelowNew(cfg, prior, s, k) && Step(cfg, ReadinessOnly, s, e, s')
    ensures m <= k && OldBelowNew(cfg, prior, s', m)
  {
    hide SyncOf;
    hide Names.Ordinal;
    match e
    case EnvironmentEvent =>
      m := k;
      forall o | cfg.sts.InRange(o)
        ensures o < cfg.sts.start + k ==> HoldsOld(s', o, prior)
        ensures o >= cfg.sts.start + k ==> HoldsNewIfLive(s', o, cfg.update)
      {
        assert o < cfg.sts.start + k ==> HoldsOld(s, o, prior);
        assert o >= cfg.sts.start + k ==> HoldsNewIfLive(s, o, cfg.update);
      }
    case SyncEvent(listing, api, written) =>
      var r := SyncOf(cfg, s, listing, api);
      SyncIsJustified(cfg, s, listing, api);
      ListingOutside(cfg, s, listing);
      CallsKeepWellFormed(cfg, s, [], api, r, s');
      m := DeletedInterval(cfg, prior, s, k, api, r);
      SlotsAfterUpdate(cfg, prior, s, k, m, api, r, s');
  }

  lemma SplitStaysAbove(cfg: Config, prior: string, s: State, k: nat)
    requires cfg.sts.strategy.rollingUpdate.Some? && OldBelowNew(cfg, prior, s, k)
    ensures k >= Min(cfg.sts.strategy.rollingUpdate.value.partition, cfg.sts.replicas)
  {
  }

  /**
   Rolling updates fill a suffix: with every slot at the old revision to begin with, every reachable state n splits at
   some ks[n] not below the partition into live old pods and, from there on, only new ones; and the split only moves
   down. This holds for any maxUnavailable, either management policy, either gate setting, and any failing calls.
   */
  lemma {:induction false} UpdatesFillASuffix(
    cfg: Config, prior: string, states: seq<State>, events: seq<Event>, n: nat)
    returns (ks: seq<nat>)
    requires cfg.sts.Valid() && cfg.sts.strategy.rollingUpdate.Some? && prior != cfg.update
    requires Run(cfg, ReadinessOnly, states, events) && n < |states|
    requires OldBelowNew(cfg, prior, states[0], cfg.sts.replicas)
    ensures |ks| == n + 1
    ensures forall j :: 0 <= j <= n ==> ks[j] >= Min(cfg.sts.strategy.rollingUpdate.value.partition, cfg.sts.replicas)
    ensures forall j :: 0 <= j <= n ==> OldBelowNew(cfg, prior, states[j], ks[j])
    ensures forall i, j :: 0 <= i < j <= n ==> ks[i] >= ks[j]
  {
    hide Step;
    hide OldBelowNew;
    ks := [cfg.sts.replicas];
    if n > 0 {
      ks := UpdatesFillASuffix(cfg, prior, states, events, n - 1);
      var k := OldBelowNewStep(cfg, prior, states[n - 1], ks[n - 1], events[n - 1], states[n]);
      SplitStaysAbove(cfg, prior, states[n], k);
      ks := ks + [k];
    }
  }

  lemma {:induction false} TallyOfPrefix(pods: seq<Pod>, c: Criterion, clock: Clock, m: nat)
    requires m <= |pods| && forall i :: 0 <= i < |pods| ==> (Meets(pods[i], c, clock) <==> i < m)
    ensures Tally(pods, c, clock) == m
  {
    hide Meets;
    if pods != [] {
      var front := pods[..|pods| - 1];
      assert forall i :: 0 <= i < |front| ==> front[i] == pods[i];
      TallyOfPrefix(front, c, clock, if m == |pods| then m - 1 else m);
    }
  }

  /** What the slots look like to the counters once the deleted pods are marked. */
  lemma MarkedSplit(cfg: Config, prior: string, s: State, k: nat, m: nat, gone: set<nat>)
    requires cfg.sts.Valid() && cfg.sts.strategy.rollingUpdate.Some? && prior != cfg.update
    requires OldBelowNew(cfg, prior, s, k) && m <= k && forall i :: i in gone <==> m <= i < k
    ensures Tally(Marked(View(cfg, s), gone), AtRevision(prior), ClockOf(cfg, s)) == m
    ensures forall i :: 0 <= i < cfg.sts.replicas && !View(cfg, s)[i].terminating ==>
              View(cfg, s)[i].revision in {prior, cfg.update}
  {
    hide Names.Ordinal;
    hide Names.PodName;
    var marked := Marked(View(cfg, s), gone);
    forall i | 0 <= i < cfg.sts.replicas
      ensures Meets(marked[i], AtRevision(prior), ClockOf(cfg, s)) <==> i < m
      ensures !View(cfg, s)[i].terminating ==> View(cfg, s)[i].revision in {prior, cfg.update}
    {
      var o := cfg.sts.start + i;
      assert View(cfg, s)[i] == SlotView(cfg, s, i);
      assert i < k ==> HoldsOld(s, o, prior);
      assert i >= k ==> HoldsNewIfLive(s, o, cfg.update);
    }
    TallyOfPrefix(marked, AtRevision(prior), ClockOf(cfg, s), m);
  }

  /** In a rollout the currentReplicas that a sync computes is the number of slots it leaves at the old revision. */
  lemma CurrentReplicasIsTheSplit(
    cfg: Config, prior: string, s: State, k: nat, listing: seq<Pod>, api: Api, written: bool, s': State)
    returns (m: nat)
    requires cfg.sts.Valid() && cfg.sts.strategy.rollingUpdate.Some? && prior != cfg.update
    requires OldBelowNew(cfg, prior, s, k) && s.current == prior && SyncStep(cfg, s, listing, api, written, s')
    ensures m <= k && OldBelowNew(cfg, prior, s', m)
    ensures SyncOf(cfg, s, listing, api).status.currentReplicas == m
  {
    hide Names.Ordinal;
    hide Update;
    hide Tally;
    var r, t, v, clock := SyncOf(cfg, s, listing, api), TargetOf(cfg, s), View(cfg, s), ClockOf(cfg, s);
    SyncIsJustified(cfg, s, listing, api);
    ListingOutside(cfg, s, listing);
    ListingIsView(cfg, s, listing);
    CallsKeepWellFormed(cfg, s, [], api, r, s');
    m := DeletedInterval(cfg, prior, s, k, api, r);
    SlotsAfterUpdate(cfg, prior, s, k, m, api, r, s');
    MarkedSplit(cfg, prior, s, k, m, Removed(r, api));
    hide OldBelowNew;
    hide Slots;
    hide Condemned;
    hide UncreatedAreStamped;
    assert Marked(v, Removed(r, api)) + [] == Marked(v, Removed(r, api));
    if cfg.sts.deleting {
      CountsAreConserved(t, listing, clock);
      assert v + [] == v == Marked(v, Removed(r, api));
    } else {
      StatusIsExactForTwoRevisions(t, v, [], api, clock);
    }
  }

  lemma SyncRecords(cfg: Config, prior: string, s: State, k: nat, listing: seq<Pod>, api: Api)
    requires cfg.sts.Valid() && OldBelowNew(cfg, prior, s, k) && Lists(s.pods, listing)
    ensures var status := SyncOf(cfg, s, listing, api).status;
            status.currentRevision == s.current && status.updateRevision == cfg.update
  {
    SyncIsJustified(cfg, s, listing, api);
  }

  /**
   What the status says during a rollout: whenever a sync has just written it and the rollout is not complete, the
   pods at the recorded current revision are those with index 0 up to the recorded currentReplicas, and no others.
   */
  lemma StatusRecordsTheSplit(cfg: Config, prior: string, states: seq<State>, events: seq<Event>, n: nat)
    requires cfg.sts.Valid() && cfg.sts.strategy.rollingUpdate.Some? && prior != cfg.update
    requires Run(cfg, ReadinessOnly, states, events) && 0 < n < |states|
    requires OldBelowNew(cfg, prior, states[0], cfg.sts.replicas)
    requires events[n - 1].SyncEvent? && events[n - 1].written && states[n].current == prior
    ensures states[n].currentReplicas >= 0 && OldBelowNew(cfg, prior, states[n], states[n].currentReplicas)
  {
    hide SyncOf;
    hide OldBelowNew;
    hide Justified;
    var ks := UpdatesFillASuffix(cfg, prior, states, events, n - 1);
    var s, e := states[n - 1], events[n - 1];
    assert Step(cfg, ReadinessOnly, s, e, states[n]);
    assert OldBelowNew(cfg, prior, s, ks[n - 1]);
    SyncRecords(cfg, prior, s, ks[n - 1], e.listing, e.api);
    var m := CurrentReplicasIsTheSplit(cfg, prior, s, ks[n - 1], e.listing, e.api, e.written, states[n]);
  }

  // ---------------------------------------------------------------- the unavailability budget

  /** Missing slots count as unavailable, because a stamped pod is not ready. */
  function Unavailable(cfg: Config, s: State): nat {
    Tally(View(cfg, s), UnavailablePod, ClockOf(cfg, s))
  }

  /** Only an update deletion can make an available replica unavailable. */
  lemma OnlyUpdatesDisrupt(cfg: Config, s: State, condemned: seq<Pod>, api: Api, r: SyncResult, s': State, i: nat)
    requires cfg.sts.Valid() && WellFormed(s) && FinishedAreNotReady(s) && i < cfg.sts.replicas && i !in r.updated
    requires s'.now == s.now
    requires Justified(TargetOf(cfg, s), View(cfg, s), condemned, api, ClockOf(cfg, s), r)
    requires PodsAfter(cfg, s, r, api, s')
    ensures IsUnavailable(View(cfg, s')[i], ClockOf(cfg, s')) ==> IsUnavailable(View(cfg, s)[i], ClockOf(cfg, s))
  {
    hide Update;
    hide Tally;
    hide Names.Ordinal;
    hide Names.PodName;
    var o := cfg.sts.start + i;
    assert Lookup(s'.pods, o) == PodAfter(cfg, s, r, api, o);
    assert View(cfg, s)[i] == SlotView(cfg, s, i) && View(cfg, s')[i] == SlotView(cfg, s', i);
  }

  lemma FinishedStayNotReady(cfg: Config, s: State, condemned: seq<Pod>, api: Api, r: SyncResult, s': State)
    requires WellFormed(s) && FinishedAreNotReady(s)
    requires Justified(TargetOf(cfg, s), View(cfg, s), condemned, api, ClockOf(cfg, s), r)
    requires PodsAfter(cfg, s, r, api, s')
    ensures FinishedAreNotReady(s')
  {
    hide Update;
    hide Tally;
    hide Names.Ordinal;
    hide Names.PodName;
    forall o | o in s'.pods && IsFinished(s'.pods[o])
      ensures !IsReady(s'.pods[o])
    {
      assert Lookup(s'.pods, o) == PodAfter(cfg, s, r, api, o);
    }
  }

  /** One sync leaves at most as many replicas unavailable as there were, or as maxUnavailable allows. */
  lemma SyncRespectsBudget(cfg: Config, s: State, listing: seq<Pod>, api: Api, written: bool, s': State)
    requires cfg.sts.Valid() && cfg.gate && WellFormed(s) && FinishedAreNotReady(s)
    requires SyncStep(cfg, s, listing, api, written, s')
    ensures WellFormed(s') && FinishedAreNotReady(s')
    ensures Unavailable(cfg, s') <=
            (if MaxUnavailable(cfg.sts).Some? then Max(Unavailable(cfg, s), MaxUnavailable(cfg.sts).value)
             else Unavailable(cfg, s))
  {
    hide SyncOf;
    hide Names.Ordinal;
    hide Tally;
    var r, condemned := SyncOf(cfg, s, listing, api), Condemned(cfg.sts, listing);
    var t, clock := TargetOf(cfg, s), ClockOf(cfg, s);
    SyncIsJustified(cfg, s, listing, api);
    CallsKeepWellFormed(cfg, s, condemned, api, r, s');
    FinishedStayNotReady(cfg, s, condemned, api, r, s');
    UpdateFacts(t, View(cfg, s), api, clock);
    hide Update;
    forall i: nat | i < cfg.sts.replicas && i !in r.updated
      ensures Meets(View(cfg, s')[i], UnavailablePod, clock) ==> Meets(View(cfg, s)[i], UnavailablePod, clock)
    {
      OnlyUpdatesDisrupt(cfg, s, condemned, api, r, s', i);
    }
    TallyChanged(View(cfg, s), View(cfg, s'), r.updated, UnavailablePod, clock);
  }

  ghost predicate WithinBudget(cfg: Config, s: State, budget: nat) {
    WellFormed(s) && FinishedAreNotReady(s) && Unavailable(cfg, s) <= budget
  }

  lemma {:induction false} TallyMovesOn(before: seq<Pod>, after: seq<Pod>, c: Criterion, prior: Clock, later: Clock)
    requires |before| == |after|
    requires forall i :: 0 <= i < |before| ==> Meets(after[i], c, later) ==> Meets(before[i], c, prior)
    ensures Tally(after, c, later) <= Tally(before, c, prior)
  {
    if before != [] {
      TallyMovesOn(before[..|before| - 1], after[..|after| - 1], c, prior, later);
    }
  }

  lemma BudgetStep(cfg: Config, budget: nat, s: State, e: Event, s': State)
    requires cfg.sts.Valid() && cfg.gate && MaxUnavailable(cfg.sts).Some? && MaxUnavailable(cfg.sts).value <= budget
    requires WithinBudget(cfg, s, budget) && Step(cfg, Gentle, s, e, s')
    ensures WithinBudget(cfg, s', budget)
  {
    hide SyncOf;
    hide Names.Ordinal;
    hide Tally;
    match e
    case EnvironmentEvent =>
      TallyMovesOn(View(cfg, s), View(cfg, s'), UnavailablePod, ClockOf(cfg, s), ClockOf(cfg, s'));
    case SyncEvent(listing, api, written) =>
      SyncRespectsBudget(cfg, s, listing, api, written, s');
  }

  /**
   The availability budget over whole runs: as long as the environment takes no available replica away, the controller
   never brings the number of unavailable replicas above maxUnavailable, whatever its calls return.
   */
  lemma {:induction false} BudgetIsKept(cfg: Config, budget: nat, states: seq<State>, events: seq<Event>, k: nat)
    requires cfg.sts.Valid() && cfg.gate && MaxUnavailable(cfg.sts) == Some(budget)
    requires Run(cfg, Gentle, states, events) && k < |states|
    requires WithinBudget(cfg, states[0], budget)
    ensures WithinBudget(cfg, states[k], budget)
  {
    hide Step;
    hide WithinBudget;
    if k > 0 {
      BudgetIsKept(cfg, budget, states, events, k - 1);
      BudgetStep(cfg, budget, states[k - 1], events[k - 1], states[k]);
    }
  }
}

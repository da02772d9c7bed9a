/**
 The controller and its surroundings as a transition system: a sync reads the pods that exist, and its calls change
 them; between syncs the environment changes pods on its own.
 */
module Cluster {
  import opened Prelude
  import opened Pods
  import opened Reconcile
  import opened Placement
  import opened Rollout
  import opened StatusMeaning
  import Names

  /** A set whose specification does not change, its update revision, and the feature gate. */
  datatype Config = Config(sts: StatefulSet, update: string, gate: bool)

  /** The existing pods by ordinal, what the set's status records, and the time. */
  datatype State = State(pods: map<int, Pod>, current: string, currentReplicas: int, now: int)

  function TargetOf(cfg: Config, s: State): Target {
    Target(cfg.sts, cfg.update, s.current, s.currentReplicas, cfg.gate)
  }

  function ClockOf(cfg: Config, s: State): Clock { Clock(cfg.sts.minReadySeconds, s.now) }

  predicate WellFormed(s: State) {
    forall o :: o in s.pods ==> o >= 0 && Ordinal(s.pods[o]) == o && IsCreated(s.pods[o])
  }

  predicate NoPodOutside(cfg: Config, s: State) {
    forall o :: o in s.pods ==> cfg.sts.InRange(o)
  }

  /** The pod a fresh sync sees in slot i. */
  function SlotView(cfg: Config, s: State, i: nat): Pod {
    var o := cfg.sts.start + i;
    if o in s.pods then s.pods[o] else Stamped(TargetOf(cfg, s), o)
  }

  function View(cfg: Config, s: State): (v: seq<Pod>)
    ensures |v| == cfg.sts.replicas
    ensures forall i :: 0 <= i < |v| ==> v[i] == SlotView(cfg, s, i)
  {
    seq(cfg.sts.replicas, i requires 0 <= i < cfg.sts.replicas => SlotView(cfg, s, i))
  }

  /** A fresh listing: all existing pods, in any order. */
  ghost predicate Lists(pods: map<int, Pod>, listing: seq<Pod>) {
    && DistinctOrdinals(listing)
    && (forall p :: p in listing ==> Lookup(pods, Ordinal(p)) == Some(p))
    && (forall o :: o in pods ==> pods[o] in listing)
  }

  // ---------------------------------------------------------------- the sync step

  /** What a delete call leaves of a pod. */
  function AfterDelete(pod: Pod, answer: DeleteAnswer): Option<Pod> {
    match answer
    case Accepted(immediate) => if immediate then None else Some(pod.(terminating := true))
    case NotFound => None
    case DeleteError => Some(pod)
  }

  /** What the calls of a sync leave at an ordinal. A created pod starts out Pending; a sync may delete it again. */
  function PodAfter(cfg: Config, s: State, r: SyncResult, api: Api, o: int): Option<Pod> {
    if cfg.sts.InRange(o) then
      var i: nat := o - cfg.sts.start;
      var p :=
        if i in r.created && (api.create(i).Created? || api.create(i).CreatedButClaimsFailed?) then
          Some(SlotView(cfg, s, i).(phase := Pending))
        else if o !in s.pods then None
        else if i in r.finished then AfterDelete(s.pods[o], api.deleteFinished(i))
        else Some(s.pods[o]);
      if p.Some? && i in r.updated then AfterDelete(p.value, api.deleteForUpdate(i)) else p
    else if o in s.pods && o in r.scaledDown then AfterDelete(s.pods[o], api.deleteCondemned(o))
    else Lookup(s.pods, o)
  }

  ghost predicate PodsAfter(cfg: Config, s: State, r: SyncResult, api: Api, s': State) {
    forall o: int :: Lookup(s'.pods, o) == PodAfter(cfg, s, r, api, o)
  }

  /** written says whether the new status reached the API server. */
  datatype Event = SyncEvent(listing: seq<Pod>, api: Api, written: bool) | EnvironmentEvent

  function SyncOf(cfg: Config, s: State, listing: seq<Pod>, api: Api): SyncResult {
    SyncPods(TargetOf(cfg, s), listing, api, s.now)
  }

  ghost predicate SyncStep(cfg: Config, s: State, listing: seq<Pod>, api: Api, written: bool, s': State) {
    var r := SyncOf(cfg, s, listing, api);
    var status := CompleteRollingUpdate(cfg.sts, r.status);
    && Lists(s.pods, listing)
    && PodsAfter(cfg, s, r, api, s')
    && s'.current == (if written then status.currentRevision else s.current)
    && s'.currentReplicas == (if written then status.currentReplicas else s.currentReplicas)
    && s'.now == s.now
  }

  // ---------------------------------------------------------------- environment steps

  datatype Environment = Hostile | ReadinessOnly | Gentle

  /** Pods may die, disappear and change in any way except that nobody else creates pods or relabels them. */
  predicate HostileStep(s: State, s': State) {
    && s'.current == s.current && s'.currentReplicas == s.currentReplicas && s'.now >= s.now
    && (forall o :: o in s'.pods ==>
          && o in s.pods
          && s'.pods[o].name == s.pods[o].name
          && s'.pods[o].revision == s.pods[o].revision
          && IsCreated(s'.pods[o])
          && (s.pods[o].terminating ==> s'.pods[o].terminating))
  }

  /** No pod starts terminating or finishes; terminating pods may disappear. */
  predicate ReadinessStep(s: State, s': State) {
    && HostileStep(s, s')
    && (forall o :: o in s.pods && !s.pods[o].terminating ==> o in s'.pods && !s'.pods[o].terminating)
    && NoneFinished(s')
  }

  /** No replica that is available stops being available. */
  predicate GentleStep(cfg: Config, s: State, s': State) {
    && HostileStep(s, s')
    && FinishedAreNotReady(s')
    && (forall i :: 0 <= i < cfg.sts.replicas ==>
          !IsUnavailable(View(cfg, s)[i], ClockOf(cfg, s)) ==> !IsUnavailable(View(cfg, s')[i], ClockOf(cfg, s')))
  }

  predicate NoneFinished(s: State) {
    forall o :: o in s.pods ==> !IsFinished(s.pods[o])
  }

  predicate FinishedAreNotReady(s: State) {
    forall o :: o in s.pods && IsFinished(s.pods[o]) ==> !IsReady(s.pods[o])
  }

  predicate EnvironmentStep(cfg: Config, env: Environment, s: State, s': State) {
    match env
    case Hostile => HostileStep(s, s')
    case ReadinessOnly => ReadinessStep(s, s')
    case Gentle => GentleStep(cfg, s, s')
  }

  ghost predicate Step(cfg: Config, env: Environment, s: State, e: Event, s': State) {
    match e
    case SyncEvent(listing, api, written) => SyncStep(cfg, s, listing, api, written, s')
    case EnvironmentEvent => EnvironmentStep(cfg, env, s, s')
  }

  ghost predicate Run(cfg: Config, env: Environment, states: seq<State>, events: seq<Event>) {
    && |states| == |events| + 1
    && forall k :: 0 <= k < |events| ==> Step(cfg, env, states[k], events[k], states[k + 1])
  }

  // ---------------------------------------------------------------- what a sync sees and does

  /** A fresh listing, in whatever order, is partitioned into the view and the pods outside. */
  lemma ListingIsView(cfg: Config, s: State, listing: seq<Pod>)
    requires cfg.sts.Valid() && WellFormed(s) && Lists(s.pods, listing)
    ensures Slots(TargetOf(cfg, s), listing) == View(cfg, s)
    ensures UncreatedAreStamped(TargetOf(cfg, s), View(cfg, s))
  {
    hide Names.Ordinal;
    hide Names.PodName;
    hide Slots;
    var t := TargetOf(cfg, s);
    PodsAreConserved(t, listing);
    forall i | 0 <= i < cfg.sts.replicas
      ensures Slots(t, listing)[i] == View(cfg, s)[i]
    {
      assert SlotIsRight(t, listing, i);
      var o := cfg.sts.start + i;
      if o in s.pods {
        assert s.pods[o] in listing;
      }
    }
  }

  lemma ListingOutside(cfg: Config, s: State, listing: seq<Pod>)
    requires cfg.sts.Valid() && WellFormed(s) && Lists(s.pods, listing)
    ensures var condemned := Condemned(cfg.sts, listing);
            && StrictlyDescending(condemned)
            && (forall p :: p in condemned ==> Lookup(s.pods, Ordinal(p)) == Some(p) && !cfg.sts.InRange(Ordinal(p)))
            && (forall o :: o in s.pods && !cfg.sts.InRange(o) ==> s.pods[o] in condemned)
            && (NoPodOutside(cfg, s) ==> condemned == [])
  {
    hide Names.Ordinal;
    PodsAreConserved(TargetOf(cfg, s), listing);
    var condemned := Condemned(cfg.sts, listing);
    assert condemned != [] ==> condemned[0] in condemned;
  }

  /** Every call has its reason in the slots and condemned pods a sync sees. */
  ghost predicate Justified(t: Target, slots: seq<Pod>, condemned: seq<Pod>, api: Api, clock: Clock, r: SyncResult) {
    && (forall i :: i in r.created ==> i < |slots| && !IsCreated(slots[i]) && api.stale(i).Fresh?)
    && (forall i :: i in r.finished ==> i < |slots| && IsFinished(slots[i]) && !slots[i].terminating)
    && (forall o :: o in r.scaledDown ==> exists p :: p in condemned && Ordinal(p) == o && !p.terminating)
    && (r.updated == {} || r.updated == Update(t, slots, api, clock).targets)
    && r.status.updatedReplicas == Tally(slots + condemned, AtRevision(t.update), clock)
    && r.status.currentRevision == t.current && r.status.updateRevision == t.update
  }

  lemma ReplicaCalls(slots: seq<Pod>, monotonic: bool, api: Api, clock: Clock, visited: nat)
    requires visited <= |slots|
    ensures var fn := ReplicaOutcomes(slots, monotonic, api, clock);
            && (forall i :: i in Calls(fn, visited, CreateCall) ==>
                  i < |slots| && !IsCreated(slots[i]) && api.stale(i).Fresh?)
            && (forall i :: i in Calls(fn, visited, DeleteCall) ==>
                  i < |slots| && IsFinished(slots[i]) && !slots[i].terminating)
  {
  }

  lemma CondemnedCalls(condemned: seq<Pod>, first: Option<Pod>, monotonic: bool, api: Api, clock: Clock, visited: nat)
    requires visited <= |condemned|
    ensures var fn := CondemnedOutcomes(condemned, first, monotonic, api, clock);
            forall o :: o in OrdinalsAt(condemned, Calls(fn, visited, DeleteCall)) ==>
              exists p :: p in condemned && Ordinal(p) == o && !p.terminating
  {
    var fn := CondemnedOutcomes(condemned, first, monotonic, api, clock);
    forall i | i in Calls(fn, visited, DeleteCall)
      ensures condemned[i] in condemned && !condemned[i].terminating
    {
    }
  }

  /** In either management mode. */
  lemma SlotCallsAreJustified(t: Target, slots: seq<Pod>, condemned: seq<Pod>, api: Api, clock: Clock)
    ensures Justified(t, slots, condemned, api, clock, SyncSlots(t, slots, condemned, api, clock))
  {
    var monotonic := !t.sts.parallel;
    var fn := ReplicaOutcomes(slots, monotonic, api, clock);
    ReplicaCalls(slots, monotonic, api, clock, VisitAll(fn, monotonic).visited);
    var first := FirstUnhealthy(slots, condemned, clock);
    var fn' := CondemnedOutcomes(condemned, first, monotonic, api, clock);
    CondemnedCalls(condemned, first, monotonic, api, clock, VisitAll(fn', monotonic).visited);
  }

  /** Also for a set that is being deleted, where a sync makes no call. */
  lemma SyncIsJustified(cfg: Config, s: State, listing: seq<Pod>, api: Api)
    requires cfg.sts.Valid() && WellFormed(s) && Lists(s.pods, listing)
    ensures Justified(TargetOf(cfg, s), View(cfg, s), Condemned(cfg.sts, listing), api, ClockOf(cfg, s),
                      SyncOf(cfg, s, listing, api))
  {
    ListingIsView(cfg, s, listing);
    if cfg.sts.deleting {
      CountsAreConserved(TargetOf(cfg, s), listing, ClockOf(cfg, s));
    } else {
      SlotCallsAreJustified(TargetOf(cfg, s), View(cfg, s), Condemned(cfg.sts, listing), api, ClockOf(cfg, s));
    }
  }

  lemma CallsKeepWellFormed(cfg: Config, s: State, condemned: seq<Pod>, api: Api, r: SyncResult, s': State)
    requires cfg.sts.Valid() && WellFormed(s)
    requires Justified(TargetOf(cfg, s), View(cfg, s), condemned, api, ClockOf(cfg, s), r)
    requires PodsAfter(cfg, s, r, api, s')
    ensures WellFormed(s')
    ensures NoPodOutside(cfg, s) ==> NoPodOutside(cfg, s')
  {
    hide Names.Ordinal;
    hide Update;
    hide Tally;
    forall o | o in s'.pods
      ensures o >= 0 && Ordinal(s'.pods[o]) == o && IsCreated(s'.pods[o])
      ensures o in s.pods || cfg.sts.InRange(o)
    {
      assert Lookup(s'.pods, o) == PodAfter(cfg, s, r, api, o);
      if cfg.sts.InRange(o) {
        StampedOrdinal(TargetOf(cfg, s), o);
      }
    }
  }
}

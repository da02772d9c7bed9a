/**
 One sync of the controller as a function (xstateful_set_control.go): which pods it creates and deletes, and the
 status it computes, given the observed pods and the answers of the API server. The methods in module Sync compute it.
 */
module Reconcile {
  import opened Prelude
  import opened Pods
  import Names
  import SlowStart

  datatype StrategyKind = RollingUpdateType | OnDeleteType | OtherType

  /** An intstr.IntOrString; Malformed is a string that is not a percentage. */
  datatype IntOrPercent = Count(n: int) | Percent(p: int) | Malformed

  datatype RollingUpdate = RollingUpdate(partition: nat, maxUnavailable: Option<IntOrPercent>)

  datatype UpdateStrategy = UpdateStrategy(kind: StrategyKind, rollingUpdate: Option<RollingUpdate>)

  /**
   The parts of an XStatefulSet that a sync consults; claimTemplates holds the names of the volume claim templates.
   */
  datatype StatefulSet = StatefulSet(
    name: string,
    namespace: string,
    serviceName: string,
    claimTemplates: seq<string>,
    start: nat,
    replicas: nat,
    parallel: bool,
    strategy: UpdateStrategy,
    minReadySeconds: int,
    deleting: bool)
  {
    /** What validation leaves of a set: ordinals fit an int32. */
    predicate Valid() { start + replicas <= Names.MAX_ORDINAL + 1 }

    predicate InRange(ordinal: int) { start <= ordinal <= start + replicas - 1 }

    /** The first index a rolling update may delete. */
    function UpdateMin(): nat {
      if strategy.rollingUpdate.Some? then strategy.rollingUpdate.value.partition else 0
    }
  }

  /** The set, the update revision, the revision and replica count recorded in its status, and the feature gate. */
  datatype Target = Target(
    sts: StatefulSet,
    update: string,
    current: string,
    currentReplicas: int,
    maxUnavailableGate: bool)

  // ---------------------------------------------------------------- answers of the API server

  datatype DeleteAnswer = Accepted(immediate: bool) | NotFound | DeleteError

  /** CreatedButClaimsFailed: the pod exists, but setting the claim policy afterwards returned an error. */
  datatype CreateAnswer = Created | CreatedButClaimsFailed | AlreadyExists | CreateError

  datatype StaleAnswer = Fresh | Stale | StaleError

  /**
   What the calls of one sync return; slots are numbered by index, condemned pods by ordinal. missingClaims, enforce
   and condemnedClaims say whether the claim and identity work on a pod ends in an error.
   */
  datatype Api = Api(
    stale: int -> StaleAnswer,
    create: int -> CreateAnswer,
    deleteFinished: int -> DeleteAnswer,
    missingClaims: int -> bool,
    enforce: int -> bool,
    condemnedClaims: int -> bool,
    deleteCondemned: int -> DeleteAnswer,
    deleteForUpdate: int -> DeleteAnswer)

  // ---------------------------------------------------------------- slots and condemned pods

  /**
   newVersionedStatefulSetPod: whether the pod is stamped from the current revision instead of the update revision.
   */
  predicate StampsCurrent(t: Target, ordinal: int) {
    var s := t.sts.strategy;
    || (s.kind.RollingUpdateType? && s.rollingUpdate.None? && ordinal < t.sts.start + t.currentReplicas)
    || (s.rollingUpdate.Some? && ordinal < t.sts.start + s.rollingUpdate.value.partition)
  }

  function Stamped(t: Target, ordinal: int): Pod {
    var revision := if StampsCurrent(t, ordinal) then t.current else t.update;
    Pod(Names.PodName(t.sts.name, ordinal), Uncreated, [], false, revision)
  }

  /** The observed pods of each slot; of several pods with one ordinal the last listed stays. */
  function Place(sts: StatefulSet, pods: seq<Pod>): (slots: seq<Option<Pod>>)
    ensures |slots| == sts.replicas
  {
    if pods == [] then seq(sts.replicas, _ => None)
    else
      var slots := Place(sts, pods[..|pods| - 1]);
      var pod := pods[|pods| - 1];
      if sts.InRange(Ordinal(pod)) then slots[Ordinal(pod) - sts.start := Some(pod)] else slots
  }

  /** The observed pods with a valid ordinal outside the range, in listing order. */
  function Outside(sts: StatefulSet, pods: seq<Pod>): seq<Pod> {
    if pods == [] then []
    else
      var pod := pods[|pods| - 1];
      Outside(sts, pods[..|pods| - 1]) + if !sts.InRange(Ordinal(pod)) && Ordinal(pod) >= 0 then [pod] else []
  }

  function Fill(t: Target, slots: seq<Option<Pod>>): (r: seq<Pod>)
    ensures |r| == |slots|
  {
    seq(|slots|, i requires 0 <= i < |slots| => if slots[i].Some? then slots[i].value else Stamped(t, t.sts.start + i))
  }

  /** Insertion into a list in descending order of ordinals. */
  function InsertDescending(pod: Pod, pods: seq<Pod>): (r: seq<Pod>)
    ensures |r| == |pods| + 1
  {
    if pods == [] || Ordinal(pods[0]) <= Ordinal(pod) then [pod] + pods
    else [pods[0]] + InsertDescending(pod, pods[1..])
  }

  /** What sort.Sort(descendingOrdinal(pods)) does to the list. */
  function SortDescending(pods: seq<Pod>): (r: seq<Pod>)
    ensures |r| == |pods|
  {
    if pods == [] then [] else InsertDescending(pods[|pods| - 1], SortDescending(pods[..|pods| - 1]))
  }

  /** The first unavailable pod of a list. */
  function FirstUnavailable(pods: seq<Pod>, clock: Clock): Option<Pod> {
    if pods == [] then None
    else if IsUnavailable(pods[0], clock) then Some(pods[0])
    else FirstUnavailable(pods[1..], clock)
  }

  function Reversed(pods: seq<Pod>): (r: seq<Pod>)
    ensures |r| == |pods|
    ensures forall i :: 0 <= i < |pods| ==> r[i] == pods[|pods| - 1 - i]
  {
    seq(|pods|, i requires 0 <= i < |pods| => pods[|pods| - 1 - i])
  }

  // ---------------------------------------------------------------- running over all pods

  datatype PodCall = NoCall | CreateCall | DeleteCall

  /** What a function passed to runForAll returns for one index, and the pod call it makes on the way. */
  datatype Outcome = Outcome(exit: bool, err: bool, call: PodCall)

  /** The indexes visited are 0..visited. */
  datatype Visit = Visit(visited: nat, stop: bool, err: bool)

  function VisitInOrder(fn: seq<Outcome>, from: nat): (v: Visit)
    requires from <= |fn|
    ensures from <= v.visited <= |fn|
    decreases |fn| - from
  {
    if from == |fn| then Visit(from, false, false)
    else if fn[from].exit || fn[from].err then Visit(from + 1, true, fn[from].err)
    else VisitInOrder(fn, from + 1)
  }

  function Errors(fn: seq<Outcome>): (e: seq<bool>)
    ensures |e| == |fn|
    ensures forall i :: 0 <= i < |fn| ==> e[i] == fn[i].err
  {
    seq(|fn|, i requires 0 <= i < |fn| => fn[i].err)
  }

  function VisitInBatches(fn: seq<Outcome>): Visit {
    var called := SlowStart.Run(Errors(fn), 1).called;
    var failed := SlowStart.Failures(Errors(fn), 0, called) > 0;
    Visit(called, failed, failed)
  }

  /** runForAll; fn[i] is what the call on index i would do. */
  function VisitAll(fn: seq<Outcome>, monotonic: bool): (v: Visit)
    ensures v.visited <= |fn|
  {
    if monotonic then VisitInOrder(fn, 0) else VisitInBatches(fn)
  }

  /** The visited indexes on which a given pod call was made. */
  function Calls(fn: seq<Outcome>, visited: nat, call: PodCall): set<nat>
    requires visited <= |fn|
  {
    set i: nat | i < visited && fn[i].call == call
  }

  // ---------------------------------------------------------------- the work on one pod

  /** processReplica on slot i. */
  function ProcessReplica(pod: Pod, i: nat, monotonic: bool, api: Api, clock: Clock): Outcome {
    if IsFinished(pod) then
      if pod.terminating then Outcome(true, false, NoCall)
      else Outcome(true, !api.deleteFinished(i).Accepted?, DeleteCall)
    else if !IsCreated(pod) then
      if !api.stale(i).Fresh? then Outcome(true, api.stale(i).StaleError?, NoCall)
      else if !api.create(i).Created? then Outcome(true, true, CreateCall)
      else if monotonic then Outcome(true, false, CreateCall)
      else Outcome(api.enforce(i), api.enforce(i), CreateCall)
    else if pod.phase.Pending? && api.missingClaims(i) then Outcome(true, true, NoCall)
    else if monotonic && (pod.terminating || !IsRunningAndReady(pod) || !IsAvailable(pod, clock)) then
      Outcome(true, false, NoCall)
    else Outcome(api.enforce(i), api.enforce(i), NoCall)
  }

  function ReplicaOutcomes(slots: seq<Pod>, monotonic: bool, api: Api, clock: Clock): (fn: seq<Outcome>)
    ensures |fn| == |slots|
  {
    seq(|slots|, i requires 0 <= i < |slots| => ProcessReplica(slots[i], i, monotonic, api, clock))
  }

  /** The fixPodClaim step on a condemned pod. */
  function ClaimOutcomes(condemned: seq<Pod>, api: Api): (fn: seq<Outcome>)
    ensures |fn| == |condemned|
  {
    seq(|condemned|, i requires 0 <= i < |condemned| =>
        var e := api.condemnedClaims(Ordinal(condemned[i])); Outcome(e, e, NoCall))
  }

  /** processCondemned. */
  function ProcessCondemned(pod: Pod, first: Option<Pod>, monotonic: bool, api: Api, clock: Clock): Outcome {
    if pod.terminating then Outcome(monotonic, false, NoCall)
    else if monotonic && (!IsRunningAndReady(pod) || !IsAvailable(pod, clock)) && Some(pod) != first then
      Outcome(true, false, NoCall)
    else Outcome(true, !api.deleteCondemned(Ordinal(pod)).Accepted?, DeleteCall)
  }

  function CondemnedOutcomes(condemned: seq<Pod>, first: Option<Pod>, monotonic: bool, api: Api, clock: Clock)
    : (fn: seq<Outcome>)
    ensures |fn| == |condemned|
  {
    seq(|condemned|, i requires 0 <= i < |condemned| => ProcessCondemned(condemned[i], first, monotonic, api, clock))
  }

  function OrdinalsAt(pods: seq<Pod>, indexes: set<nat>): set<int>
    requires forall i :: i in indexes ==> i < |pods|
  {
    set i | i in indexes :: Ordinal(pods[i])
  }

  // ---------------------------------------------------------------- the rolling update

  /** getStatefulSetMaxUnavailable; None is the error for a malformed value. */
  function MaxUnavailable(s: StatefulSet): (m: Option<nat>)
    ensures m.Some? ==> m.value >= 1
  {
    if s.strategy.rollingUpdate.None? then Some(1)
    else
      match s.strategy.rollingUpdate.value.maxUnavailable
      case None => Some(1)
      case Some(Count(n)) => Some(Max(n, 1))
      case Some(Percent(p)) => Some(Max(s.replicas * p / 100, 1))
      case Some(Malformed) => None
  }

  /** Indexes on which the pod was deleted, how many deletions are counted, and whether an error ended the loop. */
  datatype Deletions = Deletions(targets: set<nat>, counted: nat, err: bool)

  predicate IsOutdated(pod: Pod, update: string) { pod.revision != update && !pod.terminating }

  /** The deletion loop of updateStatefulSetAfterInvariantEstablished, about to look at index top - 1. */
  function DeleteOutdated(slots: seq<Pod>, update: string, updateMin: nat, top: nat, budget: nat, api: Api): Deletions
    requires top <= |slots|
  {
    if top <= updateMin || budget == 0 then Deletions({}, 0, false)
    else if IsOutdated(slots[top - 1], update) then
      if api.deleteForUpdate(top - 1).DeleteError? then Deletions({top - 1}, 0, true)
      else
        var rest := DeleteOutdated(slots, update, updateMin, top - 1, budget - 1, api);
        Deletions({top - 1} + rest.targets, rest.counted + 1, rest.err)
    else DeleteOutdated(slots, update, updateMin, top - 1, budget, api)
  }

  /** updateStatefulSetAfterInvariantEstablished. */
  function BudgetedUpdate(s: StatefulSet, slots: seq<Pod>, update: string, api: Api, clock: Clock): Deletions {
    var max := MaxUnavailable(s);
    var unavailable := Tally(slots, UnavailablePod, clock);
    if max.None? then Deletions({}, 0, true)
    else if unavailable >= max.value then Deletions({}, 0, false)
    else DeleteOutdated(slots, update, s.UpdateMin(), |slots|, max.value - unavailable, api)
  }

  /** The loop that runs when the MaxUnavailableStatefulSet gate is off, about to look at index top - 1. */
  function LegacyUpdate(slots: seq<Pod>, update: string, updateMin: nat, top: nat, api: Api, clock: Clock): Deletions
    requires top <= |slots|
  {
    if top <= updateMin then Deletions({}, 0, false)
    else if IsOutdated(slots[top - 1], update) then
      if api.deleteForUpdate(top - 1).DeleteError? then Deletions({top - 1}, 0, true)
      else Deletions({top - 1}, 1, false)
    else if IsUnavailable(slots[top - 1], clock) then Deletions({}, 0, false)
    else LegacyUpdate(slots, update, updateMin, top - 1, api, clock)
  }

  function Update(t: Target, slots: seq<Pod>, api: Api, clock: Clock): Deletions {
    if t.sts.strategy.kind.OnDeleteType? then Deletions({}, 0, false)
    else if t.maxUnavailableGate then BudgetedUpdate(t.sts, slots, t.update, api, clock)
    else LegacyUpdate(slots, t.update, t.sts.UpdateMin(), |slots|, api, clock)
  }

  // ---------------------------------------------------------------- the whole sync

  datatype Status = Status(
    replicas: int,
    readyReplicas: int,
    availableReplicas: int,
    currentReplicas: int,
    updatedReplicas: int,
    currentRevision: string,
    updateRevision: string)

  function StatusFrom(c: Counts, t: Target): Status {
    Status(c.replicas, c.readyReplicas, c.availableReplicas, c.currentReplicas, c.updatedReplicas, t.current, t.update)
  }

  function StatusOver(t: Target, pods: seq<Pod>, clock: Clock): Status {
    StatusFrom(CountsOf(pods, clock, t.current, t.update), t)
  }

  /**
   The result of a sync: the computed status, whether an error is returned, and the pods on which calls were made:
   slot indexes created, slot indexes of finished pods deleted, ordinals deleted to scale down, slot indexes deleted
   to update.
   */
  datatype SyncResult = SyncResult(
    status: Status,
    err: bool,
    created: set<nat>,
    finished: set<nat>,
    scaledDown: set<int>,
    updated: set<nat>)

  /** The first unavailable slot, or else the first unavailable condemned pod in ascending order of ordinals. */
  function FirstUnhealthy(slots: seq<Pod>, condemned: seq<Pod>, clock: Clock): Option<Pod> {
    FirstUnavailable(slots + Reversed(condemned), clock)
  }

  /** updateStatefulSet from the point where slots and condemned pods are known. */
  function SyncSlots(t: Target, slots: seq<Pod>, condemned: seq<Pod>, api: Api, clock: Clock): SyncResult {
    var monotonic := !t.sts.parallel;
    var status := StatusOver(t, slots + condemned, clock);
    var fn := ReplicaOutcomes(slots, monotonic, api, clock);
    var v := VisitAll(fn, monotonic);
    var created, finished := Calls(fn, v.visited, CreateCall), Calls(fn, v.visited, DeleteCall);
    if v.stop then SyncResult(status, v.err, created, finished, {}, {})
    else
      var w := VisitAll(ClaimOutcomes(condemned, api), monotonic);
      if w.stop then SyncResult(status, w.err, created, finished, {}, {})
      else
        var fn' := CondemnedOutcomes(condemned, FirstUnhealthy(slots, condemned, clock), monotonic, api, clock);
        var x := VisitAll(fn', monotonic);
        var scaledDown := OrdinalsAt(condemned, Calls(fn', x.visited, DeleteCall));
        if x.stop then SyncResult(status, x.err, created, finished, scaledDown, {})
        else
          var d := Update(t, slots, api, clock);
          var counted := status.(currentReplicas := status.currentReplicas - d.counted);
          SyncResult(counted, d.err, created, finished, scaledDown, d.targets)
  }

  function Slots(t: Target, pods: seq<Pod>): (slots: seq<Pod>)
    ensures |slots| == t.sts.replicas
  {
    Fill(t, Place(t.sts, pods))
  }

  function Condemned(sts: StatefulSet, pods: seq<Pod>): seq<Pod> {
    SortDescending(Outside(sts, pods))
  }

  /** updateStatefulSet. */
  function SyncPods(t: Target, pods: seq<Pod>, api: Api, now: int): SyncResult {
    var clock := Clock(t.sts.minReadySeconds, now);
    if t.sts.deleting then SyncResult(StatusOver(t, pods, clock), false, {}, {}, {}, {})
    else SyncSlots(t, Slots(t, pods), Condemned(t.sts, pods), api, clock)
  }

  /** completeRollingUpdate. */
  function CompleteRollingUpdate(s: StatefulSet, status: Status): Status {
    if s.strategy.kind.RollingUpdateType? && status.updatedReplicas == s.replicas && status.readyReplicas == s.replicas
       && status.replicas == s.replicas
    then status.(currentReplicas := status.updatedReplicas, currentRevision := status.updateRevision)
    else status
  }
}

/**
 Pods as the reconciler observes them: conditions, health predicates (pkg/controller/utils/pod.go,
 xstateful_set_utils.go) and the counting that the status is made of.
 */
module Pods {
  import opened Prelude
  import Names

  /** Uncreated is the empty phase of a pod that exists only in memory. */
  datatype Phase = Uncreated | Pending | Running | Succeeded | Failed | Unknown

  datatype ConditionStatus = True | False | Undecided

  /** since is the last transition time; None is the zero time. */
  datatype Condition = Condition(kind: string, status: ConditionStatus, since: Option<int>)

  const READY := "Ready"

  /** Instants and durations are counted in nanoseconds. */
  const SECOND: int := 1_000_000_000

  datatype Pod = Pod(
    name: string,
    phase: Phase,
    conditions: seq<Condition>,
    terminating: bool,
    revision: string)

  /** The instant a sync reads from the clock, with the set's minReadySeconds. */
  datatype Clock = Clock(minReadySeconds: int, now: int)

  function Ordinal(pod: Pod): int { Names.Ordinal(pod.name) }

  /** Index of the first condition of a kind, or the length of the list. */
  function ConditionIndex(conditions: seq<Condition>, kind: string): (i: nat)
    ensures i <= |conditions|
    ensures i < |conditions| ==> conditions[i].kind == kind
    ensures forall j :: 0 <= j < i ==> conditions[j].kind != kind
  {
    if conditions == [] || conditions[0].kind == kind then 0
    else 1 + ConditionIndex(conditions[1..], kind)
  }

  function ReadyCondition(conditions: seq<Condition>): Option<Condition> {
    var i := ConditionIndex(conditions, READY);
    if i < |conditions| then Some(conditions[i]) else None
  }

  /** GetPodConditionFromList: the index of the first condition of that kind, or -1. */
  method GetPodConditionFromList(conditions: seq<Condition>, kind: string) returns (index: int)
    ensures -1 <= index < |conditions|
    ensures index >= 0 ==> conditions[index].kind == kind
    ensures forall j :: 0 <= j < (if index >= 0 then index else |conditions|) ==> conditions[j].kind != kind
    ensures index == if ConditionIndex(conditions, kind) < |conditions| then ConditionIndex(conditions, kind) else -1
  {
    for i := 0 to |conditions|
      invariant forall j :: 0 <= j < i ==> conditions[j].kind != kind
    {
      if conditions[i].kind == kind {
        return i;
      }
    }
    return -1;
  }

  /** IsPodReady: only the first Ready condition counts. */
  predicate IsReady(pod: Pod) {
    var c := ReadyCondition(pod.conditions);
    c.Some? && c.value.status.True?
  }

  /** IsPodAvailable: ready, and for long enough. The phase is not consulted. */
  predicate IsAvailable(pod: Pod, clock: Clock) {
    IsReady(pod) &&
    var since := ReadyCondition(pod.conditions).value.since;
    clock.minReadySeconds == 0 || (since.Some? && since.value + clock.minReadySeconds * SECOND <= clock.now)
  }

  predicate IsCreated(pod: Pod) { !pod.phase.Uncreated? }

  predicate IsFinished(pod: Pod) { pod.phase.Failed? || pod.phase.Succeeded? }

  predicate IsRunningAndReady(pod: Pod) { pod.phase.Running? && IsReady(pod) }

  predicate IsUnavailable(pod: Pod, clock: Clock) { !IsAvailable(pod, clock) || pod.terminating }

  /** Running, ready, available and not being deleted: what OrderedReady waits for. */
  predicate IsHealthy(pod: Pod, clock: Clock) {
    IsRunningAndReady(pod) && IsAvailable(pod, clock) && !pod.terminating
  }

  /** What a pod can be counted for. */
  datatype Criterion =
    | CreatedPod
    | ReadyPod
    | AvailablePod
    | AtRevision(name: string)
    | UnavailablePod

  predicate Meets(pod: Pod, c: Criterion, clock: Clock) {
    match c
    case CreatedPod => IsCreated(pod)
    case ReadyPod => IsRunningAndReady(pod)
    case AvailablePod => IsRunningAndReady(pod) && IsAvailable(pod, clock)
    case AtRevision(name) => IsCreated(pod) && !pod.terminating && pod.revision == name
    case UnavailablePod => IsUnavailable(pod, clock)
  }

  function Weight(pod: Pod, c: Criterion, clock: Clock): nat {
    if Meets(pod, c, clock) then 1 else 0
  }

  /** How many pods of the list meet a criterion. */
  function Tally(pods: seq<Pod>, c: Criterion, clock: Clock): nat {
    if pods == [] then 0 else Tally(pods[..|pods| - 1], c, clock) + Weight(pods[|pods| - 1], c, clock)
  }

  lemma {:induction false} TallyConcat(a: seq<Pod>, b: seq<Pod>, c: Criterion, clock: Clock)
    ensures Tally(a + b, c, clock) == Tally(a, c, clock) + Tally(b, c, clock)
  {
    if b == [] {
      assert a + b == a;
    } else {
      TallyConcat(a, b[..|b| - 1], c, clock);
      assert (a + b)[..|a + b| - 1] == a + b[..|b| - 1];
    }
  }

  /** The tally is the whole list iff every pod meets the criterion, and zero iff none does. */
  lemma {:induction false} TallyExtremes(pods: seq<Pod>, c: Criterion, clock: Clock)
    ensures Tally(pods, c, clock) <= |pods|
    ensures Tally(pods, c, clock) == |pods| <==> forall i :: 0 <= i < |pods| ==> Meets(pods[i], c, clock)
    ensures Tally(pods, c, clock) == 0 <==> forall i :: 0 <= i < |pods| ==> !Meets(pods[i], c, clock)
  {
    if pods != [] {
      var front := pods[..|pods| - 1];
      TallyExtremes(front, c, clock);
      assert forall i :: 0 <= i < |front| ==> front[i] == pods[i];
    }
  }

  /** If one criterion implies another and both tallies agree, the criteria agree on every pod. */
  lemma {:induction false} TallySqueeze(pods: seq<Pod>, narrow: Criterion, wide: Criterion, clock: Clock)
    requires forall i :: 0 <= i < |pods| ==> Meets(pods[i], narrow, clock) ==> Meets(pods[i], wide, clock)
    ensures Tally(pods, narrow, clock) <= Tally(pods, wide, clock)
    ensures Tally(pods, narrow, clock) == Tally(pods, wide, clock) ==>
              forall i :: 0 <= i < |pods| ==> Meets(pods[i], wide, clock) ==> Meets(pods[i], narrow, clock)
  {
    if pods != [] {
      var front := pods[..|pods| - 1];
      TallySqueeze(front, narrow, wide, clock);
      assert forall i :: 0 <= i < |front| ==> front[i] == pods[i];
    }
  }

  /** Changing the pods at some positions changes a tally by at most one for each of them. */
  lemma {:induction false} TallyChanged(
    before: seq<Pod>, after: seq<Pod>, changed: set<nat>, c: Criterion, clock: Clock)
    requires |before| == |after|
    requires forall i :: i in changed ==> i < |before|
    requires forall i :: 0 <= i < |before| && i !in changed ==>
               Meets(after[i], c, clock) ==> Meets(before[i], c, clock)
    ensures Tally(after, c, clock) <= Tally(before, c, clock) + |changed|
  {
    if before != [] {
      var last := |before| - 1;
      TallyChanged(before[..last], after[..last], changed - {last}, c, clock);
      if last in changed {
        assert |changed - {last}| == |changed| - 1;
      } else {
        assert changed - {last} == changed;
      }
    }
  }

  /** The positions at which a criterion is met. */
  function MetAt(pods: seq<Pod>, c: Criterion, clock: Clock): (at: set<nat>)
    ensures forall i: nat :: i in at <==> i < |pods| && Meets(pods[i], c, clock)
  {
    set i: nat | i < |pods| && Meets(pods[i], c, clock)
  }

  /** A tally is their number. */
  lemma {:induction false} TallyIsCount(pods: seq<Pod>, c: Criterion, clock: Clock)
    ensures Tally(pods, c, clock) == |MetAt(pods, c, clock)|
  {
    hide Meets;
    if pods == [] {
      assert MetAt(pods, c, clock) == {};
    } else {
      var last := |pods| - 1;
      var before := MetAt(pods[..last], c, clock);
      TallyIsCount(pods[..last], c, clock);
      if Meets(pods[last], c, clock) {
        assert MetAt(pods, c, clock) == before + {last};
      } else {
        assert MetAt(pods, c, clock) == before;
      }
    }
  }

  /** The first condition of kind Ready has status True, at the given position. */
  predicate ReadyAt(pod: Pod, k: nat) {
    && k < |pod.conditions| && pod.conditions[k].kind == "Ready" && pod.conditions[k].status == True
    && forall j :: 0 <= j < k ==> pod.conditions[j].kind != "Ready"
  }

  /**
   What each counter counts, field by field: created pods; Running pods whose first Ready condition is True; those
   that have been so for minReadySeconds; and created pods of a revision that are not terminating.
   */
  lemma CriteriaMeaning(pod: Pod, clock: Clock, revision: string)
    ensures Meets(pod, CreatedPod, clock) <==> pod.phase != Uncreated
    ensures Meets(pod, ReadyPod, clock) <==> pod.phase == Running && exists k: nat :: ReadyAt(pod, k)
    ensures Meets(pod, AvailablePod, clock) <==>
            pod.phase == Running && exists k: nat :: ReadyAt(pod, k) && LongEnough(pod.conditions[k].since, clock)
    ensures Meets(pod, UnavailablePod, clock) <==>
            pod.terminating || !exists k: nat :: ReadyAt(pod, k) && LongEnough(pod.conditions[k].since, clock)
    ensures Meets(pod, AtRevision(revision), clock) <==>
            pod.phase != Uncreated && !pod.terminating && pod.revision == revision
  {
    var i := ConditionIndex(pod.conditions, READY);
    assert forall k: nat :: ReadyAt(pod, k) ==> k == i;
    if IsReady(pod) {
      assert ReadyAt(pod, i);
    }
  }

  /** minReadySeconds have passed since an instant; a zero instant never counts, and zero seconds always have. */
  predicate LongEnough(since: Option<int>, clock: Clock) {
    clock.minReadySeconds == 0 ||
    match since
    case None => false
    case Some(instant) => clock.now - instant >= 1_000_000_000 * clock.minReadySeconds
  }

  /** The five counters of computeReplicaStatus. */
  datatype Counts = Counts(
    replicas: nat,
    readyReplicas: nat,
    availableReplicas: nat,
    currentReplicas: nat,
    updatedReplicas: nat)

  function CountsOf(pods: seq<Pod>, clock: Clock, current: string, update: string): Counts {
    Counts(
      Tally(pods, CreatedPod, clock),
      Tally(pods, ReadyPod, clock),
      Tally(pods, AvailablePod, clock),
      Tally(pods, AtRevision(current), clock),
      Tally(pods, AtRevision(update), clock))
  }

  method ComputeReplicaStatus(pods: seq<Pod>, clock: Clock, current: string, update: string) returns (counts: Counts)
    ensures counts == CountsOf(pods, clock, current, update)
  {
    var replicas, ready, available, cur, upd: nat := 0, 0, 0, 0, 0;
    for i := 0 to |pods|
      invariant Counts(replicas, ready, available, cur, upd) == CountsOf(pods[..i], clock, current, update)
    {
      var pod := pods[i];
      assert pods[..i + 1][..i] == pods[..i];
      if IsCreated(pod) {
        replicas := replicas + 1;
      }
      if IsRunningAndReady(pod) {
        ready := ready + 1;
        if IsAvailable(pod, clock) {
          available := available + 1;
        }
      }
      if IsCreated(pod) && !pod.terminating {
        if pod.revision == current {
          cur := cur + 1;
        }
        if pod.revision == update {
          upd := upd + 1;
        }
      }
    }
    assert pods[..|pods|] == pods;
    counts := Counts(replicas, ready, available, cur, upd);
  }

  function Flatten(lists: seq<seq<Pod>>): seq<Pod> {
    if lists == [] then [] else Flatten(lists[..|lists| - 1]) + lists[|lists| - 1]
  }

  /** updateStatus: the counters over several lists are those of the lists laid end to end. */
  method UpdateStatus(lists: seq<seq<Pod>>, clock: Clock, current: string, update: string) returns (counts: Counts)
    ensures counts == CountsOf(Flatten(lists), clock, current, update)
  {
    counts := Counts(0, 0, 0, 0, 0);
    for i := 0 to |lists|
      invariant counts == CountsOf(Flatten(lists[..i]), clock, current, update)
    {
      var more := ComputeReplicaStatus(lists[i], clock, current, update);
      assert lists[..i + 1][..i] == lists[..i];
      CountsConcat(Flatten(lists[..i]), lists[i], clock, current, update);
      counts := Counts(
        counts.replicas + more.replicas,
        counts.readyReplicas + more.readyReplicas,
        counts.availableReplicas + more.availableReplicas,
        counts.currentReplicas + more.currentReplicas,
        counts.updatedReplicas + more.updatedReplicas);
    }
    assert lists[..|lists|] == lists;
  }

  lemma CountsConcat(a: seq<Pod>, b: seq<Pod>, clock: Clock, current: string, update: string)
    ensures var x, y, z :=
              CountsOf(a, clock, current, update),
              CountsOf(b, clock, current, update),
              CountsOf(a + b, clock, current, update);
            z == Counts(
              x.replicas + y.replicas,
              x.readyReplicas + y.readyReplicas,
              x.availableReplicas + y.availableReplicas,
              x.currentReplicas + y.currentReplicas,
              x.updatedReplicas + y.updatedReplicas)
  {
    TallyConcat(a, b, CreatedPod, clock);
    TallyConcat(a, b, ReadyPod, clock);
    TallyConcat(a, b, AvailablePod, clock);
    TallyConcat(a, b, AtRevision(current), clock);
    TallyConcat(a, b, AtRevision(update), clock);
  }
}

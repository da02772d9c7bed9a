/**
 When to look at availability again (pkg/controller/controller_utils.go): the earliest instant at which one of the
 ready pods has been ready for minReadySeconds.
 */
module NextCheck {
  import opened Prelude
  import opened Pods

  /** nextPodAvailabilityCheck: the time until a ready pod becomes available, if that lies ahead. */
  function NextPodCheck(pod: Pod, minReadySeconds: int, now: int): Option<int> {
    if !IsReady(pod) || minReadySeconds <= 0 then None
    else
      var since := ReadyCondition(pod.conditions).value.since;
      if since.None? then None
      else
        var wait := since.value + minReadySeconds * SECOND - now;
        if wait > 0 then Some(wait) else None
  }

  /** findMinNextPodAvailabilitySimpleCheck: the shortest wait, and the first pod that has it. */
  method FindMinNextPodCheck(pods: seq<Pod>, minReadySeconds: int, now: int)
    returns (wait: Option<int>, pod: Option<Pod>)
    ensures IsMinimum(pods, minReadySeconds, now, wait)
    ensures wait.Some? <==> pod.Some?
    ensures wait.Some? ==>
              exists i :: 0 <= i < |pods| && pods[i] == pod.value && NextPodCheck(pods[i], minReadySeconds, now) == wait
                && forall j :: 0 <= j < i ==> NextPodCheck(pods[j], minReadySeconds, now) != wait
  {
    wait, pod := None, None;
    ghost var at := 0;
    for i := 0 to |pods|
      invariant IsMinimum(pods[..i], minReadySeconds, now, wait)
      invariant wait.Some? <==> pod.Some?
      invariant wait.Some? ==>
                  0 <= at < i && pods[at] == pod.value && NextPodCheck(pods[at], minReadySeconds, now) == wait
      invariant wait.Some? ==> forall j :: 0 <= j < at ==> NextPodCheck(pods[j], minReadySeconds, now) != wait
    {
      assert forall j :: 0 <= j < i ==> pods[..i][j] == pods[j];
      assert pods[..i + 1] == pods[..i] + [pods[i]];
      var next := NextPodCheck(pods[i], minReadySeconds, now);
      if next.Some? && (wait.None? || next.value < wait.value) {
        wait, pod, at := next, Some(pods[i]), i;
      }
    }
    assert pods[..|pods|] == pods;
  }

  /** The least of the waits, None if there is none. */
  ghost predicate IsMinimum(pods: seq<Pod>, minReadySeconds: int, now: int, wait: Option<int>) {
    && (forall p :: p in pods && NextPodCheck(p, minReadySeconds, now).Some? ==>
          wait.Some? && wait.value <= NextPodCheck(p, minReadySeconds, now).value)
    && (wait.Some? ==> exists p :: p in pods && NextPodCheck(p, minReadySeconds, now) == wait)
  }

  /** A pod that is not available at one instant and is at a later one. */
  ghost predicate Grows(pods: seq<Pod>, minReadySeconds: int, from: int, to: int) {
    exists p :: p in pods && !IsAvailable(p, Clock(minReadySeconds, from)) && IsAvailable(p, Clock(minReadySeconds, to))
  }

  /** A pod becomes available exactly at the end of its wait, and stays so. */
  lemma PodBecomesAvailable(pod: Pod, minReadySeconds: int, now: int, later: int)
    requires minReadySeconds > 0 && later >= now
    ensures var next := NextPodCheck(pod, minReadySeconds, now);
            !IsAvailable(pod, Clock(minReadySeconds, now)) && IsAvailable(pod, Clock(minReadySeconds, later)) <==>
            next.Some? && next.value <= later - now
    ensures IsAvailable(pod, Clock(minReadySeconds, now)) ==> IsAvailable(pod, Clock(minReadySeconds, later))
  {
  }

  /**
   The next check is exact: with the pods unchanged, the set of available pods never shrinks, and it has grown by an
   instant t exactly when t is at or after the end of the shortest wait; without a wait it never grows.
   */
  lemma NextCheckIsExact(pods: seq<Pod>, minReadySeconds: int, now: int, wait: Option<int>, t: int)
    requires minReadySeconds > 0 && t >= now && IsMinimum(pods, minReadySeconds, now, wait)
    ensures Grows(pods, minReadySeconds, now, t) <==> wait.Some? && wait.value <= t - now
    ensures forall p :: p in pods && IsAvailable(p, Clock(minReadySeconds, now)) ==>
              IsAvailable(p, Clock(minReadySeconds, t))
  {
    forall p | p in pods
      ensures !IsAvailable(p, Clock(minReadySeconds, now)) && IsAvailable(p, Clock(minReadySeconds, t)) <==>
              NextPodCheck(p, minReadySeconds, now).Some? && NextPodCheck(p, minReadySeconds, now).value <= t - now
      ensures IsAvailable(p, Clock(minReadySeconds, now)) ==> IsAvailable(p, Clock(minReadySeconds, t))
    {
      PodBecomesAvailable(p, minReadySeconds, now, t);
    }
  }

  /**
   FindMinNextPodAvailabilityCheck: the wait counts from the last status evaluation, so that no pod is missed, but is
   returned relative to the present, and never negative.
   */
  method FindMinNextPodAvailabilityCheck(pods: seq<Pod>, minReadySeconds: int, evaluated: int, now: int)
    returns (wait: Option<int>)
    requires now >= evaluated
    ensures minReadySeconds > 0 ==>
              forall t :: t >= now ==>
                (Grows(pods, minReadySeconds, evaluated, t) <==> wait.Some? && wait.value <= t - now)
    ensures wait.Some? ==> wait.value >= 0
    ensures minReadySeconds <= 0 ==> wait.None?
  {
    var first, pod := FindMinNextPodCheck(pods, minReadySeconds, evaluated);
    if first.None? || pod.None? {
      wait := None;
    } else {
      wait := NextPodCheck(pod.value, minReadySeconds, now);
      if wait.None? {
        wait := Some(0);
      }
      assert wait.value == Max(0, first.value - (now - evaluated));
    }
    if minReadySeconds > 0 {
      forall t | t >= now
        ensures Grows(pods, minReadySeconds, evaluated, t) <==> first.Some? && first.value <= t - evaluated
      {
        NextCheckIsExact(pods, minReadySeconds, evaluated, first, t);
      }
    }
  }
}

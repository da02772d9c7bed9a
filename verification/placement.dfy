/**
 Sorting the observed pods into slots and condemned pods loses nothing, invents nothing but stamped pods, and does not
 depend on the order in which the pods are listed.
 */
module Placement {
  import opened Prelude
  import opened Pods
  import opened Reconcile
  import Names

  predicate DistinctOrdinals(pods: seq<Pod>) {
    forall i, j :: 0 <= i < j < |pods| ==> Ordinal(pods[i]) != Ordinal(pods[j])
  }

  predicate StrictlyDescending(pods: seq<Pod>) {
    forall i, j :: 0 <= i < j < |pods| ==> Ordinal(pods[i]) > Ordinal(pods[j])
  }

  lemma StampedOrdinal(t: Target, ordinal: nat)
    requires ordinal <= Names.MAX_ORDINAL
    ensures Ordinal(Stamped(t, ordinal)) == ordinal
  {
    Names.ParsePrinted(t.sts.name, ordinal);
  }

  /** What the slots hold. */
  lemma {:induction false} PlaceAt(sts: StatefulSet, pods: seq<Pod>, i: nat)
    requires DistinctOrdinals(pods) && i < sts.replicas
    ensures var slot := Place(sts, pods)[i];
            && (slot.Some? ==> slot.value in pods && Ordinal(slot.value) == sts.start + i)
            && (forall p :: p in pods && Ordinal(p) == sts.start + i ==> slot == Some(p))
  {
    hide Names.Ordinal;
    if pods != [] {
      LastIsNew(pods);
      PlaceAt(sts, pods[..|pods| - 1], i);
      LastMember(pods);
    }
  }

  lemma LastMember(pods: seq<Pod>)
    requires pods != []
    ensures forall p :: p in pods <==> p in pods[..|pods| - 1] || p == pods[|pods| - 1]
  {
    assert pods == pods[..|pods| - 1] + [pods[|pods| - 1]];
  }

  lemma LastIsNew(pods: seq<Pod>)
    requires DistinctOrdinals(pods) && pods != []
    ensures DistinctOrdinals(pods[..|pods| - 1])
    ensures forall p :: p in pods[..|pods| - 1] ==> Ordinal(p) != Ordinal(pods[|pods| - 1])
  {
    hide Names.Ordinal;
  }

  lemma {:induction false} OutsideMembers(sts: StatefulSet, pods: seq<Pod>)
    ensures forall p :: p in Outside(sts, pods) <==> p in pods && !sts.InRange(Ordinal(p)) && Ordinal(p) >= 0
  {
    hide Names.Ordinal;
    if pods != [] {
      OutsideMembers(sts, pods[..|pods| - 1]);
      LastMember(pods);
    }
  }

  lemma {:induction false} OutsideDistinct(sts: StatefulSet, pods: seq<Pod>)
    requires DistinctOrdinals(pods)
    ensures DistinctOrdinals(Outside(sts, pods))
  {
    hide Names.Ordinal;
    if pods != [] {
      var front := pods[..|pods| - 1];
      LastIsNew(pods);
      OutsideDistinct(sts, front);
      OutsideMembers(sts, front);
      var o := Outside(sts, front);
      assert forall i :: 0 <= i < |o| ==> o[i] in o;
    }
  }

  lemma {:induction false} InsertKeeps(pod: Pod, pods: seq<Pod>, c: Criterion, clock: Clock)
    ensures forall p :: p in InsertDescending(pod, pods) <==> p == pod || p in pods
    ensures Tally(InsertDescending(pod, pods), c, clock) == Weight(pod, c, clock) + Tally(pods, c, clock)
  {
    if pods == [] || Ordinal(pods[0]) <= Ordinal(pod) {
      TallyConcat([pod], pods, c, clock);
    } else {
      InsertKeeps(pod, pods[1..], c, clock);
      TallyConcat([pods[0]], pods[1..], c, clock);
      TallyConcat([pods[0]], InsertDescending(pod, pods[1..]), c, clock);
      assert pods == [pods[0]] + pods[1..];
    }
    assert [pod][..0] == [];
  }

  lemma {:induction false} InsertSorted(pod: Pod, pods: seq<Pod>)
    requires StrictlyDescending(pods)
    requires forall p :: p in pods ==> Ordinal(p) != Ordinal(pod)
    ensures StrictlyDescending(InsertDescending(pod, pods))
  {
    hide Names.Ordinal;
    if pods != [] && Ordinal(pods[0]) > Ordinal(pod) {
      InsertSorted(pod, pods[1..]);
      InsertKeeps(pod, pods[1..], CreatedPod, Clock(0, 0));
      var rest := InsertDescending(pod, pods[1..]);
      forall j | 0 <= j < |rest|
        ensures Ordinal(rest[j]) < Ordinal(pods[0])
      {
        assert rest[j] in rest;
      }
    }
  }

  lemma {:induction false} SortMembers(pods: seq<Pod>)
    ensures forall p :: p in SortDescending(pods) <==> p in pods
  {
    hide InsertDescending;
    hide Tally;
    if pods != [] {
      SortMembers(pods[..|pods| - 1]);
      InsertKeeps(pods[|pods| - 1], SortDescending(pods[..|pods| - 1]), CreatedPod, Clock(0, 0));
      LastMember(pods);
    }
  }

  lemma {:induction false} SortTally(pods: seq<Pod>, c: Criterion, clock: Clock)
    ensures Tally(SortDescending(pods), c, clock) == Tally(pods, c, clock)
  {
    if pods != [] {
      SortTally(pods[..|pods| - 1], c, clock);
      InsertKeeps(pods[|pods| - 1], SortDescending(pods[..|pods| - 1]), c, clock);
    }
  }

  lemma {:induction false} SortSorts(pods: seq<Pod>)
    requires DistinctOrdinals(pods)
    ensures StrictlyDescending(SortDescending(pods))
  {
    hide Names.Ordinal;
    if pods != [] {
      var front, last := pods[..|pods| - 1], pods[|pods| - 1];
      SortSorts(front);
      SortMembers(front);
      LastIsNew(pods);
      InsertSorted(last, SortDescending(front));
    }
  }

  /** If several listed pods have the ordinal of a slot, the last of them is in it. */
  lemma {:induction false} LastListedStays(sts: StatefulSet, pods: seq<Pod>, k: nat)
    requires k < |pods| && sts.start <= Ordinal(pods[k]) < sts.start + sts.replicas
    requires forall j :: k < j < |pods| ==> Ordinal(pods[j]) != Ordinal(pods[k])
    ensures Place(sts, pods)[Ordinal(pods[k]) - sts.start] == Some(pods[k])
  {
    hide Names.Ordinal;
    if k < |pods| - 1 {
      LastListedStays(sts, pods[..|pods| - 1], k);
    }
  }

  /** Slot i holds the observed pod with ordinal start + i if there is one, and a stamped pod with it otherwise. */
  ghost predicate SlotIsRight(t: Target, pods: seq<Pod>, i: nat)
    requires i < t.sts.replicas
  {
    var slot := Slots(t, pods)[i];
    && Ordinal(slot) == t.sts.start + i
    && (slot in pods || slot == Stamped(t, t.sts.start + i))
    && (forall p :: p in pods && Ordinal(p) == t.sts.start + i ==> slot == p)
  }

  /**
   Slot construction conserves pods: every slot is right, and the condemned list holds every other observed pod with a
   valid ordinal, highest ordinal first.
   */
  lemma PodsAreConserved(t: Target, pods: seq<Pod>)
    requires t.sts.Valid() && DistinctOrdinals(pods)
    ensures forall i :: 0 <= i < t.sts.replicas ==> SlotIsRight(t, pods, i)
    ensures forall p :: p in pods && t.sts.InRange(Ordinal(p)) ==> Slots(t, pods)[Ordinal(p) - t.sts.start] == p
    ensures forall p :: p in Condemned(t.sts, pods) <==> p in pods && !t.sts.InRange(Ordinal(p)) && Ordinal(p) >= 0
    ensures StrictlyDescending(Condemned(t.sts, pods))
  {
    hide Names.Ordinal;
    forall i: nat | i < t.sts.replicas
      ensures SlotIsRight(t, pods, i)
    {
      PlaceAt(t.sts, pods, i);
      StampedOrdinal(t, t.sts.start + i);
    }
    OutsideMembers(t.sts, pods);
    OutsideDistinct(t.sts, pods);
    SortMembers(Outside(t.sts, pods));
    SortSorts(Outside(t.sts, pods));
    forall p | p in pods && t.sts.InRange(Ordinal(p))
      ensures Slots(t, pods)[Ordinal(p) - t.sts.start] == p
    {
      assert SlotIsRight(t, pods, Ordinal(p) - t.sts.start);
    }
  }

  lemma {:induction false} TallyUpdated(pods: seq<Pod>, i: nat, p: Pod, c: Criterion, clock: Clock)
    requires i < |pods|
    ensures Tally(pods[i := p], c, clock) == Tally(pods, c, clock) - Weight(pods[i], c, clock) + Weight(p, c, clock)
  {
    var last := |pods| - 1;
    if i < last {
      TallyUpdated(pods[..last], i, p, c, clock);
      assert pods[i := p][..last] == pods[..last][i := p];
    } else {
      assert pods[i := p][..last] == pods[..last];
    }
  }

  lemma {:induction false} StampedTally(t: Target, c: Criterion, clock: Clock, pods: seq<Pod>)
    requires !c.UnavailablePod?
    requires forall i :: 0 <= i < |pods| ==> pods[i].phase.Uncreated?
    ensures Tally(pods, c, clock) == 0
  {
    TallyExtremes(pods, c, clock);
  }

  /** Placing an in-range pod replaces a stamped pod. */
  lemma SlotsNew(t: Target, pods: seq<Pod>)
    requires DistinctOrdinals(pods) && pods != []
    requires t.sts.InRange(Ordinal(pods[|pods| - 1]))
    ensures var front, last := pods[..|pods| - 1], pods[|pods| - 1];
            var i := Ordinal(last) - t.sts.start;
            && Slots(t, pods) == Slots(t, front)[i := last]
            && Slots(t, front)[i].phase.Uncreated?
  {
    var front, last := pods[..|pods| - 1], pods[|pods| - 1];
    var i := Ordinal(last) - t.sts.start;
    LastIsNew(pods);
    PlaceAt(t.sts, front, i);
    assert Place(t.sts, pods) == Place(t.sts, front)[i := Some(last)];
  }

  lemma PlaceNew(t: Target, pods: seq<Pod>, c: Criterion, clock: Clock)
    requires DistinctOrdinals(pods) && !c.UnavailablePod?
    requires pods != [] && t.sts.InRange(Ordinal(pods[|pods| - 1]))
    ensures var front, last := pods[..|pods| - 1], pods[|pods| - 1];
            && Tally(Slots(t, pods), c, clock) == Tally(Slots(t, front), c, clock) + Weight(last, c, clock)
            && Outside(t.sts, pods) == Outside(t.sts, front)
  {
    var front, last := pods[..|pods| - 1], pods[|pods| - 1];
    var i := Ordinal(last) - t.sts.start;
    SlotsNew(t, pods);
    TallyUpdated(Slots(t, front), i, last, c, clock);
    assert Weight(Slots(t, front)[i], c, clock) == 0;
  }

  lemma PlaceOutside(t: Target, pods: seq<Pod>, c: Criterion, clock: Clock)
    requires pods != [] && !t.sts.InRange(Ordinal(pods[|pods| - 1])) && Ordinal(pods[|pods| - 1]) >= 0
    ensures var front, last := pods[..|pods| - 1], pods[|pods| - 1];
            && Slots(t, pods) == Slots(t, front)
            && Tally(Outside(t.sts, pods), c, clock) == Tally(Outside(t.sts, front), c, clock) + Weight(last, c, clock)
  {
    var front, last := pods[..|pods| - 1], pods[|pods| - 1];
    TallyConcat(Outside(t.sts, front), [last], c, clock);
    assert [last][..0] == [];
  }

  /** Stamped pods count for nothing, so slots and condemned pods together count what the listing counts. */
  lemma {:induction false} TallyIsConserved(t: Target, pods: seq<Pod>, c: Criterion, clock: Clock)
    requires DistinctOrdinals(pods) && !c.UnavailablePod?
    requires forall p :: p in pods ==> Ordinal(p) >= 0
    ensures Tally(pods, c, clock) == Tally(Slots(t, pods), c, clock) + Tally(Outside(t.sts, pods), c, clock)
  {
    if pods == [] {
      StampedTally(t, c, clock, Slots(t, pods));
    } else {
      LastIsNew(pods);
      TallyIsConserved(t, pods[..|pods| - 1], c, clock);
      if t.sts.InRange(Ordinal(pods[|pods| - 1])) {
        PlaceNew(t, pods, c, clock);
      } else {
        PlaceOutside(t, pods, c, clock);
      }
    }
  }

  /** The status over the listing, computed first, is the status over slots and condemned pods, computed last. */
  lemma CountsAreConserved(t: Target, pods: seq<Pod>, clock: Clock)
    requires DistinctOrdinals(pods)
    requires forall p :: p in pods ==> Ordinal(p) >= 0
    ensures StatusOver(t, pods, clock) == StatusOver(t, Slots(t, pods) + Condemned(t.sts, pods), clock)
  {
    forall c: Criterion | !c.UnavailablePod?
      ensures Tally(pods, c, clock) == Tally(Slots(t, pods) + Condemned(t.sts, pods), c, clock)
    {
      TallyIsConserved(t, pods, c, clock);
      SortTally(Outside(t.sts, pods), c, clock);
      TallyConcat(Slots(t, pods), Condemned(t.sts, pods), c, clock);
    }
  }

  lemma {:induction false} DescendingIsUnique(a: seq<Pod>, b: seq<Pod>)
    requires StrictlyDescending(a) && StrictlyDescending(b)
    requires forall p :: p in a <==> p in b
    ensures a == b
  {
    assert b != [] ==> b[0] in a;
    if a != [] {
      assert a[0] in b;
      assert b[0] in a;
      assert a[0] == b[0];
      forall p
        ensures p in a[1..] <==> p in b[1..]
      {
        assert p in a[1..] <==> p in a && Ordinal(p) < Ordinal(a[0]) by { TailMembers(a, p); }
        assert p in b[1..] <==> p in b && Ordinal(p) < Ordinal(b[0]) by { TailMembers(b, p); }
      }
      DescendingIsUnique(a[1..], b[1..]);
      assert a == [a[0]] + a[1..] && b == [b[0]] + b[1..];
    }
  }

  lemma TailMembers(a: seq<Pod>, p: Pod)
    requires StrictlyDescending(a) && a != []
    ensures p in a[1..] <==> p in a && Ordinal(p) < Ordinal(a[0])
  {
    if p in a && Ordinal(p) < Ordinal(a[0]) {
      var i :| 0 <= i < |a| && a[i] == p;
      assert a[1..][i - 1] == p;
    }
  }

  /** No counter depends on the order of the listing. */
  lemma TallyForgetsListing(a: seq<Pod>, b: seq<Pod>, c: Criterion, clock: Clock)
    requires DistinctOrdinals(a) && DistinctOrdinals(b)
    requires forall p :: p in a <==> p in b
    ensures Tally(a, c, clock) == Tally(b, c, clock)
  {
    hide Names.Ordinal;
    SortTally(a, c, clock);
    SortTally(b, c, clock);
    SortMembers(a);
    SortMembers(b);
    SortSorts(a);
    SortSorts(b);
    DescendingIsUnique(SortDescending(a), SortDescending(b));
  }

  /** A sync does not depend on the order in which the cache lists the pods. */
  lemma ListingOrderIsIrrelevant(t: Target, a: seq<Pod>, b: seq<Pod>, api: Api, now: int)
    requires t.sts.Valid() && DistinctOrdinals(a) && DistinctOrdinals(b)
    requires forall p :: p in a <==> p in b
    ensures SyncPods(t, a, api, now) == SyncPods(t, b, api, now)
  {
    hide Names.Ordinal;
    hide SyncSlots;
    hide Slots;
    hide Condemned;
    PodsAreConserved(t, a);
    PodsAreConserved(t, b);
    forall i | 0 <= i < t.sts.replicas
      ensures Slots(t, a)[i] == Slots(t, b)[i]
    {
      assert SlotIsRight(t, a, i) && SlotIsRight(t, b, i);
    }
    assert Slots(t, a) == Slots(t, b);
    DescendingIsUnique(Condemned(t.sts, a), Condemned(t.sts, b));
    forall c: Criterion
      ensures Tally(a, c, Clock(t.sts.minReadySeconds, now)) == Tally(b, c, Clock(t.sts.minReadySeconds, now))
    {
      TallyForgetsListing(a, b, c, Clock(t.sts.minReadySeconds, now));
    }
  }
}

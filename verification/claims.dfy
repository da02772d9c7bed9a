/**
 Owner references of persistent volume claims (xstateful_set_utils.go, xstateful_pod_control.go): a check whether a
 claim is owned as the retention policy wants, and a repair that must agree with it.
 */
module Claims {
  import opened Prelude
  import Names

  datatype OwnerRef = OwnerRef(apiVersion: string, kind: string, name: string, uid: string, controller: Option<bool>)

  /** An object that may own a claim, with its API version and kind. */
  datatype Owner = Owner(apiVersion: string, kind: string, name: string, uid: string)

  /** Other is a policy value the controller does not know. */
  datatype Retention = Retain | Delete | Other

  datatype Policy = Policy(whenScaled: Retention, whenDeleted: Retention)

  /** What decides over a pod's claims: the set, the pod, whether the pod's ordinal is out of range, the policy. */
  datatype Context = Context(sts: Owner, pod: Owner, scaledDown: bool, policy: Option<Policy>)
  {
    /** The set and the pod are different objects of different kinds. */
    predicate Valid() { sts.uid != pod.uid && sts.kind != pod.kind }

    /** getPersistentVolumeClaimRetentionPolicy. */
    function Effective(): Policy {
      if policy.Some? then policy.value else Policy(Retain, Retain)
    }

    /** Whether the policy wants the claim to be owned by the set, and by the pod. */
    predicate WantsSet() {
      && Effective().whenDeleted.Delete?
      && (Effective().whenScaled.Retain? || (Effective().whenScaled.Delete? && !scaledDown))
    }

    predicate WantsPod() {
      && Effective().whenScaled.Delete? && !Effective().whenDeleted.Other? && scaledDown
    }
  }

  /** matchesRef. */
  predicate Matches(ref: OwnerRef, o: Owner) {
    ref.apiVersion == o.apiVersion && ref.kind == o.kind && ref.name == o.name
  }

  predicate IsController(ref: OwnerRef) { ref.controller == Some(true) }

  /** A reference to the set or the pod, judged by version, kind and name. */
  predicate IsOurs(ref: OwnerRef, c: Context) { Matches(ref, c.sts) || Matches(ref, c.pod) }

  // ---------------------------------------------------------------- the check

  predicate HasOwnerRef(refs: seq<OwnerRef>, o: Owner) {
    exists r :: r in refs && r.uid == o.uid
  }

  /** hasStaleOwnerRef: only the first matching reference is looked at. */
  predicate HasStaleRef(refs: seq<OwnerRef>, o: Owner) {
    refs != [] && (if Matches(refs[0], o) then refs[0].uid != o.uid else HasStaleRef(refs[1..], o))
  }

  /** A matching reference with another UID, or someone else's controller reference. */
  predicate IsUnexpected(ref: OwnerRef, c: Context) {
    if Matches(ref, c.sts) then ref.uid != c.sts.uid
    else if Matches(ref, c.pod) then ref.uid != c.pod.uid
    else IsController(ref)
  }

  predicate HasUnexpectedController(refs: seq<OwnerRef>, c: Context) {
    && c.Effective() != Policy(Retain, Retain)
    && exists r :: r in refs && IsUnexpected(r, c)
  }

  predicate HasNonControllerOwner(refs: seq<OwnerRef>, c: Context) {
    exists r :: r in refs && (r.uid == c.sts.uid || r.uid == c.pod.uid) && !IsController(r)
  }

  /** isClaimOwnerUpToDate. */
  predicate UpToDate(refs: seq<OwnerRef>, c: Context) {
    if HasStaleRef(refs, c.sts) || HasStaleRef(refs, c.pod) then true
    else if HasUnexpectedController(refs, c) then !HasOwnerRef(refs, c.sts) && !HasOwnerRef(refs, c.pod)
    else if HasNonControllerOwner(refs, c) then false
    else
      var hasSet, hasPod := HasOwnerRef(refs, c.sts), HasOwnerRef(refs, c.pod);
      match (c.Effective().whenScaled, c.Effective().whenDeleted)
      case (Retain, Delete) => hasSet && !hasPod
      case (Delete, Retain) => !hasSet && c.scaledDown == hasPod
      case (Delete, Delete) => c.scaledDown != hasSet && c.scaledDown == hasPod
      case _ => !hasSet && !hasPod
  }

  method HasOwner(refs: seq<OwnerRef>, o: Owner) returns (found: bool)
    ensures found == HasOwnerRef(refs, o)
  {
    for i := 0 to |refs|
      invariant forall j :: 0 <= j < i ==> refs[j].uid != o.uid
    {
      if refs[i].uid == o.uid {
        assert refs[i] in refs;
        return true;
      }
    }
    return false;
  }

  method FindStaleRef(refs: seq<OwnerRef>, o: Owner) returns (stale: bool)
    ensures stale == HasStaleRef(refs, o)
  {
    for i := 0 to |refs|
      invariant HasStaleRef(refs, o) == HasStaleRef(refs[i..], o)
    {
      assert refs[i..][1..] == refs[i + 1..];
      if Matches(refs[i], o) {
        return refs[i].uid != o.uid;
      }
    }
    return false;
  }

  method FindUnexpectedController(refs: seq<OwnerRef>, c: Context) returns (found: bool)
    ensures found == HasUnexpectedController(refs, c)
  {
    if c.Effective() == Policy(Retain, Retain) {
      return false;
    }
    for i := 0 to |refs|
      invariant forall j :: 0 <= j < i ==> !IsUnexpected(refs[j], c)
    {
      var ref := refs[i];
      assert ref in refs;
      if Matches(ref, c.sts) {
        if ref.uid != c.sts.uid {
          assert IsUnexpected(ref, c);
          return true;
        }
      } else if Matches(ref, c.pod) {
        if ref.uid != c.pod.uid {
          assert IsUnexpected(ref, c);
          return true;
        }
      } else if IsController(ref) {
        assert IsUnexpected(ref, c);
        return true;
      }
    }
    return false;
  }

  method FindNonControllerOwner(refs: seq<OwnerRef>, c: Context) returns (found: bool)
    ensures found == HasNonControllerOwner(refs, c)
  {
    for i := 0 to |refs|
      invariant forall j :: 0 <= j < i ==>
                  (refs[j].uid == c.sts.uid || refs[j].uid == c.pod.uid) ==> IsController(refs[j])
    {
      if refs[i].uid == c.sts.uid || refs[i].uid == c.pod.uid {
        if !IsController(refs[i]) {
          assert refs[i] in refs;
          return true;
        }
      }
    }
    return false;
  }

  // ---------------------------------------------------------------- the repair

  /** The references that are neither to the set nor to the pod, in order. */
  function Foreign(refs: seq<OwnerRef>, c: Context): seq<OwnerRef> {
    if refs == [] then []
    else Foreign(refs[..|refs| - 1], c) + if IsOurs(refs[|refs| - 1], c) then [] else [refs[|refs| - 1]]
  }

  function ControllerRef(o: Owner): OwnerRef { OwnerRef(o.apiVersion, o.kind, o.name, o.uid, Some(true)) }

  /** addControllerRef. */
  function WithController(refs: seq<OwnerRef>, o: Owner): seq<OwnerRef> {
    if HasOwnerRef(refs, o) then refs else refs + [ControllerRef(o)]
  }

  /** updateClaimOwnerRefForSetAndPod. */
  function Repaired(refs: seq<OwnerRef>, c: Context): seq<OwnerRef> {
    var scrubbed := Foreign(refs, c);
    if HasUnexpectedController(refs, c) then scrubbed
    else
      match (c.Effective().whenScaled, c.Effective().whenDeleted)
      case (Retain, Delete) => WithController(scrubbed, c.sts)
      case (Delete, Retain) => if c.scaledDown then WithController(scrubbed, c.pod) else scrubbed
      case (Delete, Delete) => WithController(scrubbed, if c.scaledDown then c.pod else c.sts)
      case _ => scrubbed
  }

  /** A claim object whose owner references are rewritten in place. */
  class Claim {
    var refs: seq<OwnerRef>

    constructor (refs: seq<OwnerRef>)
      ensures this.refs == refs
    {
      this.refs := refs;
    }

    method UpdateOwnerRefs(c: Context)
      modifies this
      ensures refs == Repaired(old(refs), c)
    {
      var unexpected := FindUnexpectedController(refs, c);
      var kept: seq<OwnerRef> := [];
      for i := 0 to |refs|
        invariant kept == Foreign(refs[..i], c) && refs == old(refs)
      {
        assert refs[..i + 1][..i] == refs[..i];
        if !Matches(refs[i], c.sts) && !Matches(refs[i], c.pod) {
          kept := kept + [refs[i]];
        }
      }
      assert refs[..|refs|] == refs;
      if unexpected {
        refs := kept;
        return;
      }
      var p := c.Effective();
      if p.whenScaled.Retain? && p.whenDeleted.Delete? {
        kept := AddControllerRef(kept, c.sts);
      } else if p.whenScaled.Delete? && p.whenDeleted.Retain? {
        if c.scaledDown {
          kept := AddControllerRef(kept, c.pod);
        }
      } else if p.whenScaled.Delete? && p.whenDeleted.Delete? {
        if c.scaledDown {
          kept := AddControllerRef(kept, c.pod);
        }
        if !c.scaledDown {
          kept := AddControllerRef(kept, c.sts);
        }
      }
      refs := kept;
    }
  }

  method AddControllerRef(refs: seq<OwnerRef>, o: Owner) returns (added: seq<OwnerRef>)
    ensures added == WithController(refs, o)
    ensures HasOwnerRef(added, o) && refs <= added && |added| <= |refs| + 1
    ensures forall r :: r in added <==> r in refs || (!HasOwnerRef(refs, o) && r == ControllerRef(o))
  {
    var present := HasOwner(refs, o);
    if present {
      added := refs;
    } else {
      added := refs + [ControllerRef(o)];
      assert added[|refs|] == ControllerRef(o);
    }
  }

  // ---------------------------------------------------------------- check and repair agree

  /** A reference to the set or pod by UID that does not match it by version, kind and name. */
  predicate IsAlien(ref: OwnerRef, c: Context) {
    !IsOurs(ref, c) && (ref.uid == c.sts.uid || ref.uid == c.pod.uid)
  }

  /** A reference that matches the set or pod but carries another UID. */
  predicate IsImpostor(ref: OwnerRef, c: Context) {
    (Matches(ref, c.sts) && ref.uid != c.sts.uid) || (Matches(ref, c.pod) && ref.uid != c.pod.uid)
  }

  /** Someone else controls the claim. */
  predicate ForeignControlled(refs: seq<OwnerRef>, c: Context) {
    exists r :: r in refs && !IsOurs(r, c) && IsController(r)
  }

  lemma {:induction false} ForeignMembers(refs: seq<OwnerRef>, c: Context)
    ensures forall r :: r in Foreign(refs, c) <==> r in refs && !IsOurs(r, c)
  {
    if refs != [] {
      ForeignMembers(refs[..|refs| - 1], c);
      assert refs == refs[..|refs| - 1] + [refs[|refs| - 1]];
    }
  }

  lemma {:induction false} ForeignOfForeign(refs: seq<OwnerRef>, c: Context)
    requires forall i :: 0 <= i < |refs| ==> !IsOurs(refs[i], c)
    ensures Foreign(refs, c) == refs
  {
    if refs != [] {
      ForeignOfForeign(refs[..|refs| - 1], c);
      assert refs == refs[..|refs| - 1] + [refs[|refs| - 1]];
    }
  }

  lemma ForeignWithController(refs: seq<OwnerRef>, o: Owner, c: Context)
    requires o == c.sts || o == c.pod
    ensures Foreign(WithController(refs, o), c) == Foreign(refs, c)
  {
    assert (refs + [ControllerRef(o)])[..|refs|] == refs;
  }

  lemma ScrubTwice(refs: seq<OwnerRef>, c: Context)
    ensures Foreign(Foreign(refs, c), c) == Foreign(refs, c)
  {
    ForeignMembers(refs, c);
    var scrubbed := Foreign(refs, c);
    assert forall i :: 0 <= i < |scrubbed| ==> scrubbed[i] in scrubbed;
    ForeignOfForeign(scrubbed, c);
  }

  /** The repair touches only references to the set and the pod: everybody else's stay, in order. */
  lemma RepairKeepsForeign(refs: seq<OwnerRef>, c: Context)
    ensures Foreign(Repaired(refs, c), c) == Foreign(refs, c)
    ensures forall r :: r in refs
                        && (r.apiVersion, r.kind, r.name) != (c.sts.apiVersion, c.sts.kind, c.sts.name)
                        && (r.apiVersion, r.kind, r.name) != (c.pod.apiVersion, c.pod.kind, c.pod.name) ==>
              r in Repaired(refs, c)
  {
    ForeignMembers(refs, c);
    ForeignMembers(Repaired(refs, c), c);
    hide Foreign;
    hide WithController;
    hide HasUnexpectedController;
    ScrubTwice(refs, c);
    ForeignWithController(Foreign(refs, c), c.sts, c);
    ForeignWithController(Foreign(refs, c), c.pod, c);
  }

  /** Beside somebody else's controller the repair never adds one. */
  lemma RepairAddsNoSecondController(refs: seq<OwnerRef>, c: Context)
    requires exists r :: r in refs && !IsOurs(r, c) && r.controller == Some(true)
    ensures Repaired(refs, c) == Foreign(refs, c)
  {
    hide Foreign;
    hide WithController;
    var r :| r in refs && !IsOurs(r, c) && IsController(r);
    assert IsUnexpected(r, c);
  }

  /** Without matching references nothing is stale. */
  lemma {:induction false} NothingStale(refs: seq<OwnerRef>, o: Owner)
    requires forall r :: r in refs && Matches(r, o) ==> r.uid == o.uid
    ensures !HasStaleRef(refs, o)
  {
    if refs != [] {
      NothingStale(refs[1..], o);
    }
  }

  /** What the check says about references of which none is a stale one of ours. */
  lemma CheckWithoutImpostors(refs: seq<OwnerRef>, c: Context)
    requires c.Valid() && forall r :: r in refs ==> !IsImpostor(r, c)
    ensures UpToDate(refs, c) <==>
            if ForeignControlled(refs, c) && c.Effective() != Policy(Retain, Retain) then
              !HasOwnerRef(refs, c.sts) && !HasOwnerRef(refs, c.pod)
            else
              && !HasNonControllerOwner(refs, c)
              && (HasOwnerRef(refs, c.sts) <==> c.WantsSet())
              && (HasOwnerRef(refs, c.pod) <==> c.WantsPod())
  {
    NothingStale(refs, c.sts);
    NothingStale(refs, c.pod);
    assert forall r :: r in refs ==> (IsUnexpected(r, c) <==> !IsOurs(r, c) && IsController(r));
  }

  /**
   Repair agrees with check, exactly: the check accepts the repaired references iff there is no alien reference, and
   either there was no impostor, or the policy wants no owner here, or somebody else controls the claim.
   */
  lemma RepairAgreesWithCheck(refs: seq<OwnerRef>, c: Context)
    requires c.Valid()
    ensures UpToDate(Repaired(refs, c), c) <==>
            && (forall r :: r in refs ==> !IsAlien(r, c))
            && (|| (forall r :: r in refs ==> !IsImpostor(r, c))
                || (!c.WantsSet() && !c.WantsPod())
                || ForeignControlled(refs, c))
  {
    ForeignMembers(refs, c);
    var fixed := Repaired(refs, c);
    FixedMembers(refs, c);
    CheckWithoutImpostors(fixed, c);
    if r :| r in refs && IsAlien(r, c) {
      assert r in fixed;
    } else {
      UnexpectedOf(refs, c);
    }
  }

  /** The members of the repaired list. */
  lemma FixedMembers(refs: seq<OwnerRef>, c: Context)
    requires c.Valid()
    ensures var fixed := Repaired(refs, c);
            && (forall r :: r in refs && !IsOurs(r, c) ==> r in fixed)
            && (forall r :: r in fixed ==>
                  || (r in refs && !IsOurs(r, c))
                  || (r == ControllerRef(c.sts) && c.WantsSet() && !HasUnexpectedController(refs, c))
                  || (r == ControllerRef(c.pod) && c.WantsPod() && !HasUnexpectedController(refs, c)))
            && (!HasUnexpectedController(refs, c) ==>
                  (c.WantsSet() ==> HasOwnerRef(fixed, c.sts)) && (c.WantsPod() ==> HasOwnerRef(fixed, c.pod)))
            && (forall r :: r in fixed ==> !IsImpostor(r, c))
            && (ForeignControlled(fixed, c) <==> ForeignControlled(refs, c))
  {
    ForeignMembers(refs, c);
    var fixed := Repaired(refs, c);
    var s, p := ControllerRef(c.sts), ControllerRef(c.pod);
    var scrubbed := Foreign(refs, c);
    assert s in scrubbed + [s] && p in scrubbed + [p];
  }

  lemma UnexpectedOf(refs: seq<OwnerRef>, c: Context)
    requires c.Valid()
    ensures HasUnexpectedController(refs, c) <==>
            && c.Effective() != Policy(Retain, Retain)
            && ((exists r :: r in refs && IsImpostor(r, c)) || ForeignControlled(refs, c))
  {
    assert forall r :: IsUnexpected(r, c) <==> IsImpostor(r, c) || (!IsOurs(r, c) && IsController(r));
  }

  /** Repairing a second time helps against everything but alien references. */
  lemma SecondRepair(refs: seq<OwnerRef>, c: Context)
    requires c.Valid()
    ensures UpToDate(Repaired(Repaired(refs, c), c), c) <==> forall r :: r in refs ==> !IsAlien(r, c)
  {
    FixedMembers(refs, c);
    RepairAgreesWithCheck(Repaired(refs, c), c);
  }

  /**
   What an accepted claim looks like when nobody else is involved: it has a set reference iff the policy wants one, a
   pod reference iff the policy wants one, and all of them are controller references.
   */
  lemma UpToDateMeaning(refs: seq<OwnerRef>, c: Context)
    requires c.Valid() && !ForeignControlled(refs, c)
    requires forall r :: r in refs ==> !IsAlien(r, c) && !IsImpostor(r, c)
    ensures UpToDate(refs, c) <==>
            && ((exists r :: r in refs && Matches(r, c.sts)) <==> c.WantsSet())
            && ((exists r :: r in refs && Matches(r, c.pod)) <==> c.WantsPod())
            && (forall r :: r in refs && IsOurs(r, c) ==> r.controller == Some(true))
  {
    CheckWithoutImpostors(refs, c);
    assert forall r :: r in refs ==> (r.uid == c.sts.uid <==> Matches(r, c.sts));
    assert forall r :: r in refs ==> (r.uid == c.pod.uid <==> Matches(r, c.pod));
  }

  /**
   A claim left to a pod that was scaled down, as the policy wants, blocks the creation of that pod's successor: to a
   pod of the same name and another UID the reference is stale.
   */
  lemma ScaledDownClaimIsStale(refs: seq<OwnerRef>, c: Context, successor: Owner)
    requires c.Valid() && !ForeignControlled(refs, c) && c.WantsPod() && UpToDate(refs, c)
    requires forall r :: r in refs ==> !IsAlien(r, c) && !IsImpostor(r, c)
    requires successor == c.pod.(uid := successor.uid) && successor.uid != c.pod.uid
    ensures HasStaleRef(refs, successor)
  {
    UpToDateMeaning(refs, c);
    FirstMatchIsStale(refs, c.pod, successor);
  }

  lemma {:induction false} FirstMatchIsStale(refs: seq<OwnerRef>, pod: Owner, successor: Owner)
    requires forall r :: r in refs && Matches(r, pod) ==> r.uid == pod.uid
    requires exists r :: r in refs && Matches(r, pod)
    requires successor == pod.(uid := successor.uid) && successor.uid != pod.uid
    ensures HasStaleRef(refs, successor)
  {
    if !Matches(refs[0], pod) {
      assert refs == [refs[0]] + refs[1..];
      FirstMatchIsStale(refs[1..], pod, successor);
    }
  }

  // ---------------------------------------------------------------- all claims of a pod

  /** Which references a repair can put right at once. */
  predicate Repairable(refs: seq<OwnerRef>, c: Context) {
    && (forall r :: r in refs ==> !IsAlien(r, c))
    && (|| (forall r :: r in refs ==> !IsImpostor(r, c))
        || (!c.WantsSet() && !c.WantsPod())
        || ForeignControlled(refs, c))
  }

  function Fixed(refs: seq<OwnerRef>, c: Context): seq<OwnerRef> {
    if UpToDate(refs, c) then refs else Repaired(refs, c)
  }

  /**
   A claim whose first reference by version, kind and name to the set or to the pod has another UID is left alone.
   */
  lemma StaleClaimIsLeftAlone(refs: seq<OwnerRef>, c: Context, o: Owner, k: nat)
    requires (o == c.sts || o == c.pod) && k < |refs|
    requires (refs[k].apiVersion, refs[k].kind, refs[k].name) == (o.apiVersion, o.kind, o.name) && refs[k].uid != o.uid
    requires forall j :: 0 <= j < k ==>
               (refs[j].apiVersion, refs[j].kind, refs[j].name) != (o.apiVersion, o.kind, o.name)
    ensures HasStaleRef(refs, o) && UpToDate(refs, c) && Fixed(refs, c) == refs
  {
    FirstMatchDecides(refs, o, k);
  }

  lemma {:induction false} FirstMatchDecides(refs: seq<OwnerRef>, o: Owner, k: nat)
    requires k < |refs| && Matches(refs[k], o) && forall j :: 0 <= j < k ==> !Matches(refs[j], o)
    ensures HasStaleRef(refs, o) <==> refs[k].uid != o.uid
  {
    if k > 0 {
      FirstMatchDecides(refs[1..], o, k - 1);
    }
  }

  /**
   Without a policy claims belong to nobody: the repair takes away the references to the set and the pod and adds
   none, and the check accepts a claim iff it has no reference to either, or a stale one.
   */
  lemma NoPolicyNoOwner(refs: seq<OwnerRef>, c: Context)
    requires c.policy == None
    ensures Repaired(refs, c) == Foreign(refs, c)
    ensures UpToDate(refs, c) <==>
            || HasStaleRef(refs, c.sts) || HasStaleRef(refs, c.pod)
            || forall r :: r in refs ==> r.uid != c.sts.uid && r.uid != c.pod.uid
  {
  }

  /** The store after working through a list of claim names; missing claims are skipped. */
  function FixAll(claims: map<string, seq<OwnerRef>>, names: seq<string>, c: Context): map<string, seq<OwnerRef>> {
    if names == [] then claims
    else
      var before := FixAll(claims, names[..|names| - 1], c);
      var n := names[|names| - 1];
      if n in before then before[n := Fixed(before[n], c)] else before
  }

  /** No call that claim i needs fails: it is read, and unless it is missing or up to date it is updated. */
  predicate ClaimPasses(
    before: map<string, seq<OwnerRef>>, names: seq<string>, c: Context,
    getFails: string -> bool, updateFails: string -> bool, i: nat)
    requires i < |names|
  {
    var claims := FixAll(before, names[..i], c);
    && !getFails(names[i])
    && (names[i] in claims && !UpToDate(claims[names[i]], c) ==> !updateFails(names[i]))
  }

  predicate AllUpToDate(claims: map<string, seq<OwnerRef>>, names: seq<string>, c: Context) {
    forall n :: n in names && n in claims ==> UpToDate(claims[n], c)
  }

  /** The API server's claims; a call on a name can fail. */
  class ClaimStore {
    var claims: map<string, seq<OwnerRef>>

    /** All these claims can be read and are up to date or missing. */
    predicate AllPass(names: seq<string>, c: Context, getFails: string -> bool)
      reads this
    {
      forall i :: 0 <= i < |names| ==> !getFails(names[i]) && (names[i] in claims ==> UpToDate(claims[names[i]], c))
    }

    /** ClaimsMatchRetentionPolicy: an error iff a claim cannot be read and none before it is out of date. */
    method ClaimsMatchRetentionPolicy(names: seq<string>, c: Context, getFails: string -> bool)
      returns (matches: bool, err: bool)
      ensures !err ==> (matches <==> AllUpToDate(claims, names, c))
      ensures err ==> !matches
      ensures err <==> exists i :: 0 <= i < |names| && getFails(names[i]) && AllPass(names[..i], c, getFails)
    {
      for i := 0 to |names|
        invariant forall j :: 0 <= j < i ==> !getFails(names[j])
        invariant forall j :: 0 <= j < i ==> names[j] in claims ==> UpToDate(claims[names[j]], c)
      {
        var n := names[i];
        assert n in names;
        if getFails(n) {
          assert AllPass(names[..i], c, getFails);
          return false, true;
        }
        if n in claims {
          var ok := IsClaimOwnerUpToDate(claims[n], c);
          if !ok {
            assert forall k :: i < k <= |names| ==> names[..k][i] == n;
            return false, false;
          }
        }
      }
      return true, false;
    }

    /** PodClaimIsStale; the claims come out of a map, so they are looked at in no particular order. */
    method PodClaimIsStale(names: set<string>, c: Context, getFails: string -> bool) returns (stale: bool, err: bool)
      ensures !err ==>
                (stale <==> !c.Effective().whenScaled.Retain? &&
                            exists n :: n in names && n in claims && HasStaleRef(claims[n], c.pod))
      ensures err ==> !stale && !c.Effective().whenScaled.Retain? && exists n :: n in names && getFails(n)
      ensures !err && !stale && !c.Effective().whenScaled.Retain? ==> forall n :: n in names ==> !getFails(n)
    {
      if c.Effective().whenScaled.Retain? {
        return false, false;
      }
      var pending := names;
      while pending != {}
        invariant pending <= names
        invariant forall n :: n in names && n !in pending ==> !getFails(n)
        invariant forall n :: n in names && n !in pending && n in claims ==> !HasStaleRef(claims[n], c.pod)
        decreases |pending|
      {
        var n :| n in pending;
        if getFails(n) {
          return false, true;
        }
        if n in claims {
          var found := FindStaleRef(claims[n], c.pod);
          if found {
            return true, false;
          }
        }
        pending := pending - {n};
      }
      return false, false;
    }

    /** UpdatePodClaimForRetentionPolicy: on an error the claims before the failing one have been worked through. */
    method UpdatePodClaimForRetentionPolicy(
      names: seq<string>, c: Context, getFails: string -> bool, updateFails: string -> bool)
      returns (done: nat)
      modifies this
      ensures done <= |names|
      ensures claims == FixAll(old(claims), names[..done], c)
      ensures done < |names| ==> !ClaimPasses(old(claims), names, c, getFails, updateFails, done)
      ensures forall i :: 0 <= i < done ==> ClaimPasses(old(claims), names, c, getFails, updateFails, i)
    {
      for i := 0 to |names|
        invariant claims == FixAll(old(claims), names[..i], c)
        invariant forall j :: 0 <= j < i ==> ClaimPasses(old(claims), names, c, getFails, updateFails, j)
      {
        var n := names[i];
        assert names[..i + 1][..i] == names[..i];
        if getFails(n) {
          return i;
        }
        if n in claims {
          var ok := IsClaimOwnerUpToDate(claims[n], c);
          if !ok {
            var claim := new Claim(claims[n]);
            claim.UpdateOwnerRefs(c);
            if updateFails(n) {
              return i;
            }
            claims := claims[n := claim.refs];
          } else {
            assert claims[n := claims[n]] == claims;
          }
        }
      }
      return |names|;
    }
  }

  method IsClaimOwnerUpToDate(refs: seq<OwnerRef>, c: Context) returns (ok: bool)
    ensures ok == UpToDate(refs, c)
  {
    var staleSet := FindStaleRef(refs, c.sts);
    var stalePod := FindStaleRef(refs, c.pod);
    if staleSet || stalePod {
      return true;
    }
    var hasSet := HasOwner(refs, c.sts);
    var hasPod := HasOwner(refs, c.pod);
    var unexpected := FindUnexpectedController(refs, c);
    if unexpected {
      return !hasSet && !hasPod;
    }
    var loose := FindNonControllerOwner(refs, c);
    if loose {
      return false;
    }
    match (c.Effective().whenScaled, c.Effective().whenDeleted)
    case (Retain, Delete) => return hasSet && !hasPod;
    case (Delete, Retain) => return !hasSet && c.scaledDown == hasPod;
    case (Delete, Delete) => return c.scaledDown != hasSet && c.scaledDown == hasPod;
    case _ => return !hasSet && !hasPod;
  }

  predicate Distinct(names: seq<string>) {
    forall i, j :: 0 <= i < j < |names| ==> names[i] != names[j]
  }

  lemma {:induction false} FixAllPointwise(claims: map<string, seq<OwnerRef>>, names: seq<string>, c: Context)
    requires Distinct(names)
    ensures FixAll(claims, names, c).Keys == claims.Keys
    ensures forall n :: n in claims ==>
              FixAll(claims, names, c)[n] == if n in names then Fixed(claims[n], c) else claims[n]
  {
    if names != [] {
      FixAllPointwise(claims, names[..|names| - 1], c);
      assert names == names[..|names| - 1] + [names[|names| - 1]];
    }
  }

  /**
   After the update has worked through all claims of a pod, the check passes iff every claim was up to date or could
   be repaired at once.
   */
  lemma UpdateEstablishesCheck(claims: map<string, seq<OwnerRef>>, names: seq<string>, c: Context)
    requires c.Valid() && Distinct(names)
    ensures AllUpToDate(FixAll(claims, names, c), names, c) <==>
            forall n :: n in names && n in claims ==> UpToDate(claims[n], c) || Repairable(claims[n], c)
  {
    FixAllPointwise(claims, names, c);
    var after := FixAll(claims, names, c);
    forall n | n in names && n in claims
      ensures UpToDate(after[n], c) <==> UpToDate(claims[n], c) || Repairable(claims[n], c)
    {
      RepairAgreesWithCheck(claims[n], c);
    }
  }

  /** The claims of one pod have distinct names if the set's claim templates do. */
  lemma PodClaimsAreDistinct(templates: seq<string>, setName: string, ordinal: nat)
    requires Distinct(templates)
    ensures Distinct(
              seq(|templates|, i requires 0 <= i < |templates| => Names.ClaimName(templates[i], setName, ordinal)))
  {
    forall i, j | 0 <= i < j < |templates|
      ensures Names.ClaimName(templates[i], setName, ordinal) != Names.ClaimName(templates[j], setName, ordinal)
    {
      if Names.ClaimName(templates[i], setName, ordinal) == Names.ClaimName(templates[j], setName, ordinal) {
        Names.ClaimNameInjective(setName, templates[i], ordinal, templates[j], ordinal);
      }
    }
  }
}

/**
 Expected deletions (pkg/controller/controller_utils.go): a store of counters and a store of UID sets that must agree,
 so that a deletion seen twice, once as an update and once as a delete, is counted once.
 */
module Expectations {
  import opened Prelude

  /** ControlleeExpectations. */
  datatype Expectation = Expectation(add: int, del: int, timestamp: int)
  {
    predicate Fulfilled() { add <= 0 && del <= 0 }
  }

  /** ExpectationsTimeout, in nanoseconds. */
  const TIMEOUT: int := 5 * 60 * 1_000_000_000

  /** Whether a sync may go ahead: the expectations are fulfilled, expired, or were never recorded. */
  predicate IsSatisfied(counts: map<string, Expectation>, key: string, now: int) {
    key in counts ==> counts[key].Fulfilled() || now - counts[key].timestamp > TIMEOUT
  }

  /** Both stores as values. */
  datatype Stores = Stores(counts: map<string, Expectation>, uids: map<string, set<string>>)

  datatype Operation =
    | ExpectDeletions(key: string, deleted: seq<string>, now: int)
    | DeletionObserved(key: string, uid: string)
    | DeleteExpectations(key: string)

  function Apply(s: Stores, op: Operation): Stores {
    match op
    case ExpectDeletions(key, deleted, now) =>
      var expected := set u | u in deleted;
      Stores(s.counts[key := Expectation(0, |expected|, now)], s.uids[key := expected])
    case DeletionObserved(key, uid) =>
      if key in s.uids && uid in s.uids[key] then
        Stores(
          if key in s.counts then s.counts[key := s.counts[key].(del := s.counts[key].del - 1)] else s.counts,
          s.uids[key := s.uids[key] - {uid}])
      else s
    case DeleteExpectations(key) => Stores(s.counts - {key}, s.uids - {key})
  }

  /** The counter store, ControllerExpectations. */
  class ControllerExpectations {
    var store: map<string, Expectation>

    constructor ()
      ensures store == map[]
    {
      store := map[];
    }

    method SetExpectations(key: string, add: int, del: int, now: int)
      modifies this
      ensures store == old(store)[key := Expectation(add, del, now)]
    {
      store := store[key := Expectation(add, del, now)];
    }

    method LowerExpectations(key: string, add: int, del: int)
      modifies this
      ensures store == if key in old(store)
                       then
                         var e := old(store)[key];
                         old(store)[key := e.(add := e.add - add, del := e.del - del)]
                       else old(store)
    {
      if key in store {
        var e := store[key];
        store := store[key := e.(add := e.add - add, del := e.del - del)];
      }
    }

    method Delete(key: string)
      modifies this
      ensures store == old(store) - {key}
    {
      store := store - {key};
    }

    method SatisfiedExpectations(key: string, now: int) returns (satisfied: bool)
      ensures satisfied == IsSatisfied(store, key, now)
    {
      if key in store {
        var e := store[key];
        if e.add <= 0 && e.del <= 0 {
          return true;
        }
        return now - e.timestamp > TIMEOUT;
      }
      return true;
    }
  }

  /** UIDTrackingControllerExpectations: the counter store with a store of UID sets beside it. */
  class UIDTrackingExpectations {
    const counters: ControllerExpectations
    var uidStore: map<string, set<string>>

    constructor (counters: ControllerExpectations)
      ensures this.counters == counters && uidStore == map[]
    {
      this.counters := counters;
      uidStore := map[];
    }

    function Contents(): Stores
      reads this, counters
    {
      Stores(counters.store, uidStore)
    }

    method ExpectDeletions(key: string, deleted: seq<string>, now: int)
      modifies this, counters
      ensures Contents() == Apply(old(Contents()), Operation.ExpectDeletions(key, deleted, now))
    {
      var expected: set<string> := {};
      for i := 0 to |deleted|
        invariant expected == set u | u in deleted[..i]
        invariant Contents() == old(Contents())
      {
        assert deleted[..i + 1] == deleted[..i] + [deleted[i]];
        expected := expected + {deleted[i]};
      }
      assert deleted[..|deleted|] == deleted;
      uidStore := uidStore[key := expected];
      counters.SetExpectations(key, 0, |expected|, now);
    }

    method DeletionObserved(key: string, uid: string)
      modifies this, counters
      ensures Contents() == Apply(old(Contents()), Operation.DeletionObserved(key, uid))
    {
      if key in uidStore && uid in uidStore[key] {
        counters.LowerExpectations(key, 0, 1);
        uidStore := uidStore[key := uidStore[key] - {uid}];
      }
    }

    method DeleteExpectations(key: string)
      modifies this, counters
      ensures Contents() == Apply(old(Contents()), Operation.DeleteExpectations(key))
    {
      counters.Delete(key);
      if key in uidStore {
        uidStore := uidStore - {key};
      }
    }
  }

  // ---------------------------------------------------------------- runs

  const EMPTY: Stores := Stores(map[], map[])

  function ApplyAll(ops: seq<Operation>): Stores {
    if ops == [] then EMPTY else Apply(ApplyAll(ops[..|ops| - 1]), ops[|ops| - 1])
  }

  /**
   Whether a key still waits for a UID, read off the history alone: the last time its expectations were set they
   included the UID, and since then the UID was not observed and the expectations were not deleted.
   */
  predicate StillWaits(ops: seq<Operation>, key: string, uid: string) {
    ops != [] &&
    var last, rest := ops[|ops| - 1], ops[..|ops| - 1];
    match last
    case ExpectDeletions(k, deleted, _) => if k == key then uid in deleted else StillWaits(rest, key, uid)
    case DeletionObserved(k, u) => !(k == key && u == uid) && StillWaits(rest, key, uid)
    case DeleteExpectations(k) => k != key && StillWaits(rest, key, uid)
  }

  /** Whether the history has left expectations for a key at all. */
  predicate IsSet(ops: seq<Operation>, key: string) {
    ops != [] &&
    var last, rest := ops[|ops| - 1], ops[..|ops| - 1];
    if last.key == key && !last.DeletionObserved? then last.ExpectDeletions? else IsSet(rest, key)
  }

  /** When the expectations of a key were last set, if the history has left any. */
  function SetAt(ops: seq<Operation>, key: string): int {
    if ops == [] then 0
    else
      var last := ops[|ops| - 1];
      if last.key == key && last.ExpectDeletions? then last.now else SetAt(ops[..|ops| - 1], key)
  }

  ghost predicate Agree(s: Stores) {
    && s.counts.Keys == s.uids.Keys
    && forall key :: key in s.counts ==> s.counts[key].add == 0 && s.counts[key].del == |s.uids[key]|
  }

  lemma StepAgrees(s: Stores, op: Operation)
    requires Agree(s)
    ensures Agree(Apply(s, op))
  {
    if op.DeletionObserved? && op.key in s.uids && op.uid in s.uids[op.key] {
      assert |s.uids[op.key] - {op.uid}| == |s.uids[op.key]| - 1;
    }
  }

  /**
   After any sequence of operations the two stores agree, and the UID set holds exactly the UIDs still waited for.
   */
  lemma {:induction false} StoresAgree(ops: seq<Operation>)
    ensures Agree(ApplyAll(ops))
    ensures forall key :: key in ApplyAll(ops).uids <==> IsSet(ops, key)
    ensures forall key, uid ::
              StillWaits(ops, key, uid) <==> key in ApplyAll(ops).uids && uid in ApplyAll(ops).uids[key]
  {
    if ops != [] {
      StoresAgree(ops[..|ops| - 1]);
      StepAgrees(ApplyAll(ops[..|ops| - 1]), ops[|ops| - 1]);
    }
  }

  ghost predicate NothingAwaited(ops: seq<Operation>, key: string) {
    forall uid :: !StillWaits(ops, key, uid)
  }

  /** A key's expectations are fulfilled iff no UID is still waited for, so every deletion counts once. */
  lemma FulfilledIffNothingAwaited(ops: seq<Operation>, key: string)
    requires key in ApplyAll(ops).counts
    ensures ApplyAll(ops).counts[key].Fulfilled() <==> NothingAwaited(ops, key)
  {
    StoresAgree(ops);
    var waiting := ApplyAll(ops).uids[key];
    if waiting == {} {
      assert |waiting| == 0;
    } else {
      var uid :| uid in waiting;
      assert StillWaits(ops, key, uid);
    }
  }

  lemma {:induction false} TimestampIsLastSet(ops: seq<Operation>, key: string)
    requires IsSet(ops, key)
    ensures key in ApplyAll(ops).counts && ApplyAll(ops).counts[key].timestamp == SetAt(ops, key)
  {
    StoresAgree(ops);
    var rest, last := ops[..|ops| - 1], ops[|ops| - 1];
    if last.key != key || last.DeletionObserved? {
      TimestampIsLastSet(rest, key);
    }
  }

  /**
   When a sync may go ahead, read off the history alone: nothing was expected for the key, no UID is still waited for,
   or more than five minutes have passed since the expectations were set.
   */
  lemma SatisfiedMeaning(ops: seq<Operation>, key: string, now: int)
    ensures IsSatisfied(ApplyAll(ops).counts, key, now) <==>
            !IsSet(ops, key) || NothingAwaited(ops, key) || now - SetAt(ops, key) > 300 * 1_000_000_000
  {
    StoresAgree(ops);
    if IsSet(ops, key) {
      TimestampIsLastSet(ops, key);
      FulfilledIffNothingAwaited(ops, key);
    }
    hide NothingAwaited;
    hide ApplyAll;
    hide StillWaits;
  }
}

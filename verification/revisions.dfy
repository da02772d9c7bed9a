/**
 The revision history of a set: its order (controller_history.go), the choice of the update revision, creation under
 name collisions, and truncation (xstateful_set_control.go).
 */
module Revisions {
  import opened Prelude

  /** A ControllerRevision; data stands for the raw bytes of its patch, created for its creation time. */
  datatype Revision = Revision(name: string, number: int, created: int, data: string)

  // ---------------------------------------------------------------- the order

  /** Go's order on strings. */
  predicate StringLess(a: string, b: string) {
    b != "" && (a == "" || a[0] < b[0] || (a[0] == b[0] && StringLess(a[1..], b[1..])))
  }

  /** byRevision.Less: by number, then by creation time, then by name. */
  predicate Less(a: Revision, b: Revision) {
    if a.number == b.number then
      if a.created == b.created then StringLess(a.name, b.name) else a.created < b.created
    else a.number < b.number
  }

  lemma {:induction false} StringLessTotal(a: string, b: string)
    ensures !(StringLess(a, b) && StringLess(b, a))
    ensures a != b <==> StringLess(a, b) || StringLess(b, a)
  {
    if a != "" && b != "" {
      StringLessTotal(a[1..], b[1..]);
      assert a == [a[0]] + a[1..] && b == [b[0]] + b[1..];
    }
  }

  lemma {:induction false} StringLessTransitive(a: string, b: string, c: string)
    requires StringLess(a, b) && StringLess(b, c)
    ensures StringLess(a, c)
  {
    if a != "" && a[0] == b[0] == c[0] {
      StringLessTransitive(a[1..], b[1..], c[1..]);
    }
  }

  /** On revisions with different names byRevision is a strict total order. */
  lemma LessIsStrictTotal(a: Revision, b: Revision, c: Revision)
    ensures !(Less(a, b) && Less(b, a)) && !Less(a, a)
    ensures a.name != b.name ==> Less(a, b) || Less(b, a)
    ensures Less(a, b) && Less(b, c) ==> Less(a, c)
  {
    StringLessTotal(a.name, b.name);
    StringLessTotal(a.name, a.name);
    if StringLess(a.name, b.name) && StringLess(b.name, c.name) {
      StringLessTransitive(a.name, b.name, c.name);
    }
  }

  /** a and b agree on the first k characters, and there a ends or has the lower character. */
  predicate Differs(a: string, b: string, k: nat) {
    k <= |a| && k < |b| && a[..k] == b[..k] && (k < |a| ==> a[k] < b[k])
  }

  /** Go's order on strings, without recursion: the first difference decides. */
  lemma {:induction false} StringLessMeaning(a: string, b: string)
    ensures StringLess(a, b) <==> exists k: nat :: Differs(a, b, k)
  {
    if a != "" && b != "" && a[0] == b[0] {
      var a', b' := a[1..], b[1..];
      StringLessMeaning(a', b');
      assert a == [a[0]] + a' && b == [a[0]] + b';
      if k: nat :| Differs(a', b', k) {
        assert a[..k + 1] == [a[0]] + a'[..k] && b[..k + 1] == [a[0]] + b'[..k];
        assert Differs(a, b, k + 1);
      }
      if k: nat :| Differs(a, b, k) {
        assert a'[..k - 1] == a[..k][1..] && b'[..k - 1] == b[..k][1..];
        assert Differs(a', b', k - 1);
      }
    } else if StringLess(a, b) {
      assert Differs(a, b, 0);
    } else if k: nat :| Differs(a, b, k) {
      PrefixHead(a, b, k);
    }
  }

  lemma PrefixHead(a: string, b: string, k: nat)
    requires k <= |a| && k < |b| && a[..k] == b[..k]
    ensures k > 0 ==> a[0] == b[0]
  {
    if k > 0 {
      assert a[0] == a[..k][0] && b[0] == b[..k][0];
    }
  }

  /** byRevision puts lower numbers first, then older revisions, then lower names. */
  lemma LessMeaning(a: Revision, b: Revision)
    ensures a.number < b.number ==> Less(a, b)
    ensures a.number == b.number && a.created < b.created ==> Less(a, b)
    ensures a.number == b.number && a.created == b.created ==> (Less(a, b) <==> StringLess(a.name, b.name))
  {
  }

  predicate Sorted(rs: seq<Revision>) {
    forall i, j :: 0 <= i < j < |rs| ==> Less(rs[i], rs[j])
  }

  predicate DistinctNames(rs: seq<Revision>) {
    forall i, j :: 0 <= i < j < |rs| ==> rs[i].name != rs[j].name
  }

  function Insert(r: Revision, rs: seq<Revision>): seq<Revision> {
    if rs == [] || !Less(r, rs[|rs| - 1]) then rs + [r]
    else Insert(r, rs[..|rs| - 1]) + [rs[|rs| - 1]]
  }

  /** What sort.Stable(byRevision(rs)) does to the list. */
  function Sort(rs: seq<Revision>): seq<Revision> {
    if rs == [] then [] else Insert(rs[|rs| - 1], Sort(rs[..|rs| - 1]))
  }

  lemma {:induction false} InsertMembers(r: Revision, rs: seq<Revision>)
    ensures forall x :: x in Insert(r, rs) <==> x == r || x in rs
  {
    hide Less;
    if rs != [] && Less(r, rs[|rs| - 1]) {
      InsertMembers(r, rs[..|rs| - 1]);
      assert rs == rs[..|rs| - 1] + [rs[|rs| - 1]];
    }
  }

  lemma {:induction false} InsertSorted(r: Revision, rs: seq<Revision>)
    requires Sorted(rs) && forall x :: x in rs ==> x.name != r.name
    ensures Sorted(Insert(r, rs))
  {
    if rs != [] {
      var front, last := rs[..|rs| - 1], rs[|rs| - 1];
      LessIsStrictTotal(r, last, last);
      if Less(r, last) {
        InsertSorted(r, front);
        InsertMembers(r, front);
        var inserted := Insert(r, front);
        forall i | 0 <= i < |inserted|
          ensures Less(inserted[i], last)
        {
          assert inserted[i] in inserted;
        }
      } else {
        forall i | 0 <= i < |rs|
          ensures Less(rs[i], r)
        {
          LessIsStrictTotal(rs[i], last, r);
        }
      }
    }
  }

  lemma {:induction false} SortMembers(rs: seq<Revision>)
    ensures forall x :: x in Sort(rs) <==> x in rs
  {
    hide Less;
    if rs != [] {
      SortMembers(rs[..|rs| - 1]);
      InsertMembers(rs[|rs| - 1], Sort(rs[..|rs| - 1]));
      assert rs == rs[..|rs| - 1] + [rs[|rs| - 1]];
    }
  }

  lemma {:induction false} SortSorts(rs: seq<Revision>)
    requires DistinctNames(rs)
    ensures Sorted(Sort(rs))
  {
    if rs != [] {
      SortSorts(rs[..|rs| - 1]);
      SortMembers(rs[..|rs| - 1]);
      InsertSorted(rs[|rs| - 1], Sort(rs[..|rs| - 1]));
    }
  }

  lemma {:induction false} SortedIsUnique(a: seq<Revision>, b: seq<Revision>)
    requires Sorted(a) && Sorted(b)
    requires forall x :: x in a <==> x in b
    ensures a == b
  {
    assert b != [] ==> b[0] in a;
    if a != [] {
      assert a[0] in b && b[0] in a;
      LessIsStrictTotal(a[0], b[0], b[0]);
      assert a[0] == b[0];
      forall x
        ensures x in a[1..] <==> x in b[1..]
      {
        SortedTail(a, x);
        SortedTail(b, x);
      }
      SortedIsUnique(a[1..], b[1..]);
      assert a == [a[0]] + a[1..] && b == [b[0]] + b[1..];
    }
  }

  lemma SortedTail(a: seq<Revision>, x: Revision)
    requires Sorted(a) && a != []
    ensures x in a[1..] <==> x in a && x != a[0]
  {
    assert a == [a[0]] + a[1..];
    if x in a[1..] {
      LessIsStrictTotal(a[0], x, x);
    }
  }

  /** The order of a sorted history does not depend on the order in which its revisions are listed. */
  lemma SortForgetsListing(a: seq<Revision>, b: seq<Revision>)
    requires DistinctNames(a) && DistinctNames(b) && forall x :: x in a <==> x in b
    ensures Sort(a) == Sort(b)
  {
    SortSorts(a);
    SortSorts(b);
    SortMembers(a);
    SortMembers(b);
    SortedIsUnique(Sort(a), Sort(b));
  }

  // ---------------------------------------------------------------- choosing the update revision

  /** FindEqualRevisions. */
  function EqualTo(rs: seq<Revision>, data: string): seq<Revision> {
    if rs == [] then []
    else EqualTo(rs[..|rs| - 1], data) + if rs[|rs| - 1].data == data then [rs[|rs| - 1]] else []
  }

  /** nextRevision, on a sorted history. */
  function NextNumber(sorted: seq<Revision>): int {
    if sorted == [] then 1 else sorted[|sorted| - 1].number + 1
  }

  /** Keep the newest revision, roll back to an older one under a new number, or create one. */
  datatype Choice = Keep(r: Revision) | RollBack(r: Revision, number: int) | CreateNew(number: int)

  /** matches(r) says whether r would restore to the same set although its data differ. */
  function Choose(sorted: seq<Revision>, data: string, matches: Revision -> bool): Choice {
    var equal := EqualTo(sorted, data);
    var n := |sorted|;
    if equal != [] && n > 0 && sorted[n - 1].data == equal[|equal| - 1].data then Keep(sorted[n - 1])
    else if equal != [] then RollBack(equal[|equal| - 1], NextNumber(sorted))
    else if n > 0 && matches(sorted[n - 1]) then Keep(sorted[n - 1])
    else CreateNew(NextNumber(sorted))
  }

  lemma {:induction false} EqualMembers(rs: seq<Revision>, data: string)
    ensures forall x :: x in EqualTo(rs, data) <==> x in rs && x.data == data
    ensures Sorted(rs) ==> Sorted(EqualTo(rs, data))
  {
    hide Less;
    if rs != [] {
      var front := rs[..|rs| - 1];
      EqualMembers(front, data);
      assert rs == front + [rs[|rs| - 1]];
      var equal := EqualTo(front, data);
      assert forall i :: 0 <= i < |equal| ==> equal[i] in equal;
    }
  }

  /** r comes last in byRevision order among the given revisions that satisfy p. */
  ghost predicate Newest(rs: seq<Revision>, r: Revision) {
    r in rs && forall x :: x in rs ==> x == r || Less(x, r)
  }

  lemma LastIsNewest(sorted: seq<Revision>)
    requires Sorted(sorted) && sorted != []
    ensures Newest(sorted, sorted[|sorted| - 1])
  {
    hide Less;
  }

  /**
   What the choice means for a sorted history: the newest revision stays if its data are the proposed ones, or if no
   revision has them and it matches; otherwise the newest revision with the proposed data is rolled back to, and a
   revision is created only if none has them. New numbers exceed all old ones.
   */
  lemma ChoiceMeaning(sorted: seq<Revision>, data: string, matches: Revision -> bool)
    requires Sorted(sorted)
    ensures match Choose(sorted, data, matches)
            case Keep(r) =>
              Newest(sorted, r) && (r.data == data || (matches(r) && forall x :: x in sorted ==> x.data != data))
            case RollBack(r, number) =>
              && Newest(EqualTo(sorted, data), r) && r.data == data
              && (forall x :: x in sorted ==> x.number < number)
              && (exists x :: Newest(sorted, x) && number == x.number + 1)
              && !(exists x :: Newest(sorted, x) && x.data == data)
            case CreateNew(number) =>
              && (forall x :: x in sorted ==> x.data != data && x.number < number)
              && (if sorted == [] then number == 1 else exists x :: Newest(sorted, x) && number == x.number + 1)
              && !(exists x :: Newest(sorted, x) && matches(x))
  {
    EqualMembers(sorted, data);
    var equal := EqualTo(sorted, data);
    assert forall x :: x in equal ==> x in sorted;
    assert equal != [] ==> equal[|equal| - 1] in equal;
    assert sorted == [] ==> forall x :: !Newest(sorted, x);
    if sorted != [] {
      OnlyLastIsNewest(sorted);
      NumbersBelowNext(sorted);
    }
    if equal != [] {
      OnlyLastIsNewest(equal);
    }
    hide Less;
    hide Newest;
    hide Sorted;
    hide EqualTo;
  }

  lemma OnlyLastIsNewest(sorted: seq<Revision>)
    requires Sorted(sorted) && sorted != []
    ensures forall x :: Newest(sorted, x) <==> x == sorted[|sorted| - 1]
  {
    LastIsNewest(sorted);
    var last := sorted[|sorted| - 1];
    forall x | Newest(sorted, x)
      ensures x == last
    {
      LessIsStrictTotal(x, last, last);
    }
  }

  lemma NumbersBelowNext(sorted: seq<Revision>)
    requires Sorted(sorted) && sorted != []
    ensures forall x :: x in sorted ==> x.number < NextNumber(sorted)
  {
    LastIsNewest(sorted);
  }

  /** Once the update revision is the newest and has the proposed data, or matches, choosing again keeps it. */
  lemma ChoosingAgainKeeps(sorted: seq<Revision>, data: string, matches: Revision -> bool, r: Revision)
    requires Sorted(sorted) && Newest(sorted, r)
    requires r.data == data || (matches(r) && forall x :: x in sorted ==> x.data != data)
    ensures Choose(sorted, data, matches) == Keep(r)
  {
    EqualMembers(sorted, data);
    var equal, last := EqualTo(sorted, data), sorted[|sorted| - 1];
    LastIsNewest(sorted);
    LessIsStrictTotal(r, last, last);
    assert equal != [] ==> equal[|equal| - 1] in equal;
  }

  method FindEqualRevisions(rs: seq<Revision>, data: string) returns (equal: seq<Revision>)
    ensures equal == EqualTo(rs, data)
  {
    equal := [];
    for i := 0 to |rs|
      invariant equal == EqualTo(rs[..i], data)
    {
      assert rs[..i + 1][..i] == rs[..i];
      if rs[i].data == data {
        equal := equal + [rs[i]];
      }
    }
    assert rs[..|rs|] == rs;
  }

  // ---------------------------------------------------------------- the store

  /**
   Answer to one attempt at updating a revision. After a conflict the source goes on with what the failed call
   returned, if anything, or rather with what the cache holds under that name, if anything.
   */
  datatype UpdateAnswer = Updated | Conflict(returned: Option<Revision>, cached: string -> Option<Revision>) | Refused

  /** Outcome of the calls a sync makes on the store; updates are the answers to as many attempts as are made. */
  datatype StoreApi = StoreApi(
    createFails: int -> bool,
    getFails: int -> bool,
    deleteFails: string -> bool,
    updates: seq<UpdateAnswer>,
    now: int)

  // ---------------------------------------------------------------- updating under conflicts

  /** What is known of an update when no attempt follows: the copy worked on, and whether it was written. */
  datatype UpdateRun = UpdateRun(ok: bool, clone: Revision, written: bool)

  /** The copy after an attempt that met a conflict. */
  function Reread(clone: Revision, number: int, a: UpdateAnswer): Revision
    requires a.Conflict?
  {
    var r := if a.returned.Some? then a.returned.value else clone.(number := number);
    if a.cached(r.name).Some? then a.cached(r.name).value else r
  }

  /**
   The attempts of UpdateControllerRevision, about to make the first of answers. The API server refuses an update of a
   revision that is not stored, so of one without a name, whatever else it would answer.
   */
  function Attempts(clone: Revision, number: int, answers: seq<UpdateAnswer>, stored: set<string>): UpdateRun
    decreases answers
  {
    if answers == [] then UpdateRun(false, clone, false)
    else if clone.number == number then UpdateRun(true, clone, false)
    else if clone.name !in stored || answers[0].Refused? then UpdateRun(false, clone.(number := number), false)
    else if answers[0].Updated? then UpdateRun(true, clone.(number := number), true)
    else Attempts(Reread(clone, number, answers[0]), number, answers[1..], stored)
  }

  /** The copy after k conflicts. */
  function CopyAfter(clone: Revision, number: int, answers: seq<UpdateAnswer>, k: nat): Revision
    decreases k
  {
    if k == 0 || answers == [] || !answers[0].Conflict? then clone
    else CopyAfter(Reread(clone, number, answers[0]), number, answers[1..], k - 1)
  }

  /** There are answers for attempt k, and each earlier one met a conflict over a copy that is stored. */
  ghost predicate Retried(clone: Revision, number: int, answers: seq<UpdateAnswer>, stored: set<string>, k: nat) {
    && k < |answers|
    && forall j: nat :: j < k ==> answers[j].Conflict? && CopyAfter(clone, number, answers, j).name in stored
  }

  /** Attempt k is made and writes its copy. */
  ghost predicate Writes(clone: Revision, number: int, answers: seq<UpdateAnswer>, stored: set<string>, k: nat) {
    && Retried(clone, number, answers, stored, k)
    && (forall j: nat :: j <= k ==> CopyAfter(clone, number, answers, j).number != number)
    && answers[k].Updated? && CopyAfter(clone, number, answers, k).name in stored
  }

  /** Attempt k finds that its copy has the wanted number already. */
  ghost predicate Swallows(clone: Revision, number: int, answers: seq<UpdateAnswer>, stored: set<string>, k: nat) {
    Retried(clone, number, answers, stored, k) && CopyAfter(clone, number, answers, k).number == number
  }

  /** What is true of attempt k + 1 here is true of attempt k after the first conflict. */
  lemma AttemptShift(clone: Revision, number: int, answers: seq<UpdateAnswer>, stored: set<string>, k: nat)
    requires answers != [] && answers[0].Conflict? && clone.name in stored && clone.number != number
    ensures var next, rest := Reread(clone, number, answers[0]), answers[1..];
            && CopyAfter(clone, number, answers, k + 1) == CopyAfter(next, number, rest, k)
            && (Writes(clone, number, answers, stored, k + 1) <==> Writes(next, number, rest, stored, k))
            && (Swallows(clone, number, answers, stored, k + 1) <==> Swallows(next, number, rest, stored, k))
  {
    var next, rest := Reread(clone, number, answers[0]), answers[1..];
    assert CopyAfter(clone, number, answers, 0) == clone;
    assert forall j: nat :: j > 0 ==> CopyAfter(clone, number, answers, j) == CopyAfter(next, number, rest, j - 1);
    hide CopyAfter;
    RetriedShift(clone, number, answers, stored, k);
    hide Retried;
    if Writes(clone, number, answers, stored, k + 1) {
      forall j: nat | j <= k
        ensures CopyAfter(next, number, rest, j).number != number
      {
        assert CopyAfter(clone, number, answers, j + 1).number != number;
      }
    }
  }

  lemma RetriedShift(clone: Revision, number: int, answers: seq<UpdateAnswer>, stored: set<string>, k: nat)
    requires answers != [] && answers[0].Conflict? && clone.name in stored
    ensures Retried(clone, number, answers, stored, k + 1) <==>
            Retried(Reread(clone, number, answers[0]), number, answers[1..], stored, k)
  {
    var next, rest := Reread(clone, number, answers[0]), answers[1..];
    assert CopyAfter(clone, number, answers, 0) == clone;
    assert forall j: nat :: j > 0 ==> CopyAfter(clone, number, answers, j) == CopyAfter(next, number, rest, j - 1);
    hide CopyAfter;
    hide Reread;
    if Retried(clone, number, answers, stored, k + 1) {
      forall j: nat | j < k
        ensures rest[j].Conflict? && CopyAfter(next, number, rest, j).name in stored
      {
        assert answers[j + 1].Conflict? && CopyAfter(clone, number, answers, j + 1).name in stored;
      }
    }
  }

  /**
   What the attempts come to, exactly and for any answers. Something is written iff some attempt is made and writes,
   and then its copy is written under the wanted number. Success is reported without a write iff after some number of
   conflicts the copy has the wanted number already. Nothing else is a success.
   */
  lemma {:induction false} AttemptsMeaning(
    clone: Revision, number: int, answers: seq<UpdateAnswer>, stored: set<string>)
    ensures var run := Attempts(clone, number, answers, stored);
            && (run.written ==> run.ok)
            && (run.ok ==> run.clone.number == number)
            && (run.written <==> exists k: nat :: Writes(clone, number, answers, stored, k))
            && (run.ok && !run.written <==> exists k: nat :: Swallows(clone, number, answers, stored, k))
            && (forall k: nat :: Writes(clone, number, answers, stored, k) ==>
                  run.clone == CopyAfter(clone, number, answers, k).(number := number))
    decreases answers
  {
    var run := Attempts(clone, number, answers, stored);
    if answers == [] {
    } else if clone.number == number {
      assert CopyAfter(clone, number, answers, 0) == clone;
      assert Swallows(clone, number, answers, stored, 0);
    } else if clone.name in stored && answers[0].Conflict? {
      var next, rest := Reread(clone, number, answers[0]), answers[1..];
      AttemptsMeaning(next, number, rest, stored);
      assert CopyAfter(clone, number, answers, 0) == clone;
      forall k: nat
        ensures k > 0 ==> (Writes(clone, number, answers, stored, k) <==> Writes(next, number, rest, stored, k - 1))
        ensures k > 0 ==> (Swallows(clone, number, answers, stored, k) <==> Swallows(next, number, rest, stored, k - 1))
        ensures k > 0 ==> CopyAfter(clone, number, answers, k) == CopyAfter(next, number, rest, k - 1)
      {
        if k > 0 {
          AttemptShift(clone, number, answers, stored, k - 1);
        }
      }
      if k: nat :| Writes(next, number, rest, stored, k) {
        AttemptShift(clone, number, answers, stored, k);
      }
      if k: nat :| Swallows(next, number, rest, stored, k) {
        AttemptShift(clone, number, answers, stored, k);
      }
    } else {
      assert CopyAfter(clone, number, answers, 0) == clone;
      if run.written {
        assert Writes(clone, number, answers, stored, 0);
      }
    }
  }

  /** So the revision handed in is written under the wanted number iff the attempt that writes has a copy of it. */
  lemma WritesWhatWasAsked(r: Revision, number: int, answers: seq<UpdateAnswer>, stored: set<string>)
    ensures Attempts(r, number, answers, stored) == UpdateRun(true, r.(number := number), true) <==>
            exists k: nat :: Writes(r, number, answers, stored, k) &&
                             CopyAfter(r, number, answers, k).(number := number) == r.(number := number)
  {
    AttemptsMeaning(r, number, answers, stored);
    hide Attempts;
    hide Writes;
    hide Swallows;
    hide CopyAfter;
  }

  /**
   A conflict after which the source goes on with the revision as it was listed, or with a copy that cannot be written
   and does not pass for written: such is the empty object that a generated client returns beside an error.
   */
  ghost predicate RereadsStored(a: UpdateAnswer, r: Revision, number: int, stored: set<string>) {
    a.Conflict? ==> var c := Reread(r, number, a); c == r || (c.name !in stored && c.number != number)
  }

  /**
   If every conflict is of that kind, success means that r was written under the new number; and it is reached iff
   every conflict before the write leads back to r.
   */
  lemma {:induction false} SuccessIsWritten(r: Revision, number: int, answers: seq<UpdateAnswer>, stored: set<string>)
    requires r.number != number && r.name in stored
    requires forall a :: a in answers ==> RereadsStored(a, r, number, stored)
    ensures var run := Attempts(r, number, answers, stored);
            run.ok ==> run == UpdateRun(true, r.(number := number), true)
    ensures Attempts(r, number, answers, stored).ok <==>
            exists k :: 0 <= k < |answers| && answers[k].Updated? &&
                        forall j :: 0 <= j < k ==> answers[j].Conflict? && Reread(r, number, answers[j]) == r
    decreases answers
  {
    if answers != [] && answers[0].Conflict? {
      assert answers[0] in answers;
      var rest := answers[1..];
      assert forall j :: 0 < j < |answers| ==> answers[j] == rest[j - 1];
      assert forall j :: 0 <= j < |rest| ==> rest[j] == answers[j + 1];
      if Reread(r, number, answers[0]) == r {
        SuccessIsWritten(r, number, rest, stored);
      }
    }
  }

  lemma FreshSuccess(r: Revision, number: int, answers: seq<UpdateAnswer>, stored: set<string>)
    requires forall a :: a in answers ==> RereadsStored(a, r, number, stored)
    ensures var run := Attempts(r, number, answers, stored);
            run.ok ==> run.clone == r.(number := number) && (run.written <==> r.number != number)
  {
    if r.number != number && r.name in stored {
      SuccessIsWritten(r, number, answers, stored);
    }
  }

  /**
   An input that makes success mean nothing: after any number of conflicts that lead back to r, one that returns no
   object while the cache holds none. The next attempt takes the copy that was not written for done.
   */
  lemma {:induction false} ConflictSwallowsUpdate(
    r: Revision, number: int, before: seq<UpdateAnswer>, a: UpdateAnswer, answers: seq<UpdateAnswer>,
    stored: set<string>)
    requires r.number != number && r.name in stored && answers != []
    requires forall b :: b in before ==> b.Conflict? && Reread(r, number, b) == r
    requires a.Conflict? && a.returned.None? && a.cached(r.name).None?
    ensures Attempts(r, number, before + [a] + answers, stored) == UpdateRun(true, r.(number := number), false)
    decreases before
  {
    var all := before + [a] + answers;
    if before == [] {
      assert all[1..] == answers;
    } else {
      assert before[0] in before;
      assert all[1..] == before[1..] + [a] + answers;
      ConflictSwallowsUpdate(r, number, before[1..], a, answers, stored);
    }
  }

  /** An object without a stored name, as generated clients return beside an error, ends the update with an error. */
  lemma LostCopyIsRefused(
    r: Revision, number: int, a: UpdateAnswer, answers: seq<UpdateAnswer>, stored: set<string>)
    requires r.number != number && a.Conflict?
    requires Reread(r, number, a).name !in stored && Reread(r, number, a).number != number
    ensures !Attempts(r, number, [a] + answers, stored).ok
  {
    assert ([a] + answers)[1..] == answers;
  }

  /**
   What a conflict makes of the next write: the copy cached under the name goes first, then an object returned with
   the conflict; in both cases it is that copy which is written under the wanted number, not the revision handed in.
   */
  lemma ConflictRereads(r: Revision, number: int, copy: Revision, a: UpdateAnswer, stored: set<string>)
    requires r.number != number && r.name in stored && copy.number != number && copy.name in stored && a.Conflict?
    requires
      var name := if a.returned.Some? then a.returned.value.name else r.name;
      a.cached(name) == Some(copy) || (a.cached(name) == None && a.returned == Some(copy))
    ensures Attempts(r, number, [a, Updated], stored) == UpdateRun(true, copy.(number := number), true)
  {
    assert [a, Updated][1..] == [Updated];
  }

  /** A stored revision of that name has other data. */
  predicate Clashes(objects: map<string, Revision>, name: string, data: string) {
    name in objects && objects[name].data != data
  }

  /** Rolling back, a conflict leads back to the revision as it was listed, or to a copy that cannot be written. */
  ghost predicate RereadsFind(api: StoreApi, choice: Choice, stored: set<string>) {
    choice.RollBack? ==> forall a :: a in api.updates ==> RereadsStored(a, choice.r, choice.number, stored)
  }

  /** The names tried at n collisions after from, and at from itself, are all different. */
  ghost predicate NamesDiffer(nameOf: (string, int) -> string, data: string, from: int, n: nat) {
    forall p, q :: from <= p < q <= from + n ==> nameOf(data, p) != nameOf(data, q)
  }

  /** The listing is the whole store. */
  ghost predicate ListsAll(objects: map<string, Revision>, listed: seq<Revision>) {
    && DistinctNames(listed)
    && forall r :: r in listed <==> Lookup(objects, r.name) == Some(r)
  }

  /** The ControllerRevisions of a namespace on the API server. */
  class RevisionStore {
    var objects: map<string, Revision>

    predicate Valid()
      reads this
    {
      forall n :: n in objects ==> objects[n].name == n
    }

    /**
     CreateControllerRevision. nameOf gives the name for data and collision count. The source's loop need not end if
     the names repeat while there are still clashes, so as many names as there are stored revisions, and one more,
     must differ.
     */
    method CreateControllerRevision(
      number: int, data: string, collisionCount: int, nameOf: (string, int) -> string, api: StoreApi)
      returns (created: Option<Revision>, count: int)
      requires Valid()
      requires NamesDiffer(nameOf, data, collisionCount, |objects|)
      modifies this
      ensures Valid()
      ensures collisionCount <= count <= collisionCount + |old(objects)|
      ensures forall p :: collisionCount <= p < count ==> Clashes(old(objects), nameOf(data, p), data)
      ensures !Clashes(old(objects), nameOf(data, count), data) || created.None?
      ensures created.None? ==> objects == old(objects)
      ensures created.None? <==>
              if nameOf(data, count) in old(objects) then api.getFails(count) else api.createFails(count)
      ensures created.Some? ==>
                var name := nameOf(data, count);
                if name in old(objects) then
                  created.value == old(objects)[name] && created.value.data == data && objects == old(objects)
                else
                  && created.value == Revision(name, number, api.now, data)
                  && objects == old(objects)[name := created.value]
    {
      count := collisionCount;
      ghost var clashed: set<string> := {};
      while true
        invariant objects == old(objects)
        invariant collisionCount <= count && |clashed| == count - collisionCount && clashed <= objects.Keys
        invariant forall p :: collisionCount <= p < count ==> Clashes(objects, nameOf(data, p), data)
        invariant forall n :: n in clashed ==> exists p :: collisionCount <= p < count && n == nameOf(data, p)
        decreases |objects| - (count - collisionCount)
      {
        SubsetSize(clashed, objects.Keys);
        var name := nameOf(data, count);
        if name !in objects {
          if api.createFails(count) {
            return None, count;
          }
          var r := Revision(name, number, api.now, data);
          objects := objects[name := r];
          return Some(r), count;
        }
        if api.getFails(count) {
          return None, count;
        }
        if objects[name].data == data {
          return Some(objects[name]), count;
        }
        assert name !in clashed;
        clashed := clashed + {name};
        SubsetSize(clashed, objects.Keys);
        count := count + 1;
      }
    }

    /** UpdateControllerRevision, with its retries. */
    method UpdateControllerRevision(r: Revision, number: int, api: StoreApi) returns (updated: Option<Revision>)
      requires Valid()
      modifies this
      ensures Valid()
      ensures var run := Attempts(r, number, api.updates, old(objects).Keys);
              && updated == (if run.ok then Some(run.clone) else None)
              && objects == if run.written then old(objects)[run.clone.name := run.clone] else old(objects)
    {
      var clone := r;
      for i := 0 to |api.updates|
        invariant Attempts(r, number, api.updates, old(objects).Keys) ==
                  Attempts(clone, number, api.updates[i..], old(objects).Keys)
        invariant objects == old(objects)
      {
        assert api.updates[i..][1..] == api.updates[i + 1..];
        if clone.number == number {
          return Some(clone);
        }
        clone := clone.(number := number);
        if clone.name !in objects {
          return None;
        }
        match api.updates[i]
        case Updated =>
          objects := objects[clone.name := clone];
          return Some(clone);
        case Refused =>
          return None;
        case Conflict(returned, cached) =>
          if returned.Some? {
            clone := returned.value;
          }
          if cached(clone.name).Some? {
            clone := cached(clone.name).value;
          }
      }
      return None;
    }

    /** The four branches of getStatefulSetRevisions, on a sorted history. */
    method CarryOut(
      sorted: seq<Revision>, data: string, collisionCount: int,
      nameOf: (string, int) -> string, matches: Revision -> bool, api: StoreApi)
      returns (update: Option<Revision>, count: int)
      requires Valid()
      requires NamesDiffer(nameOf, data, collisionCount, |objects|)
      modifies this
      ensures Valid()
      ensures update.None? ==> objects == old(objects)
      ensures update.None? <==>
              ChoiceFails(old(objects), Choose(sorted, data, matches), nameOf(data, count), count, api)
      ensures update.Some? && RereadsFind(api, Choose(sorted, data, matches), old(objects).Keys) ==>
                CarriedOut(old(objects), Choose(sorted, data, matches), data, update.value, objects)
      ensures if Choose(sorted, data, matches).CreateNew?
              then CountsClashes(old(objects), nameOf, data, collisionCount, count, update)
              else count == collisionCount
    {
      count := collisionCount;
      var number := NextNumber(sorted);
      var equal := FindEqualRevisions(sorted, data);
      hide EqualTo;
      if equal != [] && |sorted| > 0 && sorted[|sorted| - 1].data == equal[|equal| - 1].data {
        update := Some(sorted[|sorted| - 1]);
      } else if equal != [] {
        update := UpdateControllerRevision(equal[|equal| - 1], number, api);
        AttemptsMeaning(equal[|equal| - 1], number, api.updates, old(objects).Keys);
        if RereadsFind(api, Choose(sorted, data, matches), old(objects).Keys) {
          FreshSuccess(equal[|equal| - 1], number, api.updates, old(objects).Keys);
        }
      } else if |sorted| > 0 && matches(sorted[|sorted| - 1]) {
        update := Some(sorted[|sorted| - 1]);
      } else {
        update, count := CreateControllerRevision(number, data, collisionCount, nameOf, api);
      }
    }

    /**
     getStatefulSetRevisions. When the listing is the whole store and rereads find what was listed, the returned
     update revision is the newest one of the resulting store and has the proposed data, or no stored revision has
     them and it matched.
     */
    method GetStatefulSetRevisions(
      listed: seq<Revision>, data: string, currentName: string, collisionCount: int,
      nameOf: (string, int) -> string, matches: Revision -> bool, api: StoreApi)
      returns (update: Option<Revision>, current: Option<Revision>, count: int)
      requires Valid() && DistinctNames(listed)
      requires NamesDiffer(nameOf, data, collisionCount, |objects|)
      modifies this
      ensures Valid()
      ensures update.None? ==> objects == old(objects) && current.None?
      ensures update.None? <==>
              ChoiceFails(old(objects), Choose(Sort(listed), data, matches), nameOf(data, count), count, api)
      ensures if Choose(Sort(listed), data, matches).CreateNew?
              then CountsClashes(old(objects), nameOf, data, collisionCount, count, update)
              else count == collisionCount
      ensures update.Some? ==> current.Some? && IsCurrent(listed, currentName, update.value, current.value)
      ensures update.Some? && RereadsFind(api, Choose(Sort(listed), data, matches), old(objects).Keys) ==>
                CarriedOut(old(objects), Choose(Sort(listed), data, matches), data, update.value, objects)
      ensures update.Some? && ListsAll(old(objects), listed) &&
              RereadsFind(api, Choose(Sort(listed), data, matches), old(objects).Keys) ==>
                && NewestStored(objects, update.value)
                && (|| update.value.data == data
                    || (matches(update.value) && forall n :: n in objects ==> objects[n].data != data))
    {
      var sorted := Sort(listed);
      update, count := CarryOut(sorted, data, collisionCount, nameOf, matches, api);
      current := None;
      if update.None? {
        return;
      }
      current := FindCurrent(sorted, currentName, update.value);
      SortMembers(listed);
      hide Choose;
      hide CarriedOut;
      hide NewestStored;
      hide IsCurrent;
      hide ChoiceFails;
      hide CountsClashes;
      hide Sort;
      if RereadsFind(api, Choose(sorted, data, matches), old(objects).Keys) && ListsAll(old(objects), listed) {
        UpdateIsNewest(old(objects), listed, data, matches, update.value, objects);
      }
    }
  }

  /**
   The collision count has risen by one for each name found taken, and the revision has the first name that was not.
   */
  ghost predicate CountsClashes(
    before: map<string, Revision>, nameOf: (string, int) -> string, data: string, from: int, count: int,
    update: Option<Revision>)
  {
    && from <= count <= from + |before|
    && (forall p :: from <= p < count ==> Clashes(before, nameOf(data, p), data))
    && (update.Some? ==> update.value.name == nameOf(data, count) && !Clashes(before, update.value.name, data))
  }

  /** The call that a choice needs fails; keeping a revision needs none. */
  ghost predicate ChoiceFails(before: map<string, Revision>, choice: Choice, name: string, count: int, api: StoreApi) {
    match choice
    case Keep(_) => false
    case RollBack(r, number) => !Attempts(r, number, api.updates, before.Keys).ok
    case CreateNew(_) => if name in before then api.getFails(count) else api.createFails(count)
  }

  /** A listed revision with the recorded name is the current one; only without one is it the update revision. */
  ghost predicate IsCurrent(listed: seq<Revision>, name: string, update: Revision, current: Revision) {
    if exists r :: r in listed && r.name == name
    then current in listed && current.name == name
    else current == update
  }

  method FindCurrent(sorted: seq<Revision>, name: string, update: Revision) returns (current: Option<Revision>)
    ensures current.Some? && IsCurrent(sorted, name, update, current.value)
  {
    for i := 0 to |sorted|
      invariant forall j :: 0 <= j < i ==> sorted[j].name != name
    {
      if sorted[i].name == name {
        assert sorted[i] in sorted;
        return Some(sorted[i]);
      }
    }
    return Some(update);
  }

  /** What a choice that succeeds leaves in the store; nothing stored is ever overwritten by a creation. */
  ghost predicate CarriedOut(
    before: map<string, Revision>, choice: Choice, data: string, update: Revision, after: map<string, Revision>)
  {
    match choice
    case Keep(r) => update == r && after == before
    case RollBack(r, number) =>
      update == r.(number := number) && after == if r.number == number then before else before[r.name := update]
    case CreateNew(number) =>
      && update.data == data
      && (if update.name in before then update == before[update.name] && after == before
          else update.number == number && after == before[update.name := update])
  }

  lemma UpdateIsNewest(
    before: map<string, Revision>, listed: seq<Revision>, data: string, matches: Revision -> bool, update: Revision,
    after: map<string, Revision>)
    requires ListsAll(before, listed) && forall n :: n in before ==> before[n].name == n
    requires CarriedOut(before, Choose(Sort(listed), data, matches), data, update, after)
    ensures NewestStored(after, update)
    ensures update.data == data || (matches(update) && forall n :: n in after ==> after[n].data != data)
  {
    var sorted := Sort(listed);
    SortSorts(listed);
    SortMembers(listed);
    ChoiceMeaning(sorted, data, matches);
    hide Choose;
    hide Sort;
    hide Less;
    hide Sorted;
    assert forall n :: n in before ==> before[n] in sorted;
    match Choose(sorted, data, matches)
    case Keep(r) =>
      assert Lookup(before, r.name) == Some(r);
    case RollBack(r, number) =>
      EqualMembers(sorted, data);
      HighestIsNewest(before, r.(number := number));
    case CreateNew(number) =>
      HighestIsNewest(before, update);
  }

  lemma HighestIsNewest(before: map<string, Revision>, r: Revision)
    requires forall n :: n in before ==> before[n].number < r.number
    ensures NewestStored(before[r.name := r], r)
  {
  }

  /** r is stored and every other stored revision precedes it. */
  ghost predicate NewestStored(objects: map<string, Revision>, r: Revision) {
    && Lookup(objects, r.name) == Some(r)
    && forall n :: n in objects ==> objects[n] == r || Less(objects[n], r)
  }

  /**
   Choosing the update revision a second time, for an unchanged template, writes nothing and returns the same
   revision: what GetStatefulSetRevisions promises about the store it leaves is enough for the next choice to be Keep.
   */
  lemma SecondCallKeeps(
    objects: map<string, Revision>, listed: seq<Revision>, data: string, matches: Revision -> bool, r: Revision)
    requires ListsAll(objects, listed) && NewestStored(objects, r)
    requires r.data == data || (matches(r) && forall n :: n in objects ==> objects[n].data != data)
    ensures Choose(Sort(listed), data, matches) == Keep(r)
  {
    SortSorts(listed);
    SortMembers(listed);
    hide Less;
    hide Sort;
    assert forall x :: x in listed ==> Lookup(objects, x.name) == Some(x);
    assert r in listed;
    ChoosingAgainKeeps(Sort(listed), data, matches, r);
  }

  // ---------------------------------------------------------------- truncating the history

  function NonLive(rs: seq<Revision>, live: set<string>): seq<Revision> {
    if rs == [] then []
    else NonLive(rs[..|rs| - 1], live) + if rs[|rs| - 1].name in live then [] else [rs[|rs| - 1]]
  }

  /** The revisions truncateHistory sets out to delete, in order. */
  function Doomed(rs: seq<Revision>, live: set<string>, limit: int): seq<Revision> {
    var history := NonLive(rs, live);
    if limit < 0 || |history| <= limit then [] else history[..|history| - limit]
  }

  function NamesOf(rs: seq<Revision>): set<string> { set r | r in rs :: r.name }

  function LiveNames(current: Option<Revision>, update: Option<Revision>, podRevisions: seq<string>): set<string> {
    (if current.Some? then {current.value.name} else {}) +
    (if update.Some? then {update.value.name} else {}) +
    (set p | p in podRevisions)
  }

  method CollectLive(current: Option<Revision>, update: Option<Revision>, podRevisions: seq<string>)
    returns (live: set<string>)
    ensures live == LiveNames(current, update, podRevisions)
  {
    live := {};
    if current.Some? {
      live := live + {current.value.name};
    }
    if update.Some? {
      live := live + {update.value.name};
    }
    ghost var named := live;
    for i := 0 to |podRevisions|
      invariant live == named + set p | p in podRevisions[..i]
    {
      assert podRevisions[..i + 1] == podRevisions[..i] + [podRevisions[i]];
      live := live + {podRevisions[i]};
    }
    assert podRevisions[..|podRevisions|] == podRevisions;
  }

  method CollectHistory(rs: seq<Revision>, live: set<string>) returns (history: seq<Revision>)
    ensures history == NonLive(rs, live)
  {
    history := [];
    for i := 0 to |rs|
      invariant history == NonLive(rs[..i], live)
    {
      assert rs[..i + 1][..i] == rs[..i];
      if rs[i].name !in live {
        history := history + [rs[i]];
      }
    }
    assert rs[..|rs|] == rs;
  }

  /** The deletion loop: it stops at the first call that fails. */
  method DeleteInOrder(store: RevisionStore, doomed: seq<Revision>, api: StoreApi) returns (done: nat)
    requires store.Valid()
    modifies store
    ensures store.Valid() && done <= |doomed|
    ensures store.objects == old(store.objects) - NamesOf(doomed[..done])
    ensures done < |doomed| ==> api.deleteFails(doomed[done].name) || doomed[done].name !in store.objects
    ensures forall i :: 0 <= i < done ==> !api.deleteFails(doomed[i].name) && doomed[i].name in old(store.objects)
  {
    for i := 0 to |doomed|
      invariant store.Valid()
      invariant store.objects == old(store.objects) - NamesOf(doomed[..i])
      invariant forall j :: 0 <= j < i ==> !api.deleteFails(doomed[j].name) && doomed[j].name in old(store.objects)
    {
      var name := doomed[i].name;
      if name !in store.objects || api.deleteFails(name) {
        return i;
      }
      store.objects := store.objects - {name};
      assert doomed[..i + 1] == doomed[..i] + [doomed[i]];
      assert NamesOf(doomed[..i + 1]) == NamesOf(doomed[..i]) + {name};
    }
    return |doomed|;
  }

  /** truncateHistory: done counts the deletions made before an error, or all of them. */
  method TruncateHistory(
    store: RevisionStore, rs: seq<Revision>, podRevisions: seq<string>,
    current: Option<Revision>, update: Option<Revision>, limit: int, api: StoreApi)
    returns (ok: bool, done: nat)
    requires store.Valid()
    modifies store
    ensures store.Valid()
    ensures var doomed := Doomed(rs, LiveNames(current, update, podRevisions), limit);
            && done <= |doomed|
            && store.objects == old(store.objects) - NamesOf(doomed[..done])
            && (ok <==> done == |doomed|)
            && (!ok ==> api.deleteFails(doomed[done].name) || doomed[done].name !in store.objects)
            && forall i :: 0 <= i < done ==> !api.deleteFails(doomed[i].name)
    ensures forall n ::
              || n in podRevisions
              || (current.Some? && n == current.value.name)
              || (update.Some? && n == update.value.name)
              ==> Lookup(store.objects, n) == Lookup(old(store.objects), n)
  {
    LiveSurvive(rs, current, update, podRevisions, limit);
    hide NonLive;
    hide LiveNames;
    var live := CollectLive(current, update, podRevisions);
    var history := CollectHistory(rs, live);
    if limit < 0 || |history| <= limit {
      assert NamesOf([]) == {};
      return true, 0;
    }
    history := history[..|history| - limit];
    done := DeleteInOrder(store, history, api);
    ok := done == |history|;
  }

  /** No revision in use is doomed: neither the current nor the update revision, nor one that a pod runs. */
  lemma LiveSurvive(
    rs: seq<Revision>, current: Option<Revision>, update: Option<Revision>, podRevisions: seq<string>, limit: int)
    ensures forall x :: x in Doomed(rs, LiveNames(current, update, podRevisions), limit) ==>
              && x in rs && x.name !in podRevisions
              && (current.Some? ==> x.name != current.value.name)
              && (update.Some? ==> x.name != update.value.name)
  {
    var live := LiveNames(current, update, podRevisions);
    NonLiveMembers(rs, live);
    hide NonLive;
    var history := NonLive(rs, live);
    assert forall x :: x in Doomed(rs, live, limit) ==> x in history;
  }

  lemma {:induction false} NonLiveMembers(rs: seq<Revision>, live: set<string>)
    ensures forall x :: x in NonLive(rs, live) <==> x in rs && x.name !in live
    ensures Sorted(rs) ==> Sorted(NonLive(rs, live))
  {
    hide Less;
    if rs != [] {
      var front := rs[..|rs| - 1];
      NonLiveMembers(front, live);
      assert rs == front + [rs[|rs| - 1]];
      var rest := NonLive(front, live);
      assert forall i :: 0 <= i < |rest| ==> rest[i] in rest;
    }
  }

  /**
   Truncation deletes no live revision, keeps exactly min(limit, count) of the non-live ones for a limit of zero or
   more and all of them for a negative one, and every revision it deletes precedes every non-live one it keeps.
   */
  lemma TruncationIsRight(rs: seq<Revision>, live: set<string>, limit: int)
    requires Sorted(rs)
    ensures var history, doomed := NonLive(rs, live), Doomed(rs, live, limit);
            && (forall x :: x in doomed ==> x in rs && x.name !in live)
            && doomed <= history
            && |history| - |doomed| == (if limit < 0 then |history| else Min(limit, |history|))
            && forall x, y :: x in doomed && y in history[|doomed|..] ==> Less(x, y)
  {
    NonLiveMembers(rs, live);
    hide Less;
  }

  /** The revisions that are not live and newer than x. */
  function NewerNonLive(rs: seq<Revision>, live: set<string>, x: Revision): set<Revision> {
    set y | y in rs && y.name !in live && Less(x, y)
  }

  lemma {:induction false} SortedSize(rs: seq<Revision>)
    requires Sorted(rs)
    ensures |set y | y in rs| == |rs|
  {
    if rs == [] {
      assert (set y | y in rs) == {};
    } else {
      SortedSize(rs[1..]);
      forall y
        ensures y in rs[1..] <==> y in rs && y != rs[0]
      {
        SortedTail(rs, y);
      }
      assert (set y | y in rs) == (set y | y in rs[1..]) + {rs[0]};
    }
  }

  lemma LaterIsGreater(history: seq<Revision>, i: nat, j: nat)
    requires Sorted(history) && i < |history| && j < |history|
    ensures Less(history[i], history[j]) <==> i < j
  {
    LessIsStrictTotal(history[i], history[j], history[j]);
  }

  /** In a sorted list the revisions after x are those newer than x. */
  lemma NewerAreLater(history: seq<Revision>, i: nat)
    requires Sorted(history) && i < |history|
    ensures |set y | y in history && Less(history[i], y)| == |history| - 1 - i
  {
    var later := history[i + 1..];
    SortedSize(later);
    forall y
      ensures y in later <==> y in history && Less(history[i], y)
    {
      if y in history && Less(history[i], y) {
        var j :| 0 <= j < |history| && history[j] == y;
        LaterIsGreater(history, i, j);
        assert later[j - i - 1] == y;
      }
      if y in later {
        var j :| 0 <= j < |later| && later[j] == y;
        LaterIsGreater(history, i, j + i + 1);
      }
    }
    assert (set y | y in later) == (set y | y in history && Less(history[i], y));
  }

  /**
   Exactly what truncation sets out to delete: a revision that is not live and has at least limit such ones after it.
   */
  lemma DoomedExactly(rs: seq<Revision>, live: set<string>, limit: nat, x: Revision)
    requires Sorted(rs)
    ensures x in Doomed(rs, live, limit) <==>
            x in rs && x.name !in live && |NewerNonLive(rs, live, x)| >= limit
  {
    NonLiveMembers(rs, live);
    hide Less;
    hide NonLive;
    var history := NonLive(rs, live);
    assert forall y :: y in history <==> y in rs && y.name !in live;
    if x in history {
      var i :| 0 <= i < |history| && history[i] == x;
      NewerAreLater(history, i);
      assert NewerNonLive(rs, live, x) == (set y | y in history && Less(x, y));
      if x in Doomed(rs, live, limit) {
        var j :| 0 <= j < |Doomed(rs, live, limit)| && Doomed(rs, live, limit)[j] == x;
        assert history[j] == x;
        LaterIsGreater(history, i, j);
        LaterIsGreater(history, j, i);
      }
      if |history| - 1 - i >= limit {
        assert Doomed(rs, live, limit)[i] == x;
      }
    }
  }

  /**
   When choosing the update revision fails, the history is truncated all the same, with no revision known to be
   current: the one the status records is then deleted iff no pod runs it and at least limit revisions that no pod
   runs are newer.
   */
  lemma TruncationAfterFailure(rs: seq<Revision>, podRevisions: seq<string>, limit: nat, recorded: Revision)
    requires Sorted(rs) && recorded in rs
    ensures recorded in Doomed(rs, LiveNames(None, None, podRevisions), limit) <==>
            && recorded.name !in podRevisions
            && |NewerNonLive(rs, (set p | p in podRevisions), recorded)| >= limit
  {
    assert LiveNames(None, None, podRevisions) == (set p | p in podRevisions);
    DoomedExactly(rs, LiveNames(None, None, podRevisions), limit, recorded);
  }

  /**
   An input: without pods and with limit 0 a failed choice loses the whole history, the recorded revision included.
   */
  lemma FailureLosesHistory(a: Revision, b: Revision)
    ensures Doomed([a, b], LiveNames(None, None, []), 0) == [a, b]
  {
    assert LiveNames(None, None, []) == {};
    assert [a, b][..1] == [a] && [a][..0] == [];
    assert NonLive([a], {}) == NonLive([], {}) + [a];
  }

  /** What is deleted does not depend on the order in which the history is listed. */
  lemma TruncationForgetsListing(a: seq<Revision>, b: seq<Revision>, live: set<string>, limit: int)
    requires DistinctNames(a) && DistinctNames(b) && forall x :: x in a <==> x in b
    ensures Doomed(Sort(a), live, limit) == Doomed(Sort(b), live, limit)
  {
    SortForgetsListing(a, b);
  }
}

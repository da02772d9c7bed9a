/**
 slowStartBatch (xstateful_set_control.go): calls run in batches that double in size up to a cap, and the first batch
 with a failure is the last. fails[i] says whether the i-th call returns an error.
 */
module SlowStart {
  import opened Prelude

  const MAX_BATCH_SIZE: nat := 500

  /** How many of the calls from..to fail. */
  function Failures(fails: seq<bool>, from: nat, to: nat): (n: nat)
    requires from <= to <= |fails|
    ensures n <= to - from
    ensures n == 0 <==> forall i :: from <= i < to ==> !fails[i]
  {
    if from == to then 0 else Failures(fails, from, to - 1) + if fails[to - 1] then 1 else 0
  }

  function NextBatch(batch: nat, remaining: nat): nat {
    Min(Min(2 * batch, remaining), MAX_BATCH_SIZE)
  }

  /** Calls made, batches started, and the position at which the last batch started. */
  datatype Extent = Extent(called: nat, batches: nat, lastStart: nat)

  /** How far a run gets that is about to start a batch at position from. */
  function Reach(fails: seq<bool>, from: nat, batch: nat): (e: Extent)
    requires from + batch <= |fails|
    ensures from <= e.lastStart <= e.called <= |fails|
    ensures e.batches == 0 ==> e.lastStart == from
    decreases |fails| - from
  {
    if batch == 0 then Extent(from, 0, from)
    else if Failures(fails, from, from + batch) > 0 then Extent(from + batch, 1, from)
    else
      var e := Reach(fails, from + batch, NextBatch(batch, |fails| - from - batch));
      Extent(e.called, e.batches + 1, if e.batches == 0 then from else e.lastStart)
  }

  function Run(fails: seq<bool>, initial: nat): Extent {
    Reach(fails, 0, Min(|fails|, initial))
  }

  /** The numbers from..to as a set. */
  function Range(from: nat, to: nat): (s: set<nat>)
    requires from <= to
    ensures |s| == to - from
    ensures forall i :: i in s <==> from <= i < to
  {
    if from == to then {} else Range(from, to - 1) + {to - 1}
  }

  /** calls holds each number from..to exactly once, in some order. */
  ghost predicate EachOnce(calls: seq<nat>, from: nat, to: nat)
    requires from <= to
  {
    multiset(calls) == multiset(Range(from, to))
  }

  lemma EachOnceConcat(a: seq<nat>, b: seq<nat>, from: nat, mid: nat, to: nat)
    requires from <= mid <= to && EachOnce(a, from, mid) && EachOnce(b, mid, to)
    ensures EachOnce(a + b, from, to)
  {
    assert Range(from, to) == Range(from, mid) + Range(mid, to);
  }

  /**
   The source's loop. Inside a batch the calls run concurrently: here they are made in any order. calls records the
   index of every call in the order it was made: each index of a prefix exactly once. batches counts the batches and
   lastStart is where the last of them began.
   */
  method SlowStartBatch(initial: nat, fails: seq<bool>)
    returns (successes: nat, failures: nat, calls: seq<nat>, batches: nat, lastStart: nat)
    ensures Extent(|calls|, batches, lastStart) == Run(fails, initial)
    ensures EachOnce(calls, 0, |calls|)
    ensures failures == Failures(fails, 0, |calls|)
    ensures successes + failures == |calls|
  {
    hide EachOnce;
    hide Reach;
    NothingYet();
    ReachDone(fails);
    var j := 0;
    successes, failures, calls := 0, 0, [];
    batches, lastStart := 0, 0;
    var batch: nat := Min(|fails|, initial);
    while batch > 0
      invariant j == |calls| && j + batch <= |fails|
      invariant batches == 0 ==> j == lastStart == 0
      invariant var e := Reach(fails, j, batch);
                Extent(e.called, batches + e.batches, if e.batches == 0 then lastStart else e.lastStart) ==
                Run(fails, initial)
      invariant EachOnce(calls, 0, j)
      invariant failures == 0 == Failures(fails, 0, j)
      invariant successes == j
      decreases |fails| - j
    {
      ReachStep(fails, j, batch);
      var errors, made := RunBatch(fails, j, batch);
      FailuresSplit(fails, 0, j, j + batch);
      EachOnceConcat(calls, made, 0, j, j + batch);
      calls := calls + made;
      batches, lastStart := batches + 1, j;
      j := j + batch;
      successes := successes + (batch - errors);
      failures := errors;
      if errors > 0 {
        return;
      }
      batch := NextBatch(batch, |fails| - j);
    }
  }

  lemma ReachStep(fails: seq<bool>, from: nat, batch: nat)
    requires 0 < batch && from + batch <= |fails|
    ensures Reach(fails, from, batch) ==
            if Failures(fails, from, from + batch) > 0 then Extent(from + batch, 1, from)
            else
              var e := Reach(fails, from + batch, NextBatch(batch, |fails| - from - batch));
              Extent(e.called, e.batches + 1, if e.batches == 0 then from else e.lastStart)
  {
  }

  lemma ReachDone(fails: seq<bool>)
    ensures forall from :: 0 <= from <= |fails| ==> Reach(fails, from, 0) == Extent(from, 0, from)
  {
  }

  lemma NothingYet()
    ensures EachOnce([], 0, 0)
  {
  }

  /** One batch: every index of it is called once, in an order that is not determined. */
  method RunBatch(fails: seq<bool>, start: nat, batch: nat) returns (errors: nat, made: seq<nat>)
    requires start + batch <= |fails|
    ensures |made| == batch
    ensures EachOnce(made, start, start + batch)
    ensures errors == Failures(fails, start, start + batch)
  {
    hide Divided;
    hide EachOnce;
    hide Failures;
    hide Failing;
    var pending := Range(start, start + batch);
    errors, made := 0, [];
    DividedStart(fails, start, start + batch);
    while pending != {}
      invariant Divided(fails, made, pending, start, start + batch, errors)
      decreases |pending|
    {
      var i :| i in pending;
      TakeOne(fails, made, pending, start, start + batch, errors, i);
      if fails[i] {
        errors := errors + 1;
      }
      made := made + [i];
      pending := pending - {i};
    }
    DividedEnd(fails, made, start, start + batch, errors);
  }

  /** Each number from..to is either in made, once, or pending; errors counts the failing ones in made. */
  ghost predicate Divided(fails: seq<bool>, made: seq<nat>, pending: set<nat>, from: nat, to: nat, errors: nat)
    requires from <= to <= |fails|
  {
    && pending <= Range(from, to)
    && multiset(made) + multiset(pending) == multiset(Range(from, to))
    && errors == |Failing(fails, from, to) - pending|
  }

  lemma DividedStart(fails: seq<bool>, from: nat, to: nat)
    requires from <= to <= |fails|
    ensures Divided(fails, [], Range(from, to), from, to, 0)
  {
    var none: seq<nat> := [];
    assert multiset(none) == multiset{};
    assert Failing(fails, from, to) - Range(from, to) == {};
  }

  lemma DividedEnd(fails: seq<bool>, made: seq<nat>, from: nat, to: nat, errors: nat)
    requires from <= to <= |fails| && Divided(fails, made, {}, from, to, errors)
    ensures EachOnce(made, from, to) && |made| == to - from
    ensures errors == Failures(fails, from, to)
  {
    var none: set<nat> := {};
    assert multiset(none) == multiset{};
    assert |made| == |multiset(made)| == |multiset(Range(from, to))|;
    assert Failing(fails, from, to) - {} == Failing(fails, from, to);
    FailingSize(fails, from, to);
  }

  lemma TakeOne(fails: seq<bool>, made: seq<nat>, pending: set<nat>, from: nat, to: nat, errors: nat, i: nat)
    requires from <= to <= |fails| && i in pending && Divided(fails, made, pending, from, to, errors)
    ensures i < to
    ensures Divided(fails, made + [i], pending - {i}, from, to, errors + if fails[i] then 1 else 0)
  {
    var failing := Failing(fails, from, to);
    assert failing - (pending - {i}) == (failing - pending) + if i in failing then {i} else {};
    assert multiset(pending) == multiset(pending - {i}) + multiset{i};
  }

  ghost function Failing(fails: seq<bool>, from: nat, to: nat): set<nat>
    requires from <= to <= |fails|
  {
    set i: nat | from <= i < to && fails[i]
  }

  lemma {:induction false} FailingSize(fails: seq<bool>, from: nat, to: nat)
    requires from <= to <= |fails|
    ensures |Failing(fails, from, to)| == Failures(fails, from, to)
  {
    if from == to {
      assert Failing(fails, from, to) == {};
    } else {
      FailingSize(fails, from, to - 1);
      assert Failing(fails, from, to) == Failing(fails, from, to - 1) + if fails[to - 1] then {to - 1} else {};
    }
  }

  lemma {:induction false} FailuresSplit(fails: seq<bool>, from: nat, mid: nat, to: nat)
    requires from <= mid <= to <= |fails|
    ensures Failures(fails, from, to) == Failures(fails, from, mid) + Failures(fails, mid, to)
  {
    if mid < to {
      FailuresSplit(fails, from, mid, to - 1);
    }
  }

  /**
   What a run amounts to. Every failing call lies in the last batch, that batch is at most as large as everything
   called before it plus the initial size, and without a failure everything is called.
   */
  lemma RunIsBounded(fails: seq<bool>, initial: nat)
    requires initial > 0
    ensures var e := Run(fails, initial);
            && Failures(fails, 0, e.lastStart) == 0
            && Failures(fails, 0, e.called) <= e.lastStart + initial
            && (e.called == |fails| || Failures(fails, 0, e.called) > 0)
            && (Failures(fails, 0, |fails|) == 0 ==> e.called == |fails|)
  {
    ReachIsBounded(fails, initial, 0, Min(|fails|, initial));
    var e := Run(fails, initial);
    FailuresSplit(fails, 0, e.lastStart, e.called);
    FailuresSplit(fails, 0, e.called, |fails|);
  }

  lemma {:induction false} ReachIsBounded(fails: seq<bool>, initial: nat, from: nat, batch: nat)
    requires from + batch <= |fails| && batch <= from + initial
    requires batch == 0 ==> from == |fails|
    requires Failures(fails, 0, from) == 0
    ensures var e := Reach(fails, from, batch);
            && Failures(fails, 0, e.lastStart) == 0
            && e.called <= e.lastStart + e.lastStart + initial
            && (e.called == |fails| || Failures(fails, 0, e.called) > 0)
    decreases |fails| - from
  {
    FailuresSplit(fails, 0, from, from + batch);
    if batch > 0 && Failures(fails, from, from + batch) == 0 {
      ReachIsBounded(fails, initial, from + batch, NextBatch(batch, |fails| - from - batch));
    }
  }

  function FloorLog2(n: nat): nat
    requires n > 0
  {
    if n == 1 then 0 else 1 + FloorLog2(n / 2)
  }

  function CeilDiv(n: nat, d: nat): nat
    requires d > 0
  {
    (n + d - 1) / d
  }

  /**
   The number of batches of an error-free run with initial size 1. The comment on SlowStartInitialBatchSize gives the
   first form for every size and ignores the cap on the batch size; CommentIsRight says for which sizes it is right.
   */
  function BatchTotal(n: nat): nat {
    if n == 0 then 0
    else if n <= 1011 then 1 + FloorLog2(n)
    else 9 + CeilDiv(n - 511, MAX_BATCH_SIZE)
  }

  lemma BatchesOfCleanRun(fails: seq<bool>)
    requires Failures(fails, 0, |fails|) == 0
    ensures Run(fails, 1).batches == BatchTotal(|fails|)
  {
    DoublingBatches(fails, 0, 0);
  }

  /**
   The documented number of batches is the real one exactly up to 1011 calls, and by coincidence from 1024 to 1511.
   */
  lemma CommentIsRight(n: nat)
    requires n >= 1
    ensures BatchTotal(n) == 1 + FloorLog2(n) <==> n <= 1011 || 1024 <= n <= 1511
  {
    PowersUsed();
    if 1012 <= n < 1024 {
      Log2Of(n, 9);
    } else if 1024 <= n <= 1511 {
      Log2Of(n, 10);
    } else if n >= 1512 {
      LogFallsBehind(n);
    }
  }

  lemma {:induction false} LogFallsBehind(n: nat)
    requires n >= 1512
    ensures 500 * (FloorLog2(n) - 8) < n - 511
  {
    PowersUsed();
    if n < 2048 {
      Log2Of(n, 10);
    } else if n < 3024 {
      Log2Of(n, 11);
    } else {
      LogFallsBehind(n / 2);
    }
  }

  function Pow2(k: nat): nat { if k == 0 then 1 else 2 * Pow2(k - 1) }

  lemma {:induction false} Log2Of(n: nat, k: nat)
    requires Pow2(k) <= n < 2 * Pow2(k)
    ensures n > 0 && FloorLog2(n) == k
  {
    if k > 0 {
      Log2Of(n / 2, k - 1);
    }
  }

  lemma {:induction false} PowMonotone(a: nat, b: nat)
    requires a <= b
    ensures 0 < Pow2(a) <= Pow2(b)
    decreases b
  {
    if a < b {
      PowMonotone(a, b - 1);
    } else if b > 0 {
      PowMonotone(a - 1, b - 1);
    }
  }

  lemma PowersUsed()
    ensures Pow2(8) == 256 && Pow2(9) == 512
  {
    assert Pow2(3) == 8;
    assert Pow2(6) == 64;
  }

  /** The first nine batches, of sizes 1, 2, 4 and so on up to 256. */
  lemma {:induction false} DoublingBatches(fails: seq<bool>, from: nat, k: nat)
    requires k <= 9 && from == Pow2(k) - 1 <= |fails|
    requires Failures(fails, 0, |fails|) == 0
    ensures var batch := Min(Min(from + 1, |fails| - from), MAX_BATCH_SIZE);
            Reach(fails, from, batch).batches == if from == |fails| then 0 else BatchTotal(|fails|) - k
    decreases 9 - k
  {
    hide Reach;
    hide Failures;
    hide BatchTotal;
    hide FloorLog2;
    ReachDone(fails);
    if k == 9 {
      PowersUsed();
      LastBatches(fails);
    } else if from < |fails| {
      PowersUsed();
      PowMonotone(k, 8);
      DoublingStep(fails, from);
      if |fails| > 2 * from + 1 {
        DoublingBatches(fails, 2 * from + 1, k + 1);
      } else {
        TotalWithin(|fails|, k);
      }
    }
  }

  lemma TotalWithin(n: nat, k: nat)
    requires k < 9 && Pow2(k) <= n < 2 * Pow2(k)
    ensures BatchTotal(n) == k + 1
  {
    Log2Of(n, k);
    PowersUsed();
    PowMonotone(k, 8);
  }

  lemma DoublingStep(fails: seq<bool>, from: nat)
    requires from < 256 && from < |fails|
    requires Failures(fails, 0, |fails|) == 0
    ensures var n := |fails|;
            var batch := Min(Min(from + 1, n - from), MAX_BATCH_SIZE);
            Reach(fails, from, batch).batches ==
            if n <= 2 * from + 1 then 1
            else 1 + Reach(fails, 2 * from + 1, Min(Min(2 * from + 2, n - (2 * from + 1)), MAX_BATCH_SIZE)).batches
  {
    var batch: nat := Min(from + 1, |fails| - from);
    assert Failures(fails, from, from + batch) == 0;
  }

  lemma LastBatches(fails: seq<bool>)
    requires 511 <= |fails| && Failures(fails, 0, |fails|) == 0
    ensures Reach(fails, 511, Min(Min(512, |fails| - 511), MAX_BATCH_SIZE)).batches ==
            if |fails| == 511 then 0 else BatchTotal(|fails|) - 9
  {
    CappedBatches(fails, 511);
    PowersUsed();
    if 511 < |fails| <= 1011 {
      Log2Of(|fails|, 9);
    }
  }

  /** All later batches have the maximal size, except perhaps the last. */
  lemma {:induction false} CappedBatches(fails: seq<bool>, from: nat)
    requires 511 <= from <= |fails|
    requires Failures(fails, 0, |fails|) == 0
    ensures Reach(fails, from, Min(|fails| - from, MAX_BATCH_SIZE)).batches == CeilDiv(|fails| - from, MAX_BATCH_SIZE)
    decreases |fails| - from
  {
    var batch := Min(|fails| - from, MAX_BATCH_SIZE);
    if batch > 0 {
      assert Failures(fails, from, from + batch) == 0;
      CappedBatches(fails, from + batch);
    }
  }
}

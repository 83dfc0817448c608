/**
  `SlowStartBatch`: calls 0, 1, 2, ... are made in batches that double as long as nothing fails. The calls of a batch
  run concurrently: the method below runs them in an arbitrary order. `fails(i)` is whether call `i` returns an error.
 */
module SlowStart {
  import opened Common

  function Failures(fails: int -> bool, lo: int, hi: int): nat
    decreases hi - lo
  {
    if hi <= lo then 0 else Failures(fails, lo, hi - 1) + (if fails(hi - 1) then 1 else 0)
  }

  /** How many calls are made when `done` calls have succeeded and the next batch has the given size. */
  function CallsFrom(done: nat, batch: int, count: int, fails: int -> bool): (k: nat)
    requires batch <= 0 || done + batch <= count
    ensures done <= k && (done <= count ==> k <= count)
    decreases count - done
  {
    if batch <= 0 then done
    else if Failures(fails, done, done + batch) > 0 then done + batch
    else CallsFrom(done + batch, Min(2 * batch, count - done - batch), count, fails)
  }

  function Calls(count: int, initialBatchSize: int, fails: int -> bool): (k: nat)
    ensures count >= 0 ==> k <= count
  {
    CallsFrom(0, Min(count, initialBatchSize), count, fails)
  }

  function Pow2(n: nat): nat {
    if n == 0 then 1 else 2 * Pow2(n - 1)
  }

  lemma {:induction false} FailuresSplit(fails: int -> bool, lo: int, mid: int, hi: int)
    requires lo <= mid <= hi
    ensures Failures(fails, lo, hi) == Failures(fails, lo, mid) + Failures(fails, mid, hi)
    decreases hi - mid
  {
    if mid < hi {
      FailuresSplit(fails, lo, mid, hi - 1);
    }
  }

  lemma {:induction false} FailuresBound(fails: int -> bool, lo: int, hi: int)
    requires lo <= hi
    ensures Failures(fails, lo, hi) <= hi - lo
    ensures Failures(fails, lo, hi) == 0 <==> forall i :: lo <= i < hi ==> !fails(i)
    decreases hi - lo
  {
    if lo < hi {
      FailuresBound(fails, lo, hi - 1);
      assert fails(hi - 1) || !fails(hi - 1);
    }
  }

  lemma {:induction false} CallsFromFacts(done: nat, batch: int, count: int, fails: int -> bool)
    requires 0 <= batch && done + batch <= count && (batch == 0 ==> done == count)
    requires Failures(fails, 0, done) == 0
    ensures var k := CallsFrom(done, batch, count, fails);
            && done <= k <= count
            && (Failures(fails, 0, k) == 0 <==> Failures(fails, 0, count) == 0)
            && (Failures(fails, 0, k) == 0 ==> k == count)
    decreases count - done
  {
    if batch > 0 {
      FailuresSplit(fails, 0, done, done + batch);
      FailuresSplit(fails, 0, done + batch, count);
      if Failures(fails, done, done + batch) == 0 {
        CallsFromFacts(done + batch, Min(2 * batch, count - done - batch), count, fails);
      }
    }
  }

  /** Every call is made and succeeds, or some call that is made fails: a failure is never skipped over. */
  lemma CallsFacts(count: int, initialBatchSize: int, fails: int -> bool)
    requires initialBatchSize >= 1 && count >= 0
    ensures var k := Calls(count, initialBatchSize, fails);
            && k <= count
            && (Failures(fails, 0, k) == 0 <==> Failures(fails, 0, count) == 0)
            && (Failures(fails, 0, k) == 0 ==> k == count)
  {
    CallsFromFacts(0, Min(count, initialBatchSize), count, fails);
  }

  lemma {:induction false} FailuresAgree(f: int -> bool, g: int -> bool, lo: int, hi: int)
    requires forall i :: lo <= i < hi ==> f(i) == g(i)
    ensures Failures(f, lo, hi) == Failures(g, lo, hi)
    decreases hi - lo
  {
    if lo < hi {
      FailuresAgree(f, g, lo, hi - 1);
    }
  }

  lemma {:induction false} CallsFromAgree(done: nat, batch: int, count: int, f: int -> bool, g: int -> bool)
    requires batch <= 0 || done + batch <= count
    requires forall i :: done <= i < CallsFrom(done, batch, count, f) ==> f(i) == g(i)
    ensures CallsFrom(done, batch, count, g) == CallsFrom(done, batch, count, f)
    decreases count - done
  {
    if batch > 0 {
      FailuresAgree(f, g, done, done + batch);
      if Failures(f, done, done + batch) == 0 {
        CallsFromAgree(done + batch, Min(2 * batch, count - done - batch), count, f, g);
      }
    }
  }

  /** Only the calls that are made decide how many are made. */
  lemma CallsAgree(count: int, size: int, f: int -> bool, g: int -> bool)
    requires forall i :: 0 <= i < Calls(count, size, f) ==> f(i) == g(i)
    ensures Calls(count, size, g) == Calls(count, size, f)
  {
    CallsFromAgree(0, Min(count, size), count, f, g);
  }

  lemma {:induction false} CallsFromShorten(done: nat, batch: int, count: int, f: int -> bool, g: int -> bool)
    requires batch <= 0 || done + batch <= count
    requires forall i :: done <= i < CallsFrom(done, batch, count, g) && f(i) ==> g(i)
    ensures CallsFrom(done, batch, count, g) <= CallsFrom(done, batch, count, f)
    decreases count - done
  {
    if batch > 0 {
      FailuresBound(f, done, done + batch);
      FailuresBound(g, done, done + batch);
      if Failures(g, done, done + batch) == 0 {
        CallsFromShorten(done + batch, Min(2 * batch, count - done - batch), count, f, g);
      }
    }
  }

  /** More failures among the calls that are made never lead to more calls. */
  lemma CallsShorten(count: int, size: int, f: int -> bool, g: int -> bool)
    requires forall i :: 0 <= i < Calls(count, size, g) && f(i) ==> g(i)
    ensures Calls(count, size, g) <= Calls(count, size, f)
  {
    CallsFromShorten(0, Min(count, size), count, f, g);
  }

  // ---------- Loops whose failures show as they go ----------

  /** A batch starts here, for every pattern of failures without one before it. */
  ghost predicate AtBatch(index: nat, batch: int, count: int, size: int) {
    && (batch <= 0 || index + batch <= count)
    && forall fails: int -> bool :: Failures(fails, 0, index) == 0 ==>
         CallsFrom(index, batch, count, fails) == Calls(count, size, fails)
  }

  lemma FirstBatch(count: int, size: int)
    ensures AtBatch(0, Min(count, size), count, size)
  {
  }

  /** The size of the next batch, by the number of calls left. */
  function Next(batch: int, left: int): (next: int)
    requires batch > 0 && left >= 0
    ensures 0 <= next <= left && (next == 0 ==> left == 0)
  {
    Min(2 * batch, left)
  }

  lemma NextBatch(index: nat, batch: int, count: int, size: int, next: int, left: int, doubled: int)
    requires AtBatch(index, batch, count, size) && batch > 0 && next == index + batch
    requires left == count - next && left >= 0 && doubled == Next(batch, left)
    ensures AtBatch(next, doubled, count, size)
  {
    forall fails: int -> bool | Failures(fails, 0, next) == 0
      ensures CallsFrom(next, doubled, count, fails) == Calls(count, size, fails)
    {
      FailuresSplit(fails, 0, index, next);
    }
  }

  lemma LastBatch(index: nat, batch: int, count: int, size: int, next: int, fails: int -> bool)
    requires AtBatch(index, batch, count, size) && batch > 0 && next == index + batch
    requires Failures(fails, 0, index) == 0 && Failures(fails, index, next) > 0
    ensures Calls(count, size, fails) == next
  {
  }

  function Range(lo: int, hi: int): (r: set<int>)
    ensures forall i :: i in r <==> lo <= i < hi
    decreases hi - lo
  {
    if hi <= lo then {} else Range(lo, hi - 1) + {hi - 1}
  }

  function FailingIn(indices: set<int>, fails: int -> bool): set<int> {
    set i | i in indices && fails(i)
  }

  lemma {:induction false} RangeSize(lo: int, hi: int)
    requires lo <= hi
    ensures |Range(lo, hi)| == hi - lo
    decreases hi - lo
  {
    if lo < hi {
      RangeSize(lo, hi - 1);
      assert Range(lo, hi) == Range(lo, hi - 1) + {hi - 1};
    }
  }

  lemma FailingWithout(indices: set<int>, fails: int -> bool, index: int)
    requires index in indices
    ensures |FailingIn(indices, fails)| ==
            |FailingIn(indices - {index}, fails)| + (if fails(index) then 1 else 0)
  {
    var rest := FailingIn(indices - {index}, fails);
    assert FailingIn(indices, fails) == if fails(index) then rest + {index} else rest;
  }

  lemma {:induction false} FailingSize(fails: int -> bool, lo: int, hi: int)
    requires lo <= hi
    ensures |FailingIn(Range(lo, hi), fails)| == Failures(fails, lo, hi)
    decreases hi - lo
  {
    if lo < hi {
      FailingSize(fails, lo, hi - 1);
      FailingWithout(Range(lo, hi), fails, hi - 1);
      assert Range(lo, hi) - {hi - 1} == Range(lo, hi - 1);
    }
  }

  /** The calls are the indices from `lo` up to `hi`, each made once, in some order. */
  ghost predicate EachOnce(calls: seq<int>, lo: int, hi: int) {
    && |calls| == hi - lo
    && (forall i :: lo <= i < hi ==> i in calls)
    && (forall i :: i in calls ==> lo <= i < hi)
  }

  lemma EachOnceExtends(calls: seq<int>, mid: int, made: seq<int>, hi: int)
    requires EachOnce(calls, 0, mid) && EachOnce(made, mid, hi)
    ensures EachOnce(calls + made, 0, hi)
  {
  }

  ghost predicate BatchState(made: seq<int>, pending: set<int>, lo: int, hi: int) {
    && |made| + |pending| == hi - lo
    && (forall i :: lo <= i < hi ==> i in pending || i in made)
    && (forall i :: i in made || i in pending ==> lo <= i < hi)
  }

  lemma BatchCall(made: seq<int>, pending: set<int>, lo: int, hi: int, index: int)
    requires BatchState(made, pending, lo, hi) && index in pending
    ensures BatchState(made + [index], pending - {index}, lo, hi) && lo <= index < hi
  {
    var made' := made + [index];
    forall i | lo <= i < hi ensures i in pending - {index} || i in made' {
      if i == index {
        assert made'[|made|] == index;
      }
    }
  }

  lemma BatchBegins(lo: int, hi: int)
    requires lo <= hi
    ensures BatchState([], Range(lo, hi), lo, hi)
  {
    RangeSize(lo, hi);
  }

  lemma BatchEnds(made: seq<int>, lo: int, hi: int)
    requires BatchState(made, {}, lo, hi)
    ensures EachOnce(made, lo, hi)
  {
  }

  /** Runs the calls of one batch in any order; returns the errors as they come and the calls as made. */
  method RunBatch(lo: int, hi: int, fails: int -> bool) returns (errors: seq<int>, made: seq<int>)
    requires lo <= hi
    ensures EachOnce(made, lo, hi)
    ensures |errors| == Failures(fails, lo, hi)
    ensures errors != [] ==> fails(errors[0]) && lo <= errors[0] < hi
  {
    errors, made := [], [];
    var pending := Range(lo, hi);
    FailingSize(fails, lo, hi);
    BatchBegins(lo, hi);
    hide *;
    while pending != {}
      invariant BatchState(made, pending, lo, hi)
      invariant |errors| + |FailingIn(pending, fails)| == Failures(fails, lo, hi)
      invariant errors != [] ==> fails(errors[0]) && lo <= errors[0] < hi
      decreases |pending|
    {
      var index :| index in pending;
      FailingWithout(pending, fails, index);
      BatchCall(made, pending, lo, hi, index);
      pending := pending - {index};
      made := made + [index];
      if fails(index) {
        errors := errors + [index];
      }
    }
    NothingFails(pending, fails);
    BatchEnds(made, lo, hi);
  }

  lemma NothingFails(indices: set<int>, fails: int -> bool)
    requires indices == {}
    ensures |FailingIn(indices, fails)| == 0
  {
    assert FailingIn(indices, fails) == {};
  }

  /** The calls of `n` full batches. */
  function Grown(n: nat, size: int): int {
    (Pow2(n) - 1) * size
  }

  /** The size of the full batch after them. */
  function Doubled(n: nat, size: int): int {
    Pow2(n) * size
  }

  lemma Growth(n: nat, size: int)
    ensures Grown(n + 1, size) == Grown(n, size) + Doubled(n, size)
    ensures Doubled(n + 1, size) == 2 * Doubled(n, size)
    ensures Doubled(n, size) == Grown(n, size) + size
  {
  }

  /** The loop's state: nothing has failed yet, and the next batch is full or takes all that is left. */
  ghost predicate Going(index: nat, batch: int, rounds: nat, count: int, size: int, fails: int -> bool) {
    && Failures(fails, 0, index) == 0
    && (batch <= 0 || index + batch <= count)
    && CallsFrom(index, batch, count, fails) == Calls(count, size, fails)
    && (batch > 0 ==> size >= 1 && index == Grown(rounds, size) && batch == Min(Doubled(rounds, size), count - index))
    && (rounds > 0 ==> Grown(rounds - 1, size) < count)
  }

  lemma GoingBegins(count: int, size: int, fails: int -> bool)
    ensures Going(0, Min(count, size), 0, count, size, fails)
  {
  }

  lemma GoingOn(index: nat, batch: int, rounds: nat, count: int, size: int, fails: int -> bool, next: int, left: int,
                doubled: int)
    requires Going(index, batch, rounds, count, size, fails) && batch > 0 && next == index + batch
    requires Failures(fails, index, next) == 0 && left == count - next && doubled == Min(2 * batch, left)
    ensures Going(next, doubled, rounds + 1, count, size, fails)
  {
    FailuresSplit(fails, 0, index, next);
    Growth(rounds, size);
  }

  lemma GoingFails(index: nat, batch: int, rounds: nat, count: int, size: int, fails: int -> bool, next: int)
    requires Going(index, batch, rounds, count, size, fails) && batch > 0 && next == index + batch
    requires Failures(fails, index, next) > 0
    ensures Calls(count, size, fails) == next && Grown(rounds, size) < count
    ensures Failures(fails, 0, next) == Failures(fails, index, next) <= next - index <= index + size
  {
    FailuresSplit(fails, 0, index, next);
    FailuresBound(fails, index, next);
    Growth(rounds, size);
  }

  lemma GoingFits(index: nat, batch: int, rounds: nat, count: int, size: int, fails: int -> bool)
    requires Going(index, batch, rounds, count, size, fails) && batch > 0
    ensures index + batch <= count
  {
  }

  ghost predicate AllSucceed(count: int, fails: int -> bool) {
    forall i :: 0 <= i < count ==> !fails(i)
  }

  lemma AllSucceedIff(count: int, size: int, fails: int -> bool)
    ensures size >= 1 && count >= 0 ==>
              var k := Calls(count, size, fails);
              && (Failures(fails, 0, k) == 0 <==> AllSucceed(count, fails))
              && (Failures(fails, 0, k) == 0 ==> k == count)
  {
    if size >= 1 && count >= 0 {
      CallsFacts(count, size, fails);
      FailuresBound(fails, 0, count);
    }
  }

  // ---------- What is reported ----------

  /** The calls made are 0, 1, ..., k - 1, each once, with k fixed by the inputs. */
  ghost predicate CallsMade(count: int, size: int, fails: int -> bool, calls: seq<int>) {
    |calls| == Calls(count, size, fails) && EachOnce(calls, 0, |calls|)
  }

  /** Successes are calls minus failures; an error is reported exactly if a call failed, and it is such a call's. */
  ghost predicate ErrorsReported(count: int, size: int, fails: int -> bool, k: nat, successes: int, err: Option<int>) {
    && successes == k - Failures(fails, 0, k)
    && (err.None? <==> Failures(fails, 0, k) == 0)
    && (err.Some? ==> 0 <= err.value < k && fails(err.value))
    && (size >= 1 && count >= 0 ==> (err.None? <==> AllSucceed(count, fails)) && (err.None? ==> k == count))
  }

  /** The failing batch is the last and at most one initial batch larger than all before it; batches double. */
  ghost predicate BatchesDouble(count: int, size: int, fails: int -> bool, k: nat, successes: int, rounds: nat) {
    && (size >= 0 ==> Failures(fails, 0, k) <= successes + size)
    && (rounds > 0 ==> Grown(rounds - 1, size) < count)
  }

  lemma FinishedReport(index: nat, batch: int, rounds: nat, count: int, size: int, fails: int -> bool, calls: seq<int>)
    requires Going(index, batch, rounds, count, size, fails) && batch <= 0
    requires EachOnce(calls, 0, index)
    ensures CallsMade(count, size, fails, calls) && |calls| == index
    ensures ErrorsReported(count, size, fails, index, index, None)
    ensures BatchesDouble(count, size, fails, index, index, rounds)
  {
    AllSucceedIff(count, size, fails);
    hide AllSucceed, Grown;
  }

  lemma FailedReport(index: nat, batch: int, rounds: nat, count: int, size: int, fails: int -> bool, next: int,
                     calls: seq<int>, errors: seq<int>)
    requires Going(index, batch, rounds, count, size, fails) && batch > 0 && next == index + batch
    requires EachOnce(calls, 0, next) && |errors| == Failures(fails, index, next) && errors != []
    requires fails(errors[0]) && index <= errors[0] < next
    ensures CallsMade(count, size, fails, calls) && |calls| == next
    ensures ErrorsReported(count, size, fails, next, next - |errors|, Some(errors[0]))
    ensures BatchesDouble(count, size, fails, next, next - |errors|, rounds + 1)
  {
    AllSucceedIff(count, size, fails);
    GoingFails(index, batch, rounds, count, size, fails, next);
    hide AllSucceed, Grown, Going, Failures, Calls, EachOnce;
  }

  method SlowStartBatch(count: int, initialBatchSize: int, fails: int -> bool)
    returns (successes: int, err: Option<int>, calls: seq<int>, rounds: nat)
    ensures CallsMade(count, initialBatchSize, fails, calls)
    ensures ErrorsReported(count, initialBatchSize, fails, |calls|, successes, err)
    ensures BatchesDouble(count, initialBatchSize, fails, |calls|, successes, rounds)
  {
    var remaining := count;
    successes, err, calls, rounds := 0, None, [], 0;
    var index := 0;
    var batchSize := Min(remaining, initialBatchSize);
    GoingBegins(count, initialBatchSize, fails);
    assert EachOnce(calls, 0, index);
    hide *;
    while batchSize > 0
      invariant 0 <= index == successes && remaining == count - index && err == None
      invariant Going(index, batchSize, rounds, count, initialBatchSize, fails)
      invariant EachOnce(calls, 0, index)
      decreases remaining
    {
      GoingFits(index, batchSize, rounds, count, initialBatchSize, fails);
      var next := index + batchSize;
      var errors, made := RunBatch(index, next, fails);
      EachOnceExtends(calls, index, made, next);
      calls := calls + made;
      successes := successes + batchSize - |errors|;
      if |errors| > 0 {
        FailedReport(index, batchSize, rounds, count, initialBatchSize, fails, next, calls, errors);
        rounds := rounds + 1;
        err := Some(errors[0]);
        return;
      }
      remaining := remaining - batchSize;
      var doubled := Min(2 * batchSize, remaining);
      GoingOn(index, batchSize, rounds, count, initialBatchSize, fails, next, remaining, doubled);
      index := next;
      rounds := rounds + 1;
      batchSize := doubled;
    }
    FinishedReport(index, batchSize, rounds, count, initialBatchSize, fails, calls);
  }
}

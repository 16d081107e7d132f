/** The write buffer and checkpoint cadence shared by the engine loop
    (src/engine/engine.py) and the legacy loader (src/vgsi/parallel.py).

    Results are appended to a buffer; once it holds `batch_size` results a
    write is attempted, and the buffer is cleared only when the write
    succeeds. Whether the i-th write attempt fails is an oracle `fails(i)`.
 */
module Batching {
  import opened Base

  /** The pending results, the batches written so far (in order) and the
      batch of every write attempt made, failed or not (in order); the i-th
      attempt is `tried[i]`. */
  datatype Buffer<R> = Buffer(pending: seq<R>, written: seq<seq<R>>, tried: seq<seq<R>>)

  function EmptyBuffer<R>(): (b: Buffer<R>)
    ensures b.pending == [] && b.written == [] && b.tried == []
  {
    Buffer([], [], [])
  }

  /** The attempted batches whose write did not fail, in order. */
  function Succeeded<R>(tried: seq<seq<R>>, fails: nat -> bool): (r: seq<seq<R>>)
    ensures |r| <= |tried|
  {
    if tried == [] then []
    else
      var n := |tried| - 1;
      Succeeded(tried[..n], fails) + (if fails(n) then [] else [tried[n]])
  }

  /** The written batches are exactly the attempts that succeeded. */
  ghost predicate Logged<R>(b: Buffer<R>, fails: nat -> bool)
  {
    b.written == Succeeded(b.tried, fails)
  }

  /** When no attempt fails, every attempted batch was written. */
  lemma {:induction false} SucceededAll<R>(tried: seq<seq<R>>, fails: nat -> bool)
    requires forall i :: 0 <= i < |tried| ==> !fails(i)
    ensures Succeeded(tried, fails) == tried
    decreases |tried|
  {
    if tried != [] {
      var n := |tried| - 1;
      SucceededAll(tried[..n], fails);
      assert tried[..n] + [tried[n]] == tried;
    }
  }

  /** Everything that went into the buffer, written or not. */
  function Contents<R>(b: Buffer<R>): seq<R>
  {
    Concat(b.written) + b.pending
  }

  /** Every written batch holds at least `batchSize` results and at least one. */
  predicate FullBatches<R>(written: seq<seq<R>>, batchSize: int)
  {
    forall i :: 0 <= i < |written| ==> |written[i]| >= batchSize && |written[i]| >= 1
  }

  /** Try to write the pending results as one batch. */
  function Attempt<R>(b: Buffer<R>, fails: nat -> bool): (r: Buffer<R>)
    ensures r.tried == b.tried + [b.pending]
    ensures Contents(r) == Contents(b)
    ensures fails(|b.tried|) ==> r.pending == b.pending && r.written == b.written
    ensures !fails(|b.tried|) ==> r.pending == [] && r.written == b.written + [b.pending]
    ensures Logged(b, fails) ==> Logged(r, fails)
  {
    var tried := b.tried + [b.pending];
    assert tried[..|b.tried|] == b.tried;
    if fails(|b.tried|) then b.(tried := tried)
    else
      ConcatAppend(b.written, b.pending);
      Buffer([], b.written + [b.pending], tried)
  }

  /** `batch.append(result)`, then a write once `len(batch) >= batch_size`. */
  function Push<R>(b: Buffer<R>, r: R, batchSize: int, fails: nat -> bool): (b': Buffer<R>)
    ensures Contents(b') == Contents(b) + [r]
    ensures |b.pending| + 1 < batchSize ==> b' == b.(pending := b.pending + [r])
    ensures |b.pending| + 1 >= batchSize ==> b'.tried == b.tried + [b.pending + [r]]
    ensures |b.pending| + 1 >= batchSize && !fails(|b.tried|) ==>
              b'.pending == [] && b'.written == b.written + [b.pending + [r]]
    ensures |b.pending| + 1 >= batchSize && fails(|b.tried|) ==>
              b'.pending == b.pending + [r] && b'.written == b.written
    ensures FullBatches(b.written, batchSize) ==> FullBatches(b'.written, batchSize)
    ensures Logged(b, fails) ==> Logged(b', fails)
  {
    var p := b.(pending := b.pending + [r]);
    if |p.pending| >= batchSize then Attempt(p, fails) else p
  }

  /** The flush after the loop: `if batch:` one more write attempt. */
  function Flush<R>(b: Buffer<R>, fails: nat -> bool): (r: Buffer<R>)
    ensures Contents(r) == Contents(b)
    ensures b.pending == [] ==> r == b
    ensures b.pending != [] ==> r.tried == b.tried + [b.pending]
    ensures b.pending != [] && !fails(|b.tried|) ==> r.pending == [] && r.written == b.written + [b.pending]
    ensures b.pending != [] && fails(|b.tried|) ==> r.pending == b.pending && r.written == b.written
    ensures Logged(b, fails) ==> Logged(r, fails)
  {
    if b.pending == [] then b else Attempt(b, fails)
  }

  /** When no write fails, the written batches are exactly everything pushed. */
  lemma FlushWritesAll<R>(b: Buffer<R>, fails: nat -> bool)
    requires !fails(|b.tried|)
    ensures Flush(b, fails).pending == []
    ensures Concat(Flush(b, fails).written) == Contents(b)
  {
  }

  // ---------------------------------------------------------------------
  // Checkpoint cadence
  // ---------------------------------------------------------------------

  /** `count % checkpoint_every == 0`. A zero divisor raises ZeroDivisionError,
      which the loop catches, so no checkpoint is saved. For a non-zero
      divisor Python's and Dafny's remainders are zero for the same counts. */
  predicate Periodic(count: nat, every: int)
  {
    every != 0 && count % every == 0
  }

  /** The checkpoints saved while successes accumulate: after the n-th
      success, when `Periodic(n, every)`, the pair (its id, n + prev). */
  function PeriodicSaves<K>(ids: seq<K>, every: Option<int>, prev: int): (r: seq<(K, int)>)
    ensures |r| <= |ids|
  {
    if ids == [] then []
    else
      var n := |ids|;
      PeriodicSaves(ids[..n - 1], every, prev)
        + (if every.Some? && Periodic(n, every.value) then [(ids[n - 1], n + prev)] else [])
  }

  /** The checkpoint for success number k, `(ids[k - 1], k + prev)`, is saved
      iff k is a multiple of the interval. */
  lemma {:induction false} PeriodicSavesIff<K>(ids: seq<K>, every: Option<int>, prev: int)
    ensures forall k {:trigger ids[k - 1]} :: 1 <= k <= |ids| ==>
      ((ids[k - 1], k + prev) in PeriodicSaves(ids, every, prev) <==> every.Some? && Periodic(k, every.value))
    decreases |ids|
  {
    if ids != [] {
      var n := |ids|;
      var init := ids[..n - 1];
      PeriodicSavesIff(init, every, prev);
      PeriodicSavesBounds(init, every, prev);
      var p := PeriodicSaves(init, every, prev);
      var q := PeriodicSaves(ids, every, prev);
      var extra := if every.Some? && Periodic(n, every.value) then [(ids[n - 1], n + prev)] else [];
      assert q == p + extra;
      forall k | 1 <= k <= n
        ensures (ids[k - 1], k + prev) in q <==> every.Some? && Periodic(k, every.value)
      {
        var x := (ids[k - 1], k + prev);
        assert x in q <==> x in p || x in extra;
        if k < n {
          assert ids[k - 1] == init[k - 1];
          assert (init[k - 1], k + prev) in p <==> every.Some? && Periodic(k, every.value);
          assert x !in extra;
        } else {
          assert forall y :: y in p ==> y.1 <= prev + n - 1;
          assert x in extra <==> every.Some? && Periodic(n, every.value);
        }
      }
    }
  }

  /** Every saved checkpoint carries a total among the new successes and the
      id of the success with that number. */
  lemma {:induction false} PeriodicSavesBounds<K>(ids: seq<K>, every: Option<int>, prev: int)
    ensures forall j :: 0 <= j < |PeriodicSaves(ids, every, prev)| ==>
      var (id, total) := PeriodicSaves(ids, every, prev)[j];
      prev + 1 <= total <= prev + |ids| && id == ids[total - prev - 1]
    decreases |ids|
  {
    if ids != [] {
      var n := |ids|;
      var init := ids[..n - 1];
      PeriodicSavesBounds(init, every, prev);
      var p := PeriodicSaves(init, every, prev);
      var q := PeriodicSaves(ids, every, prev);
      var extra := if every.Some? && Periodic(n, every.value) then [(ids[n - 1], n + prev)] else [];
      assert q == p + extra;
      forall j | 0 <= j < |q|
        ensures var (id, total) := q[j]; prev + 1 <= total <= prev + n && id == ids[total - prev - 1]
      {
        if j < |p| {
          assert q[j] == p[j];
          assert ids[p[j].1 - prev - 1] == init[p[j].1 - prev - 1];
        }
      }
    }
  }

  /** The saved totals strictly increase. */
  lemma {:induction false} PeriodicSavesOrdered<K>(ids: seq<K>, every: Option<int>, prev: int)
    ensures forall i, j :: 0 <= i < j < |PeriodicSaves(ids, every, prev)| ==>
      PeriodicSaves(ids, every, prev)[i].1 < PeriodicSaves(ids, every, prev)[j].1
    decreases |ids|
  {
    if ids != [] {
      var n := |ids|;
      var init := ids[..n - 1];
      PeriodicSavesOrdered(init, every, prev);
      PeriodicSavesBounds(init, every, prev);
      var p := PeriodicSaves(init, every, prev);
      var q := PeriodicSaves(ids, every, prev);
      var extra := if every.Some? && Periodic(n, every.value) then [(ids[n - 1], n + prev)] else [];
      assert q == p + extra;
      forall i, j | 0 <= i < j < |q|
        ensures q[i].1 < q[j].1
      {
        assert q[i] == p[i];
        if j >= |p| {
          assert p[i].1 <= prev + n - 1;
        } else {
          assert q[j] == p[j];
        }
      }
    }
  }

  /** The three facts together: membership, bounds and order. */
  lemma PeriodicSavesMembers<K>(ids: seq<K>, every: Option<int>, prev: int)
    ensures forall k {:trigger ids[k - 1]} :: 1 <= k <= |ids| ==>
      ((ids[k - 1], k + prev) in PeriodicSaves(ids, every, prev) <==> every.Some? && Periodic(k, every.value))
    ensures forall j :: 0 <= j < |PeriodicSaves(ids, every, prev)| ==>
      var (id, total) := PeriodicSaves(ids, every, prev)[j];
      prev + 1 <= total <= prev + |ids| && id == ids[total - prev - 1]
    ensures forall i, j :: 0 <= i < j < |PeriodicSaves(ids, every, prev)| ==>
      PeriodicSaves(ids, every, prev)[i].1 < PeriodicSaves(ids, every, prev)[j].1
  {
    PeriodicSavesIff(ids, every, prev);
    PeriodicSavesBounds(ids, every, prev);
    PeriodicSavesOrdered(ids, every, prev);
  }


  /** With a positive interval, exactly `|ids| / every` checkpoints are saved. */
  lemma {:induction false} PeriodicSavesCount<K>(ids: seq<K>, every: int, prev: int)
    requires every > 0
    ensures |PeriodicSaves(ids, Some(every), prev)| == |ids| / every
    decreases |ids|
  {
    if ids != [] {
      PeriodicSavesCount(ids[..|ids| - 1], every, prev);
      DivStep(|ids|, every);
    }
  }

  /** How `n / every` steps from `n - 1`. */
  lemma DivStep(n: int, every: int)
    requires n >= 1 && every > 0
    ensures n % every == 0 ==> n / every == (n - 1) / every + 1 && (n / every) * every == n
    ensures n % every != 0 ==> n / every == (n - 1) / every
  {
    var q := (n - 1) / every;
    var m := (n - 1) % every;
    if m == every - 1 {
      DivUnique(n, every, q + 1, 0);
    } else {
      DivUnique(n, every, q, m + 1);
    }
  }

  /** Quotient and remainder are determined by `n == q * d + m, 0 <= m < d`. */
  lemma DivUnique(n: int, d: int, q: int, m: int)
    requires d > 0 && n == q * d + m && 0 <= m < d
    ensures n / d == q && n % d == m
  {
    var q' := n / d;
    var m' := n % d;
    assert n == q' * d + m';
    assert (q' - q) * d == m - m';
    if q' > q { MulAtLeast(q' - q, d); }
    if q' < q { MulAtLeast(q - q', d); }
  }

  lemma MulAtLeast(k: int, d: int)
    requires k >= 1 && d > 0
    ensures k * d >= d
  {
    assert k * d == (k - 1) * d + d;
    assert (k - 1) * d >= 0;
  }

  /** With a zero interval no checkpoint is ever saved. */
  lemma {:induction false} PeriodicSavesZero<K>(ids: seq<K>, prev: int)
    ensures PeriodicSaves(ids, Some(0), prev) == []
    ensures PeriodicSaves(ids, None, prev) == []
    decreases |ids|
  {
    if ids != [] {
      PeriodicSavesZero(ids[..|ids| - 1], prev);
    }
  }
}

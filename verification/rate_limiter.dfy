/** The two request-rate limiters: the engine's (src/engine/engine.py) and the
    legacy loader's (src/vgsi/parallel.py).

    Both enforce a minimum interval between request slots. The concurrency
    semaphore and the lock are left out: acquisitions are taken one after the
    other, and `time.time()` readings arrive as `real` parameters.
 */
module RateLimit {

  /** Limiter state: the minimum interval, the last granted slot, and the stats counters. */
  datatype Limiter = Limiter(minInterval: real, lastRequestTime: real, totalRequests: nat, totalWaitTime: real)

  /** One acquisition: the new state, the granted slot time and the requested wait. */
  datatype Grant = Grant(limiter: Limiter, slot: real, wait: real)

  /** `1.0 / requests_per_second`, or 0 (no limiting) for a non-positive rate. */
  function MinInterval(rps: real): (r: real)
    ensures rps > 0.0 ==> r > 0.0 && r * rps == 1.0
    ensures rps <= 0.0 ==> r == 0.0
  {
    if rps > 0.0 then 1.0 / rps else 0.0
  }

  function NewLimiter(rps: real): (l: Limiter)
    ensures l.minInterval >= 0.0 && (l.minInterval > 0.0 <==> rps > 0.0)
    ensures l.lastRequestTime == 0.0 && l.totalRequests == 0 && l.totalWaitTime == 0.0
  {
    Limiter(MinInterval(rps), 0.0, 0, 0.0)
  }

  // ---------------------------------------------------------------------
  // Engine limiter: reserve the slot under the lock, sleep outside it
  // ---------------------------------------------------------------------

  /** The engine's `acquire`: the slot is `max(now, last + minInterval)`, reserved
      at once as the new `last_request_time`; the caller then sleeps until it. */
  function Acquire(l: Limiter, now: real): (g: Grant)
    ensures g.limiter.minInterval == l.minInterval
    ensures l.minInterval > 0.0 ==>
      && g.slot >= now && g.slot >= l.lastRequestTime + l.minInterval
      && (g.slot == now || g.slot == l.lastRequestTime + l.minInterval)
      && g.wait == g.slot - now
      && g.limiter.lastRequestTime == g.slot
      && g.limiter.totalRequests == l.totalRequests + 1
      && g.limiter.totalWaitTime == l.totalWaitTime + g.wait
    ensures l.minInterval <= 0.0 ==> g.limiter == l && g.slot == now && g.wait == 0.0
  {
    if l.minInterval > 0.0 then
      var elapsed := now - l.lastRequestTime;
      var wait := if elapsed < l.minInterval then l.minInterval - elapsed else 0.0;
      var waited := if wait > 0.0 then l.totalWaitTime + wait else l.totalWaitTime;
      Grant(Limiter(l.minInterval, now + wait, l.totalRequests + 1, waited), now + wait, wait)
    else
      Grant(l, now, 0.0)
  }

  /** Sum of `slots[i] - nows[i]`: the time spent waiting. */
  function TotalWait(slots: seq<real>, nows: seq<real>): real
    requires |slots| == |nows|
  {
    if slots == [] then 0.0
    else TotalWait(slots[..|slots| - 1], nows[..|nows| - 1]) + (slots[|slots| - 1] - nows[|nows| - 1])
  }

  /** Every slot is at least `m` after its predecessor, the first after `last`. */
  ghost predicate Spaced(last: real, slots: seq<real>, m: real)
  {
    forall i :: 0 <= i < |slots| ==> slots[i] >= (if i == 0 then last else slots[i - 1]) + m
  }

  lemma SpacedExtend(last: real, slots: seq<real>, s: real, m: real)
    requires Spaced(last, slots, m)
    requires s >= (if slots == [] then last else slots[|slots| - 1]) + m
    ensures Spaced(last, slots + [s], m)
  {
    var t := slots + [s];
    forall i | 0 <= i < |t|
      ensures t[i] >= (if i == 0 then last else t[i - 1]) + m
    {
      if i < |slots| {
        assert t[i] == slots[i];
        assert slots[i] >= (if i == 0 then last else slots[i - 1]) + m;
        if i > 0 { assert t[i - 1] == slots[i - 1]; }
      } else {
        assert t[i] == s;
        if i > 0 { assert t[i - 1] == slots[|slots| - 1]; }
      }
    }
    assert Spaced(last, t, m);
  }

  /** Successive `acquire` calls at clock readings `nows`. Whatever the clock
      does, each slot is at least `minInterval` after the previous one and no
      earlier than its reading, and the wait total is the time between them. */
  method AcquireAll(l: Limiter, nows: seq<real>) returns (final: Limiter, slots: seq<real>)
    ensures |slots| == |nows| && final.minInterval == l.minInterval
    ensures forall i :: 0 <= i < |slots| ==> slots[i] >= nows[i]
    ensures l.minInterval > 0.0 ==> Spaced(l.lastRequestTime, slots, l.minInterval)
    ensures l.minInterval > 0.0 ==>
      && final.totalRequests == l.totalRequests + |nows|
      && final.totalWaitTime == l.totalWaitTime + TotalWait(slots, nows)
      && final.lastRequestTime == (if slots == [] then l.lastRequestTime else slots[|slots| - 1])
    ensures l.minInterval <= 0.0 ==> final == l && slots == nows
  {
    final := l;
    slots := [];
    var k := 0;
    while k < |nows|
      invariant 0 <= k <= |nows| && |slots| == k && final.minInterval == l.minInterval
      invariant forall i :: 0 <= i < k ==> slots[i] >= nows[i]
      invariant l.minInterval > 0.0 ==> Spaced(l.lastRequestTime, slots, l.minInterval)
      invariant l.minInterval > 0.0 ==>
        && final.totalRequests == l.totalRequests + k
        && final.totalWaitTime == l.totalWaitTime + TotalWait(slots, nows[..k])
        && final.lastRequestTime == (if k == 0 then l.lastRequestTime else slots[k - 1])
      invariant l.minInterval <= 0.0 ==> final == l && slots == nows[..k]
    {
      var g := Acquire(final, nows[k]);
      if l.minInterval > 0.0 {
        SpacedExtend(l.lastRequestTime, slots, g.slot, l.minInterval);
      }
      assert (slots + [g.slot])[..k] == slots;
      TotalWaitStep(slots, nows, k, g.slot);
      final, slots := g.limiter, slots + [g.slot];
      k := k + 1;
    }
    assert nows[..k] == nows;
  }

  lemma TotalWaitStep(slots: seq<real>, nows: seq<real>, k: int, s: real)
    requires 0 <= k < |nows| && |slots| == k
    ensures TotalWait(slots + [s], nows[..k + 1]) == TotalWait(slots, nows[..k]) + (s - nows[k])
  {
    assert (slots + [s])[..k] == slots;
    assert nows[..k + 1][..k] == nows[..k];
  }

  /** Consecutive spacing adds up: slots `j - i` apart are `(j - i) * m` apart. */
  lemma {:induction false} SpacedApart(last: real, slots: seq<real>, m: real, i: int, j: int)
    requires Spaced(last, slots, m)
    requires 0 <= i < j < |slots|
    ensures slots[j] - slots[i] >= (j - i) as real * m
    decreases j - i
  {
    if j > i + 1 {
      SpacedApart(last, slots, m, i, j - 1);
      assert slots[j] >= slots[j - 1] + m;
      assert (j - i) as real * m == (j - 1 - i) as real * m + m;
    } else {
      assert slots[j] >= slots[j - 1] + m;
    }
  }

  // ---------------------------------------------------------------------
  // Legacy limiter: sleep while holding the lock, then re-read the clock
  // ---------------------------------------------------------------------

  /** The legacy `acquire`. When the interval has not yet elapsed it sleeps the
      missing time and grants at the clock reading after the sleep, which is
      `now + wait + oversleep`; `total_wait_time` adds the requested wait. */
  function LegacyAcquire(l: Limiter, now: real, oversleep: real): (g: Grant)
    ensures g.limiter.minInterval == l.minInterval
    ensures l.minInterval > 0.0 ==>
      && g.wait >= 0.0
      && (g.wait > 0.0 <==> now - l.lastRequestTime < l.minInterval)
      && g.slot == (if g.wait > 0.0 then now + g.wait + oversleep else now)
      && g.limiter.lastRequestTime == g.slot
      && g.limiter.totalRequests == l.totalRequests + 1
      && g.limiter.totalWaitTime == l.totalWaitTime + g.wait
    ensures l.minInterval > 0.0 && oversleep >= 0.0 ==> g.slot >= l.lastRequestTime + l.minInterval
    ensures l.minInterval <= 0.0 ==> g.limiter == l && g.slot == now && g.wait == 0.0
  {
    if l.minInterval > 0.0 then
      var elapsed := now - l.lastRequestTime;
      if elapsed < l.minInterval then
        var wait := l.minInterval - elapsed;
        var after := now + wait + oversleep;
        Grant(Limiter(l.minInterval, after, l.totalRequests + 1, l.totalWaitTime + wait), after, wait)
      else
        Grant(Limiter(l.minInterval, now, l.totalRequests + 1, l.totalWaitTime), now, 0.0)
    else
      Grant(l, now, 0.0)
  }

  /** Successive legacy acquisitions. As long as no sleep returns early, grants
      are at least `minInterval` apart. */
  method LegacyAcquireAll(l: Limiter, nows: seq<real>, oversleeps: seq<real>)
    returns (final: Limiter, slots: seq<real>)
    requires |oversleeps| == |nows|
    ensures |slots| == |nows| && final.minInterval == l.minInterval
    ensures l.minInterval > 0.0 ==> final.totalRequests == l.totalRequests + |nows|
    ensures l.minInterval > 0.0 && (forall i :: 0 <= i < |oversleeps| ==> oversleeps[i] >= 0.0) ==>
      Spaced(l.lastRequestTime, slots, l.minInterval)
    ensures l.minInterval <= 0.0 ==> final == l && slots == nows
  {
    ghost var sound := l.minInterval > 0.0 && forall i :: 0 <= i < |oversleeps| ==> oversleeps[i] >= 0.0;
    final := l;
    slots := [];
    var k := 0;
    while k < |nows|
      invariant 0 <= k <= |nows| && |slots| == k && final.minInterval == l.minInterval
      invariant l.minInterval > 0.0 ==> final.totalRequests == l.totalRequests + k
      invariant l.minInterval > 0.0 ==> final.lastRequestTime == (if k == 0 then l.lastRequestTime else slots[k - 1])
      invariant sound ==> Spaced(l.lastRequestTime, slots, l.minInterval)
      invariant l.minInterval <= 0.0 ==> final == l && slots == nows[..k]
    {
      var g := LegacyAcquire(final, nows[k], oversleeps[k]);
      if sound {
        assert oversleeps[k] >= 0.0;
        SpacedExtend(l.lastRequestTime, slots, g.slot, l.minInterval);
      }
      assert (slots + [g.slot])[..k] == slots;
      final, slots := g.limiter, slots + [g.slot];
      k := k + 1;
    }
    assert nows[..k] == nows;
  }

  // ---------------------------------------------------------------------
  // Statistics (identical in both limiters)
  // ---------------------------------------------------------------------

  datatype Stats = Stats(totalRequests: nat, totalWaitTime: real, avgWaitTime: real)

  /** `get_stats`: the average wait is the total over the request count, 0 when none. */
  function GetStats(l: Limiter): (s: Stats)
    ensures s.totalRequests == l.totalRequests && s.totalWaitTime == l.totalWaitTime
    ensures l.totalRequests > 0 ==> s.avgWaitTime * (l.totalRequests as real) == l.totalWaitTime
    ensures l.totalRequests == 0 ==> s.avgWaitTime == 0.0
    ensures l.totalWaitTime >= 0.0 ==> s.avgWaitTime >= 0.0
  {
    var avg := if l.totalRequests > 0 then l.totalWaitTime / (l.totalRequests as real) else 0.0;
    Stats(l.totalRequests, l.totalWaitTime, avg)
  }

  /** Waiting time never goes negative, so the reported average never does. */
  lemma {:induction false} WaitNonNegative(nows: seq<real>, slots: seq<real>)
    requires |slots| == |nows|
    requires forall i :: 0 <= i < |slots| ==> slots[i] >= nows[i]
    ensures TotalWait(slots, nows) >= 0.0
    decreases |slots|
  {
    if slots != [] {
      WaitNonNegative(nows[..|nows| - 1], slots[..|slots| - 1]);
    }
  }
}

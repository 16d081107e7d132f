/** The engine's load and refresh loops (src/engine/engine.py `run_load`,
    `run_refresh`), as a sequential fold over per-entry outcomes.

    Each handled entry has an outcome: the scrape returned a result (or
    `None`), the source raised its invalid-entry exception, or it raised
    anything else. The thread pool is abstracted away: the fold takes the
    completions in one order, and `RunLoad`/`RunRefresh` use submission order.
    Writes go through the buffer of module Batching; whether a write attempt
    fails is an oracle. The buffer logs every attempt, and module
    EngineEffects replays each one against a `ParquetWriter`, a failed one
    up to the table whose write raised.
 */
module Engine {
  import opened Base
  import opened Batching
  import ParquetWriter

  /** What the worker reports for one entry. */
  datatype Outcome<+R> = Scraped(result: Option<R>) | Invalid | Failed

  /** `batch_size`, `checkpoint_every` (None in a refresh, which saves no
      checkpoints) and `max_consecutive_errors`. */
  datatype Config = Config(batchSize: int, checkpointEvery: Option<int>, maxConsecutiveErrors: int)

  /** The loop's shared state: the batch buffer, `completed["count"]`,
      `errors["total"]`, `errors["consecutive"]`, the periodic checkpoints
      saved, whether `TooManyErrors` stopped the loop, and how many
      completions were handled. */
  datatype Loop<R> = Loop(buffer: Buffer<R>, completed: nat, totalErrors: nat, consecutive: nat,
                          saves: seq<(EntryId, int)>, aborted: bool, handled: nat)

  function Start<R>(): (s: Loop<R>)
    ensures s.buffer == EmptyBuffer() && s.completed == 0 && s.totalErrors == 0
    ensures s.consecutive == 0 && s.saves == [] && !s.aborted && s.handled == 0
  {
    Loop(EmptyBuffer(), 0, 0, 0, [], false, 0)
  }

  predicate IsSuccess<R>(o: Outcome<R>) { o.Scraped? && o.result.Some? }

  /** `handle_result` for one completion: an error bumps both error counters
      and may abort; anything else resets the consecutive count; a non-None
      result is buffered, counted, and may trigger a checkpoint with total
      `count + prev`. */
  function Handle<R>(s: Loop<R>, item: (EntryId, Outcome<R>), cfg: Config, prev: int,
                     fails: nat -> bool): (r: Loop<R>)
    ensures r.handled == s.handled + 1
    ensures item.1.Failed? ==>
      && r.totalErrors == s.totalErrors + 1 && r.consecutive == s.consecutive + 1
      && r.aborted == (cfg.maxConsecutiveErrors > 0 && r.consecutive >= cfg.maxConsecutiveErrors)
      && r.completed == s.completed && r.buffer == s.buffer && r.saves == s.saves
    ensures !item.1.Failed? ==> r.consecutive == 0 && r.totalErrors == s.totalErrors && r.aborted == s.aborted
    ensures (item.1.Invalid? || item.1 == Scraped(None)) ==>
      r.completed == s.completed && r.buffer == s.buffer && r.saves == s.saves
    ensures IsSuccess(item.1) ==>
      && r.completed == s.completed + 1
      && r.buffer == Push(s.buffer, item.1.result.value, cfg.batchSize, fails)
      && r.saves == s.saves + (if cfg.checkpointEvery.Some? && Periodic(r.completed, cfg.checkpointEvery.value)
                               then [(item.0, r.completed + prev)] else [])
  {
    var s := s.(handled := s.handled + 1);
    match item.1
      case Failed =>
        var c := s.consecutive + 1;
        s.(totalErrors := s.totalErrors + 1, consecutive := c,
           aborted := cfg.maxConsecutiveErrors > 0 && c >= cfg.maxConsecutiveErrors)
      case Invalid => s.(consecutive := 0)
      case Scraped(res) =>
        if res.None? then s.(consecutive := 0)
        else
          var n := s.completed + 1;
          var due := cfg.checkpointEvery.Some? && Periodic(n, cfg.checkpointEvery.value);
          s.(consecutive := 0, buffer := Push(s.buffer, res.value, cfg.batchSize, fails), completed := n,
             saves := s.saves + (if due then [(item.0, n + prev)] else []))
  }

  /** The `as_completed` loop: handle each completion in turn until
      `TooManyErrors` breaks out of it. */
  function RunLoop<R>(items: seq<(EntryId, Outcome<R>)>, cfg: Config, prev: int, fails: nat -> bool): (s: Loop<R>)
    ensures s.handled <= |items|
    ensures !s.aborted ==> s.handled == |items|
  {
    if items == [] then Start()
    else
      var s0 := RunLoop(items[..|items| - 1], cfg, prev, fails);
      if s0.aborted then s0 else Handle(s0, items[|items| - 1], cfg, prev, fails)
  }

  // ---------------------------------------------------------------------
  // Reference definitions over the handled completions
  // ---------------------------------------------------------------------

  /** The number of errors at the end of `items` with nothing else after them. */
  function TrailingFailures<R>(items: seq<(EntryId, Outcome<R>)>): nat
  {
    if items == [] || !items[|items| - 1].1.Failed? then 0
    else TrailingFailures(items[..|items| - 1]) + 1
  }

  /** The results scraped, in completion order. */
  function Successes<R>(items: seq<(EntryId, Outcome<R>)>): seq<R>
  {
    if items == [] then []
    else
      var last := items[|items| - 1];
      Successes(items[..|items| - 1]) + (if IsSuccess(last.1) then [last.1.result.value] else [])
  }

  /** The ids of the entries scraped, in completion order. */
  function SuccessIds<R>(items: seq<(EntryId, Outcome<R>)>): (r: seq<EntryId>)
    ensures |r| == |Successes(items)|
  {
    if items == [] then []
    else
      var last := items[|items| - 1];
      SuccessIds(items[..|items| - 1]) + (if IsSuccess(last.1) then [last.0] else [])
  }

  function CountFailed<R>(items: seq<(EntryId, Outcome<R>)>): nat
  {
    if items == [] then 0
    else CountFailed(items[..|items| - 1]) + (if items[|items| - 1].1.Failed? then 1 else 0)
  }

  /** `t` errors in a row starting at position `start`. */
  predicate FailureRun<R>(items: seq<(EntryId, Outcome<R>)>, start: int, t: nat)
  {
    0 <= start && start + t <= |items| && forall k :: start <= k < start + t ==> items[k].1.Failed?
  }

  /** Would the abort rule fire with `consecutive` at the end of `items`? */
  predicate Trips<R>(items: seq<(EntryId, Outcome<R>)>, cfg: Config)
  {
    cfg.maxConsecutiveErrors > 0 && TrailingFailures(items) >= cfg.maxConsecutiveErrors
  }

  // ---------------------------------------------------------------------
  // What the loop computes
  // ---------------------------------------------------------------------

  /** The counters: `consecutive` is the run of errors at the end of what was
      handled, the success count counts the non-None results and the error
      total counts the errors. */
  lemma {:induction false} LoopCounts<R>(items: seq<(EntryId, Outcome<R>)>, cfg: Config, prev: int,
                                         fails: nat -> bool)
    ensures var s := RunLoop(items, cfg, prev, fails);
      && s.consecutive == TrailingFailures(items[..s.handled])
      && s.completed == |Successes(items[..s.handled])|
      && s.totalErrors == CountFailed(items[..s.handled])
    decreases |items|
  {
    if items != [] {
      var n := |items|;
      var init := items[..n - 1];
      LoopCounts(init, cfg, prev, fails);
      var s0 := RunLoop(init, cfg, prev, fails);
      assert init[..s0.handled] == items[..s0.handled];
      if !s0.aborted {
        assert init[..n - 1] == init;
        assert items[..n] == items;
      }
    }
  }

  /** The loop stops at the first point where the abort rule fires, if any. */
  lemma {:induction false} LoopStops<R>(items: seq<(EntryId, Outcome<R>)>, cfg: Config, prev: int,
                                        fails: nat -> bool)
    ensures var s := RunLoop(items, cfg, prev, fails);
      && (s.aborted <==> Trips(items[..s.handled], cfg))
      && (forall k :: 0 <= k < s.handled ==> !Trips(items[..k], cfg))
    decreases |items|
  {
    if items != [] {
      var n := |items|;
      var init := items[..n - 1];
      LoopStops(init, cfg, prev, fails);
      LoopCounts(init, cfg, prev, fails);
      var s0 := RunLoop(init, cfg, prev, fails);
      assert forall k :: 0 <= k <= n - 1 ==> init[..k] == items[..k];
      if !s0.aborted {
        assert init[..n - 1] == init;
        assert items[..n] == items;
        assert init + [items[n - 1]] == items;
        HandleTrips(s0, init, items[n - 1], cfg, prev, fails);
      }
    }
  }

  /** Handling one more completion aborts exactly when the abort rule fires
      on the completions handled so far. */
  lemma HandleTrips<R>(s0: Loop<R>, init: seq<(EntryId, Outcome<R>)>, item: (EntryId, Outcome<R>), cfg: Config,
                       prev: int, fails: nat -> bool)
    requires !s0.aborted && s0.consecutive == TrailingFailures(init)
    ensures Handle(s0, item, cfg, prev, fails).aborted <==> Trips(init + [item], cfg)
  {
    var items := init + [item];
    assert items[..|items| - 1] == init;
  }

  /** The buffer: everything written plus everything pending is exactly the
      results scraped, in order, and every written batch was full. */
  lemma {:induction false} LoopBuffer<R>(items: seq<(EntryId, Outcome<R>)>, cfg: Config, prev: int,
                                         fails: nat -> bool)
    ensures var s := RunLoop(items, cfg, prev, fails);
      && Contents(s.buffer) == Successes(items[..s.handled])
      && FullBatches(s.buffer.written, cfg.batchSize)
      && Logged(s.buffer, fails)
    decreases |items|
  {
    if items != [] {
      var n := |items|;
      var init := items[..n - 1];
      LoopBuffer(init, cfg, prev, fails);
      var s0 := RunLoop(init, cfg, prev, fails);
      assert init[..s0.handled] == items[..s0.handled];
      if !s0.aborted {
        assert items[..n][..n - 1] == init;
        assert items[..n] == items;
        HandleBuffer(s0, items[n - 1], cfg, prev, fails);
      }
    }
  }

  /** One handled completion pushes exactly its result, if it has one. */
  lemma HandleBuffer<R>(s0: Loop<R>, item: (EntryId, Outcome<R>), cfg: Config, prev: int, fails: nat -> bool)
    requires FullBatches(s0.buffer.written, cfg.batchSize) && Logged(s0.buffer, fails)
    ensures Contents(Handle(s0, item, cfg, prev, fails).buffer)
         == Contents(s0.buffer) + (if IsSuccess(item.1) then [item.1.result.value] else [])
    ensures FullBatches(Handle(s0, item, cfg, prev, fails).buffer.written, cfg.batchSize)
    ensures Logged(Handle(s0, item, cfg, prev, fails).buffer, fails)
  {
  }

  /** The periodic checkpoints are those of the success sequence: one after
      every `checkpoint_every`-th success, naming that entry, with total
      `count + prev`. */
  lemma {:induction false} LoopSaves<R>(items: seq<(EntryId, Outcome<R>)>, cfg: Config, prev: int,
                                        fails: nat -> bool)
    ensures var s := RunLoop(items, cfg, prev, fails);
      s.saves == PeriodicSaves(SuccessIds(items[..s.handled]), cfg.checkpointEvery, prev)
    decreases |items|
  {
    if items != [] {
      var n := |items|;
      var init := items[..n - 1];
      LoopSaves(init, cfg, prev, fails);
      LoopCounts(init, cfg, prev, fails);
      var s0 := RunLoop(init, cfg, prev, fails);
      assert init[..s0.handled] == items[..s0.handled];
      if !s0.aborted {
        assert init[..n - 1] == init;
        assert items[..n] == items;
        HandleSaves(s0, items[n - 1], cfg, prev, fails, SuccessIds(init));
      }
    }
  }

  /** One handled completion extends the checkpoints as the success ids grow. */
  lemma HandleSaves<R>(s0: Loop<R>, item: (EntryId, Outcome<R>), cfg: Config, prev: int,
                       fails: nat -> bool, ids: seq<EntryId>)
    requires s0.saves == PeriodicSaves(ids, cfg.checkpointEvery, prev) && s0.completed == |ids|
    ensures Handle(s0, item, cfg, prev, fails).saves
         == PeriodicSaves(ids + (if IsSuccess(item.1) then [item.0] else []), cfg.checkpointEvery, prev)
  {
    var r := Handle(s0, item, cfg, prev, fails);
    if IsSuccess(item.1) {
      assert r.saves == s0.saves + (if cfg.checkpointEvery.Some? && Periodic(|ids| + 1, cfg.checkpointEvery.value)
                                    then [(item.0, |ids| + 1 + prev)] else []);
      SavesStep(ids, item.0, cfg.checkpointEvery, prev);
    } else {
      assert r.saves == s0.saves;
      assert ids + [] == ids;
    }
  }

  /** One more success extends the periodic checkpoints by at most one. */
  lemma SavesStep(ids: seq<EntryId>, id: EntryId, every: Option<int>, prev: int)
    ensures PeriodicSaves(ids + [id], every, prev)
         == PeriodicSaves(ids, every, prev)
            + (if every.Some? && Periodic(|ids| + 1, every.value) then [(id, |ids| + 1 + prev)] else [])
  {
    assert (ids + [id])[..|ids|] == ids;
  }

  /** `TrailingFailures` against its meaning: at least `t` trailing errors iff
      the last `t` completions are all errors. */
  lemma {:induction false} TrailingFailuresRun<R>(items: seq<(EntryId, Outcome<R>)>, t: nat)
    ensures TrailingFailures(items) >= t <==> t <= |items| && FailureRun(items, |items| - t, t)
    decreases |items|
  {
    if items != [] && t > 0 {
      var init := items[..|items| - 1];
      TrailingFailuresRun(init, t - 1);
      assert forall k :: 0 <= k < |init| ==> init[k] == items[k];
    }
  }

  /** The abort rule: the loop stops iff the threshold is positive and some
      `max_consecutive_errors` errors occur in a row, and then it stops right
      after the first such run. A zero threshold never aborts. */
  lemma AbortIff<R>(items: seq<(EntryId, Outcome<R>)>, cfg: Config, prev: int, fails: nat -> bool)
    ensures var s := RunLoop(items, cfg, prev, fails);
      var t := cfg.maxConsecutiveErrors;
      && (s.aborted <==> t > 0 && exists j :: FailureRun(items, j, t))
      && (s.aborted ==> FailureRun(items, s.handled - t, t)
                         && forall j :: FailureRun(items, j, t) ==> j + t >= s.handled)
  {
    var s := RunLoop(items, cfg, prev, fails);
    var t := cfg.maxConsecutiveErrors;
    LoopStops(items, cfg, prev, fails);
    if s.aborted {
      TrailingFailuresRun(items[..s.handled], t);
      assert FailureRun(items, s.handled - t, t);
      forall j | FailureRun(items, j, t)
        ensures j + t >= s.handled
      {
        if j + t < s.handled {
          PrefixRun(items, j, t);
        }
      }
    } else if t > 0 && exists j :: FailureRun(items, j, t) {
      var j :| FailureRun(items, j, t);
      PrefixRun(items, j, t);
    }
  }

  /** A run of `t` errors ending at `j + t` makes the abort rule fire there. */
  lemma PrefixRun<R>(items: seq<(EntryId, Outcome<R>)>, j: int, t: nat)
    requires FailureRun(items, j, t)
    ensures TrailingFailures(items[..j + t]) >= t
  {
    var p := items[..j + t];
    assert FailureRun(p, |p| - t, t);
    TrailingFailuresRun(p, t);
  }

  /** The id of every success comes from a handled completion. */
  lemma {:induction false} SuccessIdsFrom<R>(items: seq<(EntryId, Outcome<R>)>, i: int)
    requires 0 <= i < |SuccessIds(items)|
    ensures exists p :: 0 <= p < |items| && SuccessIds(items)[i] == items[p].0 && IsSuccess(items[p].1)
    decreases |items|
  {
    var init := items[..|items| - 1];
    if i < |SuccessIds(init)| {
      SuccessIdsFrom(init, i);
      var p :| 0 <= p < |init| && SuccessIds(init)[i] == init[p].0 && IsSuccess(init[p].1);
      assert items[p] == init[p];
    }
  }

  // ---------------------------------------------------------------------
  // Resume
  // ---------------------------------------------------------------------

  /** The first position whose `str(entry_id)` equals the checkpoint id. */
  function FirstMatch(ids: seq<EntryId>, last: string): (r: Option<nat>)
    ensures r.Some? ==> r.value < |ids| && ShowId(ids[r.value]) == last
    ensures r.Some? ==> forall i :: 0 <= i < r.value ==> ShowId(ids[i]) != last
    ensures r.None? ==> forall i :: 0 <= i < |ids| ==> ShowId(ids[i]) != last
  {
    if ids == [] then None
    else if ShowId(ids[0]) == last then Some(0)
    else match FirstMatch(ids[1..], last)
      case None => None
      case Some(i) => Some(i + 1)
  }

  /** Resume slicing. `checkpoint` is what the writer returned, already as
      `(str or None, int)`. Returns the entries still to do and the previous
      total: after the first match when the checkpoint id is found (total
      kept), the whole list with total 0 when it is not, and the whole list
      with the stored total when there is no checkpoint id. */
  function Resume(ids: seq<EntryId>, enabled: bool, checkpoint: (Option<string>, int)): (r: (seq<EntryId>, int))
    ensures |r.0| <= |ids| && r.0 == ids[|ids| - |r.0|..]
    ensures !enabled ==> r == (ids, 0)
    ensures enabled && checkpoint.0.None? ==> r == (ids, checkpoint.1)
  {
    if !enabled then (ids, 0)
    else if checkpoint.0.None? then (ids, checkpoint.1)
    else match FirstMatch(ids, checkpoint.0.value)
      case Some(i) => (ids[i + 1..], checkpoint.1)
      case None => (ids, 0)
  }

  /** Resuming from a checkpoint id: when some entry prints as it, the list
      restarts right after the first such entry and the total is kept;
      otherwise the whole list is redone from total 0. */
  lemma ResumeFromId(ids: seq<EntryId>, checkpoint: (Option<string>, int))
    requires checkpoint.0.Some?
    ensures var r := Resume(ids, true, checkpoint);
      if exists i :: 0 <= i < |ids| && ShowId(ids[i]) == checkpoint.0.value then
        && r.1 == checkpoint.1
        && 1 <= |ids| - |r.0| && ShowId(ids[|ids| - |r.0| - 1]) == checkpoint.0.value
        && (forall i :: 0 <= i < |ids| - |r.0| - 1 ==> ShowId(ids[i]) != checkpoint.0.value)
      else r == (ids, 0)
  {
  }

  // ---------------------------------------------------------------------
  // run_load and run_refresh
  // ---------------------------------------------------------------------

  /** A run: nothing to do (empty list, initially or after resume), or the
      entries processed, the previous total, the loop's final state, the
      buffer after the final flush, and every checkpoint saved in order. */
  datatype LoadRun<R> =
    | NothingToDo
    | Ran(remaining: seq<EntryId>, prev: int, loop: Loop<R>, buffer: Buffer<R>, saves: seq<(EntryId, int)>)

  /** The value `run_load`/`run_refresh` return. */
  function Count<R>(r: LoadRun<R>): nat
  {
    if r.NothingToDo? then 0 else r.loop.completed
  }

  /** Each entry paired with its outcome, in submission order: the loops
      below see the completions in this order, not in an arbitrary
      `as_completed` order. */
  function Items<R>(ids: seq<EntryId>, scrape: EntryId -> Outcome<R>): (r: seq<(EntryId, Outcome<R>)>)
    ensures |r| == |ids| && forall i :: 0 <= i < |ids| ==> r[i] == (ids[i], scrape(ids[i]))
  {
    seq(|ids|, i requires 0 <= i < |ids| => (ids[i], scrape(ids[i])))
  }

  /** `run_load`, with the final checkpoint saved after the loop either
      always (`finalOnAbort`, as the code does) or only when the loop was
      not aborted (the corrected rule). */
  function RunLoadWith<R>(ids: seq<EntryId>, resume: bool, checkpoint: (Option<string>, int),
                          batchSize: int, checkpointEvery: int, maxConsecutiveErrors: int,
                          scrape: EntryId -> Outcome<R>, fails: nat -> bool, finalOnAbort: bool): (r: LoadRun<R>)
    ensures ids == [] || Resume(ids, resume, checkpoint).0 == [] <==> r.NothingToDo?
    ensures r.Ran? ==> r.remaining != []
    ensures r.Ran? ==>
      var cfg := Config(batchSize, Some(checkpointEvery), maxConsecutiveErrors);
      && (r.remaining, r.prev) == Resume(ids, resume, checkpoint)
      && r.loop == RunLoop(Items(r.remaining, scrape), cfg, r.prev, fails)
      && r.buffer == Flush(r.loop.buffer, fails)
    ensures r.Ran? ==> r.saves == FinalSaves(r.remaining, r.prev, r.loop, finalOnAbort)
  {
    if ids == [] then NothingToDo
    else
      var rp := Resume(ids, resume, checkpoint);
      var remaining := rp.0;
      var prev := rp.1;
      if remaining == [] then NothingToDo
      else
        var cfg := Config(batchSize, Some(checkpointEvery), maxConsecutiveErrors);
        var s := RunLoop(Items(remaining, scrape), cfg, prev, fails);
        Ran(remaining, prev, s, Flush(s.buffer, fails), FinalSaves(remaining, prev, s, finalOnAbort))
  }

  /** The loop's checkpoints, then the final one naming the last remaining
      entry with total `count + prev`, unless it is skipped after an abort. */
  function FinalSaves<R>(remaining: seq<EntryId>, prev: int, s: Loop<R>, finalOnAbort: bool): seq<(EntryId, int)>
    requires remaining != []
  {
    if finalOnAbort || !s.aborted then s.saves + [(remaining[|remaining| - 1], s.completed + prev)]
    else s.saves
  }

  /** `run_load` as written: the final checkpoint names the last remaining
      entry with total `count + prev`, even after an abort. */
  function RunLoad<R>(ids: seq<EntryId>, resume: bool, checkpoint: (Option<string>, int),
                      batchSize: int, checkpointEvery: int, maxConsecutiveErrors: int,
                      scrape: EntryId -> Outcome<R>, fails: nat -> bool): (r: LoadRun<R>)
    ensures r.Ran? ==> r.remaining != []
    ensures r.Ran? ==> r.saves == r.loop.saves + [(r.remaining[|r.remaining| - 1], r.loop.completed + r.prev)]
  {
    RunLoadWith(ids, resume, checkpoint, batchSize, checkpointEvery, maxConsecutiveErrors, scrape, fails, true)
  }

  /** `run_load` with the corrected final checkpoint: none after an abort. */
  function RunLoadFixed<R>(ids: seq<EntryId>, resume: bool, checkpoint: (Option<string>, int),
                           batchSize: int, checkpointEvery: int, maxConsecutiveErrors: int,
                           scrape: EntryId -> Outcome<R>, fails: nat -> bool): (r: LoadRun<R>)
    ensures r.Ran? ==> r.remaining != []
    ensures r.Ran? && !r.loop.aborted ==>
      r.saves == r.loop.saves + [(r.remaining[|r.remaining| - 1], r.loop.completed + r.prev)]
    ensures r.Ran? && r.loop.aborted ==> r.saves == r.loop.saves
  {
    RunLoadWith(ids, resume, checkpoint, batchSize, checkpointEvery, maxConsecutiveErrors, scrape, fails, false)
  }

  /** `run_refresh`: the same loop over the known entries, with no resume and
      no checkpoints. */
  function RunRefresh<R>(ids: seq<EntryId>, batchSize: int, maxConsecutiveErrors: int,
                         scrape: EntryId -> Outcome<R>, fails: nat -> bool): (r: LoadRun<R>)
    ensures ids == [] <==> r.NothingToDo?
    ensures r.Ran? ==>
      && r.remaining == ids && r.prev == 0 && r.saves == []
      && r.loop == RunLoop(Items(ids, scrape), Config(batchSize, None, maxConsecutiveErrors), 0, fails)
      && r.buffer == Flush(r.loop.buffer, fails)
  {
    if ids == [] then NothingToDo
    else
      var s := RunLoop(Items(ids, scrape), Config(batchSize, None, maxConsecutiveErrors), 0, fails);
      LoopSaves(Items(ids, scrape), Config(batchSize, None, maxConsecutiveErrors), 0, fails);
      PeriodicSavesZero(SuccessIds(Items(ids, scrape)[..s.handled]), 0);
      Ran(ids, 0, s, Flush(s.buffer, fails), s.saves)
  }

  // ---------------------------------------------------------------------
  // Properties of a run
  // ---------------------------------------------------------------------

  /** The handled completions of a run. */
  function Handled<R>(r: LoadRun<R>, scrape: EntryId -> Outcome<R>): seq<(EntryId, Outcome<R>)>
    requires r.Ran? && r.loop.handled <= |r.remaining|
  {
    Items(r.remaining, scrape)[..r.loop.handled]
  }

  /** The returned count is the number of entries whose scrape returned a
      result; invalid entries, errors and `None` results are not counted. An
      unaborted run handles every remaining entry. The written batches,
      followed by what stayed pending, are the results in order; when no
      write fails nothing stays pending. */
  lemma LoadOutcome<R>(ids: seq<EntryId>, resume: bool, checkpoint: (Option<string>, int),
                       batchSize: int, checkpointEvery: int, maxConsecutiveErrors: int,
                       scrape: EntryId -> Outcome<R>, fails: nat -> bool, finalOnAbort: bool)
    ensures var r := RunLoadWith(ids, resume, checkpoint, batchSize, checkpointEvery, maxConsecutiveErrors,
                                 scrape, fails, finalOnAbort);
      r.Ran? ==>
        && r.loop.handled <= |r.remaining|
        && (!r.loop.aborted ==> r.loop.handled == |r.remaining|)
        && Count(r) == |Successes(Handled(r, scrape))|
        && Contents(r.buffer) == Successes(Handled(r, scrape))
        && FullBatches(r.loop.buffer.written, batchSize)
        && Logged(r.buffer, fails)
        && ((forall i :: !fails(i)) ==> r.buffer.pending == [] && Concat(r.buffer.written) == Successes(Handled(r, scrape)))
  {
    var r := RunLoadWith(ids, resume, checkpoint, batchSize, checkpointEvery, maxConsecutiveErrors,
                         scrape, fails, finalOnAbort);
    if r.Ran? {
      var cfg := Config(batchSize, Some(checkpointEvery), maxConsecutiveErrors);
      LoopCounts(Items(r.remaining, scrape), cfg, r.prev, fails);
      LoopBuffer(Items(r.remaining, scrape), cfg, r.prev, fails);
    }
  }

  /** The periodic checkpoints of a load: one after every
      `checkpoint_every`-th success, naming that entry, with total
      `successes so far + prev`. (`RunLoadWith` appends the final one.) */
  lemma LoadCheckpoints<R>(ids: seq<EntryId>, resume: bool, checkpoint: (Option<string>, int),
                           batchSize: int, checkpointEvery: int, maxConsecutiveErrors: int,
                           scrape: EntryId -> Outcome<R>, fails: nat -> bool, finalOnAbort: bool)
    ensures var r := RunLoadWith(ids, resume, checkpoint, batchSize, checkpointEvery, maxConsecutiveErrors,
                                 scrape, fails, finalOnAbort);
      r.Ran? ==>
        && r.loop.handled <= |r.remaining|
        && r.loop.saves == PeriodicSaves(SuccessIds(Handled(r, scrape)), Some(checkpointEvery), r.prev)
  {
    var r := RunLoadWith(ids, resume, checkpoint, batchSize, checkpointEvery, maxConsecutiveErrors,
                         scrape, fails, finalOnAbort);
    if r.Ran? {
      var items := Items(r.remaining, scrape);
      var cfg := Config(batchSize, Some(checkpointEvery), maxConsecutiveErrors);
      LoopSaves(items, cfg, r.prev, fails);
      assert r.loop == RunLoop(items, cfg, r.prev, fails);
    }
  }
  // ---------------------------------------------------------------------
  // The final checkpoint after an abort
  // ---------------------------------------------------------------------

  /** As written: three entries whose scrapes all fail, with a threshold of
      two. The run stops after two entries, yet its final checkpoint names
      the third, so the next resumed run has nothing to do even when every
      scrape would now succeed: the third entry is never scraped. */
  lemma AbortedLoadSkipsRest()
    ensures var ids := [IntId(1), IntId(2), IntId(3)];
      var r := RunLoad<int>(ids, false, (None, 0), 10, 100, 2, (e: EntryId) => Failed, (i: nat) => false);
      && r.Ran? && r.loop.aborted && r.loop.handled == 2
      && r.saves == [(IntId(3), 0)]
      && RunLoad<int>(ids, true, (Some(ShowId(IntId(3))), 0), 10, 100, 2,
                      (e: EntryId) => Scraped(Some(0)), (i: nat) => false).NothingToDo?
  {
    var ids := [IntId(1), IntId(2), IntId(3)];
    AbortedAfterTwo(ids, (e: EntryId) => Failed, (i: nat) => false);
    ResumedFromThird((e: EntryId) => Scraped(Some(0)), (i: nat) => false);
  }

  /** The first run of `AbortedLoadSkipsRest`: every scrape fails, so the
      loop aborts after two entries and only the final checkpoint is saved,
      naming the third entry. */
  lemma AbortedAfterTwo(ids: seq<EntryId>, scrape: EntryId -> Outcome<int>, fails: nat -> bool)
    requires ids == [IntId(1), IntId(2), IntId(3)]
    requires forall e :: scrape(e) == Failed
    ensures var r := RunLoad<int>(ids, false, (None, 0), 10, 100, 2, scrape, fails);
      && r.Ran? && r.loop.aborted && r.loop.handled == 2
      && r.saves == [(IntId(3), 0)]
  {
    var cfg := Config(10, Some(100), 2);
    var items := Items(ids, scrape);
    assert items[..1][..0] == [];
    assert RunLoop(items[..1][..0], cfg, 0, fails) == Start<int>();
    assert items[..1][0] == items[0] == (IntId(1), Failed);
    assert items[..2][..1] == items[..1];
    assert items[..3][..2] == items[..2];
    assert items[..3] == items;
    var s1 := RunLoop(items[..1], cfg, 0, fails);
    assert s1 == Handle(Start<int>(), items[0], cfg, 0, fails);
    assert !s1.aborted && s1.consecutive == 1 && s1.handled == 1 && s1.completed == 0 && s1.saves == [];
    var s2 := RunLoop(items[..2], cfg, 0, fails);
    assert s2 == Handle(s1, items[1], cfg, 0, fails);
    assert s2.aborted && s2.handled == 2 && s2.completed == 0 && s2.saves == [];
    assert RunLoop(items, cfg, 0, fails) == s2;
    assert Resume(ids, false, (None, 0)) == (ids, 0);
  }

  /** The resumed run of `AbortedLoadSkipsRest`: the checkpoint names the
      last entry, so nothing is left to do. */
  lemma ResumedFromThird<R>(scrape: EntryId -> Outcome<R>, fails: nat -> bool)
    ensures RunLoad([IntId(1), IntId(2), IntId(3)], true, (Some(ShowId(IntId(3))), 0), 10, 100, 2, scrape, fails)
              .NothingToDo?
  {
    var ids := [IntId(1), IntId(2), IntId(3)];
    assert ShowId(IntId(3)) == "3";
    assert ShowId(IntId(1)) == "1" && ShowId(IntId(2)) == "2";
    assert FirstMatch(ids, "3") == Some(2);
    assert Resume(ids, true, (Some("3"), 0)).0 == [];
  }

  /** As written, whenever the entry ids print distinctly, the checkpoint a
      run leaves resumes to an empty list, whether or not the run aborted. */
  lemma LoadResumesPastEnd<R>(ids: seq<EntryId>, resume: bool, checkpoint: (Option<string>, int),
                              batchSize: int, checkpointEvery: int, maxConsecutiveErrors: int,
                              scrape: EntryId -> Outcome<R>, fails: nat -> bool)
    requires forall i, j :: 0 <= i < j < |ids| ==> ShowId(ids[i]) != ShowId(ids[j])
    ensures var r := RunLoad(ids, resume, checkpoint, batchSize, checkpointEvery, maxConsecutiveErrors,
                             scrape, fails);
      r.Ran? ==>
        var last := r.saves[|r.saves| - 1];
        Resume(ids, true, (Some(ShowId(last.0)), last.1)).0 == []
  {
    var r := RunLoad(ids, resume, checkpoint, batchSize, checkpointEvery, maxConsecutiveErrors, scrape, fails);
    if r.Ran? {
      var last := r.saves[|r.saves| - 1];
      assert last.0 == ids[|ids| - 1];
      ResumeAtEnd(ids, last.1);
    }
  }

  /** Resuming from the last entry, with distinct printed ids, leaves nothing. */
  lemma ResumeAtEnd(ids: seq<EntryId>, total: int)
    requires ids != []
    requires forall i, j :: 0 <= i < j < |ids| ==> ShowId(ids[i]) != ShowId(ids[j])
    ensures Resume(ids, true, (Some(ShowId(ids[|ids| - 1])), total)).0 == []
  {
    ResumeFromId(ids, (Some(ShowId(ids[|ids| - 1])), total));
    var next := Resume(ids, true, (Some(ShowId(ids[|ids| - 1])), total)).0;
    var m := |ids| - |next| - 1;
    assert ShowId(ids[m]) == ShowId(ids[|ids| - 1]);
  }

  /** Corrected: with no final checkpoint after an abort, and with entries
      completing in submission order, resuming from the last checkpoint
      saved (when there is one) leaves every entry the run did not handle
      still to do, at the end of the next run's list. Under out-of-order
      completion a periodic checkpoint can pass entries still in flight,
      so this does not carry over. */
  lemma FixedLoadKeepsUnhandled<R>(ids: seq<EntryId>, resume: bool, checkpoint: (Option<string>, int),
                                   batchSize: int, checkpointEvery: int, maxConsecutiveErrors: int,
                                   scrape: EntryId -> Outcome<R>, fails: nat -> bool)
    requires forall i, j :: 0 <= i < j < |ids| ==> ShowId(ids[i]) != ShowId(ids[j])
    ensures var r := RunLoadFixed(ids, resume, checkpoint, batchSize, checkpointEvery, maxConsecutiveErrors,
                                  scrape, fails);
      r.Ran? && r.saves != [] ==>
        var last := r.saves[|r.saves| - 1];
        var next := Resume(ids, true, (Some(ShowId(last.0)), last.1)).0;
        && r.loop.handled <= |r.remaining|
        && |r.remaining| - r.loop.handled <= |next|
        && next[|next| - (|r.remaining| - r.loop.handled)..] == r.remaining[r.loop.handled..]
  {
    var r := RunLoadFixed(ids, resume, checkpoint, batchSize, checkpointEvery, maxConsecutiveErrors, scrape, fails);
    if r.Ran? && r.saves != [] {
      FixedRunShape(ids, resume, checkpoint, batchSize, checkpointEvery, maxConsecutiveErrors, scrape, fails);
      assert FixedShape(ids, r, scrape, checkpointEvery);
      ShapeKeepsUnhandled(ids, r, scrape, checkpointEvery);
    }
  }

  /** `FixedLoadKeepsUnhandled` for any run of that shape. */
  lemma ShapeKeepsUnhandled<R>(ids: seq<EntryId>, r: LoadRun<R>, scrape: EntryId -> Outcome<R>, every: int)
    requires forall i, j :: 0 <= i < j < |ids| ==> ShowId(ids[i]) != ShowId(ids[j])
    requires FixedShape(ids, r, scrape, every) && r.saves != []
    ensures var last := r.saves[|r.saves| - 1];
      var next := Resume(ids, true, (Some(ShowId(last.0)), last.1)).0;
      && |r.remaining| - r.loop.handled <= |next|
      && next[|next| - (|r.remaining| - r.loop.handled)..] == r.remaining[r.loop.handled..]
  {
    var p := LastSavePosition(ids, r, scrape, every);
    var last := r.saves[|r.saves| - 1];
    ResumeAfter(ids, r.remaining, p, r.loop.handled, last.0, last.1);
  }

  /** The shape of a corrected run over `ids`: its list is a suffix of
      `ids`, it handled a prefix of it (all of it unless aborted), and its
      checkpoints are the periodic ones, plus the final one unless aborted. */
  ghost predicate FixedShape<R>(ids: seq<EntryId>, r: LoadRun<R>, scrape: EntryId -> Outcome<R>, every: int)
  {
    && r.Ran? && r.remaining != [] && r.loop.handled <= |r.remaining|
    && |r.remaining| <= |ids| && r.remaining == ids[|ids| - |r.remaining|..]
    && (!r.loop.aborted ==> r.loop.handled == |r.remaining|)
    && (r.loop.aborted ==> r.saves == r.loop.saves)
    && (!r.loop.aborted ==>
          r.saves == r.loop.saves + [(r.remaining[|r.remaining| - 1], r.loop.completed + r.prev)])
    && r.loop.saves == PeriodicSaves(SuccessIds(Handled(r, scrape)), Some(every), r.prev)
  }

  /** A corrected run has that shape. */
  lemma FixedRunShape<R>(ids: seq<EntryId>, resume: bool, checkpoint: (Option<string>, int),
                         batchSize: int, checkpointEvery: int, maxConsecutiveErrors: int,
                         scrape: EntryId -> Outcome<R>, fails: nat -> bool)
    ensures var r := RunLoadFixed(ids, resume, checkpoint, batchSize, checkpointEvery, maxConsecutiveErrors,
                                  scrape, fails);
      r.Ran? ==> FixedShape(ids, r, scrape, checkpointEvery)
  {
    var w := RunLoadWith(ids, resume, checkpoint, batchSize, checkpointEvery, maxConsecutiveErrors,
                         scrape, fails, false);
    assert RunLoadFixed(ids, resume, checkpoint, batchSize, checkpointEvery, maxConsecutiveErrors,
                        scrape, fails) == w;
    if w.Ran? {
      assert w.remaining != [];
      RanShape(ids, resume, checkpoint, w, batchSize, checkpointEvery, maxConsecutiveErrors, scrape, fails);
    }
  }

  /** Any run built as `RunLoadWith` builds a corrected one has that shape. */
  lemma RanShape<R>(ids: seq<EntryId>, resume: bool, checkpoint: (Option<string>, int), r: LoadRun<R>,
                    batchSize: int, every: int, maxConsecutiveErrors: int,
                    scrape: EntryId -> Outcome<R>, fails: nat -> bool)
    requires r.Ran? && r.remaining != []
    requires (r.remaining, r.prev) == Resume(ids, resume, checkpoint)
    requires r.loop == RunLoop(Items(r.remaining, scrape), Config(batchSize, Some(every), maxConsecutiveErrors),
                               r.prev, fails)
    requires r.saves == FinalSaves(r.remaining, r.prev, r.loop, false)
    ensures FixedShape(ids, r, scrape, every)
  {
    var items := Items(r.remaining, scrape);
    var cfg := Config(batchSize, Some(every), maxConsecutiveErrors);
    assert |items| == |r.remaining|;
    assert r.loop.handled <= |r.remaining| && (!r.loop.aborted ==> r.loop.handled == |r.remaining|);
    assert |r.remaining| <= |ids| && r.remaining == ids[|ids| - |r.remaining|..];
    assert r.loop.saves == PeriodicSaves(SuccessIds(Handled(r, scrape)), Some(every), r.prev) by {
      LoopSaves(items, cfg, r.prev, fails);
    }
  }

  /** Resuming, with distinct printed ids, from entry `p` of a suffix `rem`
      of `ids` keeps everything of `rem` after position `h > p`. */
  lemma ResumeAfter(ids: seq<EntryId>, rem: seq<EntryId>, p: nat, h: nat, id: EntryId, total: int)
    requires forall i, j :: 0 <= i < j < |ids| ==> ShowId(ids[i]) != ShowId(ids[j])
    requires |rem| <= |ids| && rem == ids[|ids| - |rem|..] && p < h <= |rem| && rem[p] == id
    ensures var next := Resume(ids, true, (Some(ShowId(id)), total)).0;
      |rem| - h <= |next| && next[|next| - (|rem| - h)..] == rem[h..]
  {
    var off := |ids| - |rem|;
    assert rem[p] == ids[off + p];
    ResumeFromId(ids, (Some(ShowId(id)), total));
    var next := Resume(ids, true, (Some(ShowId(id)), total)).0;
    var m := |ids| - |next| - 1;
    assert ShowId(ids[m]) == ShowId(ids[off + p]);
    assert m == off + p;
  }

  /** Where in the remaining list the last checkpoint of a corrected run
      points: at a handled entry. */
  lemma LastSavePosition<R>(ids: seq<EntryId>, r: LoadRun<R>, scrape: EntryId -> Outcome<R>, every: int)
    returns (p: nat)
    requires FixedShape(ids, r, scrape, every) && r.saves != []
    ensures p < r.loop.handled && r.saves[|r.saves| - 1].0 == r.remaining[p]
  {
    var last := r.saves[|r.saves| - 1];
    if r.loop.aborted {
      var H := Handled(r, scrape);
      var ids := SuccessIds(H);
      PeriodicSavesMembers(ids, Some(every), r.prev);
      var k := last.1 - r.prev - 1;
      assert ids[k] == last.0;
      SuccessIdsFrom(H, k);
      p :| 0 <= p < |H| && ids[k] == H[p].0 && IsSuccess(H[p].1);
    } else {
      p := |r.remaining| - 1;
    }
  }
}

module EngineEffects {
  import opened Base
  import opened Batching
  import opened Engine
  import PW = ParquetWriter
  import RowHash

  /** Rows the flattened batches hold, summed over the batches. */
  function RowsIn<R>(batches: seq<seq<R>>, flatten: seq<R> -> seq<(string, seq<Row>)>): nat
  {
    if batches == [] then 0
    else RowsIn(batches[..|batches| - 1], flatten) + PW.TotalRows(flatten(batches[|batches| - 1]))
  }

  /** `write_batch` called on each batch in order, the i-th at clock
      reading `clock(i)`, every call succeeding. */
  function WriteAll<R>(w: PW.WriterState, batches: seq<seq<R>>, flatten: seq<R> -> seq<(string, seq<Row>)>,
                       clock: nat -> Value, md5: RowHash.Serialized -> PW.Digest): (r: PW.WriterState)
    ensures r.sessionTs == w.sessionTs && r.checkpoints == w.checkpoints
    ensures (forall i :: 0 <= i < |batches| ==> batches[i] != []) ==> r.batchNum == w.batchNum + |batches|
    ensures (forall i :: 0 <= i < |batches| ==> batches[i] != []) ==>
      r.rowsWritten + r.rowsSkipped == w.rowsWritten + w.rowsSkipped + RowsIn(batches, flatten)
    ensures r.existingHashes.Some? == w.existingHashes.Some?
    ensures w.existingHashes.None? ==> r.rowsSkipped == w.rowsSkipped
  {
    if batches == [] then w
    else
      var n := |batches|;
      var mid := WriteAll(w, batches[..n - 1], flatten, clock, md5);
      assert forall i :: 0 <= i < n - 1 ==> batches[..n - 1][i] == batches[i];
      PW.WriteBatch(mid, batches[n - 1], flatten, clock(n - 1), md5)
  }

  /** Every write attempt in order, the i-th on batch `tried[i]` at clock
      reading `clock(i)`. An attempt for which `fails(i)` holds is a
      `write_batch` that raises at flattened table `point(i)` (past the last
      table: in `flatten_fn`), leaving what it did before the raise;
      `fixed` selects the corrected `write_batch`, which records a table's
      hashes and counts only once its file is written. */
  function WriteAttempts<R>(w: PW.WriterState, tried: seq<seq<R>>, fails: nat -> bool, point: nat -> nat,
                            fixed: bool, flatten: seq<R> -> seq<(string, seq<Row>)>,
                            clock: nat -> Value, md5: RowHash.Serialized -> PW.Digest): (r: PW.WriterState)
    ensures r.sessionTs == w.sessionTs && r.checkpoints == w.checkpoints
    ensures w.batchNum <= r.batchNum <= w.batchNum + |tried|
    ensures r.existingHashes.Some? == w.existingHashes.Some?
  {
    if tried == [] then w
    else
      var n := |tried|;
      var mid := WriteAttempts(w, tried[..n - 1], fails, point, fixed, flatten, clock, md5);
      if fails(n - 1) then PW.FailedWrite(mid, tried[n - 1], flatten, clock(n - 1), md5, point(n - 1), fixed)
      else PW.WriteBatch(mid, tried[n - 1], flatten, clock(n - 1), md5)
  }

  /** With no attempt failing, the attempts are the plain writes of every
      batch. */
  lemma {:induction false} AttemptsWithoutFailures<R>(w: PW.WriterState, tried: seq<seq<R>>, fails: nat -> bool,
                                                      point: nat -> nat, fixed: bool,
                                                      flatten: seq<R> -> seq<(string, seq<Row>)>,
                                                      clock: nat -> Value, md5: RowHash.Serialized -> PW.Digest)
    requires forall i :: 0 <= i < |tried| ==> !fails(i)
    ensures WriteAttempts(w, tried, fails, point, fixed, flatten, clock, md5) == WriteAll(w, tried, flatten, clock, md5)
    decreases |tried|
  {
    if tried != [] {
      AttemptsWithoutFailures(w, tried[..|tried| - 1], fails, point, fixed, flatten, clock, md5);
    }
  }

  /** Failed or not, no attempt overwrites a file: the writer stays fresh. */
  lemma {:induction false} AttemptsStayFresh<R>(w: PW.WriterState, tried: seq<seq<R>>, fails: nat -> bool,
                                                point: nat -> nat, fixed: bool,
                                                flatten: seq<R> -> seq<(string, seq<Row>)>,
                                                clock: nat -> Value, md5: RowHash.Serialized -> PW.Digest)
    requires PW.SessionFresh(w)
    ensures PW.SessionFresh(WriteAttempts(w, tried, fails, point, fixed, flatten, clock, md5))
    decreases |tried|
  {
    if tried != [] {
      var n := |tried|;
      AttemptsStayFresh(w, tried[..n - 1], fails, point, fixed, flatten, clock, md5);
      var mid := WriteAttempts(w, tried[..n - 1], fails, point, fixed, flatten, clock, md5);
      if fails(n - 1) {
        PW.FailedWriteFresh(mid, tried[n - 1], flatten, clock(n - 1), md5, point(n - 1), fixed);
      } else {
        PW.WriteBatchNeverOverwrites(mid, tried[n - 1], flatten, clock(n - 1), md5);
      }
    }
  }

  /** A batch whose first write raises at table `point(0)` and whose retry
      succeeds, as in a refresh of one entry with `batch_size` 1, in the
      as-written `write_batch` with hashes preloaded: neither attempt leaves
      a file with that table's rows. */
  lemma RetriedBatchLosesTable<R>(w: PW.WriterState, b: seq<R>, fails: nat -> bool, point: nat -> nat,
                                  flatten: seq<R> -> seq<(string, seq<Row>)>,
                                  clock: nat -> Value, md5: RowHash.Serialized -> PW.Digest)
    requires b != [] && PW.SessionFresh(w) && w.existingHashes.Some?
    requires fails(0) && !fails(1)
    requires RowHash.DistinctKeys(flatten(b)) && point(0) < |flatten(b)|
    ensures var name := flatten(b)[point(0)].0;
      var r := WriteAttempts(w, [b, b], fails, point, false, flatten, clock, md5);
      && r.batchNum == w.batchNum + 2
      && PW.FileRows(r, name, PW.BatchPath(w.sessionTs, w.batchNum)) == []
      && PW.FileRows(r, name, PW.BatchPath(w.sessionTs, w.batchNum + 1)) == []
  {
    var f := PW.FailedWrite(w, b, flatten, clock(0), md5, point(0), false);
    FailThenRetry(w, b, fails, point, false, flatten, clock, md5);
    PW.RetryAfterFailedWriteSkips(w, b, flatten, clock(0), clock(1), md5, point(0));
    PW.FailedWriteFresh(w, b, flatten, clock(0), md5, point(0), false);
    PW.WriteBatchNeverOverwrites(f, b, flatten, clock(1), md5);
    PW.FailedWriteTable(w, b, flatten, clock(0), md5, point(0));
  }

  /** The same two attempts with the corrected `write_batch`: the retry's
      file for that table holds exactly the rows it would hold had the
      first attempt never been made. */
  lemma FixedRetriedBatchWritesTable<R>(w: PW.WriterState, b: seq<R>, fails: nat -> bool, point: nat -> nat,
                                        flatten: seq<R> -> seq<(string, seq<Row>)>,
                                        clock: nat -> Value, md5: RowHash.Serialized -> PW.Digest)
    requires b != [] && PW.SessionFresh(w)
    requires fails(0) && !fails(1)
    requires RowHash.DistinctKeys(flatten(b)) && point(0) < |flatten(b)|
    ensures var name := flatten(b)[point(0)].0;
      var r := WriteAttempts(w, [b, b], fails, point, true, flatten, clock, md5);
      && r.batchNum == w.batchNum + 2
      && PW.FileRows(r, name, PW.BatchPath(w.sessionTs, w.batchNum + 1))
           == PW.Kept(w, name, PW.StampAll(flatten(b)[point(0)].1, clock(1), md5))
  {
    FailThenRetry(w, b, fails, point, true, flatten, clock, md5);
    PW.FixedRetryWritesRows(w, b, flatten, clock(0), clock(1), md5, point(0));
  }

  lemma FailThenRetry<R>(w: PW.WriterState, b: seq<R>, fails: nat -> bool, point: nat -> nat, fixed: bool,
                         flatten: seq<R> -> seq<(string, seq<Row>)>,
                         clock: nat -> Value, md5: RowHash.Serialized -> PW.Digest)
    requires fails(0) && !fails(1)
    ensures WriteAttempts(w, [b, b], fails, point, fixed, flatten, clock, md5)
         == PW.WriteBatch(PW.FailedWrite(w, b, flatten, clock(0), md5, point(0), fixed), b, flatten, clock(1), md5)
  {
    assert [b, b][..1] == [b] && [b][..0] == [];
    assert WriteAttempts(w, [], fails, point, fixed, flatten, clock, md5) == w;
    var one := WriteAttempts(w, [b], fails, point, fixed, flatten, clock, md5);
    assert one == PW.FailedWrite(w, b, flatten, clock(0), md5, point(0), fixed);
  }

  /** The checkpoints saved in order, the i-th with `checkpoint_time` `stamps(i)`. */
  function SaveAll(w: PW.WriterState, scope: string, saves: seq<(EntryId, int)>, stamps: nat -> string)
    : (r: PW.WriterState)
    ensures r == w.(checkpoints := r.checkpoints)
    ensures saves == [] ==> r == w
    ensures saves != [] ==>
      var last := saves[|saves| - 1];
      r == PW.SaveCheckpoint(SaveAll(w, scope, saves[..|saves| - 1], stamps), scope, last.0, last.1,
                             stamps(|saves| - 1))
  {
    if saves == [] then w
    else
      var n := |saves|;
      var last := saves[n - 1];
      PW.SaveCheckpoint(SaveAll(w, scope, saves[..n - 1], stamps), scope, last.0, last.1, stamps(n - 1))
  }

  /** The checkpoints saved depend only on the checkpoints before. */
  lemma {:induction false} SaveAllFrame(a: PW.WriterState, b: PW.WriterState, scope: string,
                                        saves: seq<(EntryId, int)>, stamps: nat -> string)
    requires a.checkpoints == b.checkpoints
    ensures SaveAll(a, scope, saves, stamps).checkpoints == SaveAll(b, scope, saves, stamps).checkpoints
    decreases |saves|
  {
    if saves != [] {
      SaveAllFrame(a, b, scope, saves[..|saves| - 1], stamps);
    }
  }

  /** What `run_load` leaves in the writer: every write attempt of its run,
      failed or not, then its checkpoints, then `compact()`. Nothing happens
      when there is nothing to do. */
  function LoadEffect<R>(w: PW.WriterState, scope: string, r: LoadRun<R>, fails: nat -> bool,
                         point: nat -> nat, fixed: bool, flatten: seq<R> -> seq<(string, seq<Row>)>,
                         clock: nat -> Value, stamps: nat -> string,
                         md5: RowHash.Serialized -> PW.Digest): (w': PW.WriterState)
    ensures r.NothingToDo? ==> w' == w
    ensures r.Ran? ==> w'.checkpoints == SaveAll(w, scope, r.saves, stamps).checkpoints
  {
    if r.NothingToDo? then w
    else
      var written := WriteAttempts(w, r.buffer.tried, fails, point, fixed, flatten, clock, md5);
      var saved := SaveAll(written, scope, r.saves, stamps);
      SaveAllFrame(w, written, scope, r.saves, stamps);
      PW.Compact(saved)
  }

  /** What `run_refresh` leaves in the writer: hashes preloaded, every write
      attempt of its run (skipping known rows), then `compact()`. */
  function RefreshEffect<R>(w: PW.WriterState, r: LoadRun<R>, fails: nat -> bool, point: nat -> nat,
                            fixed: bool, flatten: seq<R> -> seq<(string, seq<Row>)>,
                            clock: nat -> Value, md5: RowHash.Serialized -> PW.Digest): (w': PW.WriterState)
    ensures r.NothingToDo? ==> w' == w
    ensures r.Ran? ==> w'.checkpoints == w.checkpoints && w'.existingHashes.Some?
  {
    if r.NothingToDo? then w
    else
      var pre := PW.PreloadHashes(w);
      var written := WriteAttempts(pre, r.buffer.tried, fails, point, fixed, flatten, clock, md5);
      PW.Compact(written)
  }

  /** When no write attempt of a run fails, a refresh writes exactly the
      batches the buffer reports as written. */
  lemma RefreshWithoutFailures<R>(w: PW.WriterState, r: LoadRun<R>, fails: nat -> bool, point: nat -> nat,
                                  fixed: bool, flatten: seq<R> -> seq<(string, seq<Row>)>,
                                  clock: nat -> Value, md5: RowHash.Serialized -> PW.Digest)
    requires r.Ran? && Logged(r.buffer, fails)
    requires forall i :: 0 <= i < |r.buffer.tried| ==> !fails(i)
    ensures RefreshEffect(w, r, fails, point, fixed, flatten, clock, md5)
         == PW.Compact(WriteAll(PW.PreloadHashes(w), r.buffer.written, flatten, clock, md5))
  {
    SucceededAll(r.buffer.tried, fails);
    AttemptsWithoutFailures(PW.PreloadHashes(w), r.buffer.tried, fails, point, fixed, flatten, clock, md5);
  }

  /** The checkpoint a later `run_load` reads back after this one saved any:
      the last saved pair, as `(str(id), total)`. */
  lemma LoadLeavesLastSave<R>(w: PW.WriterState, scope: string, r: LoadRun<R>, fails: nat -> bool,
                              point: nat -> nat, fixed: bool, flatten: seq<R> -> seq<(string, seq<Row>)>,
                              clock: nat -> Value, stamps: nat -> string, md5: RowHash.Serialized -> PW.Digest)
    requires r.Ran? && r.saves != []
    ensures var last := r.saves[|r.saves| - 1];
      PW.GetLastCheckpoint(LoadEffect(w, scope, r, fails, point, fixed, flatten, clock, stamps, md5), scope)
        == Ok((PW.JStr(ShowId(last.0)), PW.JInt(last.1)))
  {
    var last := r.saves[|r.saves| - 1];
    var mid := SaveAll(w, scope, r.saves[..|r.saves| - 1], stamps);
    PW.CheckpointRoundTrip(mid, scope, last.0, last.1, stamps(|r.saves| - 1), scope + "/");
  }
}

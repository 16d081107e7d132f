/** The legacy parallel loader (`load_city_parallel` in
    src/vgsi/parallel.py): URL resolution, resume from the last checkpoint,
    the workers, and the handling of completed results into batches,
    database writes and checkpoints.

    The thread pool is modelled by the order in which the workers' results
    complete (`Env.order`): any order of the submitted pids, each once
    (`CompletesEachOnce`); the results are
    then handled one at a time, as the `batch_lock` and `completed_lock`
    make them. The database is `ScdWriter.Db`; the clock is `Env.clock`,
    read once per database operation.
 */
module LegacyLoader {
  import opened Base
  import Retry
  import LegacyScraper
  import ScdWriter

  /** `scrape_property(base_url, pid)`: the fetch error or the result. The
      loader runs `LegacyScraper.ScrapeProperty` with the page oracles bound. */
  type Scrape = (string, int) -> Result<LegacyScraper.LegacyResult, Retry.Error>

  /** The loader's arguments that the model keeps (`db_path`, the worker
      count, the request rate, the progress bar and photo downloads are
      left out). */
  datatype Config = Config(
    city: string,
    baseUrl: Option<string>,
    pidMin: int,
    pidMax: Option<int>,
    checkpointEvery: int,
    resume: bool,
    batchSize: int)

  /** What the loader gets from outside: the city URL stored in the
      database, the scraper, the completion order of the submitted pids,
      the clock, MD5, and the writer's column lists (the source's are
      `ScdWriter.LegacyColumns`). */
  datatype Env = Env(
    cityUrl: Option<string>,
    scrape: Scrape,
    order: (int, int) -> seq<int>,
    clock: nat -> ScdWriter.Time,
    md5: ScdWriter.Md5,
    columns: ScdWriter.Columns)

  /** `as_completed` over `range(start, pid_max + 1)`: whatever order the
      results complete in, it holds every submitted pid exactly once. */
  ghost predicate CompletesEachOnce(order: (int, int) -> seq<int>)
  {
    forall lo, hi :: multiset(order(lo, hi)) == multiset(Range(lo, hi + 1))
  }

  // ---------------------------------------------------------------------
  // Setup
  // ---------------------------------------------------------------------

  /** The URL with a trailing "/". */
  function Normalise(url: string): (r: string)
    ensures EndsWith(r, "/")
    ensures EndsWith(url, "/") ==> r == url
    ensures !EndsWith(url, "/") ==> r == url + "/"
  {
    if EndsWith(url, "/") then url else url + "/"
  }

  lemma NormaliseIdempotent(url: string)
    ensures Normalise(Normalise(url)) == Normalise(url)
  {
  }

  const CityNotFound := "ValueError: city not found in database; provide base_url"

  /** The base URL: the argument if given, else the city's stored URL,
      which must be non-empty; either way with a trailing "/". */
  function ResolveUrl(baseUrl: Option<string>, cityUrl: Option<string>): Result<string, string>
  {
    match baseUrl
      case Some(u) => Ok(Normalise(u))
      case None =>
        match cityUrl
          case Some(u) => if u == "" then Err(CityNotFound) else Ok(Normalise(u))
          case None => Err(CityNotFound)
  }

  /** The URL fails to resolve exactly when no base URL is given and the
      database has no non-empty URL for the city; otherwise it is the chosen
      URL ending in "/". */
  lemma ResolveUrlSpec(baseUrl: Option<string>, cityUrl: Option<string>)
    ensures ResolveUrl(baseUrl, cityUrl).Err? <==> baseUrl.None? && (cityUrl.None? || cityUrl.value == "")
    ensures baseUrl.Some? ==> ResolveUrl(baseUrl, cityUrl) == Ok(Normalise(baseUrl.value))
    ensures ResolveUrl(baseUrl, cityUrl).Ok? ==> EndsWith(ResolveUrl(baseUrl, cityUrl).value, "/")
  {
  }

  /** The first pid to scrape: one past the checkpointed pid when there is
      one (a positive `last_pid`), else `pid_min`. */
  function StartPid(pidMin: int, last: (int, int)): (r: int)
    ensures last.0 > 0 ==> r > last.0
    ensures last.0 <= 0 ==> r == pidMin
  {
    if last.0 > 0 then last.0 + 1 else pidMin
  }

  /** The page URL stored on the property. */
  function ParcelUrl(baseUrl: string, pid: int): string
  {
    baseUrl + "Parcel.aspx?pid=" + IntToString(pid)
  }

  /** `worker(pid)`: any failure, an invalid pid included, gives None; a
      result gets its property's `vgsi_url`. */
  function Worker(scrape: Scrape, baseUrl: string, pid: int): Option<LegacyScraper.LegacyResult>
  {
    match scrape(baseUrl, pid)
      case Err(_) => None
      case Ok(r) =>
        match r.property
          case None => None
          case Some(p) => Some(r.(property := Some(p["vgsi_url" := Str(ParcelUrl(baseUrl, pid))])))
  }

  /** A worker result is the scraped result with `vgsi_url` set and nothing
      else changed; there is none exactly when the scrape failed or found no
      property. */
  lemma WorkerSpec(scrape: Scrape, baseUrl: string, pid: int)
    ensures Worker(scrape, baseUrl, pid).None? <==> scrape(baseUrl, pid).Err? || scrape(baseUrl, pid).value.property.None?
    ensures Worker(scrape, baseUrl, pid).Some? ==>
      var r := scrape(baseUrl, pid).value;
      var w := Worker(scrape, baseUrl, pid).value;
      && w.(property := r.property) == r
      && w.property.Some?
      && "vgsi_url" in w.property.value
      && w.property.value["vgsi_url"] == Str(ParcelUrl(baseUrl, pid))
      && w.property.value - {"vgsi_url"} == r.property.value - {"vgsi_url"}
  {
  }

  // ---------------------------------------------------------------------
  // Handling completed results
  // ---------------------------------------------------------------------

  /** The loader's state: the database, the pending batch, the success
      count, the batches written so far, and the clock reads used. */
  datatype Load = Load(
    db: ScdWriter.Db,
    batch: seq<LegacyScraper.LegacyResult>,
    count: nat,
    written: seq<seq<LegacyScraper.LegacyResult>>,
    tick: nat)

  /** `db_writer.write_batch(batch)`: on success the batch is recorded and
      cleared; on failure it is kept for the next attempt. */
  function Write(st: Load, batch: seq<LegacyScraper.LegacyResult>, env: Env): Load
  {
    match ScdWriter.WriteBatch(st.db, batch, env.columns, env.clock(st.tick), env.md5)
      case Ok(db) => st.(db := db, batch := [], written := st.written + [batch], tick := st.tick + 1)
      case Err(_) => st.(batch := batch, tick := st.tick + 1)
  }

  /** Whether the `count`-th success is checkpointed. A zero
      `checkpoint_every` raises ZeroDivisionError in `handle_result` after
      the count is taken; the loop catches it, so no checkpoint is saved. */
  predicate CheckpointDue(count: nat, every: int)
  {
    every != 0 && count % every == 0
  }

  /** `handle_result(result, pid)`. */
  function Handle(st: Load, res: Option<LegacyScraper.LegacyResult>, pid: int, cfg: Config, env: Env): Load
  {
    match res
      case None => st
      case Some(r) =>
        var batch := st.batch + [r];
        var st1 := if |batch| >= cfg.batchSize then Write(st, batch, env) else st.(batch := batch);
        var count := st1.count + 1;
        if CheckpointDue(count, cfg.checkpointEvery) then
          st1.(count := count, db := ScdWriter.SaveCheckpoint(st1.db, cfg.city, pid, count, env.clock(st1.tick)),
               tick := st1.tick + 1)
        else st1.(count := count)
  }

  /** The results of the pids, in the order they complete. */
  function Drain(st: Load, pids: seq<int>, baseUrl: string, cfg: Config, env: Env): Load
  {
    if pids == [] then st
    else
      var last := pids[|pids| - 1];
      Handle(Drain(st, pids[..|pids| - 1], baseUrl, cfg, env), Worker(env.scrape, baseUrl, last), last, cfg, env)
  }

  /** The successful results among the pids, in completion order. */
  function Successes(pids: seq<int>, scrape: Scrape, baseUrl: string): seq<LegacyScraper.LegacyResult>
  {
    if pids == [] then []
    else
      Successes(pids[..|pids| - 1], scrape, baseUrl)
      + match Worker(scrape, baseUrl, pids[|pids| - 1]) { case Some(r) => [r] case None => [] }
  }

  lemma {:induction false} SuccessesAppend(a: seq<int>, b: seq<int>, scrape: Scrape, baseUrl: string)
    ensures Successes(a + b, scrape, baseUrl) == Successes(a, scrape, baseUrl) + Successes(b, scrape, baseUrl)
    decreases |b|
  {
    if b == [] {
      assert a + b == a;
    } else {
      var n := |b|;
      assert (a + b)[..|a + b| - 1] == a + b[..n - 1];
      SuccessesAppend(a, b[..n - 1], scrape, baseUrl);
      AppendAssoc(Successes(a, scrape, baseUrl), Successes(b[..n - 1], scrape, baseUrl),
                  match Worker(scrape, baseUrl, b[n - 1]) { case Some(r) => [r] case None => [] });
    }
  }

  /** Taking the same element out of two permutations leaves permutations. */
  lemma CancelOne<T>(s: seq<T>, x: T, pre: seq<T>, post: seq<T>)
    requires multiset(s + [x]) == multiset(pre + [x] + post)
    ensures multiset(s) == multiset(pre + post)
  {
    assert multiset(s + [x]) == multiset(s) + multiset{x};
    assert multiset(pre + [x] + post) == multiset(pre + post) + multiset{x};
    forall y
      ensures multiset(s)[y] == multiset(pre + post)[y]
    {
      assert multiset(s + [x])[y] == multiset(pre + [x] + post)[y];
    }
  }

  /** The successes do not depend on the completion order: two orders of
      the same pids give the same results, up to order. */
  lemma {:induction false} SuccessesPermutation(s: seq<int>, t: seq<int>, scrape: Scrape, baseUrl: string)
    requires multiset(s) == multiset(t)
    ensures multiset(Successes(s, scrape, baseUrl)) == multiset(Successes(t, scrape, baseUrl))
    decreases |s|
  {
    if s != [] {
      var n := |s|;
      var x := s[n - 1];
      var s1 := s[..n - 1];
      assert s == s1 + [x];
      assert x in multiset(t);
      var k :| 0 <= k < |t| && t[k] == x;
      var pre, post := t[..k], t[k + 1..];
      var t1 := pre + post;
      assert t == pre + [x] + post;
      CancelOne(s1, x, pre, post);
      SuccessesPermutation(s1, t1, scrape, baseUrl);
      var one := Successes([x], scrape, baseUrl);
      SuccessesAppend(s1, [x], scrape, baseUrl);
      SuccessesAppend(pre, [x], scrape, baseUrl);
      SuccessesAppend(pre + [x], post, scrape, baseUrl);
      SuccessesAppend(pre, post, scrape, baseUrl);
      var sp, so := Successes(pre, scrape, baseUrl), Successes(post, scrape, baseUrl);
      assert Successes(t, scrape, baseUrl) == sp + one + so;
      assert multiset(Successes(t, scrape, baseUrl)) == multiset(sp) + multiset(one) + multiset(so);
      assert multiset(Successes(t1, scrape, baseUrl)) == multiset(sp) + multiset(so);
    }
  }

  /** No result is lost or written twice while handling: the written batches
      followed by the pending one are exactly the successes so far, in
      completion order, whichever writes failed; and the count is their
      number. */
  lemma {:induction false} DrainAccounting(st: Load, pids: seq<int>, baseUrl: string, cfg: Config, env: Env)
    ensures Concat(Drain(st, pids, baseUrl, cfg, env).written) + Drain(st, pids, baseUrl, cfg, env).batch
            == Concat(st.written) + st.batch + Successes(pids, env.scrape, baseUrl)
    ensures Drain(st, pids, baseUrl, cfg, env).count == st.count + |Successes(pids, env.scrape, baseUrl)|
  {
    if pids != [] {
      var init := pids[..|pids| - 1];
      var last := pids[|pids| - 1];
      DrainAccounting(st, init, baseUrl, cfg, env);
      var s0 := Drain(st, init, baseUrl, cfg, env);
      var w := Worker(env.scrape, baseUrl, last);
      if w.Some? {
        HandleAccounting(s0, w.value, last, cfg, env);
        AppendAssoc(Concat(st.written) + st.batch, Successes(init, env.scrape, baseUrl), [w.value]);
      }
    }
  }

  /** One handled success moves into the written batches or the pending
      one, and is counted. */
  lemma HandleAccounting(st: Load, r: LegacyScraper.LegacyResult, pid: int, cfg: Config, env: Env)
    ensures Concat(Handle(st, Some(r), pid, cfg, env).written) + Handle(st, Some(r), pid, cfg, env).batch
            == Concat(st.written) + st.batch + [r]
    ensures Handle(st, Some(r), pid, cfg, env).count == st.count + 1
  {
    var batch := st.batch + [r];
    ConcatAppend(st.written, batch);
    AppendAssoc(Concat(st.written), st.batch, [r]);
  }

  /** The totals checkpointed while the count goes from `from` to `to`: every
      multiple of `every` in between, in order. */
  function Cadence(from: nat, to: nat, every: int): seq<int>
  {
    if to <= from then []
    else Cadence(from, to - 1, every) + if CheckpointDue(to, every) then [to] else []
  }

  function Totals(cps: seq<ScdWriter.Checkpoint>): seq<int>
  {
    MapSeq(cps, (c: ScdWriter.Checkpoint) => c.totalScraped)
  }

  /** Handling one success keeps every earlier checkpoint and adds one for
      the city exactly when the new count is due. */
  lemma HandleCheckpoints(st: Load, r: LegacyScraper.LegacyResult, pid: int, cfg: Config, env: Env)
    ensures var cps := Handle(st, Some(r), pid, cfg, env).db.checkpoints;
      && st.db.checkpoints <= cps
      && Totals(cps[|st.db.checkpoints|..]) == (if CheckpointDue(st.count + 1, cfg.checkpointEvery) then [st.count + 1] else [])
      && forall j :: |st.db.checkpoints| <= j < |cps| ==> cps[j].city == cfg.city && cps[j].lastPid == pid
  {
    var batch := st.batch + [r];
    if |batch| >= cfg.batchSize {
      match ScdWriter.WriteBatch(st.db, batch, env.columns, env.clock(st.tick), env.md5)
      case Ok(_) =>
        ScdWriter.WriteBatchKeepsCheckpoints(st.db, batch, env.columns, env.clock(st.tick), env.md5);
      case Err(_) =>
    }
  }

  /** Draining keeps every earlier checkpoint, and every new one is the
      city's. */
  lemma {:induction false} DrainKeepsCheckpoints(st: Load, pids: seq<int>, baseUrl: string, cfg: Config, env: Env)
    ensures st.db.checkpoints <= Drain(st, pids, baseUrl, cfg, env).db.checkpoints
    ensures forall j :: |st.db.checkpoints| <= j < |Drain(st, pids, baseUrl, cfg, env).db.checkpoints| ==>
      Drain(st, pids, baseUrl, cfg, env).db.checkpoints[j].city == cfg.city
  {
    if pids != [] {
      var init := pids[..|pids| - 1];
      var last := pids[|pids| - 1];
      DrainKeepsCheckpoints(st, init, baseUrl, cfg, env);
      var w := Worker(env.scrape, baseUrl, last);
      if w.Some? {
        HandleCheckpoints(Drain(st, init, baseUrl, cfg, env), w.value, last, cfg, env);
      }
    }
  }

  /** The totals of the checkpoints saved while draining are exactly the
      due counts reached. */
  lemma {:induction false} DrainCheckpoints(st: Load, pids: seq<int>, baseUrl: string, cfg: Config, env: Env)
    ensures var d := Drain(st, pids, baseUrl, cfg, env);
      && |st.db.checkpoints| <= |d.db.checkpoints|
      && Totals(d.db.checkpoints[|st.db.checkpoints|..]) == Cadence(st.count, d.count, cfg.checkpointEvery)
  {
    DrainKeepsCheckpoints(st, pids, baseUrl, cfg, env);
    if pids != [] {
      var init := pids[..|pids| - 1];
      var last := pids[|pids| - 1];
      DrainCheckpoints(st, init, baseUrl, cfg, env);
      DrainKeepsCheckpoints(st, init, baseUrl, cfg, env);
      DrainCountGrows(st, init, baseUrl, cfg, env);
      var s0 := Drain(st, init, baseUrl, cfg, env);
      var w := Worker(env.scrape, baseUrl, last);
      if w.Some? {
        HandleCheckpoints(s0, w.value, last, cfg, env);
        HandleAccounting(s0, w.value, last, cfg, env);
        var d := Handle(s0, w, last, cfg, env);
        CadenceStep(s0.db.checkpoints, d.db.checkpoints, |st.db.checkpoints|, st.count, s0.count, cfg.checkpointEvery);
      }
    }
  }

  lemma {:induction false} DrainCountGrows(st: Load, pids: seq<int>, baseUrl: string, cfg: Config, env: Env)
    ensures st.count <= Drain(st, pids, baseUrl, cfg, env).count
  {
    if pids != [] {
      DrainCountGrows(st, pids[..|pids| - 1], baseUrl, cfg, env);
    }
  }

  /** One more count extends the checkpointed totals by its due entry. */
  lemma CadenceStep(a: seq<ScdWriter.Checkpoint>, b: seq<ScdWriter.Checkpoint>, n0: nat, from: nat, c0: nat, every: int)
    requires a <= b && n0 <= |a| && from <= c0
    requires Totals(a[n0..]) == Cadence(from, c0, every)
    requires Totals(b[|a|..]) == if CheckpointDue(c0 + 1, every) then [c0 + 1] else []
    ensures Totals(b[n0..]) == Cadence(from, c0 + 1, every)
  {
    assert b[n0..] == a[n0..] + b[|a|..];
    TotalsAppend(a[n0..], b[|a|..]);
  }

  lemma TotalsAppend(a: seq<ScdWriter.Checkpoint>, b: seq<ScdWriter.Checkpoint>)
    ensures Totals(a + b) == Totals(a) + Totals(b)
  {
  }

  /** The checkpointed totals are exactly the due counts after `from` up to
      `to`, in increasing order. */
  lemma {:induction false} CadenceSpec(from: nat, to: nat, every: int)
    ensures forall k :: k in Cadence(from, to, every) <==> from < k <= to && CheckpointDue(k, every)
    ensures forall i, j :: 0 <= i < j < |Cadence(from, to, every)| ==> Cadence(from, to, every)[i] < Cadence(from, to, every)[j]
  {
    if to > from {
      CadenceSpec(from, to - 1, every);
      var c := Cadence(from, to - 1, every);
      assert forall i :: 0 <= i < |c| ==> c[i] in c;
    }
  }

  // ---------------------------------------------------------------------
  // The whole run
  // ---------------------------------------------------------------------

  /** What a run leaves: the database, the success count it returns, the
      batches it wrote, the results it could not write, and the first pid
      it scraped. */
  datatype Outcome = Outcome(
    db: ScdWriter.Db,
    count: nat,
    written: seq<seq<LegacyScraper.LegacyResult>>,
    unwritten: seq<LegacyScraper.LegacyResult>,
    firstPid: int)

  /** The first pid of a run. */
  function FirstPid(cfg: Config, db: ScdWriter.Db): int
  {
    if cfg.resume then StartPid(cfg.pidMin, ScdWriter.GetLastCheckpoint(db, cfg.city)) else cfg.pidMin
  }

  /** `load_city_parallel(...)`: validate, resolve the URL, pick the first
      pid, handle every completed pid, flush what is left, save the final
      checkpoint `(pid_max, count)`. */
  function LoadCity(cfg: Config, env: Env, db: ScdWriter.Db): Result<Outcome, string>
  {
    if cfg.pidMax.None? then Err("ValueError: pid_max is required")
    else match ResolveUrl(cfg.baseUrl, env.cityUrl)
      case Err(e) => Err(e)
      case Ok(baseUrl) =>
        var first := FirstPid(cfg, db);
        var st := Drain(Load(db, [], 0, [], 0), env.order(first, cfg.pidMax.value), baseUrl, cfg, env);
        var fin := Flush(st, env);
        Ok(Outcome(ScdWriter.SaveCheckpoint(fin.db, cfg.city, cfg.pidMax.value, fin.count, env.clock(fin.tick)),
                   fin.count, fin.written, fin.batch, first))
  }

  /** The final `if batch: write_batch(batch)`. */
  function Flush(st: Load, env: Env): Load
  {
    if st.batch != [] then Write(st, st.batch, env) else st
  }

  /** Flushing loses no result and counts nothing new. */
  lemma FlushAccounting(st: Load, env: Env)
    ensures Concat(Flush(st, env).written) + Flush(st, env).batch == Concat(st.written) + st.batch
    ensures Flush(st, env).count == st.count
  {
    if st.batch != [] {
      ConcatAppend(st.written, st.batch);
    }
  }

  /** A run fails before scraping exactly when `pid_max` is missing or the
      URL cannot be resolved. */
  lemma LoadCityFails(cfg: Config, env: Env, db: ScdWriter.Db)
    ensures LoadCity(cfg, env, db).Err? <==> cfg.pidMax.None? || ResolveUrl(cfg.baseUrl, env.cityUrl).Err?
  {
  }

  /** A run's written batches and unwritten rest are exactly its successful
      results in completion order, and the count it returns is their
      number. */
  lemma LoadCityAccounting(cfg: Config, env: Env, db: ScdWriter.Db)
    requires LoadCity(cfg, env, db).Ok?
    ensures var o := LoadCity(cfg, env, db).value;
      var ok := Successes(env.order(o.firstPid, cfg.pidMax.value), env.scrape,
                          ResolveUrl(cfg.baseUrl, env.cityUrl).value);
      && Concat(o.written) + o.unwritten == ok
      && o.count == |ok|
  {
    var baseUrl := ResolveUrl(cfg.baseUrl, env.cityUrl).value;
    var first := FirstPid(cfg, db);
    var s0 := Load(db, [], 0, [], 0);
    var pids := env.order(first, cfg.pidMax.value);
    DrainAccounting(s0, pids, baseUrl, cfg, env);
    var st := Drain(s0, pids, baseUrl, cfg, env);
    FlushAccounting(st, env);
    var fin := Flush(st, env);
    var o := LoadCity(cfg, env, db).value;
    assert o.written == fin.written && o.unwritten == fin.batch && o.count == fin.count && o.firstPid == first;
  }

  /** With the pool completing each submitted pid once, a run scrapes
      exactly the pids from its first pid to `pid_max`, each once, and its
      written and unwritten results are the successes of that range, up to
      completion order. */
  lemma LoadCityScrapesRange(cfg: Config, env: Env, db: ScdWriter.Db)
    requires LoadCity(cfg, env, db).Ok? && CompletesEachOnce(env.order)
    ensures var o := LoadCity(cfg, env, db).value;
      var ok := Successes(Range(o.firstPid, cfg.pidMax.value + 1), env.scrape,
                          ResolveUrl(cfg.baseUrl, env.cityUrl).value);
      && (forall p :: multiset(env.order(o.firstPid, cfg.pidMax.value))[p] ==
            if o.firstPid <= p <= cfg.pidMax.value then 1 else 0)
      && multiset(Concat(o.written) + o.unwritten) == multiset(ok)
      && o.count == |ok|
  {
    var o := LoadCity(cfg, env, db).value;
    var pids := env.order(o.firstPid, cfg.pidMax.value);
    var range := Range(o.firstPid, cfg.pidMax.value + 1);
    var baseUrl := ResolveUrl(cfg.baseUrl, env.cityUrl).value;
    assert multiset(pids) == multiset(range);
    forall p
      ensures multiset(pids)[p] == if o.firstPid <= p <= cfg.pidMax.value then 1 else 0
    {
      RangeCount(o.firstPid, cfg.pidMax.value + 1, p);
    }
    LoadCityAccounting(cfg, env, db);
    SuccessesPermutation(pids, range, env.scrape, baseUrl);
    assert |Successes(pids, env.scrape, baseUrl)| == |multiset(Successes(pids, env.scrape, baseUrl))|;
    assert |Successes(range, env.scrape, baseUrl)| == |multiset(Successes(range, env.scrape, baseUrl))|;
  }

  /** The clock never runs backwards. */
  ghost predicate Monotone(clock: nat -> ScdWriter.Time)
  {
    forall i: nat, j: nat :: i <= j ==> clock(i) <= clock(j)
  }

  /** Every checkpoint in the database was taken no later than clock read
      `tick`. */
  predicate StampedBy(db: ScdWriter.Db, clock: nat -> ScdWriter.Time, tick: nat)
  {
    forall j :: 0 <= j < |db.checkpoints| ==> db.checkpoints[j].time <= clock(tick)
  }

  lemma HandleStamps(st: Load, res: Option<LegacyScraper.LegacyResult>, pid: int, cfg: Config, env: Env)
    requires Monotone(env.clock) && StampedBy(st.db, env.clock, st.tick)
    ensures var h := Handle(st, res, pid, cfg, env); StampedBy(h.db, env.clock, h.tick)
  {
    if res.Some? {
      var batch := st.batch + [res.value];
      if |batch| >= cfg.batchSize {
        assert env.clock(st.tick) <= env.clock(st.tick + 1);
        match ScdWriter.WriteBatch(st.db, batch, env.columns, env.clock(st.tick), env.md5)
        case Ok(_) =>
          ScdWriter.WriteBatchKeepsCheckpoints(st.db, batch, env.columns, env.clock(st.tick), env.md5);
        case Err(_) =>
      }
      var st1 := if |batch| >= cfg.batchSize then Write(st, batch, env) else st.(batch := batch);
      assert env.clock(st1.tick) <= env.clock(st1.tick + 1);
    }
  }

  lemma {:induction false} DrainStamps(st: Load, pids: seq<int>, baseUrl: string, cfg: Config, env: Env)
    requires Monotone(env.clock) && StampedBy(st.db, env.clock, st.tick)
    ensures var d := Drain(st, pids, baseUrl, cfg, env); StampedBy(d.db, env.clock, d.tick)
  {
    if pids != [] {
      DrainStamps(st, pids[..|pids| - 1], baseUrl, cfg, env);
      HandleStamps(Drain(st, pids[..|pids| - 1], baseUrl, cfg, env), Worker(env.scrape, baseUrl, pids[|pids| - 1]),
                   pids[|pids| - 1], cfg, env);
    }
  }

  /** After a run, with a clock that never runs backwards, the city's last
      checkpoint is the run's final one: `(pid_max, count)`. */
  lemma LoadCityFinalCheckpoint(cfg: Config, env: Env, db: ScdWriter.Db)
    requires LoadCity(cfg, env, db).Ok?
    requires Monotone(env.clock) && StampedBy(db, env.clock, 0)
    ensures var o := LoadCity(cfg, env, db).value;
      ScdWriter.GetLastCheckpoint(o.db, cfg.city) == (cfg.pidMax.value, o.count)
  {
    var baseUrl := ResolveUrl(cfg.baseUrl, env.cityUrl).value;
    var s0 := Load(db, [], 0, [], 0);
    var pids := env.order(FirstPid(cfg, db), cfg.pidMax.value);
    DrainStamps(s0, pids, baseUrl, cfg, env);
    var st := Drain(s0, pids, baseUrl, cfg, env);
    var fin := Flush(st, env);
    if st.batch != [] {
      assert env.clock(st.tick) <= env.clock(st.tick + 1);
      match ScdWriter.WriteBatch(st.db, st.batch, env.columns, env.clock(st.tick), env.md5)
      case Ok(_) =>
        ScdWriter.WriteBatchKeepsCheckpoints(st.db, st.batch, env.columns, env.clock(st.tick), env.md5);
      case Err(_) =>
    }
    assert StampedBy(fin.db, env.clock, fin.tick);
    ScdWriter.CheckpointRoundTrip(fin.db, cfg.city, cfg.pidMax.value, fin.count, env.clock(fin.tick));
  }

  /** Resuming after a finished run with a positive `pid_max` starts past
      it, so the resumed run scrapes nothing it already covered: it starts
      at `pid_max + 1` even if results were lost to failed writes. */
  lemma ResumeAfterRunSkipsRange(cfg: Config, env: Env, db: ScdWriter.Db, cfg2: Config)
    requires LoadCity(cfg, env, db).Ok? && cfg.pidMax.value > 0
    requires Monotone(env.clock) && StampedBy(db, env.clock, 0)
    requires cfg2.resume && cfg2.city == cfg.city
    ensures FirstPid(cfg2, LoadCity(cfg, env, db).value.db) == cfg.pidMax.value + 1
  {
    LoadCityFinalCheckpoint(cfg, env, db);
  }
}

/** The retry loop with exponential backoff shared by the page fetchers:
    `_fetch_page_with_retry` (scrapers/ct_data/source.py) and the two
    `fetch_page` functions (scrapers/vgsi/source.py, src/vgsi/scraper.py).

    Attempt `k` is an oracle `tries(k)`. Each failed, retried attempt but the
    last is followed by a sleep; the delay starts at `initial_delay` and is
    multiplied by `backoff_factor` after every sleep.
 */
module Retry {
  import opened Base

  /** The exceptions an attempt can raise. `InvalidEntry` is the source's
      invalid-entry exception (re-raised at once); `Network` is a
      connection error, timeout or HTTP error status; `Other` is any other
      exception. The last two are raised by the loop itself when it ran no
      attempt at all. */
  datatype Error =
    | InvalidEntry(msg: string)
    | Network(msg: string)
    | Other(msg: string)
    | NoRecordedException  // RuntimeError("Request failed with no recorded exception")
    | RaiseNone            // the TypeError of `raise None`

  datatype Attempt<+T> = Done(value: T) | Raised(error: Error)

  /** Which errors a fetcher retries, and what it raises when the attempt
      range is empty (`max_retries < 0`). */
  datatype Policy = Policy(retryOther: bool, fallback: Error)

  /** `except Exception` after `except InvalidDatasetException: raise`. */
  const CtDataPolicy := Policy(true, NoRecordedException)
  /** `except (ConnectionError, Timeout, HTTPError)`, then
      `raise last_exception or RuntimeError(...)`. */
  const VgsiPolicy := Policy(false, NoRecordedException)
  /** The same except clause, then a bare `raise last_exception`. */
  const LegacyPolicy := Policy(false, RaiseNone)

  predicate Retried(p: Policy, e: Error)
  {
    e.Network? || (p.retryOther && e.Other?)
  }

  /** The outcome of the loop, the attempts it made and the sleeps between them. */
  datatype Fetch<+T> = Fetch(result: Result<T, Error>, attempts: nat, sleeps: seq<real>)

  /** Attempts `attempt .. maxRetries` of `for attempt in range(max_retries + 1)`,
      with the delay the loop has reached. */
  function RetryFrom<T>(tries: nat -> Attempt<T>, p: Policy, maxRetries: int, attempt: nat,
                        delay: real, factor: real): (r: Fetch<T>)
    requires attempt <= maxRetries
    ensures attempt < r.attempts <= maxRetries + 1
    decreases maxRetries - attempt
  {
    match tries(attempt)
      case Done(v) => Fetch(Ok(v), attempt + 1, [])
      case Raised(e) =>
        if Retried(p, e) && attempt < maxRetries then
          var rest := RetryFrom(tries, p, maxRetries, attempt + 1, delay * factor, factor);
          rest.(sleeps := [delay] + rest.sleeps)
        else Fetch(Err(e), attempt + 1, [])
  }

  /** The whole fetch: no attempt at all when `max_retries < 0`. */
  function RetryLoop<T>(tries: nat -> Attempt<T>, p: Policy, maxRetries: int,
                        initialDelay: real, factor: real): (r: Fetch<T>)
    ensures maxRetries < 0 ==> r.attempts == 0 && r.sleeps == [] && r.result == Err(p.fallback)
    ensures maxRetries >= 0 ==> 1 <= r.attempts <= maxRetries + 1
  {
    if maxRetries < 0 then Fetch(Err(p.fallback), 0, [])
    else RetryFrom(tries, p, maxRetries, 0, initialDelay, factor)
  }

  /** What the loop did from `attempt` on: every attempt before the last was
      a retried error, the last one decides the result, and it is a retried
      error only when the range is used up. */
  lemma {:induction false} RetryFromSpec<T>(tries: nat -> Attempt<T>, p: Policy, maxRetries: int,
                                            attempt: nat, delay: real, factor: real)
    requires attempt <= maxRetries
    ensures var r := RetryFrom(tries, p, maxRetries, attempt, delay, factor);
      var last := r.attempts - 1;
      && (forall j :: attempt <= j < last ==> tries(j).Raised? && Retried(p, tries(j).error))
      && (tries(last).Done? ==> r.result == Ok(tries(last).value))
      && (tries(last).Raised? ==> r.result == Err(tries(last).error))
      && (tries(last).Raised? && Retried(p, tries(last).error) ==> last == maxRetries)
    decreases maxRetries - attempt
  {
    var r := RetryFrom(tries, p, maxRetries, attempt, delay, factor);
    if tries(attempt).Raised? && Retried(p, tries(attempt).error) && attempt < maxRetries {
      var rest := RetryFrom(tries, p, maxRetries, attempt + 1, delay * factor, factor);
      RetryFromSpec(tries, p, maxRetries, attempt + 1, delay * factor, factor);
      assert r.attempts == rest.attempts && r.result == rest.result;
    } else {
      assert r.attempts == attempt + 1;
    }
  }

  /** One sleep after each attempt but the last. */
  lemma {:induction false} RetryFromSleepCount<T>(tries: nat -> Attempt<T>, p: Policy, maxRetries: int,
                                                  attempt: nat, delay: real, factor: real)
    requires attempt <= maxRetries
    ensures var r := RetryFrom(tries, p, maxRetries, attempt, delay, factor);
      |r.sleeps| == r.attempts - 1 - attempt
    decreases maxRetries - attempt
  {
    if tries(attempt).Raised? && Retried(p, tries(attempt).error) && attempt < maxRetries {
      RetryFromSleepCount(tries, p, maxRetries, attempt + 1, delay * factor, factor);
    }
  }

  /** Each element of `s` is `next` of the one before it. */
  predicate Chained(s: seq<real>, next: real -> real)
  {
    forall i :: 0 < i < |s| ==> s[i] == next(s[i - 1])
  }

  /** Putting `d` in front of a chain that starts at `next(d)` keeps it a
      chain. */
  lemma ChainedCons(d: real, s: seq<real>, next: real -> real)
    requires Chained(s, next)
    requires s != [] ==> s[0] == next(d)
    ensures Chained([d] + s, next)
  {
    var t := [d] + s;
    forall i | 0 < i < |t|
      ensures t[i] == next(t[i - 1])
    {
      if i > 1 {
        assert t[i] == s[i - 1] && t[i - 1] == s[i - 2];
      }
    }
  }

  /** Multiplication by `factor`, the backoff step. */
  function Times(factor: real): real -> real
  {
    x => x * factor
  }

  /** The sleeps from `attempt` on follow the backoff schedule: the first is
      `delay`, and each one after is the one before times `factor`. */
  lemma {:induction false} RetryFromSleeps<T>(tries: nat -> Attempt<T>, p: Policy, maxRetries: int,
                                              attempt: nat, delay: real, factor: real)
    requires attempt <= maxRetries
    ensures var r := RetryFrom(tries, p, maxRetries, attempt, delay, factor);
      && (r.sleeps != [] ==> r.sleeps[0] == delay)
      && Chained(r.sleeps, Times(factor))
    decreases maxRetries - attempt
  {
    if tries(attempt).Raised? && Retried(p, tries(attempt).error) && attempt < maxRetries {
      var rest := RetryFrom(tries, p, maxRetries, attempt + 1, delay * factor, factor);
      RetryFromSleeps(tries, p, maxRetries, attempt + 1, delay * factor, factor);
      ChainedCons(delay, rest.sleeps, Times(factor));
    }
  }

  /** The loop as a whole: at most `max_retries + 1` attempts, all but the
      last of them retried errors; the last attempt's value or error is the
      result, a retried error only when no attempt was left; the sleeps start
      at `initial_delay` and grow by `backoff_factor` each time. */
  lemma RetryLoopSpec<T>(tries: nat -> Attempt<T>, p: Policy, maxRetries: int,
                         initialDelay: real, factor: real)
    requires maxRetries >= 0
    ensures var r := RetryLoop(tries, p, maxRetries, initialDelay, factor);
      var last := r.attempts - 1;
      && 1 <= r.attempts <= maxRetries + 1
      && |r.sleeps| == r.attempts - 1
      && (r.sleeps != [] ==> r.sleeps[0] == initialDelay)
      && (forall i :: 0 < i < |r.sleeps| ==> r.sleeps[i] == r.sleeps[i - 1] * factor)
      && (forall j :: 0 <= j < last ==> tries(j).Raised? && Retried(p, tries(j).error))
      && (tries(last).Done? ==> r.result == Ok(tries(last).value))
      && (tries(last).Raised? ==> r.result == Err(tries(last).error))
      && (tries(last).Raised? && Retried(p, tries(last).error) ==> last == maxRetries)
  {
    RetryFromSpec(tries, p, maxRetries, 0, initialDelay, factor);
    RetryFromSleepCount(tries, p, maxRetries, 0, initialDelay, factor);
    RetryFromSleeps(tries, p, maxRetries, 0, initialDelay, factor);
  }

  /** The fetch succeeds iff some attempt within the range succeeds after
      nothing but retried errors. */
  lemma RetrySucceedsIff<T>(tries: nat -> Attempt<T>, p: Policy, maxRetries: int,
                            initialDelay: real, factor: real)
    ensures var r := RetryLoop(tries, p, maxRetries, initialDelay, factor);
      r.result.Ok? <==>
        exists k :: 0 <= k <= maxRetries && tries(k).Done?
                    && forall j :: 0 <= j < k ==> tries(j).Raised? && Retried(p, tries(j).error)
  {
    var r := RetryLoop(tries, p, maxRetries, initialDelay, factor);
    if maxRetries >= 0 {
      RetryLoopSpec(tries, p, maxRetries, initialDelay, factor);
      var last := r.attempts - 1;
      if exists k :: 0 <= k <= maxRetries && tries(k).Done?
                     && forall j :: 0 <= j < k ==> tries(j).Raised? && Retried(p, tries(j).error) {
        var k :| 0 <= k <= maxRetries && tries(k).Done?
                 && forall j :: 0 <= j < k ==> tries(j).Raised? && Retried(p, tries(j).error);
        assert k == last;
      }
      if r.result.Ok? {
        assert tries(last).Done?;
      }
    }
  }

  /** An invalid-entry error is never retried, under any policy: the first
      one ends the loop with that error. */
  lemma InvalidEntryNotRetried<T>(tries: nat -> Attempt<T>, p: Policy, maxRetries: int,
                                  initialDelay: real, factor: real, k: nat)
    requires k <= maxRetries && tries(k).Raised? && tries(k).error.InvalidEntry?
    requires forall j :: 0 <= j < k ==> tries(j).Raised? && Retried(p, tries(j).error)
    ensures var r := RetryLoop(tries, p, maxRetries, initialDelay, factor);
      r.attempts == k + 1 && r.result == Err(tries(k).error)
  {
    RetryLoopSpec(tries, p, maxRetries, initialDelay, factor);
  }
}

/** The VGSI source (scrapers/vgsi/source.py): the parcel-page fetch with
    retries, the property uuid, the PID iterator, the version rule of
    `get_property_history`, and `flatten_vgsi`.

    HTTP is an oracle `get(url, attempt)`; the parsed page is kept as its
    text. MD5 and the uuid rendering form one uninterpreted `uuidOf`, and
    JSON text is an uninterpreted `dumps` of the structured serialization.
 */
module VgsiSource {
  import opened Base
  import opened Retry
  import RowHash
  import opened Tables

  // ---------------------------------------------------------------------
  // fetch_page
  // ---------------------------------------------------------------------

  /** `_ERROR_ACTION`: the form action of the page VGSI serves for an unknown PID. */
  const ErrorAction := "./Error.aspx?Message=There+was+an+error+loading+the+parcel."
  const MaxRetries := 3
  const InitialDelay := 1.0
  const BackoffFactor := 2.0

  /** One GET of a parcel page. `formAction` is the `action` attribute of
      the element with id `form1` ("" when the attribute is missing), or
      `None` when there is no such element. */
  datatype Reply =
    | Page(status: int, formAction: Option<string>, html: string)
    | NetworkFailure(msg: string)  // ConnectionError or Timeout
    | Unexpected(msg: string)      // any other exception of the request

  /** `f"{base_url}Parcel.aspx?pid={pid}"`. */
  function PageUrl(baseUrl: string, pid: EntryId): (r: string)
    ensures |r| == |baseUrl| + 16 + |ShowId(pid)|
    ensures StartsWith(r, baseUrl) && EndsWith(r, ShowId(pid))
    ensures r[|baseUrl|..|baseUrl| + 16] == "Parcel.aspx?pid="
  {
    baseUrl + "Parcel.aspx?pid=" + ShowId(pid)
  }

  /** `raise_for_status()` raises for 4xx and 5xx statuses only. */
  predicate HttpError(status: int)
  {
    400 <= status < 600
  }

  /** One attempt of the loop body: HTTP errors are network errors, the
      error page of an unknown PID is the invalid-entry exception, and any
      other page is returned. */
  function PageAttempt(pid: EntryId, reply: Reply): (r: Attempt<string>)
    ensures r.Done? <==> reply.Page? && !HttpError(reply.status) && reply.formAction != Some(ErrorAction)
    ensures r.Done? ==> r.value == reply.html
    ensures r.Raised? && r.error.InvalidEntry? <==>
      reply.Page? && !HttpError(reply.status) && reply.formAction == Some(ErrorAction)
    ensures r.Raised? && r.error.Network? <==> reply.NetworkFailure? || (reply.Page? && HttpError(reply.status))
  {
    match reply
      case NetworkFailure(msg) => Raised(Network(msg))
      case Unexpected(msg) => Raised(Other(msg))
      case Page(status, action, html) =>
        if HttpError(status) then Raised(Network("HTTP " + IntToString(status)))
        else if action == Some(ErrorAction) then Raised(InvalidEntry("PID " + ShowId(pid) + " doesn't exist"))
        else Done(html)
  }

  /** `fetch_page(base_url, pid, max_retries)`. */
  function FetchPage(get: (string, nat) -> Reply, baseUrl: string, pid: EntryId, maxRetries: int): Fetch<string>
  {
    var url := PageUrl(baseUrl, pid);
    RetryLoop((k: nat) => PageAttempt(pid, get(url, k)), VgsiPolicy, maxRetries, InitialDelay, BackoffFactor)
  }

  /** An unknown PID is reported at once: the first error page ends the
      fetch with "PID ... doesn't exist", without sleeping. */
  lemma MissingPidNotRetried(get: (string, nat) -> Reply, baseUrl: string, pid: EntryId, maxRetries: int)
    requires maxRetries >= 0
    requires var reply := get(PageUrl(baseUrl, pid), 0);
      reply.Page? && !HttpError(reply.status) && reply.formAction == Some(ErrorAction)
    ensures var f := FetchPage(get, baseUrl, pid, maxRetries);
      f.attempts == 1 && f.sleeps == [] && f.result == Err(InvalidEntry("PID " + ShowId(pid) + " doesn't exist"))
  {
    var url := PageUrl(baseUrl, pid);
    RetryLoopSpec((k: nat) => PageAttempt(pid, get(url, k)), VgsiPolicy, maxRetries, InitialDelay, BackoffFactor);
  }

  /** Only connection errors, timeouts and HTTP errors are retried: any
      other exception of the first request propagates at once. */
  lemma UnexpectedNotRetried(get: (string, nat) -> Reply, baseUrl: string, pid: EntryId, maxRetries: int)
    requires maxRetries >= 0
    requires get(PageUrl(baseUrl, pid), 0).Unexpected?
    ensures var f := FetchPage(get, baseUrl, pid, maxRetries);
      f.attempts == 1 && f.sleeps == [] && f.result == Err(Other(get(PageUrl(baseUrl, pid), 0).msg))
  {
    var url := PageUrl(baseUrl, pid);
    RetryLoopSpec((k: nat) => PageAttempt(pid, get(url, k)), VgsiPolicy, maxRetries, InitialDelay, BackoffFactor);
  }

  /** With the default three retries, four network failures in a row fail
      the fetch with the last one, after sleeping 1, 2 and 4 seconds. */
  lemma NetworkFailuresRetried(get: (string, nat) -> Reply, baseUrl: string, pid: EntryId)
    requires forall k: nat :: k <= 3 ==>
      var reply := get(PageUrl(baseUrl, pid), k);
      reply.NetworkFailure? || (reply.Page? && HttpError(reply.status))
    ensures var f := FetchPage(get, baseUrl, pid, MaxRetries);
      f.attempts == 4 && f.sleeps == [1.0, 2.0, 4.0]
      && f.result == Err(PageAttempt(pid, get(PageUrl(baseUrl, pid), 3)).error)
  {
    var url := PageUrl(baseUrl, pid);
    var tries := (k: nat) => PageAttempt(pid, get(url, k));
    RetryLoopSpec(tries, VgsiPolicy, MaxRetries, InitialDelay, BackoffFactor);
    var f := FetchPage(get, baseUrl, pid, MaxRetries);
    assert tries(f.attempts - 1).Raised? && Retried(VgsiPolicy, tries(f.attempts - 1).error);
    assert f.sleeps[1] == 2.0;
  }

  /** An empty attempt range (`max_retries < 0`) raises the RuntimeError of
      `last_exception or RuntimeError(...)` without any request. */
  lemma NoAttemptRaisesRuntimeError(get: (string, nat) -> Reply, baseUrl: string, pid: EntryId, maxRetries: int)
    requires maxRetries < 0
    ensures var f := FetchPage(get, baseUrl, pid, maxRetries);
      f.attempts == 0 && f.result == Err(NoRecordedException)
  {
  }

  // ---------------------------------------------------------------------
  // generate_uuid
  // ---------------------------------------------------------------------

  /** `generate_uuid(pid, data)`: the digest of `f"{pid}{json.dumps(data, sort_keys=True)}"`. */
  function GenerateUuid(pid: int, data: Row, uuidOf: RowHash.Serialized -> string): string
  {
    uuidOf(RowHash.Prefixed(IntToString(pid), RowHash.JsonObject(RowHash.SortedMembers(data))))
  }

  /** Two insertion orders of the same items give the same uuid. */
  lemma UuidInsertionOrderIrrelevant(pid: int, a: seq<(string, Value)>, b: seq<(string, Value)>,
                                     uuidOf: RowHash.Serialized -> string)
    requires RowHash.DistinctKeys(a) && RowHash.DistinctKeys(b)
    requires forall x :: x in a <==> x in b
    ensures GenerateUuid(pid, RowHash.FromItems(a), uuidOf) == GenerateUuid(pid, RowHash.FromItems(b), uuidOf)
  {
    RowHash.InsertionOrderIrrelevant(a, b, {}, (s: RowHash.Serialized) => "");
  }

  /** Modulo digest collisions, the uuid determines the pid and the data. */
  lemma UuidDeterminesInput(pid1: int, d1: Row, pid2: int, d2: Row, uuidOf: RowHash.Serialized -> string)
    requires forall x, y :: uuidOf(x) == uuidOf(y) ==> x == y
    requires GenerateUuid(pid1, d1, uuidOf) == GenerateUuid(pid2, d2, uuidOf)
    ensures pid1 == pid2 && d1 == d2
  {
    ParseIntRoundTrip(pid1);
    ParseIntRoundTrip(pid2);
    RowHash.SortedMembersInjective(d1, d2);
  }

  // ---------------------------------------------------------------------
  // make_load_iter
  // ---------------------------------------------------------------------

  /** The PIDs `iter_entries` yields: `range(min, max + 1)`, or the
      ValueError for a missing upper bound. */
  function MakeLoadIter(entryIdMin: int, entryIdMax: Option<int>): (r: Result<seq<int>, string>)
  {
    match entryIdMax
      case None => Err("entry_id_max is required for VGSI load")
      case Some(hi) => Ok(seq(if hi + 1 > entryIdMin then hi + 1 - entryIdMin else 0, i => entryIdMin + i))
  }

  /** The range is inclusive on both ends, ascending and without gaps; it
      is empty when the minimum exceeds the maximum. */
  lemma MakeLoadIterSpec(entryIdMin: int, entryIdMax: Option<int>)
    ensures MakeLoadIter(entryIdMin, entryIdMax).Err? <==> entryIdMax.None?
    ensures entryIdMax.Some? ==>
      var ids := MakeLoadIter(entryIdMin, entryIdMax).value;
      && (forall p :: p in ids <==> entryIdMin <= p <= entryIdMax.value)
      && (forall i :: 0 < i < |ids| ==> ids[i] == ids[i - 1] + 1)
      && (ids != [] ==> ids[0] == entryIdMin && ids[|ids| - 1] == entryIdMax.value)
  {
    if entryIdMax.Some? {
      var ids := MakeLoadIter(entryIdMin, entryIdMax).value;
      forall p | entryIdMin <= p <= entryIdMax.value
        ensures p in ids
      {
        assert ids[p - entryIdMin] == p;
      }
    }
  }

  // ---------------------------------------------------------------------
  // get_property_history: the version rule
  // ---------------------------------------------------------------------

  /** SQL's three-valued truth. */
  datatype Tri = True | False | Unknown

  /** `a != b` in SQL: unknown when either side is NULL. */
  function SqlNe(a: Value, b: Value): Tri
  {
    if a == Null || b == Null then Unknown else if a != b then True else False
  }

  function SqlOr(a: Tri, b: Tri): Tri
  {
    if a == True || b == True then True else if a == Unknown || b == Unknown then Unknown else False
  }

  function SqlIsNull(a: Value): Tri
  {
    if a == Null then True else False
  }

  /** A capture's `row_hash` column (NULL when the row has none). */
  function HashOf(row: Row): Value
  {
    if "row_hash" in row then row["row_hash"] else Null
  }

  /** `WHERE uuid = ?`: the captures of one property, in the order the
      files are read; `ByTime` then orders them. */
  function CapturesOf(rows: seq<Row>, uuid: string): (r: seq<Row>)
    ensures |r| <= |rows|
    ensures forall x :: x in r <==> x in rows && "uuid" in x && x["uuid"] == Str(uuid)
  {
    if rows == [] then []
    else
      var init := CapturesOf(rows[..|rows| - 1], uuid);
      var last := rows[|rows| - 1];
      assert rows == rows[..|rows| - 1] + [last];
      if "uuid" in last && last["uuid"] == Str(uuid) then init + [last] else init
  }

  /** The captures are ordered by `time`, a capture's `scraped_at`. */
  predicate SortedByTime<T>(caps: seq<T>, time: T -> int)
  {
    forall i, j :: 0 <= i < j < |caps| ==> time(caps[i]) <= time(caps[j])
  }

  /** Every element of `s` is at least `t` by `time`. */
  predicate NotBefore<T>(t: int, s: seq<T>, time: T -> int)
  {
    forall k :: 0 <= k < |s| ==> t <= time(s[k])
  }

  lemma NotBeforePermutation<T>(t: int, s: seq<T>, u: seq<T>, x: T, time: T -> int)
    requires NotBefore(t, s, time) && t <= time(x)
    requires multiset(u) == multiset(s) + multiset{x}
    ensures NotBefore(t, u, time)
  {
    forall k | 0 <= k < |u|
      ensures t <= time(u[k])
    {
      assert u[k] in multiset(u);
      if u[k] != x {
        assert u[k] in multiset(s);
      }
    }
  }

  /** `x` placed into sorted captures after every capture no later than it. */
  function InsertByTime<T>(x: T, caps: seq<T>, time: T -> int): (r: seq<T>)
    requires SortedByTime(caps, time)
    ensures SortedByTime(r, time)
    ensures multiset(r) == multiset(caps) + multiset{x}
  {
    if caps == [] then [x]
    else if time(x) < time(caps[0]) then [x] + caps
    else
      var rest := InsertByTime(x, caps[1..], time);
      assert caps == [caps[0]] + caps[1..];
      NotBeforePermutation(time(caps[0]), caps[1..], rest, x, time);
      [caps[0]] + rest
  }

  /** `PARTITION BY uuid ORDER BY scraped_at`: the captures sorted by time.
      Captures with equal times keep the order they were read in. */
  function ByTime<T>(caps: seq<T>, time: T -> int): (r: seq<T>)
    ensures SortedByTime(r, time)
    ensures multiset(r) == multiset(caps)
  {
    if caps == [] then []
    else
      var n := |caps|;
      assert caps == caps[..n - 1] + [caps[n - 1]];
      InsertByTime(caps[n - 1], ByTime(caps[..n - 1], time), time)
  }

  /** `LAG(row_hash)`: the previous capture's hash, NULL for the first. */
  function PrevHash(caps: seq<Row>, i: nat): Value
    requires i < |caps|
  {
    if i == 0 then Null else HashOf(caps[i - 1])
  }

  /** The outer `WHERE row_hash != prev_hash OR prev_hash IS NULL`, as SQL
      evaluates it: only a true condition keeps the row. */
  predicate SqlKeeps(caps: seq<Row>, i: nat)
    requires i < |caps|
  {
    SqlOr(SqlNe(HashOf(caps[i]), PrevHash(caps, i)), SqlIsNull(PrevHash(caps, i))) == True
  }

  /** The kept captures with their `ROW_NUMBER()` versions, by version. */
  function History(caps: seq<Row>): (r: seq<(nat, Row)>)
    ensures |r| <= |caps|
  {
    if caps == [] then []
    else
      var n := |caps|;
      History(caps[..n - 1]) + (if SqlKeeps(caps, n - 1) then [(n, caps[n - 1])] else [])
  }

  /** In two-valued terms: a capture is kept iff it is the first one, the
      one before it has no hash, or it has a hash different from the one
      before it. A capture without a hash after one with a hash is dropped. */
  lemma SqlKeepsIff(caps: seq<Row>, i: nat)
    requires i < |caps|
    ensures SqlKeeps(caps, i) <==>
      i == 0 || HashOf(caps[i - 1]) == Null || (HashOf(caps[i]) != Null && HashOf(caps[i]) != HashOf(caps[i - 1]))
  {
  }

  /** Dropping the last capture changes neither the earlier captures nor
      whether the rule keeps them. */
  lemma SqlKeepsPrefix(caps: seq<Row>, i: nat)
    requires i < |caps| - 1
    ensures caps[..|caps| - 1][i] == caps[i]
    ensures SqlKeeps(caps[..|caps| - 1], i) <==> SqlKeeps(caps, i)
  {
    if i > 0 {
      assert caps[..|caps| - 1][i - 1] == caps[i - 1];
    }
  }

  /** `(v, row)` is capture `v` (1-based, numbered before filtering) and the
      rule keeps it. */
  predicate KeptCapture(caps: seq<Row>, e: (nat, Row))
  {
    1 <= e.0 <= |caps| && e.1 == caps[e.0 - 1] && SqlKeeps(caps, e.0 - 1)
  }

  /** Every entry of the history is a kept capture under its number;
      versions ascend. */
  lemma {:induction false} HistorySound(caps: seq<Row>)
    ensures forall i :: 0 <= i < |History(caps)| ==> KeptCapture(caps, History(caps)[i])
    ensures forall i, j :: 0 <= i < j < |History(caps)| ==> History(caps)[i].0 < History(caps)[j].0
  {
    if caps != [] {
      var n := |caps|;
      var init := caps[..n - 1];
      var h0 := History(init);
      HistorySound(init);
      forall i | 0 <= i < |h0|
        ensures h0[i].0 < n && KeptCapture(caps, h0[i])
      {
        assert KeptCapture(init, h0[i]);
        SqlKeepsPrefix(caps, h0[i].0 - 1);
      }
    }
  }

  /** Every capture the rule keeps is in the history, under its number. */
  lemma {:induction false} HistoryComplete(caps: seq<Row>, v: nat)
    requires 1 <= v <= |caps| && SqlKeeps(caps, v - 1)
    ensures (v, caps[v - 1]) in History(caps)
  {
    var n := |caps|;
    if v < n {
      SqlKeepsPrefix(caps, v - 1);
      HistoryComplete(caps[..n - 1], v);
    }
  }

  /** The first capture is always version 1 of the history. */
  lemma FirstCaptureKept(caps: seq<Row>)
    requires caps != []
    ensures History(caps) != [] && History(caps)[0] == (1, caps[0])
  {
    HistorySound(caps);
    HistoryComplete(caps, 1);
    var h := History(caps);
    var k :| 0 <= k < |h| && h[k] == (1, caps[0]);
    assert 1 <= h[0].0 <= h[k].0;
    assert k == 0;
  }

  /** A capture with the same non-NULL hash as the one before it is dropped. */
  lemma SameHashDropped(caps: seq<Row>, i: nat)
    requires 0 < i < |caps| && HashOf(caps[i]) == HashOf(caps[i - 1]) != Null
    ensures !SqlKeeps(caps, i)
  {
  }

  /** Captures that all carry the same hash collapse to version 1. */
  lemma UnchangedCollapses(caps: seq<Row>)
    requires caps != []
    requires forall i :: 0 <= i < |caps| ==> HashOf(caps[i]) == HashOf(caps[0]) != Null
    ensures History(caps) == [(1, caps[0])]
  {
    HistorySound(caps);
    FirstCaptureKept(caps);
    var h := History(caps);
    if |h| > 1 {
      var v := h[1].0;
      assert KeptCapture(caps, h[1]);
      assert 1 <= h[0].0 < v;
      SameHashDropped(caps, v - 1);
      assert false;
    }
  }

  /** `get_property_history(uuid)`: the history of the property's captures
      in `scraped_at` order. */
  function PropertyHistory(rows: seq<Row>, uuid: string, time: Row -> int): seq<(nat, Row)>
  {
    History(ByTime(CapturesOf(rows, uuid), time))
  }

  /** The history holds exactly the captures the rule keeps. */
  lemma HistoryExact(caps: seq<Row>)
    ensures forall e :: e in History(caps) <==> KeptCapture(caps, e)
  {
    HistorySound(caps);
    forall e | KeptCapture(caps, e)
      ensures e in History(caps)
    {
      HistoryComplete(caps, e.0);
    }
  }

  /** The captures a history is built from are the uuid's rows, sorted by
      `scraped_at`, whatever order the files are read in. */
  lemma CapturesByTime(rows: seq<Row>, uuid: string, time: Row -> int)
    ensures SortedByTime(ByTime(CapturesOf(rows, uuid), time), time)
    ensures forall x :: x in ByTime(CapturesOf(rows, uuid), time) <==>
      x in rows && "uuid" in x && x["uuid"] == Str(uuid)
  {
    var caps := CapturesOf(rows, uuid);
    assert forall x :: x in ByTime(caps, time) <==> x in multiset(ByTime(caps, time));
    assert forall x :: x in caps <==> x in multiset(caps);
  }

  /** Version `v` of `get_property_history` is the `v`-th capture of the
      uuid by `scraped_at`, and it is listed iff the rule keeps it;
      versions ascend. */
  lemma PropertyHistorySpec(rows: seq<Row>, uuid: string, time: Row -> int)
    ensures var caps := ByTime(CapturesOf(rows, uuid), time);
      forall e :: e in PropertyHistory(rows, uuid, time) <==> KeptCapture(caps, e)
    ensures forall i, j :: 0 <= i < j < |PropertyHistory(rows, uuid, time)| ==>
      PropertyHistory(rows, uuid, time)[i].0 < PropertyHistory(rows, uuid, time)[j].0
  {
    var caps := ByTime(CapturesOf(rows, uuid), time);
    HistoryExact(caps);
    HistorySound(caps);
  }

  /** One more capture adds at most itself to the history. */
  lemma HistorySnoc(caps: seq<Row>, x: Row)
    ensures History(caps + [x]) ==
      History(caps) + (if SqlKeeps(caps + [x], |caps|) then [(|caps| + 1, x)] else [])
  {
    assert (caps + [x])[..|caps|] == caps;
  }

  /** Two captures read newest first are sorted oldest first. */
  lemma ByTimeSwaps<T>(a: T, b: T, time: T -> int)
    requires time(a) < time(b)
    ensures ByTime([b, a], time) == [a, b]
  {
    assert [b, a][..1] == [b];
    assert ByTime([b], time) == [b];
  }

  /** Two captures with different hashes are versions 1 and 2. */
  lemma HistoryOfTwo(a: Row, b: Row)
    requires HashOf(a).Str? && HashOf(b).Str? && HashOf(a) != HashOf(b)
    ensures History([a, b]) == [(1, a), (2, b)]
  {
    assert SqlKeeps([a, b], 1) by {
      SqlKeepsIff([a, b], 1);
    }
    HistorySnoc([], a);
    HistorySnoc([a], b);
    assert [] + [a] == [a] && [a] + [b] == [a, b];
  }

  /** Two captures with different hashes, read newest first, are still
      numbered oldest first. */
  lemma ReadOrderIrrelevant(a: Row, b: Row, uuid: string, time: Row -> int)
    requires "uuid" in a && a["uuid"] == Str(uuid) && "uuid" in b && b["uuid"] == Str(uuid)
    requires time(a) < time(b)
    requires HashOf(a).Str? && HashOf(b).Str? && HashOf(a) != HashOf(b)
    ensures PropertyHistory([b, a], uuid, time) == [(1, a), (2, b)]
  {
    assert [b, a][..1] == [b];
    assert CapturesOf([b, a], uuid) == [b, a];
    ByTimeSwaps(a, b, time);
    HistoryOfTwo(a, b);
  }

  // ---------------------------------------------------------------------
  // flatten_vgsi: buildings
  // ---------------------------------------------------------------------

  /** A scraped building: its plain members, its `construction` dict (empty
      when absent) and its `sub_areas` list (empty when absent). */
  datatype Building = Building(fields: Row, construction: map<string, Value>, subAreas: seq<Row>)

  /** `CNS_MAPPING`, in dict order: construction key, then column. Two
      spellings feed each of `interior_floor_1` and `interior_floor_2`. */
  const CnsMapping: seq<(string, string)> := [
    ("style", "style"), ("model", "model"), ("grade", "grade"), ("stories", "stories"),
    ("occupancy", "occupancy"), ("exterior_wall_1", "exterior_wall_1"),
    ("exterior_wall_2", "exterior_wall_2"), ("roof_structure", "roof_structure"),
    ("roof_cover", "roof_cover"), ("interior_wall_1", "interior_wall_1"),
    ("interior_wall_2", "interior_wall_2"), ("interior_flr_1", "interior_floor_1"),
    ("interior_flr_2", "interior_floor_2"), ("interior_floor_1", "interior_floor_1"),
    ("interior_floor_2", "interior_floor_2"), ("heat_fuel", "heat_fuel"),
    ("heat_type", "heat_type"), ("ac_type", "ac_type"), ("total_bedrooms", "total_bedrooms"),
    ("total_bthrms", "total_bthrms"), ("total_half_baths", "total_half_baths"),
    ("total_xtra_fixtrs", "total_xtra_fixtrs"), ("total_rooms", "total_rooms"),
    ("bath_style", "bath_style"), ("kitchen_style", "kitchen_style"),
    ("interior_condition", "interior_condition"), ("fin_bsmnt_area", "fin_bsmnt_area"),
    ("fin_bsmnt_qual", "fin_bsmnt_qual"), ("nbhd_code", "nbhd_code")
  ]

  const CnsSources: set<string> := set i | 0 <= i < |CnsMapping| :: CnsMapping[i].0
  const CnsColumns: set<string> := set i | 0 <= i < |CnsMapping| :: CnsMapping[i].1

  /** Mapping entry `m` copies a present construction key into column `k`. */
  predicate Copies(m: (string, string), cons: map<string, Value>, k: string)
  {
    m.1 == k && m.0 in cons
  }

  /** The `for src_key, dst_col in CNS_MAPPING.items()` loop. */
  function ApplyCns(flat: Row, cons: map<string, Value>, mapping: seq<(string, string)>): Row
  {
    if mapping == [] then flat
    else
      var prev := ApplyCns(flat, cons, mapping[..|mapping| - 1]);
      var m := mapping[|mapping| - 1];
      if m.0 in cons then prev[m.1 := cons[m.0]] else prev
  }

  /** Column `k` exists iff it did or some entry copies into it. */
  lemma {:induction false} ApplyCnsHas(flat: Row, cons: map<string, Value>, mapping: seq<(string, string)>, k: string)
    ensures k in ApplyCns(flat, cons, mapping) <==>
      k in flat || exists i :: 0 <= i < |mapping| && Copies(mapping[i], cons, k)
  {
    if mapping != [] {
      var n := |mapping|;
      var init := mapping[..n - 1];
      ApplyCnsHas(flat, cons, init, k);
      assert forall i :: 0 <= i < n - 1 ==> init[i] == mapping[i];
      if exists i :: 0 <= i < n && Copies(mapping[i], cons, k) {
        var i :| 0 <= i < n && Copies(mapping[i], cons, k);
        if i < n - 1 {
          assert Copies(init[i], cons, k);
        }
      }
    }
  }

  /** Column `k` holds the value of the last entry that copies into it. */
  lemma {:induction false} ApplyCnsLast(flat: Row, cons: map<string, Value>, mapping: seq<(string, string)>, k: string, i: nat)
    requires i < |mapping| && Copies(mapping[i], cons, k)
    requires forall j :: i < j < |mapping| ==> !Copies(mapping[j], cons, k)
    ensures k in ApplyCns(flat, cons, mapping) && ApplyCns(flat, cons, mapping)[k] == cons[mapping[i].0]
  {
    var n := |mapping|;
    if i < n - 1 {
      var init := mapping[..n - 1];
      assert init[i] == mapping[i];
      assert !Copies(mapping[n - 1], cons, k);
      ApplyCnsLast(flat, cons, init, k, i);
    }
  }

  /** A column no entry copies into keeps its own value. */
  lemma {:induction false} ApplyCnsKeeps(flat: Row, cons: map<string, Value>, mapping: seq<(string, string)>, k: string)
    requires k in flat
    requires forall i :: 0 <= i < |mapping| ==> !Copies(mapping[i], cons, k)
    ensures k in ApplyCns(flat, cons, mapping) && ApplyCns(flat, cons, mapping)[k] == flat[k]
  {
    if mapping != [] {
      var n := |mapping|;
      var init := mapping[..n - 1];
      assert !Copies(mapping[n - 1], cons, k);
      ApplyCnsKeeps(flat, cons, init, k);
    }
  }

  /** The construction members no mapping entry knows. */
  function ExtraConstruction(cons: map<string, Value>): (r: map<string, Value>)
    ensures forall k :: k in r <==> k in cons && k !in CnsSources
    ensures forall k :: k in r ==> r[k] == cons[k]
  {
    map k | k in cons && k !in CnsSources :: cons[k]
  }

  /** The `buildings` row of one building: its members, the mapped
      construction columns, and `extra_fields` for unknown construction keys. */
  function FlatBuilding(b: Building, dumps: RowHash.Serialized -> string): Row
  {
    var flat := ApplyCns(b.fields, b.construction, CnsMapping);
    var extra := ExtraConstruction(b.construction);
    if |extra| > 0 then flat["extra_fields" := Str(dumps(RowHash.JsonObject(RowHash.SortedMembers(extra))))]
    else flat
  }

  /** `extra_fields` is written iff some construction key is unknown, as the
      sorted JSON of exactly the unknown keys; otherwise the row is the
      building's members with the mapped columns. */
  lemma FlatBuildingExtra(b: Building, dumps: RowHash.Serialized -> string)
    ensures (exists k :: k in b.construction && k !in CnsSources) ==>
      var extra := ExtraConstruction(b.construction);
      && "extra_fields" in FlatBuilding(b, dumps)
      && FlatBuilding(b, dumps)["extra_fields"] == Str(dumps(RowHash.JsonObject(RowHash.SortedMembers(extra))))
      && (forall k :: k in b.construction && k !in CnsSources ==> (k, b.construction[k]) in RowHash.SortedMembers(extra))
    ensures (forall k :: k in b.construction ==> k in CnsSources) ==>
      FlatBuilding(b, dumps) == ApplyCns(b.fields, b.construction, CnsMapping)
  {
    var extra := ExtraConstruction(b.construction);
    if exists k :: k in b.construction && k !in CnsSources {
      var k :| k in b.construction && k !in CnsSources;
      assert k in extra;
    } else {
      assert extra == map[];
    }
  }

  /** Members of the building outside the mapped columns and `extra_fields`
      keep their values. */
  lemma FlatBuildingKeeps(b: Building, dumps: RowHash.Serialized -> string, k: string)
    requires k in b.fields && k !in CnsColumns && k != "extra_fields"
    ensures k in FlatBuilding(b, dumps) && FlatBuilding(b, dumps)[k] == b.fields[k]
  {
    assert forall i :: 0 <= i < |CnsMapping| ==> CnsMapping[i].1 in CnsColumns;
    ApplyCnsKeeps(b.fields, b.construction, CnsMapping, k);
  }

  /** A building's sub-areas can be tagged: `building["property_uuid"]` and
      `building["pid"]` are only read when there is a sub-area. */
  predicate SubAreasTaggable(b: Building)
  {
    b.subAreas == [] || ("property_uuid" in b.fields && "pid" in b.fields)
  }

  /** `{**sa, "property_uuid": ..., "pid": ..., "bid": building.get("bid")}`. */
  function TagSubArea(sa: Row, b: Building): Row
    requires "property_uuid" in b.fields && "pid" in b.fields
  {
    sa["property_uuid" := b.fields["property_uuid"]]["pid" := b.fields["pid"]]
      ["bid" := if "bid" in b.fields then b.fields["bid"] else Null]
  }

  /** The `sub_areas` rows of one building, or the KeyError of a missing tag. */
  function SubAreaRows(b: Building): (r: Result<seq<Row>, string>)
    ensures r.Ok? <==> SubAreasTaggable(b)
    ensures r.Ok? ==> |r.value| == |b.subAreas|
  {
    if b.subAreas == [] then Ok([])
    else if "property_uuid" !in b.fields then Err("KeyError: 'property_uuid'")
    else if "pid" !in b.fields then Err("KeyError: 'pid'")
    else Ok(seq(|b.subAreas|, i requires 0 <= i < |b.subAreas| => TagSubArea(b.subAreas[i], b)))
  }

  /** Each sub-area row carries the building's `property_uuid`, `pid` and
      `bid` (None when the building has none) and otherwise the sub-area's
      own members. */
  lemma SubAreaTags(b: Building, i: nat)
    requires SubAreaRows(b).Ok? && i < |b.subAreas|
    ensures var row := SubAreaRows(b).value[i];
      && row["property_uuid"] == b.fields["property_uuid"]
      && row["pid"] == b.fields["pid"]
      && row["bid"] == (if "bid" in b.fields then b.fields["bid"] else Null)
      && row.Keys == b.subAreas[i].Keys + {"property_uuid", "pid", "bid"}
      && (forall k :: k in b.subAreas[i] && k != "property_uuid" && k != "pid" && k != "bid" ==>
            row[k] == b.subAreas[i][k])
  {
    assert "property_uuid"[1] == 'r' && "pid"[1] == 'i' && "bid"[0] == 'b';
  }

  // ---------------------------------------------------------------------
  // flatten_vgsi: the fold over results
  // ---------------------------------------------------------------------

  /** One result of `scrape_property`: `property` (None when absent or
      None), `buildings`, and the row lists of the history tables by name. */
  datatype ScrapeResult = ScrapeResult(property: Option<Row>, buildings: seq<Building>, history: map<string, seq<Row>>)

  /** The five history tables, in the order the loop extends them. */
  const HistoryTables: seq<string> := ["ownership", "appraisals", "assessments", "extra_features", "outbuildings"]

  /** `result.get(key, [])`. */
  function Lookup(h: map<string, seq<Row>>, name: string): seq<Row>
  {
    if name in h then h[name] else []
  }

  /** `prop.get("uuid")`. */
  function UuidOf(prop: Row): Value
  {
    if "uuid" in prop then prop["uuid"] else Null
  }

  /** The property is neither missing nor empty (`not prop` is false). */
  predicate Live(res: ScrapeResult)
  {
    res.property.Some? && res.property.value != map[]
  }

  /** The loop body over `result.get("buildings", [])`. */
  function AddBuildings(t: TableSet, bs: seq<Building>, dumps: RowHash.Serialized -> string)
    : Result<TableSet, string>
  {
    if bs == [] then Ok(t)
    else match AddBuildings(t, bs[..|bs| - 1], dumps)
      case Err(e) => Err(e)
      case Ok(t1) =>
        var b := bs[|bs| - 1];
        match SubAreaRows(b)
          case Err(e) => Err(e)
          case Ok(rows) => Ok(AddBuilding(t1, FlatBuilding(b, dumps), rows))
  }

  /** The flat row to `buildings`, then the sub-area rows, if any, to `sub_areas`. */
  function AddBuilding(t: TableSet, flat: Row, rows: seq<Row>): TableSet
  {
    var t2 := Extend(t, "buildings", [flat]);
    if rows == [] then t2 else Extend(t2, "sub_areas", rows)
  }

  /** `for key in (...): tables[key].extend(result.get(key, []))`. */
  function AddHistory(t: TableSet, h: map<string, seq<Row>>, names: seq<string>): TableSet
  {
    if names == [] then t
    else
      var name := names[|names| - 1];
      Extend(AddHistory(t, h, names[..|names| - 1]), name, Lookup(h, name))
  }

  /** What the loop keeps between results: the tables and `seen_uuids`. */
  datatype Flat = Flat(tables: TableSet, seen: set<Value>)

  /** One iteration of `for result in results`. */
  function ResultStep(st: Flat, res: ScrapeResult, dumps: RowHash.Serialized -> string): Result<Flat, string>
  {
    if !Live(res) || UuidOf(res.property.value) in st.seen then Ok(st)
    else
      var prop := res.property.value;
      if "uuid" !in prop then Err("KeyError: 'uuid'")
      else match AddBuildings(Extend(st.tables, "properties", [prop]), res.buildings, dumps)
        case Err(e) => Err(e)
        case Ok(t) => Ok(Flat(AddHistory(t, res.history, HistoryTables), st.seen + {prop["uuid"]}))
  }

  function FlattenFrom(rs: seq<ScrapeResult>, dumps: RowHash.Serialized -> string): Result<Flat, string>
  {
    if rs == [] then Ok(Flat([], {}))
    else match FlattenFrom(rs[..|rs| - 1], dumps)
      case Err(e) => Err(e)
      case Ok(st) => ResultStep(st, rs[|rs| - 1], dumps)
  }

  /** `flatten_vgsi(results)`: the tables, or the KeyError it raises. */
  function FlattenVgsi(rs: seq<ScrapeResult>, dumps: RowHash.Serialized -> string): Result<TableSet, string>
  {
    match FlattenFrom(rs, dumps)
      case Err(e) => Err(e)
      case Ok(st) => Ok(st.tables)
  }

  // ---------------------------------------------------------------------
  // flatten_vgsi: what it computes
  // ---------------------------------------------------------------------

  /** Result `i` is the first one whose property has its uuid. */
  predicate FirstOf(rs: seq<ScrapeResult>, i: nat)
    requires i < |rs|
  {
    && Live(rs[i])
    && forall j :: 0 <= j < i && Live(rs[j]) ==> UuidOf(rs[j].property.value) != UuidOf(rs[i].property.value)
  }

  /** The results whose property is the first of its uuid, in input order. */
  function Accepted(rs: seq<ScrapeResult>): (r: seq<ScrapeResult>)
    ensures |r| <= |rs|
  {
    if rs == [] then []
    else Accepted(rs[..|rs| - 1]) + (if FirstOf(rs, |rs| - 1) then [rs[|rs| - 1]] else [])
  }

  /** The uuids of all non-empty properties. */
  function Seen(rs: seq<ScrapeResult>): set<Value>
  {
    set i | 0 <= i < |rs| && Live(rs[i]) :: UuidOf(rs[i].property.value)
  }

  /** The flat `buildings` rows of the buildings, in order. */
  function Flats(bs: seq<Building>, dumps: RowHash.Serialized -> string): (r: seq<Row>)
  {
    MapSeq(bs, (b: Building) => FlatBuilding(b, dumps))
  }

  lemma FlatsSnoc(bs: seq<Building>, dumps: RowHash.Serialized -> string)
    requires bs != []
    ensures Flats(bs, dumps) == Flats(bs[..|bs| - 1], dumps) + [FlatBuilding(bs[|bs| - 1], dumps)]
  {
    MapSeqSnoc(bs, (b: Building) => FlatBuilding(b, dumps));
  }

  /** The tagged sub-area rows of the buildings, building by building. */
  function SubRows(bs: seq<Building>): seq<Row>
  {
    if bs == [] then []
    else
      SubRows(bs[..|bs| - 1]) + match SubAreaRows(bs[|bs| - 1]) case Ok(rows) => rows case Err(_) => []
  }

  /** The rows one accepted result contributes to table `u`. */
  function RowsOf(res: ScrapeResult, u: string, dumps: RowHash.Serialized -> string): seq<Row>
  {
    if u == "properties" then (if res.property.Some? then [res.property.value] else [])
    else if u == "buildings" then Flats(res.buildings, dumps)
    else if u == "sub_areas" then SubRows(res.buildings)
    else if u in HistoryTables then Lookup(res.history, u)
    else []
  }

  /** Table `u` of a sequence of accepted results: their rows, result by result. */
  function Collected(acc: seq<ScrapeResult>, u: string, dumps: RowHash.Serialized -> string): seq<Row>
  {
    if acc == [] then []
    else Collected(acc[..|acc| - 1], u, dumps) + RowsOf(acc[|acc| - 1], u, dumps)
  }

  /** The tables every accepted result creates, even with no rows. */
  predicate AlwaysCreated(u: string)
  {
    u == "properties" || u in HistoryTables
  }

  /** A result on which `flatten_vgsi` raises no KeyError: a non-empty
      property has a uuid, and a building with sub-areas has the tags. */
  predicate WellFormed(res: ScrapeResult)
  {
    && (Live(res) ==> "uuid" in res.property.value)
    && forall b :: b in res.buildings ==> SubAreasTaggable(b)
  }

  lemma TableNamesDistinct()
    ensures "properties" != "buildings" && "properties" != "sub_areas" && "buildings" != "sub_areas"
    ensures forall u :: u in HistoryTables ==> u != "properties" && u != "buildings" && u != "sub_areas"
    ensures forall i, j :: 0 <= i < j < |HistoryTables| ==> HistoryTables[i] != HistoryTables[j]
  {
    assert "properties"[0] == 'p' && "buildings"[0] == 'b' && "sub_areas"[0] == 's';
    assert "ownership"[0] == 'o' && "appraisals"[0] == 'a' && "assessments"[0] == 'a';
    assert "extra_features"[0] == 'e' && "outbuildings"[0] == 'o';
    assert "ownership"[1] == 'w' && "outbuildings"[1] == 'u' && "appraisals"[1] == 'p' && "assessments"[1] == 's';
  }

  /** One building: its flat row goes to `buildings`, its tagged sub-areas
      (if any) to `sub_areas`. */
  lemma AddBuildingSpec(t: TableSet, flat: Row, rows: seq<Row>, u: string)
    requires Distinct(t)
    ensures Distinct(AddBuilding(t, flat, rows))
    ensures Get(AddBuilding(t, flat, rows), u) ==
      Get(t, u) + (if u == "buildings" then [flat] else if u == "sub_areas" then rows else [])
    ensures Has(AddBuilding(t, flat, rows), u) <==> Has(t, u) || u == "buildings" || (u == "sub_areas" && rows != [])
  {
    var t2 := Extend(t, "buildings", [flat]);
    ExtendSpec(t, "buildings", [flat]);
    TableNamesDistinct();
    if rows != [] {
      ExtendSpec(t2, "sub_areas", rows);
    }
  }

  lemma {:induction false} AddBuildingsOk(t: TableSet, bs: seq<Building>, dumps: RowHash.Serialized -> string)
    requires Distinct(t) && forall b :: b in bs ==> SubAreasTaggable(b)
    ensures AddBuildings(t, bs, dumps).Ok?
    ensures Distinct(AddBuildings(t, bs, dumps).value)
  {
    if bs != [] {
      var init := bs[..|bs| - 1];
      assert forall c :: c in init ==> c in bs;
      AddBuildingsOk(t, init, dumps);
      var b := bs[|bs| - 1];
      AddBuildingSpec(AddBuildings(t, init, dumps).value, FlatBuilding(b, dumps), SubAreaRows(b).value, "");
    }
  }

  /** The buildings' flat rows go to `buildings` and their tagged sub-areas
      to `sub_areas`, in order; `buildings` is created by any building,
      `sub_areas` only by a sub-area. */
  lemma {:induction false} AddBuildingsSpec(t: TableSet, bs: seq<Building>, dumps: RowHash.Serialized -> string, u: string)
    requires Distinct(t) && forall b :: b in bs ==> SubAreasTaggable(b)
    ensures AddBuildings(t, bs, dumps).Ok?
    ensures Get(AddBuildings(t, bs, dumps).value, u) ==
      Get(t, u) + (if u == "buildings" then Flats(bs, dumps) else if u == "sub_areas" then SubRows(bs) else [])
    ensures Has(AddBuildings(t, bs, dumps).value, u) <==>
      Has(t, u) || (u == "buildings" && bs != []) || (u == "sub_areas" && SubRows(bs) != [])
  {
    AddBuildingsOk(t, bs, dumps);
    if bs != [] {
      var n := |bs|;
      var init := bs[..n - 1];
      var b := bs[n - 1];
      assert forall c :: c in init ==> c in bs;
      AddBuildingsSpec(t, init, dumps, u);
      AddBuildingsOk(t, init, dumps);
      var t1 := AddBuildings(t, init, dumps).value;
      var flat := FlatBuilding(b, dumps);
      var rows := SubAreaRows(b).value;
      AddBuildingSpec(t1, flat, rows, u);
      assert AddBuildings(t, bs, dumps).value == AddBuilding(t1, flat, rows);
      assert SubRows(bs) == SubRows(init) + rows;
      assert "buildings"[0] != "sub_areas"[0];
      if u == "buildings" {
        FlatsSnoc(bs, dumps);
        assert Get(AddBuildings(t, bs, dumps).value, u) == (Get(t, u) + Flats(init, dumps)) + [flat];
        AppendAssoc(Get(t, u), Flats(init, dumps), [flat]);
      } else if u == "sub_areas" {
        assert Get(AddBuildings(t, bs, dumps).value, u) == (Get(t, u) + SubRows(init)) + rows;
        AppendAssoc(Get(t, u), SubRows(init), rows);
      } else {
        assert Get(AddBuildings(t, bs, dumps).value, u) == Get(t1, u) + [];
        assert Get(t1, u) == Get(t, u) + [];
      }
    }
  }

  /** The history rows of the tables in `names`, in extend order. */
  function HistSum(h: map<string, seq<Row>>, names: seq<string>, u: string): seq<Row>
  {
    if names == [] then []
    else HistSum(h, names[..|names| - 1], u) + (if u == names[|names| - 1] then Lookup(h, u) else [])
  }

  lemma {:induction false} AddHistoryDistinct(t: TableSet, h: map<string, seq<Row>>, names: seq<string>)
    requires Distinct(t)
    ensures Distinct(AddHistory(t, h, names))
  {
    if names != [] {
      var init := names[..|names| - 1];
      AddHistoryDistinct(t, h, init);
      ExtendSpec(AddHistory(t, h, init), names[|names| - 1], Lookup(h, names[|names| - 1]));
    }
  }

  lemma {:induction false} AddHistoryGet(t: TableSet, h: map<string, seq<Row>>, names: seq<string>, u: string)
    requires Distinct(t)
    ensures Get(AddHistory(t, h, names), u) == Get(t, u) + HistSum(h, names, u)
  {
    if names != [] {
      var init := names[..|names| - 1];
      var last := names[|names| - 1];
      var add := if u == last then Lookup(h, last) else [];
      AddHistoryGet(t, h, init, u);
      AddHistoryDistinct(t, h, init);
      ExtendSpec(AddHistory(t, h, init), last, Lookup(h, last));
      assert Get(AddHistory(t, h, names), u) == (Get(t, u) + HistSum(h, init, u)) + add;
      AppendAssoc(Get(t, u), HistSum(h, init, u), add);
    }
  }

  lemma {:induction false} AddHistoryHas(t: TableSet, h: map<string, seq<Row>>, names: seq<string>, u: string)
    requires Distinct(t)
    ensures Has(AddHistory(t, h, names), u) <==> Has(t, u) || u in names
  {
    if names != [] {
      var init := names[..|names| - 1];
      var last := names[|names| - 1];
      AddHistoryHas(t, h, init, u);
      AddHistoryDistinct(t, h, init);
      ExtendSpec(AddHistory(t, h, init), last, Lookup(h, last));
      assert u in names <==> u in init || u == last;
    }
  }

  lemma {:induction false} HistSumDistinct(h: map<string, seq<Row>>, names: seq<string>, u: string)
    requires forall i, j :: 0 <= i < j < |names| ==> names[i] != names[j]
    ensures HistSum(h, names, u) == if u in names then Lookup(h, u) else []
  {
    if names != [] {
      var init := names[..|names| - 1];
      var last := names[|names| - 1];
      assert forall i :: 0 <= i < |init| ==> init[i] == names[i];
      HistSumDistinct(h, init, u);
      assert u in names <==> u in init || u == last;
      if u == last {
        assert u !in init;
      }
    }
  }

  /** An accepted result raises nothing, keeps the tables free of duplicate
      names and adds its uuid to the seen set. */
  lemma AcceptStepOk(st: Flat, res: ScrapeResult, dumps: RowHash.Serialized -> string)
    requires Distinct(st.tables) && WellFormed(res) && Live(res)
    requires UuidOf(res.property.value) !in st.seen
    ensures ResultStep(st, res, dumps).Ok?
    ensures ResultStep(st, res, dumps).value.seen == st.seen + {UuidOf(res.property.value)}
    ensures Distinct(ResultStep(st, res, dumps).value.tables)
  {
    var prop := res.property.value;
    var t1 := Extend(st.tables, "properties", [prop]);
    ExtendSpec(st.tables, "properties", [prop]);
    AddBuildingsOk(t1, res.buildings, dumps);
    AddHistoryDistinct(AddBuildings(t1, res.buildings, dumps).value, res.history, HistoryTables);
  }

  /** The rows of table `u` an accepted result adds in its three phases:
      the property, the buildings with their sub-areas, the history tables. */
  lemma RowsOfPhases(res: ScrapeResult, u: string, dumps: RowHash.Serialized -> string)
    requires Live(res)
    ensures RowsOf(res, u, dumps) ==
      (if u == "properties" then [res.property.value] else [])
      + (if u == "buildings" then Flats(res.buildings, dumps) else if u == "sub_areas" then SubRows(res.buildings) else [])
      + HistSum(res.history, HistoryTables, u)
  {
    TableNamesDistinct();
    HistSumDistinct(res.history, HistoryTables, u);
    if u == "properties" {
      assert u !in HistoryTables;
    } else if u == "buildings" {
      assert u !in HistoryTables;
    } else if u == "sub_areas" {
      assert u !in HistoryTables;
    }
  }

  /** An accepted result adds its rows to table `u` and creates it when it
      is always created or gets rows. */
  lemma AcceptStepAt(st: Flat, res: ScrapeResult, dumps: RowHash.Serialized -> string, u: string)
    requires Distinct(st.tables) && WellFormed(res) && Live(res)
    requires UuidOf(res.property.value) !in st.seen
    ensures ResultStep(st, res, dumps).Ok?
    ensures Get(ResultStep(st, res, dumps).value.tables, u) == Get(st.tables, u) + RowsOf(res, u, dumps)
    ensures Has(ResultStep(st, res, dumps).value.tables, u) <==>
      Has(st.tables, u) || AlwaysCreated(u) || RowsOf(res, u, dumps) != []
  {
    AcceptStepOk(st, res, dumps);
    var prop := res.property.value;
    var t1 := Extend(st.tables, "properties", [prop]);
    ExtendSpec(st.tables, "properties", [prop]);
    AddBuildingsOk(t1, res.buildings, dumps);
    AddBuildingsSpec(t1, res.buildings, dumps, u);
    var t2 := AddBuildings(t1, res.buildings, dumps).value;
    var r := AddHistory(t2, res.history, HistoryTables);
    assert ResultStep(st, res, dumps).value.tables == r;
    AddHistoryGet(t2, res.history, HistoryTables, u);
    AddHistoryHas(t2, res.history, HistoryTables, u);
    var a := if u == "properties" then [prop] else [];
    var b := if u == "buildings" then Flats(res.buildings, dumps) else if u == "sub_areas" then SubRows(res.buildings) else [];
    var c := HistSum(res.history, HistoryTables, u);
    RowsOfPhases(res, u, dumps);
    assert Get(r, u) == ((Get(st.tables, u) + a) + b) + c;
    AppendAssoc(Get(st.tables, u), a, b);
    AppendAssoc(Get(st.tables, u), a + b, c);
    assert AlwaysCreated(u) <==> u == "properties" || u in HistoryTables;
  }

  // ---------------------------------------------------------------------
  // flatten_vgsi: the whole fold
  // ---------------------------------------------------------------------

  lemma FirstOfPrefix(rs: seq<ScrapeResult>, i: nat)
    requires i < |rs| - 1
    ensures rs[..|rs| - 1][i] == rs[i]
    ensures FirstOf(rs[..|rs| - 1], i) <==> FirstOf(rs, i)
  {
    var init := rs[..|rs| - 1];
    assert forall j :: 0 <= j <= i ==> init[j] == rs[j];
  }

  lemma SeenSnoc(rs: seq<ScrapeResult>)
    requires rs != []
    ensures Seen(rs) == Seen(rs[..|rs| - 1]) +
      (if Live(rs[|rs| - 1]) then {UuidOf(rs[|rs| - 1].property.value)} else {})
  {
    var init := rs[..|rs| - 1];
    assert forall j :: 0 <= j < |init| ==> init[j] == rs[j];
    forall v | v in Seen(rs)
      ensures v in Seen(init) || (Live(rs[|rs| - 1]) && v == UuidOf(rs[|rs| - 1].property.value))
    {
      var j :| 0 <= j < |rs| && Live(rs[j]) && UuidOf(rs[j].property.value) == v;
      if j < |init| {
        assert v in Seen(init);
      }
    }
  }

  /** The last result is the first of its uuid iff its property is live and
      its uuid is not among those seen before. */
  lemma FirstIffUnseen(rs: seq<ScrapeResult>)
    requires rs != []
    ensures FirstOf(rs, |rs| - 1) <==>
      Live(rs[|rs| - 1]) && UuidOf(rs[|rs| - 1].property.value) !in Seen(rs[..|rs| - 1])
  {
    var init := rs[..|rs| - 1];
    var n := |rs|;
    assert forall j :: 0 <= j < |init| ==> init[j] == rs[j];
    if Live(rs[n - 1]) && UuidOf(rs[n - 1].property.value) in Seen(init) {
      var j :| 0 <= j < |init| && Live(init[j]) && UuidOf(init[j].property.value) == UuidOf(rs[n - 1].property.value);
      assert !FirstOf(rs, n - 1);
    }
  }

  lemma {:induction false} FlattenFromOk(rs: seq<ScrapeResult>, dumps: RowHash.Serialized -> string)
    requires forall i :: 0 <= i < |rs| ==> WellFormed(rs[i])
    ensures FlattenFrom(rs, dumps).Ok?
    ensures Distinct(FlattenFrom(rs, dumps).value.tables)
    ensures FlattenFrom(rs, dumps).value.seen == Seen(rs)
  {
    if rs != [] {
      var n := |rs|;
      var init := rs[..n - 1];
      var last := rs[n - 1];
      assert forall j :: 0 <= j < |init| ==> init[j] == rs[j];
      FlattenFromOk(init, dumps);
      var st := FlattenFrom(init, dumps).value;
      SeenSnoc(rs);
      if Live(last) && UuidOf(last.property.value) !in st.seen {
        AcceptStepOk(st, last, dumps);
      }
    }
  }

  /** Table `u` after the fold holds the rows of the accepted results, in
      input order. */
  lemma {:induction false} FlattenFromGet(rs: seq<ScrapeResult>, dumps: RowHash.Serialized -> string, u: string)
    requires forall i :: 0 <= i < |rs| ==> WellFormed(rs[i])
    ensures FlattenFrom(rs, dumps).Ok?
    ensures Get(FlattenFrom(rs, dumps).value.tables, u) == Collected(Accepted(rs), u, dumps)
  {
    FlattenFromOk(rs, dumps);
    if rs != [] {
      var n := |rs|;
      var init := rs[..n - 1];
      var last := rs[n - 1];
      assert forall j :: 0 <= j < |init| ==> init[j] == rs[j];
      FlattenFromOk(init, dumps);
      FlattenFromGet(init, dumps, u);
      if FirstOf(rs, n - 1) {
        GetAfterAccept(rs, dumps, u);
      } else {
        SkipKeepsState(rs, dumps);
        assert Accepted(rs) == Accepted(init);
      }
    }
  }

  /** The step of `FlattenFromGet` for a result that is accepted. */
  lemma GetAfterAccept(rs: seq<ScrapeResult>, dumps: RowHash.Serialized -> string, u: string)
    requires rs != [] && WellFormed(rs[|rs| - 1]) && FirstOf(rs, |rs| - 1)
    requires FlattenFrom(rs[..|rs| - 1], dumps).Ok?
    requires Distinct(FlattenFrom(rs[..|rs| - 1], dumps).value.tables)
    requires FlattenFrom(rs[..|rs| - 1], dumps).value.seen == Seen(rs[..|rs| - 1])
    requires Get(FlattenFrom(rs[..|rs| - 1], dumps).value.tables, u) == Collected(Accepted(rs[..|rs| - 1]), u, dumps)
    ensures FlattenFrom(rs, dumps).Ok?
    ensures Get(FlattenFrom(rs, dumps).value.tables, u) == Collected(Accepted(rs), u, dumps)
  {
    var init := rs[..|rs| - 1];
    var last := rs[|rs| - 1];
    var st := FlattenFrom(init, dumps).value;
    var acc := Accepted(init);
    FirstIffUnseen(rs);
    AcceptStepAt(st, last, dumps, u);
    assert FlattenFrom(rs, dumps) == ResultStep(st, last, dumps);
    assert Accepted(rs) == acc + [last];
    CollectedSnoc(acc, last, u, dumps);
  }

  /** Table `u` exists after the fold iff some result was accepted and `u`
      is always created, or `u` has rows. */
  lemma {:induction false} FlattenFromHas(rs: seq<ScrapeResult>, dumps: RowHash.Serialized -> string, u: string)
    requires forall i :: 0 <= i < |rs| ==> WellFormed(rs[i])
    ensures FlattenFrom(rs, dumps).Ok?
    ensures Has(FlattenFrom(rs, dumps).value.tables, u) <==>
      (Accepted(rs) != [] && AlwaysCreated(u)) || Collected(Accepted(rs), u, dumps) != []
  {
    FlattenFromOk(rs, dumps);
    if rs != [] {
      var init := rs[..|rs| - 1];
      assert forall j :: 0 <= j < |init| ==> init[j] == rs[j];
      FlattenFromOk(init, dumps);
      FlattenFromHas(init, dumps, u);
      if FirstOf(rs, |rs| - 1) {
        HasAfterAccept(rs, dumps, u);
      } else {
        SkipKeepsState(rs, dumps);
        assert Accepted(rs) == Accepted(init);
      }
    }
  }

  /** The step of `FlattenFromHas` for a result that is accepted. */
  lemma HasAfterAccept(rs: seq<ScrapeResult>, dumps: RowHash.Serialized -> string, u: string)
    requires rs != [] && WellFormed(rs[|rs| - 1]) && FirstOf(rs, |rs| - 1)
    requires FlattenFrom(rs[..|rs| - 1], dumps).Ok?
    requires Distinct(FlattenFrom(rs[..|rs| - 1], dumps).value.tables)
    requires FlattenFrom(rs[..|rs| - 1], dumps).value.seen == Seen(rs[..|rs| - 1])
    requires Has(FlattenFrom(rs[..|rs| - 1], dumps).value.tables, u) <==>
      (Accepted(rs[..|rs| - 1]) != [] && AlwaysCreated(u)) || Collected(Accepted(rs[..|rs| - 1]), u, dumps) != []
    ensures FlattenFrom(rs, dumps).Ok?
    ensures Has(FlattenFrom(rs, dumps).value.tables, u) <==>
      (Accepted(rs) != [] && AlwaysCreated(u)) || Collected(Accepted(rs), u, dumps) != []
  {
    var init := rs[..|rs| - 1];
    var last := rs[|rs| - 1];
    var st := FlattenFrom(init, dumps).value;
    var acc := Accepted(init);
    FirstIffUnseen(rs);
    AcceptStepAt(st, last, dumps, u);
    assert FlattenFrom(rs, dumps) == ResultStep(st, last, dumps);
    assert Accepted(rs) == acc + [last];
    CollectedSnoc(acc, last, u, dumps);
  }

  lemma CollectedSnoc(acc: seq<ScrapeResult>, res: ScrapeResult, u: string, dumps: RowHash.Serialized -> string)
    ensures Collected(acc + [res], u, dumps) == Collected(acc, u, dumps) + RowsOf(res, u, dumps)
  {
    assert (acc + [res])[..|acc|] == acc;
  }

  /** A result that is not the first of its uuid leaves the state as it was. */
  lemma SkipKeepsState(rs: seq<ScrapeResult>, dumps: RowHash.Serialized -> string)
    requires rs != [] && !FirstOf(rs, |rs| - 1)
    requires FlattenFrom(rs[..|rs| - 1], dumps).Ok?
    requires FlattenFrom(rs[..|rs| - 1], dumps).value.seen == Seen(rs[..|rs| - 1])
    ensures FlattenFrom(rs, dumps) == FlattenFrom(rs[..|rs| - 1], dumps)
  {
    FirstIffUnseen(rs);
  }

  /** `flatten_vgsi` raises nothing on results whose properties all carry a
      uuid, and it builds one list per table name. */
  lemma FlattenVgsiOk(rs: seq<ScrapeResult>, dumps: RowHash.Serialized -> string)
    requires forall i :: 0 <= i < |rs| ==> WellFormed(rs[i])
    ensures FlattenVgsi(rs, dumps).Ok?
    ensures Distinct(FlattenVgsi(rs, dumps).value)
  {
    FlattenFromOk(rs, dumps);
  }

  /** Each table `flatten_vgsi` returns holds the rows of the results whose
      property is the first of its uuid, in input order. */
  lemma FlattenVgsiGet(rs: seq<ScrapeResult>, dumps: RowHash.Serialized -> string, u: string)
    requires forall i :: 0 <= i < |rs| ==> WellFormed(rs[i])
    ensures FlattenVgsi(rs, dumps).Ok?
    ensures Get(FlattenVgsi(rs, dumps).value, u) == Collected(Accepted(rs), u, dumps)
  {
    FlattenFromGet(rs, dumps, u);
  }

  /** `properties` and the five history tables exist as soon as one result
      is accepted; any other table exists iff it has rows. */
  lemma FlattenVgsiHas(rs: seq<ScrapeResult>, dumps: RowHash.Serialized -> string, u: string)
    requires forall i :: 0 <= i < |rs| ==> WellFormed(rs[i])
    ensures FlattenVgsi(rs, dumps).Ok?
    ensures Has(FlattenVgsi(rs, dumps).value, u) <==>
      (Accepted(rs) != [] && AlwaysCreated(u)) || Collected(Accepted(rs), u, dumps) != []
  {
    FlattenFromHas(rs, dumps, u);
  }

  /** The uuid a result's property carries, `Null` when it has none. */
  function KeyOf(res: ScrapeResult): Value
  {
    if res.property.Some? then UuidOf(res.property.value) else Null
  }

  /** Every accepted result has a non-empty property, and no two accepted
      results share a uuid. */
  lemma {:induction false} AcceptedDistinct(rs: seq<ScrapeResult>)
    ensures forall k :: 0 <= k < |Accepted(rs)| ==> Live(Accepted(rs)[k])
    ensures forall k, l :: 0 <= k < l < |Accepted(rs)| ==> KeyOf(Accepted(rs)[k]) != KeyOf(Accepted(rs)[l])
    ensures forall k :: 0 <= k < |Accepted(rs)| ==> KeyOf(Accepted(rs)[k]) in Seen(rs)
  {
    if rs != [] {
      var n := |rs|;
      var init := rs[..n - 1];
      var last := rs[n - 1];
      AcceptedDistinct(init);
      SeenSnoc(rs);
      FirstIffUnseen(rs);
      var acc := Accepted(init);
      if FirstOf(rs, n - 1) {
        assert Accepted(rs) == acc + [last];
      } else {
        assert Accepted(rs) == acc;
      }
    }
  }

  /** Every non-empty property's uuid is carried by an accepted result. */
  lemma {:induction false} AcceptedCovers(rs: seq<ScrapeResult>, v: Value)
    requires v in Seen(rs)
    ensures exists k :: 0 <= k < |Accepted(rs)| && KeyOf(Accepted(rs)[k]) == v
  {
    var n := |rs|;
    var init := rs[..n - 1];
    var last := rs[n - 1];
    SeenSnoc(rs);
    FirstIffUnseen(rs);
    var acc := Accepted(init);
    if v in Seen(init) {
      AcceptedCovers(init, v);
      var k :| 0 <= k < |acc| && KeyOf(acc[k]) == v;
      assert Accepted(rs)[k] == acc[k];
    } else {
      assert FirstOf(rs, n - 1);
      assert Accepted(rs) == acc + [last];
      assert Accepted(rs)[|acc|] == last;
    }
  }

  /** Results with no (or an empty) property leave the tables empty. */
  lemma {:induction false} NoLiveNoTables(rs: seq<ScrapeResult>, dumps: RowHash.Serialized -> string)
    requires forall i :: 0 <= i < |rs| ==> !Live(rs[i])
    ensures FlattenFrom(rs, dumps) == Ok(Flat([], {}))
  {
    if rs != [] {
      var init := rs[..|rs| - 1];
      assert forall j :: 0 <= j < |init| ==> init[j] == rs[j];
      NoLiveNoTables(init, dumps);
    }
  }

  lemma {:induction false} ErrorSticks(rs: seq<ScrapeResult>, k: nat, dumps: RowHash.Serialized -> string)
    requires k <= |rs| && FlattenFrom(rs[..k], dumps).Err?
    ensures FlattenFrom(rs, dumps).Err?
  {
    if k < |rs| {
      var init := rs[..|rs| - 1];
      assert init[..k] == rs[..k];
      ErrorSticks(init, k, dumps);
    } else {
      assert rs[..k] == rs;
    }
  }

  /** The first non-empty property without a "uuid" key raises KeyError. */
  lemma MissingUuidRaises(rs: seq<ScrapeResult>, i: nat, dumps: RowHash.Serialized -> string)
    requires i < |rs| && Live(rs[i]) && "uuid" !in rs[i].property.value
    requires forall j :: 0 <= j < i ==> !Live(rs[j])
    ensures FlattenVgsi(rs, dumps).Err?
  {
    var pre := rs[..i + 1];
    assert pre[..i] == rs[..i];
    NoLiveNoTables(rs[..i], dumps);
    assert FlattenFrom(pre, dumps) == ResultStep(Flat([], {}), rs[i], dumps);
    ErrorSticks(rs, i + 1, dumps);
  }
}

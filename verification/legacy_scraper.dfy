/** The legacy VGSI scraper (src/vgsi/scraper.py): the parcel-page fetch, the
    insertion-order property uuid, the probing of building slots, and
    `scrape_property`, which stamps every child row with its property.

    `_clean_string`, `_handle_money`, `_handle_int` and `parse_table_rows`
    are the same code as in the newer source and are taken from VgsiParse;
    the page request and its error page are taken from VgsiSource. A parsed
    page is abstracted to what the parsers read from it.
 */
module LegacyScraper {
  import opened Base
  import opened Retry
  import RowHash
  import VgsiParse
  import VgsiSource

  const MaxRetries := 3
  const InitialDelay := 1.0
  const BackoffFactor := 2.0

  // ---------------------------------------------------------------------
  // fetch_page
  // ---------------------------------------------------------------------

  /** `fetch_page(base_url, pid, max_retries)`: the same request, error page
      and retried exceptions as the newer copy; the loop ends in
      `raise last_exception`. */
  function FetchPage(get: (string, nat) -> VgsiSource.Reply, baseUrl: string, pid: int, maxRetries: int): Fetch<string>
  {
    var url := VgsiSource.PageUrl(baseUrl, IntId(pid));
    RetryLoop((k: nat) => VgsiSource.PageAttempt(IntId(pid), get(url, k)), LegacyPolicy, maxRetries,
              InitialDelay, BackoffFactor)
  }

  /** The delay before retry `i`: `initial_delay * backoff_factor ** i`. */
  function Backoff(i: nat): (r: real)
    ensures r >= 1.0
  {
    if i == 0 then InitialDelay else Backoff(i - 1) * BackoffFactor
  }

  /** An empty attempt range makes no request and ends in `raise None`,
      where the newer copy raises a RuntimeError. */
  lemma NoAttemptRaisesNone(get: (string, nat) -> VgsiSource.Reply, baseUrl: string, pid: int, maxRetries: int)
    requires maxRetries < 0
    ensures var f := FetchPage(get, baseUrl, pid, maxRetries);
      f.attempts == 0 && f.sleeps == [] && f.result == Err(RaiseNone)
  {
  }

  /** Network failures on every attempt use up all `max_retries + 1`
      attempts, sleeping 1, 2, 4, ... seconds between them, and the last
      failure is raised. */
  lemma NetworkFailuresExhaust(get: (string, nat) -> VgsiSource.Reply, baseUrl: string, pid: int, maxRetries: int)
    requires maxRetries >= 0
    requires forall k: nat :: k <= maxRetries ==> get(VgsiSource.PageUrl(baseUrl, IntId(pid)), k).NetworkFailure?
    ensures var f := FetchPage(get, baseUrl, pid, maxRetries);
      && f.attempts == maxRetries + 1
      && |f.sleeps| == maxRetries
      && (forall i :: 0 <= i < |f.sleeps| ==> f.sleeps[i] == Backoff(i))
      && f.result == Err(Network(get(VgsiSource.PageUrl(baseUrl, IntId(pid)), maxRetries).msg))
  {
    var url := VgsiSource.PageUrl(baseUrl, IntId(pid));
    var tries := (k: nat) => VgsiSource.PageAttempt(IntId(pid), get(url, k));
    RetryLoopSpec(tries, LegacyPolicy, maxRetries, InitialDelay, BackoffFactor);
    var f := FetchPage(get, baseUrl, pid, maxRetries);
    var last := f.attempts - 1;
    assert tries(last).Raised? && Retried(LegacyPolicy, tries(last).error);
    SleepsFollowBackoff(f.sleeps);
  }

  lemma {:induction false} SleepsFollowBackoff(s: seq<real>)
    requires s != [] ==> s[0] == InitialDelay
    requires forall i :: 0 < i < |s| ==> s[i] == s[i - 1] * BackoffFactor
    ensures forall i :: 0 <= i < |s| ==> s[i] == Backoff(i)
  {
    if s != [] {
      var init := s[..|s| - 1];
      SleepsFollowBackoff(init);
      assert forall i :: 0 <= i < |init| ==> s[i] == init[i];
    }
  }

  /** The error page of an unknown PID ends the fetch at once, even after
      earlier network failures, with "PID ... doesn't exist". */
  lemma InvalidPidNotRetried(get: (string, nat) -> VgsiSource.Reply, baseUrl: string, pid: int, maxRetries: int, k: nat)
    requires k <= maxRetries
    requires forall j: nat :: j < k ==> get(VgsiSource.PageUrl(baseUrl, IntId(pid)), j).NetworkFailure?
    requires var reply := get(VgsiSource.PageUrl(baseUrl, IntId(pid)), k);
      reply.Page? && !VgsiSource.HttpError(reply.status) && reply.formAction == Some(VgsiSource.ErrorAction)
    ensures var f := FetchPage(get, baseUrl, pid, maxRetries);
      f.attempts == k + 1 && f.result == Err(InvalidEntry("PID " + IntToString(pid) + " doesn't exist"))
  {
    var url := VgsiSource.PageUrl(baseUrl, IntId(pid));
    var tries := (j: nat) => VgsiSource.PageAttempt(IntId(pid), get(url, j));
    InvalidEntryNotRetried(tries, LegacyPolicy, maxRetries, InitialDelay, BackoffFactor, k);
  }

  // ---------------------------------------------------------------------
  // generate_uuid, parse_property
  // ---------------------------------------------------------------------

  /** `generate_uuid(pid, data)`: the digest of `f"{pid}{data}"`, where
      `str(data)` lists the members in insertion order. */
  function GenerateUuid(pid: int, data: seq<(string, Value)>, uuidOf: RowHash.Serialized -> string): string
  {
    uuidOf(RowHash.Prefixed(IntToString(pid), RowHash.DictRepr(data)))
  }

  /** Unlike the newer copy, the legacy uuid depends on insertion order:
      the same two fields listed in the two orders make one dict but (for
      an injective digest) two uuids, while the newer uuid is the same. */
  lemma InsertionOrderChangesUuid(pid: int, uuidOf: RowHash.Serialized -> string)
    requires forall x, y :: uuidOf(x) == uuidOf(y) ==> x == y
    ensures var a := [("owner", Str("A")), ("address", Str("B"))];
      var b := [("address", Str("B")), ("owner", Str("A"))];
      && RowHash.FromItems(a) == RowHash.FromItems(b)
      && GenerateUuid(pid, a, uuidOf) != GenerateUuid(pid, b, uuidOf)
      && VgsiSource.GenerateUuid(pid, RowHash.FromItems(a), uuidOf)
         == VgsiSource.GenerateUuid(pid, RowHash.FromItems(b), uuidOf)
  {
    var a := [("owner", Str("A")), ("address", Str("B"))];
    var b := [("address", Str("B")), ("owner", Str("A"))];
    RowHash.FromItemsValue(a, 0);
    RowHash.FromItemsValue(a, 1);
    RowHash.FromItemsValue(b, 0);
    RowHash.FromItemsValue(b, 1);
    assert RowHash.FromItems(a) == RowHash.FromItems(b);
    assert RowHash.DictRepr(a) != RowHash.DictRepr(b) by {
      assert a[0] != b[0];
    }
  }

  /** The end of `parse_property(soup, pid)`: `fields` are the extracted and
      coerced span fields in insertion order; the uuid is generated from
      them before `uuid` and `pid` are set. */
  function ParseProperty(fields: seq<(string, Value)>, pid: int, uuidOf: RowHash.Serialized -> string): (r: Row)
    ensures "uuid" in r && r["uuid"] == Str(GenerateUuid(pid, fields, uuidOf))
    ensures "pid" in r && r["pid"] == Int(pid)
    ensures forall k :: k in r <==> k in RowHash.FromItems(fields) || k == "uuid" || k == "pid"
    ensures forall k :: k in RowHash.FromItems(fields) && k != "uuid" && k != "pid" ==>
      r[k] == RowHash.FromItems(fields)[k]
  {
    RowHash.FromItems(fields)["uuid" := Str(GenerateUuid(pid, fields, uuidOf))]["pid" := Int(pid)]
  }

  // ---------------------------------------------------------------------
  // parse_buildings
  // ---------------------------------------------------------------------

  /** What the page holds under the prefix `MainContent_ctl0{bid + 2}`:
      whether the year-built and building-area spans exist, and the
      building the other spans, the photo, the sketch, the `grdCns` and
      `grdSub` tables give. */
  datatype Slot = Slot(hasYear: bool, hasArea: bool, parsed: VgsiSource.Building)

  /** A slot holds a building iff its year or area span exists. */
  predicate Occupied(s: Slot)
  {
    s.hasYear || s.hasArea
  }

  /** The probed bids `0 .. n - 1` whose slots are occupied, in order. */
  function Found(page: nat -> Slot, n: nat): seq<nat>
  {
    if n == 0 then []
    else Found(page, n - 1) + (if Occupied(page(n - 1)) then [n - 1] else [])
  }

  lemma {:induction false} FoundSpec(page: nat -> Slot, n: nat)
    ensures forall b: nat :: b in Found(page, n) <==> b < n && Occupied(page(b))
    ensures forall i, j :: 0 <= i < j < |Found(page, n)| ==> Found(page, n)[i] < Found(page, n)[j]
    ensures forall i :: 0 <= i < |Found(page, n)| ==> Found(page, n)[i] < n
  {
    if n > 0 {
      FoundSpec(page, n - 1);
    }
  }

  /** The number of slots probed: `range(building_count + 3)`, with None
      counted as 0. */
  function Probed(count: Option<int>): (r: nat)
    ensures count.None? ==> r == 3
    ensures count.Some? && count.value >= -3 ==> r == count.value + 3
    ensures count.Some? && count.value < -3 ==> r == 0
  {
    var c := if count.Some? then count.value else 0;
    if c + 3 <= 0 then 0 else c + 3
  }

  /** The building dict of an occupied slot: its own `bid` is the slot index. */
  function BuildingAt(bid: nat, s: Slot): VgsiSource.Building
  {
    s.parsed.(fields := s.parsed.fields["bid" := Int(bid)])
  }

  /** `parse_buildings(soup, building_count, pid)`. */
  function ParseBuildings(count: Option<int>, page: nat -> Slot): (r: seq<VgsiSource.Building>)
  {
    MapSeq(Found(page, Probed(count)), (b: nat) => BuildingAt(b, page(b)))
  }

  /** `x` is the building of an occupied slot below `n`, and its `bid`
      names that slot. */
  predicate FromSlot(x: VgsiSource.Building, n: nat, page: nat -> Slot)
  {
    && "bid" in x.fields && x.fields["bid"].Int?
    && 0 <= x.fields["bid"].i < n
    && Occupied(page(x.fields["bid"].i))
    && x == BuildingAt(x.fields["bid"].i, page(x.fields["bid"].i))
  }

  /** Every building parsed comes from an occupied slot among the first
      `building_count + 3`, and carries that slot index as `bid`. */
  lemma ParseBuildingsSound(count: Option<int>, page: nat -> Slot)
    ensures var r := ParseBuildings(count, page);
      forall i :: 0 <= i < |r| ==> FromSlot(r[i], Probed(count), page)
  {
    var n := Probed(count);
    var bids := Found(page, n);
    FoundSpec(page, n);
    var r := ParseBuildings(count, page);
    forall i | 0 <= i < |r|
      ensures FromSlot(r[i], n, page)
    {
      var b: nat := bids[i];
      assert b in bids;
      assert r[i] == BuildingAt(b, page(b));
      assert r[i].fields["bid"] == Int(b);
    }
  }

  /** Every occupied slot among the first `building_count + 3` yields a
      building: one beyond the announced count is still found, and a
      missing one inside it is skipped rather than ending the probe. */
  lemma ParseBuildingsComplete(count: Option<int>, page: nat -> Slot)
    ensures var r := ParseBuildings(count, page);
      forall b: nat :: b < Probed(count) && Occupied(page(b)) ==> exists i :: 0 <= i < |r| && r[i] == BuildingAt(b, page(b))
  {
    var n := Probed(count);
    var bids := Found(page, n);
    FoundSpec(page, n);
    var r := ParseBuildings(count, page);
    forall b: nat | b < n && Occupied(page(b))
      ensures exists i :: 0 <= i < |r| && r[i] == BuildingAt(b, page(b))
    {
      assert b in bids;
      var i :| 0 <= i < |bids| && bids[i] == b;
      assert r[i] == BuildingAt(b, page(b));
    }
  }

  /** The buildings come in slot order: their `bid`s strictly increase. */
  lemma ParseBuildingsOrdered(count: Option<int>, page: nat -> Slot)
    ensures var r := ParseBuildings(count, page);
      forall i, j :: 0 <= i < j < |r| ==> r[i].fields["bid"].i < r[j].fields["bid"].i
  {
    var n := Probed(count);
    var bids := Found(page, n);
    FoundSpec(page, n);
    var r := ParseBuildings(count, page);
    assert forall i :: 0 <= i < |r| ==> r[i].fields["bid"] == Int(bids[i]);
  }

  // ---------------------------------------------------------------------
  // scrape_property
  // ---------------------------------------------------------------------

  /** What the parsers read from a fetched page: the property's span fields
      (after coercion, in insertion order), the building slots, and the
      sales, appraisal, assessment, extra-feature and outbuilding tables. */
  datatype PageData = PageData(
    fields: seq<(string, Value)>,
    slots: nat -> Slot,
    sales: Option<VgsiParse.HtmlTable>,
    appraisals: Option<VgsiParse.HtmlTable>,
    assessments: Option<VgsiParse.HtmlTable>,
    extraFeatures: Option<VgsiParse.HtmlTable>,
    outbuildings: Option<VgsiParse.HtmlTable>)

  /** The dict `scrape_property` returns. */
  datatype LegacyResult = LegacyResult(
    property: Option<Row>,
    buildings: seq<VgsiSource.Building>,
    ownership: seq<Row>,
    appraisals: seq<Row>,
    assessments: seq<Row>,
    extraFeatures: seq<Row>,
    outbuildings: seq<Row>)

  /** Stamps a child row with its property's uuid and the requested pid. */
  function Stamp(row: Row, uuid: Value, pid: int): Row
  {
    row["property_uuid" := uuid]["pid" := Int(pid)]
  }

  function StampAll(rows: seq<Row>, uuid: Value, pid: int): (r: seq<Row>)
  {
    MapSeq(rows, (row: Row) => Stamp(row, uuid, pid))
  }

  /** `prop.get("building_count") or 0`. */
  function BuildingCount(prop: Row): int
  {
    if "building_count" in prop && prop["building_count"].Int? then prop["building_count"].i else 0
  }

  /** The result of `scrape_property` for a fetched page. */
  function Assemble(page: PageData, pid: int, uuidOf: RowHash.Serialized -> string, f: VgsiParse.Floats): LegacyResult
  {
    var prop := ParseProperty(page.fields, pid, uuidOf);
    var uuid := prop["uuid"];
    var buildings := ParseBuildings(Some(BuildingCount(prop)), page.slots);
    LegacyResult(
      Some(prop),
      MapSeq(buildings, (b: VgsiSource.Building) => b.(fields := Stamp(b.fields, uuid, pid))),
      StampAll(VgsiParse.ParseTableRows(page.sales, {"sale_price"}, f), uuid, pid),
      StampAll(VgsiParse.ParseTableRows(page.appraisals, {"improvements", "land", "total"}, f), uuid, pid),
      StampAll(VgsiParse.ParseTableRows(page.assessments, {"improvements", "land", "total"}, f), uuid, pid),
      StampAll(VgsiParse.ParseTableRows(page.extraFeatures, {"value", "assessed_value"}, f), uuid, pid),
      StampAll(VgsiParse.ParseTableRows(page.outbuildings, {"value", "assessed_value"}, f), uuid, pid))
  }

  /** `scrape_property(base_url, pid)`: the fetch error, or the page's
      property and child rows. `parse` stands for BeautifulSoup and the
      span and table lookups. */
  function ScrapeProperty(get: (string, nat) -> VgsiSource.Reply, baseUrl: string, pid: int,
                          parse: string -> PageData, uuidOf: RowHash.Serialized -> string,
                          f: VgsiParse.Floats): Result<LegacyResult, Error>
  {
    match FetchPage(get, baseUrl, pid, MaxRetries).result
      case Err(e) => Err(e)
      case Ok(html) => Ok(Assemble(parse(html), pid, uuidOf, f))
  }

  /** Every child row holds the property's uuid as `property_uuid` and the
      requested pid, and is otherwise the row its parser produced. */
  predicate StampedFrom(rows: seq<Row>, parsed: seq<Row>, uuid: Value, pid: int)
  {
    && |rows| == |parsed|
    && forall i :: 0 <= i < |rows| ==>
         && "property_uuid" in rows[i] && rows[i]["property_uuid"] == uuid
         && "pid" in rows[i] && rows[i]["pid"] == Int(pid)
         && rows[i] - {"property_uuid", "pid"} == parsed[i] - {"property_uuid", "pid"}
  }

  lemma StampAllSpec(rows: seq<Row>, uuid: Value, pid: int)
    ensures StampedFrom(StampAll(rows, uuid, pid), rows, uuid, pid)
  {
  }

  /** `scrape_property` fails exactly when the fetch does, with its error;
      otherwise the property carries the insertion-order uuid of its
      fields and the pid, and every building, sale, appraisal, assessment,
      extra feature and outbuilding row is stamped with that uuid and pid. */
  lemma ScrapePropertySpec(get: (string, nat) -> VgsiSource.Reply, baseUrl: string, pid: int,
                           parse: string -> PageData, uuidOf: RowHash.Serialized -> string, f: VgsiParse.Floats)
    ensures var fetched := FetchPage(get, baseUrl, pid, MaxRetries).result;
      var r := ScrapeProperty(get, baseUrl, pid, parse, uuidOf, f);
      && (r.Err? <==> fetched.Err?)
      && (r.Err? ==> r.error == fetched.error)
      && (r.Ok? ==>
           var page := parse(fetched.value);
           var uuid := Str(GenerateUuid(pid, page.fields, uuidOf));
           var res := r.value;
           && res.property.Some? && res.property.value["uuid"] == uuid && res.property.value["pid"] == Int(pid)
           && |res.buildings| == |ParseBuildings(Some(BuildingCount(res.property.value)), page.slots)|
           && (forall i :: 0 <= i < |res.buildings| ==>
                 res.buildings[i].fields["property_uuid"] == uuid && res.buildings[i].fields["pid"] == Int(pid))
           && StampedFrom(res.ownership, VgsiParse.ParseTableRows(page.sales, {"sale_price"}, f), uuid, pid)
           && StampedFrom(res.appraisals, VgsiParse.ParseTableRows(page.appraisals, {"improvements", "land", "total"}, f), uuid, pid)
           && StampedFrom(res.assessments, VgsiParse.ParseTableRows(page.assessments, {"improvements", "land", "total"}, f), uuid, pid)
           && StampedFrom(res.extraFeatures, VgsiParse.ParseTableRows(page.extraFeatures, {"value", "assessed_value"}, f), uuid, pid)
           && StampedFrom(res.outbuildings, VgsiParse.ParseTableRows(page.outbuildings, {"value", "assessed_value"}, f), uuid, pid))
  {
    var fetched := FetchPage(get, baseUrl, pid, MaxRetries).result;
    if fetched.Ok? {
      var page := parse(fetched.value);
      var uuid := Str(GenerateUuid(pid, page.fields, uuidOf));
      StampAllSpec(VgsiParse.ParseTableRows(page.sales, {"sale_price"}, f), uuid, pid);
      StampAllSpec(VgsiParse.ParseTableRows(page.appraisals, {"improvements", "land", "total"}, f), uuid, pid);
      StampAllSpec(VgsiParse.ParseTableRows(page.assessments, {"improvements", "land", "total"}, f), uuid, pid);
      StampAllSpec(VgsiParse.ParseTableRows(page.extraFeatures, {"value", "assessed_value"}, f), uuid, pid);
      StampAllSpec(VgsiParse.ParseTableRows(page.outbuildings, {"value", "assessed_value"}, f), uuid, pid);
    }
  }
}

/** The CT business-registry source (scrapers/ct_data/source.py): paginated
    fetches of five Socrata datasets, the field rename for businesses, the
    flatten step and the entry list.

    The HTTP server is an oracle `get(request, attempt)` answering each
    attempt at a request; JSON objects arrive already decoded, as their
    members in order with distinct keys.
 */
module CtData {
  import opened Base
  import opened Retry
  import RowHash
  import Engine
  import opened Tables

  const PageSize: nat := 50000

  /** `DATASETS`, in its insertion order: dataset id to table name. */
  const Datasets: seq<(string, string)> := [
    ("n7gp-d28j", "businesses"),
    ("ah3s-bes7", "filings"),
    ("qh2m-n44y", "agents"),
    ("ka36-64k6", "principals"),
    ("enwv-52we", "name_changes")]

  /** The retry settings `fetch_dataset` uses: `max_retries=3`,
      `initial_delay=1`, `backoff_factor=2`. */
  const MaxRetries: int := 3
  const InitialDelay: real := 1.0
  const BackoffFactor: real := 2.0

  /** `dict.get` on an association list with distinct keys. */
  function Lookup<V>(items: seq<(string, V)>, key: string): (r: Option<V>)
    ensures r.Some? <==> exists i :: 0 <= i < |items| && items[i].0 == key
    ensures r.Some? ==> exists i :: 0 <= i < |items| && items[i] == (key, r.value)
  {
    if items == [] then None
    else if items[0].0 == key then Some(items[0].1)
    else
      var r := Lookup(items[1..], key);
      assert forall i :: 0 <= i < |items| - 1 ==> items[1..][i] == items[i + 1];
      r
  }

  function TableFor(datasetId: string): Option<string>
  {
    Lookup(Datasets, datasetId)
  }

  /** `FIELD_RENAMES.get(table, {}).get(key, key)`. */
  function RenameKey(table: string, key: string): string
  {
    if table == "businesses" && key == "id" then "business_id" else key
  }

  // ---------------------------------------------------------------------
  // One page request
  // ---------------------------------------------------------------------

  /** A decoded JSON object: its members in order, keys distinct. */
  type Object = m: seq<(string, Value)> | RowHash.DistinctKeys(m) witness []

  datatype Body = Rows(objects: seq<Object>) | NotAList | Undecodable(msg: string)
  datatype Reply = Reply(status: int, body: Body) | TransportError(msg: string)
  datatype Request = Request(url: string, params: seq<(string, string)>)

  /** `{"$limit": ..., "$offset": ...}`, plus `$where` for incremental fetches. */
  function PageParams(offset: nat, since: Option<string>): (r: seq<(string, string)>)
    ensures |r| >= 2 && r[..2] == [("$limit", "50000"), ("$offset", IntToString(offset))]
    ensures since.None? ==> |r| == 2
    ensures since.Some? ==> |r| == 3 && r[2] == ("$where", "create_dt > '" + since.value + "'")
  {
    assert IntToString(PageSize) == "50000";
    [("$limit", IntToString(PageSize)), ("$offset", IntToString(offset))]
      + (if since.Some? then [("$where", "create_dt > '" + since.value + "'")] else [])
  }

  /** One attempt of `_fetch_page_with_retry`: a non-200 status or a body
      that is not a list is the invalid-dataset error; a transport failure
      or an undecodable body is an ordinary exception. */
  function PageAttempt(reply: Reply): (r: Attempt<seq<Object>>)
    ensures r.Done? <==> reply.Reply? && reply.status == 200 && reply.body.Rows?
    ensures r.Raised? && r.error.InvalidEntry? <==>
      reply.Reply? && (reply.status != 200 || reply.body.NotAList?)
  {
    match reply
      case TransportError(msg) => Raised(Network(msg))
      case Reply(status, body) =>
        if status != 200 then Raised(InvalidEntry("API error: HTTP " + IntToString(status)))
        else match body
          case Rows(objects) => Done(objects)
          case NotAList => Raised(InvalidEntry("Unexpected response type"))
          case Undecodable(msg) => Raised(Other(msg))
  }

  /** `_fetch_page_with_retry(url, params)`. */
  function FetchPage(get: (Request, nat) -> Reply, url: string, offset: nat, since: Option<string>)
    : Fetch<seq<Object>>
  {
    var req := Request(url, PageParams(offset, since));
    RetryLoop((k: nat) => PageAttempt(get(req, k)), CtDataPolicy, MaxRetries, InitialDelay, BackoffFactor)
  }

  function PageAt(get: (Request, nat) -> Reply, url: string, offset: nat, since: Option<string>)
    : Result<seq<Object>, Error>
  {
    FetchPage(get, url, offset, since).result
  }

  /** A non-200 status is not retried: the first such reply ends the fetch
      with the invalid-dataset error naming the status. */
  lemma ErrorStatusNotRetried(get: (Request, nat) -> Reply, url: string, offset: nat, since: Option<string>)
    requires get(Request(url, PageParams(offset, since)), 0).Reply?
    requires get(Request(url, PageParams(offset, since)), 0).status != 200
    ensures var f := FetchPage(get, url, offset, since);
      var status := get(Request(url, PageParams(offset, since)), 0).status;
      f.attempts == 1 && f.sleeps == []
      && f.result == Err(InvalidEntry("API error: HTTP " + IntToString(status)))
  {
    var req := Request(url, PageParams(offset, since));
    RetryLoopSpec((k: nat) => PageAttempt(get(req, k)), CtDataPolicy, MaxRetries, InitialDelay, BackoffFactor);
  }

  /** Transport failures and undecodable bodies are retried up to three
      times: four such replies in a row fail the page with the last error,
      after sleeping 1, 2 and 4 seconds. */
  lemma TransientErrorsRetried(get: (Request, nat) -> Reply, url: string, offset: nat, since: Option<string>)
    requires forall k: nat :: k <= 3 ==>
      var reply := get(Request(url, PageParams(offset, since)), k);
      reply.TransportError? || (reply.status == 200 && reply.body.Undecodable?)
    ensures var f := FetchPage(get, url, offset, since);
      f.attempts == 4 && f.sleeps == [1.0, 2.0, 4.0]
      && f.result == Err(PageAttempt(get(Request(url, PageParams(offset, since)), 3)).error)
  {
    var req := Request(url, PageParams(offset, since));
    var tries := (k: nat) => PageAttempt(get(req, k));
    RetryLoopSpec(tries, CtDataPolicy, MaxRetries, InitialDelay, BackoffFactor);
    var f := FetchPage(get, url, offset, since);
    assert tries(f.attempts - 1).Raised? && Retried(CtDataPolicy, tries(f.attempts - 1).error);
    assert f.sleeps[1] == 2.0;
  }

  // ---------------------------------------------------------------------
  // Pagination
  // ---------------------------------------------------------------------

  /** The `while True` loop over a page oracle `page(offset)`: the pages read
      and the offsets requested, or the error of the last request.
      `OutOfFuel` stands for a server that keeps sending full pages. */
  datatype Paged =
    | Complete(pages: seq<seq<Object>>, offsets: seq<nat>)
    | Failed(error: Error, offsets: seq<nat>)
    | OutOfFuel

  function FetchPages(page: nat -> Result<seq<Object>, Error>, offset: nat, fuel: nat): (r: Paged)
    ensures r.Complete? ==> |r.pages| == |r.offsets| >= 1
    ensures !r.OutOfFuel? ==> |r.offsets| >= 1 && r.offsets[0] == offset
    decreases fuel
  {
    if fuel == 0 then OutOfFuel
    else match page(offset)
      case Err(e) => Failed(e, [offset])
      case Ok(rows) =>
        if |rows| < PageSize then Complete([rows], [offset])
        else match FetchPages(page, offset + PageSize, fuel - 1)
          case Complete(pages, offsets) => Complete([rows] + pages, [offset] + offsets)
          case Failed(e, offsets) => Failed(e, [offset] + offsets)
          case OutOfFuel => OutOfFuel
  }

  /** Requests go to `offset`, `offset + PAGE_SIZE`, ...; every request but
      the last returned at least `PAGE_SIZE` rows. */
  ghost predicate Walked(page: nat -> Result<seq<Object>, Error>, offset: nat, offsets: seq<nat>)
  {
    && |offsets| >= 1 && offsets[0] == offset
    && (forall i :: 0 < i < |offsets| ==> offsets[i] == offsets[i - 1] + PageSize)
    && (forall i :: 0 <= i < |offsets| - 1 ==> page(offsets[i]).Ok? && |page(offsets[i]).value| >= PageSize)
  }

  /** A completed pagination walked the offsets in steps of `PAGE_SIZE` and
      stopped at the first page shorter than `PAGE_SIZE`; the pages returned
      are the pages fetched, in order. */
  lemma {:induction false} PagesWalkedComplete(page: nat -> Result<seq<Object>, Error>, offset: nat, fuel: nat)
    requires FetchPages(page, offset, fuel).Complete?
    ensures var r := FetchPages(page, offset, fuel);
      && Walked(page, offset, r.offsets)
      && (forall i :: 0 <= i < |r.pages| ==> page(r.offsets[i]) == Ok(r.pages[i]))
      && |r.pages[|r.pages| - 1]| < PageSize
    decreases fuel
  {
    var r := FetchPages(page, offset, fuel);
    if page(offset).Ok? && |page(offset).value| >= PageSize {
      var rows := page(offset).value;
      var rest := FetchPages(page, offset + PageSize, fuel - 1);
      PagesWalkedComplete(page, offset + PageSize, fuel - 1);
      assert r.offsets == [offset] + rest.offsets && r.pages == [rows] + rest.pages;
      WalkedCons(page, offset, rest.offsets);
      PagesCons(page, offset, rows, rest.pages, rest.offsets);
    }
  }

  /** A failed pagination walked the offsets in steps of `PAGE_SIZE` and
      stopped at the first request whose retries failed, with its error. */
  lemma {:induction false} PagesWalkedFailed(page: nat -> Result<seq<Object>, Error>, offset: nat, fuel: nat)
    requires FetchPages(page, offset, fuel).Failed?
    ensures var r := FetchPages(page, offset, fuel);
      && Walked(page, offset, r.offsets)
      && page(r.offsets[|r.offsets| - 1]) == Err(r.error)
    decreases fuel
  {
    var r := FetchPages(page, offset, fuel);
    if page(offset).Ok? {
      var rest := FetchPages(page, offset + PageSize, fuel - 1);
      PagesWalkedFailed(page, offset + PageSize, fuel - 1);
      assert r.offsets == [offset] + rest.offsets;
      WalkedCons(page, offset, rest.offsets);
    }
  }

  lemma PagesCons(page: nat -> Result<seq<Object>, Error>, offset: nat, rows: seq<Object>,
                  pages: seq<seq<Object>>, offsets: seq<nat>)
    requires page(offset) == Ok(rows) && |pages| == |offsets|
    requires forall i :: 0 <= i < |pages| ==> page(offsets[i]) == Ok(pages[i])
    ensures forall i :: 0 <= i < |pages| + 1 ==> page(([offset] + offsets)[i]) == Ok(([rows] + pages)[i])
  {
    forall i | 0 < i < |pages| + 1
      ensures page(([offset] + offsets)[i]) == Ok(([rows] + pages)[i])
    {
      assert ([offset] + offsets)[i] == offsets[i - 1] && ([rows] + pages)[i] == pages[i - 1];
    }
  }

  lemma WalkedCons(page: nat -> Result<seq<Object>, Error>, offset: nat, offsets: seq<nat>)
    requires Walked(page, offset + PageSize, offsets)
    requires page(offset).Ok? && |page(offset).value| >= PageSize
    ensures Walked(page, offset, [offset] + offsets)
  {
    var o := [offset] + offsets;
    forall i | 0 < i < |o|
      ensures o[i] == o[i - 1] + PageSize
    {
      if i > 1 { assert o[i] == offsets[i - 1] && o[i - 1] == offsets[i - 2]; }
    }
    forall i | 0 <= i < |o| - 1
      ensures page(o[i]).Ok? && |page(o[i]).value| >= PageSize
    {
      if i > 0 { assert o[i] == offsets[i - 1]; }
    }
  }

  /** The rows a server holding `data` returns for one page. */
  function Window(data: seq<Object>, offset: nat): (r: seq<Object>)
    requires offset <= |data|
    ensures |r| <= PageSize && offset + |r| <= |data| && data[offset..] == r + data[offset + |r|..]
    ensures |r| < PageSize ==> offset + |r| == |data|
  {
    if offset + PageSize <= |data| then data[offset..offset + PageSize] else data[offset..]
  }

  /** Against a server whose pages are the slices of `data`, pagination
      returns all of `data` from the starting offset, given fuel for
      `(|data| - offset) / PAGE_SIZE + 1` pages. */
  lemma {:induction false} FetchPagesComplete(page: nat -> Result<seq<Object>, Error>, data: seq<Object>,
                                              offset: nat, fuel: nat)
    requires forall off: nat :: off <= |data| ==> page(off) == Ok(Window(data, off))
    requires offset <= |data| && fuel * PageSize > |data| - offset
    ensures var r := FetchPages(page, offset, fuel);
      r.Complete? && Concat(r.pages) == data[offset..]
    decreases fuel
  {
    var rows := Window(data, offset);
    var r := FetchPages(page, offset, fuel);
    if |rows| >= PageSize {
      FetchPagesComplete(page, data, offset + PageSize, fuel - 1);
      var rest := FetchPages(page, offset + PageSize, fuel - 1);
      assert r.pages == [rows] + rest.pages;
      assert ([rows] + rest.pages)[1..] == rest.pages;
    } else {
      assert r.pages == [rows];
      assert Concat(r.pages) == rows + Concat<Object>([]);
    }
  }

  /** A server that answers every page request at its first attempt with the
      slice of `data` gives `_fetch_page_with_retry` that slice. */
  lemma FaithfulServerPages(get: (Request, nat) -> Reply, url: string, since: Option<string>, data: seq<Object>)
    requires forall off: nat :: off <= |data| ==>
      get(Request(url, PageParams(off, since)), 0) == Reply(200, Rows(Window(data, off)))
    ensures forall off: nat :: off <= |data| ==> PageAt(get, url, off, since) == Ok(Window(data, off))
  {
    forall off: nat | off <= |data|
      ensures PageAt(get, url, off, since) == Ok(Window(data, off))
    {
      var req := Request(url, PageParams(off, since));
      RetryLoopSpec((k: nat) => PageAttempt(get(req, k)), CtDataPolicy, MaxRetries, InitialDelay, BackoffFactor);
    }
  }

  // ---------------------------------------------------------------------
  // fetch_dataset and fetch_dataset_incremental
  // ---------------------------------------------------------------------

  /** `{"dataset_id": ..., "table_name": ..., "rows": [...]}`. */
  datatype Dataset = Dataset(datasetId: string, tableName: string, rows: seq<Row>)

  datatype Loaded =
    | Loaded(dataset: Dataset, offsets: seq<nat>)
    | LoadError(error: Error, offsets: seq<nat>)
    | OutOfPages

  /** One decoded object as the row `fetch_dataset` returns: the dict
      comprehension with the table's renames applied in member order. */
  function ToRow(table: string, obj: Object): Row
  {
    RowHash.FromItems(seq(|obj|, i requires 0 <= i < |obj| => (RenameKey(table, obj[i].0), obj[i].1)))
  }

  function ToRows(table: string, objs: seq<Object>): (r: seq<Row>)
    ensures |r| == |objs| && forall i :: 0 <= i < |objs| ==> r[i] == ToRow(table, objs[i])
  {
    seq(|objs|, i requires 0 <= i < |objs| => ToRow(table, objs[i]))
  }

  /** `f"{base_url}{dataset_id}.json"`. */
  function DatasetUrl(baseUrl: string, datasetId: string): (r: string)
    ensures |r| == |baseUrl| + |datasetId| + 5 && r[..|baseUrl|] == baseUrl && r[|baseUrl|..|baseUrl| + |datasetId|] == datasetId
    ensures EndsWith(r, ".json")
  {
    baseUrl + datasetId + ".json"
  }

  /** The page oracle of one dataset fetch. */
  function Pages(get: (Request, nat) -> Reply, url: string, since: Option<string>): nat -> Result<seq<Object>, Error>
  {
    (offset: nat) => PageAt(get, url, offset, since)
  }

  /** The pagination and renames common to both fetches. */
  function FetchRows(get: (Request, nat) -> Reply, baseUrl: string, datasetId: string, table: string,
                     since: Option<string>, fuel: nat): (r: Loaded)
    ensures r.Loaded? ==> r.dataset.datasetId == datasetId && r.dataset.tableName == table
  {
    match FetchPages(Pages(get, DatasetUrl(baseUrl, datasetId), since), 0, fuel)
      case Complete(pages, offsets) => Loaded(Dataset(datasetId, table, ToRows(table, Concat(pages))), offsets)
      case Failed(e, offsets) => LoadError(e, offsets)
      case OutOfFuel => OutOfPages
  }

  /** `fetch_dataset(base_url, dataset_id)`; the id is rendered with `str`. */
  function FetchDataset(get: (Request, nat) -> Reply, baseUrl: string, id: EntryId, fuel: nat): (r: Loaded)
    ensures TableFor(ShowId(id)).None? ==> r == LoadError(InvalidEntry("Unknown dataset ID: " + ShowId(id)), [])
    ensures r.Loaded? ==> r.dataset.datasetId == ShowId(id) && TableFor(ShowId(id)) == Some(r.dataset.tableName)
  {
    var datasetId := ShowId(id);
    match TableFor(datasetId)
      case None => LoadError(InvalidEntry("Unknown dataset ID: " + datasetId), [])
      case Some(table) => FetchRows(get, baseUrl, datasetId, table, None, fuel)
  }

  /** `fetch_dataset_incremental(base_url, dataset_id, since)`. */
  function FetchDatasetIncremental(get: (Request, nat) -> Reply, baseUrl: string, id: EntryId,
                                   since: string, fuel: nat): (r: Loaded)
    ensures TableFor(ShowId(id)).None? ==> r == LoadError(InvalidEntry("Unknown dataset ID: " + ShowId(id)), [])
    ensures r.Loaded? ==> r.dataset.datasetId == ShowId(id) && TableFor(ShowId(id)) == Some(r.dataset.tableName)
  {
    var datasetId := ShowId(id);
    match TableFor(datasetId)
      case None => LoadError(InvalidEntry("Unknown dataset ID: " + datasetId), [])
      case Some(table) =>
        if table == "name_changes" then FetchDataset(get, baseUrl, id, fuel)
        else FetchRows(get, baseUrl, datasetId, table, Some(since), fuel)
  }

  /** Against a server holding `data` for a known dataset, `fetch_dataset`
      returns every object of `data`, in order, as a renamed row. */
  lemma FetchDatasetComplete(get: (Request, nat) -> Reply, baseUrl: string, id: EntryId,
                             data: seq<Object>, fuel: nat)
    requires TableFor(ShowId(id)).Some?
    requires forall off: nat :: off <= |data| ==>
      get(Request(DatasetUrl(baseUrl, ShowId(id)), PageParams(off, None)), 0) == Reply(200, Rows(Window(data, off)))
    requires fuel * PageSize > |data|
    ensures var r := FetchDataset(get, baseUrl, id, fuel);
      r.Loaded? && r.dataset.rows == ToRows(TableFor(ShowId(id)).value, data)
  {
    var url := DatasetUrl(baseUrl, ShowId(id));
    FaithfulServerPages(get, url, None, data);
    FetchPagesComplete(Pages(get, url, None), data, 0, fuel);
  }

  /** An unknown dataset id fails before any request: the result is the same
      whatever the server would have answered. */
  lemma UnknownDatasetNoRequest(get1: (Request, nat) -> Reply, get2: (Request, nat) -> Reply,
                                baseUrl: string, id: EntryId, since: string, fuel: nat)
    requires TableFor(ShowId(id)).None?
    ensures FetchDataset(get1, baseUrl, id, fuel) == FetchDataset(get2, baseUrl, id, fuel)
    ensures FetchDatasetIncremental(get1, baseUrl, id, since, fuel)
            == FetchDatasetIncremental(get2, baseUrl, id, since, fuel)
            == FetchDataset(get1, baseUrl, id, fuel)
  {
  }

  /** Incremental fetches: `name_changes` is fetched in full, with no
      `$where`; every other dataset sends `create_dt > '<since>'` with each
      page request, and is otherwise the full fetch. */
  lemma IncrementalRequests(get: (Request, nat) -> Reply, baseUrl: string, id: EntryId,
                            since: string, fuel: nat)
    requires TableFor(ShowId(id)).Some?
    ensures TableFor(ShowId(id)).value == "name_changes" ==>
      FetchDatasetIncremental(get, baseUrl, id, since, fuel) == FetchDataset(get, baseUrl, id, fuel)
    ensures TableFor(ShowId(id)).value != "name_changes" ==>
      FetchDatasetIncremental(get, baseUrl, id, since, fuel)
        == FetchRows(get, baseUrl, ShowId(id), TableFor(ShowId(id)).value, Some(since), fuel)
    ensures FetchDataset(get, baseUrl, id, fuel)
        == FetchRows(get, baseUrl, ShowId(id), TableFor(ShowId(id)).value, None, fuel)
  {
  }

  /** Only `dataset_id` values from `DATASETS` resolve, each to its table. */
  lemma DatasetTables()
    ensures TableFor("n7gp-d28j") == Some("businesses")
    ensures TableFor("enwv-52we") == Some("name_changes")
    ensures forall id :: TableFor(id).Some? <==> exists i :: 0 <= i < |Datasets| && Datasets[i].0 == id
  {
  }

  // ---------------------------------------------------------------------
  // The businesses rename
  // ---------------------------------------------------------------------

  /** Reference for the businesses rename: `id` moves to `business_id`. */
  function MoveId(m: Row): (r: Row)
    ensures "id" !in r
  {
    if "id" in m then (m - {"id"})["business_id" := m["id"]] else m - {"id"}
  }

  /** For `businesses`, a row without its own `business_id` member has `id`
      renamed to `business_id` and every other member unchanged; every other
      table's rows are the decoded objects as they are. */
  lemma RenameSpec(table: string, obj: Object)
    ensures table != "businesses" ==> ToRow(table, obj) == RowHash.FromItems(obj)
    ensures table == "businesses" && (forall i :: 0 <= i < |obj| ==> obj[i].0 != "business_id") ==>
      ToRow(table, obj) == MoveId(RowHash.FromItems(obj))
  {
    var renamed := seq(|obj|, i requires 0 <= i < |obj| => (RenameKey(table, obj[i].0), obj[i].1));
    if table != "businesses" {
      assert renamed == obj;
    } else if forall i :: 0 <= i < |obj| ==> obj[i].0 != "business_id" {
      RenamedItems(obj, renamed);
    }
  }

  /** `FromItems` of the renamed members of a businesses object. */
  lemma {:induction false} RenamedItems(obj: seq<(string, Value)>, renamed: seq<(string, Value)>)
    requires |renamed| == |obj|
    requires forall i :: 0 <= i < |obj| ==> renamed[i] == (RenameKey("businesses", obj[i].0), obj[i].1)
    requires forall i :: 0 <= i < |obj| ==> obj[i].0 != "business_id"
    ensures RowHash.FromItems(renamed) == MoveId(RowHash.FromItems(obj))
    decreases |obj|
  {
    if obj != [] {
      var n := |obj|;
      RenamedItems(obj[..n - 1], renamed[..n - 1]);
      var m0 := RowHash.FromItems(obj[..n - 1]);
      assert RowHash.FromItems(obj) == m0[obj[n - 1].0 := obj[n - 1].1];
      assert RowHash.FromItems(renamed) == RowHash.FromItems(renamed[..n - 1])[renamed[n - 1].0 := renamed[n - 1].1];
      MoveIdStep(m0, obj[n - 1].0, obj[n - 1].1);
    }
  }

  lemma MoveIdStep(m: Row, k: string, v: Value)
    requires "business_id" !in m && k != "business_id"
    ensures MoveId(m[k := v]) == MoveId(m)[RenameKey("businesses", k) := v]
  {
    if k != "id" {
      assert RenameKey("businesses", k) == k;
    }
  }

  // ---------------------------------------------------------------------
  // flatten_ct_data and make_load_iter
  // ---------------------------------------------------------------------

  /** One iteration of the flatten loop: a result with rows extends its
      table; one without rows creates nothing. */
  function AddRows(t: TableSet, name: string, rows: seq<Row>): TableSet
  {
    if rows == [] then t else Extend(t, name, rows)
  }

  /** Table names distinct, each with at least one row. */
  ghost predicate NonEmptyTables(t: TableSet)
  {
    Distinct(t) && forall i :: 0 <= i < |t| ==> t[i].1 != []
  }

  lemma AddRowsSpec(t: TableSet, name: string, rows: seq<Row>)
    requires NonEmptyTables(t)
    ensures var r := AddRows(t, name, rows);
      && NonEmptyTables(r)
      && (forall u :: Get(r, u) == Get(t, u) + (if u == name then rows else []))
  {
    if rows != [] {
      ExtendSpec(t, name, rows);
      var r := Extend(t, name, rows);
      forall i | 0 <= i < |r|
        ensures r[i].1 != []
      {
        GetSpec(r, r[i].0);
        if !Has(t, r[i].0) {
          assert Get(t, r[i].0) == [];
        } else {
          var j :| 0 <= j < |t| && t[j].0 == r[i].0;
          GetSpec(t, r[i].0);
        }
      }
    }
  }

  /** `flatten_ct_data(results)`: the table names in order of first
      non-empty appearance, each with its rows. */
  function FlattenCtData(results: seq<Dataset>): TableSet
  {
    if results == [] then []
    else
      var last := results[|results| - 1];
      AddRows(FlattenCtData(results[..|results| - 1]), last.tableName, last.rows)
  }

  /** Reference: all rows of table `t`, in input order. */
  function RowsOf(results: seq<Dataset>, t: string): seq<Row>
  {
    if results == [] then []
    else
      var last := results[|results| - 1];
      RowsOf(results[..|results| - 1], t) + (if last.tableName == t then last.rows else [])
  }

  lemma {:induction false} FlattenGet(results: seq<Dataset>)
    ensures var r := FlattenCtData(results);
      NonEmptyTables(r) && forall t :: Get(r, t) == RowsOf(results, t)
    decreases |results|
  {
    if results != [] {
      var n := |results|;
      FlattenGet(results[..n - 1]);
      AddRowsSpec(FlattenCtData(results[..n - 1]), results[n - 1].tableName, results[n - 1].rows);
    }
  }

  /** Each table appears once, exactly when some result for it has rows,
      and holds the concatenation of its results' rows in input order. */
  lemma FlattenCtDataSpec(results: seq<Dataset>)
    ensures var r := FlattenCtData(results);
      && Distinct(r)
      && (forall t :: (exists i :: 0 <= i < |r| && r[i].0 == t) <==> RowsOf(results, t) != [])
      && (forall i :: 0 <= i < |r| ==> r[i].1 == RowsOf(results, r[i].0))
  {
    var r := FlattenCtData(results);
    FlattenGet(results);
    forall t
      ensures (exists i :: 0 <= i < |r| && r[i].0 == t) <==> RowsOf(results, t) != []
    {
      GetSpec(r, t);
    }
    forall i | 0 <= i < |r|
      ensures r[i].1 == RowsOf(results, r[i].0)
    {
      GetSpec(r, r[i].0);
    }
  }

  /** `make_load_iter(dataset_ids)`: the given ids, or every `DATASETS` key
      in order when none or an empty list is given. */
  function MakeLoadIter(datasetIds: Option<seq<string>>): (r: seq<string>)
    ensures datasetIds.Some? && datasetIds.value != [] ==> r == datasetIds.value
    ensures (datasetIds.None? || datasetIds.value == []) ==>
      |r| == |Datasets| && forall i :: 0 <= i < |r| ==> r[i] == Datasets[i].0 && TableFor(r[i]).Some?
  {
    if datasetIds.Some? && datasetIds.value != [] then datasetIds.value
    else seq(|Datasets|, i requires 0 <= i < |Datasets| => Datasets[i].0)
  }

  /** How the engine sees one fetch: the invalid-dataset error marks the
      entry invalid; any other error is a failed entry. */
  function AsOutcome(r: Loaded): (o: Engine.Outcome<Dataset>)
    ensures o.Scraped? <==> r.Loaded?
    ensures o.Invalid? <==> r.LoadError? && r.error.InvalidEntry?
  {
    match r
      case Loaded(d, _) => Engine.Scraped(Some(d))
      case LoadError(e, _) => if e.InvalidEntry? then Engine.Invalid else Engine.Failed
      case OutOfPages => Engine.Failed
  }
}

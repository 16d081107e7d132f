/** The append-only writer of the engine (src/engine/database.py).

    A writer owns one scope directory: one sub-directory per table, each
    holding parquet files. Here a file is its name and its rows, a table
    directory is a map from file names to rows, and the JSON checkpoint
    directory is a map from scope keys to checkpoint files. Clock values and
    the MD5 digest are parameters.
 */
module ParquetWriter {
  import opened Base
  import RowHash

  type Digest = string

  /** One table directory: file name -> the rows stored in that file. */
  type TableDir = map<string, seq<Row>>

  // ---------------------------------------------------------------------
  // File names
  // ---------------------------------------------------------------------

  /** `f"{session_ts}_{batch_num:04d}.parquet"`. */
  function BatchPath(ts: string, n: nat): string
  {
    ts + "_" + ZeroPad(n, 4) + ".parquet"
  }

  /** `f"{session_ts}.parquet"`, the output of compaction. */
  function CompactPath(ts: string): string
  {
    ts + ".parquet"
  }

  /** Whether `name` matches the glob `f"{ts}_*.parquet"`. */
  predicate SessionGlob(name: string, ts: string)
  {
    |name| >= |ts| + 9 && StartsWith(name, ts + "_") && EndsWith(name, ".parquet")
  }

  /** Every batch file of a session matches that session's glob. */
  lemma BatchPathMatchesGlob(ts: string, n: nat)
    ensures SessionGlob(BatchPath(ts, n), ts)
  {
    var p := BatchPath(ts, n);
    assert p[..|ts| + 1] == ts + "_";
    assert p[|p| - 8..] == ".parquet";
  }

  /** The compacted file never matches the glob, so compaction cannot pick
      up its own output. */
  lemma CompactPathOutsideGlob(ts: string)
    ensures !SessionGlob(CompactPath(ts), ts)
  {
  }

  /** Different batch numbers of one session give different file names. */
  lemma BatchPathInjective(ts: string, a: nat, b: nat)
    requires BatchPath(ts, a) == BatchPath(ts, b)
    ensures a == b
  {
    var pa, pb := ZeroPad(a, 4), ZeroPad(b, 4);
    var x, y := BatchPath(ts, a), BatchPath(ts, b);
    assert |pa| == |pb|;
    assert x[|ts| + 1..|ts| + 1 + |pa|] == pa;
    assert y[|ts| + 1..|ts| + 1 + |pb|] == pb;
    ZeroPadInjective(a, b, 4);
  }

  /** Batch files of another session with a stamp of the same width (all
      `%Y%m%d_%H%M%S_%f` stamps have 22 characters) never match this
      session's glob, and no batch file is any session's compacted file. */
  lemma SessionsDoNotMix(ts: string, other: string, n: nat)
    requires |ts| == |other| && ts != other
    ensures !SessionGlob(BatchPath(other, n), ts)
    ensures BatchPath(other, n) != CompactPath(ts)
  {
    var p := BatchPath(other, n);
    assert p[..|ts|] == other;
    assert (ts + "_")[..|ts|] == ts;
    assert p[..|ts| + 1][..|ts|] == p[..|ts|];
    assert p[|ts|] == '_';
    assert CompactPath(ts)[|ts|] == '.';
  }

  // ---------------------------------------------------------------------
  // Checkpoint files
  // ---------------------------------------------------------------------

  /** A decoded JSON document; objects keep their members in text order. */
  datatype Json =
    | JNull
    | JBool(b: bool)
    | JInt(i: int)
    | JFloat(repr: string)
    | JStr(s: string)
    | JArray(items: seq<Json>)
    | JObject(members: seq<(string, Json)>)

  /** A checkpoint file holds the text of some JSON document, or text that
      `json.loads` rejects. */
  datatype CheckpointFile = Encoded(doc: Json) | Undecodable

  /** `obj[key]` on a decoded object: with repeated keys the last one wins. */
  function Member(members: seq<(string, Json)>, key: string): (r: Option<Json>)
    ensures r.Some? <==> exists i :: 0 <= i < |members| && members[i].0 == key
  {
    if members == [] then None
    else
      var last := members[|members| - 1];
      if last.0 == key then Some(last.1)
      else
        var r := Member(members[..|members| - 1], key);
        assert forall i :: 0 <= i < |members| - 1 ==> members[..|members| - 1][i] == members[i];
        r
  }

  // ---------------------------------------------------------------------
  // Writer state
  // ---------------------------------------------------------------------

  datatype WriterState = WriterState(
    sessionTs: string,
    batchNum: nat,
    existingHashes: Option<map<string, set<Digest>>>,
    rowsWritten: nat,
    rowsSkipped: nat,
    tables: map<string, TableDir>,
    checkpoints: map<string, CheckpointFile>)

  datatype WriteStats = WriteStats(rowsWritten: nat, rowsSkipped: nat)

  /** `ParquetWriter(...)` over the directories already on disk. */
  function NewWriter(sessionTs: string, tables: map<string, TableDir>,
                     checkpoints: map<string, CheckpointFile>): (w: WriterState)
    ensures w.batchNum == 0 && w.existingHashes == None
    ensures w.rowsWritten == 0 && w.rowsSkipped == 0
    ensures w.tables == tables && w.checkpoints == checkpoints
  {
    WriterState(sessionTs, 0, None, 0, 0, tables, checkpoints)
  }

  /** `get_write_stats()`. */
  function GetWriteStats(w: WriterState): (s: WriteStats)
    ensures s.rowsWritten == w.rowsWritten && s.rowsSkipped == w.rowsSkipped
  {
    WriteStats(w.rowsWritten, w.rowsSkipped)
  }

  /** The `row_hash` a stored row carries ("" when it has none). */
  function StoredHash(r: Row): Digest
  {
    if "row_hash" in r && r["row_hash"].Str? then r["row_hash"].s else ""
  }

  /** The distinct `row_hash` values of some rows. */
  function HashesOf(rows: seq<Row>): (r: set<Digest>)
    ensures forall x :: x in rows ==> StoredHash(x) in r
    ensures forall h :: h in r ==> exists x :: x in rows && StoredHash(x) == h
  {
    set x | x in rows :: StoredHash(x)
  }

  /** `load_existing_hashes(table)`: every hash stored in the table's
      parquet files. */
  function LoadExistingHashes(dir: TableDir): (r: set<Digest>)
    ensures forall f, x :: f in dir && EndsWith(f, ".parquet") && x in dir[f] ==> StoredHash(x) in r
    ensures forall h :: h in r ==> exists f :: f in dir && EndsWith(f, ".parquet") && h in HashesOf(dir[f])
  {
    set f, x | f in dir && EndsWith(f, ".parquet") && x in dir[f] :: StoredHash(x)
  }

  /** `preload_hashes()`: one hash set per existing table directory; a
      scope with no directory (no tables) gives an empty map. */
  function PreloadHashes(w: WriterState): (r: WriterState)
    ensures r.existingHashes.Some?
    ensures r.existingHashes.value.Keys == w.tables.Keys
    ensures forall t :: t in w.tables ==> r.existingHashes.value[t] == LoadExistingHashes(w.tables[t])
    ensures w.tables == map[] ==> r.existingHashes == Some(map[])
    ensures r == w.(existingHashes := r.existingHashes)
  {
    w.(existingHashes := Some(map t | t in w.tables :: LoadExistingHashes(w.tables[t])))
  }

  // ---------------------------------------------------------------------
  // write_batch
  // ---------------------------------------------------------------------

  /** The hash `write_batch` assigns: the row's content hash, which ignores
      the `scraped_at` it has just been given. */
  function Fingerprint(row: Row, md5: RowHash.Serialized -> Digest): Digest
  {
    RowHash.ComputeRowHash(row, {}, md5)
  }

  /** Sets `scraped_at` and then `row_hash` on one row. */
  function Stamp(row: Row, now: Value, md5: RowHash.Serialized -> Digest): (r: Row)
    ensures r.Keys == row.Keys + {"scraped_at", "row_hash"}
    ensures r["scraped_at"] == now
    ensures r["row_hash"] == Str(Fingerprint(row, md5))
    ensures StoredHash(r) == Fingerprint(row, md5)
    ensures forall k :: k in row && k != "scraped_at" && k != "row_hash" ==> r[k] == row[k]
  {
    var timed := row["scraped_at" := now];
    var h := RowHash.ComputeRowHash(timed, {}, md5);
    StampedHashIgnoresTime(row, now, md5);
    SetStampFields(row, now, h);
    timed["row_hash" := Str(h)]
  }

  lemma StampedHashIgnoresTime(row: Row, now: Value, md5: RowHash.Serialized -> Digest)
    ensures RowHash.ComputeRowHash(row["scraped_at" := now], {}, md5) == Fingerprint(row, md5)
  {
    assert "scraped_at" in RowHash.DefaultExclude + {};
    RowHash.ExcludedKeyIgnored(row, "scraped_at", now, {}, md5);
  }

  lemma SetStampFields(row: Row, now: Value, h: Digest)
    ensures var r := row["scraped_at" := now]["row_hash" := Str(h)];
      && r.Keys == row.Keys + {"scraped_at", "row_hash"}
      && r["scraped_at"] == now && r["row_hash"] == Str(h) && StoredHash(r) == h
      && forall k :: k in row && k != "scraped_at" && k != "row_hash" ==> r[k] == row[k]
  {
    assert "scraped_at"[0] != "row_hash"[0];
  }

  function StampAll(rows: seq<Row>, now: Value, md5: RowHash.Serialized -> Digest): (r: seq<Row>)
    ensures |r| == |rows|
    ensures forall i :: 0 <= i < |rows| ==> r[i] == Stamp(rows[i], now, md5)
  {
    seq(|rows|, i requires 0 <= i < |rows| => Stamp(rows[i], now, md5))
  }

  /** `[r for r in rows if r["row_hash"] not in known]`. */
  function FilterUnknown(rows: seq<Row>, known: set<Digest>): (r: seq<Row>)
    ensures |r| <= |rows|
    ensures forall x :: x in r <==> x in rows && StoredHash(x) !in known
    ensures known == {} ==> r == rows
  {
    if rows == [] then []
    else
      var init := FilterUnknown(rows[..|rows| - 1], known);
      var last := rows[|rows| - 1];
      assert rows == rows[..|rows| - 1] + [last];
      if StoredHash(last) in known then init else init + [last]
  }

  function TotalRows(tables: seq<(string, seq<Row>)>): nat
  {
    if tables == [] then 0
    else TotalRows(tables[..|tables| - 1]) + |tables[|tables| - 1].1|
  }

  /** The known hashes of table `name` ({} when there are none yet). */
  function Known(w: WriterState, name: string): set<Digest>
  {
    if w.existingHashes.Some? && name in w.existingHashes.value then w.existingHashes.value[name] else {}
  }

  /** The rows of one table that `write_batch` keeps: those whose hash is
      not known yet when hashes were preloaded, all of them otherwise. */
  function Kept(w: WriterState, name: string, stamped: seq<Row>): (r: seq<Row>)
    ensures w.existingHashes.None? ==> r == stamped
    ensures forall x :: x in r <==> x in stamped && StoredHash(x) !in Known(w, name)
    ensures |r| <= |stamped|
  {
    if w.existingHashes.None? then stamped else FilterUnknown(stamped, Known(w, name))
  }

  /** The skip step: counts the skipped rows and records the kept hashes. */
  function RecordSkips(w: WriterState, name: string, stamped: seq<Row>, keep: seq<Row>): (r: WriterState)
    requires |keep| <= |stamped|
    ensures r.tables == w.tables && r.rowsWritten == w.rowsWritten
    ensures r.sessionTs == w.sessionTs && r.batchNum == w.batchNum && r.checkpoints == w.checkpoints
    ensures w.existingHashes.None? ==> r == w
    ensures w.existingHashes.Some? ==>
      && r.rowsSkipped == w.rowsSkipped + (|stamped| - |keep|)
      && r.existingHashes == Some(w.existingHashes.value[name := Known(w, name) + HashesOf(keep)])
  {
    match w.existingHashes
    case None => w
    case Some(eh) =>
      w.(rowsSkipped := w.rowsSkipped + (|stamped| - |keep|),
         existingHashes := Some(eh[name := Known(w, name) + HashesOf(keep)]))
  }

  /** The write step: the kept rows become batch file `n` of the table. */
  function StoreBatch(w: WriterState, n: nat, name: string, keep: seq<Row>): (r: WriterState)
    ensures r.tables.Keys == w.tables.Keys + {name}
    ensures forall t :: t in w.tables && t != name ==> r.tables[t] == w.tables[t]
    ensures r.tables[name] == (if name in w.tables then w.tables[name] else map[])[BatchPath(w.sessionTs, n) := keep]
    ensures r == w.(rowsWritten := w.rowsWritten + |keep|, tables := r.tables)
  {
    var dir := if name in w.tables then w.tables[name] else map[];
    w.(rowsWritten := w.rowsWritten + |keep|, tables := w.tables[name := dir[BatchPath(w.sessionTs, n) := keep]])
  }

  /** One iteration of `write_batch`'s loop, on the table's stamped rows. */
  function WriteTable(w: WriterState, n: nat, name: string, stamped: seq<Row>): (r: WriterState)
    ensures r.sessionTs == w.sessionTs && r.batchNum == w.batchNum && r.checkpoints == w.checkpoints
    ensures r.existingHashes.Some? == w.existingHashes.Some?
    ensures r.rowsWritten + r.rowsSkipped == w.rowsWritten + w.rowsSkipped + |stamped|
    ensures w.existingHashes.None? ==> r.rowsSkipped == w.rowsSkipped
  {
    if stamped == [] then w
    else
      var keep := Kept(w, name, stamped);
      var w1 := RecordSkips(w, name, stamped, keep);
      if keep == [] then w1 else StoreBatch(w1, n, name, keep)
  }

  /** The files of `w` other than the batch file `n` of this session. */
  predicate KeepsOtherFiles(w: WriterState, r: WriterState, n: nat)
  {
    forall t, f :: t in w.tables && f in w.tables[t] && f != BatchPath(w.sessionTs, n) ==>
      t in r.tables && f in r.tables[t] && r.tables[t][f] == w.tables[t][f]
  }

  /** Every file of `r` was already in `w` or is batch file `n`. */
  predicate AddsOnlyBatch(w: WriterState, r: WriterState, n: nat)
  {
    forall t, f :: t in r.tables && f in r.tables[t] ==>
      (t in w.tables && f in w.tables[t]) || f == BatchPath(w.sessionTs, n)
  }

  predicate HashesGrow(w: WriterState, r: WriterState)
  {
    w.existingHashes.Some? ==>
      r.existingHashes.Some? &&
      forall t :: t in w.existingHashes.value ==>
        t in r.existingHashes.value && w.existingHashes.value[t] <= r.existingHashes.value[t]
  }

  lemma WriteTableFrame(w: WriterState, n: nat, name: string, stamped: seq<Row>)
    ensures KeepsOtherFiles(w, WriteTable(w, n, name, stamped), n)
    ensures AddsOnlyBatch(w, WriteTable(w, n, name, stamped), n)
    ensures HashesGrow(w, WriteTable(w, n, name, stamped))
  {
    if stamped != [] {
      var keep := Kept(w, name, stamped);
      var w1 := RecordSkips(w, name, stamped, keep);
      assert KeepsOtherFiles(w, w1, n) && AddsOnlyBatch(w, w1, n) && HashesGrow(w, w1);
    }
  }

  /** The loop of `write_batch` over the flattened tables, in order. */
  function WriteTables(w: WriterState, n: nat, tables: seq<(string, seq<Row>)>,
                       now: Value, md5: RowHash.Serialized -> Digest): (r: WriterState)
    ensures r.sessionTs == w.sessionTs && r.batchNum == w.batchNum && r.checkpoints == w.checkpoints
    ensures r.existingHashes.Some? == w.existingHashes.Some?
    ensures r.rowsWritten + r.rowsSkipped == w.rowsWritten + w.rowsSkipped + TotalRows(tables)
    ensures w.existingHashes.None? ==> r.rowsSkipped == w.rowsSkipped
    ensures KeepsOtherFiles(w, r, n) && AddsOnlyBatch(w, r, n) && HashesGrow(w, r)
  {
    if tables == [] then w
    else
      var mid := WriteTables(w, n, tables[..|tables| - 1], now, md5);
      var last := tables[|tables| - 1];
      var stamped := StampAll(last.1, now, md5);
      WriteTableFrame(mid, n, last.0, stamped);
      WriteTable(mid, n, last.0, stamped)
  }

  /** `write_batch(results)`: flattens the results (the source's
      `flatten_fn`) and writes each table under this call's batch number. */
  function WriteBatch<R>(w: WriterState, results: seq<R>,
                         flatten: seq<R> -> seq<(string, seq<Row>)>,
                         now: Value, md5: RowHash.Serialized -> Digest): (r: WriterState)
    ensures results == [] ==> r == w
    ensures results != [] ==> r.batchNum == w.batchNum + 1
    ensures results != [] ==>
              r.rowsWritten + r.rowsSkipped == w.rowsWritten + w.rowsSkipped + TotalRows(flatten(results))
    ensures r.existingHashes.Some? == w.existingHashes.Some?
    ensures w.existingHashes.None? ==> r.rowsSkipped == w.rowsSkipped
    ensures r.sessionTs == w.sessionTs && r.checkpoints == w.checkpoints
    ensures KeepsOtherFiles(w, r, w.batchNum) && AddsOnlyBatch(w, r, w.batchNum) && HashesGrow(w, r)
  {
    if results == [] then w
    else WriteTables(w.(batchNum := w.batchNum + 1), w.batchNum, flatten(results), now, md5)
  }

  /** No batch number this writer has yet to use names an existing file:
      the session stamp is new. */
  ghost predicate SessionFresh(w: WriterState)
  {
    forall t, m: nat :: t in w.tables && m >= w.batchNum ==> BatchPath(w.sessionTs, m) !in w.tables[t]
  }

  /** A writer whose directories hold no file of its own session starts fresh. */
  lemma NewWriterFresh(sessionTs: string, tables: map<string, TableDir>,
                       checkpoints: map<string, CheckpointFile>)
    requires forall t, f :: t in tables && f in tables[t] ==> !SessionGlob(f, sessionTs)
    ensures SessionFresh(NewWriter(sessionTs, tables, checkpoints))
  {
    forall t, m: nat | t in tables
      ensures BatchPath(sessionTs, m) !in tables[t]
    {
      BatchPathMatchesGlob(sessionTs, m);
    }
  }

  /** Batch files never collide: in a fresh session, a non-empty
      `write_batch` overwrites no file that existed before it, and the
      writer stays fresh. */
  lemma WriteBatchNeverOverwrites<R>(w: WriterState, results: seq<R>,
                                     flatten: seq<R> -> seq<(string, seq<Row>)>,
                                     now: Value, md5: RowHash.Serialized -> Digest)
    requires SessionFresh(w)
    ensures forall t, f :: t in w.tables && f in w.tables[t] ==>
      var r := WriteBatch(w, results, flatten, now, md5);
      t in r.tables && f in r.tables[t] && r.tables[t][f] == w.tables[t][f]
    ensures SessionFresh(WriteBatch(w, results, flatten, now, md5))
  {
    var r := WriteBatch(w, results, flatten, now, md5);
    if results != [] {
      forall t, m: nat | t in r.tables && m >= r.batchNum
        ensures BatchPath(r.sessionTs, m) !in r.tables[t]
      {
        if BatchPath(r.sessionTs, m) in r.tables[t] {
          if BatchPath(r.sessionTs, m) == BatchPath(w.sessionTs, w.batchNum) {
            BatchPathInjective(w.sessionTs, m, w.batchNum);
          }
        }
      }
    }
  }

  // --- What one table receives -------------------------------------------

  /** The rows stored under file `f` of table `name` ([] when absent). */
  function FileRows(w: WriterState, name: string, f: string): seq<Row>
  {
    if name in w.tables && f in w.tables[name] then w.tables[name][f] else []
  }

  /** What `w` says about table `name`: its directory and its known hashes. */
  predicate SameTable(a: WriterState, b: WriterState, name: string)
  {
    && (name in a.tables <==> name in b.tables)
    && (name in a.tables ==> a.tables[name] == b.tables[name])
    && (a.existingHashes.Some? <==> b.existingHashes.Some?)
    && (a.existingHashes.Some? ==>
          (name in a.existingHashes.value <==> name in b.existingHashes.value) &&
          (name in a.existingHashes.value ==> a.existingHashes.value[name] == b.existingHashes.value[name]))
  }

  lemma WriteTableOtherName(w: WriterState, n: nat, name: string, stamped: seq<Row>, other: string)
    requires other != name
    ensures SameTable(WriteTable(w, n, name, stamped), w, other)
  {
  }

  lemma WriteTableLocal(a: WriterState, b: WriterState, n: nat, name: string, stamped: seq<Row>)
    requires SameTable(a, b, name) && a.sessionTs == b.sessionTs
    ensures SameTable(WriteTable(a, n, name, stamped), WriteTable(b, n, name, stamped), name)
  {
    if stamped != [] {
      assert Known(a, name) == Known(b, name);
      var keep := Kept(a, name, stamped);
      assert keep == Kept(b, name, stamped);
      var a1, b1 := RecordSkips(a, name, stamped, keep), RecordSkips(b, name, stamped, keep);
      assert SameTable(a1, b1, name);
      if keep != [] {
        assert StoreBatch(a1, n, name, keep).tables[name] == StoreBatch(b1, n, name, keep).tables[name];
      }
    }
  }

  /** Table `name` after one `WriteTable` on it: the kept rows are in batch
      file `n` exactly when there are some, and every hash of the stamped
      rows is known. */
  lemma WriteTableEffect(w: WriterState, n: nat, name: string, stamped: seq<Row>)
    requires name in w.tables ==> BatchPath(w.sessionTs, n) !in w.tables[name]
    ensures var r := WriteTable(w, n, name, stamped);
      var written := FileRows(r, name, BatchPath(w.sessionTs, n));
      && written == Kept(w, name, stamped)
      && (written == [] <==> !(name in r.tables && BatchPath(w.sessionTs, n) in r.tables[name]))
      && (w.existingHashes.Some? ==> Known(r, name) == Known(w, name) + HashesOf(stamped))
  {
    var p := BatchPath(w.sessionTs, n);
    var known := Known(w, name);
    if stamped != [] {
      var keep := Kept(w, name, stamped);
      var w1 := RecordSkips(w, name, stamped, keep);
      if keep != [] {
        assert StoreBatch(w1, n, name, keep).tables[name][p] == keep;
      }
      if w.existingHashes.Some? {
        assert Known(w1, name) == known + HashesOf(keep);
        assert HashesOf(stamped) <= known + HashesOf(keep) by {
          forall h | h in HashesOf(stamped)
            ensures h in known + HashesOf(keep)
          {
            var x :| x in stamped && StoredHash(x) == h;
            if h !in known { assert x in keep; }
          }
        }
        assert HashesOf(keep) <= HashesOf(stamped);
      }
    } else {
      assert Kept(w, name, stamped) == [];
    }
  }

  /** With distinct table names, table `tables[i]` ends up exactly as if it
      had been written alone. */
  lemma {:induction false} WriteTablesIsolated(w: WriterState, n: nat, tables: seq<(string, seq<Row>)>,
                                               i: int, now: Value, md5: RowHash.Serialized -> Digest)
    requires RowHash.DistinctKeys(tables) && 0 <= i < |tables|
    ensures SameTable(WriteTables(w, n, tables, now, md5),
                      WriteTable(w, n, tables[i].0, StampAll(tables[i].1, now, md5)), tables[i].0)
    decreases |tables|
  {
    var init := tables[..|tables| - 1];
    var last := tables[|tables| - 1];
    var mid := WriteTables(w, n, init, now, md5);
    assert RowHash.DistinctKeys(init) by {
      assert forall j :: 0 <= j < |init| ==> init[j] == tables[j];
    }
    if i == |tables| - 1 {
      UntouchedByOthers(w, n, init, last.0, now, md5);
      WriteTableLocal(mid, w, n, last.0, StampAll(last.1, now, md5));
    } else {
      assert init[i] == tables[i];
      WriteTablesIsolated(w, n, init, i, now, md5);
      WriteTableOtherName(mid, n, last.0, StampAll(last.1, now, md5), tables[i].0);
    }
  }

  lemma {:induction false} UntouchedByOthers(w: WriterState, n: nat, tables: seq<(string, seq<Row>)>,
                                             name: string, now: Value, md5: RowHash.Serialized -> Digest)
    requires forall j :: 0 <= j < |tables| ==> tables[j].0 != name
    ensures SameTable(WriteTables(w, n, tables, now, md5), w, name)
    decreases |tables|
  {
    if tables != [] {
      var init := tables[..|tables| - 1];
      var last := tables[|tables| - 1];
      assert forall j :: 0 <= j < |init| ==> init[j] == tables[j];
      UntouchedByOthers(w, n, init, name, now, md5);
      WriteTableOtherName(WriteTables(w, n, init, now, md5), n, last.0, StampAll(last.1, now, md5), name);
    }
  }

  /** What a non-empty `write_batch` does to each flattened table: the rows
      it keeps are the stamped rows whose hash is not yet known (all of
      them without a preload); they go to this call's batch file, which
      exists only if some row was kept; and every hash of the table's rows,
      written or skipped, is known afterwards. */
  lemma WriteBatchTable<R>(w: WriterState, results: seq<R>,
                           flatten: seq<R> -> seq<(string, seq<Row>)>,
                           now: Value, md5: RowHash.Serialized -> Digest, i: int)
    requires results != [] && SessionFresh(w)
    requires RowHash.DistinctKeys(flatten(results)) && 0 <= i < |flatten(results)|
    ensures
      var name := flatten(results)[i].0;
      var stamped := StampAll(flatten(results)[i].1, now, md5);
      var r := WriteBatch(w, results, flatten, now, md5);
      var written := FileRows(r, name, BatchPath(w.sessionTs, w.batchNum));
      && written == Kept(w, name, stamped)
      && (written == [] <==> !(name in r.tables && BatchPath(w.sessionTs, w.batchNum) in r.tables[name]))
      && (w.existingHashes.Some? ==> Known(r, name) == Known(w, name) + HashesOf(stamped))
  {
    var tables := flatten(results);
    var name := tables[i].0;
    var w0 := w.(batchNum := w.batchNum + 1);
    assert name in w0.tables ==> BatchPath(w.sessionTs, w.batchNum) !in w0.tables[name];
    WriteTablesTable(w0, w.batchNum, tables, i, now, md5);
    KeptIgnoresBatchNum(w, w0, name, StampAll(tables[i].1, now, md5));
  }

  lemma KeptIgnoresBatchNum(w: WriterState, w0: WriterState, name: string, stamped: seq<Row>)
    requires w0 == w.(batchNum := w0.batchNum)
    ensures Kept(w0, name, stamped) == Kept(w, name, stamped)
    ensures Known(w0, name) == Known(w, name)
  {
  }

  /** `WriteBatchTable` for the loop itself, with the batch file of table
      `tables[i]` not yet present. */
  lemma WriteTablesTable(w: WriterState, n: nat, tables: seq<(string, seq<Row>)>, i: int,
                         now: Value, md5: RowHash.Serialized -> Digest)
    requires RowHash.DistinctKeys(tables) && 0 <= i < |tables|
    requires tables[i].0 in w.tables ==> BatchPath(w.sessionTs, n) !in w.tables[tables[i].0]
    ensures
      var name := tables[i].0;
      var stamped := StampAll(tables[i].1, now, md5);
      var r := WriteTables(w, n, tables, now, md5);
      var written := FileRows(r, name, BatchPath(w.sessionTs, n));
      && written == Kept(w, name, stamped)
      && (written == [] <==> !(name in r.tables && BatchPath(w.sessionTs, n) in r.tables[name]))
      && (w.existingHashes.Some? ==> Known(r, name) == Known(w, name) + HashesOf(stamped))
  {
    var name := tables[i].0;
    var stamped := StampAll(tables[i].1, now, md5);
    WriteTablesIsolated(w, n, tables, i, now, md5);
    WriteTableEffect(w, n, name, stamped);
    SameTableViews(WriteTables(w, n, tables, now, md5), WriteTable(w, n, name, stamped),
                   name, BatchPath(w.sessionTs, n));
  }

  lemma SameTableViews(a: WriterState, b: WriterState, name: string, f: string)
    requires SameTable(a, b, name)
    ensures FileRows(a, name, f) == FileRows(b, name, f)
    ensures (name in a.tables && f in a.tables[name]) <==> (name in b.tables && f in b.tables[name])
    ensures Known(a, name) == Known(b, name)
  {
  }

  // ---------------------------------------------------------------------
  // A write_batch that raises
  // ---------------------------------------------------------------------

  /** `write_batch` when the parquet write of flattened table `k` raises.
      The batch number is taken and the tables before `k` are written in
      full, files included. As written (`fixed` false), table `k` has its
      skips counted, the hashes of its kept rows recorded and those rows
      counted as written before the write raises, so only its file is
      missing. With `fixed`, table `k` leaves no trace: its hashes and
      counts are recorded only once its file exists. A `k` past the last
      table stands for `flatten_fn` raising, before anything changed. */
  function FailedWrite<R>(w: WriterState, results: seq<R>, flatten: seq<R> -> seq<(string, seq<Row>)>,
                          now: Value, md5: RowHash.Serialized -> Digest, k: nat, fixed: bool): (r: WriterState)
    ensures results == [] || k >= |flatten(results)| ==> r == w
    ensures results != [] && k < |flatten(results)| ==>
      && r.batchNum == w.batchNum + 1
      && r.rowsWritten + r.rowsSkipped == w.rowsWritten + w.rowsSkipped + TotalRows(flatten(results)[..k])
                                          + (if fixed then 0 else |flatten(results)[k].1|)
    ensures r.sessionTs == w.sessionTs && r.checkpoints == w.checkpoints
    ensures r.existingHashes.Some? == w.existingHashes.Some?
    ensures KeepsOtherFiles(w, r, w.batchNum) && AddsOnlyBatch(w, r, w.batchNum) && HashesGrow(w, r)
  {
    if results == [] then w
    else
      var tables := flatten(results);
      if k >= |tables| then w
      else
        var mid := WriteTables(w.(batchNum := w.batchNum + 1), w.batchNum, tables[..k], now, md5);
        if fixed then mid
        else
          var stamped := StampAll(tables[k].1, now, md5);
          WriteTableFrame(mid, w.batchNum, tables[k].0, stamped);
          WriteTable(mid, w.batchNum, tables[k].0, stamped).(tables := mid.tables)
  }

  /** A failed `write_batch` overwrites no file either, and the writer stays
      fresh. */
  lemma FailedWriteFresh<R>(w: WriterState, results: seq<R>, flatten: seq<R> -> seq<(string, seq<Row>)>,
                            now: Value, md5: RowHash.Serialized -> Digest, k: nat, fixed: bool)
    requires SessionFresh(w)
    ensures SessionFresh(FailedWrite(w, results, flatten, now, md5, k, fixed))
  {
    var r := FailedWrite(w, results, flatten, now, md5, k, fixed);
    if results != [] && k < |flatten(results)| {
      forall t, m: nat | t in r.tables && m >= r.batchNum
        ensures BatchPath(r.sessionTs, m) !in r.tables[t]
      {
        if BatchPath(r.sessionTs, m) in r.tables[t] {
          if BatchPath(r.sessionTs, m) == BatchPath(w.sessionTs, w.batchNum) {
            BatchPathInjective(w.sessionTs, m, w.batchNum);
          }
        }
      }
    }
  }

  /** The tables before the failing one keep the batch files the failed
      call wrote: with no preloaded hashes, a retry of the same results
      writes their rows a second time. */
  lemma FailedWriteKeepsEarlier<R>(w: WriterState, results: seq<R>, flatten: seq<R> -> seq<(string, seq<Row>)>,
                                   now: Value, md5: RowHash.Serialized -> Digest, k: nat, fixed: bool, j: nat)
    requires results != [] && SessionFresh(w)
    requires RowHash.DistinctKeys(flatten(results)) && j < k < |flatten(results)|
    ensures var name := flatten(results)[j].0;
      FileRows(FailedWrite(w, results, flatten, now, md5, k, fixed), name, BatchPath(w.sessionTs, w.batchNum))
        == Kept(w, name, StampAll(flatten(results)[j].1, now, md5))
  {
    var tables := flatten(results);
    var name := tables[j].0;
    var w0 := w.(batchNum := w.batchNum + 1);
    var pre := tables[..k];
    var mid := WriteTables(w0, w.batchNum, pre, now, md5);
    assert FailedWrite(w, results, flatten, now, md5, k, fixed).tables == mid.tables;
    DistinctPrefix(tables, k);
    assert pre[j] == tables[j];
    assert name in w0.tables ==> BatchPath(w.sessionTs, w.batchNum) !in w0.tables[name];
    WriteTablesTable(w0, w.batchNum, pre, j, now, md5);
    KeptIgnoresBatchNum(w, w0, name, StampAll(tables[j].1, now, md5));
  }

  lemma DistinctPrefix<V>(items: seq<(string, V)>, k: nat)
    requires RowHash.DistinctKeys(items) && k <= |items|
    ensures RowHash.DistinctKeys(items[..k])
  {
    forall i, j | 0 <= i < j < k ensures items[..k][i].0 != items[..k][j].0 {
      assert items[..k][i] == items[i] && items[..k][j] == items[j];
    }
  }

  /** As written, the failing table gets no file, yet the hashes of all its
      rows are known afterwards. */
  lemma FailedWriteTable<R>(w: WriterState, results: seq<R>, flatten: seq<R> -> seq<(string, seq<Row>)>,
                            now: Value, md5: RowHash.Serialized -> Digest, k: nat)
    requires results != [] && SessionFresh(w)
    requires RowHash.DistinctKeys(flatten(results)) && k < |flatten(results)|
    ensures var name := flatten(results)[k].0;
      var r := FailedWrite(w, results, flatten, now, md5, k, false);
      && FileRows(r, name, BatchPath(w.sessionTs, w.batchNum)) == []
      && (w.existingHashes.Some? ==>
            Known(r, name) == Known(w, name) + HashesOf(StampAll(flatten(results)[k].1, now, md5)))
  {
    var tables := flatten(results);
    var name := tables[k].0;
    var stamped := StampAll(tables[k].1, now, md5);
    var w0 := w.(batchNum := w.batchNum + 1);
    var mid := WriteTables(w0, w.batchNum, tables[..k], now, md5);
    assert forall j :: 0 <= j < k ==> tables[..k][j].0 != name;
    UntouchedByOthers(w0, w.batchNum, tables[..k], name, now, md5);
    WriteTableEffect(mid, w.batchNum, name, stamped);
  }

  /** With the fix, the failing table is exactly as before the call. */
  lemma FixedFailedWriteTable<R>(w: WriterState, results: seq<R>, flatten: seq<R> -> seq<(string, seq<Row>)>,
                                 now: Value, md5: RowHash.Serialized -> Digest, k: nat)
    requires results != []
    requires RowHash.DistinctKeys(flatten(results)) && k < |flatten(results)|
    ensures SameTable(FailedWrite(w, results, flatten, now, md5, k, true), w, flatten(results)[k].0)
  {
    var tables := flatten(results);
    var w0 := w.(batchNum := w.batchNum + 1);
    assert forall j :: 0 <= j < k ==> tables[..k][j].0 != tables[k].0;
    UntouchedByOthers(w0, w.batchNum, tables[..k], tables[k].0, now, md5);
  }

  /** Stamping at another time gives every row the same hash. */
  lemma RestampedHashes(rows: seq<Row>, now: Value, now2: Value, md5: RowHash.Serialized -> Digest)
    ensures HashesOf(StampAll(rows, now2, md5)) == HashesOf(StampAll(rows, now, md5))
  {
    var a, b := StampAll(rows, now, md5), StampAll(rows, now2, md5);
    forall i | 0 <= i < |rows| ensures StoredHash(a[i]) == StoredHash(b[i]) {
      assert StoredHash(a[i]) == Fingerprint(rows[i], md5);
      assert StoredHash(b[i]) == Fingerprint(rows[i], md5);
    }
    SameHashes(a, b);
  }

  lemma SameHashes(a: seq<Row>, b: seq<Row>)
    requires |a| == |b| && forall i :: 0 <= i < |a| ==> StoredHash(a[i]) == StoredHash(b[i])
    ensures HashesOf(a) == HashesOf(b)
  {
    forall h | h in HashesOf(b) ensures h in HashesOf(a) {
      var x :| x in b && StoredHash(x) == h;
      var i :| 0 <= i < |b| && b[i] == x;
      assert a[i] in a;
    }
    forall h | h in HashesOf(a) ensures h in HashesOf(b) {
      var x :| x in a && StoredHash(x) == h;
      var i :| 0 <= i < |a| && a[i] == x;
      assert b[i] in b;
    }
  }

  /** As written, with hashes preloaded, a retry of a batch whose write
      raised at table `k` writes none of that table's rows: the failed call
      stored none of them and recorded all their hashes, so the retry skips
      them all. Rows new to the table are lost. */
  lemma RetryAfterFailedWriteSkips<R>(w: WriterState, results: seq<R>, flatten: seq<R> -> seq<(string, seq<Row>)>,
                                      now: Value, now2: Value, md5: RowHash.Serialized -> Digest, k: nat)
    requires results != [] && SessionFresh(w) && w.existingHashes.Some?
    requires RowHash.DistinctKeys(flatten(results)) && k < |flatten(results)|
    ensures var name := flatten(results)[k].0;
      var r := FailedWrite(w, results, flatten, now, md5, k, false);
      && FileRows(r, name, BatchPath(w.sessionTs, w.batchNum)) == []
      && FileRows(WriteBatch(r, results, flatten, now2, md5), name, BatchPath(r.sessionTs, r.batchNum)) == []
  {
    var tables := flatten(results);
    var name := tables[k].0;
    var r := FailedWrite(w, results, flatten, now, md5, k, false);
    var stamped2 := StampAll(tables[k].1, now2, md5);
    FailedWriteTable(w, results, flatten, now, md5, k);
    FailedWriteFresh(w, results, flatten, now, md5, k, false);
    WriteBatchTable(r, results, flatten, now2, md5, k);
    RestampedHashes(tables[k].1, now, now2, md5);
    assert HashesOf(stamped2) <= Known(r, name);
    AllKnownKept(r, name, stamped2);
  }

  /** Rows whose hashes are all known are all skipped. */
  lemma AllKnownKept(w: WriterState, name: string, stamped: seq<Row>)
    requires w.existingHashes.Some? && HashesOf(stamped) <= Known(w, name)
    ensures Kept(w, name, stamped) == []
  {
    forall i | 0 <= i < |stamped| ensures StoredHash(stamped[i]) in Known(w, name) {
      assert stamped[i] in stamped;
    }
    FilterAllKnown(stamped, Known(w, name));
  }

  lemma {:induction false} FilterAllKnown(rows: seq<Row>, known: set<Digest>)
    requires forall i :: 0 <= i < |rows| ==> StoredHash(rows[i]) in known
    ensures FilterUnknown(rows, known) == []
  {
    if rows != [] {
      FilterAllKnown(rows[..|rows| - 1], known);
    }
  }

  /** Corrected: a retry of a batch whose write raised at table `k` writes
      exactly the rows of that table it would have written had the failed
      call never happened. */
  lemma FixedRetryWritesRows<R>(w: WriterState, results: seq<R>, flatten: seq<R> -> seq<(string, seq<Row>)>,
                                now: Value, now2: Value, md5: RowHash.Serialized -> Digest, k: nat)
    requires results != [] && SessionFresh(w)
    requires RowHash.DistinctKeys(flatten(results)) && k < |flatten(results)|
    ensures var name := flatten(results)[k].0;
      var f := FailedWrite(w, results, flatten, now, md5, k, true);
      FileRows(WriteBatch(f, results, flatten, now2, md5), name, BatchPath(f.sessionTs, f.batchNum))
        == Kept(w, name, StampAll(flatten(results)[k].1, now2, md5))
  {
    var tables := flatten(results);
    var name := tables[k].0;
    var f := FailedWrite(w, results, flatten, now, md5, k, true);
    FixedFailedWriteTable(w, results, flatten, now, md5, k);
    FailedWriteFresh(w, results, flatten, now, md5, k, true);
    WriteBatchTable(f, results, flatten, now2, md5, k);
    SameTableViews(f, w, name, BatchPath(w.sessionTs, w.batchNum));
  }

  // ---------------------------------------------------------------------
  // compact
  // ---------------------------------------------------------------------

  /** The files of one table directory that belong to this session. */
  function SessionFiles(dir: TableDir, ts: string): (r: set<string>)
    ensures forall f :: f in r <==> f in dir && SessionGlob(f, ts)
  {
    set f | f in dir && SessionGlob(f, ts)
  }

  /** The rows of the given files, read in the given (sorted) order. */
  function ReadAll(dir: TableDir, order: seq<string>): (r: seq<Row>)
    requires forall i :: 0 <= i < |order| ==> order[i] in dir
    ensures forall i, x :: 0 <= i < |order| && x in dir[order[i]] ==> x in r
    ensures forall x :: x in r ==> exists i :: 0 <= i < |order| && x in dir[order[i]]
  {
    if order == [] then []
    else
      var init := ReadAll(dir, order[..|order| - 1]);
      var last := dir[order[|order| - 1]];
      assert forall i :: 0 <= i < |order| - 1 ==> order[..|order| - 1][i] == order[i];
      init + last
  }

  /** The rows of each of the given files, one sequence per file. */
  function FileContents(dir: TableDir, order: seq<string>): (r: seq<seq<Row>>)
    requires forall i :: 0 <= i < |order| ==> order[i] in dir
    ensures |r| == |order| && forall i :: 0 <= i < |order| ==> r[i] == dir[order[i]]
  {
    seq(|order|, i requires 0 <= i < |order| => dir[order[i]])
  }

  /** Reading is concatenation: every file's rows, whole and in their own
      order, one file after the other in the given order, and nothing else. */
  lemma {:induction false} ReadAllConcat(dir: TableDir, order: seq<string>)
    requires forall i :: 0 <= i < |order| ==> order[i] in dir
    ensures ReadAll(dir, order) == Concat(FileContents(dir, order))
  {
    if order != [] {
      var n := |order|;
      var init := order[..n - 1];
      ReadAllConcat(dir, init);
      assert FileContents(dir, order) == FileContents(dir, init) + [dir[order[n - 1]]];
      ConcatAppend(FileContents(dir, init), dir[order[n - 1]]);
    }
  }

  /** The copy step: `COPY (SELECT * FROM read_parquet(glob)) TO compact_path`. */
  function CopySession(dir: TableDir, ts: string): (r: TableDir)
    ensures r.Keys == dir.Keys + {CompactPath(ts)}
    ensures forall f :: f in dir && f != CompactPath(ts) ==> r[f] == dir[f]
  {
    var order := RowHash.SortedKeys(SessionFiles(dir, ts));
    dir[CompactPath(ts) := ReadAll(dir, order)]
  }

  /** The delete step: unlink every session file. */
  function DeleteSession(dir: TableDir, files: set<string>): (r: TableDir)
    ensures r.Keys == dir.Keys - files
    ensures forall f :: f in r ==> r[f] == dir[f]
  {
    map f | f in dir && f !in files :: dir[f]
  }

  /** Compaction of one table directory: only with at least two session files. */
  function CompactTable(dir: TableDir, ts: string): (r: TableDir)
    ensures |SessionFiles(dir, ts)| <= 1 ==> r == dir
  {
    var files := SessionFiles(dir, ts);
    if |files| <= 1 then dir else DeleteSession(CopySession(dir, ts), files)
  }

  /** `compact()`: every table directory of the scope, independently. */
  function Compact(w: WriterState): (r: WriterState)
    ensures r.tables.Keys == w.tables.Keys
    ensures forall t :: t in w.tables ==> r.tables[t] == CompactTable(w.tables[t], w.sessionTs)
    ensures r == w.(tables := r.tables)
  {
    w.(tables := map t | t in w.tables :: CompactTable(w.tables[t], w.sessionTs))
  }

  /** After the copy step every session file is still there, unchanged: an
      interruption before the deletes loses nothing. */
  lemma CopyKeepsSessionFiles(dir: TableDir, ts: string)
    ensures forall f :: f in SessionFiles(dir, ts) ==>
      f in CopySession(dir, ts) && CopySession(dir, ts)[f] == dir[f]
  {
    CompactPathOutsideGlob(ts);
  }

  /** What compaction leaves in a table with at least two session files: no
      session file, the compacted file holding every row of every session
      file (and nothing else), and every other file unchanged. */
  lemma CompactTableEffect(dir: TableDir, ts: string)
    requires |SessionFiles(dir, ts)| >= 2
    ensures var r := CompactTable(dir, ts);
      && (forall f :: f in r ==> !SessionGlob(f, ts))
      && CompactPath(ts) in r
      && (forall f, x :: f in SessionFiles(dir, ts) && x in dir[f] ==> x in r[CompactPath(ts)])
      && (forall x :: x in r[CompactPath(ts)] ==> exists f :: f in SessionFiles(dir, ts) && x in dir[f])
      && (forall f :: f in dir && !SessionGlob(f, ts) && f != CompactPath(ts) ==> f in r && r[f] == dir[f])
  {
    var files := SessionFiles(dir, ts);
    var order := RowHash.SortedKeys(files);
    var merged := ReadAll(dir, order);
    CompactPathOutsideGlob(ts);
    var r := CompactTable(dir, ts);
    assert r[CompactPath(ts)] == merged;
    forall f, x | f in files && x in dir[f]
      ensures x in merged
    {
      var i :| 0 <= i < |order| && order[i] == f;
    }
  }

  /** The compacted file is the concatenation of the session files' rows,
      each file whole, in sorted file-name order, each file exactly once:
      no row is lost, duplicated or reordered within its file. */
  lemma CompactedContents(dir: TableDir, ts: string)
    requires |SessionFiles(dir, ts)| >= 2
    ensures var order := RowHash.SortedKeys(SessionFiles(dir, ts));
      && CompactTable(dir, ts)[CompactPath(ts)] == Concat(FileContents(dir, order))
      && |order| == |SessionFiles(dir, ts)|
      && (forall f :: f in order <==> f in SessionFiles(dir, ts))
      && RowHash.StrictlySorted(order)
  {
    var order := RowHash.SortedKeys(SessionFiles(dir, ts));
    CompactPathOutsideGlob(ts);
    ReadAllConcat(dir, order);
    assert CompactTable(dir, ts)[CompactPath(ts)] == ReadAll(dir, order);
  }

  /** Compacting twice is compacting once. */
  lemma CompactIdempotent(w: WriterState)
    ensures Compact(Compact(w)) == Compact(w)
  {
    var c := Compact(w);
    forall t | t in c.tables
      ensures CompactTable(c.tables[t], w.sessionTs) == c.tables[t]
    {
      var dir := w.tables[t];
      if |SessionFiles(dir, w.sessionTs)| >= 2 {
        CompactTableEffect(dir, w.sessionTs);
        assert SessionFiles(c.tables[t], w.sessionTs) == {};
      }
    }
  }

  // ---------------------------------------------------------------------
  // Checkpoints
  // ---------------------------------------------------------------------

  /** `save_checkpoint(scope, last_entry_id, total)` with the clock reading
      `now` as its `checkpoint_time`. */
  function SaveCheckpoint(w: WriterState, scope: string, lastId: EntryId, total: int,
                          now: string): (r: WriterState)
    ensures r == w.(checkpoints := r.checkpoints)
    ensures r.checkpoints.Keys == w.checkpoints.Keys + {scope}
    ensures forall s :: s in w.checkpoints && s != scope ==> r.checkpoints[s] == w.checkpoints[s]
  {
    var doc := JObject([
      ("scope_key", JStr(scope)),
      ("last_entry_id", JStr(ShowId(lastId))),
      ("total_scraped", JInt(total)),
      ("checkpoint_time", JStr(now))]);
    w.(checkpoints := w.checkpoints[scope := Encoded(doc)])
  }

  /** The pair `get_last_checkpoint` returns when there is nothing usable. */
  const NoCheckpoint: (Json, Json) := (JNull, JInt(0))

  /** `get_last_checkpoint(scope)`: `Ok((last_entry_id, total_scraped))`, or
      `Err` for the `TypeError` a non-object document raises (it is not
      caught). */
  function GetLastCheckpoint(w: WriterState, scope: string): (r: Result<(Json, Json), string>)
    ensures scope !in w.checkpoints ==> r == Ok(NoCheckpoint)
    ensures scope in w.checkpoints && w.checkpoints[scope] == Undecodable ==> r == Ok(NoCheckpoint)
    ensures r.Err? <==> scope in w.checkpoints && w.checkpoints[scope].Encoded? && !w.checkpoints[scope].doc.JObject?
  {
    if scope !in w.checkpoints then Ok(NoCheckpoint)
    else match w.checkpoints[scope]
      case Undecodable => Ok(NoCheckpoint)
      case Encoded(doc) =>
        if !doc.JObject? then Err("TypeError")
        else
          var id := Member(doc.members, "last_entry_id");
          var total := Member(doc.members, "total_scraped");
          if id.Some? && total.Some? then Ok((id.value, total.value)) else Ok(NoCheckpoint)
  }

  /** Saving and then loading a checkpoint gives back `str(last_entry_id)`
      and the total; other scopes' checkpoints are not affected. */
  lemma CheckpointRoundTrip(w: WriterState, scope: string, lastId: EntryId, total: int, now: string,
                            other: string)
    requires other != scope
    ensures GetLastCheckpoint(SaveCheckpoint(w, scope, lastId, total, now), scope)
         == Ok((JStr(ShowId(lastId)), JInt(total)))
    ensures GetLastCheckpoint(SaveCheckpoint(w, scope, lastId, total, now), other)
         == GetLastCheckpoint(w, other)
  {
    var m := SaveCheckpoint(w, scope, lastId, total, now).checkpoints[scope].doc.members;
    assert "checkpoint_time"[0] != "last_entry_id"[0] && "checkpoint_time"[0] != "total_scraped"[0];
    assert "total_scraped"[0] != "last_entry_id"[0];
    var m3 := m[..3];
    var m2 := m3[..2];
    assert Member(m, "total_scraped") == Member(m3, "total_scraped") == Some(JInt(total));
    assert Member(m, "last_entry_id") == Member(m3, "last_entry_id");
    assert Member(m3, "last_entry_id") == Member(m2, "last_entry_id") == Some(JStr(ShowId(lastId)));
  }

  /** A decoded object missing either key is a `KeyError`, answered with
      `(None, 0)`. */
  lemma CheckpointMissingKey(w: WriterState, scope: string)
    requires scope in w.checkpoints && w.checkpoints[scope].Encoded? && w.checkpoints[scope].doc.JObject?
    requires var m := w.checkpoints[scope].doc.members;
      forall i :: 0 <= i < |m| ==> m[i].0 != "last_entry_id"
    ensures GetLastCheckpoint(w, scope) == Ok(NoCheckpoint)
  {
  }
}

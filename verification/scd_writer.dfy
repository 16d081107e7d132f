/** The legacy DuckDB writer (src/vgsi/database.py): slowly changing
    dimension (type 2) tables for properties, buildings, sub-areas, extra
    features and outbuildings, append-only ownership and valuation
    history, the per-batch uuid dedup, and the scrape checkpoints.

    A versioned table keeps, for every natural key, the chain of its
    versions in insertion order. The lookups compare keys with SQL `=`,
    which never matches a NULL, so a row whose key has a NULL part is never
    found again; such rows are kept apart, in `unkeyed`. Timestamps are the
    parameter `now`, MD5 is the parameter `md5`, and a failed statement is
    an `Err` that leaves the caller's state as it was (the transaction is
    rolled back).
 */
module ScdWriter {
  import opened Base
  import RowHash
  import VgsiSource
  import LegacyScraper

  type Time = int
  type Key = seq<Value>
  type Md5 = RowHash.Serialized -> RowHash.Digest

  // ---------------------------------------------------------------------
  // Columns
  // ---------------------------------------------------------------------

  /** The content columns of the `properties` insert (the versioning
      columns are kept in `Version`). */
  const PropertyColumns: set<string> := {
    "uuid", "pid", "account_number", "mblu", "town_name", "address", "owner", "co_owner",
    "owner_address", "sale_price", "sale_date", "certificate", "book", "page", "book_page",
    "label_instrument", "book_label", "page_label", "assessment_value", "appraisal_value",
    "building_count", "building_use", "land_use_code", "land_zone", "land_neighborhood_code",
    "land_alt_approved", "land_size_acres", "land_frontage", "land_depth", "land_assessed_value",
    "land_appraised_value", "zip_code"
  }

  /** The content columns of the `buildings` insert: the core fields and the
      destination columns of the construction mapping, which is the same
      29-entry mapping as the newer source's. */
  const BuildingColumns: set<string> := {
    "property_uuid", "pid", "bid", "year_built", "building_area", "replacement_cost",
    "less_depreciation", "pct_good", "photo_url", "photo_local_path", "sketch_url"
  } + VgsiSource.CnsColumns

  const SubAreaColumns: set<string> := {
    "property_uuid", "pid", "bid", "code", "description", "gross_area", "living_area"
  }

  const ExtraFeatureColumns: set<string> := {
    "property_uuid", "pid", "code", "description", "size", "value", "assessed_value", "bldg_num"
  }

  const OutbuildingColumns: set<string> := {
    "property_uuid", "pid", "code", "description", "sub_code", "sub_description", "size", "value",
    "assessed_value", "bldg_num"
  }

  const OwnershipColumns: set<string> := {
    "property_uuid", "pid", "owner", "sale_price", "certificate", "book_and_page", "instrument",
    "sale_date", "updated_at"
  }

  /** The columns of the `appraisals` and of the `assessments` insert. */
  const ValuationColumns: set<string> := {
    "property_uuid", "pid", "valuation_year", "improvements", "land", "total", "updated_at"
  }

  /** The column lists of the inserts. The writer holds for any lists; the
      source's are `LegacyColumns`. */
  datatype Columns = Columns(property: set<string>, building: set<string>, subArea: set<string>,
                             extraFeature: set<string>, outbuilding: set<string>, ownership: set<string>,
                             valuation: set<string>)

  const LegacyColumns := Columns(PropertyColumns, BuildingColumns, SubAreaColumns, ExtraFeatureColumns,
                                 OutbuildingColumns, OwnershipColumns, ValuationColumns)

  /** Content columns declared NOT NULL. */
  const PropertyRequired: set<string> := {"uuid", "pid"}
  const ChildRequired: set<string> := {"property_uuid", "pid"}

  const NotNullViolation := "ConstraintException: NOT NULL constraint failed"

  /** `data.get(k)`. */
  function Get(data: Row, k: string): Value
  {
    if k in data then data[k] else Null
  }

  /** The values an insert stores: the listed columns whose value is not None. */
  function Project(data: Row, cols: set<string>): (r: Row)
    ensures forall c :: c in r <==> c in cols && c in data && data[c] != Null
    ensures forall c :: c in r ==> r[c] == data[c]
  {
    map c | c in cols && c in data && data[c] != Null :: data[c]
  }

  // ---------------------------------------------------------------------
  // Versioned tables
  // ---------------------------------------------------------------------

  /** One row of a versioned table. `updatedAt` is None in the tables
      without an `updated_at` column. */
  datatype Version = Version(data: Row, version: nat, hash: RowHash.Digest, effectiveFrom: Time,
                             effectiveTo: Option<Time>, isCurrent: bool, updatedAt: Option<Time>)

  datatype VTable = VTable(chains: map<Key, seq<Version>>, unkeyed: seq<Version>)

  const EmptyTable := VTable(map[], [])

  /** A key SQL `=` can match: none of its parts is NULL. */
  predicate Matchable(k: Key)
  {
    forall i :: 0 <= i < |k| ==> k[i] != Null
  }

  /** The versions of one key: numbered 1..n in order, the last one and only
      it current and open-ended, and each earlier one ending when the next
      begins. */
  predicate Chain(vs: seq<Version>)
  {
    && vs != []
    && (forall j :: 0 <= j < |vs| ==> vs[j].version == j + 1)
    && (forall j :: 0 <= j < |vs| ==> (vs[j].isCurrent <==> j == |vs| - 1))
    && vs[|vs| - 1].effectiveTo.None?
    && (forall j :: 0 <= j < |vs| - 1 ==> vs[j].effectiveTo == Some(vs[j + 1].effectiveFrom))
  }

  /** The invariant of every versioned table: each matchable key has one
      chain, and every row of an unmatchable key is a current version 1. */
  predicate Versioned(t: VTable)
  {
    && (forall k :: k in t.chains ==> Matchable(k) && Chain(t.chains[k]))
    && (forall j :: 0 <= j < |t.unkeyed| ==> t.unkeyed[j].version == 1 && t.unkeyed[j].isCurrent)
  }

  /** All versions stored under `key`. */
  function ChainOf(t: VTable, key: Key): seq<Version>
  {
    if key in t.chains then t.chains[key] else []
  }

  /** The first current version, as `fetchone()` would return it. */
  function FirstCurrent(vs: seq<Version>): (r: Option<nat>)
    ensures r.Some? ==> r.value < |vs| && vs[r.value].isCurrent
    ensures r.Some? ==> forall j :: 0 <= j < r.value ==> !vs[j].isCurrent
    ensures r.None? ==> forall j :: 0 <= j < |vs| ==> !vs[j].isCurrent
  {
    if vs == [] then None
    else if vs[0].isCurrent then Some(0)
    else match FirstCurrent(vs[1..])
      case Some(i) => Some(i + 1)
      case None => None
  }

  /** `SELECT id, row_hash, version ... WHERE <key> = ? AND is_current = TRUE`. */
  function Current(t: VTable, key: Key): Option<nat>
  {
    if Matchable(key) then FirstCurrent(ChainOf(t, key)) else None
  }

  /** A freshly inserted version. */
  function Fresh(stored: Row, v: nat, hash: RowHash.Digest, now: Time, touch: bool): Version
  {
    Version(stored, v, hash, now, None, true, if touch then Some(now) else None)
  }

  /** The shared upsert of the versioned tables: an unchanged hash touches
      `updated_at` (where the table has one) and adds nothing; a changed
      hash expires the current version and inserts the next; no current
      version inserts version 1. An insert lacking a NOT NULL column fails. */
  function Upsert(t: VTable, key: Key, stored: Row, hash: RowHash.Digest, now: Time, touch: bool,
                  required: set<string>): Result<VTable, string>
  {
    var vs := ChainOf(t, key);
    match Current(t, key)
      case Some(i) =>
        if vs[i].hash == hash then
          Ok(if touch then t.(chains := t.chains[key := vs[i := vs[i].(updatedAt := Some(now))]]) else t)
        else if !(required <= stored.Keys) then Err(NotNullViolation)
        else
          var expired := vs[i].(effectiveTo := Some(now), isCurrent := false);
          Ok(t.(chains := t.chains[key := vs[i := expired] + [Fresh(stored, vs[i].version + 1, hash, now, touch)]]))
      case None =>
        if !(required <= stored.Keys) then Err(NotNullViolation)
        else if Matchable(key) then Ok(t.(chains := t.chains[key := vs + [Fresh(stored, 1, hash, now, touch)]]))
        else Ok(t.(unkeyed := t.unkeyed + [Fresh(stored, 1, hash, now, touch)]))
  }

  /** Under the invariant the one current version of a key is its last. */
  lemma CurrentIsLast(t: VTable, key: Key)
    requires Versioned(t)
    ensures Current(t, key).Some? <==> key in t.chains
    ensures key in t.chains ==> Current(t, key) == Some(|t.chains[key]| - 1)
  {
    if key in t.chains {
      var vs := t.chains[key];
      assert vs[|vs| - 1].isCurrent;
    }
  }

  /** Touching the current version's `updated_at` keeps a chain. */
  lemma TouchKeepsChain(vs: seq<Version>, now: Time)
    requires Chain(vs)
    ensures Chain(vs[|vs| - 1 := vs[|vs| - 1].(updatedAt := Some(now))])
  {
    var ws := vs[|vs| - 1 := vs[|vs| - 1].(updatedAt := Some(now))];
    assert forall j :: 0 <= j < |vs| ==> ws[j].version == vs[j].version && ws[j].isCurrent == vs[j].isCurrent;
    assert forall j :: 0 <= j < |vs| ==> ws[j].effectiveTo == vs[j].effectiveTo && ws[j].effectiveFrom == vs[j].effectiveFrom;
  }

  /** Expiring the current version and appending the next keeps a chain. */
  lemma BumpKeepsChain(vs: seq<Version>, stored: Row, hash: RowHash.Digest, now: Time, touch: bool)
    requires Chain(vs)
    ensures var n := |vs|;
      Chain(vs[n - 1 := vs[n - 1].(effectiveTo := Some(now), isCurrent := false)]
            + [Fresh(stored, vs[n - 1].version + 1, hash, now, touch)])
  {
    var n := |vs|;
    var ws := vs[n - 1 := vs[n - 1].(effectiveTo := Some(now), isCurrent := false)]
              + [Fresh(stored, vs[n - 1].version + 1, hash, now, touch)];
    assert forall j :: 0 <= j < n - 1 ==> ws[j] == vs[j];
  }

  /** Every upsert keeps the table versioned. */
  lemma UpsertVersioned(t: VTable, key: Key, stored: Row, hash: RowHash.Digest, now: Time, touch: bool,
                        required: set<string>)
    requires Versioned(t)
    requires Upsert(t, key, stored, hash, now, touch, required).Ok?
    ensures Versioned(Upsert(t, key, stored, hash, now, touch, required).value)
  {
    CurrentIsLast(t, key);
    var r := Upsert(t, key, stored, hash, now, touch, required).value;
    if key in t.chains {
      var vs := t.chains[key];
      var n := |vs|;
      assert Current(t, key) == Some(n - 1);
      if vs[n - 1].hash == hash {
        if touch {
          var ws := vs[n - 1 := vs[n - 1].(updatedAt := Some(now))];
          assert r == t.(chains := t.chains[key := ws]);
          TouchKeepsChain(vs, now);
          ReplaceChainVersioned(t, key, ws);
        } else {
          assert r == t;
        }
      } else {
        var ws := vs[n - 1 := vs[n - 1].(effectiveTo := Some(now), isCurrent := false)]
                  + [Fresh(stored, vs[n - 1].version + 1, hash, now, touch)];
        assert r == t.(chains := t.chains[key := ws]);
        BumpKeepsChain(vs, stored, hash, now, touch);
        ReplaceChainVersioned(t, key, ws);
      }
    } else if Matchable(key) {
      assert ChainOf(t, key) == [] && Current(t, key).None?;
      assert ChainOf(t, key) + [Fresh(stored, 1, hash, now, touch)] == [Fresh(stored, 1, hash, now, touch)];
      assert r == t.(chains := t.chains[key := [Fresh(stored, 1, hash, now, touch)]]);
      ReplaceChainVersioned(t, key, [Fresh(stored, 1, hash, now, touch)]);
    } else {
      assert r == t.(unkeyed := t.unkeyed + [Fresh(stored, 1, hash, now, touch)]);
    }
  }

  /** Putting a chain under a matchable key keeps a table versioned. */
  lemma ReplaceChainVersioned(t: VTable, key: Key, ws: seq<Version>)
    requires Versioned(t) && Matchable(key) && Chain(ws)
    ensures Versioned(t.(chains := t.chains[key := ws]))
  {
  }

  /** An upsert changes no other key's versions, and on a matchable key
      adds no unmatchable row. */
  lemma UpsertFrame(t: VTable, key: Key, stored: Row, hash: RowHash.Digest, now: Time, touch: bool,
                    required: set<string>, k: Key)
    requires Upsert(t, key, stored, hash, now, touch, required).Ok?
    requires k != key
    ensures ChainOf(Upsert(t, key, stored, hash, now, touch, required).value, k) == ChainOf(t, k)
    ensures Matchable(key) ==> Upsert(t, key, stored, hash, now, touch, required).value.unkeyed == t.unkeyed
  {
  }

  /** The first write of a key inserts version 1: current, open-ended,
      effective from now. */
  lemma FirstWriteInsertsVersion1(t: VTable, key: Key, stored: Row, hash: RowHash.Digest, now: Time, touch: bool,
                                  required: set<string>)
    requires Versioned(t) && Matchable(key) && key !in t.chains
    requires required <= stored.Keys
    ensures Upsert(t, key, stored, hash, now, touch, required).Ok?
    ensures var vs := ChainOf(Upsert(t, key, stored, hash, now, touch, required).value, key);
      && |vs| == 1 && vs[0].version == 1 && vs[0].isCurrent && vs[0].effectiveTo.None?
      && vs[0].effectiveFrom == now && vs[0].hash == hash && vs[0].data == stored
  {
    CurrentIsLast(t, key);
  }

  /** Rewriting a key whose current version has the same hash adds no row:
      every version stays as it was, except that the current one's
      `updated_at` becomes now where the table has that column. */
  lemma SameHashAddsNoVersion(t: VTable, key: Key, stored: Row, hash: RowHash.Digest, now: Time, touch: bool,
                              required: set<string>)
    requires Versioned(t) && key in t.chains
    requires t.chains[key][|t.chains[key]| - 1].hash == hash
    ensures Upsert(t, key, stored, hash, now, touch, required).Ok?
    ensures var vs := t.chains[key];
      var ws := ChainOf(Upsert(t, key, stored, hash, now, touch, required).value, key);
      && |ws| == |vs|
      && ws[..|vs| - 1] == vs[..|vs| - 1]
      && ws[|vs| - 1] == vs[|vs| - 1].(updatedAt := if touch then Some(now) else vs[|vs| - 1].updatedAt)
  {
    CurrentIsLast(t, key);
  }

  /** A changed hash expires the current version (not current any more,
      effective to now) and appends the next version number, effective
      from that same now. */
  lemma ChangedHashBumpsVersion(t: VTable, key: Key, stored: Row, hash: RowHash.Digest, now: Time, touch: bool,
                                required: set<string>)
    requires Versioned(t) && key in t.chains
    requires t.chains[key][|t.chains[key]| - 1].hash != hash
    requires required <= stored.Keys
    ensures Upsert(t, key, stored, hash, now, touch, required).Ok?
    ensures var vs := t.chains[key];
      var n := |vs|;
      var ws := ChainOf(Upsert(t, key, stored, hash, now, touch, required).value, key);
      && |ws| == n + 1
      && ws[..n - 1] == vs[..n - 1]
      && ws[n - 1] == vs[n - 1].(effectiveTo := Some(now), isCurrent := false)
      && ws[n].version == n + 1 && ws[n].isCurrent && ws[n].effectiveFrom == now && ws[n].effectiveTo.None?
      && ws[n].hash == hash && ws[n].data == stored
  {
    CurrentIsLast(t, key);
    var vs := t.chains[key];
    var n := |vs|;
    var ws := ChainOf(Upsert(t, key, stored, hash, now, touch, required).value, key);
    assert ws[..n - 1] == vs[..n - 1];
  }

  /** A key with a NULL part is never found again: each write of it appends
      another current version 1, however often it is written. */
  lemma NullKeyNeverVersioned(t: VTable, key: Key, stored: Row, hash: RowHash.Digest, now: Time, touch: bool,
                              required: set<string>)
    requires !Matchable(key) && required <= stored.Keys
    ensures Upsert(t, key, stored, hash, now, touch, required).Ok?
    ensures var r := Upsert(t, key, stored, hash, now, touch, required).value;
      r.chains == t.chains && r.unkeyed == t.unkeyed + [Fresh(stored, 1, hash, now, touch)]
  {
  }

  // ---------------------------------------------------------------------
  // The five upserts
  // ---------------------------------------------------------------------

  /** `_upsert_property(data)`: a version of the uuid already effective from
      this very instant makes it a no-op; otherwise the shared upsert keyed
      by uuid, over the legacy row hash of the whole dict. */
  function UpsertProperty(t: VTable, data: Row, cols: set<string>, now: Time, md5: Md5): Result<VTable, string>
  {
    if "uuid" !in data then Err("KeyError: 'uuid'")
    else
      var key := [data["uuid"]];
      var vs := ChainOf(t, key);
      if Matchable(key) && exists j :: 0 <= j < |vs| && vs[j].effectiveFrom == now then Ok(t)
      else Upsert(t, key, Project(data, cols), RowHash.LegacyRowHash(data, {}, md5), now, true,
                  PropertyRequired)
  }

  /** `_upsert_sub_area(data, now)` after the parent building's tags. */
  function UpsertSubArea(t: VTable, sa: Row, cols: set<string>, pu: Value, pid: Value, bid: Value, now: Time, md5: Md5): Result<VTable, string>
  {
    var data := sa["property_uuid" := pu]["pid" := pid]["bid" := bid];
    Upsert(t, [pu, bid, Get(data, "code")], Project(data, cols), RowHash.LegacyRowHash(data, {}, md5),
           now, false, ChildRequired)
  }

  /** `_upsert_extra_feature` and `_upsert_outbuilding`: keyed by
      `(property_uuid, code)`, with the table's own columns. */
  function UpsertCoded(t: VTable, data: Row, cols: set<string>, now: Time, md5: Md5): Result<VTable, string>
  {
    if "property_uuid" !in data then Err("KeyError: 'property_uuid'")
    else Upsert(t, [data["property_uuid"], Get(data, "code")], Project(data, cols),
                RowHash.LegacyRowHash(data, {}, md5), now, false, ChildRequired)
  }

  /** `_insert_row(table, data, columns)`: nothing when no listed column has
      a value. */
  function InsertRow(rows: seq<Row>, data: Row, cols: set<string>): Result<seq<Row>, string>
  {
    var stored := Project(data, cols);
    if stored == map[] then Ok(rows)
    else if !(ChildRequired <= stored.Keys) then Err(NotNullViolation)
    else Ok(rows + [stored])
  }

  /** Statements applied one after the other; the first failure ends them. */
  function Fold<S, X>(s: S, xs: seq<X>, step: (S, X) -> Result<S, string>): Result<S, string>
  {
    if xs == [] then Ok(s)
    else match Fold(s, xs[..|xs| - 1], step)
      case Err(e) => Err(e)
      case Ok(s1) => step(s1, xs[|xs| - 1])
  }

  lemma {:induction false} FoldPreserves<S, X>(s: S, xs: seq<X>, step: (S, X) -> Result<S, string>, inv: S -> bool)
    requires inv(s)
    requires forall s1, x :: inv(s1) && step(s1, x).Ok? ==> inv(step(s1, x).value)
    ensures Fold(s, xs, step).Ok? ==> inv(Fold(s, xs, step).value)
  {
    if xs != [] {
      FoldPreserves(s, xs[..|xs| - 1], step, inv);
      match Fold(s, xs[..|xs| - 1], step)
      case Err(_) =>
      case Ok(s1) =>
        assert inv(s1);
    }
  }

  lemma FoldSnoc<S, X>(s: S, xs: seq<X>, x: X, step: (S, X) -> Result<S, string>)
    ensures Fold(s, xs + [x], step) == match Fold(s, xs, step)
      case Err(e) => Err(e)
      case Ok(s1) => step(s1, x)
  {
    assert (xs + [x])[..|xs|] == xs;
  }

  /** The sub-area upsert as one step of a loop. */
  function SubAreaStep(cols: set<string>, pu: Value, pid: Value, bid: Value, now: Time, md5: Md5): (VTable, Row) -> Result<VTable, string>
  {
    (t: VTable, sa: Row) => UpsertSubArea(t, sa, cols, pu, pid, bid, now, md5)
  }

  /** `_insert_building(data)`: the construction details are copied into
      their columns, the building is upserted by `(property_uuid, bid)`,
      and then, whether or not it changed, its sub-areas are upserted with
      the building's uuid, pid and bid. */
  function InsertBuilding(bt: VTable, st: VTable, b: VgsiSource.Building, cs: Columns, now: Time, md5: Md5)
    : Result<(VTable, VTable), string>
  {
    var data := VgsiSource.ApplyCns(b.fields["updated_at" := Int(now)], b.construction, VgsiSource.CnsMapping);
    if "property_uuid" !in data then Err("KeyError: 'property_uuid'")
    else
      var pu := data["property_uuid"];
      var bid := Get(data, "bid");
      match Upsert(bt, [pu, bid], Project(data, cs.building), RowHash.LegacyRowHash(data, {}, md5), now, true,
                   ChildRequired)
        case Err(e) => Err(e)
        case Ok(bt1) =>
          if b.subAreas == [] then Ok((bt1, st))
          else if "pid" !in data then Err("KeyError: 'pid'")
          else match Fold(st, b.subAreas, SubAreaStep(cs.subArea, pu, data["pid"], bid, now, md5))
            case Err(e) => Err(e)
            case Ok(st1) => Ok((bt1, st1))
  }

  lemma SubAreaVersioned(t: VTable, sa: Row, cols: set<string>, pu: Value, pid: Value, bid: Value, now: Time, md5: Md5)
    requires Versioned(t)
    requires UpsertSubArea(t, sa, cols, pu, pid, bid, now, md5).Ok?
    ensures Versioned(UpsertSubArea(t, sa, cols, pu, pid, bid, now, md5).value)
  {
    var d := sa["property_uuid" := pu]["pid" := pid]["bid" := bid];
    UpsertVersioned(t, [pu, bid, Get(d, "code")], Project(d, cols), RowHash.LegacyRowHash(d, {}, md5),
                    now, false, ChildRequired);
  }

  lemma SubAreasVersioned(st: VTable, sas: seq<Row>, cols: set<string>, pu: Value, pid: Value, bid: Value, now: Time, md5: Md5)
    requires Versioned(st)
    ensures Fold(st, sas, SubAreaStep(cols, pu, pid, bid, now, md5)).Ok? ==>
      Versioned(Fold(st, sas, SubAreaStep(cols, pu, pid, bid, now, md5)).value)
  {
    var step := SubAreaStep(cols, pu, pid, bid, now, md5);
    forall t: VTable, sa: Row | Versioned(t) && step(t, sa).Ok?
      ensures Versioned(step(t, sa).value)
    {
      SubAreaVersioned(t, sa, cols, pu, pid, bid, now, md5);
    }
    FoldPreserves(st, sas, step, (t: VTable) => Versioned(t));
  }

  /** Writing a building keeps both the buildings and the sub-areas table
      versioned. */
  lemma InsertBuildingVersioned(bt: VTable, st: VTable, b: VgsiSource.Building, cs: Columns, now: Time, md5: Md5)
    requires Versioned(bt) && Versioned(st)
    requires InsertBuilding(bt, st, b, cs, now, md5).Ok?
    ensures Versioned(InsertBuilding(bt, st, b, cs, now, md5).value.0)
    ensures Versioned(InsertBuilding(bt, st, b, cs, now, md5).value.1)
  {
    var data := VgsiSource.ApplyCns(b.fields["updated_at" := Int(now)], b.construction, VgsiSource.CnsMapping);
    var pu := data["property_uuid"];
    var bid := Get(data, "bid");
    UpsertVersioned(bt, [pu, bid], Project(data, cs.building), RowHash.LegacyRowHash(data, {}, md5), now, true,
                    ChildRequired);
    if b.subAreas != [] {
      SubAreasVersioned(st, b.subAreas, cs.subArea, pu, data["pid"], bid, now, md5);
    }
  }

  lemma PropertyVersioned(t: VTable, data: Row, cols: set<string>, now: Time, md5: Md5)
    requires Versioned(t)
    requires UpsertProperty(t, data, cols, now, md5).Ok?
    ensures Versioned(UpsertProperty(t, data, cols, now, md5).value)
  {
    var key := [data["uuid"]];
    var vs := ChainOf(t, key);
    if !(Matchable(key) && exists j :: 0 <= j < |vs| && vs[j].effectiveFrom == now) {
      UpsertVersioned(t, key, Project(data, cols), RowHash.LegacyRowHash(data, {}, md5), now, true,
                      PropertyRequired);
    }
  }

  lemma CodedVersioned(t: VTable, data: Row, cols: set<string>, now: Time, md5: Md5)
    requires Versioned(t)
    requires UpsertCoded(t, data, cols, now, md5).Ok?
    ensures Versioned(UpsertCoded(t, data, cols, now, md5).value)
  {
    UpsertVersioned(t, [data["property_uuid"], Get(data, "code")], Project(data, cols),
                    RowHash.LegacyRowHash(data, {}, md5), now, false, ChildRequired);
  }

  // ---------------------------------------------------------------------
  // Idempotence of a property write
  // ---------------------------------------------------------------------

  function Last(vs: seq<Version>): Version
    requires vs != []
  {
    vs[|vs| - 1]
  }

  /** Every version of `key` began before `now`. */
  predicate Before(t: VTable, key: Key, now: Time)
  {
    forall j :: 0 <= j < |ChainOf(t, key)| ==> ChainOf(t, key)[j].effectiveFrom < now
  }

  /** After a successful upsert of a matchable key, its last version carries
      the written hash, and no version begins after `now` if none did. */
  lemma UpsertLastHash(t: VTable, key: Key, stored: Row, hash: RowHash.Digest, now: Time, touch: bool,
                       required: set<string>, r: VTable)
    requires Versioned(t) && Matchable(key) && Before(t, key, now)
    requires Upsert(t, key, stored, hash, now, touch, required) == Ok(r)
    ensures ChainOf(r, key) != [] && Last(ChainOf(r, key)).hash == hash
    ensures forall j :: 0 <= j < |ChainOf(r, key)| ==> ChainOf(r, key)[j].effectiveFrom <= now
  {
    CurrentIsLast(t, key);
    if key !in t.chains {
      FirstWriteInsertsVersion1(t, key, stored, hash, now, touch, required);
    } else if Last(t.chains[key]).hash == hash {
      SameHashLastHash(t, key, stored, hash, now, touch, required, r);
    } else {
      ChangedHashLastHash(t, key, stored, hash, now, touch, required, r);
    }
  }

  lemma SameHashLastHash(t: VTable, key: Key, stored: Row, hash: RowHash.Digest, now: Time, touch: bool,
                         required: set<string>, r: VTable)
    requires Versioned(t) && key in t.chains && Before(t, key, now)
    requires Last(t.chains[key]).hash == hash
    requires Upsert(t, key, stored, hash, now, touch, required) == Ok(r)
    ensures ChainOf(r, key) != [] && Last(ChainOf(r, key)).hash == hash
    ensures forall j :: 0 <= j < |ChainOf(r, key)| ==> ChainOf(r, key)[j].effectiveFrom <= now
  {
    SameHashAddsNoVersion(t, key, stored, hash, now, touch, required);
    var vs := t.chains[key];
    var ws := ChainOf(r, key);
    assert forall j :: 0 <= j < |vs| - 1 ==> ws[j] == ws[..|vs| - 1][j] == vs[..|vs| - 1][j];
  }

  lemma ChangedHashLastHash(t: VTable, key: Key, stored: Row, hash: RowHash.Digest, now: Time, touch: bool,
                            required: set<string>, r: VTable)
    requires Versioned(t) && key in t.chains && Before(t, key, now)
    requires Last(t.chains[key]).hash != hash
    requires Upsert(t, key, stored, hash, now, touch, required) == Ok(r)
    ensures ChainOf(r, key) != [] && Last(ChainOf(r, key)).hash == hash
    ensures forall j :: 0 <= j < |ChainOf(r, key)| ==> ChainOf(r, key)[j].effectiveFrom <= now
  {
    CurrentIsLast(t, key);
    ChangedHashBumpsVersion(t, key, stored, hash, now, touch, required);
    var vs := t.chains[key];
    var ws := ChainOf(r, key);
    assert forall j :: 0 <= j < |vs| - 1 ==> ws[j] == ws[..|vs| - 1][j] == vs[..|vs| - 1][j];
  }

  /** Two dicts that differ at most in `updated_at` hash alike. */
  lemma HashIgnoresUpdatedAt(d1: Row, d2: Row, md5: Md5)
    requires d1 - {"updated_at"} == d2 - {"updated_at"}
    ensures RowHash.LegacyRowHash(d1, {}, md5) == RowHash.LegacyRowHash(d2, {}, md5)
  {
    RowHash.LegacyExcludedKeyIgnored(d1, "updated_at", Null, {}, md5);
    RowHash.LegacyExcludedKeyIgnored(d2, "updated_at", Null, {}, md5);
  }

  /** The last version after a property write carries the hash of the
      written dict, and no version of the uuid begins after the write. */
  lemma PropertyWriteHash(t: VTable, data: Row, cols: set<string>, now: Time, md5: Md5, r: VTable)
    requires Versioned(t) && "uuid" in data && data["uuid"] != Null
    requires Before(t, [data["uuid"]], now)
    requires UpsertProperty(t, data, cols, now, md5) == Ok(r)
    ensures ChainOf(r, [data["uuid"]]) != []
    ensures Last(ChainOf(r, [data["uuid"]])).hash == RowHash.LegacyRowHash(data, {}, md5)
    ensures forall j :: 0 <= j < |ChainOf(r, [data["uuid"]])| ==> ChainOf(r, [data["uuid"]])[j].effectiveFrom <= now
  {
    var key := [data["uuid"]];
    var stored := Project(data, cols);
    var h := RowHash.LegacyRowHash(data, {}, md5);
    assert Upsert(t, key, stored, h, now, true, PropertyRequired) == Ok(r);
    UpsertLastHash(t, key, stored, h, now, true, PropertyRequired, r);
  }

  /** Writing a property whose current version already has its hash adds
      no version. */
  lemma UnchangedPropertyAddsNoVersion(t: VTable, data: Row, cols: set<string>, now: Time, md5: Md5)
    requires Versioned(t) && "uuid" in data && [data["uuid"]] in t.chains
    requires Before(t, [data["uuid"]], now)
    requires Last(t.chains[[data["uuid"]]]).hash == RowHash.LegacyRowHash(data, {}, md5)
    ensures UpsertProperty(t, data, cols, now, md5).Ok?
    ensures |ChainOf(UpsertProperty(t, data, cols, now, md5).value, [data["uuid"]])| == |ChainOf(t, [data["uuid"]])|
  {
    var key := [data["uuid"]];
    var stored := Project(data, cols);
    var h := RowHash.LegacyRowHash(data, {}, md5);
    assert UpsertProperty(t, data, cols, now, md5) == Upsert(t, key, stored, h, now, true, PropertyRequired);
    SameHashAddsNoVersion(t, key, stored, h, now, true, PropertyRequired);
  }

  /** Scraping a property again later and finding nothing changed but
      `updated_at` adds no version: the second write leaves as many
      versions of the uuid as the first. */
  lemma RewriteAddsNoVersion(t: VTable, data: Row, cols: set<string>, now1: Time, now2: Time, md5: Md5, t1: VTable)
    requires Versioned(t) && "uuid" in data && data["uuid"] != Null
    requires Before(t, [data["uuid"]], now1) && now1 < now2
    requires UpsertProperty(t, data["updated_at" := Int(now1)], cols, now1, md5) == Ok(t1)
    ensures UpsertProperty(t1, data["updated_at" := Int(now2)], cols, now2, md5).Ok?
    ensures |ChainOf(UpsertProperty(t1, data["updated_at" := Int(now2)], cols, now2, md5).value, [data["uuid"]])|
            == |ChainOf(t1, [data["uuid"]])|
  {
    var d1 := data["updated_at" := Int(now1)];
    var d2 := data["updated_at" := Int(now2)];
    var key := [data["uuid"]];
    assert d1["uuid"] == data["uuid"] && d2["uuid"] == data["uuid"];
    assert d1 - {"updated_at"} == d2 - {"updated_at"};
    PropertyWriteHash(t, d1, cols, now1, md5, t1);
    PropertyVersioned(t, d1, cols, now1, md5);
    assert Versioned(t1) && key in t1.chains;
    assert Before(t1, key, now2);
    HashIgnoresUpdatedAt(d1, d2, md5);
    assert Last(t1.chains[key]).hash == RowHash.LegacyRowHash(d2, {}, md5);
    UnchangedPropertyAddsNoVersion(t1, d2, cols, now2, md5);
  }

  // ---------------------------------------------------------------------
  // write_batch
  // ---------------------------------------------------------------------

  datatype Checkpoint = Checkpoint(city: string, lastPid: int, totalScraped: int, time: Time)

  datatype Db = Db(
    properties: VTable,
    buildings: VTable,
    subAreas: VTable,
    ownership: seq<Row>,
    appraisals: seq<Row>,
    assessments: seq<Row>,
    extraFeatures: VTable,
    outbuildings: VTable,
    checkpoints: seq<Checkpoint>)

  const EmptyDb := Db(EmptyTable, EmptyTable, EmptyTable, [], [], [], EmptyTable, EmptyTable, [])

  /** Every versioned table of the database is versioned. */
  predicate Consistent(db: Db)
  {
    && Versioned(db.properties) && Versioned(db.buildings) && Versioned(db.subAreas)
    && Versioned(db.extraFeatures) && Versioned(db.outbuildings)
  }

  function BuildingStep(cs: Columns, now: Time, md5: Md5): ((VTable, VTable), VgsiSource.Building) -> Result<(VTable, VTable), string>
  {
    (p: (VTable, VTable), b: VgsiSource.Building) => InsertBuilding(p.0, p.1, b, cs, now, md5)
  }

  function Buildings(db: Db, bs: seq<VgsiSource.Building>, cs: Columns, now: Time, md5: Md5): Result<Db, string>
  {
    match Fold((db.buildings, db.subAreas), bs, BuildingStep(cs, now, md5))
      case Err(e) => Err(e)
      case Ok(p) => Ok(db.(buildings := p.0, subAreas := p.1))
  }

  lemma BuildingsConsistent(db: Db, bs: seq<VgsiSource.Building>, cs: Columns, now: Time, md5: Md5)
    requires Consistent(db)
    requires Buildings(db, bs, cs, now, md5).Ok?
    ensures Consistent(Buildings(db, bs, cs, now, md5).value)
  {
    var step := BuildingStep(cs, now, md5);
    forall p: (VTable, VTable), b: VgsiSource.Building | Versioned(p.0) && Versioned(p.1) && step(p, b).Ok?
      ensures Versioned(step(p, b).value.0) && Versioned(step(p, b).value.1)
    {
      InsertBuildingVersioned(p.0, p.1, b, cs, now, md5);
    }
    FoldPreserves((db.buildings, db.subAreas), bs, step, (p: (VTable, VTable)) => Versioned(p.0) && Versioned(p.1));
  }

  function RowStep(cols: set<string>): (seq<Row>, Row) -> Result<seq<Row>, string>
  {
    (rows: seq<Row>, data: Row) => InsertRow(rows, data, cols)
  }

  /** The history tables only grow: a run of inserts keeps every earlier
      row, in place. */
  lemma RowsAppendOnly(rows: seq<Row>, xs: seq<Row>, cols: set<string>)
    ensures Fold(rows, xs, RowStep(cols)).Ok? ==> rows <= Fold(rows, xs, RowStep(cols)).value
  {
    var step := RowStep(cols);
    forall r: seq<Row>, x: Row | rows <= r && step(r, x).Ok?
      ensures rows <= step(r, x).value
    {
    }
    FoldPreserves(rows, xs, step, (r: seq<Row>) => rows <= r);
  }

  function Stamped(rows: seq<Row>, now: Time): seq<Row>
  {
    MapSeq(rows, (r: Row) => r["updated_at" := Int(now)])
  }

  /** The appends to the three history tables, each row stamped with
      `updated_at`; the versioned tables are left as they were. */
  function Histories(db: Db, res: LegacyScraper.LegacyResult, cs: Columns, now: Time): (r: Result<Db, string>)
    ensures r.Ok? ==> r.value.(ownership := db.ownership, appraisals := db.appraisals, assessments := db.assessments) == db
  {
    match Fold(db.ownership, Stamped(res.ownership, now), RowStep(cs.ownership))
      case Err(e) => Err(e)
      case Ok(own) =>
        match Fold(db.appraisals, Stamped(res.appraisals, now), RowStep(cs.valuation))
          case Err(e) => Err(e)
          case Ok(appr) =>
            match Fold(db.assessments, Stamped(res.assessments, now), RowStep(cs.valuation))
              case Err(e) => Err(e)
              case Ok(asmt) => Ok(db.(ownership := own, appraisals := appr, assessments := asmt))
  }

  /** Writing a result's histories keeps every row already in the three
      history tables. */
  lemma HistoriesAppendOnly(db: Db, res: LegacyScraper.LegacyResult, cs: Columns, now: Time)
    requires Histories(db, res, cs, now).Ok?
    ensures db.ownership <= Histories(db, res, cs, now).value.ownership
    ensures db.appraisals <= Histories(db, res, cs, now).value.appraisals
    ensures db.assessments <= Histories(db, res, cs, now).value.assessments
  {
    RowsAppendOnly(db.ownership, Stamped(res.ownership, now), cs.ownership);
    RowsAppendOnly(db.appraisals, Stamped(res.appraisals, now), cs.valuation);
    RowsAppendOnly(db.assessments, Stamped(res.assessments, now), cs.valuation);
  }

  function CodedStep(cols: set<string>, now: Time, md5: Md5): (VTable, Row) -> Result<VTable, string>
  {
    (t: VTable, data: Row) => UpsertCoded(t, data, cols, now, md5)
  }

  lemma CodedAllVersioned(t: VTable, xs: seq<Row>, cols: set<string>, now: Time, md5: Md5)
    requires Versioned(t)
    ensures Fold(t, xs, CodedStep(cols, now, md5)).Ok? ==> Versioned(Fold(t, xs, CodedStep(cols, now, md5)).value)
  {
    var step := CodedStep(cols, now, md5);
    forall u: VTable, x: Row | Versioned(u) && step(u, x).Ok?
      ensures Versioned(step(u, x).value)
    {
      CodedVersioned(u, x, cols, now, md5);
    }
    FoldPreserves(t, xs, step, (u: VTable) => Versioned(u));
  }

  function Features(db: Db, res: LegacyScraper.LegacyResult, cs: Columns, now: Time, md5: Md5): Result<Db, string>
  {
    match Fold(db.extraFeatures, res.extraFeatures, CodedStep(cs.extraFeature, now, md5))
      case Err(e) => Err(e)
      case Ok(xt) =>
        match Fold(db.outbuildings, res.outbuildings, CodedStep(cs.outbuilding, now, md5))
          case Err(e) => Err(e)
          case Ok(ot) => Ok(db.(extraFeatures := xt, outbuildings := ot))
  }

  /** The body of the loop for one result whose property is written:
      property, buildings with their sub-areas, the three histories, extra
      features, outbuildings. */
  function WriteResult(db: Db, prop: Row, res: LegacyScraper.LegacyResult, cs: Columns, now: Time, md5: Md5): Result<Db, string>
  {
    match UpsertProperty(db.properties, prop["updated_at" := Int(now)], cs.property, now, md5)
      case Err(e) => Err(e)
      case Ok(pt) =>
        match Buildings(db.(properties := pt), res.buildings, cs, now, md5)
          case Err(e) => Err(e)
          case Ok(db1) =>
            match Histories(db1, res, cs, now)
              case Err(e) => Err(e)
              case Ok(db2) => Features(db2, res, cs, now, md5)
  }

  lemma WriteResultConsistent(db: Db, prop: Row, res: LegacyScraper.LegacyResult, cs: Columns, now: Time, md5: Md5)
    requires Consistent(db)
    requires WriteResult(db, prop, res, cs, now, md5).Ok?
    ensures Consistent(WriteResult(db, prop, res, cs, now, md5).value)
  {
    var d := prop["updated_at" := Int(now)];
    PropertyVersioned(db.properties, d, cs.property, now, md5);
    var db0 := db.(properties := UpsertProperty(db.properties, d, cs.property, now, md5).value);
    BuildingsConsistent(db0, res.buildings, cs, now, md5);
    var db2 := Histories(Buildings(db0, res.buildings, cs, now, md5).value, res, cs, now).value;
    CodedAllVersioned(db2.extraFeatures, res.extraFeatures, cs.extraFeature, now, md5);
    CodedAllVersioned(db2.outbuildings, res.outbuildings, cs.outbuilding, now, md5);
  }

  /** The database and `seen_uuids` during the loop of `write_batch`. */
  datatype Pass = Pass(db: Db, seen: set<Value>)

  /** A property is truthy when it is not an empty dict. */
  predicate Truthy(p: Row)
  {
    p != map[]
  }

  /** One iteration of `for result in results`: a missing property is
      skipped, a repeated uuid is skipped, and any other property (even an
      empty one) is written. */
  function BatchStep(st: Pass, res: LegacyScraper.LegacyResult, cs: Columns, now: Time, md5: Md5): Result<Pass, string>
  {
    match res.property
      case None => Ok(st)
      case Some(p) =>
        if Truthy(p) && "uuid" !in p then Err("KeyError: 'uuid'")
        else if Truthy(p) && p["uuid"] in st.seen then Ok(st)
        else
          var seen := if Truthy(p) then st.seen + {p["uuid"]} else st.seen;
          match WriteResult(st.db, p, res, cs, now, md5)
            case Err(e) => Err(e)
            case Ok(db) => Ok(Pass(db, seen))
  }

  function BatchStepAt(cs: Columns, now: Time, md5: Md5): (Pass, LegacyScraper.LegacyResult) -> Result<Pass, string>
  {
    (st: Pass, r: LegacyScraper.LegacyResult) => BatchStep(st, r, cs, now, md5)
  }

  function BatchFold(db: Db, results: seq<LegacyScraper.LegacyResult>, cs: Columns, now: Time, md5: Md5): Result<Pass, string>
  {
    Fold(Pass(db, {}), results, BatchStepAt(cs, now, md5))
  }

  /** `write_batch(results)`: all results in one transaction; on any error
      the transaction is rolled back (the caller keeps `db`) and the error
      raised. */
  function WriteBatch(db: Db, results: seq<LegacyScraper.LegacyResult>, cs: Columns, now: Time, md5: Md5): Result<Db, string>
  {
    if results == [] then Ok(db)
    else match BatchFold(db, results, cs, now, md5)
      case Err(e) => Err(e)
      case Ok(st) => Ok(st.db)
  }

  /** A committed batch leaves every versioned table versioned. */
  lemma WriteBatchConsistent(db: Db, results: seq<LegacyScraper.LegacyResult>, cs: Columns, now: Time, md5: Md5)
    requires Consistent(db)
    requires WriteBatch(db, results, cs, now, md5).Ok?
    ensures Consistent(WriteBatch(db, results, cs, now, md5).value)
  {
    var step := BatchStepAt(cs, now, md5);
    forall st: Pass, r: LegacyScraper.LegacyResult | Consistent(st.db) && step(st, r).Ok?
      ensures Consistent(step(st, r).value.db)
    {
      if r.property.Some? && step(st, r).value != st {
        WriteResultConsistent(st.db, r.property.value, r, cs, now, md5);
      }
    }
    FoldPreserves(Pass(db, {}), results, step, (st: Pass) => Consistent(st.db));
  }

  /** A batch writes no checkpoint. */
  lemma WriteResultKeepsCheckpoints(db: Db, prop: Row, res: LegacyScraper.LegacyResult, cs: Columns, now: Time,
                                    md5: Md5)
    requires WriteResult(db, prop, res, cs, now, md5).Ok?
    ensures WriteResult(db, prop, res, cs, now, md5).value.checkpoints == db.checkpoints
  {
  }

  lemma WriteBatchKeepsCheckpoints(db: Db, results: seq<LegacyScraper.LegacyResult>, cs: Columns, now: Time, md5: Md5)
    requires WriteBatch(db, results, cs, now, md5).Ok?
    ensures WriteBatch(db, results, cs, now, md5).value.checkpoints == db.checkpoints
  {
    var step := BatchStepAt(cs, now, md5);
    forall st: Pass, r: LegacyScraper.LegacyResult | st.db.checkpoints == db.checkpoints && step(st, r).Ok?
      ensures step(st, r).value.db.checkpoints == db.checkpoints
    {
      if r.property.Some? && step(st, r).value != st {
        WriteResultKeepsCheckpoints(st.db, r.property.value, r, cs, now, md5);
      }
    }
    FoldPreserves(Pass(db, {}), results, step, (st: Pass) => st.db.checkpoints == db.checkpoints);
  }

  /** Once a statement fails, the rest of the run fails too. */
  lemma {:induction false} FoldErrSticks<S, X>(s: S, xs: seq<X>, ys: seq<X>, step: (S, X) -> Result<S, string>)
    requires Fold(s, xs, step).Err?
    ensures Fold(s, xs + ys, step).Err?
  {
    if ys == [] {
      assert xs + ys == xs;
    } else {
      var init := ys[..|ys| - 1];
      FoldErrSticks(s, xs, init, step);
      assert (xs + ys)[..|xs + ys| - 1] == xs + init;
    }
  }

  /** A batch that fails fails again when more results are appended to it:
      nothing in `write_batch` depends on the results after the failing one. */
  lemma FailedBatchStaysFailed(db: Db, results: seq<LegacyScraper.LegacyResult>, more: seq<LegacyScraper.LegacyResult>,
                               cs: Columns, now: Time, md5: Md5)
    requires WriteBatch(db, results, cs, now, md5).Err?
    ensures WriteBatch(db, results + more, cs, now, md5).Err?
  {
    FoldErrSticks(Pass(db, {}), results, more, BatchStepAt(cs, now, md5));
  }

  // ---------------------------------------------------------------------
  // The uuid dedup of write_batch
  // ---------------------------------------------------------------------

  /** The uuid a result adds to `seen_uuids`, if any. */
  function UuidOf(res: LegacyScraper.LegacyResult): Option<Value>
  {
    match res.property
      case Some(p) => if Truthy(p) && "uuid" in p then Some(p["uuid"]) else None
      case None => None
  }

  ghost function SeenUuids(rs: seq<LegacyScraper.LegacyResult>): set<Value>
  {
    if rs == [] then {}
    else SeenUuids(rs[..|rs| - 1]) + Added(rs[|rs| - 1])
  }

  /** The uuids one result adds to `seen_uuids`. */
  function Added(res: LegacyScraper.LegacyResult): set<Value>
  {
    match UuidOf(res)
      case Some(u) => {u}
      case None => {}
  }

  /** One iteration adds exactly the result's uuid, if it has one. */
  lemma BatchStepSeen(st: Pass, res: LegacyScraper.LegacyResult, cs: Columns, now: Time, md5: Md5)
    requires BatchStep(st, res, cs, now, md5).Ok?
    ensures BatchStep(st, res, cs, now, md5).value.seen == st.seen + Added(res)
  {
  }

  lemma {:induction false} SeenUuidsIff(rs: seq<LegacyScraper.LegacyResult>, u: Value)
    ensures u in SeenUuids(rs) <==> exists i :: 0 <= i < |rs| && UuidOf(rs[i]) == Some(u)
  {
    if rs != [] {
      var init := rs[..|rs| - 1];
      SeenUuidsIff(init, u);
      if exists i :: 0 <= i < |init| && UuidOf(init[i]) == Some(u) {
        var i :| 0 <= i < |init| && UuidOf(init[i]) == Some(u);
        assert UuidOf(rs[i]) == Some(u);
      }
      if exists i :: 0 <= i < |rs| && UuidOf(rs[i]) == Some(u) {
        var i :| 0 <= i < |rs| && UuidOf(rs[i]) == Some(u);
        if i < |init| {
          assert UuidOf(init[i]) == Some(u);
        }
      }
    }
  }

  /** While the batch runs, `seen_uuids` holds the uuid of every truthy
      property met so far. */
  lemma {:induction false} BatchSeen(db: Db, rs: seq<LegacyScraper.LegacyResult>, cs: Columns, now: Time, md5: Md5)
    ensures BatchFold(db, rs, cs, now, md5).Ok? ==> BatchFold(db, rs, cs, now, md5).value.seen == SeenUuids(rs)
  {
    if rs != [] {
      var init := rs[..|rs| - 1];
      BatchSeen(db, init, cs, now, md5);
      FoldSnoc(Pass(db, {}), init, rs[|rs| - 1], BatchStepAt(cs, now, md5));
      assert init + [rs[|rs| - 1]] == rs;
      if BatchFold(db, rs, cs, now, md5).Ok? {
        BatchStepSeen(BatchFold(db, init, cs, now, md5).value, rs[|rs| - 1], cs, now, md5);
      }
    }
  }

  /** A result whose property uuid already appeared earlier in the batch is
      skipped entirely: its buildings and histories are not written either. */
  lemma DuplicateSkipped(db: Db, rs: seq<LegacyScraper.LegacyResult>, r: LegacyScraper.LegacyResult,
                         i: nat, cs: Columns, now: Time, md5: Md5)
    requires BatchFold(db, rs, cs, now, md5).Ok?
    requires i < |rs| && UuidOf(r).Some? && UuidOf(rs[i]) == UuidOf(r)
    ensures WriteBatch(db, rs + [r], cs, now, md5) == WriteBatch(db, rs, cs, now, md5)
  {
    BatchSeen(db, rs, cs, now, md5);
    SeenUuidsIff(rs, UuidOf(r).value);
    FoldSnoc(Pass(db, {}), rs, r, BatchStepAt(cs, now, md5));
  }

  /** A result without a property is skipped. */
  lemma MissingPropertySkipped(db: Db, rs: seq<LegacyScraper.LegacyResult>, r: LegacyScraper.LegacyResult,
                               cs: Columns, now: Time, md5: Md5)
    requires r.property.None?
    ensures WriteBatch(db, rs + [r], cs, now, md5) == WriteBatch(db, rs, cs, now, md5)
  {
    FoldSnoc(Pass(db, {}), rs, r, BatchStepAt(cs, now, md5));
  }

  /** An empty property dict slips past the dedup (it is falsy) and is
      written, which fails on its missing uuid and aborts the batch. */
  lemma EmptyPropertyAbortsBatch(db: Db, rs: seq<LegacyScraper.LegacyResult>, r: LegacyScraper.LegacyResult,
                                 cs: Columns, now: Time, md5: Md5)
    requires r.property == Some(map[])
    ensures WriteBatch(db, rs + [r], cs, now, md5).Err?
  {
    FoldSnoc(Pass(db, {}), rs, r, BatchStepAt(cs, now, md5));
  }

  // ---------------------------------------------------------------------
  // Checkpoints
  // ---------------------------------------------------------------------

  /** `save_checkpoint(city, last_pid, total_scraped)`: a new row, stamped
      with the current time. */
  function SaveCheckpoint(db: Db, city: string, lastPid: int, total: int, now: Time): Db
  {
    db.(checkpoints := db.checkpoints + [Checkpoint(city, lastPid, total, now)])
  }

  /** The newest checkpoint of `city`. SQL leaves rows with equal times in
      no particular order; the model takes the later row. */
  function Latest(cps: seq<Checkpoint>, city: string): (r: Option<nat>)
    ensures r.Some? ==> r.value < |cps| && cps[r.value].city == city
    ensures r.Some? ==> forall j :: 0 <= j < |cps| && cps[j].city == city ==> cps[j].time <= cps[r.value].time
    ensures r.None? <==> forall j :: 0 <= j < |cps| ==> cps[j].city != city
  {
    if cps == [] then None
    else
      var prev := Latest(cps[..|cps| - 1], city);
      var last := cps[|cps| - 1];
      if last.city != city then prev
      else match prev
        case None => Some(|cps| - 1)
        case Some(i) => if last.time >= cps[i].time then Some(|cps| - 1) else prev
  }

  /** `get_last_checkpoint(city)`: `(last_pid, total_scraped)` of the newest
      checkpoint of the city, `(0, 0)` when it has none. */
  function GetLastCheckpoint(db: Db, city: string): (r: (int, int))
    ensures (forall j :: 0 <= j < |db.checkpoints| ==> db.checkpoints[j].city != city) ==> r == (0, 0)
    ensures (exists j :: 0 <= j < |db.checkpoints| && db.checkpoints[j].city == city) ==>
      exists j :: 0 <= j < |db.checkpoints| && db.checkpoints[j].city == city
        && r == (db.checkpoints[j].lastPid, db.checkpoints[j].totalScraped)
        && forall k :: 0 <= k < |db.checkpoints| && db.checkpoints[k].city == city ==>
             db.checkpoints[k].time <= db.checkpoints[j].time
  {
    match Latest(db.checkpoints, city)
      case None => (0, 0)
      case Some(i) => (db.checkpoints[i].lastPid, db.checkpoints[i].totalScraped)
  }

  /** A checkpoint saved no earlier than the city's others is the one read
      back. */
  lemma CheckpointRoundTrip(db: Db, city: string, lastPid: int, total: int, now: Time)
    requires forall j :: 0 <= j < |db.checkpoints| && db.checkpoints[j].city == city ==> db.checkpoints[j].time <= now
    ensures GetLastCheckpoint(SaveCheckpoint(db, city, lastPid, total, now), city) == (lastPid, total)
  {
    var cps := SaveCheckpoint(db, city, lastPid, total, now).checkpoints;
    assert cps[..|cps| - 1] == db.checkpoints;
  }

  /** Saving a checkpoint for one city does not change another city's. */
  lemma CheckpointOtherCity(db: Db, other: string, city: string, lastPid: int, total: int, now: Time)
    requires other != city
    ensures GetLastCheckpoint(SaveCheckpoint(db, other, lastPid, total, now), city) == GetLastCheckpoint(db, city)
  {
    var cps := SaveCheckpoint(db, other, lastPid, total, now).checkpoints;
    assert cps[..|cps| - 1] == db.checkpoints;
  }

  /** The writer's other tables are untouched by a checkpoint. */
  lemma CheckpointKeepsData(db: Db, city: string, lastPid: int, total: int, now: Time)
    ensures SaveCheckpoint(db, city, lastPid, total, now).(checkpoints := db.checkpoints) == db
    ensures db.checkpoints <= SaveCheckpoint(db, city, lastPid, total, now).checkpoints
  {
  }
}

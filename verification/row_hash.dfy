/** Row fingerprints for change detection (src/engine/hash.py, and the
    legacy `_compute_row_hash` of src/vgsi/database.py).

    The fingerprint of a row is an MD5 digest of a canonical serialization:
    excluded metadata keys and None values are dropped, the surviving values
    are stringified, and the members are listed in sorted key order. MD5 is
    an uninterpreted parameter `md5`; the serialization is kept structured
    (`Serialized`), which abstracts the JSON / repr text into its member list.
 */
module RowHash {
  import opened Base

  /** What the digest is computed over. */
  datatype Serialized =
    | JsonObject(members: seq<(string, Value)>)   // json.dumps of a dict, members in this order
    | DictRepr(members: seq<(string, Value)>)     // Python str() of a dict, members in this order
    | Prefixed(prefix: string, body: Serialized)  // f"{prefix}{body}"

  type Digest = string

  /** `_DEFAULT_EXCLUDE`: metadata that never takes part in the content hash. */
  const DefaultExclude: set<string> := {
    "id", "version", "row_hash", "effective_from", "effective_to", "is_current",
    "loaded_at", "updated_at", "created_at", "scraped_at", "city_id", "vgsi_url",
    "photo_paths", "photo_local_path"
  }

  /** The fixed exclusions of the legacy DuckDB writer's `_compute_row_hash`. */
  const LegacyExclude: set<string> := {
    "version", "effective_from", "effective_to", "is_current", "row_hash",
    "updated_at", "created_at", "id"
  }

  // ---------------------------------------------------------------------
  // Code-point order on strings (Python's `<` on str) and sorted keys
  // ---------------------------------------------------------------------

  predicate StrLess(a: string, b: string)
  {
    if a == [] then b != []
    else if b == [] then false
    else if a[0] != b[0] then a[0] < b[0]
    else StrLess(a[1..], b[1..])
  }

  lemma {:induction false} StrLessIrreflexive(a: string)
    ensures !StrLess(a, a)
  {
    if a != [] { StrLessIrreflexive(a[1..]); }
  }

  lemma {:induction false} StrLessTransitive(a: string, b: string, c: string)
    requires StrLess(a, b) && StrLess(b, c)
    ensures StrLess(a, c)
  {
    if a != [] && b != [] && c != [] && a[0] == b[0] && b[0] == c[0] {
      StrLessTransitive(a[1..], b[1..], c[1..]);
    }
  }

  lemma {:induction false} StrLessTotal(a: string, b: string)
    requires a != b
    ensures StrLess(a, b) || StrLess(b, a)
  {
    if a != [] && b != [] && a[0] == b[0] {
      assert a == [a[0]] + a[1..] && b == [b[0]] + b[1..];
      StrLessTotal(a[1..], b[1..]);
    }
  }

  lemma StrLessAsymmetric(a: string, b: string)
    requires StrLess(a, b)
    ensures !StrLess(b, a)
  {
    if StrLess(b, a) {
      StrLessTransitive(a, b, a);
      StrLessIrreflexive(a);
    }
  }

  predicate IsLeast(m: string, keys: set<string>)
  {
    m in keys && forall k :: k in keys && k != m ==> StrLess(m, k)
  }

  lemma {:induction false} LeastExists(keys: set<string>)
    requires keys != {}
    ensures exists m :: IsLeast(m, keys)
    decreases |keys|
  {
    var x :| x in keys;
    var rest := keys - {x};
    if rest == {} {
      assert keys == {x};
      assert IsLeast(x, keys);
    } else {
      LeastExists(rest);
      var m :| IsLeast(m, rest);
      if StrLess(x, m) {
        forall k | k in keys && k != x
          ensures StrLess(x, k)
        {
          if k != m { StrLessTransitive(x, m, k); }
        }
        assert IsLeast(x, keys);
      } else {
        StrLessTotal(x, m);
        assert IsLeast(m, keys);
      }
    }
  }

  lemma LeastUnique(keys: set<string>)
    ensures forall a, b :: IsLeast(a, keys) && IsLeast(b, keys) ==> a == b
  {
    forall a, b | IsLeast(a, keys) && IsLeast(b, keys)
      ensures a == b
    {
      if a != b { StrLessAsymmetric(a, b); }
    }
  }

  predicate StrictlySorted(ks: seq<string>)
  {
    forall i, j :: 0 <= i < j < |ks| ==> StrLess(ks[i], ks[j])
  }

  /** `sorted(keys)`: every key exactly once, in increasing order. */
  function SortedKeys(keys: set<string>): (r: seq<string>)
    ensures |r| == |keys|
    ensures forall k :: k in r <==> k in keys
    ensures StrictlySorted(r)
    decreases |keys|
  {
    if keys == {} then []
    else
      LeastExists(keys);
      LeastUnique(keys);
      var m :| IsLeast(m, keys);
      var rest := SortedKeys(keys - {m});
      assert forall k :: k in rest ==> StrLess(m, k);
      [m] + rest
  }

  /** The members of a dict in sorted key order, as `sort_keys=True` lists them. */
  function SortedMembers(m: map<string, Value>): (r: seq<(string, Value)>)
    ensures |r| == |m|
    ensures forall p: (string, Value) :: p in r <==> p.0 in m && p.1 == m[p.0]
    ensures forall i, j :: 0 <= i < j < |r| ==> StrLess(r[i].0, r[j].0)
  {
    var ks := SortedKeys(m.Keys);
    var r := seq(|ks|, i requires 0 <= i < |ks| => (ks[i], m[ks[i]]));
    assert forall p: (string, Value) :: p.0 in m && p.1 == m[p.0] ==> p in r by {
      forall p: (string, Value) | p.0 in m && p.1 == m[p.0]
        ensures p in r
      {
        var i :| 0 <= i < |ks| && ks[i] == p.0;
        assert r[i] == p;
      }
    }
    r
  }

  /** Sorted member lists determine the dict: different dicts never
      serialize to the same member list. */
  lemma SortedMembersInjective(m1: map<string, Value>, m2: map<string, Value>)
    requires SortedMembers(m1) == SortedMembers(m2)
    ensures m1 == m2
  {
    MembersDetermineMap(SortedMembers(m1), m1, m2);
  }

  lemma MembersDetermineMap(r: seq<(string, Value)>, m1: map<string, Value>, m2: map<string, Value>)
    requires forall p: (string, Value) :: p in r <==> p.0 in m1 && p.1 == m1[p.0]
    requires forall p: (string, Value) :: p in r <==> p.0 in m2 && p.1 == m2[p.0]
    ensures m1 == m2
  {
    forall k | k in m1
      ensures k in m2 && m2[k] == m1[k]
    {
      assert (k, m1[k]) in r;
    }
    forall k | k in m2
      ensures k in m1
    {
      assert (k, m2[k]) in r;
    }
    assert m1.Keys == m2.Keys;
  }

  // ---------------------------------------------------------------------
  // The hashed content
  // ---------------------------------------------------------------------

  /** What key `k` contributes to the hash: nothing when it is excluded,
      absent or None, otherwise the string form of its value. */
  function Visible(row: Row, exclude: set<string>, k: string): Option<string>
  {
    if k in row && k !in exclude && row[k] != Null then Some(Show(row[k])) else None
  }

  /** `{k: str(v) for k, v in data.items() if k not in exclude and v is not None}`. */
  function HashData(row: Row, exclude: set<string>): (r: map<string, Value>)
    ensures forall k :: k in r <==> Visible(row, exclude, k).Some?
    ensures forall k :: k in r ==> r[k] == Str(Visible(row, exclude, k).value)
  {
    map k | k in row && k !in exclude && row[k] != Null :: Str(Show(row[k]))
  }

  lemma HashDataExtensional(r1: Row, r2: Row, exclude: set<string>)
    requires forall k :: Visible(r1, exclude, k) == Visible(r2, exclude, k)
    ensures HashData(r1, exclude) == HashData(r2, exclude)
  {
  }

  /** The JSON text `compute_row_hash` digests. */
  function Canonical(row: Row, extraExclude: set<string>): Serialized
  {
    JsonObject(SortedMembers(HashData(row, DefaultExclude + extraExclude)))
  }

  /** `compute_row_hash(row, extra_exclude)`. */
  function ComputeRowHash(row: Row, extraExclude: set<string>, md5: Serialized -> Digest): Digest
  {
    md5(Canonical(row, extraExclude))
  }

  /** The repr text the legacy `_compute_row_hash` digests. */
  function LegacyCanonical(row: Row, excludeFields: set<string>): Serialized
  {
    DictRepr(SortedMembers(HashData(row, LegacyExclude + excludeFields)))
  }

  /** `DuckDBWriter._compute_row_hash(data, exclude_fields)`. */
  function LegacyRowHash(row: Row, excludeFields: set<string>, md5: Serialized -> Digest): Digest
  {
    md5(LegacyCanonical(row, excludeFields))
  }

  /** Two rows get the same canonical serialization exactly when every
      non-excluded key contributes the same thing to both. */
  lemma CanonicalEqualIff(r1: Row, r2: Row, extraExclude: set<string>)
    ensures Canonical(r1, extraExclude) == Canonical(r2, extraExclude)
        <==> forall k :: Visible(r1, DefaultExclude + extraExclude, k)
                      == Visible(r2, DefaultExclude + extraExclude, k)
  {
    var ex := DefaultExclude + extraExclude;
    var h1, h2 := HashData(r1, ex), HashData(r2, ex);
    if Canonical(r1, extraExclude) == Canonical(r2, extraExclude) {
      SortedMembersInjective(h1, h2);
    }
    HashDataEqualIff(r1, r2, ex);
  }

  lemma HashDataEqualIff(r1: Row, r2: Row, exclude: set<string>)
    ensures HashData(r1, exclude) == HashData(r2, exclude)
        <==> forall k :: Visible(r1, exclude, k) == Visible(r2, exclude, k)
  {
    var h1, h2 := HashData(r1, exclude), HashData(r2, exclude);
    if h1 == h2 {
      forall k
        ensures Visible(r1, exclude, k) == Visible(r2, exclude, k)
      {
        if k in h1 { assert h1[k] == h2[k]; }
      }
    }
    if forall k :: Visible(r1, exclude, k) == Visible(r2, exclude, k) {
      HashDataExtensional(r1, r2, exclude);
    }
  }

  /** Adding, changing or removing an excluded key leaves the hash alone. */
  lemma ExcludedKeyIgnored(row: Row, k: string, v: Value, extraExclude: set<string>,
                           md5: Serialized -> Digest)
    requires k in DefaultExclude + extraExclude
    ensures ComputeRowHash(row[k := v], extraExclude, md5) == ComputeRowHash(row, extraExclude, md5)
    ensures ComputeRowHash(row - {k}, extraExclude, md5) == ComputeRowHash(row, extraExclude, md5)
  {
    var ex := DefaultExclude + extraExclude;
    assert HashData(row[k := v], ex) == HashData(row, ex);
    assert HashData(row - {k}, ex) == HashData(row, ex);
  }

  /** A key whose value is None hashes as if it were absent. */
  lemma NoneIsAbsent(row: Row, k: string, extraExclude: set<string>, md5: Serialized -> Digest)
    ensures ComputeRowHash(row[k := Null], extraExclude, md5)
         == ComputeRowHash(row - {k}, extraExclude, md5)
  {
    var ex := DefaultExclude + extraExclude;
    assert forall j :: Visible(row[k := Null], ex, j) == Visible(row - {k}, ex, j);
    HashDataExtensional(row[k := Null], row - {k}, ex);
  }

  /** `extra_exclude` only drops its own keys: hashing with it is hashing the
      row without those keys. */
  lemma ExtraExcludeDropsKeys(row: Row, extraExclude: set<string>, md5: Serialized -> Digest)
    ensures ComputeRowHash(row, extraExclude, md5) == ComputeRowHash(row - extraExclude, {}, md5)
  {
    assert HashData(row, DefaultExclude + extraExclude) == HashData(row - extraExclude, DefaultExclude + {});
  }

  /** Giving a non-excluded key a value with a different string form (or
      giving it a value where it was absent or None) changes the canonical
      serialization, so with a collision-free digest it changes the hash. */
  lemma ValueChangeDetected(row: Row, k: string, v: Value, extraExclude: set<string>,
                            md5: Serialized -> Digest)
    requires k !in DefaultExclude + extraExclude
    requires v != Null
    requires Visible(row, DefaultExclude + extraExclude, k) != Some(Show(v))
    requires forall a, b :: md5(a) == md5(b) ==> a == b
    ensures Canonical(row[k := v], extraExclude) != Canonical(row, extraExclude)
    ensures ComputeRowHash(row[k := v], extraExclude, md5) != ComputeRowHash(row, extraExclude, md5)
  {
    var ex := DefaultExclude + extraExclude;
    assert Visible(row[k := v], ex, k) == Some(Show(v));
    CanonicalEqualIff(row[k := v], row, extraExclude);
  }

  /** Removing a non-excluded key that had a value changes the canonical
      serialization. */
  lemma RemovalDetected(row: Row, k: string, extraExclude: set<string>)
    requires Visible(row, DefaultExclude + extraExclude, k).Some?
    ensures Canonical(row - {k}, extraExclude) != Canonical(row, extraExclude)
  {
    var ex := DefaultExclude + extraExclude;
    assert Visible(row - {k}, ex, k) == None;
    CanonicalEqualIff(row - {k}, row, extraExclude);
  }

  /** The legacy hash ignores its fixed metadata keys and any `exclude_fields`. */
  lemma LegacyExcludedKeyIgnored(row: Row, k: string, v: Value, excludeFields: set<string>,
                                 md5: Serialized -> Digest)
    requires k in LegacyExclude + excludeFields
    ensures LegacyRowHash(row[k := v], excludeFields, md5) == LegacyRowHash(row, excludeFields, md5)
    ensures LegacyRowHash(row - {k}, excludeFields, md5) == LegacyRowHash(row, excludeFields, md5)
    ensures LegacyRowHash(row[k := Null], excludeFields, md5)
         == LegacyRowHash(row - {k}, excludeFields, md5)
  {
    var ex := LegacyExclude + excludeFields;
    assert HashData(row[k := v], ex) == HashData(row, ex);
    assert HashData(row - {k}, ex) == HashData(row, ex);
    assert HashData(row[k := Null], ex) == HashData(row - {k}, ex);
  }

  // ---------------------------------------------------------------------
  // Insertion order
  // ---------------------------------------------------------------------

  predicate DistinctKeys<V>(items: seq<(string, V)>)
  {
    forall i, j :: 0 <= i < j < |items| ==> items[i].0 != items[j].0
  }

  /** `dict(items)`: a dict built by inserting the items in order. */
  function FromItems(items: seq<(string, Value)>): (r: Row)
    ensures forall k :: k in r <==> exists i :: 0 <= i < |items| && items[i].0 == k
  {
    if items == [] then map[]
    else
      var last := items[|items| - 1];
      var init := items[..|items| - 1];
      var r := FromItems(init)[last.0 := last.1];
      assert forall i :: 0 <= i < |init| ==> init[i] == items[i];
      r
  }

  lemma {:induction false} FromItemsValue(items: seq<(string, Value)>, i: int)
    requires DistinctKeys(items) && 0 <= i < |items|
    ensures FromItems(items)[items[i].0] == items[i].1
    decreases |items|
  {
    if i < |items| - 1 {
      FromItemsValue(items[..|items| - 1], i);
    }
  }

  /** Two orderings of the same dict items build the same dict, so the
      hash cannot depend on key insertion order. */
  lemma InsertionOrderIrrelevant(a: seq<(string, Value)>, b: seq<(string, Value)>,
                                 extraExclude: set<string>, md5: Serialized -> Digest)
    requires DistinctKeys(a) && DistinctKeys(b)
    requires forall x :: x in a <==> x in b
    ensures FromItems(a) == FromItems(b)
    ensures ComputeRowHash(FromItems(a), extraExclude, md5) == ComputeRowHash(FromItems(b), extraExclude, md5)
  {
    var ra, rb := FromItems(a), FromItems(b);
    forall k | k in ra
      ensures k in rb && rb[k] == ra[k]
    {
      var i :| 0 <= i < |a| && a[i].0 == k;
      assert a[i] in b;
      var j :| 0 <= j < |b| && b[j] == a[i];
      FromItemsValue(a, i);
      FromItemsValue(b, j);
    }
    forall k | k in rb
      ensures k in ra
    {
      var j :| 0 <= j < |b| && b[j].0 == k;
      assert b[j] in a;
    }
  }
}

/** The `{table_name: [row, ...]}` dicts the flatten functions build: an
    association list of table names and their rows, in key insertion order.
 */
module Tables {
  import opened Base

  type TableSet = seq<(string, seq<Row>)>

  /** No table name occurs twice. */
  predicate Distinct(t: TableSet)
  {
    forall i, j :: 0 <= i < j < |t| ==> t[i].0 != t[j].0
  }

  /** Position of `name`, if present. */
  function IndexOf(t: TableSet, name: string): (r: Option<nat>)
    ensures r.Some? ==> r.value < |t| && t[r.value].0 == name
    ensures r.None? ==> forall i :: 0 <= i < |t| ==> t[i].0 != name
  {
    if t == [] then None
    else if t[|t| - 1].0 == name then Some(|t| - 1)
    else IndexOf(t[..|t| - 1], name)
  }

  predicate Has(t: TableSet, name: string)
  {
    IndexOf(t, name).Some?
  }

  /** `tables.get(name, [])`. */
  function Get(t: TableSet, name: string): seq<Row>
  {
    match IndexOf(t, name)
      case Some(i) => t[i].1
      case None => []
  }

  lemma GetSpec(t: TableSet, name: string)
    requires Distinct(t)
    ensures forall i :: 0 <= i < |t| && t[i].0 == name ==> Get(t, name) == t[i].1
    ensures Has(t, name) <==> exists i :: 0 <= i < |t| && t[i].0 == name
    ensures !Has(t, name) ==> Get(t, name) == []
  {
  }

  /** `tables[name].extend(rows)` on a defaultdict: the key is created, even
      for no rows, and the rows go at the end of its list. */
  function Extend(t: TableSet, name: string, rows: seq<Row>): TableSet
  {
    match IndexOf(t, name)
      case Some(i) => t[i := (name, t[i].1 + rows)]
      case None => t + [(name, rows)]
  }

  /** Extending one table leaves the others as they were and creates no
      duplicate name. */
  lemma ExtendSpec(t: TableSet, name: string, rows: seq<Row>)
    requires Distinct(t)
    ensures var r := Extend(t, name, rows);
      && Distinct(r)
      && Has(r, name)
      && (forall u :: u != name ==> (Has(r, u) <==> Has(t, u)))
      && (forall u :: Get(r, u) == Get(t, u) + (if u == name then rows else []))
  {
    match IndexOf(t, name)
      case Some(k) => ExtendExisting(t, k, rows);
      case None => ExtendNew(t, name, rows);
  }

  lemma ExtendExisting(t: TableSet, k: nat, rows: seq<Row>)
    requires Distinct(t) && k < |t|
    ensures var r := t[k := (t[k].0, t[k].1 + rows)];
      && Distinct(r)
      && (forall u :: Has(r, u) <==> Has(t, u))
      && (forall u :: Get(r, u) == Get(t, u) + (if u == t[k].0 then rows else []))
  {
    var r := t[k := (t[k].0, t[k].1 + rows)];
    forall u
      ensures Has(r, u) <==> Has(t, u)
      ensures Get(r, u) == Get(t, u) + (if u == t[k].0 then rows else [])
    {
      GetSpec(t, u);
      GetSpec(r, u);
      if u == t[k].0 {
        assert r[k].0 == u;
      } else if exists i :: 0 <= i < |t| && t[i].0 == u {
        var i :| 0 <= i < |t| && t[i].0 == u;
        assert r[i] == t[i];
      } else {
        assert forall i :: 0 <= i < |r| ==> r[i].0 == t[i].0;
      }
    }
  }

  lemma ExtendNew(t: TableSet, name: string, rows: seq<Row>)
    requires Distinct(t)
    requires forall i :: 0 <= i < |t| ==> t[i].0 != name
    ensures var r := t + [(name, rows)];
      && Distinct(r)
      && Has(r, name)
      && (forall u :: u != name ==> (Has(r, u) <==> Has(t, u)))
      && (forall u :: Get(r, u) == Get(t, u) + (if u == name then rows else []))
  {
    var r := t + [(name, rows)];
    forall u
      ensures u != name ==> (Has(r, u) <==> Has(t, u))
      ensures Get(r, u) == Get(t, u) + (if u == name then rows else [])
    {
      GetSpec(t, u);
      GetSpec(r, u);
      if u == name {
        assert r[|t|].0 == u;
      } else if exists i :: 0 <= i < |t| && t[i].0 == u {
        var i :| 0 <= i < |t| && t[i].0 == u;
        assert r[i] == t[i];
      }
    }
    assert r[|t|].0 == name;
  }
}

/** Cell-level parsing shared by the VGSI scraper (scrapers/vgsi/source.py)
    and its legacy copy (src/vgsi/scraper.py): the type-coercion helpers and
    `parse_table_rows`.

    HTML is abstracted to the strings `get_text(strip=True)` yields: a table
    is its overall text and its rows of header (`th`) and data (`td`) cells.
    Python's `float()` is an oracle.
 */
module VgsiParse {
  import opened Base
  import RowHash

  /** Python's `float` and `int` where they are not modelled: `parse(s)` is
      `float(s)` (its repr, or None on ValueError), `ofInt(i)` is `float(i)`,
      `trunc(r)` is `int()` of the float whose repr is `r`. */
  datatype Floats = Floats(parse: string -> Option<string>, ofInt: int -> string, trunc: string -> int)

  // ---------------------------------------------------------------------
  // _clean_string, _handle_money, _handle_int
  // ---------------------------------------------------------------------

  /** `_clean_string(value)`. */
  function CleanString(v: Value): (r: Value)
    ensures r.Null? || r.Str?
    ensures r.Str? ==> r.s != [] && !IsSpace(r.s[0]) && !IsSpace(r.s[|r.s| - 1])
    ensures v.Null? ==> r.Null?
  {
    if v.Null? then Null
    else
      var s := Strip(Show(v));
      if s == [] then Null else Str(s)
  }

  /** Cleaning is idempotent. */
  lemma CleanStringIdempotent(v: Value)
    ensures CleanString(CleanString(v)) == CleanString(v)
  {
    if !v.Null? {
      StripIdempotent(Show(v));
    }
  }

  /** A string is cleaned to None exactly when it is all whitespace. */
  lemma CleanStringBlank(s: string)
    ensures CleanString(Str(s)).Null? <==> forall i :: 0 <= i < |s| ==> IsSpace(s[i])
  {
    if Strip(s) == [] {
      var a :| StrippedAt(s, [], a);
      forall i | 0 <= i < |s|
        ensures IsSpace(s[i])
      {
        if i < a {
        } else {
        }
      }
    }
    if forall i :: 0 <= i < |s| ==> IsSpace(s[i]) {
      StripAllSpace(s);
    }
  }

  /** What `_handle_money` hands to `float()`: the stripped text without
      `$` and `,`. */
  function MoneyText(s: string): (r: string)
    ensures '$' !in r && ',' !in r
  {
    RemoveChar(RemoveChar(Strip(s), '$'), ',')
  }

  /** `_handle_money(value)`. */
  function HandleMoney(v: Value, f: Floats): (r: Value)
    ensures r.Null? || r.Float?
  {
    match v
      case Int(i) => Float(f.ofInt(i))
      case Bool(b) => Float(f.ofInt(if b then 1 else 0))
      case Float(x) => Float(x)
      case Str(s) =>
        var cleaned := MoneyText(s);
        if cleaned == [] then Null
        else (match f.parse(cleaned)
          case Some(x) => Float(x)
          case None => Null)
      case Null => Null
  }

  /** Money text: a blank or unparseable string is None; otherwise the value
      is `float()` of the text with `$`, `,` and surrounding whitespace
      gone. None stays None. */
  lemma HandleMoneySpec(s: string, f: Floats)
    ensures HandleMoney(Null, f) == Null
    ensures HandleMoney(Str(s), f).Null? <==> MoneyText(s) == [] || f.parse(MoneyText(s)).None?
    ensures HandleMoney(Str(s), f).Float? ==> HandleMoney(Str(s), f) == Float(f.parse(MoneyText(s)).value)
  {
  }

  /** `_handle_int(value)`; strings are read by `Base.ParseInt`, which
      keeps to an optional sign and ASCII digits. */
  function HandleInt(v: Value, f: Floats): (r: Value)
    ensures r.Null? || r.Int?
    ensures v.Int? ==> r == v
  {
    match v
      case Int(i) => Int(i)
      case Bool(b) => Int(if b then 1 else 0)
      case Float(x) => Int(f.trunc(x))
      case Str(s) =>
        (match ParseInt(Strip(s))
          case Some(i) => Int(i)
          case None => Null)
      case Null => Null
  }

  /** A decimal rendering of an integer, with any surrounding whitespace,
      parses back to that integer. */
  lemma HandleIntRoundTrip(i: int, pre: string, post: string, f: Floats)
    requires forall k :: 0 <= k < |pre| ==> IsSpace(pre[k])
    requires forall k :: 0 <= k < |post| ==> IsSpace(post[k])
    ensures HandleInt(Str(pre + IntToString(i) + post), f) == Int(i)
  {
    var d := IntToString(i);
    assert !IsSpace(d[0]) && !IsSpace(d[|d| - 1]) by { IntToStringEdges(i); }
    StripPadded(pre, d, post);
    ParseIntRoundTrip(i);
    assert Strip(pre + d + post) == d;
  }

  /** Text that is all whitespace is None. */
  lemma HandleIntBlank(pre: string, post: string, f: Floats)
    requires forall k :: 0 <= k < |pre| ==> IsSpace(pre[k])
    requires forall k :: 0 <= k < |post| ==> IsSpace(post[k])
    ensures HandleInt(Str(pre + post), f) == Null
  {
    var t := pre + post;
    assert forall k :: 0 <= k < |t| ==> IsSpace(t[k]) by {
      forall k | 0 <= k < |t|
        ensures IsSpace(t[k])
      {
        if k < |pre| { assert t[k] == pre[k]; } else { assert t[k] == post[k - |pre|]; }
      }
    }
    StripAllSpace(t);
  }

  lemma IntToStringEdges(i: int)
    ensures var d := IntToString(i); !IsSpace(d[0]) && !IsSpace(d[|d| - 1])
  {
    var d := IntToString(i);
    var digits := if i < 0 then Decimal(-i) else Decimal(i);
    assert d[|d| - 1] == digits[|digits| - 1];
    assert IsDigit(digits[|digits| - 1]);
  }

  /** Stripping removes exactly the whitespace padding around a string
      that neither starts nor ends with whitespace. */
  lemma StripPadded(pre: string, d: string, post: string)
    requires forall k :: 0 <= k < |pre| ==> IsSpace(pre[k])
    requires forall k :: 0 <= k < |post| ==> IsSpace(post[k])
    requires d != [] && !IsSpace(d[0]) && !IsSpace(d[|d| - 1])
    ensures Strip(pre + d + post) == d
  {
    assert pre + d + post == pre + (d + post);
    TrimStartPadded(pre, d + post);
    TrimEndPadded(d, post);
  }

  lemma {:induction false} TrimStartPadded(pre: string, t: string)
    requires forall k :: 0 <= k < |pre| ==> IsSpace(pre[k])
    requires t != [] && !IsSpace(t[0])
    ensures TrimStart(pre + t) == t
  {
    if pre != [] {
      assert (pre + t)[1..] == pre[1..] + t;
      TrimStartPadded(pre[1..], t);
    } else {
      assert pre + t == t;
    }
  }

  lemma {:induction false} TrimEndPadded(t: string, post: string)
    requires forall k :: 0 <= k < |post| ==> IsSpace(post[k])
    requires t != [] && !IsSpace(t[|t| - 1])
    ensures TrimEnd(t + post) == t
  {
    if post != [] {
      var n := |post|;
      assert (t + post)[..|t + post| - 1] == t + post[..n - 1];
      TrimEndPadded(t, post[..n - 1]);
    } else {
      assert t + post == t;
    }
  }

  // ---------------------------------------------------------------------
  // parse_table_rows
  // ---------------------------------------------------------------------

  datatype Cell = Th(text: string) | Td(text: string)

  /** A `<table>`: its `get_text(strip=True)` and its `<tr>` rows. */
  datatype HtmlTable = HtmlTable(text: string, rows: seq<seq<Cell>>)

  /** `key.lower().replace(" ", "_").replace("&", "and")`. */
  function NormalizeHeader(s: string): (r: string)
    ensures ' ' !in r && '&' !in r
    ensures forall c :: c in r ==> !('A' <= c <= 'Z')
  {
    var lower := Lower(s);
    assert forall c :: c in lower ==> !('A' <= c <= 'Z');
    ReplaceChar(ReplaceChar(lower, ' ', "_"), '&', "and")
  }

  /** The header names: every cell of the first row, `th` or `td`. */
  function Headers(cells: seq<Cell>): (r: seq<string>)
    ensures |r| == |cells| && forall i :: 0 <= i < |cells| ==> r[i] == NormalizeHeader(cells[i].text)
  {
    seq(|cells|, i requires 0 <= i < |cells| => NormalizeHeader(cells[i].text))
  }

  /** The values of a data row: its `td` cells only, in order. */
  function TdTexts(cells: seq<Cell>): (r: seq<string>)
    ensures |r| <= |cells|
  {
    if cells == [] then []
    else (if cells[0].Td? then [cells[0].text] else []) + TdTexts(cells[1..])
  }

  /** One value: money columns through `_handle_money`, the rest through
      `_clean_string`. */
  function Convert(header: string, text: string, money: set<string>, f: Floats): Value
  {
    if header in money then HandleMoney(Str(text), f) else CleanString(Str(text))
  }

  /** The `row_dict` of one data row: header `i` gets cell `i`, for `i` up to
      the shorter of the two; a repeated header keeps its last cell. */
  function ParseRow(headers: seq<string>, values: seq<string>, money: set<string>, f: Floats): (r: Row)
    ensures forall i :: 0 <= i < |headers| && i < |values| ==> headers[i] in r
    ensures forall k :: k in r ==> exists i :: 0 <= i < |headers| && i < |values| && headers[i] == k
  {
    var n := if |headers| < |values| then |headers| else |values|;
    var items := seq(n, i requires 0 <= i < n => (headers[i], Convert(headers[i], values[i], money, f)));
    assert forall i :: 0 <= i < n ==> items[i].0 == headers[i];
    RowHash.FromItems(items)
  }

  /** With distinct headers, each header present in the row holds its own
      cell's converted value. */
  lemma ParseRowValue(headers: seq<string>, values: seq<string>, money: set<string>, f: Floats, i: nat)
    requires forall a, b :: 0 <= a < b < |headers| ==> headers[a] != headers[b]
    requires i < |headers| && i < |values|
    ensures ParseRow(headers, values, money, f)[headers[i]] == Convert(headers[i], values[i], money, f)
  {
    var n := if |headers| < |values| then |headers| else |values|;
    var items := seq(n, j requires 0 <= j < n => (headers[j], Convert(headers[j], values[j], money, f)));
    assert forall a, b :: 0 <= a < b < n ==> items[a].0 != items[b].0;
    RowHash.FromItemsValue(items, i);
  }

  /** `any(v is not None for v in row_dict.values())`. */
  predicate HasValue(r: Row)
  {
    exists k :: k in r && r[k] != Null
  }

  /** The dicts of the data rows, in order. */
  function ParseBody(headers: seq<string>, body: seq<seq<Cell>>, money: set<string>, f: Floats): (r: seq<Row>)
    ensures |r| == |body|
    ensures forall i :: 0 <= i < |body| ==> r[i] == ParseRow(headers, TdTexts(body[i]), money, f)
  {
    seq(|body|, i requires 0 <= i < |body| => ParseRow(headers, TdTexts(body[i]), money, f))
  }

  /** The rows with some non-None value, in order. */
  function KeepNonEmpty(rows: seq<Row>): (r: seq<Row>)
  {
    if rows == [] then []
    else
      var n := |rows|;
      KeepNonEmpty(rows[..n - 1]) + (if HasValue(rows[n - 1]) then [rows[n - 1]] else [])
  }

  /** How many rows are all None. */
  function Dropped(rows: seq<Row>): nat
  {
    if rows == [] then 0
    else
      var n := |rows|;
      Dropped(rows[..n - 1]) + (if HasValue(rows[n - 1]) then 0 else 1)
  }

  /** The positions of the rows with some non-None value: ascending, and
      exactly those positions. */
  function KeptIndices(rows: seq<Row>): (r: seq<nat>)
    ensures forall j :: 0 <= j < |r| ==> r[j] < |rows| && HasValue(rows[r[j]])
    ensures forall i :: 0 <= i < |rows| && HasValue(rows[i]) ==> i in r
    ensures forall j, k :: 0 <= j < k < |r| ==> r[j] < r[k]
  {
    if rows == [] then []
    else
      var n := |rows|;
      var init := KeptIndices(rows[..n - 1]);
      assert forall i :: 0 <= i < n - 1 ==> rows[..n - 1][i] == rows[i];
      init + (if HasValue(rows[n - 1]) then [n - 1] else [])
  }

  /** The kept rows are the rows at the kept positions, in the same order:
      the filter neither reorders nor repeats rows. */
  lemma {:induction false} KeepNonEmptyOrder(rows: seq<Row>)
    ensures |KeepNonEmpty(rows)| == |KeptIndices(rows)|
    ensures forall j :: 0 <= j < |KeptIndices(rows)| ==> KeepNonEmpty(rows)[j] == rows[KeptIndices(rows)[j]]
  {
    if rows != [] {
      var n := |rows|;
      var init := rows[..n - 1];
      KeepNonEmptyOrder(init);
      var k0, i0 := KeepNonEmpty(init), KeptIndices(init);
      forall j | 0 <= j < |i0|
        ensures k0[j] == rows[i0[j]]
      {
        assert init[i0[j]] == rows[i0[j]];
      }
      if HasValue(rows[n - 1]) {
        assert KeepNonEmpty(rows) == k0 + [rows[n - 1]];
        assert KeptIndices(rows) == i0 + [n - 1];
      } else {
        assert KeepNonEmpty(rows) == k0;
        assert KeptIndices(rows) == i0;
      }
    }
  }

  /** Exactly the all-None rows are dropped; the others are kept. */
  lemma {:induction false} KeepNonEmptySpec(rows: seq<Row>)
    ensures var r := KeepNonEmpty(rows);
      && |r| == |rows| - Dropped(rows)
      && (forall j :: 0 <= j < |r| ==> HasValue(r[j]) && r[j] in rows)
      && (forall x :: x in rows && HasValue(x) ==> x in r)
  {
    if rows != [] {
      var n := |rows|;
      var init := rows[..n - 1];
      KeepNonEmptySpec(init);
      assert rows == init + [rows[n - 1]];
      assert forall x :: x in rows ==> x == rows[n - 1] || x in init;
    }
  }

  /** `parse_table_rows(soup, table_id, money_fields)`; `None` is a missing
      table. */
  function ParseTableRows(table: Option<HtmlTable>, money: set<string>, f: Floats): (r: seq<Row>)
  {
    if table.None? then []
    else if Contains(table.value.text, "No Data") then []
    else if |table.value.rows| < 2 then []
    else
      var headers := Headers(table.value.rows[0]);
      if headers == [] then []
      else KeepNonEmpty(ParseBody(headers, table.value.rows[1..], money, f))
  }

  /** No rows come back for a missing table, a "No Data" table, a table of
      fewer than two rows or one with an empty header row. Otherwise every
      data row with some non-None value comes back, as its dict, and only
      those, in the order of the table (at the ascending `KeptIndices`). */
  lemma ParseTableRowsSpec(table: Option<HtmlTable>, money: set<string>, f: Floats)
    ensures var r := ParseTableRows(table, money, f);
      && ((table.None? || Contains(table.value.text, "No Data") || |table.value.rows| < 2
           || table.value.rows[0] == []) ==> r == [])
      && (table.Some? && !Contains(table.value.text, "No Data") && |table.value.rows| >= 2
          && table.value.rows[0] != [] ==>
            var parsed := ParseBody(Headers(table.value.rows[0]), table.value.rows[1..], money, f);
            && |r| == |parsed| - Dropped(parsed)
            && (forall j :: 0 <= j < |r| ==> HasValue(r[j]) && r[j] in parsed)
            && (forall x :: x in parsed && HasValue(x) ==> x in r)
            && |r| == |KeptIndices(parsed)|
            && (forall j :: 0 <= j < |r| ==> r[j] == parsed[KeptIndices(parsed)[j]]))
  {
    if table.Some? && !Contains(table.value.text, "No Data") && |table.value.rows| >= 2
       && table.value.rows[0] != [] {
      var parsed := ParseBody(Headers(table.value.rows[0]), table.value.rows[1..], money, f);
      KeepNonEmptySpec(parsed);
      KeepNonEmptyOrder(parsed);
    }
  }
}

/**
 * `SalesAndReportsCollection#rows` (helper/app_store_ax_connector/
 * sales_and_reports_collection.rb): the new downloads of a sales report, one row
 * per SKU. The report is given already parsed, as the three columns `rows` reads,
 * and today's date is a parameter.
 */
module SalesAndReportsCollection {
  import opened Wrappers
  import opened RubyText

  /** A report line; a column missing from the line is nil. */
  datatype Item = Item(sku: Option<string>, productTypeIdentifier: Option<string>, units: Option<string>)

  /** One row of the result: the SKU, the downloads summed, the date. */
  datatype Row = Row(brand: Option<string>, units: int, date: string)

  /** "1F" marks a new download. */
  const NewDownload: string := "1F"

  /** `item.units.to_i`, nil reading as 0. */
  function Units(item: Item): int {
    match item.units
    case None => 0
    case Some(u) => ToI(u)
  }

  /** The new downloads, in report order. */
  function Downloads(items: seq<Item>): (r: seq<Item>)
    ensures forall x :: x in r <==> x in items && x.productTypeIdentifier == Some(NewDownload)
    ensures Subsequence(r, items)
    ensures forall x :: multiset(r)[x] == if x.productTypeIdentifier == Some(NewDownload) then multiset(items)[x] else 0
    decreases |items|
  {
    if items == [] then []
    else
      var init := Downloads(items[..|items| - 1]);
      var last := items[|items| - 1];
      assert items == items[..|items| - 1] + [last];
      SubsequenceAppend(init, items[..|items| - 1], last);
      if last.productTypeIdentifier == Some(NewDownload) then init + [last] else init
  }

  /** Some item before position `p` has SKU `k`. */
  ghost predicate SeenBefore(items: seq<Item>, k: Option<string>, p: int) {
    exists q | 0 <= q < p && q < |items| :: items[q].sku == k
  }

  /** Every item with SKU `later` has an item with SKU `earlier` before it. */
  ghost predicate FirstBefore(items: seq<Item>, earlier: Option<string>, later: Option<string>) {
    forall p {:trigger SeenBefore(items, earlier, p)} | 0 <= p < |items| && items[p].sku == later :: SeenBefore(items, earlier, p)
  }

  /** The distinct SKUs, in order of first appearance: the keys of `group_by(&:sku)`. */
  function Skus(items: seq<Item>): (r: seq<Option<string>>)
    ensures forall k :: k in r <==> exists i | 0 <= i < |items| :: items[i].sku == k
    ensures forall i, j | 0 <= i < j < |r| :: r[i] != r[j]
    decreases |items|
  {
    if items == [] then []
    else
      var init := Skus(items[..|items| - 1]);
      var k := items[|items| - 1].sku;
      assert forall i | 0 <= i < |items| - 1 :: items[..|items| - 1][i] == items[i];
      if k in init then init else init + [k]
  }

  /** An order already seen is kept when an item is appended, provided the later SKU has appeared. */
  lemma FirstBeforeExtend(init: seq<Item>, x: Item, earlier: Option<string>, later: Option<string>, seen: nat)
    requires FirstBefore(init, earlier, later)
    requires seen < |init| && init[seen].sku == later
    ensures FirstBefore(init + [x], earlier, later)
  {
    var items := init + [x];
    forall p | 0 <= p < |items| && items[p].sku == later ensures SeenBefore(items, earlier, p) {
      var p' := if p < |init| then p else seen;
      assert p' <= p && init[p'].sku == later;
      assert SeenBefore(init, earlier, p');
      var q :| 0 <= q < p' && q < |init| && init[q].sku == earlier;
      assert items[q].sku == earlier;
    }
  }

  /** An appended item whose SKU is new comes after every SKU already seen. */
  lemma FirstBeforeNew(init: seq<Item>, x: Item, earlier: Option<string>, seen: nat)
    requires seen < |init| && init[seen].sku == earlier
    requires forall p | 0 <= p < |init| :: init[p].sku != x.sku
    ensures FirstBefore(init + [x], earlier, x.sku)
  {
    var items := init + [x];
    forall p | 0 <= p < |items| && items[p].sku == x.sku ensures SeenBefore(items, earlier, p) {
      if p < |init| {
        assert false;
      }
      assert items[seen] == init[seen];
    }
  }

  /** A SKU listed before another appears in the items before the other's first appearance. */
  lemma {:induction false} SkusFirstAppearance(items: seq<Item>)
    ensures forall i, j | 0 <= i < j < |Skus(items)| :: FirstBefore(items, Skus(items)[i], Skus(items)[j])
    decreases |items|
  {
    if items != [] {
      var n := |items|;
      var init := items[..n - 1];
      var x := items[n - 1];
      var s := Skus(init);
      var r := Skus(items);
      SkusFirstAppearance(init);
      assert items == init + [x];
      assert r == if x.sku in s then s else s + [x.sku];
      forall i, j | 0 <= i < j < |r| ensures FirstBefore(items, r[i], r[j]) {
        assert r[i] == s[i] && s[i] in s;
        var seen :| 0 <= seen < |init| && init[seen].sku == s[i];
        if j < |s| {
          assert r[j] == s[j] && s[j] in s;
          var seenLater :| 0 <= seenLater < |init| && init[seenLater].sku == s[j];
          FirstBeforeExtend(init, x, s[i], s[j], seenLater);
        } else {
          assert r[j] == x.sku && x.sku !in s;
          FirstBeforeNew(init, x, s[i], seen);
        }
      }
    }
  }

  /** The units of the items with SKU `k`, summed. */
  function UnitsOf(items: seq<Item>, k: Option<string>): int
    decreases |items|
  {
    if items == [] then 0
    else
      var last := items[|items| - 1];
      UnitsOf(items[..|items| - 1], k) + (if last.sku == k then Units(last) else 0)
  }

  /** The units of all the items, summed. */
  function Total(items: seq<Item>): int
    decreases |items|
  {
    if items == [] then 0 else Total(items[..|items| - 1]) + Units(items[|items| - 1])
  }

  /** `rows`: one row per distinct SKU among the new downloads, with their units summed, all dated `date`. */
  function Rows(items: seq<Item>, date: string): (r: seq<Row>)
    ensures |r| == |Skus(Downloads(items))|
    ensures forall i | 0 <= i < |r| :: r[i].brand == Skus(Downloads(items))[i] && r[i].date == date
    ensures forall i | 0 <= i < |r| :: r[i].units == UnitsOf(Downloads(items), r[i].brand)
  {
    var downloads := Downloads(items);
    var skus := Skus(downloads);
    seq(|skus|, i requires 0 <= i < |skus| => Row(skus[i], UnitsOf(downloads, skus[i]), date))
  }

  /** A report without new downloads gives no rows. */
  lemma NoDownloadsNoRows(items: seq<Item>, date: string)
    requires forall i | 0 <= i < |items| :: items[i].productTypeIdentifier != Some(NewDownload)
    ensures Rows(items, date) == []
  {
    assert forall x | x in items :: x.productTypeIdentifier != Some(NewDownload);
  }

  /** A SKU is among those of the new downloads iff some new download has it. */
  lemma DownloadSku(items: seq<Item>, k: Option<string>)
    ensures k in Skus(Downloads(items)) <==>
            exists x | x in items :: x.productTypeIdentifier == Some(NewDownload) && x.sku == k
  {
    var d := Downloads(items);
    if exists x | x in items :: x.productTypeIdentifier == Some(NewDownload) && x.sku == k {
      var x :| x in items && x.productTypeIdentifier == Some(NewDownload) && x.sku == k;
      assert x in d;
      var i :| 0 <= i < |d| && d[i] == x;
    }
    if k in Skus(d) {
      var m :| 0 <= m < |d| && d[m].sku == k;
      assert d[m] in items;
    }
  }

  /** Each SKU among the new downloads has exactly one row. */
  lemma OneRowPerSku(items: seq<Item>, date: string, k: Option<string>)
    ensures (exists i | 0 <= i < |Rows(items, date)| :: Rows(items, date)[i].brand == k) <==>
            (exists x | x in items :: x.productTypeIdentifier == Some(NewDownload) && x.sku == k)
    ensures forall i, j | 0 <= i < j < |Rows(items, date)| :: Rows(items, date)[i].brand != Rows(items, date)[j].brand
  {
    var skus := Skus(Downloads(items));
    var r := Rows(items, date);
    DownloadSku(items, k);
    if k in skus {
      var j :| 0 <= j < |skus| && skus[j] == k;
      assert r[j].brand == k;
    }
  }

  /** The units of some SKUs, summed. */
  function SumUnits(keys: seq<Option<string>>, items: seq<Item>): int
    decreases |keys|
  {
    if keys == [] then 0 else SumUnits(keys[..|keys| - 1], items) + UnitsOf(items, keys[|keys| - 1])
  }

  /** A SKU no item has sums to nothing. */
  lemma {:induction false} UnitsOfAbsent(items: seq<Item>, k: Option<string>)
    requires forall i | 0 <= i < |items| :: items[i].sku != k
    ensures UnitsOf(items, k) == 0
    decreases |items|
  {
    if items != [] {
      UnitsOfAbsent(items[..|items| - 1], k);
    }
  }

  /** A new item adds its units to the sum of distinct SKUs iff its SKU is among them. */
  lemma {:induction false} SumUnitsAppend(keys: seq<Option<string>>, items: seq<Item>, x: Item)
    requires forall i, j | 0 <= i < j < |keys| :: keys[i] != keys[j]
    ensures SumUnits(keys, items + [x]) == SumUnits(keys, items) + (if x.sku in keys then Units(x) else 0)
    decreases |keys|
  {
    if keys != [] {
      var init := keys[..|keys| - 1];
      SumUnitsAppend(init, items, x);
      assert (items + [x])[..|items + [x]| - 1] == items;
      assert x.sku in keys <==> x.sku in init || x.sku == keys[|keys| - 1];
      assert keys[|keys| - 1] !in init;
    }
  }

  /** The rows' units add up to the units of all the items. */
  lemma {:induction false} SumUnitsTotal(items: seq<Item>)
    ensures SumUnits(Skus(items), items) == Total(items)
    decreases |items|
  {
    if items != [] {
      var init := items[..|items| - 1];
      var x := items[|items| - 1];
      var s := Skus(init);
      assert init + [x] == items;
      assert Skus(items) == if x.sku in s then s else s + [x.sku];
      assert Total(items) == Total(init) + Units(x);
      SumUnitsTotal(init);
      SumUnitsAppend(s, init, x);
      assert SumUnits(s, items) == Total(init) + (if x.sku in s then Units(x) else 0);
      if x.sku !in s {
        var keys := s + [x.sku];
        assert keys[..|keys| - 1] == s;
        assert SumUnits(keys, items) == SumUnits(s, items) + UnitsOf(items, x.sku);
        assert forall i | 0 <= i < |init| :: init[i].sku != x.sku;
        UnitsOfAbsent(init, x.sku);
        assert UnitsOf(items, x.sku) == UnitsOf(init, x.sku) + Units(x);
      }
    }
  }

  /** No download is lost or counted twice: the rows' units add up to the units of all the new downloads. */
  lemma RowsConserveUnits(items: seq<Item>, date: string)
    ensures SumUnits(Skus(Downloads(items)), Downloads(items)) == Total(Downloads(items))
  {
    SumUnitsTotal(Downloads(items));
  }
}

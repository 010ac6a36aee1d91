/** The top-commodities handler: `SUM(weight_metric_tonnes * 1000) AS kg`
    grouped by commodity, `ORDER BY kg DESC LIMIT 5`, with `commodity_name`
    renamed to `commodity`. */
module Commodities {
  import opened Shipments
  import opened Grouping
  import opened Sorting
  import opened Paging

  const TopN: nat := 5

  /** `SELECT commodity_name, weight_metric_tonnes * 1000 FROM shipments`. */
  function CommodityRows(records: seq<Shipment>): (rows: seq<(string, nat)>)
    ensures |rows| == |records|
    ensures forall i :: 0 <= i < |records| ==>
              rows[i] == (records[i].commodityName, KilogramsPerTonne * records[i].weightTonnes)
  {
    seq(|records|, i requires 0 <= i < |records| =>
      (records[i].commodityName, KilogramsPerTonne * records[i].weightTonnes))
  }

  /** `ORDER BY kg DESC`. */
  predicate Heavier(a: Bucket<string>, b: Bucket<string>) {
    a.sum >= b.sum
  }

  function CommodityKey(b: Bucket<string>): string {
    b.key
  }

  /** Every commodity group, heaviest first; ties keep their grouping order. */
  function RankedCommodities(records: seq<Shipment>): seq<Bucket<string>> {
    Sort(GroupBy(CommodityRows(records)), Heavier)
  }

  /** `{ commodity: c.commodity_name, kg: Number(c.kg) }`. */
  function Renamed(b: Bucket<string>): TopCommodity {
    TopCommodity(b.key, b.sum)
  }

  /** `GET /api/analytics/commodities`. */
  function TopCommodities(records: seq<Shipment>): seq<TopCommodity> {
    var top := Slice(RankedCommodities(records), 0, TopN);
    seq(|top|, i requires 0 <= i < |top| => Renamed(top[i]))
  }

  /** Total tonnes shipped of commodity `c`. */
  function CommodityTonnes(records: seq<Shipment>, c: string): nat {
    if records == [] then 0
    else
      var last := records[|records| - 1];
      CommodityTonnes(records[..|records| - 1], c) + (if last.commodityName == c then last.weightTonnes else 0)
  }

  /** The commodity names that occur in the shipments. */
  function CommodityNames(records: seq<Shipment>): set<string> {
    set i | 0 <= i < |records| :: records[i].commodityName
  }

  /** Summing `weight * 1000` per row is 1000 times the summed weight. */
  lemma {:induction false} CommodityRowsSum(records: seq<Shipment>, c: string)
    ensures SumOf(CommodityRows(records), c) == KilogramsPerTonne * CommodityTonnes(records, c)
  {
    if records != [] {
      var init := records[..|records| - 1];
      assert CommodityRows(records)[..|records| - 1] == CommodityRows(init);
      CommodityRowsSum(init, c);
    }
  }

  /** The ranked groups are heaviest first and no commodity has two. */
  lemma RankedOrder(records: seq<Shipment>)
    ensures SortedBy(RankedCommodities(records), Heavier)
    ensures DistinctBy(RankedCommodities(records), CommodityKey)
  {
    var rows := CommodityRows(records);
    var g := GroupBy(rows);
    GroupBySpec(rows);
    SortSorted(g, Heavier);
    assert DistinctBy(g, CommodityKey);
    SortDistinct(g, Heavier, CommodityKey);
  }

  /** There are as many ranked groups as commodity names. */
  lemma RankedSize(records: seq<Shipment>)
    ensures |RankedCommodities(records)| == |CommodityNames(records)|
  {
    var rows := CommodityRows(records);
    GroupCountIsDistinctKeys(rows);
    assert (set i | 0 <= i < |rows| :: rows[i].0) == CommodityNames(records);
  }

  /** Each ranked group is a commodity that occurs, weighing 1000 times its
      total tonnes. */
  lemma RankedWeight(records: seq<Shipment>, k: nat)
    requires k < |RankedCommodities(records)|
    ensures RankedCommodities(records)[k].key in CommodityNames(records)
    ensures RankedCommodities(records)[k].sum == KilogramsPerTonne * CommodityTonnes(records, RankedCommodities(records)[k].key)
  {
    var rows := CommodityRows(records);
    var g := GroupBy(rows);
    var b := RankedCommodities(records)[k];
    SortSameElements(g, Heavier);
    assert b in RankedCommodities(records);
    var j :| 0 <= j < |g| && g[j] == b;
    GroupAt(rows, j);
    var i :| 0 <= i < |rows| && rows[i].0 == b.key;
    CommodityRowsSum(records, b.key);
  }

  /** Every commodity that occurs has a ranked group. */
  lemma RankedCovers(records: seq<Shipment>, c: string)
    requires c in CommodityNames(records)
    ensures exists k :: 0 <= k < |RankedCommodities(records)| && RankedCommodities(records)[k].key == c
  {
    var rows := CommodityRows(records);
    var g := GroupBy(rows);
    GroupBySpec(rows);
    SortSameElements(g, Heavier);
    var i :| 0 <= i < |records| && records[i].commodityName == c;
    assert rows[i].0 == c;
    assert HasKey(g, c);
    var j :| 0 <= j < |g| && g[j].key == c;
    assert g[j] in RankedCommodities(records);
  }

  /** The returned rows are the first (at most five) ranked groups, renamed. */
  lemma TopIsPrefix(records: seq<Shipment>)
    ensures |TopCommodities(records)| == if |RankedCommodities(records)| <= TopN then |RankedCommodities(records)| else TopN
    ensures forall i :: 0 <= i < |TopCommodities(records)| ==> TopCommodities(records)[i] == Renamed(RankedCommodities(records)[i])
  {
    var ranked := RankedCommodities(records);
    var top := Slice(ranked, 0, TopN);
    assert top == ranked[..|top|];
  }

  /** What the handler returns is at most five rows, heaviest first, with
      distinct commodity names. */
  lemma TopCommoditiesOrdered(records: seq<Shipment>)
    ensures |TopCommodities(records)| <= TopN
    ensures forall i, j :: 0 <= i < j < |TopCommodities(records)| ==>
              TopCommodities(records)[i].kg >= TopCommodities(records)[j].kg
              && TopCommodities(records)[i].commodity != TopCommodities(records)[j].commodity
  {
    var ranked := RankedCommodities(records);
    var r := TopCommodities(records);
    TopIsPrefix(records);
    RankedOrder(records);
    forall i, j | 0 <= i < j < |r| ensures r[i].kg >= r[j].kg && r[i].commodity != r[j].commodity {
      assert Heavier(ranked[i], ranked[j]);
      assert CommodityKey(ranked[i]) != CommodityKey(ranked[j]);
    }
  }

  /** Each returned row names a commodity that occurs, and its `kg` is 1000
      times that commodity's total tonnes. */
  lemma TopCommodityWeight(records: seq<Shipment>, i: nat)
    requires i < |TopCommodities(records)|
    ensures TopCommodities(records)[i].commodity in CommodityNames(records)
    ensures TopCommodities(records)[i].kg == KilogramsPerTonne * CommodityTonnes(records, TopCommodities(records)[i].commodity)
  {
    TopIsPrefix(records);
    RankedWeight(records, i);
  }

  /** A true top five: every commodity is either returned, or five rows are
      returned and it weighs no more than the fifth. */
  lemma TopCommoditiesAreHeaviest(records: seq<Shipment>, c: string)
    requires c in CommodityNames(records)
    ensures (exists i :: 0 <= i < |TopCommodities(records)| && TopCommodities(records)[i].commodity == c)
            || (|TopCommodities(records)| == TopN
                && KilogramsPerTonne * CommodityTonnes(records, c) <= TopCommodities(records)[TopN - 1].kg)
  {
    var ranked := RankedCommodities(records);
    var r := TopCommodities(records);
    TopIsPrefix(records);
    RankedCovers(records, c);
    var k :| 0 <= k < |ranked| && ranked[k].key == c;
    RankedWeight(records, k);
    if k < |r| {
      assert r[k].commodity == c;
    } else {
      RankedOrder(records);
      assert Heavier(ranked[TopN - 1], ranked[k]);
    }
  }

  /** With at most five commodities, all of them are returned. */
  lemma FewCommoditiesAllReturned(records: seq<Shipment>, c: string)
    requires |CommodityNames(records)| <= TopN && c in CommodityNames(records)
    ensures exists i :: 0 <= i < |TopCommodities(records)| && TopCommodities(records)[i].commodity == c
  {
    var ranked := RankedCommodities(records);
    TopIsPrefix(records);
    RankedSize(records);
    RankedCovers(records, c);
    var k :| 0 <= k < |ranked| && ranked[k].key == c;
    assert TopCommodities(records)[k].commodity == c;
  }
}

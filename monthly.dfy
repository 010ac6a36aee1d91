/** The monthly weight handler: shipments grouped by the label
    `strftime(shipment_date, '%b %Y')`, with `SUM(weight_metric_tonnes * 1000)`
    and `MIN(shipment_date)` per label, ordered by that earliest date, and
    returned without the date. */
module Monthly {
  import opened Wrappers
  import opened Shipments
  import opened Grouping
  import opened Sorting

  // ---------------------------------------------------------------------------
  // Month labels.

  const MonthAbbreviations: seq<string> :=
    ["Jan", "Feb", "Mar", "Apr", "May", "Jun", "Jul", "Aug", "Sep", "Oct", "Nov", "Dec"]

  function DigitChar(d: int): char
    requires 0 <= d <= 9
  {
    ('0' as int + d) as char
  }

  function DigitOf(c: char): int {
    c as int - '0' as int
  }

  predicate IsDigit(c: char) {
    '0' <= c <= '9'
  }

  /** `%Y`: the year as four decimal digits. */
  function YearText(y: Year): (t: string)
    ensures |t| == 4 && forall i :: 0 <= i < 4 ==> IsDigit(t[i])
  {
    var y1 := y / 10;
    var y2 := y1 / 10;
    [DigitChar(y2 / 10), DigitChar(y2 % 10), DigitChar(y1 % 10), DigitChar(y % 10)]
  }

  /** The number four decimal digits write. */
  function FourDigitValue(t: string): int
    requires |t| == 4
  {
    ((DigitOf(t[0]) * 10 + DigitOf(t[1])) * 10 + DigitOf(t[2])) * 10 + DigitOf(t[3])
  }

  lemma YearTextValue(y: Year)
    ensures FourDigitValue(YearText(y)) == y
  {
    var y1 := y / 10;
    var y2 := y1 / 10;
    assert y == y1 * 10 + y % 10;
    assert y1 == y2 * 10 + y1 % 10;
    assert y2 == (y2 / 10) * 10 + y2 % 10;
  }

  /** `strftime(shipment_date::DATE, '%b %Y')`: the English three-letter month
      abbreviation, a space, and the four-digit year. */
  function MonthLabel(d: Date): string {
    MonthAbbreviations[d.month - 1] + " " + YearText(d.year)
  }

  lemma LabelShape(d: Date)
    ensures |MonthLabel(d)| == 8 && MonthLabel(d)[3] == ' '
    ensures MonthLabel(d)[..3] == MonthAbbreviations[d.month - 1]
    ensures MonthLabel(d)[4..] == YearText(d.year)
  {
    assert |MonthAbbreviations[d.month - 1]| == 3;
  }

  /** The month number of an abbreviation, searching from position `from`. */
  function MonthNumber(abbr: string, from: nat): Option<Month>
    decreases 12 - from
  {
    if from >= 12 then None
    else if MonthAbbreviations[from] == abbr then Some(from + 1)
    else MonthNumber(abbr, from + 1)
  }

  /** Reads a label back into its (year, month). */
  function ParseLabel(lbl: string): Option<(Year, Month)> {
    if |lbl| != 8 || lbl[3] != ' ' || !(forall i :: 4 <= i < 8 ==> IsDigit(lbl[i])) then None
    else
      match MonthNumber(lbl[..3], 0)
      case None => None
      case Some(m) =>
        var y := FourDigitValue(lbl[4..]);
        if 0 <= y <= 9999 then Some((y, m)) else None
  }

  lemma AbbreviationsDistinct()
    ensures forall i, j :: 0 <= i < j < 12 ==> MonthAbbreviations[i] != MonthAbbreviations[j]
  {
    forall i, j | 0 <= i < j < 12 ensures MonthAbbreviations[i] != MonthAbbreviations[j] {
      var a, b := MonthAbbreviations[i], MonthAbbreviations[j];
      assert a[0] != b[0] || a[1] != b[1] || a[2] != b[2];
    }
  }

  lemma {:induction false} MonthNumberFinds(m: Month, from: nat)
    requires from <= m - 1
    ensures MonthNumber(MonthAbbreviations[m - 1], from) == Some(m)
    decreases 12 - from
  {
    AbbreviationsDistinct();
    if from < m - 1 {
      MonthNumberFinds(m, from + 1);
    }
  }

  /** A label reads back as the year and month it was made from. */
  lemma LabelRoundTrip(d: Date)
    ensures ParseLabel(MonthLabel(d)) == Some((d.year, d.month))
  {
    var lbl := MonthLabel(d);
    LabelShape(d);
    MonthNumberFinds(d.month, 0);
    YearTextValue(d.year);
    assert forall i :: 4 <= i < 8 ==> lbl[i] == lbl[4..][i - 4];
  }

  /** Two dates share a label exactly when they fall in the same month of the
      same year, so one label never stands for two months. */
  lemma LabelsIdentifyMonths(a: Date, b: Date)
    ensures MonthLabel(a) == MonthLabel(b) <==> a.year == b.year && a.month == b.month
  {
    LabelRoundTrip(a);
    LabelRoundTrip(b);
  }

  // ---------------------------------------------------------------------------
  // Chronological order.

  /** Calendar order on dates (`MIN` and `ORDER BY` on the date column). */
  predicate DateLe(a: Date, b: Date) {
    a.year < b.year || (a.year == b.year && (a.month < b.month || (a.month == b.month && a.day <= b.day)))
  }

  /** (year, month) strictly before (year, month). */
  predicate MonthBefore(a: (Year, Month), b: (Year, Month)) {
    a.0 < b.0 || (a.0 == b.0 && a.1 < b.1)
  }

  predicate InMonth(records: seq<Shipment>, lbl: string) {
    exists i :: 0 <= i < |records| && MonthLabel(records[i].shipmentDate) == lbl
  }

  /** `MIN(shipment_date)` over the shipments labelled `lbl`. (A label with no
      shipment has no group; the date returned for it is of no use.) */
  function Earliest(records: seq<Shipment>, lbl: string): Date {
    if records == [] then Date(0, 1, 1)
    else
      var last := records[|records| - 1];
      var e := Earliest(records[..|records| - 1], lbl);
      if MonthLabel(last.shipmentDate) != lbl then e
      else if !InMonth(records[..|records| - 1], lbl) then last.shipmentDate
      else if DateLe(e, last.shipmentDate) then e
      else last.shipmentDate
  }

  lemma InMonthInit(records: seq<Shipment>, lbl: string)
    requires records != []
    ensures InMonth(records, lbl) <==>
              InMonth(records[..|records| - 1], lbl) || MonthLabel(records[|records| - 1].shipmentDate) == lbl
  {
    var init := records[..|records| - 1];
    assert forall i :: 0 <= i < |init| ==> init[i] == records[i];
  }

  /** The earliest date of a month that occurs is the date of one of its
      shipments. */
  lemma {:induction false} EarliestOccurs(records: seq<Shipment>, lbl: string)
    requires InMonth(records, lbl)
    ensures exists i :: 0 <= i < |records| && records[i].shipmentDate == Earliest(records, lbl)
              && MonthLabel(records[i].shipmentDate) == lbl
  {
    var init := records[..|records| - 1];
    var n := |records| - 1;
    InMonthInit(records, lbl);
    if InMonth(init, lbl) {
      EarliestOccurs(init, lbl);
      var i :| 0 <= i < |init| && init[i].shipmentDate == Earliest(init, lbl) && MonthLabel(init[i].shipmentDate) == lbl;
      assert records[i] == init[i];
      if !(MonthLabel(records[n].shipmentDate) == lbl && !DateLe(Earliest(init, lbl), records[n].shipmentDate)) {
        assert records[i].shipmentDate == Earliest(records, lbl);
      }
    }
  }

  lemma DateLeTotal(a: Date, b: Date)
    ensures DateLe(a, b) || DateLe(b, a)
  {
  }

  lemma DateLeTransitive(a: Date, b: Date, c: Date)
    requires DateLe(a, b) && DateLe(b, c)
    ensures DateLe(a, c)
  {
  }

  /** Adding a shipment never makes a month's earliest date later. */
  lemma EarliestStep(records: seq<Shipment>, lbl: string)
    requires records != [] && InMonth(records[..|records| - 1], lbl)
    ensures DateLe(Earliest(records, lbl), Earliest(records[..|records| - 1], lbl))
  {
    var e := Earliest(records[..|records| - 1], lbl);
    DateLeTotal(e, records[|records| - 1].shipmentDate);
  }

  /** The last shipment of the month is no earlier than the earliest date. */
  lemma EarliestAtLast(records: seq<Shipment>, lbl: string)
    requires records != [] && MonthLabel(records[|records| - 1].shipmentDate) == lbl
    ensures DateLe(Earliest(records, lbl), records[|records| - 1].shipmentDate)
  {
  }

  /** No shipment of the month is dated before its earliest date. */
  lemma {:induction false} EarliestIsLeast(records: seq<Shipment>, lbl: string, k: nat)
    requires k < |records| && MonthLabel(records[k].shipmentDate) == lbl
    ensures DateLe(Earliest(records, lbl), records[k].shipmentDate)
  {
    var init := records[..|records| - 1];
    if k < |init| {
      assert init[k] == records[k];
      assert InMonth(init, lbl);
      EarliestIsLeast(init, lbl, k);
      EarliestStep(records, lbl);
      DateLeTransitive(Earliest(records, lbl), Earliest(init, lbl), records[k].shipmentDate);
    } else {
      EarliestAtLast(records, lbl);
    }
  }

  lemma EarliestLabel(records: seq<Shipment>, lbl: string)
    requires InMonth(records, lbl)
    ensures MonthLabel(Earliest(records, lbl)) == lbl
  {
    EarliestOccurs(records, lbl);
  }

  // ---------------------------------------------------------------------------
  // The query.

  /** `SELECT strftime(...) AS month, weight_metric_tonnes * 1000 FROM shipments`. */
  function MonthRows(records: seq<Shipment>): (rows: seq<(string, nat)>)
    ensures |rows| == |records|
    ensures forall i :: 0 <= i < |records| ==>
              rows[i] == (MonthLabel(records[i].shipmentDate), KilogramsPerTonne * records[i].weightTonnes)
  {
    seq(|records|, i requires 0 <= i < |records| =>
      (MonthLabel(records[i].shipmentDate), KilogramsPerTonne * records[i].weightTonnes))
  }

  /** The query's row before projection: label, kilograms and `min_date`. */
  datatype MonthGroup = MonthGroup(month: string, kg: nat, minDate: Date)

  function MonthGroups(records: seq<Shipment>): seq<MonthGroup> {
    var g := GroupBy(MonthRows(records));
    seq(|g|, i requires 0 <= i < |g| => MonthGroup(g[i].key, g[i].sum, Earliest(records, g[i].key)))
  }

  /** `ORDER BY min_date`. */
  predicate EarlierGroup(a: MonthGroup, b: MonthGroup) {
    DateLe(a.minDate, b.minDate)
  }

  function GroupLabel(m: MonthGroup): string {
    m.month
  }

  /** `GET /api/analytics/monthly`: the groups in order of their earliest date,
      keeping only `month` and `kg`. */
  function MonthlySeries(records: seq<Shipment>): seq<MonthlyWeight> {
    var sorted := Sort(MonthGroups(records), EarlierGroup);
    seq(|sorted|, i requires 0 <= i < |sorted| => MonthlyWeight(sorted[i].month, sorted[i].kg))
  }

  /** Total tonnes shipped in the month labelled `label`. */
  function MonthTonnes(records: seq<Shipment>, lbl: string): nat {
    if records == [] then 0
    else
      var last := records[|records| - 1];
      MonthTonnes(records[..|records| - 1], lbl) + (if MonthLabel(last.shipmentDate) == lbl then last.weightTonnes else 0)
  }

  lemma {:induction false} MonthRowsSum(records: seq<Shipment>, lbl: string)
    ensures SumOf(MonthRows(records), lbl) == KilogramsPerTonne * MonthTonnes(records, lbl)
  {
    if records != [] {
      var init := records[..|records| - 1];
      assert MonthRows(records)[..|records| - 1] == MonthRows(init);
      MonthRowsSum(init, lbl);
    }
  }

  /** Each group stands for a month that occurs, weighs 1000 times that
      month's tonnes and carries that month's earliest date. */
  lemma MonthGroupAt(records: seq<Shipment>, j: nat)
    requires j < |MonthGroups(records)|
    ensures InMonth(records, MonthGroups(records)[j].month)
    ensures MonthGroups(records)[j].kg == KilogramsPerTonne * MonthTonnes(records, MonthGroups(records)[j].month)
    ensures MonthGroups(records)[j].minDate == Earliest(records, MonthGroups(records)[j].month)
  {
    var rows := MonthRows(records);
    var g := GroupBy(rows);
    GroupAt(rows, j);
    var lbl := g[j].key;
    var i :| 0 <= i < |rows| && rows[i].0 == lbl;
    assert MonthLabel(records[i].shipmentDate) == lbl;
    MonthRowsSum(records, lbl);
  }

  /** Every shipment's month has a group. */
  lemma MonthGroupsCover(records: seq<Shipment>, k: nat)
    requires k < |records|
    ensures exists j :: 0 <= j < |MonthGroups(records)| && MonthGroups(records)[j].month == MonthLabel(records[k].shipmentDate)
  {
    var rows := MonthRows(records);
    var g := GroupBy(rows);
    GroupBySpec(rows);
    assert rows[k].0 == MonthLabel(records[k].shipmentDate);
    assert Occurs(rows, rows[k].0);
    var j :| 0 <= j < |g| && g[j].key == rows[k].0;
    assert MonthGroups(records)[j].month == g[j].key;
  }

  /** No two groups share a label. */
  lemma MonthGroupsDistinct(records: seq<Shipment>)
    ensures DistinctBy(MonthGroups(records), GroupLabel)
  {
    var rows := MonthRows(records);
    GroupBySpec(rows);
    var ms := MonthGroups(records);
    assert forall j :: 0 <= j < |ms| ==> GroupLabel(ms[j]) == GroupBy(rows)[j].key;
  }

  /** The sorted groups are in order of earliest date and keep their labels
      distinct. */
  lemma SortedGroupsSpec(records: seq<Shipment>)
    ensures SortedBy(Sort(MonthGroups(records), EarlierGroup), EarlierGroup)
    ensures DistinctBy(Sort(MonthGroups(records), EarlierGroup), GroupLabel)
    ensures forall m :: m in Sort(MonthGroups(records), EarlierGroup) <==> m in MonthGroups(records)
  {
    MonthGroupsDistinct(records);
    SortSorted(MonthGroups(records), EarlierGroup);
    SortDistinct(MonthGroups(records), EarlierGroup, GroupLabel);
    SortSameElements(MonthGroups(records), EarlierGroup);
  }

  /** Each returned row is one of the groups with its date dropped. */
  lemma SeriesRowIsGroup(records: seq<Shipment>, j: nat)
    requires j < |MonthlySeries(records)|
    ensures exists m :: m in MonthGroups(records)
              && MonthlySeries(records)[j] == MonthlyWeight(m.month, m.kg)
              && Earliest(records, m.month) == Sort(MonthGroups(records), EarlierGroup)[j].minDate
  {
    var sorted := Sort(MonthGroups(records), EarlierGroup);
    SortedGroupsSpec(records);
    var m := sorted[j];
    assert m in sorted;
    var i :| 0 <= i < |MonthGroups(records)| && MonthGroups(records)[i] == m;
    MonthGroupAt(records, i);
  }

  /** The rows of the series: each for a month that occurs, weighing 1000 times
      that month's tonnes. */
  lemma MonthlySeriesWeights(records: seq<Shipment>, j: nat)
    requires j < |MonthlySeries(records)|
    ensures InMonth(records, MonthlySeries(records)[j].month)
    ensures MonthlySeries(records)[j].kg == KilogramsPerTonne * MonthTonnes(records, MonthlySeries(records)[j].month)
  {
    SeriesRowIsGroup(records, j);
    var m :| m in MonthGroups(records) && MonthlySeries(records)[j] == MonthlyWeight(m.month, m.kg)
             && Earliest(records, m.month) == Sort(MonthGroups(records), EarlierGroup)[j].minDate;
    var i :| 0 <= i < |MonthGroups(records)| && MonthGroups(records)[i] == m;
    MonthGroupAt(records, i);
  }

  /** Every shipment's month appears in the series. */
  lemma MonthlySeriesCovers(records: seq<Shipment>, k: nat)
    requires k < |records|
    ensures exists j :: 0 <= j < |MonthlySeries(records)| && MonthlySeries(records)[j].month == MonthLabel(records[k].shipmentDate)
  {
    var sorted := Sort(MonthGroups(records), EarlierGroup);
    MonthGroupsCover(records, k);
    var i :| 0 <= i < |MonthGroups(records)| && MonthGroups(records)[i].month == MonthLabel(records[k].shipmentDate);
    SortedGroupsSpec(records);
    assert MonthGroups(records)[i] in sorted;
    var j :| 0 <= j < |sorted| && sorted[j] == MonthGroups(records)[i];
    assert MonthlySeries(records)[j].month == sorted[j].month;
  }

  /** The series is strictly increasing by each month's earliest shipment date,
      and so lists no month twice. */
  lemma MonthlySeriesOrdered(records: seq<Shipment>, i: nat, j: nat)
    requires i < j < |MonthlySeries(records)|
    ensures MonthlySeries(records)[i].month != MonthlySeries(records)[j].month
    ensures DateLe(Earliest(records, MonthlySeries(records)[i].month), Earliest(records, MonthlySeries(records)[j].month))
    ensures Earliest(records, MonthlySeries(records)[i].month) != Earliest(records, MonthlySeries(records)[j].month)
  {
    var sorted := Sort(MonthGroups(records), EarlierGroup);
    var r := MonthlySeries(records);
    SortedGroupsSpec(records);
    assert GroupLabel(sorted[i]) != GroupLabel(sorted[j]);
    assert EarlierGroup(sorted[i], sorted[j]);
    SeriesRowIsGroup(records, i);
    SeriesRowIsGroup(records, j);
    MonthlySeriesWeights(records, i);
    MonthlySeriesWeights(records, j);
    EarliestLabel(records, r[i].month);
    EarliestLabel(records, r[j].month);
  }

  /** Ordering by earliest date is ordering by (year, month): each row's label
      reads back as a month strictly after the previous row's, so for example
      "Dec 2023" comes before "Jan 2024" although "D" sorts after "J". */
  lemma MonthlySeriesChronological(records: seq<Shipment>, i: nat, j: nat)
    requires i < j < |MonthlySeries(records)|
    ensures ParseLabel(MonthlySeries(records)[i].month).Some?
    ensures ParseLabel(MonthlySeries(records)[j].month).Some?
    ensures MonthBefore(ParseLabel(MonthlySeries(records)[i].month).value, ParseLabel(MonthlySeries(records)[j].month).value)
  {
    var r := MonthlySeries(records);
    MonthlySeriesOrdered(records, i, j);
    MonthlySeriesWeights(records, i);
    MonthlySeriesWeights(records, j);
    var a, b := Earliest(records, r[i].month), Earliest(records, r[j].month);
    EarliestLabel(records, r[i].month);
    EarliestLabel(records, r[j].month);
    LabelRoundTrip(a);
    LabelRoundTrip(b);
    LabelsIdentifyMonths(a, b);
  }

  lemma December2023Label()
    ensures ParseLabel("Dec 2023") == Some((2023, 12))
  {
    var d := Date(2023, 12, 1);
    assert YearText(2023) == "2023";
    assert MonthLabel(d) == "Dec 2023";
    LabelRoundTrip(d);
  }

  lemma January2024Label()
    ensures ParseLabel("Jan 2024") == Some((2024, 1))
  {
    var d := Date(2024, 1, 1);
    assert YearText(2024) == "2024";
    assert MonthLabel(d) == "Jan 2024";
    LabelRoundTrip(d);
  }

  /** Both labels read back, the first as a month strictly before the second. */
  predicate LabelsInOrder(x: string, y: string) {
    ParseLabel(x).Some? && ParseLabel(y).Some? && MonthBefore(ParseLabel(x).value, ParseLabel(y).value)
  }

  /** Rows whose labels read back as strictly increasing months. */
  predicate Chronological(rows: seq<MonthlyWeight>) {
    forall i, j :: 0 <= i < j < |rows| ==> LabelsInOrder(rows[i].month, rows[j].month)
  }

  lemma SeriesIsChronological(records: seq<Shipment>)
    ensures Chronological(MonthlySeries(records))
  {
    var rows := MonthlySeries(records);
    forall i, j | 0 <= i < j < |rows|
      ensures LabelsInOrder(rows[i].month, rows[j].month)
    {
      MonthlySeriesChronological(records, i, j);
    }
  }

  /** In chronological rows, a row whose label reads as an earlier month comes
      first. */
  lemma EarlierMonthFirst(rows: seq<MonthlyWeight>, i: nat, j: nat, a: (Year, Month), b: (Year, Month))
    requires Chronological(rows)
    requires i < |rows| && j < |rows|
    requires ParseLabel(rows[i].month) == Some(a) && ParseLabel(rows[j].month) == Some(b)
    ensures MonthBefore(a, b) ==> i < j
  {
    if j < i {
      assert LabelsInOrder(rows[j].month, rows[i].month);
    }
  }

  /** For example, a December 2023 row always precedes a January 2024 row,
      although "D" sorts after "J". */
  lemma DecemberBeforeJanuary(records: seq<Shipment>, i: nat, j: nat)
    requires i < |MonthlySeries(records)| && j < |MonthlySeries(records)|
    requires MonthlySeries(records)[i].month == "Dec 2023"
    requires MonthlySeries(records)[j].month == "Jan 2024"
    ensures i < j
  {
    December2023Label();
    January2024Label();
    SeriesIsChronological(records);
    EarlierMonthFirst(MonthlySeries(records), i, j, (2023, 12), (2024, 1));
  }
}

/** The country list handler: every importer and exporter country, each once,
    in ascending order, with empty names dropped. */
module Countries {
  import opened Shipments
  import opened Grouping
  import opened Sorting
  import opened Text

  /** The two sides of the `UNION`: importer countries, then exporter countries. */
  function CountryColumn(records: seq<Shipment>): (cs: seq<string>)
    ensures |cs| == 2 * |records|
    ensures forall c :: c in cs <==> exists i :: 0 <= i < |records| && (records[i].importerCountry == c || records[i].exporterCountry == c)
  {
    var importers := seq(|records|, i requires 0 <= i < |records| => records[i].importerCountry);
    var exporters := seq(|records|, i requires 0 <= i < |records| => records[i].exporterCountry);
    assert forall i :: 0 <= i < |records| ==> importers[i] == records[i].importerCountry && exporters[i] == records[i].exporterCountry;
    importers + exporters
  }

  /** `.filter(Boolean)` on strings: keeps the non-empty ones, in order. */
  function DropEmpty(xs: seq<string>): (r: seq<string>)
    ensures |r| <= |xs|
    ensures forall c :: c in r <==> c in xs && c != ""
  {
    if xs == [] then []
    else if xs[0] == "" then DropEmpty(xs[1..])
    else [xs[0]] + DropEmpty(xs[1..])
  }

  /** `GET /api/companies/countries`. */
  function CountryList(records: seq<Shipment>): seq<string> {
    DropEmpty(Sort(Distinct(CountryColumn(records)), StrLe))
  }

  /** Strictly before in code-point order. */
  predicate StrLt(a: string, b: string) {
    StrLe(a, b) && a != b
  }

  /** Dropping elements keeps any order between the ones that remain. */
  lemma {:induction false} DropEmptyKeepsOrder(xs: seq<string>, lt: (string, string) -> bool)
    requires SortedBy(xs, lt)
    ensures SortedBy(DropEmpty(xs), lt)
  {
    if xs != [] {
      var tail := xs[1..];
      assert SortedBy(tail, lt) by {
        forall i, j | 0 <= i < j < |tail| ensures lt(tail[i], tail[j]) {
          assert tail[i] == xs[i + 1] && tail[j] == xs[j + 1];
        }
      }
      DropEmptyKeepsOrder(tail, lt);
      forall c | c in DropEmpty(tail) ensures lt(xs[0], c) {
        var j :| 0 <= j < |tail| && tail[j] == c;
        assert xs[j + 1] == c;
      }
    }
  }

  lemma StrLeIsOrder()
    ensures Total(StrLe) && Transitive(StrLe)
  {
    forall a, b ensures StrLe(a, b) || StrLe(b, a) {
      StrLeTotal(a, b);
    }
    forall a, b, c | StrLe(a, b) && StrLe(b, c) ensures StrLe(a, c) {
      StrLeTransitive(a, b, c);
    }
  }

  /** The distinct countries, sorted, are strictly ascending. */
  lemma SortedCountriesAscending(records: seq<Shipment>)
    ensures SortedBy(Sort(Distinct(CountryColumn(records)), StrLe), StrLt)
  {
    var d := Distinct(CountryColumn(records));
    var s := Sort(d, StrLe);
    StrLeIsOrder();
    SortSorted(d, StrLe);
    SortDistinct(d, StrLe, (c: string) => c);
    forall i, j | 0 <= i < j < |s| ensures StrLt(s[i], s[j]) {
    }
  }

  /** What the handler returns: a country is listed exactly when it is
      non-empty and some shipment has it as importer or exporter country; the
      list is strictly ascending, so no country appears twice. */
  lemma CountryListSpec(records: seq<Shipment>)
    ensures forall c :: c in CountryList(records) <==>
              c != "" && exists i :: 0 <= i < |records| && (records[i].importerCountry == c || records[i].exporterCountry == c)
    ensures SortedBy(CountryList(records), StrLt)
    ensures "" !in CountryList(records)
  {
    var s := Sort(Distinct(CountryColumn(records)), StrLe);
    SortSameElements(Distinct(CountryColumn(records)), StrLe);
    SortedCountriesAscending(records);
    DropEmptyKeepsOrder(s, StrLt);
  }

  /** A country appearing on both sides of a trade, or in many shipments, is
      listed once. */
  lemma CountryListedOnce(records: seq<Shipment>, i: nat, j: nat)
    requires i < j < |CountryList(records)|
    ensures CountryList(records)[i] != CountryList(records)[j]
  {
    CountryListSpec(records);
  }
}

/** The global statistics handler: `COUNT(DISTINCT importer_name)` and
    `COUNT(DISTINCT exporter_name)` over every shipment, with no filter and no
    paging input. */
module Stats {
  import opened Shipments

  /** The distinct names seen in role `r`. */
  function Names(records: seq<Shipment>, r: Role): set<string> {
    set i | 0 <= i < |records| :: PartyName(records[i], r)
  }

  /** Appending a shipment adds its name to the names seen. */
  lemma NamesAppend(records: seq<Shipment>, s: Shipment, r: Role)
    ensures Names(records + [s], r) == Names(records, r) + {PartyName(s, r)}
  {
    var more := records + [s];
    forall n | n in Names(more, r) ensures n in Names(records, r) + {PartyName(s, r)} {
      var i :| 0 <= i < |more| && PartyName(more[i], r) == n;
      if i < |records| { assert more[i] == records[i]; }
    }
    forall n | n in Names(records, r) ensures n in Names(more, r) {
      var i :| 0 <= i < |records| && PartyName(records[i], r) == n;
      assert more[i] == records[i];
    }
    assert PartyName(more[|records|], r) in Names(more, r);
  }

  /** There are never more distinct names than shipments, and at least one when
      there is a shipment. */
  lemma {:induction false} NamesBound(records: seq<Shipment>, r: Role)
    ensures |Names(records, r)| <= |records|
    ensures |records| > 0 ==> |Names(records, r)| >= 1
  {
    if records != [] {
      var init := records[..|records| - 1];
      NamesBound(init, r);
      assert records == init + [records[|records| - 1]];
      NamesAppend(init, records[|records| - 1], r);
    }
  }

  /** `GET /api/analytics/stats`: each total is the number of distinct names in
      its own column, at most the number of shipments and at least one when
      there is a shipment. */
  function GetStats(records: seq<Shipment>): (s: GlobalStats)
    ensures s.totalImporters == |set i | 0 <= i < |records| :: records[i].importerName|
    ensures s.totalExporters == |set i | 0 <= i < |records| :: records[i].exporterName|
    ensures s.totalImporters <= |records| && s.totalExporters <= |records|
    ensures |records| > 0 ==> s.totalImporters >= 1 && s.totalExporters >= 1
  {
    NamesBound(records, Importer);
    NamesBound(records, Exporter);
    assert Names(records, Importer) == set i | 0 <= i < |records| :: records[i].importerName;
    assert Names(records, Exporter) == set i | 0 <= i < |records| :: records[i].exporterName;
    GlobalStats(|Names(records, Importer)|, |Names(records, Exporter)|)
  }

  lemma ImporterTotal(records: seq<Shipment>)
    ensures GetStats(records).totalImporters == |Names(records, Importer)|
  {
  }

  lemma ExporterTotal(records: seq<Shipment>)
    ensures GetStats(records).totalExporters == |Names(records, Exporter)|
  {
  }

  /** One more shipment from a known importer leaves the importer total
      alone. */
  lemma KnownImporterUnchanged(records: seq<Shipment>, s: Shipment, k: nat)
    requires k < |records| && records[k].importerName == s.importerName
    ensures GetStats(records + [s]).totalImporters == GetStats(records).totalImporters
  {
    ImporterTotal(records);
    ImporterTotal(records + [s]);
    NamesAppend(records, s, Importer);
    assert PartyName(records[k], Importer) in Names(records, Importer);
    assert Names(records, Importer) + {PartyName(s, Importer)} == Names(records, Importer);
  }

  /** One more shipment from a new importer adds one to the importer total. */
  lemma NewImporterAddsOne(records: seq<Shipment>, s: Shipment)
    requires forall i :: 0 <= i < |records| ==> records[i].importerName != s.importerName
    ensures GetStats(records + [s]).totalImporters == GetStats(records).totalImporters + 1
  {
    ImporterTotal(records);
    ImporterTotal(records + [s]);
    NamesAppend(records, s, Importer);
    assert PartyName(s, Importer) !in Names(records, Importer);
  }

  /** The importer total reads only importer names: two record lists that agree
      on them agree on the total, whatever their exporters. */
  lemma ImportersIndependentOfExporters(a: seq<Shipment>, b: seq<Shipment>)
    requires |a| == |b|
    requires forall i :: 0 <= i < |a| ==> a[i].importerName == b[i].importerName
    ensures GetStats(a).totalImporters == GetStats(b).totalImporters
  {
    assert Names(a, Importer) == Names(b, Importer);
  }

  /** A new party trading with itself counts once in each total: one more
      shipment from it adds 1 to the importer total and 1 to the exporter
      total. */
  lemma SelfTradeCountsInBothTotals(records: seq<Shipment>, s: Shipment)
    requires s.importerName == s.exporterName
    requires forall i :: 0 <= i < |records| ==>
               records[i].importerName != s.importerName && records[i].exporterName != s.exporterName
    ensures GetStats(records + [s])
            == GlobalStats(GetStats(records).totalImporters + 1, GetStats(records).totalExporters + 1)
  {
    ImporterTotal(records);
    ImporterTotal(records + [s]);
    ExporterTotal(records);
    ExporterTotal(records + [s]);
    NamesAppend(records, s, Importer);
    NamesAppend(records, s, Exporter);
    assert PartyName(s, Importer) !in Names(records, Importer);
    assert PartyName(s, Exporter) !in Names(records, Exporter);
  }

  /** The totals depend on the set of shipments only, not on their order. */
  lemma StatsIgnoreOrder(a: seq<Shipment>, b: seq<Shipment>)
    requires multiset(a) == multiset(b)
    ensures GetStats(a) == GetStats(b)
  {
    forall r: Role ensures Names(a, r) == Names(b, r) {
      forall n ensures n in Names(a, r) <==> n in Names(b, r) {
        if n in Names(a, r) {
          var i :| 0 <= i < |a| && PartyName(a[i], r) == n;
          assert a[i] in multiset(b);
          var j :| 0 <= j < |b| && b[j] == a[i];
        }
        if n in Names(b, r) {
          var j :| 0 <= j < |b| && PartyName(b[j], r) == n;
          assert b[j] in multiset(a);
          var i :| 0 <= i < |a| && a[i] == b[j];
        }
      }
    }
  }
}

/** The shipment record store's row and the shapes the handlers return. */
module Shipments {
  import opened Wrappers

  /** The role in which a party takes part in a shipment. */
  datatype Role = Importer | Exporter

  /** The `role` column value written by the listing query. */
  function RoleName(r: Role): string {
    match r
    case Importer => "importer"
    case Exporter => "exporter"
  }

  type Year = y: int | 0 <= y <= 9999
  type Month = m: int | 1 <= m <= 12 witness 1
  type Day = d: int | 1 <= d <= 31 witness 1

  /** A calendar date, as `shipment_date::DATE` reads the stored date. */
  datatype Date = Date(year: Year, month: Month, day: Day)

  /** One shipment record. Weights are whole metric tonnes. */
  datatype Shipment = Shipment(
    importerName: string,
    importerCountry: string,
    importerWebsite: Option<string>,
    exporterName: string,
    exporterCountry: string,
    exporterWebsite: Option<string>,
    commodityName: string,
    weightTonnes: nat,
    shipmentDate: Date)

  /** The name of the party in role `r`. */
  function PartyName(s: Shipment, r: Role): string {
    match r
    case Importer => s.importerName
    case Exporter => s.exporterName
  }

  /** The country of the party in role `r`. */
  function PartyCountry(s: Shipment, r: Role): string {
    match r
    case Importer => s.importerCountry
    case Exporter => s.exporterCountry
  }

  /** One row of the company listing: a (name, country, role) group. */
  datatype Company = Company(
    name: string,
    country: string,
    role: Role,
    totalShipments: nat,
    totalWeight: nat)

  datatype TopCommodity = TopCommodity(commodity: string, kg: nat)

  datatype MonthlyWeight = MonthlyWeight(month: string, kg: nat)

  datatype GlobalStats = GlobalStats(totalImporters: nat, totalExporters: nat)

  const KilogramsPerTonne: nat := 1000
}

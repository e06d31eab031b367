/**
 * The order rows the export builder receives (extension/background.js) and
 * the values it reads from them. The page scraper fills every field with
 * text, the empty string when the page had nothing, so "" stands for an
 * absent field throughout.
 */
module Orders {
  import opened Wrappers
  import opened Text
  import opened Numbers
  import opened Names

  /** One purchased line of an order, with its Scryfall enrichment. */
  datatype OrderRow = OrderRow(
    orderId: string,
    itemName: string,
    collectorNumber: string,
    qty: string,
    priceItemRaw: string,
    priceItem: string,
    summaryShippingRaw: string,
    foil: string,
    condition: string,
    setCode: string,
    scryfallId: string,
    scryfallName: string,
    scryfallLang: string)

  /** `parseNumberLoose` on a text field. */
  function Loose(s: string): Option<real> {
    ParseNumberLoose(Str(s))
  }

  /** `parseNumberLoose(r.qty) ?? 1`. */
  function QtyOf(r: OrderRow): (q: real)
    ensures AllWs(r.qty) ==> q == 1.0
    ensures Loose(r.qty) == Some(q) || (Loose(r.qty) == None && q == 1.0)
  {
    Loose(r.qty).GetOr(1.0)
  }

  /** `parseNumberLoose(r.summaryShippingRaw) ?? 0`. */
  function ShipOf(r: OrderRow): (ship: real)
    ensures AllWs(r.summaryShippingRaw) ==> ship == 0.0
    ensures Loose(r.summaryShippingRaw) == Some(ship) || (Loose(r.summaryShippingRaw) == None && ship == 0.0)
  {
    Loose(r.summaryShippingRaw).GetOr(0.0)
  }

  /** The raw price attribute, or else the displayed price, when either reads as a number. */
  function BaseUnitOf(r: OrderRow): (b: Option<real>)
    ensures Loose(r.priceItemRaw).Some? ==> b == Loose(r.priceItemRaw)
    ensures Loose(r.priceItemRaw).None? ==> b == Loose(r.priceItem)
    ensures b.None? <==> Loose(r.priceItemRaw).None? && Loose(r.priceItem).None?
  {
    match Loose(r.priceItemRaw)
    case Some(x) => Some(x)
    case None => Loose(r.priceItem)
  }

  /** The line key: cleaned item name and collector number, joined by "||". */
  function LineKey(r: OrderRow): (k: string)
    ensures var name := CleanDisplayName(r.itemName);
      && |k| == |name| + 2 + |r.collectorNumber|
      && k[..|name|] == name
      && k[|name|..|name| + 2] == "||"
      && k[|name| + 2..] == r.collectorNumber
  {
    CleanDisplayName(r.itemName) + "||" + r.collectorNumber
  }

  /** The line key keeps the collector number: equal keys of equally named items mean equal numbers. */
  lemma LineKeyNumber(a: OrderRow, b: OrderRow)
    ensures CleanDisplayName(a.itemName) == CleanDisplayName(b.itemName) ==>
      (LineKey(a) == LineKey(b) <==> a.collectorNumber == b.collectorNumber)
  {
    if CleanDisplayName(a.itemName) == CleanDisplayName(b.itemName) && LineKey(a) == LineKey(b) {
      var p := CleanDisplayName(a.itemName) + "||";
      assert LineKey(a) == p + a.collectorNumber && LineKey(b) == p + b.collectorNumber;
      assert a.collectorNumber == LineKey(a)[|p|..];
    }
  }

  /** A version marker does not separate two lines: "Ponder (v.12)" and "Ponder" share a key. */
  lemma LineKeyIgnoresMarker(a: OrderRow, b: OrderRow)
    requires a.itemName == "Ponder (v.12)" && b.itemName == "Ponder"
    requires a.collectorNumber == b.collectorNumber
    ensures LineKey(a) == LineKey(b)
  {
    PonderNames();
    LineKeyNumber(a, b);
  }

  lemma PonderNames()
    ensures CleanDisplayName("Ponder (v.12)") == CleanDisplayName("Ponder")
  {
    CleanExampleV();
    CleanWithoutMarker("Ponder");
    TrimOfTrimmed("Ponder");
  }
}

/**
 * `buildManaBoxCsv` (extension/background.js): one ManaBox import record
 * per order row, with the row's purchase price raised by its share of the
 * order's shipping, written by `buildCsv` under the ManaBox column names.
 * The shipping mode is text, "" standing for an absent mode.
 */
module ManaBox {
  import opened Wrappers
  import opened Text
  import opened Numbers
  import opened Names
  import opened CsvFormat
  import opened ExportCsv
  import opened Orders
  import opened Shipping

  /** The ManaBox columns, in the order they are written. */
  const Columns: seq<string> := [
    "Card name",
    "Set code",
    "Quantity",
    "Foil",
    "Card number",
    "Language",
    "Condition",
    "Purchase price",
    "Purchase currency",
    "Scryfall ID",
    "Import error"
  ]

  /** `shippingMode || 'none'`: the mode the allocation is computed for. */
  function EffectiveMode(mode: string): (m: string)
    ensures m != ""
    ensures mode != "" ==> m == mode
    ensures mode == "" ==> m == "none"
  {
    if mode == "" then "none" else mode
  }

  /** The Scryfall name when it is not blank, else the cleaned display name. */
  function CardName(r: OrderRow): (n: string)
    ensures Trimmed(n)
    ensures Trim(r.scryfallName) != "" ==> n == Trim(r.scryfallName)
    ensures Trim(r.scryfallName) == "" ==> n == CleanDisplayName(r.itemName)
  {
    var s := Trim(r.scryfallName);
    if s != "" then s else CleanDisplayName(r.itemName)
  }

  /** The number 1, written `1`. */
  const One: Decimal := Decimal(1, 0)

  /** The quantity read from the row when it is a positive number, else 1. */
  function Quantity(read: Option<Decimal>): (q: Decimal)
    ensures q.Value() > 0.0
    ensures q.Value() == if read.Some? && read.value.Value() > 0.0 then read.value.Value() else 1.0
  {
    assert One.Value() == 1.0 by {
      assert Pow10(0) == 1;
    }
    match read
    case Some(d) => if d.Value() > 0.0 then d else One
    case None => One
  }

  /** The quantity cell: `String` of the quantity, never empty and never negative. */
  function QuantityText(qty: string): (s: string)
    ensures s != [] && s[0] != '-'
  {
    NumberToString(Quantity(LooseDecimal(qty)))
  }

  /** "foil" when the row's foil text lower-cases to "foil", else "normal". */
  function FoilText(foil: string): (f: string)
    ensures f == "foil" || f == "normal"
  {
    if AsciiLower(if foil == "" then "normal" else foil) == "foil" then "foil" else "normal"
  }

  /**
   * The shipping one card of the row bears: none without a mode or with
   * "none", or when the allocation has no entry for the row's order; the
   * order's equal share in "equal"; the share stored under the row's line
   * key in "proportional".
   */
  function ShipShare(r: OrderRow, alloc: map<string, Allocation>, mode: string): (share: real)
    ensures mode != "equal" && mode != "proportional" ==> share == 0.0
    ensures r.orderId !in alloc ==> share == 0.0
    ensures mode == "equal" && r.orderId in alloc ==> share == alloc[r.orderId].perCardEqual
    ensures mode == "proportional" && r.orderId in alloc ==>
      share == Lookup(alloc[r.orderId].perLinePerCard, LineKey(r))
    ensures mode == "proportional" && r.orderId in alloc && LineKey(r) !in alloc[r.orderId].perLinePerCard ==>
      share == 0.0
  {
    if mode == "" || mode == "none" || r.orderId !in alloc then 0.0
    else if mode == "equal" then alloc[r.orderId].perCardEqual
    else if mode == "proportional" then Lookup(alloc[r.orderId].perLinePerCard, LineKey(r))
    else 0.0
  }

  /** The purchase price: base price plus shipping share, formatted; empty without a base price. */
  function PriceText(base: Option<real>, share: real): (p: string)
    ensures p == "" <==> base.None?
  {
    match base
    case Some(b) => FormatPrice(Finite(b + share))
    case None => ""
  }

  /** The texts of one record, in column order. */
  function Cells(r: OrderRow, alloc: map<string, Allocation>, mode: string): (c: seq<string>)
    ensures |c| == |Columns|
    ensures Columns[0] == "Card name" && c[0] == CardName(r)
    ensures Columns[1] == "Set code" && c[1] == AsciiLower(Trim(r.setCode))
    ensures Columns[2] == "Quantity" && c[2] == QuantityText(r.qty)
    ensures Columns[3] == "Foil" && c[3] == FoilText(r.foil) && (c[3] == "foil" || c[3] == "normal")
    ensures Columns[4] == "Card number" && c[4] == Trim(r.collectorNumber)
    ensures Columns[5] == "Language" && c[5] == AsciiLower(Trim(r.scryfallLang))
    ensures Columns[6] == "Condition" && c[6] == Trim(r.condition)
    ensures Columns[7] == "Purchase price" && c[7] == PriceText(BaseUnitOf(r), ShipShare(r, alloc, mode))
      && (c[7] == "" <==> BaseUnitOf(r).None?)
    ensures Columns[8] == "Purchase currency" && c[8] == "EUR"
    ensures Columns[9] == "Scryfall ID" && c[9] == Trim(r.scryfallId)
    ensures Columns[10] == "Import error" && c[10] == ""
  {
    ColumnNames();
    var foil := FoilText(r.foil);
    var price := PriceText(BaseUnitOf(r), ShipShare(r, alloc, mode));
    Eleven(CardName(r), AsciiLower(Trim(r.setCode)), QuantityText(r.qty), foil,
           Trim(r.collectorNumber), AsciiLower(Trim(r.scryfallLang)), Trim(r.condition),
           price, "EUR", Trim(r.scryfallId), "")
  }

  /** The eleven cells of a record, in the order given. */
  function Eleven<T>(c0: T, c1: T, c2: T, c3: T, c4: T, c5: T, c6: T, c7: T, c8: T, c9: T, c10: T): (c: seq<T>)
    ensures |c| == 11
    ensures c[0] == c0 && c[1] == c1 && c[2] == c2 && c[3] == c3 && c[4] == c4 && c[5] == c5
    ensures c[6] == c6 && c[7] == c7 && c[8] == c8 && c[9] == c9 && c[10] == c10
  {
    [c0, c1, c2, c3, c4, c5, c6, c7, c8, c9, c10]
  }

  /** The ManaBox column names, position by position. */
  lemma ColumnNames()
    ensures |Columns| == 11
    ensures Columns[0] == "Card name" && Columns[1] == "Set code" && Columns[2] == "Quantity"
    ensures Columns[3] == "Foil" && Columns[4] == "Card number" && Columns[5] == "Language"
    ensures Columns[6] == "Condition" && Columns[7] == "Purchase price"
    ensures Columns[8] == "Purchase currency" && Columns[9] == "Scryfall ID" && Columns[10] == "Import error"
  {
  }

  /** The record object, keyed by column name. */
  function ToRecord(c: seq<string>): Row
    requires |c| == |Columns|
  {
    map[
      "Card name" := Some(c[0]),
      "Set code" := Some(c[1]),
      "Quantity" := Some(c[2]),
      "Foil" := Some(c[3]),
      "Card number" := Some(c[4]),
      "Language" := Some(c[5]),
      "Condition" := Some(c[6]),
      "Purchase price" := Some(c[7]),
      "Purchase currency" := Some(c[8]),
      "Scryfall ID" := Some(c[9]),
      "Import error" := Some(c[10])
    ]
  }

  /** `rows.map(...)`. */
  function Records(rows: seq<OrderRow>, alloc: map<string, Allocation>, mode: string): seq<Row> {
    seq(|rows|, i requires 0 <= i < |rows| => ToRecord(Cells(rows[i], alloc, mode)))
  }

  /** The cell texts of every record. */
  function CellTable(rows: seq<OrderRow>, alloc: map<string, Allocation>, mode: string): seq<seq<string>> {
    seq(|rows|, i requires 0 <= i < |rows| => Cells(rows[i], alloc, mode))
  }

  /** The text `buildManaBoxCsv(rows, mode)` returns. */
  function ManaBoxCsv(rows: seq<OrderRow>, mode: string): string {
    BuildCsv(Records(rows, AllocationSpec(rows, EffectiveMode(mode)), mode), Columns)
  }

  /** `buildManaBoxCsv(rows, shippingMode)`. */
  method BuildManaBoxCsv(rows: seq<OrderRow>, mode: string) returns (text: string)
    ensures text == ManaBoxCsv(rows, mode)
  {
    var alloc := ComputeShippingAllocation(rows, EffectiveMode(mode));
    text := BuildCsv(Records(rows, alloc, mode), Columns);
  }

  // ---------------------------------------------------------------------
  // What the export holds

  /** A record written under the ManaBox columns gives back its cells in column order. */
  lemma RecordCells(c: seq<string>)
    requires |c| == |Columns|
    ensures Texts(RowValues(ToRecord(c), Columns)) == c
  {
    var t := Texts(RowValues(ToRecord(c), Columns));
    assert t[0] == c[0] && t[1] == c[1] && t[2] == c[2] && t[3] == c[3];
    assert t[4] == c[4] && t[5] == c[5] && t[6] == c[6] && t[7] == c[7];
    assert t[8] == c[8] && t[9] == c[9] && t[10] == c[10];
  }

  lemma TableOfRecords(rows: seq<OrderRow>, alloc: map<string, Allocation>, mode: string)
    ensures Table(Records(rows, alloc, mode), Columns) == CellTable(rows, alloc, mode)
  {
    var recs := Records(rows, alloc, mode);
    var cells := CellTable(rows, alloc, mode);
    forall i | 0 <= i < |rows|
      ensures Table(recs, Columns)[i] == cells[i]
    {
      RecordCells(cells[i]);
    }
  }

  /**
   * The export reads back as the header line followed by one record per
   * row, holding that row's cells.
   */
  lemma ManaBoxReadsBack(rows: seq<OrderRow>, mode: string)
    requires rows != []
    ensures var alloc := AllocationSpec(rows, EffectiveMode(mode));
      ParseDocument(ManaBoxCsv(rows, mode), Newline) == Some([Columns] + CellTable(rows, alloc, mode))
  {
    var alloc := AllocationSpec(rows, EffectiveMode(mode));
    BuildCsvReadsBack(Records(rows, alloc, mode), Columns);
    TableOfRecords(rows, alloc, mode);
  }

  /** Without rows the export is the header line and an empty line, which reads back as one empty cell. */
  lemma ManaBoxNoRows(mode: string)
    ensures ManaBoxCsv([], mode) == ToCsvLine(Present(Columns)) + "\n\n"
    ensures ParseDocument(ManaBoxCsv([], mode), Newline) == Some([Columns, [""]])
  {
    assert Records([], AllocationSpec([], EffectiveMode(mode)), mode) == [];
    BuildCsvNoRows(Columns);
  }

  /** The quantity cell reads back as the row's quantity when that is a positive number, and as 1 otherwise. */
  lemma QuantityReadsBack(qty: string)
    ensures var q := Loose(qty);
      ParseNumberLoose(Str(QuantityText(qty))) == Some(if q.Some? && q.value > 0.0 then q.value else 1.0)
  {
    var read := LooseDecimal(qty);
    NumberToStringRoundTrip(Quantity(read));
    assert Loose(qty) == if read.Some? then Some(read.value.Value()) else None;
  }

  /** The foil cell is "foil" exactly when the row's foil text is "foil" in any letter case. */
  lemma FoilIffFoil(foil: string)
    ensures FoilText(foil) == "foil" <==> AsciiLower(foil) == "foil"
  {
    if foil == "" {
      assert AsciiLower("normal")[0] == 'n';
    }
  }

  /** With a base price, the price cell reads back as base plus shipping share, rounded to cents. */
  lemma PriceReadsBack(b: real, share: real)
    ensures ParseNumberLoose(Str(PriceText(Some(b), share))) == Some(RoundToCents(b + share))
  {
    FormatPriceRoundTrip(b + share);
  }

  /** Without a mode, or with "none", no card bears any shipping. */
  lemma NoModeNoShare(rows: seq<OrderRow>, mode: string, i: int)
    requires 0 <= i < |rows| && (mode == "" || mode == "none")
    ensures ShipShare(rows[i], AllocationSpec(rows, EffectiveMode(mode)), mode) == 0.0
  {
  }

  /**
   * "equal": the share of each card of an order with cards, times the
   * order's card count, is the order's shipping amount; an order without
   * cards bears nothing.
   */
  lemma EqualShares(rows: seq<OrderRow>, alloc: map<string, Allocation>, i: int)
    requires alloc == AllocationSpec(rows, "equal")
    requires 0 <= i < |rows| && rows[i].orderId != ""
    ensures rows[i].orderId in Totals(rows)
    ensures ShipShare(rows[i], alloc, "equal") == EqualPart(Totals(rows)[rows[i].orderId].shipping, SumQty(OrderLines(rows, rows[i].orderId)))
  {
    var id := rows[i].orderId;
    AllocationKeys(rows, "equal", id);
    var o := Totals(rows)[id];
    TotalsOfOrder(rows, id);
    assert ShipShare(rows[i], alloc, "equal") == Allocate(o, "equal").perCardEqual;
  }

  /**
   * "proportional" on an order whose lines all hold cards, have value and
   * have pairwise different line keys: each row of the order bears the
   * share stored under its key, and over the order's lines these shares,
   * times the lines' card counts, add up to the order's shipping amount.
   */
  lemma ProportionalShares(rows: seq<OrderRow>, id: string)
    requires id != "" && HasOrder(rows, id)
    requires var lines := OrderLines(rows, id);
      Subtotal(lines) > 0.0 && AllHaveCards(lines) && DistinctKeys(lines)
    ensures var alloc := AllocationSpec(rows, "proportional");
      var lines := OrderLines(rows, id);
      && id in alloc
      && (forall k :: 0 <= k < |lines| ==>
            ShipShare(lines[k].row, alloc, "proportional") == Lookup(alloc[id].perLinePerCard, Cards(lines)[k].0))
      && Charged(Cards(lines), alloc[id].perLinePerCard) == Totals(rows)[id].shipping
  {
    var alloc := AllocationSpec(rows, "proportional");
    var lines := OrderLines(rows, id);
    AllocationKeys(rows, "proportional", id);
    TotalsOfOrder(rows, id);
    var o := Totals(rows)[id];
    ProportionalCovers(o);
    forall k | 0 <= k < |lines|
      ensures lines[k].row.orderId == id
    {
      LineFromOrder(Readings(rows), id, k);
    }
  }

  // ---------------------------------------------------------------------
  // One order, end to end

  /** A whole number written in plain digits reads as that number. */
  lemma ReadsWhole(n: nat, s: string)
    requires s == NatDigits(n)
    ensures Loose(s) == Some(n as real)
  {
    var d := Decimal(n, 0);
    WholeText(n);
    NumberToStringRoundTrip(d);
    WholeValue(n);
  }

  lemma WholeText(n: nat)
    ensures NumberToString(Decimal(n, 0)) == NatDigits(n)
  {
    var d := Decimal(n, 0);
    assert Canonical(d) == d;
    assert DecimalText(n, 0, '.') == NatDigits(n);
    assert SignText(false) == "";
  }

  lemma WholeValue(n: nat)
    ensures Decimal(n, 0).Value() == n as real
  {
    assert Pow10(0) == 1;
  }

  /** Two readings of one order make one group, grown by both. */
  lemma GroupOfTwo(x: Reading, y: Reading)
    requires x.row.orderId != "" && y.row.orderId == x.row.orderId
    ensures Group([x, y]) == map[x.row.orderId := Grow(Grow(Fresh(x), x), y)]
  {
    var id := x.row.orderId;
    assert [x, y][..1] == [x] && [x][..0] == [];
    var g := map[id := Grow(Fresh(x), x)];
    assert Group([x]) == g;
    var t := Grow(g[id], y);
    assert Group([x, y]) == g[id := t];
    assert g[id := t] == map[id := t];
  }

  /** Two entries with different keys both stay in the map. */
  lemma OverwriteTwo(e: seq<(string, real)>)
    requires |e| == 2 && e[0].0 != e[1].0
    ensures Overwrite(e) == map[e[0].0 := e[0].1, e[1].0 := e[1].1]
  {
    assert e[..1] == [e[0]] && e[..1][..0] == [];
    assert Overwrite(e[..1]) == map[e[0].0 := e[0].1];
  }

  /** The shares of two lines of one card each, priced 5 and 15, under shipping 2. */
  lemma TwoLineShares(la: Line, lb: Line)
    requires la.qty == 1.0 && la.baseUnit == 5.0 && lb.qty == 1.0 && lb.baseUnit == 15.0
    requires LineKey(la.row) != LineKey(lb.row)
    ensures ShareMap([la, lb], 2.0, 20.0) == map[LineKey(la.row) := 0.5, LineKey(lb.row) := 1.5]
  {
    var e := Shares([la, lb], 2.0, 20.0);
    assert e[0] == (LineKey(la.row), 0.5) && e[1] == (LineKey(lb.row), 1.5);
    OverwriteTwo(e);
  }

  lemma ReadingsOfTwo(a: OrderRow, b: OrderRow)
    ensures Readings([a, b]) == [ReadRow(a), ReadRow(b)]
  {
    PairOf(Readings([a, b]));
  }

  lemma PairOf<T>(xs: seq<T>)
    requires |xs| == 2
    ensures xs == [xs[0], xs[1]]
  {
  }

  /** The allocation for two rows of one order. */
  lemma AllocationOfTwo(a: OrderRow, b: OrderRow, mode: string)
    requires a.orderId != "" && b.orderId == a.orderId
    ensures var x := ReadRow(a);
      AllocationSpec([a, b], mode) == map[a.orderId := Allocate(Grow(Grow(Fresh(x), x), ReadRow(b)), mode)]
  {
    var x := ReadRow(a);
    var y := ReadRow(b);
    var o := Grow(Grow(Fresh(x), x), y);
    ReadingsOfTwo(a, b);
    GroupOfTwo(x, y);
    assert Totals([a, b]) == map[a.orderId := o];
    AllocateOne(Totals([a, b]), a.orderId, o, mode);
  }

  lemma AllocateOne(t: map<string, OrderTotals>, id: string, o: OrderTotals, mode: string)
    requires t == map[id := o]
    ensures (map k | k in t :: Allocate(t[k], mode)) == map[id := Allocate(o, mode)]
  {
  }

  /** What the two example rows read as. */
  lemma ExampleReadings(a: OrderRow, b: OrderRow)
    requires a.qty == "1" && b.qty == "1"
    requires a.priceItemRaw == "5" && b.priceItemRaw == "15"
    requires a.summaryShippingRaw == "2"
    ensures ReadRow(a) == Reading(a, 1.0, 2.0, 5.0)
    ensures ReadRow(b).qty == 1.0 && ReadRow(b).baseUnit == 15.0
  {
    assert NatDigits(1) == "1" && NatDigits(2) == "2" && NatDigits(5) == "5";
    assert NatDigits(15) == "15" by {
      assert NatDigits(1) == "1" && NatDigits(5) == "5";
    }
    ReadsWhole(1, "1");
    ReadsWhole(2, "2");
    ReadsWhole(5, "5");
    ReadsWhole(15, "15");
  }

  /** In "proportional" mode a row bears the share stored under its key. */
  lemma ShareUnderKey(r: OrderRow, alloc: map<string, Allocation>, m: map<string, real>, v: real)
    requires r.orderId in alloc && alloc[r.orderId].perLinePerCard == m
    requires LineKey(r) in m && m[LineKey(r)] == v
    ensures ShipShare(r, alloc, "proportional") == v
  {
  }

  /** The allocation of the two example rows. */
  lemma ExampleAllocation(a: OrderRow, b: OrderRow)
    requires a.orderId == "O1" && b.orderId == "O1"
    requires a.qty == "1" && b.qty == "1"
    requires a.priceItemRaw == "5" && b.priceItemRaw == "15"
    requires a.summaryShippingRaw == "2"
    requires a.itemName == b.itemName && a.collectorNumber != b.collectorNumber
    ensures AllocationSpec([a, b], "proportional") == map["O1" := Allocation(0.0, map[LineKey(a) := 0.5, LineKey(b) := 1.5])]
  {
    ExampleReadings(a, b);
    var x := ReadRow(a);
    var y := ReadRow(b);
    AllocationOfTwo(a, b, "proportional");
    LineKeyNumber(a, b);
    var lx := LineOf(x);
    var ly := LineOf(y);
    assert lx.row == a && ly.row == b;
    TwoLineShares(lx, ly);
    ExampleTotals(x, y);
  }

  /**
   * An order of two rows, one card each, priced 5 and 15, with shipping 2
   * and distinct collector numbers, in "proportional" mode: the cards bear
   * 0.5 and 1.5 of the shipping and are priced "5,50" and "16,50".
   */
  lemma ProportionalExample(a: OrderRow, b: OrderRow)
    requires a.orderId == "O1" && b.orderId == "O1"
    requires a.qty == "1" && b.qty == "1"
    requires a.priceItemRaw == "5" && b.priceItemRaw == "15"
    requires a.summaryShippingRaw == "2"
    requires a.itemName == b.itemName && a.collectorNumber != b.collectorNumber
    ensures var alloc := AllocationSpec([a, b], "proportional");
      && ShipShare(a, alloc, "proportional") == 0.5
      && ShipShare(b, alloc, "proportional") == 1.5
      && PriceText(BaseUnitOf(a), ShipShare(a, alloc, "proportional")) == "5,50"
      && PriceText(BaseUnitOf(b), ShipShare(b, alloc, "proportional")) == "16,50"
  {
    ExampleAllocation(a, b);
    LineKeyNumber(a, b);
    var m := map[LineKey(a) := 0.5, LineKey(b) := 1.5];
    var alloc := AllocationSpec([a, b], "proportional");
    ShareUnderKey(a, alloc, m, 0.5);
    ShareUnderKey(b, alloc, m, 1.5);
    ExampleBases(a, b);
    PriceExamples();
  }

  lemma ExampleBases(a: OrderRow, b: OrderRow)
    requires a.priceItemRaw == "5" && b.priceItemRaw == "15"
    ensures BaseUnitOf(a) == Some(5.0) && BaseUnitOf(b) == Some(15.0)
  {
    assert NatDigits(5) == "5";
    assert NatDigits(15) == "15" by {
      assert NatDigits(1) == "1" && NatDigits(5) == "5";
    }
    ReadsWhole(5, "5");
    ReadsWhole(15, "15");
  }

  lemma ExampleTotals(x: Reading, y: Reading)
    requires x.qty == 1.0 && x.ship == 2.0 && x.baseUnit == 5.0 && y.qty == 1.0 && y.baseUnit == 15.0
    ensures Grow(Grow(Fresh(x), x), y) == OrderTotals(2.0, 2.0, 20.0, [LineOf(x), LineOf(y)])
  {
    assert [] + [LineOf(x)] + [LineOf(y)] == [LineOf(x), LineOf(y)];
  }

  lemma PriceExamples()
    ensures FormatPrice(Finite(5.0 + 0.5)) == "5,50"
    ensures FormatPrice(Finite(15.0 + 1.5)) == "16,50"
  {
    PriceExample(5.5, 5, 50, "5");
    PriceExample(16.5, 16, 50, "16");
  }
}

/**
 * `computeShippingAllocation` of the export builder (extension/background.js):
 * the shipping cost of each order is spread over its cards, either evenly
 * per card ("equal") or in proportion to each line's value ("proportional").
 *
 * The first loop reads each row (quantity, shipping amount, base price) and
 * groups the readings by order id, keeping each order's shipping amount,
 * card count, value and lines; the second loop turns each group into an
 * allocation. `Group` and `Allocate` state what the two loops compute; the
 * lemmas below say what those values are in terms of the rows.
 */
module Shipping {
  import opened Wrappers
  import opened Orders

  /** What the first loop reads from one row. */
  datatype Reading = Reading(row: OrderRow, qty: real, ship: real, baseUnit: real)

  /** A line of an order: `{ r, qty, baseUnit }`. */
  datatype Line = Line(row: OrderRow, qty: real, baseUnit: real)

  /** What the first loop gathers for one order. */
  datatype OrderTotals = OrderTotals(shipping: real, totalQty: real, subtotal: real, lines: seq<Line>)

  /** `{ perCardEqual, perLinePerCard }`: the share of one card, evenly or per line key. */
  datatype Allocation = Allocation(perCardEqual: real, perLinePerCard: map<string, real>)

  /** The quantity (1 when unreadable), the shipping amount (0 when unreadable) and the base price (0 when missing). */
  function ReadRow(r: OrderRow): Reading {
    Reading(r, QtyOf(r), ShipOf(r), BaseUnitOf(r).GetOr(0.0))
  }

  function Readings(rows: seq<OrderRow>): seq<Reading> {
    seq(|rows|, i requires 0 <= i < |rows| => ReadRow(rows[i]))
  }

  function LineOf(x: Reading): Line {
    Line(x.row, x.qty, x.baseUnit)
  }

  /** One turn of the first loop: a reading without an order id is skipped. */
  function AddReading(acc: map<string, OrderTotals>, x: Reading): map<string, OrderTotals> {
    var id := x.row.orderId;
    if id == "" then acc
    else
      acc[id := Grow(if id in acc then acc[id] else Fresh(x), x)]
  }

  /** The group a reading opens: the row's shipping amount, nothing counted yet. */
  function Fresh(x: Reading): OrderTotals {
    OrderTotals(x.ship, 0.0, 0.0, [])
  }

  /** A group after counting one more reading. */
  function Grow(o: OrderTotals, x: Reading): OrderTotals {
    OrderTotals(o.shipping, o.totalQty + x.qty, o.subtotal + x.qty * x.baseUnit, o.lines + [LineOf(x)])
  }

  /** `perOrder` after the first loop has seen `xs`. */
  function Group(xs: seq<Reading>): map<string, OrderTotals> {
    if xs == [] then map[] else AddReading(Group(xs[..|xs| - 1]), xs[|xs| - 1])
  }

  /** The share of one card of a line: its part of the order's value, divided among its cards. */
  function PerCard(l: Line, shipping: real, subtotal: real): (c: real)
    requires subtotal > 0.0
    ensures l.qty > 0.0 ==> c * l.qty == shipping * (l.qty * l.baseUnit) / subtotal
    ensures l.qty <= 0.0 ==> c == 0.0
  {
    var lineShipTotal := shipping * (l.qty * l.baseUnit / subtotal);
    if l.qty > 0.0 then
      assert lineShipTotal / l.qty * l.qty == lineShipTotal;
      lineShipTotal / l.qty
    else 0.0
  }

  /** The `set(key, perCard)` calls of the inner loop, in order. */
  function Shares(lines: seq<Line>, shipping: real, subtotal: real): seq<(string, real)>
    requires subtotal > 0.0
  {
    seq(|lines|, i requires 0 <= i < |lines| => (LineKey(lines[i].row), PerCard(lines[i], shipping, subtotal)))
  }

  /** A `Map` after `set(k, v)` for each entry in order: a later entry with the same key overwrites. */
  function Overwrite(entries: seq<(string, real)>): map<string, real> {
    if entries == [] then map[]
    else
      var e := entries[|entries| - 1];
      Overwrite(entries[..|entries| - 1])[e.0 := e.1]
  }

  /** `perLinePerCard` of a group, for the "proportional" mode. */
  function ShareMap(lines: seq<Line>, shipping: real, subtotal: real): (m: map<string, real>)
    requires subtotal > 0.0
    ensures forall i :: 0 <= i < |lines| ==> LineKey(lines[i].row) in m
    ensures DistinctKeys(lines) ==>
      forall i :: 0 <= i < |lines| ==> m[LineKey(lines[i].row)] == PerCard(lines[i], shipping, subtotal)
  {
    ShareEntries(lines, shipping, subtotal);
    Overwrite(Shares(lines, shipping, subtotal))
  }

  /** The shipping one of `cards` cards bears when all bear the same: none without cards. */
  function EqualPart(shipping: real, cards: real): (share: real)
    ensures cards > 0.0 ==> share * cards == shipping
  {
    if cards > 0.0 then shipping / cards else 0.0
  }

  /** One turn of the second loop. */
  function Allocate(o: OrderTotals, mode: string): (a: Allocation)
    ensures mode != "equal" ==> a.perCardEqual == 0.0
    ensures mode == "equal" && o.totalQty > 0.0 ==> a.perCardEqual * o.totalQty == o.shipping
    ensures mode == "equal" && o.totalQty <= 0.0 ==> a.perCardEqual == 0.0
    ensures mode != "proportional" || o.subtotal <= 0.0 ==> a.perLinePerCard == map[]
    ensures mode == "proportional" && o.subtotal > 0.0 ==>
      forall i :: 0 <= i < |o.lines| ==> LineKey(o.lines[i].row) in a.perLinePerCard
  {
    var perCardEqual := if mode == "equal" then EqualPart(o.shipping, o.totalQty) else 0.0;
    var perLine := if mode == "proportional" && o.subtotal > 0.0 then ShareMap(o.lines, o.shipping, o.subtotal) else map[];
    Allocation(perCardEqual, perLine)
  }

  /** `perOrder` after the first loop. */
  function Totals(rows: seq<OrderRow>): map<string, OrderTotals> {
    Group(Readings(rows))
  }

  /** The map `computeShippingAllocation(rows, mode)` returns. */
  function AllocationSpec(rows: seq<OrderRow>, mode: string): map<string, Allocation> {
    var t := Totals(rows);
    map id | id in t :: Allocate(t[id], mode)
  }

  /**
   * `computeShippingAllocation(rows, mode)`. Shipping amounts are always
   * finite here (`parseNumberLoose` yields finite numbers or nothing), so the
   * `Number.isFinite` guard of the source always keeps the amount.
   */
  method ComputeShippingAllocation(rows: seq<OrderRow>, mode: string) returns (out: map<string, Allocation>)
    ensures out == AllocationSpec(rows, mode)
  {
    var perOrder := GroupRows(rows);
    out := AllocateOrders(perOrder, mode);
  }

  /** The first loop: rows grouped by order id. */
  method GroupRows(rows: seq<OrderRow>) returns (perOrder: map<string, OrderTotals>)
    ensures perOrder == Totals(rows)
  {
    ghost var xs := Readings(rows);
    perOrder := map[];
    for i := 0 to |rows|
      invariant perOrder == Group(xs[..i])
    {
      assert xs[..i + 1][..i] == xs[..i];
      var r := rows[i];
      var orderId := r.orderId;
      if orderId == "" {
        continue;
      }
      var qty := QtyOf(r);
      var ship := ShipOf(r);
      var baseUnit := BaseUnitOf(r).GetOr(0.0);
      assert xs[i] == Reading(r, qty, ship, baseUnit);
      perOrder := CountRow(perOrder, r, qty, ship, baseUnit);
    }
    assert xs[..|rows|] == xs;
  }

  /** The first loop's body for a row with an order id: open the group if needed, then count the row. */
  method CountRow(perOrder: map<string, OrderTotals>, r: OrderRow, qty: real, ship: real, baseUnit: real)
    returns (next: map<string, OrderTotals>)
    requires r.orderId != ""
    ensures next == AddReading(perOrder, Reading(r, qty, ship, baseUnit))
  {
    ghost var x := Reading(r, qty, ship, baseUnit);
    var orderId := r.orderId;
    next := perOrder;
    if orderId !in next {
      next := next[orderId := OrderTotals(ship, 0.0, 0.0, [])];
    }
    ghost var withGroup := next;
    var o := next[orderId];
    assert o == if orderId in perOrder then perOrder[orderId] else Fresh(x);
    var grown := OrderTotals(o.shipping, o.totalQty + qty, o.subtotal + qty * baseUnit, o.lines + [Line(r, qty, baseUnit)]);
    assert grown == Grow(o, x);
    next := next[orderId := grown];
    assert next == perOrder[orderId := grown] by {
      assert withGroup.Keys + {orderId} == perOrder.Keys + {orderId};
      forall k | k in next ensures k in perOrder[orderId := grown] && next[k] == perOrder[orderId := grown][k] {
      }
    }
    GroupStep(perOrder, x, o, next);
  }

  /** The second loop: one allocation per order. */
  method AllocateOrders(perOrder: map<string, OrderTotals>, mode: string) returns (out: map<string, Allocation>)
    ensures out == map id | id in perOrder :: Allocate(perOrder[id], mode)
  {
    out := map[];
    var pending := perOrder.Keys;
    while pending != {}
      invariant pending <= perOrder.Keys
      invariant out == map id | id in perOrder.Keys - pending :: Allocate(perOrder[id], mode)
      decreases |pending|
    {
      var orderId :| orderId in pending;
      var o := perOrder[orderId];
      var shipping := o.shipping;
      var perCardEqual := if mode == "equal" && o.totalQty > 0.0 then shipping / o.totalQty else 0.0;
      var perLinePerCard: map<string, real> := map[];
      if mode == "proportional" && o.subtotal > 0.0 {
        perLinePerCard := LineShares(o.lines, shipping, o.subtotal);
      }
      out := out[orderId := Allocation(perCardEqual, perLinePerCard)];
      pending := pending - {orderId};
    }
  }

  /** The inner loop of the second one: each line's share of one card, by line key. */
  method LineShares(lines: seq<Line>, shipping: real, subtotal: real) returns (perLinePerCard: map<string, real>)
    requires subtotal > 0.0
    ensures perLinePerCard == ShareMap(lines, shipping, subtotal)
  {
    ghost var shares := Shares(lines, shipping, subtotal);
    perLinePerCard := map[];
    for j := 0 to |lines|
      invariant perLinePerCard == Overwrite(shares[..j])
    {
      var line := lines[j];
      var perCard := CardShare(line, shipping, subtotal);
      var key := LineKey(line.row);
      assert shares[j] == (key, perCard);
      OverwriteStep(shares, j);
      perLinePerCard := perLinePerCard[key := perCard];
    }
    assert shares[..|lines|] == shares;
  }

  /** The share of one card of `line`, as the inner loop computes it. */
  method CardShare(line: Line, shipping: real, subtotal: real) returns (perCard: real)
    requires subtotal > 0.0
    ensures perCard == PerCard(line, shipping, subtotal)
    ensures line.qty > 0.0 ==> perCard * line.qty == shipping * (line.qty * line.baseUnit) / subtotal
  {
    var lineTotal := line.qty * line.baseUnit;
    var lineShipTotal := shipping * (lineTotal / subtotal);
    perCard := if line.qty > 0.0 then lineShipTotal / line.qty else 0.0;
  }

  lemma OverwriteStep(entries: seq<(string, real)>, j: int)
    requires 0 <= j < |entries|
    ensures Overwrite(entries[..j + 1]) == Overwrite(entries[..j])[entries[j].0 := entries[j].1]
  {
    assert entries[..j + 1][..j] == entries[..j];
  }

  /** The first loop's update of `perOrder` is `AddReading`. */
  lemma GroupStep(acc: map<string, OrderTotals>, x: Reading, o: OrderTotals, next: map<string, OrderTotals>)
    requires x.row.orderId != ""
    requires o == if x.row.orderId in acc then acc[x.row.orderId] else Fresh(x)
    requires next == acc[x.row.orderId := Grow(o, x)]
    ensures next == AddReading(acc, x)
  {
  }

  // ---------------------------------------------------------------------
  // The grouping, reading by reading

  /** The lines of order `id`, in row order. */
  function LinesFor(xs: seq<Reading>, id: string): seq<Line> {
    if xs == [] then []
    else
      var x := xs[|xs| - 1];
      LinesFor(xs[..|xs| - 1], id) + (if x.row.orderId == id then [LineOf(x)] else [])
  }

  function SumQty(lines: seq<Line>): real {
    if lines == [] then 0.0 else SumQty(lines[..|lines| - 1]) + lines[|lines| - 1].qty
  }

  function Subtotal(lines: seq<Line>): real {
    if lines == [] then 0.0
    else
      var l := lines[|lines| - 1];
      Subtotal(lines[..|lines| - 1]) + l.qty * l.baseUnit
  }

  predicate Mentions(xs: seq<Reading>, id: string) {
    exists i :: 0 <= i < |xs| && xs[i].row.orderId == id
  }

  /** Every reading with an order id, and only those, makes a group. */
  lemma {:induction false} GroupKeys(xs: seq<Reading>, id: string)
    ensures id in Group(xs) <==> id != "" && Mentions(xs, id)
  {
    if xs != [] {
      var front := xs[..|xs| - 1];
      GroupKeys(front, id);
      if Mentions(front, id) {
        var i :| 0 <= i < |front| && front[i].row.orderId == id;
        assert xs[i].row.orderId == id;
      }
      if Mentions(xs, id) && xs[|xs| - 1].row.orderId != id {
        var i :| 0 <= i < |xs| && xs[i].row.orderId == id;
        assert front[i].row.orderId == id;
      }
    }
  }

  /** Each line of an order comes from one of the order's readings. */
  lemma {:induction false} LineFromOrder(xs: seq<Reading>, id: string, k: int)
    requires 0 <= k < |LinesFor(xs, id)|
    ensures LinesFor(xs, id)[k].row.orderId == id
    ensures Mentions(xs, id)
  {
    var front := xs[..|xs| - 1];
    if k < |LinesFor(front, id)| {
      LineFromOrder(front, id, k);
      var i :| 0 <= i < |front| && front[i].row.orderId == id;
      assert xs[i].row.orderId == id;
    }
  }

  /** A group holds its order's lines, its card count and its value. */
  lemma {:induction false} GroupOfOrder(xs: seq<Reading>, id: string)
    ensures id in Group(xs) ==>
      && Group(xs)[id].lines == LinesFor(xs, id)
      && Group(xs)[id].totalQty == SumQty(LinesFor(xs, id))
      && Group(xs)[id].subtotal == Subtotal(LinesFor(xs, id))
  {
    if xs != [] && id in Group(xs) {
      var front := xs[..|xs| - 1];
      GroupOfOrder(front, id);
      GroupKeys(xs, id);
      if xs[|xs| - 1].row.orderId == id {
        if id !in Group(front) {
          NoGroupNoLines(front, id);
        }
        GroupHit(xs, id);
      } else {
        GroupMiss(xs, id);
      }
    }
  }

  /** An order without a group has no lines. */
  lemma NoGroupNoLines(xs: seq<Reading>, id: string)
    requires id != "" && id !in Group(xs)
    ensures LinesFor(xs, id) == []
  {
    GroupKeys(xs, id);
    if LinesFor(xs, id) != [] {
      LineFromOrder(xs, id, 0);
    }
  }

  /** The step of `GroupOfOrder` for a last reading of the order. */
  lemma GroupHit(xs: seq<Reading>, id: string)
    requires xs != [] && id != "" && xs[|xs| - 1].row.orderId == id
    requires var front := xs[..|xs| - 1];
      && (id !in Group(front) ==> LinesFor(front, id) == [])
      && (id in Group(front) ==>
            && Group(front)[id].lines == LinesFor(front, id)
            && Group(front)[id].totalQty == SumQty(LinesFor(front, id))
            && Group(front)[id].subtotal == Subtotal(LinesFor(front, id)))
    ensures id in Group(xs)
    ensures Group(xs)[id].lines == LinesFor(xs, id)
    ensures Group(xs)[id].totalQty == SumQty(LinesFor(xs, id))
    ensures Group(xs)[id].subtotal == Subtotal(LinesFor(xs, id))
  {
    var front := xs[..|xs| - 1];
    var x := xs[|xs| - 1];
    var o := if id in Group(front) then Group(front)[id] else Fresh(x);
    assert Group(xs) == Group(front)[id := Grow(o, x)];
    assert LinesFor(xs, id) == LinesFor(front, id) + [LineOf(x)];
    GroupGains(o, LineOf(x), LinesFor(xs, id), Group(xs)[id]);
  }

  /** The step of `GroupOfOrder` for a last reading of another order. */
  lemma GroupMiss(xs: seq<Reading>, id: string)
    requires xs != [] && id in Group(xs) && xs[|xs| - 1].row.orderId != id
    requires var front := xs[..|xs| - 1];
      id in Group(front) ==>
        && Group(front)[id].lines == LinesFor(front, id)
        && Group(front)[id].totalQty == SumQty(LinesFor(front, id))
        && Group(front)[id].subtotal == Subtotal(LinesFor(front, id))
    ensures Group(xs)[id].lines == LinesFor(xs, id)
    ensures Group(xs)[id].totalQty == SumQty(LinesFor(xs, id))
    ensures Group(xs)[id].subtotal == Subtotal(LinesFor(xs, id))
  {
    var front := xs[..|xs| - 1];
    assert id in Group(front) && Group(xs)[id] == Group(front)[id];
    assert LinesFor(xs, id) == LinesFor(front, id) + [];
  }

  /** Adding a line to a group that matched its lines keeps it matching them. */
  lemma GroupGains(o: OrderTotals, l: Line, all: seq<Line>, t: OrderTotals)
    requires o.totalQty == SumQty(o.lines) && o.subtotal == Subtotal(o.lines)
    requires all == o.lines + [l]
    requires t == OrderTotals(o.shipping, o.totalQty + l.qty, o.subtotal + l.qty * l.baseUnit, o.lines + [l])
    ensures t.lines == all && t.totalQty == SumQty(all) && t.subtotal == Subtotal(all)
  {
    assert all[..|o.lines|] == o.lines;
  }

  /** The shipping amount of a group is the one read from its first row. */
  lemma {:induction false} GroupShipping(xs: seq<Reading>, id: string, i: int)
    requires 0 <= i < |xs| && id != "" && xs[i].row.orderId == id
    requires forall j :: 0 <= j < i ==> xs[j].row.orderId != id
    ensures id in Group(xs) && Group(xs)[id].shipping == xs[i].ship
  {
    var front := xs[..|xs| - 1];
    if i < |xs| - 1 {
      GroupShipping(front, id, i);
    } else {
      assert !Mentions(front, id) by {
        forall j | 0 <= j < |front| ensures front[j].row.orderId != id {
          assert front[j] == xs[j];
        }
      }
      GroupKeys(front, id);
    }
  }

  // ---------------------------------------------------------------------
  // The grouping, row by row

  predicate HasOrder(rows: seq<OrderRow>, id: string) {
    exists i :: 0 <= i < |rows| && rows[i].orderId == id
  }

  /** The lines of order `id`: one per row of the order, in row order. */
  function OrderLines(rows: seq<OrderRow>, id: string): seq<Line> {
    LinesFor(Readings(rows), id)
  }

  /** The allocation has an entry for every order id that occurs, and no other. */
  lemma AllocationKeys(rows: seq<OrderRow>, mode: string, id: string)
    ensures id in AllocationSpec(rows, mode) <==> id != "" && HasOrder(rows, id)
  {
    var xs := Readings(rows);
    GroupKeys(xs, id);
    if HasOrder(rows, id) {
      var i :| 0 <= i < |rows| && rows[i].orderId == id;
      assert xs[i].row == rows[i];
    }
    if Mentions(xs, id) {
      var i :| 0 <= i < |xs| && xs[i].row.orderId == id;
      assert xs[i].row == rows[i];
    }
  }

  /** An order's shipping amount is the one on its first row; later rows' amounts are ignored. */
  lemma TotalsShipping(rows: seq<OrderRow>, id: string, i: int)
    requires 0 <= i < |rows| && id != "" && rows[i].orderId == id
    requires forall j :: 0 <= j < i ==> rows[j].orderId != id
    ensures id in Totals(rows) && Totals(rows)[id].shipping == ShipOf(rows[i])
  {
    var xs := Readings(rows);
    assert forall j :: 0 <= j < |rows| ==> xs[j].row == rows[j];
    GroupShipping(xs, id, i);
  }

  /** An order's card count and value are the sums over its lines. */
  lemma TotalsOfOrder(rows: seq<OrderRow>, id: string)
    requires id in Totals(rows)
    ensures Totals(rows)[id].lines == OrderLines(rows, id)
    ensures Totals(rows)[id].totalQty == SumQty(OrderLines(rows, id))
    ensures Totals(rows)[id].subtotal == Subtotal(OrderLines(rows, id))
  {
    GroupOfOrder(Readings(rows), id);
  }

  // ---------------------------------------------------------------------
  // What each mode allocates

  // ---------------------------------------------------------------------
  // Shares per line key

  /** The map has exactly the keys of the entries. */
  lemma {:induction false} OverwriteKeys(entries: seq<(string, real)>, k: string)
    ensures k in Overwrite(entries) <==> exists i :: 0 <= i < |entries| && entries[i].0 == k
  {
    if entries != [] {
      var front := entries[..|entries| - 1];
      OverwriteKeys(front, k);
      if exists i :: 0 <= i < |front| && front[i].0 == k {
        var i :| 0 <= i < |front| && front[i].0 == k;
        assert entries[i] == front[i];
      }
      if exists i :: 0 <= i < |entries| && entries[i].0 == k {
        var i :| 0 <= i < |entries| && entries[i].0 == k;
        if i < |front| {
          assert front[i] == entries[i];
        }
      }
    }
  }

  /** Of several entries with one key, the last one's value is kept. */
  lemma {:induction false} OverwriteLastWins(entries: seq<(string, real)>, i: int)
    requires 0 <= i < |entries|
    requires forall j :: i < j < |entries| ==> entries[j].0 != entries[i].0
    ensures entries[i].0 in Overwrite(entries) && Overwrite(entries)[entries[i].0] == entries[i].1
  {
    var front := entries[..|entries| - 1];
    if i < |entries| - 1 {
      assert entries[i] == front[i];
      OverwriteLastWins(front, i);
    }
  }

  /** The line keys of `lines` are pairwise different. */
  predicate DistinctKeys(lines: seq<Line>) {
    forall i, j :: 0 <= i < j < |lines| ==> LineKey(lines[i].row) != LineKey(lines[j].row)
  }

  /** Every line's key is in the map; with pairwise different keys it maps to that line's own share. */
  lemma ShareEntries(lines: seq<Line>, shipping: real, subtotal: real)
    requires subtotal > 0.0
    ensures var m := Overwrite(Shares(lines, shipping, subtotal));
      && (forall i :: 0 <= i < |lines| ==> LineKey(lines[i].row) in m)
      && (DistinctKeys(lines) ==>
            forall i :: 0 <= i < |lines| ==> m[LineKey(lines[i].row)] == PerCard(lines[i], shipping, subtotal))
  {
    var e := Shares(lines, shipping, subtotal);
    forall i | 0 <= i < |lines|
      ensures LineKey(lines[i].row) in Overwrite(e)
    {
      OverwriteKeys(e, e[i].0);
    }
    if DistinctKeys(lines) {
      forall i | 0 <= i < |lines|
        ensures Overwrite(e)[LineKey(lines[i].row)] == PerCard(lines[i], shipping, subtotal)
      {
        assert forall j :: i < j < |e| ==> e[j].0 != e[i].0;
        OverwriteLastWins(e, i);
      }
    }
  }

  /** What the lines bear in all: each line's share of one card times its cards. */
  function SumShares(lines: seq<Line>, shipping: real, subtotal: real): real
    requires subtotal > 0.0
  {
    if lines == [] then 0.0
    else
      var l := lines[|lines| - 1];
      SumShares(lines[..|lines| - 1], shipping, subtotal) + PerCard(l, shipping, subtotal) * l.qty
  }

  predicate AllHaveCards(lines: seq<Line>) {
    forall i :: 0 <= i < |lines| ==> lines[i].qty > 0.0
  }

  lemma {:induction false} SumSharesScaled(lines: seq<Line>, shipping: real, subtotal: real)
    requires subtotal > 0.0 && AllHaveCards(lines)
    ensures SumShares(lines, shipping, subtotal) == shipping * Subtotal(lines) / subtotal
  {
    if lines != [] {
      var front := lines[..|lines| - 1];
      var l := lines[|lines| - 1];
      assert AllHaveCards(front) by {
        forall i | 0 <= i < |front| ensures front[i].qty > 0.0 {
          assert front[i] == lines[i];
        }
      }
      SumSharesScaled(front, shipping, subtotal);
      DistributeShare(shipping, Subtotal(front), l.qty * l.baseUnit, subtotal);
    }
  }

  lemma DistributeShare(s: real, a: real, b: real, d: real)
    requires d > 0.0
    ensures s * a / d + s * b / d == s * (a + b) / d
  {
  }

  /** "proportional" with every line holding cards: the lines together bear exactly the order's shipping. */
  lemma ProportionalConserves(lines: seq<Line>, shipping: real)
    requires Subtotal(lines) > 0.0 && AllHaveCards(lines)
    ensures SumShares(lines, shipping, Subtotal(lines)) == shipping
  {
    SumSharesScaled(lines, shipping, Subtotal(lines));
  }

  /** `perLinePerCard.get(key) || 0`. */
  function Lookup(m: map<string, real>, k: string): real {
    if k in m then m[k] else 0.0
  }

  /** Each line's key and number of cards. */
  function Cards(lines: seq<Line>): seq<(string, real)> {
    seq(|lines|, i requires 0 <= i < |lines| => (LineKey(lines[i].row), lines[i].qty))
  }

  /** What the cards are charged in all when each looks its share up by key. */
  function Charged(cards: seq<(string, real)>, m: map<string, real>): real {
    if cards == [] then 0.0
    else
      var c := cards[|cards| - 1];
      Charged(cards[..|cards| - 1], m) + Lookup(m, c.0) * c.1
  }

  /** A map that gives every line its own share charges the lines their shares. */
  lemma {:induction false} ChargedPrefix(cards: seq<(string, real)>, lines: seq<Line>, m: map<string, real>, shipping: real, subtotal: real)
    requires subtotal > 0.0 && |cards| == |lines|
    requires forall i :: 0 <= i < |lines| ==> cards[i].1 == lines[i].qty
    requires forall i :: 0 <= i < |lines| ==> Lookup(m, cards[i].0) == PerCard(lines[i], shipping, subtotal)
    ensures Charged(cards, m) == SumShares(lines, shipping, subtotal)
  {
    if lines != [] {
      var n := |lines| - 1;
      var front := lines[..n];
      assert forall i :: 0 <= i < |front| ==> front[i] == lines[i];
      ChargedPrefix(cards[..n], front, m, shipping, subtotal);
    }
  }

  /** With pairwise different keys, looking shares up charges each line exactly its own share. */
  lemma ChargedIsShares(lines: seq<Line>, shipping: real, subtotal: real)
    requires subtotal > 0.0 && DistinctKeys(lines)
    ensures Charged(Cards(lines), ShareMap(lines, shipping, subtotal)) == SumShares(lines, shipping, subtotal)
  {
    var m := ShareMap(lines, shipping, subtotal);
    var cards := Cards(lines);
    ChargedPrefix(cards, lines, m, shipping, subtotal);
  }

  /**
   * "proportional" on an order whose lines all hold cards and have pairwise
   * different keys: the cards, looking their shares up, bear exactly the
   * order's shipping.
   */
  lemma ProportionalCovers(o: OrderTotals)
    requires o.subtotal == Subtotal(o.lines) && o.subtotal > 0.0
    requires AllHaveCards(o.lines) && DistinctKeys(o.lines)
    ensures Charged(Cards(o.lines), Allocate(o, "proportional").perLinePerCard) == o.shipping
  {
    ChargedIsShares(o.lines, o.shipping, o.subtotal);
    ProportionalConserves(o.lines, o.shipping);
  }

  /**
   * Two lines with one key (the same card in two conditions, say) keep only
   * the later share: with base prices 1 and 3 and shipping 1, the lines'
   * own shares are 0.25 and 0.75 and add up to the shipping, but the map
   * holds 0.75 for the key, so the cards are charged 1.5 in all.
   */
  lemma SharedKeyExample(a: OrderRow, b: OrderRow)
    requires LineKey(a) == LineKey(b)
    ensures var lines := [Line(a, 1.0, 1.0), Line(b, 1.0, 3.0)];
      var m := ShareMap(lines, 1.0, 4.0);
      && Subtotal(lines) == 4.0
      && SumShares(lines, 1.0, 4.0) == 1.0
      && m == map[LineKey(a) := 0.75]
      && Charged(Cards(lines), m) == 1.5
  {
    var k := LineKey(a);
    var lines := [Line(a, 1.0, 1.0), Line(b, 1.0, 3.0)];
    TwoLines(lines, 1.0, 4.0);
    assert PerCard(lines[0], 1.0, 4.0) == 0.25;
    assert PerCard(lines[1], 1.0, 4.0) == 0.75;
    var e := Shares(lines, 1.0, 4.0);
    assert e[0].0 == k && e[1].0 == k && e[1].1 == 0.75;
    OverwriteSameKey(e, k);
    var c := Cards(lines);
    assert c[0] == (k, 1.0) && c[1] == (k, 1.0);
    ChargedTwo(c, map[k := 0.75]);
  }

  lemma TwoLines(lines: seq<Line>, shipping: real, subtotal: real)
    requires |lines| == 2 && subtotal > 0.0
    ensures Subtotal(lines) == lines[0].qty * lines[0].baseUnit + lines[1].qty * lines[1].baseUnit
    ensures SumShares(lines, shipping, subtotal)
      == PerCard(lines[0], shipping, subtotal) * lines[0].qty + PerCard(lines[1], shipping, subtotal) * lines[1].qty
  {
    var first := lines[..1];
    assert first == [lines[0]] && first[..0] == [];
    assert Subtotal(first) == lines[0].qty * lines[0].baseUnit;
    assert SumShares(first, shipping, subtotal) == PerCard(lines[0], shipping, subtotal) * lines[0].qty;
  }

  lemma OverwriteSameKey(e: seq<(string, real)>, k: string)
    requires |e| == 2 && e[0].0 == k && e[1].0 == k
    ensures Overwrite(e) == map[k := e[1].1]
  {
    assert e[..1] == [e[0]] && e[..1][..0] == [];
    assert Overwrite(e[..1]) == map[k := e[0].1];
  }

  lemma ChargedTwo(c: seq<(string, real)>, m: map<string, real>)
    requires |c| == 2
    ensures Charged(c, m) == Lookup(m, c[0].0) * c[0].1 + Lookup(m, c[1].0) * c[1].1
  {
    assert c[..1] == [c[0]] && c[..1][..0] == [];
    assert Charged(c[..1], m) == Lookup(m, c[0].0) * c[0].1;
  }
}

/**
 Prices in the books. A lot costs what its opening fill was priced at, a closure takes what its
 sell fill was priced at, and so the realized profit of an inventory, summed over closures, is
 what its fills earned and spent, less the sales nothing was held for, plus the cost of what is
 still held.
 */
module Profit {
  import opened Prelude
  import opened Domain
  import opened Store
  import opened StoreInvariant
  import opened StoreProof
  import Machine
  import Ledger

  // ---------- Values ----------

  function Value(qty: Decimal, price: Decimal): Decimal {
    qty * price
  }

  /** What a posting adds to an inventory's sum: its value, in its own inventory only. */
  function Part(own: bool, qty: Decimal, price: Decimal): Decimal {
    if own then Value(qty, price) else 0.0
  }

  lemma ValueSum(a: Decimal, b: Decimal, price: Decimal)
    ensures Value(a + b, price) == Value(a, price) + Value(b, price)
  {
  }

  lemma ValueLess(qty: Decimal, price: Decimal, cost: Decimal)
    ensures Value(qty, price - cost) == Value(qty, price) - Value(qty, cost)
  {
  }

  lemma NoValue(price: Decimal)
    ensures Value(0.0, price) == 0.0
  {
  }

  // ---------- The ledger's side ----------

  /** What selling from a lot brought in. */
  function Takings(cs: seq<Ledger.ClosureRow>, id: string): Decimal {
    if cs == [] then 0.0
    else
      var last := cs[|cs| - 1];
      Takings(cs[..|cs| - 1], id) + if last.lotId == id then Value(last.qty, last.price) else 0.0
  }

  /** What a lot's closures earned over its cost. */
  function RealizedOf(cs: seq<Ledger.ClosureRow>, id: string, cost: Decimal): Decimal {
    if cs == [] then 0.0
    else
      var last := cs[|cs| - 1];
      RealizedOf(cs[..|cs| - 1], id, cost) + if last.lotId == id then Value(last.qty, last.price - cost) else 0.0
  }

  /** The realized profit of one inventory. */
  function Realized(lots: seq<Ledger.LotRow>, cs: seq<Ledger.ClosureRow>, v: Inventory): Decimal {
    if lots == [] then 0.0
    else
      var last := lots[|lots| - 1].lot;
      Realized(lots[..|lots| - 1], cs, v) + if last.inventory == v then RealizedOf(cs, last.id, last.cost) else 0.0
  }

  function TakingsIn(lots: seq<Ledger.LotRow>, cs: seq<Ledger.ClosureRow>, v: Inventory): Decimal {
    if lots == [] then 0.0
    else
      var last := lots[|lots| - 1].lot;
      TakingsIn(lots[..|lots| - 1], cs, v) + if last.inventory == v then Takings(cs, last.id) else 0.0
  }

  /** What everything ever held in the inventory cost. */
  function BoughtCost(lots: seq<Ledger.LotRow>, v: Inventory): Decimal {
    if lots == [] then 0.0
    else
      var last := lots[|lots| - 1].lot;
      BoughtCost(lots[..|lots| - 1], v) + if last.inventory == v then Value(last.qty, last.cost) else 0.0
  }

  /** What is still held cost. */
  function HeldCost(lots: seq<Ledger.LotRow>, v: Inventory): Decimal {
    if lots == [] then 0.0
    else
      var last := lots[|lots| - 1].lot;
      HeldCost(lots[..|lots| - 1], v) + if last.inventory == v then Value(last.remaining, last.cost) else 0.0
  }

  // ---------- The fills' side ----------

  function PriceOf(fills: seq<FillRow>, f: nat): Decimal {
    if f < |fills| then FromNumeric(fills[f].price) else 0.0
  }

  predicate Owns(orders: map<string, OrderRow>, f: FillRow, buy: bool, v: Inventory) {
    f.order in orders && orders[f.order].side.Buy? == buy && InventoryOf(orders[f.order]) == v
  }

  /** What the buys, or the sells, of an inventory came to. */
  function Traded(fills: seq<FillRow>, orders: map<string, OrderRow>, buy: bool, v: Inventory): Decimal {
    if fills == [] then 0.0
    else
      var f := fills[|fills| - 1];
      Traded(fills[..|fills| - 1], orders, buy, v) +
      if Owns(orders, f, buy, v) then Value(f.qty, FromNumeric(f.price)) else 0.0
  }

  /** What was sold without being held came to. */
  function Uncovered(us: seq<Ledger.UnmatchedRow>, fills: seq<FillRow>, v: Inventory): Decimal {
    if us == [] then 0.0
    else
      var u := us[|us| - 1];
      Uncovered(us[..|us| - 1], fills, v) + if u.inventory == v then Value(u.qty, PriceOf(fills, u.fillId)) else 0.0
  }

  // ---------- The invariant ----------

  ghost predicate LotPriced(fills: seq<FillRow>, r: Ledger.LotRow) {
    r.openedBy < |fills| && r.lot.cost == PriceOf(fills, r.openedBy) && r.lot.openedAt == fills[r.openedBy].at
  }

  ghost predicate ClosurePriced(fills: seq<FillRow>, c: Ledger.ClosureRow) {
    c.fillId < |fills| && c.price == PriceOf(fills, c.fillId) && c.closedAt == fills[c.fillId].at
  }

  /** Lots carry the price and time of the fill that opened them, closures those of the sell. */
  ghost predicate PricesAgree(fills: seq<FillRow>, t: Ledger.Tables) {
    && (forall i :: 0 <= i < |t.lots| ==> LotPriced(fills, t.lots[i]))
    && (forall i :: 0 <= i < |t.closures| ==> ClosurePriced(fills, t.closures[i]))
    && (forall i :: 0 <= i < |t.unmatched| ==> t.unmatched[i].fillId < |fills|)
  }

  /** Lots cost what the buys spent; closures and uncovered sales take what the sells brought in. */
  ghost predicate ValuesAgree(fills: seq<FillRow>, orders: map<string, OrderRow>, t: Ledger.Tables, v: Inventory) {
    && BoughtCost(t.lots, v) == Traded(fills, orders, true, v)
    && TakingsIn(t.lots, t.closures, v) + Uncovered(t.unmatched, fills, v) == Traded(fills, orders, false, v)
  }

  ghost predicate Priced(db: Db) {
    PricesAgree(db.fills, db.ledger) && forall v :: ValuesAgree(db.fills, db.orders, db.ledger, v)
  }

  // ---------- Realized profit ----------

  lemma {:induction false} RealizedIsTakingsLessCost(cs: seq<Ledger.ClosureRow>, id: string, cost: Decimal)
    ensures RealizedOf(cs, id, cost) == Takings(cs, id) - Value(Ledger.ClosedFromLot(cs, id), cost)
  {
    if cs == [] {
      NoValue(cost);
    } else {
      var last := cs[|cs| - 1];
      RealizedIsTakingsLessCost(cs[..|cs| - 1], id, cost);
      ValueLess(last.qty, last.price, cost);
      ValueSum(Ledger.ClosedFromLot(cs[..|cs| - 1], id), last.qty, cost);
    }
  }

  lemma LotEarned(r: Ledger.LotRow, cs: seq<Ledger.ClosureRow>)
    requires Ledger.LotBalanced(r, cs)
    ensures RealizedOf(cs, r.lot.id, r.lot.cost) ==
            Takings(cs, r.lot.id) - Value(r.lot.qty, r.lot.cost) + Value(r.lot.remaining, r.lot.cost)
  {
    RealizedIsTakingsLessCost(cs, r.lot.id, r.lot.cost);
    ValueSum(r.lot.remaining, Ledger.ClosedFromLot(cs, r.lot.id), r.lot.cost);
  }

  /** A balanced lot earned its takings, less its cost, plus the cost of what remains of it. */
  lemma LotProfit(r: Ledger.LotRow, cs: seq<Ledger.ClosureRow>)
    requires Ledger.LotBalanced(r, cs)
    ensures RealizedOf(cs, r.lot.id, r.lot.cost) ==
            Takings(cs, r.lot.id) - r.lot.qty * r.lot.cost + r.lot.remaining * r.lot.cost
  {
    LotEarned(r, cs);
  }

  lemma {:induction false} LotsProfit(lots: seq<Ledger.LotRow>, cs: seq<Ledger.ClosureRow>, v: Inventory)
    requires forall i :: 0 <= i < |lots| ==> Ledger.LotBalanced(lots[i], cs)
    ensures Realized(lots, cs, v) == TakingsIn(lots, cs, v) - BoughtCost(lots, v) + HeldCost(lots, v)
  {
    if lots != [] {
      var n := |lots| - 1;
      LotsProfit(lots[..n], cs, v);
      assert Ledger.LotBalanced(lots[n], cs);
      LotEarned(lots[n], cs);
    }
  }

  /**
   In every priced store the realized profit of an inventory is what its sells brought in, less
   the sales nothing was held for, less what its buys spent, plus the cost of what is still held.
   */
  lemma RealizedIsCashPlusHeld(db: Db, v: Inventory)
    requires Ledger.Valid(db.ledger) && Priced(db)
    ensures Realized(db.ledger.lots, db.ledger.closures, v) ==
            Traded(db.fills, db.orders, false, v) - Uncovered(db.ledger.unmatched, db.fills, v)
            - Traded(db.fills, db.orders, true, v) + HeldCost(db.ledger.lots, v)
  {
    LotsProfit(db.ledger.lots, db.ledger.closures, v);
    assert ValuesAgree(db.fills, db.orders, db.ledger, v);
  }

  // ---------- Appended rows ----------

  lemma TradedSnoc(fills: seq<FillRow>, f: FillRow, orders: map<string, OrderRow>, buy: bool, v: Inventory)
    ensures Traded(fills + [f], orders, buy, v) ==
            Traded(fills, orders, buy, v) + if Owns(orders, f, buy, v) then Value(f.qty, FromNumeric(f.price)) else 0.0
  {
    assert (fills + [f])[..|fills|] == fills;
  }

  lemma {:induction false} TradedKept(fills: seq<FillRow>, before: map<string, OrderRow>, after: map<string, OrderRow>,
                                      buy: bool, v: Inventory)
    requires IdentityKept(before, after) && forall k :: 0 <= k < |fills| ==> fills[k].order in before
    ensures Traded(fills, after, buy, v) == Traded(fills, before, buy, v)
  {
    if fills != [] {
      TradedKept(fills[..|fills| - 1], before, after, buy, v);
    }
  }

  lemma {:induction false} UncoveredKept(us: seq<Ledger.UnmatchedRow>, fills: seq<FillRow>, f: FillRow, v: Inventory)
    requires forall i :: 0 <= i < |us| ==> us[i].fillId < |fills|
    ensures Uncovered(us, fills + [f], v) == Uncovered(us, fills, v)
  {
    if us != [] {
      UncoveredKept(us[..|us| - 1], fills, f, v);
    }
  }

  lemma UncoveredSnoc(us: seq<Ledger.UnmatchedRow>, u: Ledger.UnmatchedRow, fills: seq<FillRow>, v: Inventory)
    ensures Uncovered(us + [u], fills, v) ==
            Uncovered(us, fills, v) + if u.inventory == v then Value(u.qty, PriceOf(fills, u.fillId)) else 0.0
  {
    assert (us + [u])[..|us|] == us;
  }

  lemma BoughtCostSnoc(lots: seq<Ledger.LotRow>, r: Ledger.LotRow, v: Inventory)
    ensures BoughtCost(lots + [r], v) ==
            BoughtCost(lots, v) + if r.lot.inventory == v then Value(r.lot.qty, r.lot.cost) else 0.0
  {
    assert (lots + [r])[..|lots|] == lots;
  }

  lemma {:induction false} NothingTaken(cs: seq<Ledger.ClosureRow>, id: string)
    requires forall i :: 0 <= i < |cs| ==> cs[i].lotId != id
    ensures Takings(cs, id) == 0.0
  {
    if cs != [] {
      NothingTaken(cs[..|cs| - 1], id);
    }
  }

  lemma TakingsNewLot(lots: seq<Ledger.LotRow>, r: Ledger.LotRow, cs: seq<Ledger.ClosureRow>, v: Inventory)
    requires forall i :: 0 <= i < |cs| ==> cs[i].lotId != r.lot.id
    ensures TakingsIn(lots + [r], cs, v) == TakingsIn(lots, cs, v)
  {
    assert (lots + [r])[..|lots|] == lots;
    NothingTaken(cs, r.lot.id);
  }

  lemma {:induction false} SameLotsSameValues(lots: seq<Ledger.LotRow>, lots': seq<Ledger.LotRow>,
                                              cs: seq<Ledger.ClosureRow>, v: Inventory)
    requires Ledger.SameLots(lots, lots')
    ensures BoughtCost(lots', v) == BoughtCost(lots, v) && TakingsIn(lots', cs, v) == TakingsIn(lots, cs, v)
  {
    if lots != [] {
      var n := |lots| - 1;
      SameLotsSameValues(lots[..n], lots'[..n], cs, v);
      assert lots'[n].lot == lots[n].lot.(remaining := lots'[n].lot.remaining);
    }
  }

  lemma TakingsSnoc(cs: seq<Ledger.ClosureRow>, c: Ledger.ClosureRow, id: string)
    ensures Takings(cs + [c], id) == Takings(cs, id) + if c.lotId == id then Value(c.qty, c.price) else 0.0
  {
    assert (cs + [c])[..|cs|] == cs;
  }

  lemma {:induction false} OthersTakeNothing(lots: seq<Ledger.LotRow>, cs: seq<Ledger.ClosureRow>,
                                             c: Ledger.ClosureRow, v: Inventory)
    requires forall i :: 0 <= i < |lots| ==> lots[i].lot.id != c.lotId
    ensures TakingsIn(lots, cs + [c], v) == TakingsIn(lots, cs, v)
  {
    if lots != [] {
      OthersTakeNothing(lots[..|lots| - 1], cs, c, v);
      TakingsSnoc(cs, c, lots[|lots| - 1].lot.id);
    }
  }

  lemma ClosesLast(lots: seq<Ledger.LotRow>, c: Ledger.ClosureRow, inventory: Inventory)
    requires Ledger.LotsDistinct(lots) && Ledger.ClosesIn(lots, c, inventory) && lots[|lots| - 1].lot.id == c.lotId
    ensures lots[|lots| - 1].lot.inventory == inventory
    ensures var init := lots[..|lots| - 1]; forall i :: 0 <= i < |init| ==> init[i].lot.id != c.lotId
  {
  }

  lemma ClosesEarlier(lots: seq<Ledger.LotRow>, c: Ledger.ClosureRow, inventory: Inventory)
    requires Ledger.LotsDistinct(lots) && Ledger.ClosesIn(lots, c, inventory) && lots[|lots| - 1].lot.id != c.lotId
    ensures Ledger.LotsDistinct(lots[..|lots| - 1]) && Ledger.ClosesIn(lots[..|lots| - 1], c, inventory)
  {
    var i :| 0 <= i < |lots| && lots[i].lot.id == c.lotId && lots[i].lot.inventory == inventory;
    assert lots[..|lots| - 1][i] == lots[i];
  }

  /** One more closure brings its value to the inventory of its lot. */
  lemma {:induction false} ClosureTakes(lots: seq<Ledger.LotRow>, cs: seq<Ledger.ClosureRow>, c: Ledger.ClosureRow,
                                        inventory: Inventory, v: Inventory)
    requires Ledger.LotsDistinct(lots) && Ledger.ClosesIn(lots, c, inventory)
    ensures TakingsIn(lots, cs + [c], v) ==
            TakingsIn(lots, cs, v) + if inventory == v then Value(c.qty, c.price) else 0.0
  {
    var init, last := lots[..|lots| - 1], lots[|lots| - 1];
    TakingsSnoc(cs, c, last.lot.id);
    if last.lot.id == c.lotId {
      ClosesLast(lots, c, inventory);
      OthersTakeNothing(init, cs, c, v);
    } else {
      ClosesEarlier(lots, c, inventory);
      ClosureTakes(init, cs, c, inventory, v);
    }
  }

  /** A fill's closures bring in its price for what they close. */
  lemma {:induction false} ClosuresTake(lots: seq<Ledger.LotRow>, cs: seq<Ledger.ClosureRow>,
                                        cs': seq<Ledger.ClosureRow>, fill: Ledger.Fill, v: Inventory)
    requires Ledger.LotsDistinct(lots) && |cs| <= |cs'| && cs'[..|cs|] == cs
    requires forall i :: |cs| <= i < |cs'| ==> Ledger.ClosedBy(lots, cs'[i], fill)
    ensures TakingsIn(lots, cs', v) ==
            TakingsIn(lots, cs, v) +
            if fill.inventory == v
            then Value(Ledger.ClosedByFill(cs', fill.id) - Ledger.ClosedByFill(cs, fill.id), fill.price) else 0.0
    decreases |cs'|
  {
    if |cs'| == |cs| {
      assert cs' == cs;
      NoValue(fill.price);
    } else {
      var n := |cs'| - 1;
      var init, last := cs'[..n], cs'[n];
      assert cs' == init + [last] && init[..|cs|] == cs && Ledger.ClosedBy(lots, last, fill);
      ClosuresTake(lots, cs, init, fill, v);
      ClosureTakes(lots, init, last, fill.inventory, v);
      ValueSum(Ledger.ClosedByFill(init, fill.id) - Ledger.ClosedByFill(cs, fill.id), last.qty, fill.price);
    }
  }

  // ---------- One posting ----------

  /** The fill row of a posting. */
  ghost predicate RowOfFill(f: FillRow, fill: Ledger.Fill, fills: seq<FillRow>) {
    fill.id == |fills| && f.qty == fill.qty && FromNumeric(f.price) == fill.price && f.at == fill.at
  }

  lemma BuyIsPriced(fills: seq<FillRow>, f: FillRow, t: Ledger.Tables, fill: Ledger.Fill, lotId: string,
                    t': Ledger.Tables)
    requires PricesAgree(fills, t) && RowOfFill(f, fill, fills) && Ledger.Opened(t, fill, lotId, t')
    ensures PricesAgree(fills + [f], t')
  {
    forall i | 0 <= i < |t'.lots| ensures LotPriced(fills + [f], t'.lots[i]) {
      assert i < |t.lots| ==> LotPriced(fills, t.lots[i]);
    }
    forall i | 0 <= i < |t'.closures| ensures ClosurePriced(fills + [f], t'.closures[i]) {
      assert ClosurePriced(fills, t.closures[i]);
    }
  }

  lemma SellIsPriced(fills: seq<FillRow>, f: FillRow, t: Ledger.Tables, fill: Ledger.Fill, oversold: Decimal,
                     t': Ledger.Tables)
    requires PricesAgree(fills, t) && RowOfFill(f, fill, fills) && Ledger.Sold(t, fill, oversold, t')
    ensures PricesAgree(fills + [f], t')
  {
    forall i | 0 <= i < |t'.lots| ensures LotPriced(fills + [f], t'.lots[i]) {
      assert LotPriced(fills, t.lots[i]);
      assert t'.lots[i].lot == t.lots[i].lot.(remaining := t'.lots[i].lot.remaining);
    }
    forall i | 0 <= i < |t'.closures| ensures ClosurePriced(fills + [f], t'.closures[i]) {
      if i < |t.closures| {
        assert t'.closures[i] == t'.closures[..|t.closures|][i] && ClosurePriced(fills, t.closures[i]);
      } else {
        assert Ledger.ClosedBy(t.lots, t'.closures[i], fill);
      }
    }
  }

  lemma BuyKeepsValues(fills: seq<FillRow>, f: FillRow, orders: map<string, OrderRow>, t: Ledger.Tables,
                       fill: Ledger.Fill, lotId: string, t': Ledger.Tables, v: Inventory)
    requires PricesAgree(fills, t) && ValuesAgree(fills, orders, t, v) && RowOfFill(f, fill, fills)
    requires Ledger.Valid(t) && Ledger.Valid(t') && Ledger.Opened(t, fill, lotId, t')
    requires fill.side.Buy? && f.order in orders && orders[f.order].side == fill.side &&
        InventoryOf(orders[f.order]) == fill.inventory
    ensures ValuesAgree(fills + [f], orders, t', v)
  {
    var row := Ledger.NewLot(fill, lotId);
    TradedSnoc(fills, f, orders, true, v);
    TradedSnoc(fills, f, orders, false, v);
    BoughtCostSnoc(t.lots, row, v);
    UncoveredKept(t.unmatched, fills, f, v);
    forall i | 0 <= i < |t.closures| ensures t.closures[i].lotId != lotId {
      NewLotIsNew(t, t', row, t.closures[i].lotId);
    }
    TakingsNewLot(t.lots, row, t.closures, v);
  }

  lemma NewLotIsNew(t: Ledger.Tables, t': Ledger.Tables, row: Ledger.LotRow, id: string)
    requires Ledger.LotsDistinct(t'.lots) && t'.lots == t.lots + [row] && Ledger.HasLot(t.lots, id)
    ensures id != row.lot.id
  {
    var i :| 0 <= i < |t.lots| && t.lots[i].lot.id == id;
    assert t'.lots[i] == t.lots[i] && t'.lots[|t.lots|] == row;
  }

  lemma SellKeepsUncovered(fills: seq<FillRow>, f: FillRow, t: Ledger.Tables, fill: Ledger.Fill, oversold: Decimal,
                           t': Ledger.Tables, v: Inventory)
    requires PricesAgree(fills, t) && RowOfFill(f, fill, fills) && Ledger.Sold(t, fill, oversold, t')
    ensures Uncovered(t'.unmatched, fills + [f], v) ==
            Uncovered(t.unmatched, fills, v) + Part(fill.inventory == v, oversold, fill.price)
  {
    UncoveredKept(t.unmatched, fills, f, v);
    if oversold > 0.0 {
      UncoveredSnoc(t.unmatched, Ledger.UnmatchedRow(fill.id, fill.inventory, oversold, fill.at), fills + [f], v);
    } else {
      assert t'.unmatched == t.unmatched;
      NoValue(fill.price);
    }
  }

  lemma SoldTakes(lots: seq<Ledger.LotRow>, lots': seq<Ledger.LotRow>, cs: seq<Ledger.ClosureRow>,
                  cs': seq<Ledger.ClosureRow>, fill: Ledger.Fill, qty: Decimal, v: Inventory)
    requires Ledger.LotsDistinct(lots) && Ledger.SameLots(lots, lots') && |cs| <= |cs'| && cs'[..|cs|] == cs
    requires forall i :: |cs| <= i < |cs'| ==> Ledger.ClosedBy(lots, cs'[i], fill)
    requires Ledger.ClosedByFill(cs', fill.id) - Ledger.ClosedByFill(cs, fill.id) == qty
    ensures BoughtCost(lots', v) == BoughtCost(lots, v)
    ensures TakingsIn(lots', cs', v) == TakingsIn(lots, cs, v) + Part(fill.inventory == v, qty, fill.price)
  {
    SameLotsSameValues(lots, lots', cs', v);
    ClosuresTake(lots, cs, cs', fill, v);
  }

  lemma SellTakes(t: Ledger.Tables, fill: Ledger.Fill, oversold: Decimal, t': Ledger.Tables, v: Inventory)
    requires Ledger.LotsDistinct(t.lots) && Ledger.Sold(t, fill, oversold, t')
    ensures BoughtCost(t'.lots, v) == BoughtCost(t.lots, v)
    ensures TakingsIn(t'.lots, t'.closures, v) ==
            TakingsIn(t.lots, t.closures, v) + Part(fill.inventory == v, fill.qty - oversold, fill.price)
  {
    SoldTakes(t.lots, t'.lots, t.closures, t'.closures, fill, fill.qty - oversold, v);
  }

  /** What was taken and what was not covered balance what was sold, before and after. */
  lemma Balances(takings: Decimal, uncovered: Decimal, own: bool, qty: Decimal, oversold: Decimal, price: Decimal)
    ensures (takings + Part(own, qty - oversold, price)) + (uncovered + Part(own, oversold, price)) ==
            (takings + uncovered) + Part(own, qty, price)
  {
    SoldValue(own, qty, oversold, price);
  }

  lemma SellKeepsTakings(fills: seq<FillRow>, f: FillRow, orders: map<string, OrderRow>, t: Ledger.Tables,
                         fill: Ledger.Fill, oversold: Decimal, t': Ledger.Tables, v: Inventory)
    requires PricesAgree(fills, t) && RowOfFill(f, fill, fills)
    requires Ledger.Valid(t) && Ledger.Unposted(t, fill.id) && Ledger.Sold(t, fill, oversold, t')
    requires fill.side.Sell? && f.order in orders && orders[f.order].side == fill.side &&
        InventoryOf(orders[f.order]) == fill.inventory
    ensures TakingsIn(t'.lots, t'.closures, v) + Uncovered(t'.unmatched, fills + [f], v) ==
            (TakingsIn(t.lots, t.closures, v) + Uncovered(t.unmatched, fills, v))
            + Part(fill.inventory == v, fill.qty, fill.price)
  {
    SellTakes(t, fill, oversold, t', v);
    SellKeepsUncovered(fills, f, t, fill, oversold, t', v);
    Balances(TakingsIn(t.lots, t.closures, v), Uncovered(t.unmatched, fills, v), fill.inventory == v, fill.qty,
             oversold, fill.price);
  }

  lemma SellKeepsCosts(fills: seq<FillRow>, f: FillRow, orders: map<string, OrderRow>, t: Ledger.Tables,
                       fill: Ledger.Fill, oversold: Decimal, t': Ledger.Tables, v: Inventory)
    requires RowOfFill(f, fill, fills) && Ledger.Sold(t, fill, oversold, t')
    requires fill.side.Sell? && f.order in orders && orders[f.order].side == fill.side &&
        InventoryOf(orders[f.order]) == fill.inventory
    requires BoughtCost(t.lots, v) == Traded(fills, orders, true, v)
    ensures BoughtCost(t'.lots, v) == Traded(fills + [f], orders, true, v)
  {
    SellTrades(fills, f, orders, fill, v);
    SameLotsSameValues(t.lots, t'.lots, t'.closures, v);
  }

  lemma SellKeepsValues(fills: seq<FillRow>, f: FillRow, orders: map<string, OrderRow>, t: Ledger.Tables,
                        fill: Ledger.Fill, oversold: Decimal, t': Ledger.Tables, v: Inventory)
    requires PricesAgree(fills, t) && ValuesAgree(fills, orders, t, v) && RowOfFill(f, fill, fills)
    requires Ledger.Valid(t) && Ledger.Unposted(t, fill.id) && Ledger.Sold(t, fill, oversold, t')
    requires fill.side.Sell? && f.order in orders && orders[f.order].side == fill.side &&
        InventoryOf(orders[f.order]) == fill.inventory
    ensures ValuesAgree(fills + [f], orders, t', v)
  {
    SellKeepsCosts(fills, f, orders, t, fill, oversold, t', v);
    SellKeepsTakings(fills, f, orders, t, fill, oversold, t', v);
    SellTrades(fills, f, orders, fill, v);
  }

  /** What a sell brings in is for what was held and for what was not. */
  lemma SoldValue(own: bool, qty: Decimal, oversold: Decimal, price: Decimal)
    ensures Part(own, qty - oversold, price) + Part(own, oversold, price) == Part(own, qty, price)
  {
    ValueSum(qty - oversold, oversold, price);
  }

  lemma SellTrades(fills: seq<FillRow>, f: FillRow, orders: map<string, OrderRow>, fill: Ledger.Fill, v: Inventory)
    requires RowOfFill(f, fill, fills) && fill.side.Sell?
    requires f.order in orders && orders[f.order].side == fill.side && InventoryOf(orders[f.order]) == fill.inventory
    ensures Traded(fills + [f], orders, true, v) == Traded(fills, orders, true, v)
    ensures Traded(fills + [f], orders, false, v) ==
            Traded(fills, orders, false, v) + Part(fill.inventory == v, fill.qty, fill.price)
  {
    TradedSnoc(fills, f, orders, true, v);
    TradedSnoc(fills, f, orders, false, v);
  }

  // ---------- Every operation ----------

  lemma FillsOfOrders(db: Db)
    requires FillsOk(db)
    ensures forall k :: 0 <= k < |db.fills| ==> db.fills[k].order in db.orders
  {
    forall k | 0 <= k < |db.fills| ensures db.fills[k].order in db.orders {
      assert FillRowOk(db, db.fills[k]);
    }
  }

  /** Nothing was filled: order rows may have changed, but not what they are orders for. */
  lemma QuietKeepsPriced(db: Db, db': Db)
    requires FillsOk(db) && Priced(db) && IdentityKept(db.orders, db'.orders)
    requires db'.fills == db.fills && db'.ledger == db.ledger
    ensures Priced(db')
  {
    FillsOfOrders(db);
    forall v ensures ValuesAgree(db'.fills, db'.orders, db'.ledger, v) {
      assert ValuesAgree(db.fills, db.orders, db.ledger, v);
      TradedKept(db.fills, db.orders, db'.orders, true, v);
      TradedKept(db.fills, db.orders, db'.orders, false, v);
    }
  }

  lemma FillRowOfPosting(db: Db, w: Write)
    requires w.id in db.orders
    ensures RowOfFill(NewFillRow(db, w), FillToPost(db, w), db.fills)
  {
  }

  lemma PostingKeepsPriced(fills: seq<FillRow>, f: FillRow, orders: map<string, OrderRow>, t: Ledger.Tables,
                           fill: Ledger.Fill, lotId: string, oversold: Decimal, t': Ledger.Tables)
    requires PricesAgree(fills, t) && (forall v :: ValuesAgree(fills, orders, t, v)) && RowOfFill(f, fill, fills)
    requires Ledger.Valid(t) && Ledger.Valid(t') && Ledger.Unposted(t, fill.id)
    requires f.order in orders && orders[f.order].side == fill.side && InventoryOf(orders[f.order]) == fill.inventory
    requires if fill.side.Buy? then Ledger.Opened(t, fill, lotId, t')
             else fill.side.Sell? && Ledger.Sold(t, fill, oversold, t')
    ensures PricesAgree(fills + [f], t') && forall v :: ValuesAgree(fills + [f], orders, t', v)
  {
    if fill.side.Buy? {
      BuyIsPriced(fills, f, t, fill, lotId, t');
    } else {
      SellIsPriced(fills, f, t, fill, oversold, t');
    }
    forall v ensures ValuesAgree(fills + [f], orders, t', v) {
      if fill.side.Buy? {
        BuyKeepsValues(fills, f, orders, t, fill, lotId, t', v);
      } else {
        SellKeepsValues(fills, f, orders, t, fill, oversold, t', v);
      }
    }
  }

  lemma FilledKeepsPriced(db: Db, w: Write, unmatched: Decimal, db': Db)
    requires Valid(db) && Priced(db) && Decided(db, w) && Wrote(db, w, unmatched, db') && w.d.fillDelta > 0.0
    ensures Priced(db')
  {
    KeepsRows(db, w, unmatched, db');
    QuietKeepsPriced(db, db.(orders := db'.orders));
    PostedLedger(db, w, unmatched, db');
    NextFillUnposted(db);
    FillRowOfPosting(db, w);
    assert db'.fills == db.fills + [NewFillRow(db, w)];
    PostingKeepsPriced(db.fills, NewFillRow(db, w), db'.orders, db.ledger, FillToPost(db, w), w.lotId, unmatched,
                       db'.ledger);
  }

  lemma WriteKeepsPriced(db: Db, w: Write, unmatched: Decimal, db': Db)
    requires Valid(db) && Priced(db) && Decided(db, w) && Wrote(db, w, unmatched, db')
    ensures Priced(db')
  {
    if w.d.fillDelta > 0.0 {
      FilledKeepsPriced(db, w, unmatched, db');
    } else {
      KeepsRows(db, w, unmatched, db');
      assert db'.fills == db.fills;
      QuietKeepsPriced(db, db');
    }
  }

  lemma PersistKeepsPriced(db: Db, w: Write)
    requires Valid(db) && Priced(db) && Decided(db, w)
    ensures var r := Persist(db, w.source, w.ev, w.d, w.lotId, w.now); r.Ok? ==> Priced(r.value.0)
  {
    PersistWrites(db, w);
    var r := Persist(db, w.source, w.ev, w.d, w.lotId, w.now);
    if r.Ok? {
      WriteKeepsPriced(db, w, r.value.1.unmatchedQty, r.value.0);
    }
  }

  lemma AdoptKeepsPriced(db: Db, id: string, vid: string, now: Instant)
    requires FillsOk(db) && Priced(db) && id in db.orders
    ensures var r := Adopt(db, id, vid, now); r.Ok? ==> Priced(r.value)
  {
    var r := Adopt(db, id, vid, now);
    if r.Ok? {
      QuietKeepsPriced(db, r.value);
    }
  }

  lemma ApplyKeepsPriced(db: Db, source: Source, ev: Event, lotId: string, now: Instant)
    requires Valid(db) && Priced(db)
    ensures var r := ApplyEvent(db, source, ev, lotId, now); r.Ok? ==> Priced(r.value.0)
  {
    var id := ev.ref.clientOrderId;
    if id in db.orders {
      var decision := Machine.Transition(StateOf(db.orders[id]), ev);
      if decision.Ok? {
        if Persists(decision.value) {
          PersistKeepsPriced(db, Write(id, source, ev, decision.value, lotId, now));
        } else {
          AdoptKeepsPriced(db, id, ev.ref.venueOrderId, now);
        }
      }
    }
  }

  lemma CommandKeepsPriced(db: Db, op: Op)
    requires FillsOk(db) && Priced(db) && !op.Apply?
    ensures Priced(Exec(db, op))
  {
    QuietKeepsPriced(db, Exec(db, op));
  }

  lemma ExecKeepsPriced(db: Db, op: Op)
    requires Valid(db) && Priced(db)
    ensures Priced(Exec(db, op))
  {
    if op.Apply? {
      ApplyKeepsPriced(db, op.source, op.ev, op.lotId, op.now);
    } else {
      CommandKeepsPriced(db, op);
    }
  }

  lemma NothingIsPriced()
    ensures Priced(EMPTY)
  {
  }
}

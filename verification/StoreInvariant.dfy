/**
 What every reachable state of the order tables satisfies: exact accounting across orders,
 fills and ledger, a gap-free audit log, and an outbox that mirrors both.
 */
module StoreInvariant {
  import opened Prelude
  import opened Domain
  import opened Store
  import Machine
  import Ledger
  import AveragePrice

  // ---------- One order's share of each table ----------

  function LogOf(ts: seq<TransitionRow>, id: string): seq<TransitionRow> {
    if ts == [] then []
    else
      var last := ts[|ts| - 1];
      LogOf(ts[..|ts| - 1], id) + if last.order == id then [last] else []
  }

  /** The quantities and prices of the order's fills, as the average folds them. */
  function HistoryOf(fills: seq<FillRow>, id: string): seq<AveragePrice.Priced> {
    if fills == [] then []
    else
      var last := fills[|fills| - 1];
      HistoryOf(fills[..|fills| - 1], id) + if last.order == id then [AveragePrice.Priced(last.qty, last.price)] else []
  }

  datatype FillFacts = FillFacts(
    qty: Decimal,
    price: Option<Decimal>,
    fee: Option<Decimal>,
    feeCurrency: Option<string>,
    venueFillId: Option<string>,
    at: Instant)

  function FactsOf(fills: seq<FillRow>, id: string): seq<FillFacts> {
    if fills == [] then []
    else
      var f := fills[|fills| - 1];
      FactsOf(fills[..|fills| - 1], id) +
      if f.order == id then [FactsOfRow(f)] else []
  }

  /** What the outbox announced as order.updated. */
  function UpdatesOf(outbox: seq<Message>, id: string): seq<Machine.State> {
    if outbox == [] then []
    else
      var m := outbox[|outbox| - 1];
      UpdatesOf(outbox[..|outbox| - 1], id) +
      if m.OrderUpdated? && m.order == id then [Machine.State(m.status, m.filledQty)] else []
  }

  /** What the outbox announced as order.filled. */
  function FilledOf(outbox: seq<Message>, id: string): seq<FillFacts> {
    if outbox == [] then []
    else
      var m := outbox[|outbox| - 1];
      FilledOf(outbox[..|outbox| - 1], id) +
      if m.OrderFilled? && m.order == id then [FactsOfMessage(m)] else []
  }

  function StatesOf(ts: seq<TransitionRow>, id: string): seq<Machine.State> {
    if ts == [] then []
    else
      var t := ts[|ts| - 1];
      StatesOf(ts[..|ts| - 1], id) + if t.order == id then [Machine.State(t.to, t.filledQty)] else []
  }

  // ---------- The invariant ----------

  ghost predicate RowOk(row: OrderRow) {
    && (row.side.Buy? || row.side.Sell?)
    && !row.kind.UnsupportedKind?
    && Machine.Known(row.status)
    && row.filledQty >= 0.0
  }

  ghost predicate RowsOk(db: Db) {
    forall id :: id in db.orders ==> RowOk(db.orders[id])
  }

  /** The unique index on (venue, venue_order_id). */
  ghost predicate VenueIdsUnique(db: Db) {
    forall a, b :: a in db.orders && b in db.orders && a != b
                   && db.orders[a].instrument.venue == db.orders[b].instrument.venue
                   && db.orders[a].venueOrderId.Some? ==>
                     db.orders[a].venueOrderId != db.orders[b].venueOrderId
  }

  /** The order's state after its first `k` audit rows. */
  function LogState(log: seq<TransitionRow>, k: nat): Machine.State
    requires k <= |log|
  {
    if k == 0 then Machine.FRESH else Machine.State(log[k - 1].to, log[k - 1].filledQty)
  }

  /** A row never lowers the rank or the fill, and raises one of them. */
  ghost predicate Raises(before: Machine.State, after: Machine.State) {
    && Machine.Known(before.status) && Machine.Known(after.status)
    && var b, a := Machine.Rank(before.status).value, Machine.Rank(after.status).value;
       && b <= a
       && before.filledQty <= after.filledQty
       && (b < a || before.filledQty < after.filledQty)
       && (Machine.Terminal(before.status) ==> after.status == before.status)
  }

  /** Row `k` carries number k + 1, starts where the row before ended, and makes progress. */
  ghost predicate LogRowOk(log: seq<TransitionRow>, k: nat)
    requires k < |log|
  {
    && log[k].seqNo == k + 1
    && log[k].from == LogState(log, k).status
    && Raises(LogState(log, k), LogState(log, k + 1))
  }

  ghost predicate Chained(log: seq<TransitionRow>) {
    forall k :: 0 <= k < |log| ==> LogRowOk(log, k)
  }

  /** A gap-free log that ends at the order row; at most three of its rows carry no fill. */
  ghost predicate LogExact(log: seq<TransitionRow>, row: OrderRow, fills: nat) {
    && Chained(log)
    && LogState(log, |log|) == StateOf(row)
    && Machine.Known(row.status)
    && |log| <= Machine.Rank(row.status).value + fills
  }

  ghost predicate LogsExact(db: Db) {
    && (forall k :: 0 <= k < |db.transitions| ==> db.transitions[k].order in db.orders)
    && forall id :: id in db.orders ==> LogExactFor(db, id)
  }

  ghost predicate LogExactFor(db: Db, id: string)
    requires id in db.orders
  {
    LogExact(LogOf(db.transitions, id), db.orders[id], |HistoryOf(db.fills, id)|)
  }

  ghost predicate FillRowOk(db: Db, f: FillRow) {
    && f.order in db.orders
    && f.qty > 0.0
    && (f.price.Some? ==> f.price.value > 0.0)
    && f.transition < |db.transitions|
    && db.transitions[f.transition].order == f.order
  }

  ghost predicate FillsOk(db: Db) {
    && (forall k :: 0 <= k < |db.fills| ==> FillRowOk(db, db.fills[k]))
    && (forall j, k :: 0 <= j < k < |db.fills| && db.fills[j].order == db.fills[k].order
                       && db.fills[j].venueFillId.Some? ==>
                         db.fills[j].venueFillId != db.fills[k].venueFillId)
  }

  /** The order row carries exactly the sum and the running average of its fills. */
  ghost predicate TotalsExact(db: Db) {
    forall id :: id in db.orders ==> TotalsExactFor(db, id)
  }

  ghost predicate TotalsExactFor(db: Db, id: string)
    requires id in db.orders
  {
    && db.orders[id].filledQty == AveragePrice.Quantity(HistoryOf(db.fills, id))
    && db.orders[id].avgFillPrice == AveragePrice.Average(HistoryOf(db.fills, id))
  }

  /**
   Where a fill went: a buy opened exactly one lot of its quantity, a sell was taken from
   lots except for the part recorded as unmatched.
   */
  ghost predicate Accounted(t: Ledger.Tables, f: nat, side: Side, inventory: Inventory, qty: Decimal) {
    if side.Buy? then
      && OpenedLot(t, f, inventory, qty)
      && Ledger.ClosedByFill(t.closures, f) == 0.0
      && Ledger.UnmatchedOf(t.unmatched, f) == 0.0
    else
      && Ledger.ClosedByFill(t.closures, f) + Ledger.UnmatchedOf(t.unmatched, f) == qty
      && (forall i :: 0 <= i < |t.lots| ==> t.lots[i].openedBy != f)
  }

  ghost predicate OpenedLot(t: Ledger.Tables, f: nat, inventory: Inventory, qty: Decimal) {
    exists i :: 0 <= i < |t.lots| && t.lots[i].openedBy == f && t.lots[i].lot.inventory == inventory &&
        t.lots[i].lot.qty == qty
  }

  ghost predicate FillAccounted(db: Db, f: nat)
    requires f < |db.fills|
  {
    && db.fills[f].order in db.orders
    && var row := db.orders[db.fills[f].order];
       Accounted(db.ledger, f, row.side, InventoryOf(row), db.fills[f].qty)
  }

  ghost predicate FillsAccounted(db: Db) {
    forall f :: 0 <= f < |db.fills| ==> FillAccounted(db, f)
  }

  /** Fill `f` exists, is of a `buy` (or sell) order, and belongs to `inventory`. */
  ghost predicate OwnedBy(db: Db, f: nat, buy: bool, inventory: Inventory) {
    && f < |db.fills|
    && db.fills[f].order in db.orders
    && var row := db.orders[db.fills[f].order];
       row.side.Buy? == buy && InventoryOf(row) == inventory
  }

  /** Ledger rows never cross an inventory: lot, closure and unmatched row agree with their fill's order. */
  ghost predicate InventoriesAgree(db: Db) {
    && (forall i :: 0 <= i < |db.ledger.lots| ==>
        OwnedBy(db, db.ledger.lots[i].openedBy, true, db.ledger.lots[i].lot.inventory))
    && (forall i :: 0 <= i < |db.ledger.closures| ==> ClosureAgrees(db, db.ledger.closures[i]))
    && (forall i :: 0 <= i < |db.ledger.unmatched| ==>
          OwnedBy(db, db.ledger.unmatched[i].fillId, false, db.ledger.unmatched[i].inventory))
  }

  ghost predicate ClosureAgrees(db: Db, c: Ledger.ClosureRow) {
    exists i :: 0 <= i < |db.ledger.lots| && db.ledger.lots[i].lot.id == c.lotId
                && OwnedBy(db, c.fillId, false, db.ledger.lots[i].lot.inventory)
  }

  /** Bought less sold, over every fill of one inventory. */
  function NetFilled(fills: seq<FillRow>, orders: map<string, OrderRow>, inventory: Inventory): Decimal {
    if fills == [] then 0.0
    else
      var f := fills[|fills| - 1];
      NetFilled(fills[..|fills| - 1], orders, inventory) +
      if f.order !in orders || InventoryOf(orders[f.order]) != inventory then 0.0
      else if orders[f.order].side.Buy? then f.qty
      else -f.qty
  }

  /** What is held, less what was sold without being held, is what was bought less what was sold. */
  ghost predicate PositionsConserved(db: Db) {
    forall v :: NetFilled(db.fills, db.orders, v) ==
                Ledger.HeldIn(db.ledger.lots, v) - Ledger.UnmatchedIn(db.ledger.unmatched, v)
  }

  ghost predicate OutboxExact(db: Db) {
    && (forall k :: 0 <= k < |db.outbox| ==> db.outbox[k].order in db.orders)
    && (forall id :: id in db.orders ==> OutboxExactFor(db, id))
  }

  /** One order.updated per audit row and one order.filled per fill, in order, with the same facts. */
  ghost predicate OutboxExactFor(db: Db, id: string) {
    && UpdatesOf(db.outbox, id) == StatesOf(db.transitions, id)
    && FilledOf(db.outbox, id) == FactsOf(db.fills, id)
  }

  ghost predicate Valid(db: Db) {
    && RowsOk(db)
    && VenueIdsUnique(db)
    && LogsExact(db)
    && FillsOk(db)
    && TotalsExact(db)
    && Ledger.Valid(db.ledger)
    && FillsAccounted(db)
    && InventoriesAgree(db)
    && PositionsConserved(db)
    && OutboxExact(db)
  }

  // ---------- Projections of appended rows ----------

  lemma SnocLog(ts: seq<TransitionRow>, t: TransitionRow, id: string)
    ensures LogOf(ts + [t], id) == LogOf(ts, id) + (if t.order == id then [t] else [])
    ensures StatesOf(ts + [t], id) ==
            StatesOf(ts, id) + (if t.order == id then [Machine.State(t.to, t.filledQty)] else [])
  {
    assert (ts + [t])[..|ts|] == ts;
  }

  function FactsOfRow(f: FillRow): FillFacts {
    FillFacts(f.qty, f.price, f.fee, f.feeCurrency, f.venueFillId, f.at)
  }

  lemma SnocFill(fills: seq<FillRow>, f: FillRow, id: string)
    ensures HistoryOf(fills + [f], id) ==
            HistoryOf(fills, id) + (if f.order == id then [AveragePrice.Priced(f.qty, f.price)] else [])
    ensures FactsOf(fills + [f], id) == FactsOf(fills, id) + (if f.order == id then [FactsOfRow(f)] else [])
  {
    assert (fills + [f])[..|fills|] == fills;
  }

  lemma SnocNet(fills: seq<FillRow>, f: FillRow, orders: map<string, OrderRow>, v: Inventory)
    ensures NetFilled(fills + [f], orders, v) ==
            NetFilled(fills, orders, v) +
            (if f.order !in orders || InventoryOf(orders[f.order]) != v then 0.0
             else if orders[f.order].side.Buy? then f.qty else -f.qty)
  {
    assert (fills + [f])[..|fills|] == fills;
  }

  function FactsOfMessage(m: Message): FillFacts
    requires m.OrderFilled?
  {
    FillFacts(m.qty, NullNumeric(m.price), NullNumeric(m.fee), NullString(m.feeCurrency), NullString(m.venueFillId),
        m.at)
  }

  lemma SnocMessage(outbox: seq<Message>, m: Message, id: string)
    ensures UpdatesOf(outbox + [m], id) ==
            UpdatesOf(outbox, id) + (if m.OrderUpdated? && m.order == id then [Machine.State(m.status, m.filledQty)]
                else [])
    ensures FilledOf(outbox + [m], id) ==
            FilledOf(outbox, id) + (if m.OrderFilled? && m.order == id then [FactsOfMessage(m)] else [])
  {
    assert (outbox + [m])[..|outbox|] == outbox;
  }

  lemma SnocPriced(h: seq<AveragePrice.Priced>, p: AveragePrice.Priced)
    ensures AveragePrice.Quantity(h + [p]) == AveragePrice.Quantity(h) + p.qty
    ensures AveragePrice.Average(h + [p]) ==
            AveragePrice.Next(AveragePrice.Average(h), AveragePrice.Quantity(h), p.qty, FromNumeric(p.price))
  {
    assert (h + [p])[..|h|] == h;
  }

  lemma {:induction false} NothingForUnknown(db: Db, id: string)
    requires id !in db.orders
    requires forall k :: 0 <= k < |db.transitions| ==> db.transitions[k].order in db.orders
    requires forall k :: 0 <= k < |db.fills| ==> db.fills[k].order in db.orders
    ensures LogOf(db.transitions, id) == []
    ensures HistoryOf(db.fills, id) == []
    decreases |db.transitions| + |db.fills|
  {
    if db.transitions != [] {
      NothingForUnknown(db.(transitions := db.transitions[..|db.transitions| - 1]), id);
    }
    if db.fills != [] {
      NothingForUnknown(db.(fills := db.fills[..|db.fills| - 1]), id);
    }
  }

  lemma {:induction false} MaxIsLength(ts: seq<TransitionRow>, id: string)
    requires var log := LogOf(ts, id); forall k :: 0 <= k < |log| ==> log[k].seqNo == k + 1
    ensures MaxSeqNo(ts, id) == |LogOf(ts, id)|
  {
    if ts != [] {
      var init := ts[..|ts| - 1];
      assert LogOf(ts, id)[..|LogOf(init, id)|] == LogOf(init, id);
      forall k | 0 <= k < |LogOf(init, id)| ensures LogOf(init, id)[k].seqNo == k + 1 {
        assert LogOf(ts, id)[k] == LogOf(init, id)[k];
      }
      MaxIsLength(init, id);
      if ts[|ts| - 1].order == id {
        assert LogOf(ts, id)[|LogOf(init, id)|] == ts[|ts| - 1];
      }
    }
  }

  // ---------- Orders keep their identity ----------

  predicate SameIdentity(a: OrderRow, b: OrderRow) {
    && a.bot == b.bot && a.instrument == b.instrument && a.side == b.side && a.kind == b.kind
    && a.price == b.price && a.qty == b.qty && a.createdAt == b.createdAt
  }

  ghost predicate IdentityKept(before: map<string, OrderRow>, after: map<string, OrderRow>) {
    forall id :: id in before ==> id in after && SameIdentity(before[id], after[id])
  }

  lemma {:induction false} NetFilledKept(fills: seq<FillRow>, before: map<string, OrderRow>,
                                         after: map<string, OrderRow>, v: Inventory)
    requires IdentityKept(before, after)
    requires forall k :: 0 <= k < |fills| ==> fills[k].order in before
    ensures NetFilled(fills, before, v) == NetFilled(fills, after, v)
  {
    if fills != [] {
      NetFilledKept(fills[..|fills| - 1], before, after, v);
    }
  }
}

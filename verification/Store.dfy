/**
 The order tables as one value, and what each store operation does to it. An operation
 either yields the tables its transaction commits, or an error and nothing.
 */
module Store {
  import opened Prelude
  import opened Domain
  import Machine
  import Ledger
  import AveragePrice

  datatype OrderRow = OrderRow(
    bot: string,
    instrument: Instrument,
    side: Side,
    kind: Kind,
    price: Decimal,
    qty: Decimal,
    filledQty: Decimal,
    avgFillPrice: Option<Decimal>,
    status: Status,
    venueOrderId: Option<string>,
    cancelRequestedAt: Option<Instant>,
    reason: Option<string>,
    createdAt: Instant,
    updatedAt: Instant)

  datatype TransitionRow = TransitionRow(
    order: string,
    seqNo: nat,
    from: Status,
    to: Status,
    filledQty: Decimal,
    source: Source,
    reason: Option<string>,
    at: Instant)

  datatype FillRow = FillRow(
    order: string,
    transition: nat,
    qty: Decimal,
    price: Option<Decimal>,
    fee: Option<Decimal>,
    feeCurrency: Option<string>,
    venueFillId: Option<string>,
    at: Instant)

  datatype Message =
    | OrderUpdated(order: string, inventory: Inventory, status: Status, filledQty: Decimal, source: Source, at: Instant)
    | OrderFilled(order: string, inventory: Inventory, status: Status, filledQty: Decimal, qty: Decimal,
                  price: Decimal, fee: Decimal, feeCurrency: string, venueFillId: string, at: Instant)
    | UnmatchedSell(order: string, inventory: Inventory, fillId: nat, unmatchedQty: Decimal)

  /** Rows of the sequences are numbered by position, which stands for their identity column. */
  datatype Db = Db(
    orders: map<string, OrderRow>,
    transitions: seq<TransitionRow>,
    fills: seq<FillRow>,
    ledger: Ledger.Tables,
    outbox: seq<Message>)

  const EMPTY: Db := Db(map[], [], [], Ledger.EMPTY, [])

  datatype StoreError =
    | NotFound
    | BadStatus(cause: Machine.MachineError)
    | LedgerRefused(refusal: Ledger.LedgerError)
    | VenueOrderIdTaken
    | CheckViolated

  datatype ApplyResult = ApplyResult(decision: Machine.Decision, unmatchedQty: Decimal, fillConflict: bool)

  function InventoryOf(row: OrderRow): Inventory {
    Inventory(row.bot, row.instrument.venue, row.instrument.base, row.instrument.quote)
  }

  function StateOf(row: OrderRow): Machine.State {
    Machine.State(row.status, row.filledQty)
  }

  // ---------- Commands ----------

  function PendingRow(req: Request, now: Instant): OrderRow {
    OrderRow(req.bot, req.instrument, req.side, req.kind, req.price, req.qty, 0.0, None, Pending,
             None, None, None, now, now)
  }

  /** Inserting an order that exists already is a no-op that reports false. */
  function CreatePending(db: Db, req: Request, now: Instant): Result<(Db, bool), StoreError> {
    if req.side.UnsupportedSide? || req.kind.UnsupportedKind? then Err(CheckViolated)
    else if req.clientOrderId in db.orders then Ok((db, false))
    else Ok((db.(orders := db.orders[req.clientOrderId := PendingRow(req, now)]), true))
  }

  /** The first cancel timestamp wins. */
  function MarkCancelRequested(db: Db, id: string, at: Instant, now: Instant): Result<Db, StoreError> {
    if id !in db.orders then Err(NotFound)
    else
      var row := db.orders[id];
      var first := if row.cancelRequestedAt.Some? then row.cancelRequestedAt else Some(at);
      Ok(db.(orders := db.orders[id := row.(cancelRequestedAt := first, updatedAt := now)]))
  }

  // ---------- Applying a venue event ----------

  /** The partial unique index on (venue, venue_order_id), for a row about to carry `vid`. */
  predicate VenueOrderIdFree(db: Db, id: string, venue: string, vid: Option<string>) {
    vid.Some? ==>
      forall other :: other in db.orders && other != id && db.orders[other].instrument.venue == venue ==>
        db.orders[other].venueOrderId != vid
  }

  function MaxSeqNo(transitions: seq<TransitionRow>, id: string): nat {
    if transitions == [] then 0
    else
      var last := transitions[|transitions| - 1];
      var before := MaxSeqNo(transitions[..|transitions| - 1], id);
      if last.order == id && last.seqNo > before then last.seqNo else before
  }

  function InsertTransition(db: Db, id: string, d: Machine.Decision, source: Source, ev: Event): Db
    requires id in db.orders
  {
    var row := db.orders[id];
    db.(transitions := db.transitions + [
      TransitionRow(id, MaxSeqNo(db.transitions, id) + 1, row.status, d.to, row.filledQty + d.fillDelta,
                    source, NullString(ev.reason), ev.at)])
  }

  predicate FillIdUsed(fills: seq<FillRow>, id: string, vfid: string) {
    exists i :: 0 <= i < |fills| && fills[i].order == id && fills[i].venueFillId == Some(vfid)
  }

  predicate Conflicts(db: Db, id: string, ev: Event) {
    ev.venueFillId != "" && FillIdUsed(db.fills, id, ev.venueFillId)
  }

  /** On a fill-ID conflict the delta is kept but the facts tied to that ID are dropped. */
  function WithoutFillId(ev: Event): Event {
    ev.(venueFillId := "", fee := 0.0, feeCurrency := "")
  }

  function RecordedEvent(db: Db, id: string, ev: Event): Event {
    if Conflicts(db, id, ev) then WithoutFillId(ev) else ev
  }

  function NewFill(db: Db, id: string, ev: Event, qty: Decimal): FillRow
    requires db.transitions != []
  {
    FillRow(id, |db.transitions| - 1, qty, NullNumeric(ev.fillPrice), NullNumeric(ev.fee),
            NullString(ev.feeCurrency), NullString(ev.venueFillId), ev.at)
  }

  function LedgerFill(db: Db, id: string, ev: Event, qty: Decimal): Ledger.Fill
    requires id in db.orders
  {
    Ledger.Fill(|db.fills|, db.orders[id].side, InventoryOf(db.orders[id]), qty, ev.fillPrice, ev.at)
  }

  /** The fill row, its ledger posting, and the oversell message if there is one. */
  function RecordFill(db: Db, id: string, ev: Event, qty: Decimal, lotId: string): Result<(Db, Decimal), StoreError>
    requires id in db.orders && db.transitions != []
  {
    match Ledger.Post(db.ledger, LedgerFill(db, id, ev, qty), lotId)
    case Err(e) => Err(LedgerRefused(e))
    case Ok((ledger, unmatched)) =>
      Ok((db.(fills := db.fills + [NewFill(db, id, RecordedEvent(db, id, ev), qty)],
              ledger := ledger,
              outbox := db.outbox + (if unmatched > 0.0
                then [UnmatchedSell(id, InventoryOf(db.orders[id]), |db.fills|, unmatched)] else [])),
          unmatched))
  }

  function UpdatedRow(row: OrderRow, d: Machine.Decision, ev: Event, now: Instant): OrderRow {
    row.(status := d.to,
         filledQty := row.filledQty + d.fillDelta,
         avgFillPrice := AveragePrice.Next(row.avgFillPrice, row.filledQty, d.fillDelta, ev.fillPrice),
         venueOrderId := if row.venueOrderId.Some? then row.venueOrderId else NullString(ev.ref.venueOrderId),
         reason := if ev.reason == "" then row.reason else Some(ev.reason),
         updatedAt := now)
  }

  function Messages(id: string, row: OrderRow, source: Source, ev: Event, d: Machine.Decision): seq<Message> {
    var filled := row.filledQty + d.fillDelta;
    [OrderUpdated(id, InventoryOf(row), d.to, filled, source, ev.at)] +
    if d.fillDelta > 0.0 then
      [OrderFilled(id, InventoryOf(row), d.to, filled, d.fillDelta, ev.fillPrice, ev.fee, ev.feeCurrency,
          ev.venueFillId, ev.at)]
    else []
  }

  /** The order row and the outbox messages, last of a transaction's writes. */
  function Finish(db: Db, id: string, source: Source, ev: Event, d: Machine.Decision,
                  now: Instant): Result<Db, StoreError>
    requires id in db.orders
  {
    var row := db.orders[id];
    var updated := UpdatedRow(row, d, ev, now);
    if !VenueOrderIdFree(db, id, row.instrument.venue, updated.venueOrderId) then Err(VenueOrderIdTaken)
    else Ok(db.(orders := db.orders[id := updated], outbox := db.outbox + Messages(id, row, source, ev, d)))
  }

  function Persist(db: Db, source: Source, ev: Event, d: Machine.Decision, lotId: string,
                   now: Instant): Result<(Db, ApplyResult), StoreError>
    requires ev.ref.clientOrderId in db.orders
  {
    var id := ev.ref.clientOrderId;
    var db1 := InsertTransition(db, id, d, source, ev);
    if d.fillDelta > 0.0 then
      var (db2, unmatched) :- RecordFill(db1, id, ev, d.fillDelta, lotId);
      var db3 :- Finish(db2, id, source, RecordedEvent(db1, id, ev), d, now);
      Ok((db3, ApplyResult(d, unmatched, Conflicts(db1, id, ev))))
    else
      var db3 :- Finish(db1, id, source, ev, d, now);
      Ok((db3, ApplyResult(d, 0.0, false)))
  }

  /** A venue order ID is kept even when the state event that carried it drops. */
  function Adopt(db: Db, id: string, vid: string, now: Instant): Result<Db, StoreError>
    requires id in db.orders
  {
    var row := db.orders[id];
    if row.venueOrderId.Some? || vid == "" then Ok(db)
    else if !VenueOrderIdFree(db, id, row.instrument.venue, Some(vid)) then Err(VenueOrderIdTaken)
    else Ok(db.(orders := db.orders[id := row.(venueOrderId := Some(vid), updatedAt := now)]))
  }

  predicate Persists(d: Machine.Decision) {
    d.transition || d.fillDelta > 0.0
  }

  function ApplyEvent(db: Db, source: Source, ev: Event, lotId: string,
                      now: Instant): Result<(Db, ApplyResult), StoreError> {
    var id := ev.ref.clientOrderId;
    if id !in db.orders then Err(NotFound)
    else
      match Machine.Transition(StateOf(db.orders[id]), ev)
      case Err(e) => Err(BadStatus(e))
      case Ok(d) =>
        if Persists(d) then Persist(db, source, ev, d, lotId, now)
        else
          var db1 :- Adopt(db, id, ev.ref.venueOrderId, now);
          Ok((db1, ApplyResult(d, 0.0, false)))
  }

  // ---------- Runs ----------

  datatype Op =
    | Create(req: Request, now: Instant)
    | Apply(source: Source, ev: Event, lotId: string, now: Instant)
    | MarkCancel(id: string, at: Instant, now: Instant)

  /** The order whose row an operation inserts or locks. */
  function OrderOf(op: Op): string {
    match op
    case Create(req, _) => req.clientOrderId
    case Apply(_, ev, _, _) => ev.ref.clientOrderId
    case MarkCancel(id, _, _) => id
  }

  /** A failed operation rolls back. */
  function Exec(db: Db, op: Op): Db {
    match op
    case Create(req, now) =>
      (match CreatePending(db, req, now)
       case Ok(r) => r.0
       case Err(_) => db)
    case Apply(source, ev, lotId, now) =>
      (match ApplyEvent(db, source, ev, lotId, now)
       case Ok(r) => r.0
       case Err(_) => db)
    case MarkCancel(id, at, now) =>
      (match MarkCancelRequested(db, id, at, now)
       case Ok(r) => r
       case Err(_) => db)
  }

  function Run(db: Db, ops: seq<Op>): Db
    decreases ops
  {
    if ops == [] then db else Run(Exec(db, ops[0]), ops[1..])
  }
}

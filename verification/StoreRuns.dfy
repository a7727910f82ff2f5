/** The store over whole runs: exact books, exact failure conditions, idempotence, convergence. */
module StoreRuns {
  import opened Prelude
  import opened Domain
  import opened Store
  import opened StoreInvariant
  import opened StoreProof
  import Machine
  import Ledger
  import AveragePrice
  import Profit

  // ---------- Rewriting a single order row ----------

  /** Row changes that leave identity, state, fill and average alone. */
  ghost predicate Cosmetic(a: OrderRow, b: OrderRow) {
    SameIdentity(a, b) && a.status == b.status && a.filledQty == b.filledQty && a.avgFillPrice == b.avgFillPrice
  }

  lemma CosmeticKeepsRows(db: Db, id: string, row: OrderRow)
    requires RowsOk(db) && VenueIdsUnique(db) && id in db.orders && Cosmetic(db.orders[id], row)
    requires row.venueOrderId == db.orders[id].venueOrderId ||
        VenueOrderIdFree(db, id, row.instrument.venue, row.venueOrderId)
    ensures RowsOk(db.(orders := db.orders[id := row])) && VenueIdsUnique(db.(orders := db.orders[id := row]))
  {
    assert RowOk(db.orders[id]);
  }

  lemma CosmeticKeepsExactness(db: Db, id: string, row: OrderRow)
    requires LogsExact(db) && TotalsExact(db) && OutboxExact(db) && id in db.orders && Cosmetic(db.orders[id], row)
    ensures var db' := db.(orders := db.orders[id := row]);
            LogsExact(db') && TotalsExact(db') && OutboxExact(db')
  {
    var db' := db.(orders := db.orders[id := row]);
    forall x | x in db'.orders ensures LogExactFor(db', x) {
      assert LogExactFor(db, x);
    }
    forall x | x in db'.orders ensures TotalsExactFor(db', x) && OutboxExactFor(db', x) {
      assert TotalsExactFor(db, x) && OutboxExactFor(db, x);
    }
  }

  lemma CosmeticKeepsValid(db: Db, id: string, row: OrderRow)
    requires Valid(db) && id in db.orders && Cosmetic(db.orders[id], row)
    requires row.venueOrderId == db.orders[id].venueOrderId ||
        VenueOrderIdFree(db, id, row.instrument.venue, row.venueOrderId)
    ensures Valid(db.(orders := db.orders[id := row]))
  {
    CosmeticKeepsRows(db, id, row);
    CosmeticKeepsExactness(db, id, row);
    RowsKeptKeepsBooks(db, db.(orders := db.orders[id := row]));
  }

  /** Books survive any change of order rows that keeps identities and touches nothing else. */
  lemma RowsKeptKeepsBooks(db: Db, db': Db)
    requires FillsOk(db) && FillsAccounted(db) && InventoriesAgree(db) && PositionsConserved(db)
    requires IdentityKept(db.orders, db'.orders)
    requires db'.transitions == db.transitions && db'.fills == db.fills && db'.ledger == db.ledger
    ensures FillsOk(db') && FillsAccounted(db') && InventoriesAgree(db') && PositionsConserved(db')
  {
    forall k | 0 <= k < |db.fills| ensures FillRowOk(db', db.fills[k]) {
      assert FillRowOk(db, db.fills[k]);
    }
    forall f | 0 <= f < |db'.fills| ensures FillAccounted(db', f) {
      assert FillAccounted(db, f);
    }
    QuietAgrees(db, db');
    forall v ensures NetFilled(db'.fills, db'.orders, v) == NetFilled(db.fills, db.orders, v) {
      NetFilledKept(db.fills, db.orders, db'.orders, v);
    }
  }

  lemma NewOrderKeepsExactness(db: Db, id: string, row: OrderRow)
    requires LogsExact(db) && TotalsExact(db) && OutboxExact(db) && id !in db.orders
    requires forall k :: 0 <= k < |db.fills| ==> db.fills[k].order in db.orders
    requires StateOf(row) == Machine.FRESH && row.avgFillPrice.None?
    ensures var db' := db.(orders := db.orders[id := row]);
            LogsExact(db') && TotalsExact(db') && OutboxExact(db')
  {
    var db' := db.(orders := db.orders[id := row]);
    NothingForUnknown(db, id);
    NothingAnnounced(db, id);
    forall x | x in db'.orders ensures LogExactFor(db', x) {
      assert x != id ==> LogExactFor(db, x);
    }
    forall x | x in db'.orders ensures TotalsExactFor(db', x) && OutboxExactFor(db', x) {
      assert x != id ==> TotalsExactFor(db, x) && OutboxExactFor(db, x);
    }
  }

  lemma NewOrderKeepsRows(db: Db, id: string, row: OrderRow)
    requires RowsOk(db) && VenueIdsUnique(db) && RowOk(row) && row.venueOrderId.None?
    ensures RowsOk(db.(orders := db.orders[id := row])) && VenueIdsUnique(db.(orders := db.orders[id := row]))
  {
  }

  lemma FillsNameOrders(db: Db)
    requires FillsOk(db)
    ensures forall k :: 0 <= k < |db.fills| ==> db.fills[k].order in db.orders
  {
    forall k | 0 <= k < |db.fills| ensures db.fills[k].order in db.orders {
      assert FillRowOk(db, db.fills[k]);
    }
  }

  lemma NewOrderKeepsValid(db: Db, req: Request, now: Instant)
    requires Valid(db) && req.clientOrderId !in db.orders
    requires !req.side.UnsupportedSide? && !req.kind.UnsupportedKind?
    ensures Valid(db.(orders := db.orders[req.clientOrderId := PendingRow(req, now)]))
  {
    FillsNameOrders(db);
    NewOrderKeepsRows(db, req.clientOrderId, PendingRow(req, now));
    NewOrderKeepsExactness(db, req.clientOrderId, PendingRow(req, now));
    RowsKeptKeepsBooks(db, db.(orders := db.orders[req.clientOrderId := PendingRow(req, now)]));
  }

  lemma {:induction false} NoStates(ts: seq<TransitionRow>, id: string)
    requires forall k :: 0 <= k < |ts| ==> ts[k].order != id
    ensures StatesOf(ts, id) == []
  {
    if ts != [] {
      NoStates(ts[..|ts| - 1], id);
    }
  }

  lemma {:induction false} NoFacts(fills: seq<FillRow>, id: string)
    requires forall k :: 0 <= k < |fills| ==> fills[k].order != id
    ensures FactsOf(fills, id) == []
  {
    if fills != [] {
      NoFacts(fills[..|fills| - 1], id);
    }
  }

  lemma {:induction false} NoMessages(outbox: seq<Message>, id: string)
    requires forall k :: 0 <= k < |outbox| ==> outbox[k].order != id
    ensures UpdatesOf(outbox, id) == [] && FilledOf(outbox, id) == []
  {
    if outbox != [] {
      NoMessages(outbox[..|outbox| - 1], id);
    }
  }

  lemma NothingAnnounced(db: Db, id: string)
    requires id !in db.orders
    requires forall k :: 0 <= k < |db.transitions| ==> db.transitions[k].order in db.orders
    requires forall k :: 0 <= k < |db.fills| ==> db.fills[k].order in db.orders
    requires forall k :: 0 <= k < |db.outbox| ==> db.outbox[k].order in db.orders
    ensures StatesOf(db.transitions, id) == [] && FactsOf(db.fills, id) == []
    ensures UpdatesOf(db.outbox, id) == [] && FilledOf(db.outbox, id) == []
  {
    NoStates(db.transitions, id);
    NoFacts(db.fills, id);
    NoMessages(db.outbox, id);
  }

  // ---------- Every operation ----------

  lemma AdoptKeepsValid(db: Db, id: string, vid: string, now: Instant)
    requires Valid(db) && id in db.orders
    ensures var r := Adopt(db, id, vid, now); r.Ok? ==> Valid(r.value)
  {
    if Adopt(db, id, vid, now).Ok? && Adopt(db, id, vid, now).value != db {
      CosmeticKeepsValid(db, id, db.orders[id].(venueOrderId := Some(vid), updatedAt := now));
    }
  }

  lemma PersistingKeepsValid(db: Db, w: Write)
    requires Valid(db) && Decided(db, w)
    ensures var r := Persist(db, w.source, w.ev, w.d, w.lotId, w.now); r.Ok? ==> Valid(r.value.0)
  {
    PersistWrites(db, w);
    var r := Persist(db, w.source, w.ev, w.d, w.lotId, w.now);
    if r.Ok? {
      PersistKeepsValid(db, w, r.value.1.unmatchedQty, r.value.0);
    }
  }

  lemma ApplyKeepsValid(db: Db, source: Source, ev: Event, lotId: string, now: Instant)
    requires Valid(db)
    ensures var r := ApplyEvent(db, source, ev, lotId, now); r.Ok? ==> Valid(r.value.0)
  {
    var id := ev.ref.clientOrderId;
    if id in db.orders {
      var decision := Machine.Transition(StateOf(db.orders[id]), ev);
      if decision.Ok? {
        if Persists(decision.value) {
          PersistingKeepsValid(db, Write(id, source, ev, decision.value, lotId, now));
        } else {
          AdoptKeepsValid(db, id, ev.ref.venueOrderId, now);
        }
      }
    }
  }

  lemma MarkKeepsValid(db: Db, id: string, at: Instant, now: Instant)
    requires Valid(db)
    ensures var r := MarkCancelRequested(db, id, at, now); r.Ok? ==> Valid(r.value)
  {
    if id in db.orders {
      CosmeticKeepsValid(db, id, MarkCancelRequested(db, id, at, now).value.orders[id]);
    }
  }

  lemma ExecKeepsValid(db: Db, op: Op)
    requires Valid(db)
    ensures Valid(Exec(db, op))
  {
    match op
    case Create(req, now) =>
      if !req.side.UnsupportedSide? && !req.kind.UnsupportedKind? && req.clientOrderId !in db.orders {
        NewOrderKeepsValid(db, req, now);
      }
    case Apply(source, ev, lotId, now) =>
      ApplyKeepsValid(db, source, ev, lotId, now);
    case MarkCancel(id, at, now) =>
      MarkKeepsValid(db, id, at, now);
  }

  lemma {:induction false} RunKeepsValid(db: Db, ops: seq<Op>)
    requires Valid(db)
    ensures Valid(Run(db, ops))
    decreases ops
  {
    if ops != [] {
      ExecKeepsValid(db, ops[0]);
      RunKeepsValid(Exec(db, ops[0]), ops[1..]);
    }
  }

  lemma {:induction false} RunKeepsPriced(db: Db, ops: seq<Op>)
    requires Valid(db) && Profit.Priced(db)
    ensures Profit.Priced(Run(db, ops))
    decreases ops
  {
    if ops != [] {
      ExecKeepsValid(db, ops[0]);
      Profit.ExecKeepsPriced(db, ops[0]);
      RunKeepsPriced(Exec(db, ops[0]), ops[1..]);
    }
  }

  /** Whatever is created, reported and canceled, in whatever order, the books are exact. */
  lemma EveryRunIsExact(ops: seq<Op>)
    ensures Valid(Run(EMPTY, ops)) && Profit.Priced(Run(EMPTY, ops))
  {
    RunKeepsValid(EMPTY, ops);
    Profit.NothingIsPriced();
    RunKeepsPriced(EMPTY, ops);
  }

  /**
   In every run the realized profit of an inventory is what its sells brought in, less the sales
   nothing was held for, less what its buys spent, plus the cost of what is still held.
   */
  lemma RealizedProfit(ops: seq<Op>, v: Inventory)
    ensures var db := Run(EMPTY, ops);
            Profit.Realized(db.ledger.lots, db.ledger.closures, v) ==
              Profit.Traded(db.fills, db.orders, false, v) - Profit.Uncovered(db.ledger.unmatched, db.fills, v)
              - Profit.Traded(db.fills, db.orders, true, v) + Profit.HeldCost(db.ledger.lots, v)
  {
    EveryRunIsExact(ops);
    Profit.RealizedIsCashPlusHeld(Run(EMPTY, ops), v);
  }

  // ---------- When applying an event fails ----------

  /** The fill quantity an event would add to a stored row. */
  function NewFillQty(row: OrderRow, ev: Event): Decimal {
    if Machine.Executes(ev) && ev.filledQty > row.filledQty then ev.filledQty - row.filledQty else 0.0
  }

  /** The event's venue order ID is news to this row and belongs to another order of the venue. */
  ghost predicate VenueIdClash(db: Db, id: string, vid: string)
    requires id in db.orders
  {
    && db.orders[id].venueOrderId.None?
    && vid != ""
    && !VenueOrderIdFree(db, id, db.orders[id].instrument.venue, Some(vid))
  }

  ghost predicate Refusable(db: Db, ev: Event, lotId: string) {
    var id := ev.ref.clientOrderId;
    || id !in db.orders
    || !Machine.Known(ev.status)
    || (NewFillQty(db.orders[id], ev) > 0.0 &&
        (ev.fillPrice < 0.0 || (db.orders[id].side.Buy? && Ledger.HasLot(db.ledger.lots, lotId))))
    || VenueIdClash(db, id, ev.ref.venueOrderId)
  }

  lemma RowKeepsItsVenueId(db: Db, id: string)
    requires VenueIdsUnique(db) && id in db.orders
    ensures VenueOrderIdFree(db, id, db.orders[id].instrument.venue, db.orders[id].venueOrderId)
  {
  }

  lemma DecisionFillIsNewFill(row: OrderRow, ev: Event)
    requires Machine.Known(row.status) && Machine.Known(ev.status)
    ensures Machine.Transition(StateOf(row), ev).value.fillDelta == NewFillQty(row, ev)
  {
  }

  /** How a posting of the next fill comes out. */
  lemma NextPosting(db: Db, w: Write)
    requires RowsOk(db) && Ledger.Valid(db.ledger) && InventoriesAgree(db)
    requires Decided(db, w) && w.d.fillDelta > 0.0
    ensures var r := Ledger.Post(db.ledger, FillToPost(db, w), w.lotId);
            && (r.Err? <==>
                  || w.ev.fillPrice < 0.0
                  || (db.orders[w.id].side.Buy? && Ledger.HasLot(db.ledger.lots, w.lotId)))
            && (r.Err? ==> r.error == Ledger.NegativePrice || r.error == Ledger.LotIdTaken)
  {
    NextFillUnposted(db);
    assert RowOk(db.orders[w.id]);
    Ledger.PostKeepsValid(db.ledger, FillToPost(db, w), w.lotId);
  }

  lemma PersistFailsIff(db: Db, w: Write)
    requires Valid(db) && Decided(db, w)
    ensures var r := Persist(db, w.source, w.ev, w.d, w.lotId, w.now);
            && (r.Err? <==>
                  || (w.d.fillDelta > 0.0 &&
                      (w.ev.fillPrice < 0.0 || (db.orders[w.id].side.Buy? && Ledger.HasLot(db.ledger.lots, w.lotId))))
                  || VenueIdClash(db, w.id, w.ev.ref.venueOrderId))
            && (r.Err? ==> r.error in {LedgerRefused(Ledger.NegativePrice), LedgerRefused(Ledger.LotIdTaken),
                VenueOrderIdTaken})
  {
    PersistWrites(db, w);
    RowKeepsItsVenueId(db, w.id);
    if w.d.fillDelta > 0.0 {
      NextPosting(db, w);
    }
  }

  /**
   From a reachable state the only failures are the ones a caller can foresee. In particular
   no CHECK, UNIQUE or foreign key constraint of the ledger tables ever fires.
   */
  lemma ApplyFailsIff(db: Db, source: Source, ev: Event, lotId: string, now: Instant)
    requires Valid(db)
    ensures var r := ApplyEvent(db, source, ev, lotId, now);
            && (r.Err? <==> Refusable(db, ev, lotId))
            && (r.Err? ==>
                  || r.error == NotFound
                  || r.error == BadStatus(Machine.UnknownStatus(ev.status))
                  || r.error in {LedgerRefused(Ledger.NegativePrice), LedgerRefused(Ledger.LotIdTaken),
                      VenueOrderIdTaken})
  {
    var id := ev.ref.clientOrderId;
    if id in db.orders {
      KnownRow(db, id);
      if Machine.Known(ev.status) {
        var d := Machine.Transition(StateOf(db.orders[id]), ev).value;
        DecisionFillIsNewFill(db.orders[id], ev);
        if Persists(d) {
          PersistFailsIff(db, Write(id, source, ev, d, lotId, now));
        } else {
          DropFailsIff(db, source, ev, lotId, now);
        }
      }
    }
  }

  lemma KnownRow(db: Db, id: string)
    requires RowsOk(db) && id in db.orders
    ensures Machine.Known(db.orders[id].status)
  {
    assert RowOk(db.orders[id]);
  }

  lemma DropFailsIff(db: Db, source: Source, ev: Event, lotId: string, now: Instant)
    requires ev.ref.clientOrderId in db.orders
    requires Machine.Known(db.orders[ev.ref.clientOrderId].status) && Machine.Known(ev.status)
    requires !Persists(Machine.Transition(StateOf(db.orders[ev.ref.clientOrderId]), ev).value)
    ensures var r := ApplyEvent(db, source, ev, lotId, now);
            && (r.Err? <==> VenueIdClash(db, ev.ref.clientOrderId, ev.ref.venueOrderId))
            && (r.Err? ==> r.error == VenueOrderIdTaken)
  {
  }

  // ---------- Idempotence ----------

  /** The order's row already holds all `ev` could contribute, its venue order ID included. */
  ghost predicate Holds(db: Db, ev: Event) {
    && ev.ref.clientOrderId in db.orders
    && var row := db.orders[ev.ref.clientOrderId];
       && Machine.Absorbed(StateOf(row), ev)
       && (ev.ref.venueOrderId != "" ==> row.venueOrderId.Some?)
  }

  lemma AppliedIsHeld(db: Db, source: Source, ev: Event, lotId: string, now: Instant)
    requires RowsOk(db)
    requires ApplyEvent(db, source, ev, lotId, now).Ok?
    ensures Holds(ApplyEvent(db, source, ev, lotId, now).value.0, ev)
  {
    var id := ev.ref.clientOrderId;
    assert RowOk(db.orders[id]);
    Machine.StepAbsorbs(StateOf(db.orders[id]), ev);
    ApplySteps(db, source, ev, lotId, now);
  }

  /** A successful apply moves its own order as the state machine says, and only that order. */
  lemma ApplySteps(db: Db, source: Source, ev: Event, lotId: string, now: Instant)
    requires RowsOk(db)
    ensures var r := ApplyEvent(db, source, ev, lotId, now);
            r.Ok? ==>
              var id, db' := ev.ref.clientOrderId, r.value.0;
              && id in db.orders && id in db'.orders
              && db'.orders == db.orders[id := db'.orders[id]]
              && SameIdentity(db.orders[id], db'.orders[id])
              && StateOf(db'.orders[id]) == Machine.Step(StateOf(db.orders[id]), ev)
              && (db'.orders[id].venueOrderId ==
                  if db.orders[id].venueOrderId.Some? then db.orders[id].venueOrderId
                      else NullString(ev.ref.venueOrderId))
  {
    var id := ev.ref.clientOrderId;
    if id in db.orders {
      var decision := Machine.Transition(StateOf(db.orders[id]), ev);
      if decision.Ok? && Persists(decision.value) {
        PersistWrites(db, Write(id, source, ev, decision.value, lotId, now));
      } else if decision.Ok? {
        assert RowOk(db.orders[id]);
        DecisionFillIsNewFill(db.orders[id], ev);
        assert db.orders == db.orders[id := db.orders[id]];
      }
    }
  }

  lemma ExecKeepsHeld(db: Db, op: Op, ev: Event)
    requires RowsOk(db) && Holds(db, ev)
    ensures Holds(Exec(db, op), ev)
  {
    if op.Apply? {
      ApplySteps(db, op.source, op.ev, op.lotId, op.now);
      Machine.StepKeepsAbsorbed(StateOf(db.orders[ev.ref.clientOrderId]), ev, op.ev);
    }
  }

  lemma {:induction false} RunKeepsHeld(db: Db, ops: seq<Op>, ev: Event)
    requires Valid(db) && Holds(db, ev)
    ensures Holds(Run(db, ops), ev)
    decreases ops
  {
    if ops != [] {
      ExecKeepsHeld(db, ops[0], ev);
      ExecKeepsValid(db, ops[0]);
      RunKeepsHeld(Exec(db, ops[0]), ops[1..], ev);
    }
  }

  lemma HeldWritesNothing(db: Db, source: Source, ev: Event, lotId: string, now: Instant)
    requires RowsOk(db) && Holds(db, ev)
    ensures var r := ApplyEvent(db, source, ev, lotId, now);
            r.Ok? && r.value.0 == db && !r.value.1.decision.transition && r.value.1.decision.fillDelta == 0.0
  {
    Machine.AbsorbedIffDropped(StateOf(db.orders[ev.ref.clientOrderId]), ev);
  }

  /**
   Once an event has been applied, delivering it again at any later point, from any source
   and whatever happened in between, changes no row of any table.
   */
  lemma ReplayChangesNothing(db: Db, source: Source, ev: Event, lotId: string, now: Instant,
                             ops: seq<Op>, source': Source, lotId': string, now': Instant)
    requires Valid(db)
    requires ApplyEvent(db, source, ev, lotId, now).Ok?
    ensures var later := Run(ApplyEvent(db, source, ev, lotId, now).value.0, ops);
            var again := ApplyEvent(later, source', ev, lotId', now');
            again.Ok? && again.value.0 == later && again.value.1.decision.fillDelta == 0.0
  {
    var first := ApplyEvent(db, source, ev, lotId, now).value.0;
    AppliedIsHeld(db, source, ev, lotId, now);
    ApplyKeepsValid(db, source, ev, lotId, now);
    RunKeepsHeld(first, ops, ev);
    RunKeepsValid(first, ops);
    HeldWritesNothing(Run(first, ops), source', ev, lotId', now');
  }

  // ---------- Orders over a run ----------

  lemma ExecKeepsIdentity(db: Db, op: Op)
    requires RowsOk(db)
    ensures IdentityKept(db.orders, Exec(db, op).orders)
  {
    if op.Apply? {
      ApplySteps(db, op.source, op.ev, op.lotId, op.now);
    }
  }

  /** Orders are never deleted and their identity never changes. */
  lemma {:induction false} RunKeepsIdentity(db: Db, ops: seq<Op>)
    requires Valid(db)
    ensures IdentityKept(db.orders, Run(db, ops).orders)
    decreases ops
  {
    if ops != [] {
      ExecKeepsIdentity(db, ops[0]);
      ExecKeepsValid(db, ops[0]);
      RunKeepsIdentity(Exec(db, ops[0]), ops[1..]);
    }
  }

  lemma ExecAddsStamped(db: Db, op: Op, id: string)
    requires RowsOk(db) && id !in db.orders && id in Exec(db, op).orders
    ensures op.Create? && Exec(db, op).orders[id].createdAt == op.now
  {
    if op.Apply? {
      ApplySteps(db, op.source, op.ev, op.lotId, op.now);
    }
  }

  /** A row a run adds carries the time of the operation that created it. */
  lemma {:induction false} AddedRowsAreStamped(db: Db, ops: seq<Op>, id: string)
    requires Valid(db) && id !in db.orders && id in Run(db, ops).orders
    ensures exists k :: 0 <= k < |ops| && ops[k].Create? && ops[k].now == Run(db, ops).orders[id].createdAt
    decreases ops
  {
    var next := Exec(db, ops[0]);
    ExecKeepsValid(db, ops[0]);
    if id in next.orders {
      ExecAddsStamped(db, ops[0], id);
      RunKeepsIdentity(next, ops[1..]);
    } else {
      AddedRowsAreStamped(next, ops[1..], id);
      var k :| 0 <= k < |ops| - 1 && ops[1..][k].Create? && ops[1..][k].now == Run(next, ops[1..]).orders[id].createdAt;
      assert ops[k + 1] == ops[1..][k];
    }
  }

  /** The events a run applied to one order, in order. */
  function AppliedTo(db: Db, ops: seq<Op>, id: string): seq<Event>
    decreases ops
  {
    if ops == [] then []
    else Contribution(db, ops[0], id) + AppliedTo(Exec(db, ops[0]), ops[1..], id)
  }

  function Contribution(db: Db, op: Op, id: string): seq<Event> {
    if op.Apply? && op.ev.ref.clientOrderId == id && ApplyEvent(db, op.source, op.ev, op.lotId, op.now).Ok? then
        [op.ev] else []
  }

  lemma ExecSteps(db: Db, op: Op, id: string)
    requires RowsOk(db) && id in db.orders
    ensures id in Exec(db, op).orders
    ensures StateOf(Exec(db, op).orders[id]) == Machine.Fold(StateOf(db.orders[id]), Contribution(db, op, id))
  {
    if op.Apply? {
      ApplySteps(db, op.source, op.ev, op.lotId, op.now);
    }
  }

  lemma {:induction false} FoldConcat(s: Machine.State, xs: seq<Event>, ys: seq<Event>)
    ensures Machine.Fold(s, xs + ys) == Machine.Fold(Machine.Fold(s, xs), ys)
    decreases xs
  {
    if xs == [] {
      assert xs + ys == ys;
    } else {
      assert (xs + ys)[1..] == xs[1..] + ys;
      FoldConcat(Machine.Step(s, xs[0]), xs[1..], ys);
    }
  }

  /** A stored order is the fold of the events applied to it, through all other traffic. */
  lemma {:induction false} StateIsFold(db: Db, ops: seq<Op>, id: string)
    requires Valid(db) && id in db.orders
    ensures id in Run(db, ops).orders
    ensures StateOf(Run(db, ops).orders[id]) == Machine.Fold(StateOf(db.orders[id]), AppliedTo(db, ops, id))
    decreases ops
  {
    if ops != [] {
      var next := Exec(db, ops[0]);
      ExecKeepsValid(db, ops[0]);
      ExecSteps(db, ops[0], id);
      StateIsFold(next, ops[1..], id);
      FoldConcat(StateOf(db.orders[id]), Contribution(db, ops[0], id), AppliedTo(next, ops[1..], id));
    }
  }

  /**
   Two runs that apply the same events to an order in different orders leave it in the same
   state, unless the events carry contradictory terminal statuses.
   */
  lemma RunsConverge(db: Db, ops: seq<Op>, ops': seq<Op>, id: string)
    requires Valid(db) && id in db.orders
    requires multiset(AppliedTo(db, ops, id)) == multiset(AppliedTo(db, ops', id))
    requires Machine.TerminalsAgree(AppliedTo(db, ops, id))
    ensures id in Run(db, ops).orders && id in Run(db, ops').orders
    ensures StateOf(Run(db, ops).orders[id]) == StateOf(Run(db, ops').orders[id])
  {
    StateIsFold(db, ops, id);
    StateIsFold(db, ops', id);
    assert RowOk(db.orders[id]);
    Machine.AgreeingOrdersConverge(StateOf(db.orders[id]), AppliedTo(db, ops, id), AppliedTo(db, ops', id));
  }

  // ---------- What exact books mean for a reader ----------

  /** In every run, what was bought less what was sold is what is held less what was oversold. */
  lemma NetPosition(ops: seq<Op>, v: Inventory)
    ensures var db := Run(EMPTY, ops);
            NetFilled(db.fills, db.orders, v) ==
            Ledger.HeldIn(db.ledger.lots, v) - Ledger.UnmatchedIn(db.ledger.unmatched, v)
  {
    EveryRunIsExact(ops);
  }

  /** In every run, an order has at most three audit rows beyond its fills. */
  lemma AuditLogIsShort(ops: seq<Op>, id: string)
    requires id in Run(EMPTY, ops).orders
    ensures var db := Run(EMPTY, ops);
            |LogOf(db.transitions, id)| <= 3 + |HistoryOf(db.fills, id)|
  {
    EveryRunIsExact(ops);
    LogIsShort(Run(EMPTY, ops), id);
  }

  lemma LogIsShort(db: Db, id: string)
    requires LogsExact(db) && id in db.orders
    ensures |LogOf(db.transitions, id)| <= 3 + |HistoryOf(db.fills, id)|
  {
    assert LogExactFor(db, id);
  }

  lemma {:induction false} HistoryIsPositive(db: Db, id: string, fills: seq<FillRow>)
    requires forall k :: 0 <= k < |fills| ==> FillRowOk(db, fills[k])
    ensures AveragePrice.Positive(HistoryOf(fills, id))
  {
    if fills != [] {
      HistoryIsPositive(db, id, fills[..|fills| - 1]);
      assert FillRowOk(db, fills[|fills| - 1]);
    }
  }

  /** The stored average of any reachable order obeys every price range that rounding keeps. */
  lemma StoredAverageWithinPrices(db: Db, id: string, lo: Decimal, hi: Decimal)
    requires FillsOk(db) && TotalsExact(db) && id in db.orders
    requires 0.0 < lo <= hi && AveragePrice.RoundsInside(lo, hi)
    requires AveragePrice.Between(HistoryOf(db.fills, id), lo, hi)
    ensures var h, avg := HistoryOf(db.fills, id), db.orders[id].avgFillPrice;
            (avg.Some? <==> AveragePrice.SomePriced(h)) && (avg.Some? ==> lo <= avg.value <= hi)
  {
    assert TotalsExactFor(db, id);
    HistoryIsPositive(db, id, db.fills);
    AveragePrice.AverageWithinPrices(HistoryOf(db.fills, id), lo, hi);
  }

  /** With every fill priced at half a unit or more, it is near the exact mean. */
  lemma StoredAverageNearExact(db: Db, id: string)
    requires FillsOk(db) && TotalsExact(db) && id in db.orders
    requires HistoryOf(db.fills, id) != [] && AveragePrice.PricedFrom(HistoryOf(db.fills, id), AveragePrice.HALF)
    ensures var h, row := HistoryOf(db.fills, id), db.orders[id];
            && row.filledQty > 0.0 && row.avgFillPrice.Some?
            && var exact := AveragePrice.Notional(h) / row.filledQty;
               -AveragePrice.Drift(h) <= row.avgFillPrice.value - exact <= AveragePrice.Drift(h)
  {
    assert TotalsExactFor(db, id);
    HistoryIsPositive(db, id, db.fills);
    AveragePrice.AverageNearExact(HistoryOf(db.fills, id));
  }

  // ---------- First writes win ----------

  /** A venue order ID and a cancel timestamp, once there, stay what they are. */
  ghost predicate FirstsKept(before: OrderRow, after: OrderRow) {
    && (before.venueOrderId.Some? ==> after.venueOrderId == before.venueOrderId)
    && (before.cancelRequestedAt.Some? ==> after.cancelRequestedAt == before.cancelRequestedAt)
  }

  lemma ApplyKeepsFirsts(db: Db, source: Source, ev: Event, lotId: string, now: Instant, id: string)
    requires id in db.orders
    ensures var r := ApplyEvent(db, source, ev, lotId, now);
            r.Ok? ==> id in r.value.0.orders && FirstsKept(db.orders[id], r.value.0.orders[id])
  {
    var x := ev.ref.clientOrderId;
    if x in db.orders {
      var decision := Machine.Transition(StateOf(db.orders[x]), ev);
      if decision.Ok? && Persists(decision.value) {
        PersistWrites(db, Write(x, source, ev, decision.value, lotId, now));
      }
    }
  }

  lemma ExecKeepsFirsts(db: Db, op: Op, id: string)
    requires id in db.orders
    ensures id in Exec(db, op).orders && FirstsKept(db.orders[id], Exec(db, op).orders[id])
  {
    if op.Apply? {
      ApplyKeepsFirsts(db, op.source, op.ev, op.lotId, op.now, id);
    }
  }

  /** Over any run the first venue order ID and the first cancel timestamp win. */
  lemma {:induction false} FirstWritesWin(db: Db, ops: seq<Op>, id: string)
    requires id in db.orders
    ensures id in Run(db, ops).orders && FirstsKept(db.orders[id], Run(db, ops).orders[id])
    decreases ops
  {
    if ops != [] {
      ExecKeepsFirsts(db, ops[0], id);
      FirstWritesWin(Exec(db, ops[0]), ops[1..], id);
    }
  }

  // ---------- Oversells are announced ----------

  /** The oversell messages, as the rows they report. */
  function Announced(outbox: seq<Message>): seq<(nat, Inventory, Decimal)> {
    if outbox == [] then []
    else
      var m := outbox[|outbox| - 1];
      Announced(outbox[..|outbox| - 1]) + (if m.UnmatchedSell? then [(m.fillId, m.inventory, m.unmatchedQty)] else [])
  }

  function Oversells(rows: seq<Ledger.UnmatchedRow>): seq<(nat, Inventory, Decimal)> {
    seq(|rows|, i requires 0 <= i < |rows| => (rows[i].fillId, rows[i].inventory, rows[i].qty))
  }

  /** One message per unmatched row, in order, with its fill, inventory and quantity. */
  ghost predicate OversellsAnnounced(db: Db) {
    Announced(db.outbox) == Oversells(db.ledger.unmatched)
  }

  lemma AnnouncedSnoc(outbox: seq<Message>, m: Message)
    ensures Announced(outbox + [m]) ==
        Announced(outbox) + (if m.UnmatchedSell? then [(m.fillId, m.inventory, m.unmatchedQty)] else [])
  {
    assert (outbox + [m])[..|outbox|] == outbox;
  }

  lemma OversellsSnoc(rows: seq<Ledger.UnmatchedRow>, row: Ledger.UnmatchedRow)
    ensures Oversells(rows + [row]) == Oversells(rows) + [(row.fillId, row.inventory, row.qty)]
  {
  }

  /** The order messages of a write announce no oversell. */
  lemma OrderMessagesAreNone(base: seq<Message>, id: string, row: OrderRow, source: Source, ev: Event,
                             d: Machine.Decision)
    ensures Announced(base + Messages(id, row, source, ev, d)) == Announced(base)
  {
    var ms := Messages(id, row, source, ev, d);
    AnnouncedSnoc(base, ms[0]);
    if d.fillDelta > 0.0 {
      AnnouncedSnoc(base + [ms[0]], ms[1]);
      JoinTwo(base, ms);
    } else {
      assert ms == [ms[0]];
    }
  }

  /** A posting's unmatched rows grow by what it reports as unmatched. */
  lemma UnmatchedRowAppended(db: Db, w: Write, unmatched: Decimal, db': Db)
    requires RowsOk(db) && Ledger.Valid(db.ledger) && InventoriesAgree(db)
    requires Decided(db, w) && Wrote(db, w, unmatched, db')
    ensures var row := Ledger.UnmatchedRow(|db.fills|, InventoryOf(db.orders[w.id]), unmatched, w.ev.at);
            db'.ledger.unmatched == db.ledger.unmatched + (if unmatched > 0.0 then [row] else [])
  {
    if w.d.fillDelta > 0.0 {
      PostedLedger(db, w, unmatched, db');
    } else {
      assert db.ledger.unmatched + [] == db.ledger.unmatched;
    }
  }

  lemma AnnouncedTogether(outbox: seq<Message>, rows: seq<Ledger.UnmatchedRow>, m: Message, row: Ledger.UnmatchedRow)
    requires Announced(outbox) == Oversells(rows) && m.UnmatchedSell?
    requires row.fillId == m.fillId && row.inventory == m.inventory && row.qty == m.unmatchedQty
    ensures Announced(outbox + [m]) == Oversells(rows + [row])
  {
    AnnouncedSnoc(outbox, m);
    OversellsSnoc(rows, row);
  }

  lemma PersistAnnounces(db: Db, w: Write, unmatched: Decimal, db': Db)
    requires RowsOk(db) && Ledger.Valid(db.ledger) && InventoriesAgree(db) && OversellsAnnounced(db)
    requires Decided(db, w) && Wrote(db, w, unmatched, db')
    ensures OversellsAnnounced(db')
  {
    UnmatchedRowAppended(db, w, unmatched, db');
    OrderMessagesAreNone(db.outbox + Oversell(db, w, unmatched), w.id, db.orders[w.id], w.source, MessageEvent(db, w),
        w.d);
    if unmatched > 0.0 {
      AnnouncedTogether(db.outbox, db.ledger.unmatched, Oversell(db, w, unmatched)[0],
                        Ledger.UnmatchedRow(|db.fills|, InventoryOf(db.orders[w.id]), unmatched, w.ev.at));
    } else {
      assert db.outbox + Oversell(db, w, unmatched) == db.outbox;
      assert db'.ledger.unmatched == db.ledger.unmatched;
    }
  }

  lemma ApplyAnnounces(db: Db, source: Source, ev: Event, lotId: string, now: Instant)
    requires RowsOk(db) && Ledger.Valid(db.ledger) && InventoriesAgree(db) && OversellsAnnounced(db)
    ensures var r := ApplyEvent(db, source, ev, lotId, now); r.Ok? ==> OversellsAnnounced(r.value.0)
  {
    var id := ev.ref.clientOrderId;
    if id in db.orders {
      var decision := Machine.Transition(StateOf(db.orders[id]), ev);
      if decision.Ok? && Persists(decision.value) {
        var w := Write(id, source, ev, decision.value, lotId, now);
        PersistWrites(db, w);
        var r := Persist(db, source, ev, decision.value, lotId, now);
        if r.Ok? {
          PersistAnnounces(db, w, r.value.1.unmatchedQty, r.value.0);
        }
      }
    }
  }

  lemma ExecAnnounces(db: Db, op: Op)
    requires Valid(db) && OversellsAnnounced(db)
    ensures OversellsAnnounced(Exec(db, op))
  {
    if op.Apply? {
      ApplyAnnounces(db, op.source, op.ev, op.lotId, op.now);
    }
  }

  lemma {:induction false} RunAnnounces(db: Db, ops: seq<Op>)
    requires Valid(db) && OversellsAnnounced(db)
    ensures OversellsAnnounced(Run(db, ops))
    decreases ops
  {
    if ops != [] {
      ExecAnnounces(db, ops[0]);
      ExecKeepsValid(db, ops[0]);
      RunAnnounces(Exec(db, ops[0]), ops[1..]);
    }
  }

  /** In every run each oversell is announced once, in order, with the quantity that was recorded. */
  lemma EveryOversellIsAnnounced(ops: seq<Op>)
    ensures OversellsAnnounced(Run(EMPTY, ops))
  {
    EveryRunIsExact([]);
    assert Oversells([]) == [];
    RunAnnounces(EMPTY, ops);
  }
}

/**
 What an applied event leaves in the tables, column by column, in terms of the event's own
 fields: the order row, the audit row, the fill row, the ledger rows and the messages.
 */
module Effects {
  import opened Prelude
  import opened Domain
  import opened Store
  import opened StoreInvariant
  import opened StoreProof
  import opened StoreRuns
  import Machine
  import Ledger

  // ---------- The rows ----------

  predicate Grew(row: OrderRow, row': OrderRow) {
    row'.filledQty > row.filledQty
  }

  predicate Changed(row: OrderRow, row': OrderRow) {
    row'.status != row.status || row'.filledQty != row.filledQty
  }

  /** The status is the later one, the fill the larger one, and first venue order IDs stay. */
  ghost predicate RowEntered(row: OrderRow, row': OrderRow, ev: Event) {
    && row'.status == (if Machine.Later(ev.status, row.status) then ev.status else row.status)
    && row'.filledQty == (if Machine.Counts(ev) && ev.filledQty > row.filledQty then ev.filledQty else row.filledQty)
    && row'.venueOrderId == (if row.venueOrderId.Some? then row.venueOrderId
                             else if ev.ref.venueOrderId == "" then None else Some(ev.ref.venueOrderId))
    && row'.cancelRequestedAt == row.cancelRequestedAt
    && row'.bot == row.bot && row'.instrument == row.instrument && row'.side == row.side && row'.kind == row.kind
    && row'.price == row.price && row'.qty == row.qty && row'.createdAt == row.createdAt
  }

  /** A reason is recorded with a change, and the time of every update. */
  ghost predicate StampsEntered(row: OrderRow, row': OrderRow, ev: Event, now: Instant) {
    && row'.reason == (if Changed(row, row') && ev.reason != "" then Some(ev.reason) else row.reason)
    && row'.updatedAt == (if Changed(row, row') || row'.venueOrderId != row.venueOrderId then now else row.updatedAt)
  }

  /** A change leaves one audit row. */
  ghost predicate AuditEntered(before: seq<TransitionRow>, after: seq<TransitionRow>, id: string, row: OrderRow,
                               row': OrderRow, source: Source, ev: Event) {
    if Changed(row, row') then
      && |after| == |before| + 1 && before <= after
      && var t := after[|before|];
         && t.order == id && t.from == row.status && t.to == row'.status && t.filledQty == row'.filledQty
         && t.source == source && t.at == ev.at && t.reason == (if ev.reason == "" then None else Some(ev.reason))
    else after == before
  }

  /** The venue's fill ID has been recorded for the order before. */
  predicate FillKnown(fills: seq<FillRow>, id: string, venueFillId: string) {
    venueFillId != "" &&
    exists i :: 0 <= i < |fills| && fills[i].order == id && fills[i].venueFillId == Some(venueFillId)
  }

  /** A larger fill leaves one fill row; the facts that come with a known fill ID are not recorded again. */
  ghost predicate FillEntered(before: seq<FillRow>, after: seq<FillRow>, transition: nat, id: string, row: OrderRow,
                              row': OrderRow, ev: Event) {
    if Grew(row, row') then
      && |after| == |before| + 1 && before <= after
      && var f, known := after[|before|], FillKnown(before, id, ev.venueFillId);
         && f.order == id && f.transition == transition && f.qty == row'.filledQty - row.filledQty && f.at == ev.at
         && f.price == (if ev.fillPrice == 0.0 then None else Some(ev.fillPrice))
         && f.venueFillId == (if known || ev.venueFillId == "" then None else Some(ev.venueFillId))
         && f.fee == (if known || ev.fee == 0.0 then None else Some(ev.fee))
         && f.feeCurrency == (if known || ev.feeCurrency == "" then None else Some(ev.feeCurrency))
    else after == before
  }

  /** The inventory an order trades in. */
  predicate TradesIn(row: OrderRow, v: Inventory) {
    && v.bot == row.bot && v.venue == row.instrument.venue
    && v.base == row.instrument.base && v.quote == row.instrument.quote
  }

  /** A buy opens one lot of its fill, at its price and time. */
  ghost predicate LotEntered(before: seq<Ledger.LotRow>, after: seq<Ledger.LotRow>, fill: nat, row: OrderRow,
                             row': OrderRow, ev: Event, lotId: string) {
    && |after| == |before| + 1 && before <= after
    && var l := after[|before|];
       && l.lot.id == lotId && TradesIn(row, l.lot.inventory) && l.lot.qty == row'.filledQty - row.filledQty
       && l.lot.remaining == l.lot.qty && l.lot.cost == ev.fillPrice && l.lot.openedAt == ev.at
       && l.openedBy == fill && l.open && l.closedAt.None?
  }

  ghost predicate ClosureEntered(c: Ledger.ClosureRow, fill: nat, ev: Event) {
    c.fillId == fill && c.price == ev.fillPrice && c.closedAt == ev.at
  }

  ghost predicate UnmatchedEntered(u: Ledger.UnmatchedRow, fill: nat, row: OrderRow, ev: Event) {
    u.fillId == fill && TradesIn(row, u.inventory) && u.at == ev.at
  }

  /** Only lots of the inventory are sold from, and one that is exhausted is closed at the event's time. */
  ghost predicate LotSold(l: Ledger.LotRow, l': Ledger.LotRow, row: OrderRow, ev: Event) {
    && l'.lot == l.lot.(remaining := l'.lot.remaining) && l'.openedBy == l.openedBy
    && (!TradesIn(row, l.lot.inventory) ==> l' == l)
    && l'.closedAt == if l.open && !l'.open then Some(ev.at) else l.closedAt
  }

  ghost predicate LotsSold(before: seq<Ledger.LotRow>, after: seq<Ledger.LotRow>, row: OrderRow, ev: Event) {
    |after| == |before| && forall i :: 0 <= i < |before| ==> LotSold(before[i], after[i], row, ev)
  }

  /** A sell appends closures at its price and time, and at most one row for what was not covered. */
  ghost predicate SaleEntered(t: Ledger.Tables, t': Ledger.Tables, fill: nat, row: OrderRow, row': OrderRow,
                              ev: Event) {
    && LotsSold(t.lots, t'.lots, row, ev) && t.closures <= t'.closures
    && t.unmatched <= t'.unmatched && |t'.unmatched| <= |t.unmatched| + 1
    && (forall i :: |t.closures| <= i < |t'.closures| ==> ClosureEntered(t'.closures[i], fill, ev))
    && (forall i :: |t.unmatched| <= i < |t'.unmatched| ==> UnmatchedEntered(t'.unmatched[i], fill, row, ev))
    && Ledger.ClosedByFill(t'.closures, fill) + Ledger.UnmatchedOf(t'.unmatched, fill) == row'.filledQty - row.filledQty
  }

  ghost predicate BooksEntered(t: Ledger.Tables, t': Ledger.Tables, fill: nat, row: OrderRow, row': OrderRow, ev: Event,
                               lotId: string) {
    if !Grew(row, row') then t' == t
    else if row.side == Buy then
      && LotEntered(t.lots, t'.lots, fill, row, row', ev, lotId)
      && t'.closures == t.closures && t'.unmatched == t.unmatched
    else SaleEntered(t, t', fill, row, row', ev)
  }

  predicate UpdateAnnounced(m: Message, id: string, row: OrderRow, row': OrderRow, source: Source, ev: Event) {
    m.OrderUpdated? && m.order == id && TradesIn(row, m.inventory) && m.status == row'.status
    && m.filledQty == row'.filledQty && m.source == source && m.at == ev.at
  }

  /** A known fill ID is not announced again, nor the fee that came with it. */
  predicate FillAnnounced(m: Message, id: string, row: OrderRow, row': OrderRow, ev: Event, known: bool) {
    && m.OrderFilled? && m.order == id && TradesIn(row, m.inventory) && m.status == row'.status
    && m.filledQty == row'.filledQty && m.qty == row'.filledQty - row.filledQty && m.price == ev.fillPrice
    && m.at == ev.at && m.venueFillId == (if known then "" else ev.venueFillId)
    && m.fee == (if known then 0.0 else ev.fee) && m.feeCurrency == (if known then "" else ev.feeCurrency)
  }

  predicate OversellAnnounced(m: Message, id: string, row: OrderRow, fill: nat, qty: Decimal) {
    m.UnmatchedSell? && m.order == id && TradesIn(row, m.inventory) && m.fillId == fill && m.unmatchedQty == qty
  }

  /** The oversell if there is one, then the update, then the fill if there is one. */
  ghost predicate MessagesEntered(before: seq<Message>, after: seq<Message>, fill: nat, id: string, row: OrderRow,
                                  row': OrderRow, source: Source, ev: Event, unmatched: Decimal, known: bool) {
    if !Changed(row, row') then after == before
    else
      var n := |before| + if unmatched > 0.0 then 1 else 0;
      && before <= after && |after| == n + (if Grew(row, row') then 2 else 1)
      && (unmatched > 0.0 ==> OversellAnnounced(after[|before|], id, row, fill, unmatched))
      && UpdateAnnounced(after[n], id, row, row', source, ev)
      && (Grew(row, row') ==> FillAnnounced(after[n + 1], id, row, row', ev, known))
  }

  /** Everything an applied event left, in its own order's rows; other orders' rows stay. */
  ghost predicate Entered(db: Db, db': Db, source: Source, ev: Event, lotId: string, now: Instant, unmatched: Decimal) {
    var id := ev.ref.clientOrderId;
    && id in db.orders && id in db'.orders && db'.orders == db.orders[id := db'.orders[id]]
    && var row, row', fill := db.orders[id], db'.orders[id], |db.fills|;
       && RowEntered(row, row', ev) && StampsEntered(row, row', ev, now)
       && AuditEntered(db.transitions, db'.transitions, id, row, row', source, ev)
       && FillEntered(db.fills, db'.fills, |db.transitions|, id, row, row', ev)
       && BooksEntered(db.ledger, db'.ledger, fill, row, row', ev, lotId)
       && MessagesEntered(db.outbox, db'.outbox, fill, id, row, row', source, ev, unmatched,
                          FillKnown(db.fills, id, ev.venueFillId))
  }

  // ---------- Proof ----------

  lemma WriteChanges(db: Db, w: Write)
    requires RowsOk(db) && Decided(db, w)
    ensures var row, row' := db.orders[w.id], UpdatedRow(db.orders[w.id], w.d, w.ev, w.now);
            && RowEntered(row, row', w.ev) && StampsEntered(row, row', w.ev, w.now) && Changed(row, row')
            && (Grew(row, row') <==> w.d.fillDelta > 0.0) && row'.filledQty - row.filledQty == w.d.fillDelta
            && w.d.to == row'.status && w.d.fillDelta >= 0.0
  {
    var row := db.orders[w.id];
    assert RowOk(row);
    Machine.DecisionByName(StateOf(row), w.ev);
  }

  lemma WriteAudits(db: Db, w: Write, unmatched: Decimal, db': Db)
    requires RowsOk(db) && Decided(db, w) && WroteRows(db, w, unmatched, db')
    ensures AuditEntered(db.transitions, db'.transitions, w.id, db.orders[w.id], db'.orders[w.id], w.source, w.ev)
  {
    WriteChanges(db, w);
  }

  lemma WriteFills(db: Db, w: Write, unmatched: Decimal, db': Db)
    requires RowsOk(db) && Decided(db, w) && WroteRows(db, w, unmatched, db')
    ensures FillEntered(db.fills, db'.fills, |db.transitions|, w.id, db.orders[w.id], db'.orders[w.id], w.ev)
  {
    WriteChanges(db, w);
  }

  lemma WriteAnnounces(db: Db, w: Write, unmatched: Decimal, db': Db)
    requires RowsOk(db) && Decided(db, w) && WroteRows(db, w, unmatched, db')
    ensures MessagesEntered(db.outbox, db'.outbox, |db.fills|, w.id, db.orders[w.id], db'.orders[w.id], w.source, w.ev,
                            unmatched, FillKnown(db.fills, w.id, w.ev.venueFillId))
  {
    WriteChanges(db, w);
  }

  lemma SoldEnters(t: Ledger.Tables, fill: Ledger.Fill, oversold: Decimal, t': Ledger.Tables, row: OrderRow,
                   row': OrderRow, ev: Event)
    requires Ledger.Unposted(t, fill.id) && Ledger.Sold(t, fill, oversold, t')
    requires TradesIn(row, fill.inventory) && fill.price == ev.fillPrice && fill.at == ev.at
    requires fill.qty == row'.filledQty - row.filledQty
    ensures SaleEntered(t, t', fill.id, row, row', ev)
  {
    Ledger.UnpostedSums(t, fill.id);
    if oversold > 0.0 {
      Ledger.SnocUnmatched(t.unmatched, Ledger.UnmatchedRow(fill.id, fill.inventory, oversold, fill.at));
    } else {
      assert t'.unmatched == t.unmatched;
    }
    forall i | 0 <= i < |t.lots| ensures LotSold(t.lots[i], t'.lots[i], row, ev) {
      assert !TradesIn(row, t.lots[i].lot.inventory) ==> t.lots[i].lot.inventory != fill.inventory;
    }
    forall i | |t.closures| <= i < |t'.closures| ensures ClosureEntered(t'.closures[i], fill.id, ev) {
      assert Ledger.ClosedBy(t.lots, t'.closures[i], fill);
    }
  }

  lemma WritePosts(db: Db, w: Write, unmatched: Decimal, db': Db)
    requires RowsOk(db) && Ledger.Valid(db.ledger) && InventoriesAgree(db)
    requires Decided(db, w) && Wrote(db, w, unmatched, db')
    ensures BooksEntered(db.ledger, db'.ledger, |db.fills|, db.orders[w.id], db'.orders[w.id], w.ev, w.lotId)
  {
    WriteChanges(db, w);
    if w.d.fillDelta > 0.0 {
      PostedLedger(db, w, unmatched, db');
      if !db.orders[w.id].side.Buy? {
        NextFillUnposted(db);
        SoldEnters(db.ledger, FillToPost(db, w), unmatched, db'.ledger, db.orders[w.id], db'.orders[w.id], w.ev);
      }
    }
  }

  lemma PersistEnters(db: Db, w: Write)
    requires Valid(db) && Decided(db, w)
    ensures var r := Persist(db, w.source, w.ev, w.d, w.lotId, w.now);
            r.Ok? ==> Entered(db, r.value.0, w.source, w.ev, w.lotId, w.now, r.value.1.unmatchedQty)
  {
    PersistWrites(db, w);
    var r := Persist(db, w.source, w.ev, w.d, w.lotId, w.now);
    if r.Ok? {
      var unmatched, db' := r.value.1.unmatchedQty, r.value.0;
      WriteChanges(db, w);
      WriteAudits(db, w, unmatched, db');
      WriteFills(db, w, unmatched, db');
      WriteAnnounces(db, w, unmatched, db');
      WritePosts(db, w, unmatched, db');
    }
  }

  lemma DropEnters(db: Db, source: Source, ev: Event, lotId: string, now: Instant)
    requires RowsOk(db) && ApplyEvent(db, source, ev, lotId, now).Ok?
    requires !Persists(Machine.Transition(StateOf(db.orders[ev.ref.clientOrderId]), ev).value)
    ensures var r := ApplyEvent(db, source, ev, lotId, now).value;
            Entered(db, r.0, source, ev, lotId, now, r.1.unmatchedQty)
  {
    var row := db.orders[ev.ref.clientOrderId];
    assert RowOk(row);
    Machine.DecisionByName(StateOf(row), ev);
    assert db.orders == db.orders[ev.ref.clientOrderId := row];
  }

  /** A successful apply leaves exactly what its event says. */
  lemma ApplyEnters(db: Db, source: Source, ev: Event, lotId: string, now: Instant)
    requires Valid(db) && ApplyEvent(db, source, ev, lotId, now).Ok?
    ensures var r := ApplyEvent(db, source, ev, lotId, now).value;
            Entered(db, r.0, source, ev, lotId, now, r.1.unmatchedQty)
  {
    var id := ev.ref.clientOrderId;
    var d := Machine.Transition(StateOf(db.orders[id]), ev).value;
    if Persists(d) {
      PersistEnters(db, Write(id, source, ev, d, lotId, now));
    } else {
      DropEnters(db, source, ev, lotId, now);
    }
  }

  // ---------- What refuses an event ----------

  predicate AddsFill(row: OrderRow, ev: Event) {
    Machine.Counts(ev) && ev.filledQty > row.filledQty
  }

  predicate LotIdUsed(t: Ledger.Tables, lotId: string) {
    exists i :: 0 <= i < |t.lots| && t.lots[i].lot.id == lotId
  }

  /** The order takes a venue order ID, and another order of its venue has that ID. */
  predicate TakesUsedId(db: Db, id: string, vid: string)
    requires id in db.orders
  {
    && db.orders[id].venueOrderId.None? && vid != ""
    && exists other :: other in db.orders && other != id && db.orders[other].venueOrderId == Some(vid)
                       && db.orders[other].instrument.venue == db.orders[id].instrument.venue
  }

  /** The first thing wrong with an event, in the order they are noticed. */
  function Refusal(db: Db, ev: Event, lotId: string): Option<StoreError> {
    var id := ev.ref.clientOrderId;
    if id !in db.orders then Some(NotFound)
    else if ev.status.Unknown? then Some(BadStatus(Machine.UnknownStatus(ev.status)))
    else if AddsFill(db.orders[id], ev) && ev.fillPrice < 0.0 then Some(LedgerRefused(Ledger.NegativePrice))
    else if AddsFill(db.orders[id], ev) && db.orders[id].side == Buy && LotIdUsed(db.ledger, lotId) then
      Some(LedgerRefused(Ledger.LotIdTaken))
    else if TakesUsedId(db, id, ev.ref.venueOrderId) then Some(VenueOrderIdTaken)
    else None
  }

  lemma ClashIsUsedId(db: Db, id: string, vid: string)
    requires id in db.orders
    ensures VenueIdClash(db, id, vid) <==> TakesUsedId(db, id, vid)
  {
  }

  lemma RefusableIff(db: Db, ev: Event, lotId: string)
    ensures Refusable(db, ev, lotId) <==> Refusal(db, ev, lotId).Some?
  {
    if ev.ref.clientOrderId in db.orders {
      ClashIsUsedId(db, ev.ref.clientOrderId, ev.ref.venueOrderId);
    }
  }

  lemma PostRefuses(t: Ledger.Tables, fill: Ledger.Fill, lotId: string)
    requires Ledger.Valid(t) && Ledger.Unposted(t, fill.id)
    requires fill.qty > 0.0 && !fill.side.UnsupportedSide?
    ensures var r := Ledger.Post(t, fill, lotId);
            && (r == Err(Ledger.NegativePrice) <==> fill.price < 0.0)
            && (r == Err(Ledger.LotIdTaken) <==> fill.price >= 0.0 && fill.side.Buy? && LotIdUsed(t, lotId))
            && (r.Err? ==> r.error == Ledger.NegativePrice || r.error == Ledger.LotIdTaken)
  {
    Ledger.PostKeepsValid(t, fill, lotId);
    assert Ledger.HasLot(t.lots, lotId) <==> LotIdUsed(t, lotId);
    if fill.side.Buy? && fill.price >= 0.0 {
      Ledger.BuyPosts(t, fill, lotId);
    }
  }

  lemma WriteIsKnown(db: Db, w: Write)
    requires RowsOk(db) && Decided(db, w)
    ensures w.id == w.ev.ref.clientOrderId && !w.ev.status.Unknown? && !db.orders[w.id].side.UnsupportedSide?
    ensures w.d.fillDelta > 0.0 <==> AddsFill(db.orders[w.id], w.ev)
  {
    assert RowOk(db.orders[w.id]);
    Machine.DecisionByName(StateOf(db.orders[w.id]), w.ev);
  }

  lemma LedgerRefuses(db: Db, w: Write)
    requires RowsOk(db) && Ledger.Valid(db.ledger) && InventoriesAgree(db)
    requires Decided(db, w) && w.d.fillDelta > 0.0
    ensures var r := Ledger.Post(db.ledger, FillToPost(db, w), w.lotId);
            && (r.Err? ==> Refusal(db, w.ev, w.lotId) == Some(LedgerRefused(r.error)))
            && (r.Ok? ==> w.ev.fillPrice >= 0.0 && !(db.orders[w.id].side.Buy? && LotIdUsed(db.ledger, w.lotId)))
  {
    WriteIsKnown(db, w);
    NextFillUnposted(db);
    PostRefuses(db.ledger, FillToPost(db, w), w.lotId);
  }

  lemma VenueIdRefuses(db: Db, w: Write)
    requires RowsOk(db) && VenueIdsUnique(db) && Decided(db, w)
    requires w.d.fillDelta > 0.0 ==>
               w.ev.fillPrice >= 0.0 && !(db.orders[w.id].side.Buy? && LotIdUsed(db.ledger, w.lotId))
    requires !VenueOrderIdFree(db, w.id, db.orders[w.id].instrument.venue,
                               UpdatedRow(db.orders[w.id], w.d, w.ev, w.now).venueOrderId)
    ensures Refusal(db, w.ev, w.lotId) == Some(VenueOrderIdTaken)
  {
    WriteIsKnown(db, w);
    RowKeepsItsVenueId(db, w.id);
    ClashIsUsedId(db, w.id, w.ev.ref.venueOrderId);
  }

  lemma PersistRefuses(db: Db, w: Write)
    requires Valid(db) && Decided(db, w)
    requires Persist(db, w.source, w.ev, w.d, w.lotId, w.now).Err?
    ensures Refusal(db, w.ev, w.lotId) == Some(Persist(db, w.source, w.ev, w.d, w.lotId, w.now).error)
  {
    PersistWrites(db, w);
    if w.d.fillDelta > 0.0 {
      LedgerRefuses(db, w);
    }
    if Persist(db, w.source, w.ev, w.d, w.lotId, w.now).error == VenueOrderIdTaken {
      VenueIdRefuses(db, w);
    }
  }

  lemma DropRefuses(db: Db, source: Source, ev: Event, lotId: string, now: Instant)
    requires RowsOk(db) && ApplyEvent(db, source, ev, lotId, now).Err?
    requires var id := ev.ref.clientOrderId;
             id in db.orders && Machine.Transition(StateOf(db.orders[id]), ev).Ok? &&
             !Persists(Machine.Transition(StateOf(db.orders[id]), ev).value)
    ensures Refusal(db, ev, lotId) == Some(ApplyEvent(db, source, ev, lotId, now).error)
  {
    var id := ev.ref.clientOrderId;
    assert RowOk(db.orders[id]);
    Machine.DecisionByName(StateOf(db.orders[id]), ev);
    ClashIsUsedId(db, id, ev.ref.venueOrderId);
  }

  /** An event that is not persisted or dropped has no order or no known status. */
  lemma UndecidedRefuses(db: Db, source: Source, ev: Event, lotId: string, now: Instant)
    requires RowsOk(db)
    requires ev.ref.clientOrderId !in db.orders || ev.status.Unknown?
    ensures ApplyEvent(db, source, ev, lotId, now).Err?
    ensures Refusal(db, ev, lotId) == Some(ApplyEvent(db, source, ev, lotId, now).error)
  {
    if ev.ref.clientOrderId in db.orders {
      KnownRow(db, ev.ref.clientOrderId);
    }
  }

  lemma DecidedRefuses(db: Db, w: Write)
    requires Valid(db) && Decided(db, w) && ApplyEvent(db, w.source, w.ev, w.lotId, w.now).Err?
    ensures Refusal(db, w.ev, w.lotId) == Some(ApplyEvent(db, w.source, w.ev, w.lotId, w.now).error)
  {
    assert ApplyEvent(db, w.source, w.ev, w.lotId, w.now) == Persist(db, w.source, w.ev, w.d, w.lotId, w.now);
    PersistRefuses(db, w);
  }

  lemma ErrorIsRefusal(db: Db, source: Source, ev: Event, lotId: string, now: Instant)
    requires Valid(db) && ApplyEvent(db, source, ev, lotId, now).Err?
    ensures Refusal(db, ev, lotId) == Some(ApplyEvent(db, source, ev, lotId, now).error)
  {
    var id := ev.ref.clientOrderId;
    if id !in db.orders || ev.status.Unknown? {
      UndecidedRefuses(db, source, ev, lotId, now);
    } else {
      KnownRow(db, id);
      var d := Machine.Transition(StateOf(db.orders[id]), ev).value;
      if Persists(d) {
        DecidedRefuses(db, Write(id, source, ev, d, lotId, now));
      } else {
        DropRefuses(db, source, ev, lotId, now);
      }
    }
  }

  /** From a reachable state an event is refused for these reasons only, and for the first of them. */
  lemma ApplyRefuses(db: Db, source: Source, ev: Event, lotId: string, now: Instant)
    requires Valid(db)
    ensures var r := ApplyEvent(db, source, ev, lotId, now);
            Refusal(db, ev, lotId) == if r.Err? then Some(r.error) else None
  {
    if ApplyEvent(db, source, ev, lotId, now).Err? {
      ErrorIsRefusal(db, source, ev, lotId, now);
    } else {
      ApplyFailsIff(db, source, ev, lotId, now);
      RefusableIff(db, ev, lotId);
    }
  }

  // ---------- The commands ----------

  /** A new order is stored as asked, pending and unfilled, and nothing else changes. */
  ghost predicate OrderEntered(db: Db, db': Db, req: Request, now: Instant) {
    var id := req.clientOrderId;
    && id in db'.orders && db' == db.(orders := db.orders[id := db'.orders[id]])
    && var row := db'.orders[id];
       && row.bot == req.bot && row.instrument == req.instrument && row.side == req.side && row.kind == req.kind
       && row.price == req.price && row.qty == req.qty && row.status == Pending && row.filledQty == 0.0
       && row.avgFillPrice.None? && row.venueOrderId.None? && row.cancelRequestedAt.None? && row.reason.None?
       && row.createdAt == now && row.updatedAt == now
  }

  /** Creating refuses other sides and kinds, and leaves an order that exists alone. */
  lemma CreationEnters(db: Db, req: Request, now: Instant)
    ensures match CreatePending(db, req, now)
            case Err(e) =>
              e == CheckViolated && !(req.side in {Buy, Sell} && req.kind in {Limit, Market})
            case Ok((db', isNew)) =>
              && req.side in {Buy, Sell} && req.kind in {Limit, Market}
              && (isNew <==> req.clientOrderId !in db.orders)
              && (if isNew then OrderEntered(db, db', req, now) else db' == db)
  {
  }

  /** A cancel request leaves its time, if it is the first, and refuses an unknown order only. */
  ghost predicate CancelEntered(db: Db, db': Db, id: string, at: Instant, now: Instant) {
    && id in db.orders && id in db'.orders && db' == db.(orders := db.orders[id := db'.orders[id]])
    && var row, row' := db.orders[id], db'.orders[id];
       && row' == row.(cancelRequestedAt := row'.cancelRequestedAt, updatedAt := now)
       && row'.cancelRequestedAt == Some(if row.cancelRequestedAt.Some? then row.cancelRequestedAt.value else at)
  }

  lemma CancelEnters(db: Db, id: string, at: Instant, now: Instant)
    ensures match MarkCancelRequested(db, id, at, now)
            case Err(e) => e == NotFound && id !in db.orders
            case Ok(db') => CancelEntered(db, db', id, at, now)
  {
  }
}

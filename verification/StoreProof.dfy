/** Every operation keeps the store invariant. */
module StoreProof {
  import opened Prelude
  import opened Domain
  import opened Store
  import opened StoreInvariant
  import Machine
  import Ledger
  import AveragePrice

  // ---------- The writes of one event, table by table ----------

  /** One event's inputs to a persist: its order, the decision on it, the fill-ID outcome. */
  datatype Write = Write(id: string, source: Source, ev: Event, d: Machine.Decision, lotId: string, now: Instant)

  ghost predicate Decided(db: Db, w: Write) {
    && w.id in db.orders
    && w.ev.ref.clientOrderId == w.id
    && Machine.Transition(StateOf(db.orders[w.id]), w.ev) == Ok(w.d)
    && Persists(w.d)
  }

  function NewTransition(db: Db, w: Write): TransitionRow
    requires w.id in db.orders
  {
    var row := db.orders[w.id];
    TransitionRow(w.id, MaxSeqNo(db.transitions, w.id) + 1, row.status, w.d.to, row.filledQty + w.d.fillDelta,
                  w.source, NullString(w.ev.reason), w.ev.at)
  }

  function Recorded(db: Db, w: Write): Event {
    RecordedEvent(db, w.id, w.ev)
  }

  function NewFillRow(db: Db, w: Write): FillRow {
    var ev := Recorded(db, w);
    FillRow(w.id, |db.transitions|, w.d.fillDelta, NullNumeric(ev.fillPrice), NullNumeric(ev.fee),
            NullString(ev.feeCurrency), NullString(ev.venueFillId), ev.at)
  }

  function NewFills(db: Db, w: Write): seq<FillRow> {
    if w.d.fillDelta > 0.0 then [NewFillRow(db, w)] else []
  }

  function FillToPost(db: Db, w: Write): Ledger.Fill
    requires w.id in db.orders
  {
    Ledger.Fill(|db.fills|, db.orders[w.id].side, InventoryOf(db.orders[w.id]), w.d.fillDelta, w.ev.fillPrice, w.ev.at)
  }

  function Oversell(db: Db, w: Write, unmatched: Decimal): seq<Message>
    requires w.id in db.orders
  {
    if unmatched > 0.0 then [UnmatchedSell(w.id, InventoryOf(db.orders[w.id]), |db.fills|, unmatched)] else []
  }

  function MessageEvent(db: Db, w: Write): Event {
    if w.d.fillDelta > 0.0 then Recorded(db, w) else w.ev
  }

  ghost predicate WroteRows(db: Db, w: Write, unmatched: Decimal, db': Db)
    requires w.id in db.orders
  {
    var row := db.orders[w.id];
    && db'.orders == db.orders[w.id := UpdatedRow(row, w.d, w.ev, w.now)]
    && VenueOrderIdFree(db, w.id, row.instrument.venue, db'.orders[w.id].venueOrderId)
    && db'.transitions == db.transitions + [NewTransition(db, w)]
    && db'.fills == db.fills + NewFills(db, w)
    && db'.outbox == db.outbox + Oversell(db, w, unmatched) + Messages(w.id, row, w.source, MessageEvent(db, w), w.d)
  }

  ghost predicate WroteLedger(db: Db, w: Write, unmatched: Decimal, ledger: Ledger.Tables)
    requires w.id in db.orders
  {
    if w.d.fillDelta > 0.0
    then Ledger.Post(db.ledger, FillToPost(db, w), w.lotId) == Ok((ledger, unmatched))
    else ledger == db.ledger && unmatched == 0.0
  }

  ghost predicate Wrote(db: Db, w: Write, unmatched: Decimal, db': Db)
    requires w.id in db.orders
  {
    WroteRows(db, w, unmatched, db') && WroteLedger(db, w, unmatched, db'.ledger)
  }

  lemma UpdateIgnoresFillId(db: Db, w: Write)
    requires w.id in db.orders
    ensures UpdatedRow(db.orders[w.id], w.d, Recorded(db, w), w.now) == UpdatedRow(db.orders[w.id], w.d, w.ev, w.now)
  {
  }

  /** The fill row and posting, when there is a fill. */
  lemma RecordFillWrites(db: Db, w: Write)
    requires w.id in db.orders && w.ev.ref.clientOrderId == w.id
    ensures var db1 := InsertTransition(db, w.id, w.d, w.source, w.ev);
            match RecordFill(db1, w.id, w.ev, w.d.fillDelta, w.lotId)
            case Ok((db2, unmatched)) =>
              && Ledger.Post(db.ledger, FillToPost(db, w), w.lotId) == Ok((db2.ledger, unmatched))
              && db2 == db.(transitions := db.transitions + [NewTransition(db, w)],
                            fills := db.fills + [NewFillRow(db, w)], ledger := db2.ledger,
                            outbox := db.outbox + Oversell(db, w, unmatched))
            case Err(e) =>
              exists refusal ::
                e == LedgerRefused(refusal) && Ledger.Post(db.ledger, FillToPost(db, w), w.lotId) == Err(refusal)
  {
    var db1 := InsertTransition(db, w.id, w.d, w.source, w.ev);
    assert LedgerFill(db1, w.id, w.ev, w.d.fillDelta) == FillToPost(db, w);
  }

  lemma PersistWrites(db: Db, w: Write)
    requires Decided(db, w)
    ensures match Persist(db, w.source, w.ev, w.d, w.lotId, w.now)
            case Ok((db', result)) =>
              Wrote(db, w, result.unmatchedQty, db') &&
              result == ApplyResult(w.d, result.unmatchedQty, w.d.fillDelta > 0.0 && Conflicts(db, w.id, w.ev))
            case Err(e) =>
              || (w.d.fillDelta > 0.0 && exists refusal ::
                    e == LedgerRefused(refusal) && Ledger.Post(db.ledger, FillToPost(db, w), w.lotId) == Err(refusal))
              || (&& e == VenueOrderIdTaken
                  && (w.d.fillDelta > 0.0 ==> Ledger.Post(db.ledger, FillToPost(db, w), w.lotId).Ok?)
                  && !VenueOrderIdFree(db, w.id, db.orders[w.id].instrument.venue,
                                       UpdatedRow(db.orders[w.id], w.d, w.ev, w.now).venueOrderId))
  {
    UpdateIgnoresFillId(db, w);
    if w.d.fillDelta > 0.0 {
      RecordFillWrites(db, w);
    } else {
      assert db.fills + NewFills(db, w) == db.fills;
      assert db.outbox + Oversell(db, w, 0.0) == db.outbox;
    }
  }

  // ---------- Component by component ----------

  lemma DecisionFacts(db: Db, w: Write)
    requires RowsOk(db) && Decided(db, w)
    ensures Machine.Known(w.d.to) && Machine.Known(w.ev.status)
    ensures w.d.fillDelta >= 0.0
    ensures var row := db.orders[w.id];
            Raises(StateOf(row), Machine.State(w.d.to, row.filledQty + w.d.fillDelta))
    ensures w.d.fillDelta == 0.0 ==>
              Machine.Rank(db.orders[w.id].status).value < Machine.Rank(w.d.to).value
  {
    assert RowOk(db.orders[w.id]);
  }

  lemma KeepsRows(db: Db, w: Write, unmatched: Decimal, db': Db)
    requires RowsOk(db) && VenueIdsUnique(db)
    requires Decided(db, w) && WroteRows(db, w, unmatched, db')
    ensures RowsOk(db') && VenueIdsUnique(db')
    ensures IdentityKept(db.orders, db'.orders)
  {
    DecisionFacts(db, w);
    assert RowOk(db.orders[w.id]);
  }

  lemma KeepsLogs(db: Db, w: Write, unmatched: Decimal, db': Db)
    requires RowsOk(db) && LogsExact(db)
    requires Decided(db, w) && WroteRows(db, w, unmatched, db')
    ensures LogsExact(db')
  {
    forall id | id in db'.orders ensures LogExactFor(db', id) {
      KeepsLog(db, w, unmatched, db', id);
    }
  }

  /** Appending the next audit row keeps a log exact. */
  lemma LogStaysExact(log: seq<TransitionRow>, t: TransitionRow, row: OrderRow, row': OrderRow, fills: nat, fills': nat)
    requires LogExact(log, row, fills)
    requires t.seqNo == |log| + 1 && t.from == row.status
    requires Raises(StateOf(row), Machine.State(t.to, t.filledQty))
    requires StateOf(row') == Machine.State(t.to, t.filledQty)
    requires fills' == fills + 1 ||
             (fills' == fills && Machine.Rank(row.status).value < Machine.Rank(row'.status).value)
    ensures LogExact(log + [t], row', fills')
  {
    LogGrows(log, t);
    assert (log + [t])[|log|] == t;
  }

  lemma OwnLogKept(db: Db, w: Write, unmatched: Decimal, db': Db)
    requires RowsOk(db) && w.id in db.orders && LogExactFor(db, w.id)
    requires Decided(db, w) && WroteRows(db, w, unmatched, db')
    ensures LogExactFor(db', w.id)
  {
    var log, t := LogOf(db.transitions, w.id), NewTransition(db, w);
    SnocLog(db.transitions, t, w.id);
    FillCountGrows(db, w, w.id);
    NextSeqNo(db, w.id);
    DecisionFacts(db, w);
    LogStaysExact(log, t, db.orders[w.id], db'.orders[w.id],
                  |HistoryOf(db.fills, w.id)|, |HistoryOf(db'.fills, w.id)|);
  }

  lemma FillCountGrows(db: Db, w: Write, id: string)
    ensures |HistoryOf(db.fills + NewFills(db, w), id)| ==
            |HistoryOf(db.fills, id)| + if id == w.id && w.d.fillDelta > 0.0 then 1 else 0
    ensures id != w.id ==> HistoryOf(db.fills + NewFills(db, w), id) == HistoryOf(db.fills, id)
  {
    HistoryGrows(db, w, id);
  }

  lemma OtherLogKept(db: Db, w: Write, unmatched: Decimal, db': Db, id: string)
    requires id in db.orders && id != w.id && LogExactFor(db, id)
    requires w.id in db.orders && WroteRows(db, w, unmatched, db')
    ensures LogExactFor(db', id)
  {
    SnocLog(db.transitions, NewTransition(db, w), id);
    assert LogOf(db'.transitions, id) == LogOf(db.transitions, id);
    FillCountGrows(db, w, id);
  }

  lemma KeepsLog(db: Db, w: Write, unmatched: Decimal, db': Db, id: string)
    requires RowsOk(db) && id in db.orders && LogExactFor(db, id)
    requires Decided(db, w) && WroteRows(db, w, unmatched, db')
    ensures LogExactFor(db', id)
  {
    if id == w.id {
      OwnLogKept(db, w, unmatched, db');
    } else {
      OtherLogKept(db, w, unmatched, db', id);
    }
  }

  lemma NextSeqNo(db: Db, id: string)
    requires id in db.orders && LogExactFor(db, id)
    ensures MaxSeqNo(db.transitions, id) == |LogOf(db.transitions, id)|
  {
    var log := LogOf(db.transitions, id);
    forall k | 0 <= k < |log| ensures log[k].seqNo == k + 1 {
      assert LogRowOk(log, k);
    }
    MaxIsLength(db.transitions, id);
  }

  lemma LogGrows(log: seq<TransitionRow>, t: TransitionRow)
    requires Chained(log)
    requires t.seqNo == |log| + 1 && t.from == LogState(log, |log|).status
    requires Raises(LogState(log, |log|), Machine.State(t.to, t.filledQty))
    ensures Chained(log + [t])
  {
    var log' := log + [t];
    forall k | 0 <= k < |log'| ensures LogRowOk(log', k) {
      assert LogState(log', k) == LogState(log, k);
      if k < |log| {
        assert LogRowOk(log, k);
        assert LogState(log', k + 1) == LogState(log, k + 1);
      }
    }
  }

  lemma HistoryGrows(db: Db, w: Write, id: string)
    ensures HistoryOf(db.fills + NewFills(db, w), id) ==
            HistoryOf(db.fills, id) +
            (if id == w.id && w.d.fillDelta > 0.0
             then [AveragePrice.Priced(w.d.fillDelta, NullNumeric(w.ev.fillPrice))] else [])
    ensures FactsOf(db.fills + NewFills(db, w), id) ==
            FactsOf(db.fills, id) +
            (if id == w.id && w.d.fillDelta > 0.0 then [FactsOfRow(NewFillRow(db, w))] else [])
  {
    if w.d.fillDelta > 0.0 {
      SnocFill(db.fills, NewFillRow(db, w), id);
    } else {
      assert db.fills + NewFills(db, w) == db.fills;
    }
  }

  /** One more fill moves a history's sum and average as the order row moves. */
  lemma HistoryTotals(h: seq<AveragePrice.Priced>, qty: Decimal, price: Decimal)
    ensures var h' := h + [AveragePrice.Priced(qty, NullNumeric(price))];
            && AveragePrice.Quantity(h') == AveragePrice.Quantity(h) + qty
            && AveragePrice.Average(h') == AveragePrice.Next(AveragePrice.Average(h), AveragePrice.Quantity(h), qty,
                price)
  {
    SnocPriced(h, AveragePrice.Priced(qty, NullNumeric(price)));
    assert FromNumeric(NullNumeric(price)) == price;
  }

  lemma NoFillKeepsAverage(avg: Option<Decimal>, filled: Decimal, price: Decimal)
    ensures AveragePrice.Next(avg, filled, 0.0, price) == avg
  {
  }

  lemma OwnTotalsKept(db: Db, w: Write, unmatched: Decimal, db': Db)
    requires w.id in db.orders && TotalsExactFor(db, w.id) && w.d.fillDelta >= 0.0
    requires WroteRows(db, w, unmatched, db')
    ensures TotalsExactFor(db', w.id)
  {
    var row, h := db.orders[w.id], HistoryOf(db.fills, w.id);
    HistoryGrows(db, w, w.id);
    if w.d.fillDelta > 0.0 {
      HistoryTotals(h, w.d.fillDelta, w.ev.fillPrice);
      assert HistoryOf(db'.fills, w.id) == h + [AveragePrice.Priced(w.d.fillDelta, NullNumeric(w.ev.fillPrice))];
    } else {
      NoFillKeepsAverage(row.avgFillPrice, row.filledQty, w.ev.fillPrice);
      assert HistoryOf(db'.fills, w.id) == h;
    }
  }

  lemma KeepsTotals(db: Db, w: Write, unmatched: Decimal, db': Db)
    requires TotalsExact(db) && RowsOk(db)
    requires Decided(db, w) && WroteRows(db, w, unmatched, db')
    ensures TotalsExact(db')
  {
    DecisionFacts(db, w);
    forall id | id in db'.orders ensures TotalsExactFor(db', id) {
      assert TotalsExactFor(db, id);
      if id == w.id {
        OwnTotalsKept(db, w, unmatched, db');
      } else {
        FillCountGrows(db, w, id);
      }
    }
  }

  lemma KeepsFills(db: Db, w: Write, unmatched: Decimal, db': Db)
    requires FillsOk(db) && RowsOk(db) && Ledger.Valid(db.ledger)
    requires w.d.fillDelta > 0.0 ==> w.ev.fillPrice >= 0.0
    requires Decided(db, w) && WroteRows(db, w, unmatched, db')
    ensures FillsOk(db')
  {
    forall k | 0 <= k < |db'.fills| ensures FillRowOk(db', db'.fills[k]) {
      if k < |db.fills| {
        assert FillRowOk(db, db.fills[k]);
      }
    }
  }

  lemma KeepsOutbox(db: Db, w: Write, unmatched: Decimal, db': Db)
    requires OutboxExact(db) && RowsOk(db)
    requires Decided(db, w) && WroteRows(db, w, unmatched, db')
    ensures OutboxExact(db')
  {
    DecisionFacts(db, w);
    forall id | id in db'.orders ensures OutboxExactFor(db', id) {
      KeepsAnnouncements(db, w, unmatched, db', id);
    }
  }

  /** A sum of two appended sequences, when the parts agree. */
  lemma AppendBoth<T>(a: seq<T>, b: seq<T>, x: seq<T>)
    requires a == b
    ensures a + x == b + x
  {
  }

  lemma KeepsUpdates(db: Db, w: Write, unmatched: Decimal, db': Db, id: string)
    requires w.id in db.orders && WroteRows(db, w, unmatched, db')
    requires w.d.fillDelta >= 0.0 && UpdatesOf(db.outbox, id) == StatesOf(db.transitions, id)
    ensures UpdatesOf(db'.outbox, id) == StatesOf(db'.transitions, id)
  {
    var s := Machine.State(w.d.to, db.orders[w.id].filledQty + w.d.fillDelta);
    var x := if id == w.id then [s] else [];
    calc {
      UpdatesOf(db'.outbox, id);
      { MessagesAnnounce(db, w, unmatched, id); }
      UpdatesOf(db.outbox, id) + x;
      { AppendBoth(UpdatesOf(db.outbox, id), StatesOf(db.transitions, id), x); }
      StatesOf(db.transitions, id) + x;
      { SnocLog(db.transitions, NewTransition(db, w), id); }
      StatesOf(db'.transitions, id);
    }
  }

  lemma KeepsFilled(db: Db, w: Write, unmatched: Decimal, db': Db, id: string)
    requires w.id in db.orders && WroteRows(db, w, unmatched, db')
    requires w.d.fillDelta >= 0.0 && FilledOf(db.outbox, id) == FactsOf(db.fills, id)
    ensures FilledOf(db'.outbox, id) == FactsOf(db'.fills, id)
  {
    HistoryGrows(db, w, id);
    MessagesAnnounce(db, w, unmatched, id);
  }

  lemma KeepsAnnouncements(db: Db, w: Write, unmatched: Decimal, db': Db, id: string)
    requires w.id in db.orders && WroteRows(db, w, unmatched, db')
    requires w.d.fillDelta >= 0.0 && OutboxExactFor(db, id)
    ensures OutboxExactFor(db', id)
  {
    KeepsUpdates(db, w, unmatched, db', id);
    KeepsFilled(db, w, unmatched, db', id);
  }

  /** The order.updated message of a write, and the order.filled one if there is a fill. */
  lemma UpdateAnnounces(base: seq<Message>, m: Message, id: string)
    requires m.OrderUpdated?
    ensures UpdatesOf(base + [m], id) ==
        UpdatesOf(base, id) + (if id == m.order then [Machine.State(m.status, m.filledQty)] else [])
    ensures FilledOf(base + [m], id) == FilledOf(base, id)
  {
    SnocMessage(base, m, id);
  }

  lemma FillAnnounces(base: seq<Message>, m: Message, id: string)
    requires m.OrderFilled?
    ensures UpdatesOf(base + [m], id) == UpdatesOf(base, id)
    ensures FilledOf(base + [m], id) == FilledOf(base, id) + (if id == m.order then [FactsOfMessage(m)] else [])
  {
    SnocMessage(base, m, id);
  }

  /** The messages of one write announce its audit row and its fill, and nothing else. */
  lemma MessagesAnnounce(db: Db, w: Write, unmatched: Decimal, id: string)
    requires w.id in db.orders && w.d.fillDelta >= 0.0
    ensures var row := db.orders[w.id];
            var outbox := db.outbox + Oversell(db, w, unmatched) +
                Messages(w.id, row, w.source, MessageEvent(db, w), w.d);
            && UpdatesOf(outbox, id) ==
               UpdatesOf(db.outbox, id) + (if id == w.id then [Machine.State(w.d.to, row.filledQty + w.d.fillDelta)]
                   else [])
            && FilledOf(outbox, id) ==
               FilledOf(db.outbox, id) + (if id == w.id && w.d.fillDelta > 0.0 then [FactsOfRow(NewFillRow(db, w))]
                   else [])
  {
    var base := db.outbox + Oversell(db, w, unmatched);
    var ms := Messages(w.id, db.orders[w.id], w.source, MessageEvent(db, w), w.d);
    OversellSilent(db, w, unmatched, id);
    UpdateAnnounces(base, ms[0], id);
    if w.d.fillDelta > 0.0 {
      FillAnnounces(base + [ms[0]], ms[1], id);
      JoinTwo(base, ms);
      assert FactsOfMessage(ms[1]) == FactsOfRow(NewFillRow(db, w));
    } else {
      assert ms == [ms[0]];
    }
  }

  lemma JoinTwo(base: seq<Message>, ms: seq<Message>)
    requires |ms| == 2
    ensures base + ms == base + [ms[0]] + [ms[1]]
  {
  }

  lemma OversellSilent(db: Db, w: Write, unmatched: Decimal, id: string)
    requires w.id in db.orders
    ensures var base := db.outbox + Oversell(db, w, unmatched);
            UpdatesOf(base, id) == UpdatesOf(db.outbox, id) && FilledOf(base, id) == FilledOf(db.outbox, id)
  {
    if unmatched > 0.0 {
      SnocMessage(db.outbox, Oversell(db, w, unmatched)[0], id);
    } else {
      assert db.outbox + Oversell(db, w, unmatched) == db.outbox;
    }
  }

  // ---------- The ledger ----------

  /** Ledger rows only ever name fills that exist. */
  lemma NextFillUnposted(db: Db)
    requires InventoriesAgree(db)
    ensures Ledger.Unposted(db.ledger, |db.fills|)
  {
    forall i | 0 <= i < |db.ledger.closures| ensures db.ledger.closures[i].fillId != |db.fills| {
      assert ClosureAgrees(db, db.ledger.closures[i]);
    }
  }

  /** The ledger after the write, and how its posting came out. */
  lemma PostedLedger(db: Db, w: Write, unmatched: Decimal, db': Db)
    requires RowsOk(db) && Ledger.Valid(db.ledger) && InventoriesAgree(db)
    requires Decided(db, w) && Wrote(db, w, unmatched, db')
    requires w.d.fillDelta > 0.0
    ensures Ledger.Valid(db'.ledger) && w.ev.fillPrice >= 0.0
    ensures var fill := FillToPost(db, w);
            if fill.side.Buy? then unmatched == 0.0 && Ledger.Opened(db.ledger, fill, w.lotId, db'.ledger)
            else fill.side.Sell? && Ledger.Sold(db.ledger, fill, unmatched, db'.ledger)
  {
    NextFillUnposted(db);
    assert RowOk(db.orders[w.id]);
    Ledger.PostKeepsValid(db.ledger, FillToPost(db, w), w.lotId);
  }

  /** Owned fills stay owned when orders keep their identity and fills are appended. */
  lemma OwnedByKept(db: Db, db': Db, f: nat, buy: bool, v: Inventory)
    requires IdentityKept(db.orders, db'.orders)
    requires |db.fills| <= |db'.fills| && db'.fills[..|db.fills|] == db.fills
    requires OwnedBy(db, f, buy, v)
    ensures OwnedBy(db', f, buy, v)
  {
    assert db'.fills[f] == db'.fills[..|db.fills|][f];
  }

  lemma BuyKeepsAccounts(t: Ledger.Tables, fill: Ledger.Fill, lotId: string, t': Ledger.Tables, f: nat, side: Side,
                         v: Inventory, qty: Decimal)
    requires Ledger.Opened(t, fill, lotId, t')
    requires f != fill.id && Accounted(t, f, side, v, qty)
    ensures Accounted(t', f, side, v, qty)
  {
    if side.Buy? {
      var i :| 0 <= i < |t.lots| && t.lots[i].openedBy == f && t.lots[i].lot.inventory == v && t.lots[i].lot.qty == qty;
      assert t'.lots[i] == t.lots[i];
    }
  }

  lemma SellKeepsAccounts(t: Ledger.Tables, fill: Ledger.Fill, unmatched: Decimal, t': Ledger.Tables, f: nat,
                          side: Side, v: Inventory, qty: Decimal)
    requires Ledger.Sold(t, fill, unmatched, t')
    requires f != fill.id && Accounted(t, f, side, v, qty)
    ensures Accounted(t', f, side, v, qty)
  {
    if unmatched > 0.0 {
      Ledger.SnocUnmatched(t.unmatched, Ledger.UnmatchedRow(fill.id, fill.inventory, unmatched, fill.at));
    } else {
      assert t'.unmatched == t.unmatched;
    }
    if side.Buy? {
      var i :| 0 <= i < |t.lots| && t.lots[i].openedBy == f && t.lots[i].lot.inventory == v && t.lots[i].lot.qty == qty;
      assert t'.lots[i].openedBy == f && t'.lots[i].lot == t.lots[i].lot.(remaining := t'.lots[i].lot.remaining);
    }
  }

  lemma NewFillAccounted(t: Ledger.Tables, fill: Ledger.Fill, lotId: string, unmatched: Decimal, t': Ledger.Tables)
    requires Ledger.Unposted(t, fill.id) && fill.qty > 0.0
    requires if fill.side.Buy? then Ledger.Opened(t, fill, lotId, t')
             else fill.side.Sell? && Ledger.Sold(t, fill, unmatched, t')
    ensures Accounted(t', fill.id, fill.side, fill.inventory, fill.qty)
  {
    Ledger.UnpostedSums(t, fill.id);
    if fill.side.Buy? {
      assert t'.lots[|t.lots|] == Ledger.NewLot(fill, lotId);
    } else {
      Ledger.SnocUnmatched(t.unmatched, Ledger.UnmatchedRow(fill.id, fill.inventory, unmatched, fill.at));
      assert t'.unmatched == t.unmatched || unmatched > 0.0;
      forall i | 0 <= i < |t'.lots| ensures t'.lots[i].openedBy != fill.id {
        assert t'.lots[i].openedBy == t.lots[i].openedBy;
      }
    }
  }

  lemma FillStaysAccounted(db: Db, w: Write, unmatched: Decimal, db': Db, f: nat)
    requires RowsOk(db) && Ledger.Valid(db.ledger) && InventoriesAgree(db) && f < |db.fills|
    requires Decided(db, w) && Wrote(db, w, unmatched, db') && db.fills[f].order in db.orders
    requires var row := db.orders[db.fills[f].order];
             Accounted(db.ledger, f, row.side, InventoryOf(row), db.fills[f].qty)
    ensures var row := db.orders[db.fills[f].order];
            Accounted(db'.ledger, f, row.side, InventoryOf(row), db.fills[f].qty)
  {
    var row, fill := db.orders[db.fills[f].order], FillToPost(db, w);
    if w.d.fillDelta > 0.0 {
      PostedLedger(db, w, unmatched, db');
      if fill.side.Buy? {
        BuyKeepsAccounts(db.ledger, fill, w.lotId, db'.ledger, f, row.side, InventoryOf(row), db.fills[f].qty);
      } else {
        SellKeepsAccounts(db.ledger, fill, unmatched, db'.ledger, f, row.side, InventoryOf(row), db.fills[f].qty);
      }
    }
  }

  lemma NextFillAccounted(db: Db, w: Write, unmatched: Decimal, db': Db)
    requires RowsOk(db) && Ledger.Valid(db.ledger) && InventoriesAgree(db)
    requires Decided(db, w) && Wrote(db, w, unmatched, db') && w.d.fillDelta > 0.0
    ensures var row := db.orders[w.id];
            Accounted(db'.ledger, |db.fills|, row.side, InventoryOf(row), w.d.fillDelta)
  {
    PostedLedger(db, w, unmatched, db');
    NextFillUnposted(db);
    NewFillAccounted(db.ledger, FillToPost(db, w), w.lotId, unmatched, db'.ledger);
  }

  lemma OldFillKept(db: Db, w: Write, unmatched: Decimal, db': Db, f: nat)
    requires RowsOk(db) && Ledger.Valid(db.ledger) && InventoriesAgree(db) && f < |db.fills|
    requires Decided(db, w) && Wrote(db, w, unmatched, db') && FillAccounted(db, f)
    ensures f < |db'.fills| && FillAccounted(db', f)
  {
    FillStaysAccounted(db, w, unmatched, db', f);
    assert db'.fills[f] == db.fills[f];
  }

  lemma NewFillKept(db: Db, w: Write, unmatched: Decimal, db': Db)
    requires RowsOk(db) && Ledger.Valid(db.ledger) && InventoriesAgree(db)
    requires Decided(db, w) && Wrote(db, w, unmatched, db') && w.d.fillDelta > 0.0
    ensures |db.fills| < |db'.fills| && FillAccounted(db', |db.fills|)
  {
    NextFillAccounted(db, w, unmatched, db');
    assert db'.fills[|db.fills|] == NewFillRow(db, w);
  }

  lemma KeepsAccounts(db: Db, w: Write, unmatched: Decimal, db': Db)
    requires RowsOk(db) && Ledger.Valid(db.ledger) && InventoriesAgree(db) && FillsAccounted(db)
    requires Decided(db, w) && Wrote(db, w, unmatched, db')
    ensures FillsAccounted(db')
  {
    forall f | 0 <= f < |db'.fills| ensures FillAccounted(db', f) {
      if f < |db.fills| {
        OldFillKept(db, w, unmatched, db', f);
      } else {
        NewFillKept(db, w, unmatched, db');
      }
    }
  }

  /** The posting's rows belong to the fill's own inventory; older rows are as they were. */
  ghost predicate RowsPosted(t: Ledger.Tables, fill: Ledger.Fill, t': Ledger.Tables) {
    && |t.lots| <= |t'.lots| && |t.closures| <= |t'.closures| && |t.unmatched| <= |t'.unmatched|
    && (forall i :: 0 <= i < |t.lots| ==>
          t'.lots[i].lot.id == t.lots[i].lot.id && t'.lots[i].lot.inventory == t.lots[i].lot.inventory
          && t'.lots[i].openedBy == t.lots[i].openedBy)
    && (forall i :: |t.lots| <= i < |t'.lots| ==>
          fill.side.Buy? && t'.lots[i].openedBy == fill.id && t'.lots[i].lot.inventory == fill.inventory)
    && t'.closures[..|t.closures|] == t.closures
    && (forall i :: |t.closures| <= i < |t'.closures| ==>
          fill.side.Sell? && t'.closures[i].fillId == fill.id &&
              Ledger.ClosesIn(t.lots, t'.closures[i], fill.inventory))
    && t'.unmatched[..|t.unmatched|] == t.unmatched
    && (forall i :: |t.unmatched| <= i < |t'.unmatched| ==>
          fill.side.Sell? && t'.unmatched[i].fillId == fill.id && t'.unmatched[i].inventory == fill.inventory)
  }

  lemma SoldIsRowsPosted(t: Ledger.Tables, fill: Ledger.Fill, oversold: Decimal, t': Ledger.Tables)
    requires fill.side.Sell? && Ledger.Sold(t, fill, oversold, t')
    ensures RowsPosted(t, fill, t')
  {
  }

  lemma OpenedIsRowsPosted(t: Ledger.Tables, fill: Ledger.Fill, lotId: string, t': Ledger.Tables)
    requires fill.side.Buy? && Ledger.Opened(t, fill, lotId, t')
    ensures RowsPosted(t, fill, t')
  {
  }

  lemma RowsArePosted(db: Db, w: Write, unmatched: Decimal, db': Db)
    requires RowsOk(db) && Ledger.Valid(db.ledger) && InventoriesAgree(db)
    requires Decided(db, w) && Wrote(db, w, unmatched, db')
    ensures RowsPosted(db.ledger, FillToPost(db, w), db'.ledger)
  {
    if w.d.fillDelta > 0.0 {
      PostedLedger(db, w, unmatched, db');
      if db.orders[w.id].side.Buy? {
        OpenedIsRowsPosted(db.ledger, FillToPost(db, w), w.lotId, db'.ledger);
      } else {
        SoldIsRowsPosted(db.ledger, FillToPost(db, w), unmatched, db'.ledger);
      }
    } else {
      assert db.ledger.closures[..|db.ledger.closures|] == db.ledger.closures;
    }
  }

  lemma KeepsInventories(db: Db, w: Write, unmatched: Decimal, db': Db)
    requires RowsOk(db) && VenueIdsUnique(db) && Ledger.Valid(db.ledger) && InventoriesAgree(db)
    requires Decided(db, w) && Wrote(db, w, unmatched, db')
    ensures InventoriesAgree(db')
  {
    KeepsRows(db, w, unmatched, db');
    RowsArePosted(db, w, unmatched, db');
    var fill := FillToPost(db, w);
    assert db'.fills[..|db.fills|] == db.fills;
    if w.d.fillDelta > 0.0 {
      assert OwnedBy(db', fill.id, fill.side.Buy?, fill.inventory);
      PostedAgrees(db, fill, db');
    } else {
      QuietAgrees(db, db');
    }
  }

  lemma QuietAgrees(db: Db, db': Db)
    requires InventoriesAgree(db)
    requires IdentityKept(db.orders, db'.orders)
    requires db'.fills == db.fills && db'.ledger == db.ledger
    ensures InventoriesAgree(db')
  {
    forall i | 0 <= i < |db.ledger.closures| ensures ClosureAgrees(db', db.ledger.closures[i]) {
      ClosureStillAgrees(db, db', db.ledger.closures[i]);
    }
  }

  lemma PostedAgrees(db: Db, fill: Ledger.Fill, db': Db)
    requires InventoriesAgree(db)
    requires IdentityKept(db.orders, db'.orders)
    requires |db.fills| <= |db'.fills| && db'.fills[..|db.fills|] == db.fills
    requires RowsPosted(db.ledger, fill, db'.ledger)
    requires OwnedBy(db', fill.id, fill.side.Buy?, fill.inventory)
    ensures InventoriesAgree(db')
  {
    var t, t' := db.ledger, db'.ledger;
    forall i | 0 <= i < |t'.lots| ensures OwnedBy(db', t'.lots[i].openedBy, true, t'.lots[i].lot.inventory) {
      if i < |t.lots| {
        OwnedByKept(db, db', t.lots[i].openedBy, true, t.lots[i].lot.inventory);
      }
    }
    forall i | 0 <= i < |t'.closures| ensures ClosureAgrees(db', t'.closures[i]) {
      if i < |t.closures| {
        assert t'.closures[i] == t'.closures[..|t.closures|][i] == t.closures[i];
        ClosureStillAgrees(db, db', t.closures[i]);
      } else {
        assert Ledger.ClosesIn(t.lots, t'.closures[i], fill.inventory);
        var j :| 0 <= j < |t.lots| && t.lots[j].lot.id == t'.closures[i].lotId &&
            t.lots[j].lot.inventory == fill.inventory;
        assert t'.lots[j].lot.id == t'.closures[i].lotId;
      }
    }
    forall i | 0 <= i < |t'.unmatched| ensures OwnedBy(db', t'.unmatched[i].fillId, false, t'.unmatched[i].inventory) {
      if i < |t.unmatched| {
        assert t'.unmatched[i] == t'.unmatched[..|t.unmatched|][i] == t.unmatched[i];
        OwnedByKept(db, db', t.unmatched[i].fillId, false, t.unmatched[i].inventory);
      }
    }
  }

  lemma ClosureStillAgrees(db: Db, db': Db, c: Ledger.ClosureRow)
    requires IdentityKept(db.orders, db'.orders)
    requires |db.fills| <= |db'.fills| && db'.fills[..|db.fills|] == db.fills
    requires |db.ledger.lots| <= |db'.ledger.lots|
    requires forall i :: 0 <= i < |db.ledger.lots| ==>
               db'.ledger.lots[i].lot.id == db.ledger.lots[i].lot.id &&
                   db'.ledger.lots[i].lot.inventory == db.ledger.lots[i].lot.inventory
    requires ClosureAgrees(db, c)
    ensures ClosureAgrees(db', c)
  {
    var i :| 0 <= i < |db.ledger.lots| && db.ledger.lots[i].lot.id == c.lotId &&
        OwnedBy(db, c.fillId, false, db.ledger.lots[i].lot.inventory);
    OwnedByKept(db, db', c.fillId, false, db.ledger.lots[i].lot.inventory);
    assert db'.ledger.lots[i].lot.id == c.lotId;
  }

  lemma KeepsPositions(db: Db, w: Write, unmatched: Decimal, db': Db)
    requires RowsOk(db) && VenueIdsUnique(db) && Ledger.Valid(db.ledger) && InventoriesAgree(db) && FillsOk(db)
    requires PositionsConserved(db)
    requires Decided(db, w) && Wrote(db, w, unmatched, db')
    ensures PositionsConserved(db')
  {
    KeepsRows(db, w, unmatched, db');
    var fill := FillToPost(db, w);
    forall v
      ensures NetFilled(db'.fills, db'.orders, v) ==
              Ledger.HeldIn(db'.ledger.lots, v) - Ledger.UnmatchedIn(db'.ledger.unmatched, v)
    {
      NetFilledKept(db.fills, db.orders, db'.orders, v);
      if w.d.fillDelta > 0.0 {
        PostedLedger(db, w, unmatched, db');
        SnocNet(db.fills, NewFillRow(db, w), db'.orders, v);
        PostedPosition(db.ledger, fill, w.lotId, unmatched, db'.ledger, v);
      } else {
        assert db'.fills == db.fills;
      }
    }
  }

  lemma PostedPosition(t: Ledger.Tables, fill: Ledger.Fill, lotId: string, unmatched: Decimal, t': Ledger.Tables,
                       v: Inventory)
    requires fill.side.Buy? ==> Ledger.Opened(t, fill, lotId, t')
    requires !fill.side.Buy? ==> Ledger.Sold(t, fill, unmatched, t')
    ensures Ledger.HeldIn(t'.lots, v) - Ledger.UnmatchedIn(t'.unmatched, v) ==
            Ledger.HeldIn(t.lots, v) - Ledger.UnmatchedIn(t.unmatched, v) +
            (if fill.inventory != v then 0.0 else if fill.side.Buy? then fill.qty else -fill.qty)
  {
    if fill.side.Buy? {
      Ledger.SnocLot(t.lots, Ledger.NewLot(fill, lotId));
    } else if unmatched > 0.0 {
      Ledger.SnocUnmatched(t.unmatched, Ledger.UnmatchedRow(fill.id, fill.inventory, unmatched, fill.at));
    } else {
      assert t'.unmatched == t.unmatched;
    }
  }

  lemma PersistKeepsValid(db: Db, w: Write, unmatched: Decimal, db': Db)
    requires Valid(db)
    requires Decided(db, w) && Wrote(db, w, unmatched, db')
    ensures Valid(db')
  {
    KeepsRows(db, w, unmatched, db');
    KeepsLogs(db, w, unmatched, db');
    if w.d.fillDelta > 0.0 {
      PostedLedger(db, w, unmatched, db');
    }
    KeepsFills(db, w, unmatched, db');
    KeepsTotals(db, w, unmatched, db');
    KeepsAccounts(db, w, unmatched, db');
    KeepsInventories(db, w, unmatched, db');
    KeepsPositions(db, w, unmatched, db');
    KeepsOutbox(db, w, unmatched, db');
  }
}

/**
 The order store as the program has it: an object whose tables its methods rewrite one
 statement at a time inside a transaction, rolled back on any error. Each public method is
 proved to do exactly what its function in module Store says, and to keep the books.
 */
module OrderStore {
  import opened Prelude
  import opened Domain
  import opened Store
  import StoreInvariant
  import StoreRuns
  import Machine
  import Ledger
  import Fifo

  class Tables {
    var orders: map<string, OrderRow>
    var transitions: seq<TransitionRow>
    var fills: seq<FillRow>
    var lots: seq<Ledger.LotRow>
    var closures: seq<Ledger.ClosureRow>
    var unmatched: seq<Ledger.UnmatchedRow>
    var outbox: seq<Message>

    ghost function LedgerContents(): Ledger.Tables
      reads this
    {
      Ledger.Tables(lots, closures, unmatched)
    }

    ghost function Contents(): Db
      reads this
    {
      Db(orders, transitions, fills, LedgerContents(), outbox)
    }

    ghost predicate Valid()
      reads this
    {
      StoreInvariant.Valid(Contents())
    }

    constructor ()
      ensures Valid() && Contents() == EMPTY
    {
      orders, transitions, fills, lots, closures, unmatched, outbox := map[], [], [], [], [], [], [];
    }

    method CreatePending(req: Request, now: Instant) returns (inserted: Result<bool, StoreError>)
      requires Valid()
      modifies this
      ensures Valid()
      ensures match Store.CreatePending(old(Contents()), req, now)
              case Ok((db, isNew)) => inserted == Ok(isNew) && Contents() == db
              case Err(e) => inserted == Err(e) && Contents() == old(Contents())
    {
      StoreRuns.ExecKeepsValid(Contents(), Create(req, now));
      if req.side.UnsupportedSide? || req.kind.UnsupportedKind? {
        return Err(CheckViolated);
      }
      if req.clientOrderId in orders {
        return Ok(false);
      }
      orders := orders[req.clientOrderId := PendingRow(req, now)];
      return Ok(true);
    }

    method MarkCancelRequested(id: string, at: Instant, now: Instant) returns (done: Result<(), StoreError>)
      requires Valid()
      modifies this
      ensures Valid()
      ensures match Store.MarkCancelRequested(old(Contents()), id, at, now)
              case Ok(db) => done.Ok? && Contents() == db
              case Err(e) => done == Err(e) && Contents() == old(Contents())
    {
      if id !in orders {
        return Err(NotFound);
      }
      ghost var after := Store.MarkCancelRequested(Contents(), id, at, now).value;
      StoreRuns.MarkKeepsValid(Contents(), id, at, now);
      var row := orders[id];
      if row.cancelRequestedAt.None? {
        row := row.(cancelRequestedAt := Some(at));
      }
      orders := orders[id := row.(updatedAt := now)];
      assert Contents() == after;
      return Ok(());
    }

    /** One transaction: commits what the decision carries, or leaves every table alone. */
    method ApplyEvent(source: Source, ev: Event, lotId: string, now: Instant)
      returns (r: Result<ApplyResult, StoreError>)
      requires Valid()
      modifies this
      ensures Valid()
      ensures match Store.ApplyEvent(old(Contents()), source, ev, lotId, now)
              case Ok((db, result)) => r == Ok(result) && Contents() == db
              case Err(e) => r == Err(e) && Contents() == old(Contents())
    {
      StoreRuns.ApplyKeepsValid(Contents(), source, ev, lotId, now);
      r := Transact(source, ev, lotId, now);
    }

    method Transact(source: Source, ev: Event, lotId: string, now: Instant) returns (r: Result<ApplyResult, StoreError>)
      requires Ledger.LotsDistinct(lots)
      modifies this
      ensures match Store.ApplyEvent(old(Contents()), source, ev, lotId, now)
              case Ok((db, result)) => r == Ok(result) && Contents() == db
              case Err(e) => r == Err(e) && Contents() == old(Contents())
    {
      var id := ev.ref.clientOrderId;
      if id !in orders {
        return Err(NotFound);
      }
      var decision := Machine.Transition(StateOf(orders[id]), ev);
      if decision.Err? {
        return Err(BadStatus(decision.error));
      }
      var d := decision.value;
      if !Persists(d) {
        var adopted := AdoptVenueOrderId(id, ev.ref.venueOrderId, now);
        if adopted.Err? {
          return Err(adopted.error);
        }
        return Ok(ApplyResult(d, 0.0, false));
      }
      var begun := (orders, transitions, fills, lots, closures, unmatched, outbox);
      r := PersistDecision(id, source, ev, d, lotId, now);
      if r.Err? {
        orders, transitions, fills, lots, closures, unmatched, outbox :=
          begun.0, begun.1, begun.2, begun.3, begun.4, begun.5, begun.6;
      }
    }

    method AdoptVenueOrderId(id: string, vid: string, now: Instant) returns (r: Result<bool, StoreError>)
      requires id in orders
      modifies this
      ensures match Store.Adopt(old(Contents()), id, vid, now)
              case Ok(db) => r.Ok? && Contents() == db && (!r.value ==> db == old(Contents()))
              case Err(e) => r == Err(e) && Contents() == old(Contents())
    {
      var row := orders[id];
      if row.venueOrderId.Some? || vid == "" {
        return Ok(false);
      }
      var free := VenueOrderIdUnused(id, row.instrument.venue, Some(vid));
      if !free {
        return Err(VenueOrderIdTaken);
      }
      orders := orders[id := row.(venueOrderId := Some(vid), updatedAt := now)];
      return Ok(true);
    }

    /** The unique index probe behind a row update. */
    method VenueOrderIdUnused(id: string, venue: string, vid: Option<string>) returns (free: bool)
      ensures free == VenueOrderIdFree(Contents(), id, venue, vid)
    {
      free := true;
      if vid.None? {
        return;
      }
      var left := orders.Keys;
      while left != {}
        invariant left <= orders.Keys
        invariant free ==>
                    forall other :: other in orders.Keys - left && other != id
                                    && orders[other].instrument.venue == venue ==>
                      orders[other].venueOrderId != vid
        invariant !free ==> !VenueOrderIdFree(Contents(), id, venue, vid)
        decreases left
      {
        var other :| other in left;
        if other != id && orders[other].instrument.venue == venue && orders[other].venueOrderId == vid {
          free := false;
        }
        left := left - {other};
      }
    }

    method PersistDecision(id: string, source: Source, ev: Event, d: Machine.Decision, lotId: string, now: Instant)
      returns (r: Result<ApplyResult, StoreError>)
      requires id in orders && ev.ref.clientOrderId == id
      requires Ledger.LotsDistinct(lots)
      modifies this
      ensures match Store.Persist(old(Contents()), source, ev, d, lotId, now)
              case Ok((db, result)) => r == Ok(result) && Contents() == db
              case Err(e) => r == Err(e)
    {
      var recorded, oversold, conflict := ev, 0.0, false;
      var transition := InsertTransition(id, d, source, ev);
      if d.fillDelta > 0.0 {
        var filled := RecordFill(id, transition, ev, d.fillDelta, lotId);
        if filled.Err? {
          return Err(filled.error);
        }
        oversold, conflict := filled.value.0, filled.value.1;
        recorded := if conflict then WithoutFillId(ev) else ev;
      }
      var finished := Finish(id, source, recorded, d, now);
      if finished.Err? {
        return Err(finished.error);
      }
      return Ok(ApplyResult(d, oversold, conflict));
    }

    method RecordFill(id: string, transition: nat, ev: Event, qty: Decimal, lotId: string)
      returns (r: Result<(Decimal, bool), StoreError>)
      requires id in orders && transition + 1 == |transitions|
      requires Ledger.LotsDistinct(lots)
      modifies this`fills, this`lots, this`closures, this`unmatched, this`outbox
      ensures match Store.RecordFill(old(Contents()), id, ev, qty, lotId)
              case Ok((db, over)) => r == Ok((over, Conflicts(old(Contents()), id, ev))) && Contents() == db
              case Err(e) => r == Err(e)
    {
      var recorded, conflict := ev, false;
      var fill := FillRow(id, transition, qty, NullNumeric(ev.fillPrice), NullNumeric(ev.fee),
                          NullString(ev.feeCurrency), NullString(ev.venueFillId), ev.at);
      var fillId := InsertFill(fill);
      if fillId.None? {
        conflict := true;
        fill := fill.(venueFillId := None, fee := None, feeCurrency := None);
        fillId := InsertFill(fill);
        recorded := WithoutFillId(ev);
      }
      var posted := PostLedgerFill(orders[id], id, recorded, qty, fillId.value, lotId);
      if posted.Err? {
        return Err(LedgerRefused(posted.error));
      }
      return Ok((posted.value, conflict));
    }

    method Finish(id: string, source: Source, ev: Event, d: Machine.Decision, now: Instant)
      returns (r: Result<(), StoreError>)
      requires id in orders
      modifies this`orders, this`outbox
      ensures match Store.Finish(old(Contents()), id, source, ev, d, now)
              case Ok(db) => r.Ok? && Contents() == db
              case Err(e) => r == Err(e)
    {
      var row := orders[id];
      var updated := UpdatedRow(row, d, ev, now);
      var free := VenueOrderIdUnused(id, row.instrument.venue, updated.venueOrderId);
      if !free {
        return Err(VenueOrderIdTaken);
      }
      orders := orders[id := updated];
      outbox := outbox + Messages(id, row, source, ev, d);
      return Ok(());
    }

    method InsertTransition(id: string, d: Machine.Decision, source: Source, ev: Event) returns (rowId: nat)
      requires id in orders
      modifies this`transitions
      ensures Contents() == Store.InsertTransition(old(Contents()), id, d, source, ev)
      ensures rowId == |transitions| - 1 == |old(transitions)|
    {
      var row := orders[id];
      var seqNo := NextSeqNo(id);
      rowId := |transitions|;
      transitions := transitions + [
        TransitionRow(id, seqNo, row.status, d.to, row.filledQty + d.fillDelta, source, NullString(ev.reason), ev.at)];
    }

    method NextSeqNo(id: string) returns (seqNo: nat)
      ensures seqNo == MaxSeqNo(transitions, id) + 1
    {
      var max, i := 0, 0;
      while i < |transitions|
        invariant 0 <= i <= |transitions|
        invariant max == MaxSeqNo(transitions[..i], id)
      {
        assert transitions[..i + 1][..i] == transitions[..i];
        if transitions[i].order == id && transitions[i].seqNo > max {
          max := transitions[i].seqNo;
        }
        i := i + 1;
      }
      assert transitions[..i] == transitions;
      seqNo := max + 1;
    }

    /** None is the conflict on (client_order_id, venue_fill_id). */
    method InsertFill(fill: FillRow) returns (rowId: Option<nat>)
      modifies this`fills
      ensures var clash := fill.venueFillId.Some? && FillIdUsed(old(fills), fill.order, fill.venueFillId.value);
              if clash then rowId == None && fills == old(fills)
              else rowId == Some(|old(fills)|) && fills == old(fills) + [fill]
    {
      if fill.venueFillId.Some? {
        var i := 0;
        while i < |fills|
          invariant 0 <= i <= |fills|
          invariant forall k :: 0 <= k < i ==> fills[k].order != fill.order || fills[k].venueFillId != fill.venueFillId
        {
          if fills[i].order == fill.order && fills[i].venueFillId == fill.venueFillId {
            return None;
          }
          i := i + 1;
        }
      }
      rowId := Some(|fills|);
      fills := fills + [fill];
    }

    method PostLedgerFill(row: OrderRow, id: string, ev: Event, qty: Decimal, fillId: nat, lotId: string)
      returns (oversold: Result<Decimal, Ledger.LedgerError>)
      requires Ledger.LotsDistinct(lots)
      modifies this`lots, this`closures, this`unmatched, this`outbox
      ensures var fill := Ledger.Fill(fillId, row.side, InventoryOf(row), qty, ev.fillPrice, ev.at);
              match Ledger.Post(old(LedgerContents()), fill, lotId)
              case Ok((ledger, over)) =>
                && oversold == Ok(over) && LedgerContents() == ledger
                && outbox == old(outbox) + (if over > 0.0 then [UnmatchedSell(id, InventoryOf(row), fillId, over)]
                    else [])
              case Err(e) => oversold == Err(e)
    {
      if qty <= 0.0 {
        return Err(Ledger.NonPositiveQty);
      }
      if ev.fillPrice < 0.0 {
        return Err(Ledger.NegativePrice);
      }
      var fill := Ledger.Fill(fillId, row.side, InventoryOf(row), qty, ev.fillPrice, ev.at);
      match row.side {
        case Buy =>
          oversold := InsertLot(Ledger.NewLot(fill, lotId));
        case Sell =>
          oversold := CloseLots(id, fill);
        case UnsupportedSide(_) =>
          return Err(Ledger.SideNotSupported);
      }
    }

    method InsertLot(row: Ledger.LotRow) returns (r: Result<Decimal, Ledger.LedgerError>)
      modifies this`lots
      ensures match Ledger.InsertLot(old(LedgerContents()), row)
              case Ok(ledger) => r == Ok(0.0) && LedgerContents() == ledger
              case Err(e) => r == Err(e)
    {
      if exists i :: 0 <= i < |lots| && lots[i].lot.id == row.lot.id {
        return Err(Ledger.LotIdTaken);
      }
      if !Ledger.LotChecks(row) || exists i :: 0 <= i < |lots| && lots[i].openedBy == row.openedBy {
        return Err(Ledger.ConstraintViolated);
      }
      lots := lots + [row];
      return Ok(0.0);
    }

    method CloseLots(id: string, fill: Ledger.Fill) returns (oversold: Result<Decimal, Ledger.LedgerError>)
      requires Ledger.LotsDistinct(lots)
      requires fill.side.Sell? && fill.qty > 0.0 && fill.price >= 0.0
      modifies this`lots, this`closures, this`unmatched, this`outbox
      ensures match Ledger.Post(old(LedgerContents()), fill, "")
              case Ok((ledger, over)) =>
                && oversold == Ok(over) && LedgerContents() == ledger
                && outbox == old(outbox) + (if over > 0.0 then [UnmatchedSell(id, fill.inventory, fill.id, over)]
                    else [])
              case Err(e) => oversold == Err(e)
    {
      ghost var begun := LedgerContents();
      var open := Fifo.Ordered(Ledger.OpenLots(lots, fill.inventory));
      ListedLotsDistinct(begun, fill.inventory);
      var allocation := Fifo.Select(open, fill.qty);
      assert allocation == Fifo.Allocate(Ledger.Walked(begun, fill.inventory), fill.qty);

      var i := 0;
      while i < |allocation.closures|
        invariant 0 <= i <= |allocation.closures|
        invariant unmatched == old(unmatched) && outbox == old(outbox)
        invariant Ledger.RecordClosures(begun, allocation.closures, fill) ==
                  Ledger.RecordClosures(LedgerContents(), allocation.closures[i..], fill)
      {
        assert allocation.closures[i..][1..] == allocation.closures[i + 1..];
        var recorded := RecordClosure(allocation.closures[i], fill);
        if recorded.Err? {
          return Err(recorded.error);
        }
        i := i + 1;
      }
      assert Ledger.RecordClosures(begun, allocation.closures, fill) == Ok(LedgerContents());
      if allocation.unmatched <= 0.0 {
        return Ok(0.0);
      }
      oversold := RecordUnmatched(id, fill, allocation.unmatched);
    }

    lemma ListedLotsDistinct(t: Ledger.Tables, inventory: Inventory)
      requires Ledger.LotsDistinct(t.lots)
      ensures Fifo.DistinctIds(Ledger.ListOpenLots(t, inventory))
    {
      var open := Ledger.OpenLots(t.lots, inventory);
      Ledger.OpenLotsAreRows(t.lots, inventory);
      Fifo.OrderedIsSorted(open);
      Fifo.DistinctIdsByCount(open, Fifo.Ordered(open));
    }

    method RecordClosure(c: Fifo.Closure, fill: Ledger.Fill) returns (r: Result<(), Ledger.LedgerError>)
      modifies this`lots, this`closures
      ensures match Ledger.RecordClosure(old(LedgerContents()), c, fill)
              case Ok(ledger) => r.Ok? && LedgerContents() == ledger
              case Err(e) => r == Err(e)
    {
      if c.qty <= 0.0 || fill.price < 0.0
         || (forall i :: 0 <= i < |lots| ==> lots[i].lot.id != c.lotId)
         || exists i :: 0 <= i < |closures| && closures[i].lotId == c.lotId && closures[i].fillId == fill.id {
        return Err(Ledger.ConstraintViolated);
      }
      closures := closures + [Ledger.ClosureRow(c.lotId, fill.id, c.qty, fill.price, fill.at)];
      lots := Ledger.DecrementedLots(lots, c.lotId, c.qty, fill.at);
      if exists i :: 0 <= i < |lots| && lots[i].lot.id == c.lotId && !Ledger.LotChecks(lots[i]) {
        return Err(Ledger.ConstraintViolated);
      }
      return Ok(());
    }

    method RecordUnmatched(id: string, fill: Ledger.Fill, qty: Decimal) returns (r: Result<Decimal, Ledger.LedgerError>)
      modifies this`unmatched, this`outbox
      ensures match Ledger.InsertUnmatched(old(LedgerContents()),
          Ledger.UnmatchedRow(fill.id, fill.inventory, qty, fill.at))
              case Ok(ledger) =>
                && r == Ok(qty) && LedgerContents() == ledger
                && outbox == old(outbox) + [UnmatchedSell(id, fill.inventory, fill.id, qty)]
              case Err(e) => r == Err(e)
    {
      if qty <= 0.0 || exists i :: 0 <= i < |unmatched| && unmatched[i].fillId == fill.id {
        return Err(Ledger.ConstraintViolated);
      }
      unmatched := unmatched + [Ledger.UnmatchedRow(fill.id, fill.inventory, qty, fill.at)];
      outbox := outbox + [UnmatchedSell(id, fill.inventory, fill.id, qty)];
      return Ok(qty);
    }
  }
}

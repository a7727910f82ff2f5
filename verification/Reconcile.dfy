/**
 Reconciliation: one pass compares a venue's open orders, and point lookups for what is
 missing from them, with the locally active orders, and applies every difference. `lookup`
 answers None for any lookup that fails.
 */
module Reconcile {
  import opened Prelude
  import opened Domain
  import opened Store
  import opened StoreInvariant
  import opened StoreRuns
  import Machine
  import Ledger
  import StoreProof
  import OrderStore
  import Effects

  datatype Answers = Answers(open: seq<Snapshot>, lookup: Ref -> Option<Snapshot>)

  datatype Clock = Clock(now: Instant, interval: int)

  // ---------- What a pass consults ----------

  /** The venue's open orders by client order ID; a later snapshot replaces an earlier one. */
  function ByClient(open: seq<Snapshot>): map<string, Snapshot> {
    if open == [] then map[]
    else
      var earlier, snap := ByClient(open[..|open| - 1]), open[|open| - 1];
      if snap.ref.clientOrderId != "" then earlier[snap.ref.clientOrderId := snap] else earlier
  }

  lemma {:induction false} ByClientKeys(open: seq<Snapshot>, id: string)
    requires id in ByClient(open)
    ensures ByClient(open)[id].ref.clientOrderId == id && id != "" && ByClient(open)[id] in open
  {
    var earlier, snap := open[..|open| - 1], open[|open| - 1];
    if snap.ref.clientOrderId == "" || snap.ref.clientOrderId != id {
      ByClientKeys(earlier, id);
    }
  }

  /** Some venues leave our keys out of point-lookup answers. */
  function WithLocalRef(snap: Snapshot, id: string, row: OrderRow): Snapshot {
    snap.(ref := snap.ref.(
      clientOrderId := id,
      venueOrderId := if snap.ref.venueOrderId == "" then FromNullString(row.venueOrderId) else snap.ref.venueOrderId))
  }

  predicate InGrace(row: OrderRow, clock: Clock) {
    clock.now - row.createdAt < 2 * clock.interval
  }

  /** A pending order nobody lists is left alone in its grace time or without a venue order ID. */
  predicate LeftPending(row: OrderRow, clock: Clock) {
    row.status == Pending && (InGrace(row, clock) || FromNullString(row.venueOrderId) == "")
  }

  /** What a point lookup asks for. */
  function StoredRef(id: string, row: OrderRow): Ref {
    Ref(row.instrument, id, FromNullString(row.venueOrderId))
  }

  /** The snapshot a pass uses for an active order, if it gets one. */
  function Consulted(a: Answers, id: string, row: OrderRow, clock: Clock): Option<Snapshot> {
    if id in ByClient(a.open) then Some(ByClient(a.open)[id])
    else if LeftPending(row, clock) then None
    else
      match a.lookup(StoredRef(id, row))
      case None => None
      case Some(snap) => Some(WithLocalRef(snap, id, row))
  }

  /** The last listed snapshot that names the order. */
  ghost predicate ListedLast(open: seq<Snapshot>, id: string, snap: Snapshot) {
    exists i :: 0 <= i < |open| && open[i] == snap && NamesAt(open, i, id) &&
                forall j :: i < j < |open| ==> !NamesAt(open, j, id)
  }

  predicate NamesAt(open: seq<Snapshot>, i: nat, id: string)
    requires i < |open|
  {
    id != "" && open[i].ref.clientOrderId == id
  }

  predicate Unlisted(open: seq<Snapshot>, id: string) {
    forall i :: 0 <= i < |open| ==> !NamesAt(open, i, id)
  }

  lemma {:induction false} ByClientIsLast(open: seq<Snapshot>, id: string)
    ensures if id in ByClient(open) then ListedLast(open, id, ByClient(open)[id]) else Unlisted(open, id)
  {
    if open != [] {
      var n := |open| - 1;
      var earlier := open[..n];
      ByClientIsLast(earlier, id);
      if id == "" || open[n].ref.clientOrderId != id {
        LastStays(open, id);
      } else {
        assert NamesAt(open, n, id);
      }
    }
  }

  lemma LastStays(open: seq<Snapshot>, id: string)
    requires open != [] && !NamesAt(open, |open| - 1, id)
    ensures Unlisted(open[..|open| - 1], id) ==> Unlisted(open, id)
    ensures forall snap :: ListedLast(open[..|open| - 1], id, snap) ==> ListedLast(open, id, snap)
  {
    var n := |open| - 1;
    var earlier := open[..n];
    forall snap | ListedLast(earlier, id, snap) ensures ListedLast(open, id, snap) {
      var i :| 0 <= i < n && earlier[i] == snap && NamesAt(earlier, i, id) &&
          forall j :: i < j < n ==> !NamesAt(earlier, j, id);
      forall j | i < j < |open| ensures !NamesAt(open, j, id) {
        assert j < n ==> !NamesAt(earlier, j, id);
      }
      assert open[i] == snap && NamesAt(open, i, id);
    }
    if Unlisted(earlier, id) {
      forall i | 0 <= i < |open| ensures !NamesAt(open, i, id) {
        assert i < n ==> !NamesAt(earlier, i, id);
      }
    }
  }

  /** The venue order ID we have, if any. */
  function KnownVenueId(row: OrderRow): string {
    if row.venueOrderId.Some? then row.venueOrderId.value else ""
  }

  /** An answer to a lookup, under our keys: the client order ID, and the venue's ID if it gave none. */
  predicate AnswersFor(snap: Snapshot, answer: Snapshot, id: string, row: OrderRow) {
    && snap.ref.clientOrderId == id
    && snap.ref.venueOrderId == (if answer.ref.venueOrderId == "" then KnownVenueId(row) else answer.ref.venueOrderId)
    && snap.ref.instrument == answer.ref.instrument && snap.status == answer.status
    && snap.filledQty == answer.filledQty && snap.avgFillPrice == answer.avgFillPrice
    && snap.updatedAt == answer.updatedAt
  }

  /**
   The last snapshot listed for the order is used. An order that is not listed is looked up by
   its stored keys, unless it is pending and either younger than two intervals or without a
   venue order ID.
   */
  lemma ConsultedByName(a: Answers, id: string, row: OrderRow, clock: Clock)
    ensures var r := Consulted(a, id, row, clock);
            if !Unlisted(a.open, id) then r.Some? && ListedLast(a.open, id, r.value)
            else if row.status == Pending && (clock.now < row.createdAt + 2 * clock.interval || KnownVenueId(row) == "")
            then r.None?
            else
              var answer := a.lookup(Ref(row.instrument, id, KnownVenueId(row)));
              r.Some? == answer.Some? && (r.Some? ==> AnswersFor(r.value, answer.value, id, row))
  {
    ByClientIsLast(a.open, id);
    if id in ByClient(a.open) {
      var i :| 0 <= i < |a.open| && NamesAt(a.open, i, id);
    }
    assert StoredRef(id, row) == Ref(row.instrument, id, KnownVenueId(row));
  }

  predicate Agrees(row: OrderRow, snap: Snapshot) {
    && snap.status == row.status
    && snap.filledQty == row.filledQty
    && !(FromNullString(row.venueOrderId) == "" && snap.ref.venueOrderId != "")
  }

  function EventOf(snap: Snapshot, clock: Clock): Event {
    Event(snap.ref, snap.status, snap.filledQty, snap.avgFillPrice, "", 0.0, "", "",
          if snap.updatedAt == UNSET then clock.now else snap.updatedAt)
  }

  // ---------- The pass over local orders ----------

  /** An order that disappears meanwhile is not an error. */
  function Applied(db: Db, ev: Event, lotId: string, now: Instant): Result<Db, StoreError> {
    match ApplyEvent(db, Source.Reconcile, ev, lotId, now)
    case Ok(r) => Ok(r.0)
    case Err(e) => if e == NotFound then Ok(db) else Err(e)
  }

  function Visit(db: Db, id: string, row: OrderRow, a: Answers, clock: Clock, lotId: string): Result<Db, StoreError> {
    match Consulted(a, id, row, clock)
    case None => Ok(db)
    case Some(snap) =>
      if id in ByClient(a.open) && Agrees(row, snap) then Ok(db)
      else Applied(db, EventOf(snap, clock), lotId, clock.now)
  }

  /** Every apply commits on its own; the first store error ends the pass. */
  datatype Outcome = Outcome(db: Db, error: Option<StoreError>)

  function Visited(db: Db, id: string, row: OrderRow, a: Answers, clock: Clock, lotId: string): Outcome {
    match Visit(db, id, row, a, clock, lotId)
    case Ok(db') => Outcome(db', None)
    case Err(e) => Outcome(db, Some(e))
  }

  /** `rows` are the records as the listing read them; `lots` names the lot a fill would open. */
  function Passed(rows: map<string, OrderRow>, db: Db, local: seq<string>, a: Answers, clock: Clock,
                  lots: string -> string): Outcome
    requires forall id :: id in local ==> id in rows
    decreases local
  {
    if local == [] then Outcome(db, None)
    else
      var n := |local| - 1;
      var o := Passed(rows, db, local[..n], a, clock, lots);
      if o.error.Some? then o else Visited(o.db, local[n], rows[local[n]], a, clock, lots(local[n]))
  }

  predicate Active(s: Status) {
    s == Pending || s == Open || s == PartiallyFilled
  }

  /** What has not ended is active. */
  lemma ActiveIff(row: OrderRow)
    requires RowOk(row)
    ensures Active(row.status) <==> !Machine.Ends(row.status)
  {
  }

  predicate ActiveAt(orders: map<string, OrderRow>, venue: string, id: string) {
    id in orders && orders[id].instrument.venue == venue && Active(orders[id].status)
  }

  function IdsOf(local: seq<string>): set<string> {
    set id | id in local
  }

  predicate Distinct(ids: seq<string>) {
    forall i, j :: 0 <= i < j < |ids| ==> ids[i] != ids[j]
  }

  /** What listing a venue's active orders returns. */
  ghost predicate ListsActive(orders: map<string, OrderRow>, venue: string, local: seq<string>) {
    Distinct(local) && forall id :: id in local <==> ActiveAt(orders, venue, id)
  }

  // ---------- One order ----------

  /** What a visit makes of an order's row. */
  ghost predicate Repaired(a: Answers, id: string, row: OrderRow, row': OrderRow, clock: Clock) {
    match Consulted(a, id, row, clock)
    case None => row' == row
    case Some(snap) =>
      && SameIdentity(row, row')
      && StateOf(row') == Machine.Step(StateOf(row), EventOf(snap, clock))
      && Machine.Absorbed(StateOf(row'), EventOf(snap, clock))
      && row'.venueOrderId == (if row.venueOrderId.Some? then row.venueOrderId else NullString(snap.ref.venueOrderId))
  }

  lemma ConsultedIsOwn(a: Answers, id: string, row: OrderRow, clock: Clock)
    requires Consulted(a, id, row, clock).Some?
    ensures Consulted(a, id, row, clock).value.ref.clientOrderId == id
  {
    if id in ByClient(a.open) {
      ByClientKeys(a.open, id);
    }
  }

  lemma KnownIsFound(db: Db, ev: Event, lotId: string, now: Instant)
    requires ev.ref.clientOrderId in db.orders
    ensures ApplyEvent(db, Source.Reconcile, ev, lotId, now) != Err(NotFound)
  {
  }

  /** Rows added between two states of the tables are about the given orders only. */
  ghost predicate OnlyAbout(db: Db, db': Db, ids: set<string>) {
    && db.transitions <= db'.transitions
    && db.fills <= db'.fills
    && db.outbox <= db'.outbox
    && (forall k :: |db.transitions| <= k < |db'.transitions| ==> db'.transitions[k].order in ids)
    && (forall k :: |db.fills| <= k < |db'.fills| ==> db'.fills[k].order in ids)
    && (forall k :: |db.outbox| <= k < |db'.outbox| ==> db'.outbox[k].order in ids)
  }

  lemma ApplyIsAboutItsOrder(db: Db, source: Source, ev: Event, lotId: string, now: Instant)
    requires ApplyEvent(db, source, ev, lotId, now).Ok?
    ensures OnlyAbout(db, ApplyEvent(db, source, ev, lotId, now).value.0, {ev.ref.clientOrderId})
  {
    var id := ev.ref.clientOrderId;
    var d := Machine.Transition(StateOf(db.orders[id]), ev).value;
    if Persists(d) {
      StoreProof.PersistWrites(db, StoreProof.Write(id, source, ev, d, lotId, now));
    }
  }

  /** A snapshot that agrees with its row has nothing left to say. */
  lemma AgreementIsRepaired(a: Answers, id: string, row: OrderRow, clock: Clock)
    requires RowOk(row) && Consulted(a, id, row, clock).Some? && Agrees(row, Consulted(a, id, row, clock).value)
    ensures Repaired(a, id, row, row, clock)
  {
  }

  lemma ApplyRepairs(db: Db, id: string, a: Answers, clock: Clock, lotId: string)
    requires RowsOk(db) && id in db.orders && Consulted(a, id, db.orders[id], clock).Some?
    requires Applied(db, EventOf(Consulted(a, id, db.orders[id], clock).value, clock), lotId, clock.now).Ok?
    ensures var db' := Applied(db, EventOf(Consulted(a, id, db.orders[id], clock).value, clock), lotId,
        clock.now).value;
            && id in db'.orders && db'.orders == db.orders[id := db'.orders[id]]
            && Repaired(a, id, db.orders[id], db'.orders[id], clock)
            && OnlyAbout(db, db', {id})
  {
    var ev := EventOf(Consulted(a, id, db.orders[id], clock).value, clock);
    ConsultedIsOwn(a, id, db.orders[id], clock);
    KnownIsFound(db, ev, lotId, clock.now);
    ApplySteps(db, Source.Reconcile, ev, lotId, clock.now);
    AppliedIsHeld(db, Source.Reconcile, ev, lotId, clock.now);
    ApplyIsAboutItsOrder(db, Source.Reconcile, ev, lotId, clock.now);
  }

  lemma VisitKeepsValid(db: Db, id: string, row: OrderRow, a: Answers, clock: Clock, lotId: string)
    requires Valid(db) && Visit(db, id, row, a, clock, lotId).Ok?
    ensures Valid(Visit(db, id, row, a, clock, lotId).value)
  {
    if Consulted(a, id, row, clock).Some? {
      ApplyKeepsValid(db, Source.Reconcile, EventOf(Consulted(a, id, row, clock).value, clock), lotId, clock.now);
    }
  }

  /** A visit touches its own order only, and leaves it repaired. */
  lemma VisitRepairs(db: Db, id: string, a: Answers, clock: Clock, lotId: string)
    requires RowsOk(db) && id in db.orders && Visit(db, id, db.orders[id], a, clock, lotId).Ok?
    ensures var db' := Visit(db, id, db.orders[id], a, clock, lotId).value;
            && id in db'.orders && db'.orders == db.orders[id := db'.orders[id]]
            && Repaired(a, id, db.orders[id], db'.orders[id], clock)
            && (Consulted(a, id, db.orders[id], clock).None? ==> db' == db)
            && OnlyAbout(db, db', {id})
  {
    var row := db.orders[id];
    assert RowOk(row);
    assert db.orders == db.orders[id := row];
    if Consulted(a, id, row, clock).Some? {
      if id in ByClient(a.open) && Agrees(row, Consulted(a, id, row, clock).value) {
        AgreementIsRepaired(a, id, row, clock);
      } else {
        ApplyRepairs(db, id, a, clock, lotId);
      }
    }
  }

  /** When a snapshot counts: at its own time, or now if the venue gave none. */
  function TimeOf(snap: Snapshot, clock: Clock): Instant {
    if snap.updatedAt == 0 then clock.now else snap.updatedAt
  }

  /** A consulted snapshot in the books: its status, cumulative fill, average price and time. */
  ghost predicate SnapshotEntered(db: Db, db': Db, id: string, snap: Snapshot, at: Instant, lotId: string)
    requires id in db.orders && id in db'.orders
  {
    var row, row' := db.orders[id], db'.orders[id];
    && row'.status == (if Machine.Later(snap.status, row.status) then snap.status else row.status)
    && row'.filledQty ==
         (if snap.status != Pending && snap.filledQty > row.filledQty then snap.filledQty else row.filledQty)
    && (Effects.Changed(row, row') ==> AuditedAt(db.transitions, db'.transitions, at))
    && (Effects.Grew(row, row') ==> FilledAt(db.fills, db'.fills, id, snap.filledQty - row.filledQty, snap, at))
    && (Effects.Grew(row, row') && row.side == Buy ==>
          BoughtAt(db.ledger.lots, db'.ledger.lots, lotId, snap.filledQty - row.filledQty, snap, at))
    && (Effects.Grew(row, row') && row.side != Buy ==> SoldAt(db.ledger.closures, db'.ledger.closures, snap, at))
    && (!Effects.Grew(row, row') ==> db'.fills == db.fills && db'.ledger == db.ledger)
  }

  ghost predicate AuditedAt(before: seq<TransitionRow>, after: seq<TransitionRow>, at: Instant) {
    && |after| == |before| + 1 && before <= after
    && after[|before|].source == Source.Reconcile && after[|before|].at == at && after[|before|].reason.None?
  }

  ghost predicate FilledAt(before: seq<FillRow>, after: seq<FillRow>, id: string, qty: Decimal, snap: Snapshot,
                           at: Instant) {
    && |after| == |before| + 1 && before <= after
    && var f := after[|before|];
       && f.order == id && f.qty == qty && f.at == at
       && f.price == (if snap.avgFillPrice == 0.0 then None else Some(snap.avgFillPrice))
       && f.fee.None? && f.feeCurrency.None? && f.venueFillId.None?
  }

  ghost predicate BoughtAt(before: seq<Ledger.LotRow>, after: seq<Ledger.LotRow>, lotId: string, qty: Decimal,
                           snap: Snapshot, at: Instant) {
    && |after| == |before| + 1 && before <= after
    && var lot := after[|before|].lot;
       lot.id == lotId && lot.qty == qty && lot.cost == snap.avgFillPrice && lot.openedAt == at
  }

  ghost predicate SoldAt(before: seq<Ledger.ClosureRow>, after: seq<Ledger.ClosureRow>, snap: Snapshot, at: Instant) {
    && before <= after
    && forall i :: |before| <= i < |after| ==> after[i].price == snap.avgFillPrice && after[i].closedAt == at
  }

  /** An event that says what the snapshot says. */
  predicate Reports(ev: Event, snap: Snapshot) {
    && ev.status == snap.status && ev.filledQty == snap.filledQty && ev.fillPrice == snap.avgFillPrice
    && ev.venueFillId == "" && ev.fee == 0.0 && ev.feeCurrency == "" && ev.reason == ""
  }

  lemma EventReports(snap: Snapshot, clock: Clock)
    ensures var ev := EventOf(snap, clock); Reports(ev, snap) && ev.ref == snap.ref && ev.at == TimeOf(snap, clock)
  {
  }

  lemma EnteredSnapshot(db: Db, db': Db, ev: Event, lotId: string, now: Instant, unmatched: Decimal, snap: Snapshot)
    requires Effects.Entered(db, db', Source.Reconcile, ev, lotId, now, unmatched)
    requires Reports(ev, snap) && !snap.status.Unknown?
    ensures SnapshotEntered(db, db', ev.ref.clientOrderId, snap, ev.at, lotId)
  {
    var fill := |db.fills|;
    forall i | |db.ledger.closures| <= i < |db'.ledger.closures| &&
        Effects.SaleEntered(db.ledger, db'.ledger, fill, db.orders[ev.ref.clientOrderId],
                            db'.orders[ev.ref.clientOrderId], ev)
        ensures db'.ledger.closures[i].price == snap.avgFillPrice && db'.ledger.closures[i].closedAt == ev.at {
      assert Effects.ClosureEntered(db'.ledger.closures[i], fill, ev);
    }
  }

  lemma AppliedEnters(db: Db, ev: Event, lotId: string, now: Instant, snap: Snapshot)
    requires Valid(db) && ev.ref.clientOrderId in db.orders && Reports(ev, snap)
    requires Applied(db, ev, lotId, now).Ok?
    ensures var db' := Applied(db, ev, lotId, now).value;
            ev.ref.clientOrderId in db'.orders && SnapshotEntered(db, db', ev.ref.clientOrderId, snap, ev.at, lotId)
  {
    KnownIsFound(db, ev, lotId, now);
    var r := ApplyEvent(db, Source.Reconcile, ev, lotId, now);
    assert r.Ok?;
    Effects.ApplyEnters(db, Source.Reconcile, ev, lotId, now);
    KnownStatus(db, ev, lotId, now);
    EnteredSnapshot(db, r.value.0, ev, lotId, now, r.value.1.unmatchedQty, snap);
  }

  lemma KnownStatus(db: Db, ev: Event, lotId: string, now: Instant)
    requires ApplyEvent(db, Source.Reconcile, ev, lotId, now).Ok?
    ensures !ev.status.Unknown?
  {
  }

  lemma AgreedIsEntered(db: Db, id: string, snap: Snapshot, at: Instant, lotId: string)
    requires id in db.orders && Agrees(db.orders[id], snap)
    ensures SnapshotEntered(db, db, id, snap, at, lotId)
  {
  }

  /** A visit that applies its answer enters the snapshot: what it reports is what the books say. */
  lemma VisitEnters(db: Db, id: string, a: Answers, clock: Clock, lotId: string)
    requires Valid(db) && id in db.orders && Consulted(a, id, db.orders[id], clock).Some?
    requires Visit(db, id, db.orders[id], a, clock, lotId).Ok?
    ensures var snap, db' := Consulted(a, id, db.orders[id], clock).value,
                Visit(db, id, db.orders[id], a, clock, lotId).value;
            id in db'.orders && SnapshotEntered(db, db', id, snap, TimeOf(snap, clock), lotId)
  {
    var snap := Consulted(a, id, db.orders[id], clock).value;
    ConsultedIsOwn(a, id, db.orders[id], clock);
    if id in ByClient(a.open) && Agrees(db.orders[id], snap) {
      AgreedIsEntered(db, id, snap, TimeOf(snap, clock), lotId);
    } else {
      EventReports(snap, clock);
      AppliedEnters(db, EventOf(snap, clock), lotId, clock.now, snap);
    }
  }

  // ---------- The whole pass ----------

  /** The orders a pass got a snapshot for. */
  function Touched(rows: map<string, OrderRow>, local: seq<string>, a: Answers, clock: Clock): set<string>
    requires forall id :: id in local ==> id in rows
  {
    set id | id in local && Consulted(a, id, rows[id], clock).Some?
  }

  /** What a pass over `local` has done to the tables it started from. */
  ghost predicate PassDid(db: Db, db': Db, local: seq<string>, a: Answers, clock: Clock)
    requires forall id :: id in local ==> id in db.orders
  {
    Valid(db') && RowsDid(db.orders, db'.orders, local, a, clock) &&
        OnlyAbout(db, db', Touched(db.orders, local, a, clock))
  }

  ghost predicate RowsDid(rows: map<string, OrderRow>, rows': map<string, OrderRow>, local: seq<string>, a: Answers,
                          clock: Clock)
    requires forall id :: id in local ==> id in rows
  {
    && rows'.Keys == rows.Keys
    && (forall id :: id in rows && id !in local ==> rows'[id] == rows[id])
    && (forall id :: id in local ==> Repaired(a, id, rows[id], rows'[id], clock))
  }

  lemma OnlyAboutComposes(db: Db, db1: Db, db2: Db, xs: set<string>, ys: set<string>, zs: set<string>)
    requires OnlyAbout(db, db1, xs) && OnlyAbout(db1, db2, ys) && xs <= zs && ys <= zs
    ensures OnlyAbout(db, db2, zs)
  {
  }

  lemma PassKeepsValid(rows: map<string, OrderRow>, db: Db, local: seq<string>, a: Answers, clock: Clock,
                       lots: string -> string)
    requires Valid(db) && forall id :: id in local ==> id in rows
    ensures Valid(Passed(rows, db, local, a, clock, lots).db)
  {
    var quiet: nat -> seq<Op> := _ => [];
    QuietPassIsPassed(rows, db, local, a, clock, lots, quiet);
    AmidKeepsValid(rows, db, local, a, clock, lots, quiet);
  }

  lemma {:induction false} PassRepairsRows(db: Db, local: seq<string>, a: Answers, clock: Clock, lots: string -> string)
    requires Valid(db) && Distinct(local) && forall id :: id in local ==> id in db.orders
    requires Passed(db.orders, db, local, a, clock, lots).error.None?
    ensures var db' := Passed(db.orders, db, local, a, clock, lots).db;
            RowsDid(db.orders, db'.orders, local, a, clock) && OnlyAbout(db, db', Touched(db.orders, local, a, clock))
    decreases local
  {
    if local != [] {
      var n := |local| - 1;
      var init, id := local[..n], local[n];
      PassRepairsRows(db, init, a, clock, lots);
      PassKeepsValid(db.orders, db, init, a, clock, lots);
      RepairsOneMore(db, Passed(db.orders, db, init, a, clock, lots).db, local, a, clock, lots(id));
    }
  }

  lemma RepairsOneMore(db: Db, db1: Db, local: seq<string>, a: Answers, clock: Clock, lotId: string)
    requires RowsOk(db1) && local != [] && Distinct(local) && forall id :: id in local ==> id in db.orders
    requires RowsDid(db.orders, db1.orders, local[..|local| - 1], a, clock)
    requires OnlyAbout(db, db1, Touched(db.orders, local[..|local| - 1], a, clock))
    requires var id := local[|local| - 1]; Visit(db1, id, db.orders[id], a, clock, lotId).Ok?
    ensures var id := local[|local| - 1];
            var db2 := Visit(db1, id, db.orders[id], a, clock, lotId).value;
            RowsDid(db.orders, db2.orders, local, a, clock) && OnlyAbout(db, db2, Touched(db.orders, local, a, clock))
  {
    var n := |local| - 1;
    var init, id := local[..n], local[n];
    assert id !in init;
    VisitRepairs(db1, id, a, clock, lotId);
    var db2 := Visit(db1, id, db.orders[id], a, clock, lotId).value;
    RowsExtend(db.orders, db1.orders, db2.orders[id], local, a, clock);
    TouchedExtends(db.orders, local, a, clock);
    OnlyAboutComposes(db, db1, db2, Touched(db.orders, init, a, clock),
                      if Consulted(a, id, db.orders[id], clock).Some? then {id} else {},
                      Touched(db.orders, local, a, clock));
  }

  lemma PassRepairs(db: Db, local: seq<string>, a: Answers, clock: Clock, lots: string -> string)
    requires Valid(db) && Distinct(local) && forall id :: id in local ==> id in db.orders
    requires Passed(db.orders, db, local, a, clock, lots).error.None?
    ensures PassDid(db, Passed(db.orders, db, local, a, clock, lots).db, local, a, clock)
  {
    PassRepairsRows(db, local, a, clock, lots);
    PassKeepsValid(db.orders, db, local, a, clock, lots);
  }

  lemma RowsExtend(rows: map<string, OrderRow>, rows1: map<string, OrderRow>, row: OrderRow,
                   local: seq<string>, a: Answers, clock: Clock)
    requires local != [] && Distinct(local) && forall id :: id in local ==> id in rows
    requires RowsDid(rows, rows1, local[..|local| - 1], a, clock)
    requires Repaired(a, local[|local| - 1], rows[local[|local| - 1]], row, clock)
    ensures RowsDid(rows, rows1[local[|local| - 1] := row], local, a, clock)
  {
    var n := |local| - 1;
    forall x | x in local && x != local[n] ensures x in local[..n] {
    }
  }

  lemma TouchedExtends(rows: map<string, OrderRow>, local: seq<string>, a: Answers, clock: Clock)
    requires local != [] && forall id :: id in local ==> id in rows
    ensures var n := |local| - 1;
            Touched(rows, local, a, clock) == Touched(rows, local[..n], a, clock) +
              if Consulted(a, local[n], rows[local[n]], clock).Some? then {local[n]} else {}
  {
    var n := |local| - 1;
    assert forall x :: x in local <==> x in local[..n] || x == local[n];
  }

  // ---------- When the venue is ahead ----------

  /** The answer is no older than the row: neither its rank nor its fill goes back. */
  predicate AtLeastAsAdvanced(row: OrderRow, snap: Snapshot) {
    && Machine.Known(snap.status) && Machine.Known(row.status)
    && Machine.Rank(row.status).value <= Machine.Rank(snap.status).value
    && row.filledQty <= snap.filledQty
    && (snap.status == Pending ==> snap.filledQty == row.filledQty)
  }

  /** A repaired active order matches the venue exactly when the venue was not behind it. */
  lemma RepairedMatchesIff(a: Answers, id: string, row: OrderRow, row': OrderRow, clock: Clock)
    requires Active(row.status) && Consulted(a, id, row, clock).Some? && Repaired(a, id, row, row', clock)
    ensures var snap := Consulted(a, id, row, clock).value;
            StateOf(row') == Machine.State(snap.status, snap.filledQty) <==> AtLeastAsAdvanced(row, snap)
  {
  }

  // ---------- A second pass ----------

  /** The two passes stand on the same side of every pending order's grace time. */
  ghost predicate SameSide(orders: map<string, OrderRow>, clock: Clock, clock': Clock) {
    forall id :: id in orders && orders[id].status == Pending ==>
        InGrace(orders[id], clock) == InGrace(orders[id], clock')
  }

  /** Lookups answer the same, also when an order has got its venue order ID since. */
  ghost predicate SameAnswers(a: Answers, rows: map<string, OrderRow>, rows': map<string, OrderRow>) {
    forall id :: id in rows && id in rows' ==> a.lookup(StoredRef(id, rows'[id])) == a.lookup(StoredRef(id, rows[id]))
  }

  lemma StepKeepsActivity(s: Machine.State, ev: Event)
    requires Machine.Known(s.status)
    ensures Active(Machine.Step(s, ev).status) ==> Active(s.status)
    ensures Machine.Step(s, ev).status == Pending ==> s.status == Pending
  {
  }

  /** A repaired row already holds whatever the same answers say about it. */
  lemma RepairedStaysHeld(a: Answers, id: string, row: OrderRow, row': OrderRow, clock: Clock, clock': Clock)
    requires RowOk(row) && Repaired(a, id, row, row', clock) && Active(row'.status)
    requires row.status == Pending ==> InGrace(row, clock) == InGrace(row, clock')
    requires a.lookup(StoredRef(id, row')) == a.lookup(StoredRef(id, row))
    requires Consulted(a, id, row', clock').Some?
    ensures var ev := EventOf(Consulted(a, id, row', clock').value, clock');
            && ev.ref.clientOrderId == id
            && Machine.Absorbed(StateOf(row'), ev)
            && (ev.ref.venueOrderId != "" ==> row'.venueOrderId.Some?)
  {
    ConsultedIsOwn(a, id, row', clock');
    if Consulted(a, id, row, clock).Some? {
      StepKeepsActivity(StateOf(row), EventOf(Consulted(a, id, row, clock).value, clock));
    }
  }

  lemma SecondVisitWritesNothing(db: Db, id: string, row: OrderRow, a: Answers, clock: Clock, clock': Clock,
                                 lotId: string)
    requires Valid(db) && id in db.orders && RowOk(row)
    requires Repaired(a, id, row, db.orders[id], clock) && Active(db.orders[id].status)
    requires row.status == Pending ==> InGrace(row, clock) == InGrace(row, clock')
    requires a.lookup(StoredRef(id, db.orders[id])) == a.lookup(StoredRef(id, row))
    ensures Visit(db, id, db.orders[id], a, clock', lotId) == Ok(db)
  {
    var row' := db.orders[id];
    if Consulted(a, id, row', clock').Some? {
      RepairedStaysHeld(a, id, row, row', clock, clock');
      HeldWritesNothing(db, Source.Reconcile, EventOf(Consulted(a, id, row', clock').value, clock'), lotId, clock'.now);
    }
  }

  lemma {:induction false} SecondPassOver(db: Db, db': Db, local: seq<string>, local': seq<string>, a: Answers,
                                          clock: Clock, clock': Clock, lots: string -> string)
    requires Valid(db) && (forall id :: id in local ==> id in db.orders) && PassDid(db, db', local, a, clock)
    requires forall id :: id in local' ==> id in local && Active(db'.orders[id].status)
    requires SameSide(db.orders, clock, clock') && SameAnswers(a, db.orders, db'.orders)
    ensures Passed(db'.orders, db', local', a, clock', lots) == Outcome(db', None)
    decreases local'
  {
    if local' != [] {
      var n := |local'| - 1;
      var id := local'[n];
      SecondPassOver(db, db', local, local'[..n], a, clock, clock', lots);
      assert RowOk(db.orders[id]);
      SecondVisitWritesNothing(db', id, db.orders[id], a, clock, clock', lots(id));
    }
  }

  /** Whatever a first pass left active was active before it. */
  lemma StillActiveWasActive(db: Db, db': Db, venue: string, local: seq<string>, a: Answers, clock: Clock, id: string)
    requires Valid(db) && ListsActive(db.orders, venue, local) && (forall x :: x in local ==> x in db.orders)
    requires PassDid(db, db', local, a, clock) && ActiveAt(db'.orders, venue, id)
    ensures id in local
  {
    if id !in local {
      assert db'.orders[id] == db.orders[id];
      assert ActiveAt(db.orders, venue, id);
    }
  }

  /**
   A second pass over the same answers, on the same side of the grace time, completes and
   writes nothing: not a row, not a timestamp.
   */
  lemma SecondPassWritesNothing(db: Db, venue: string, local: seq<string>, local': seq<string>, a: Answers,
                                clock: Clock, clock': Clock, lots: string -> string, lots': string -> string)
    requires Valid(db) && ListsActive(db.orders, venue, local) && forall id :: id in local ==> id in db.orders
    requires Passed(db.orders, db, local, a, clock, lots).error.None?
    requires var db' := Passed(db.orders, db, local, a, clock, lots).db;
             ListsActive(db'.orders, venue, local') && forall id :: id in local' ==> id in db'.orders
    requires SameSide(db.orders, clock, clock')
    requires SameAnswers(a, db.orders, Passed(db.orders, db, local, a, clock, lots).db.orders)
    ensures var db' := Passed(db.orders, db, local, a, clock, lots).db;
            Passed(db'.orders, db', local', a, clock', lots') == Outcome(db', None)
  {
    var db' := Passed(db.orders, db, local, a, clock, lots).db;
    PassRepairs(db, local, a, clock, lots);
    forall id | id in local' ensures id in local && Active(db'.orders[id].status) {
      StillActiveWasActive(db, db', venue, local, a, clock, id);
    }
    SecondPassOver(db, db', local, local', a, clock, clock', lots');
  }

  // ---------- When a pass completes ----------

  /** An answer the store takes: known status, price not negative, a venue order ID nobody else has. */
  ghost predicate Acceptable(db: Db, id: string, snap: Snapshot, lotId: string)
    requires id in db.orders
  {
    && Machine.Known(snap.status)
    && snap.avgFillPrice >= 0.0
    && !Ledger.HasLot(db.ledger.lots, lotId)
    && !VenueIdClash(db, id, snap.ref.venueOrderId)
  }

  ghost predicate AcceptableFor(db: Db, id: string, row: OrderRow, a: Answers, clock: Clock, lotId: string)
    requires id in db.orders
  {
    Consulted(a, id, row, clock).Some? ==> Acceptable(db, id, Consulted(a, id, row, clock).value, lotId)
  }

  /** Two orders' answers carry different venue order IDs, and their lots different IDs. */
  ghost predicate Apart(a: Answers, rows: map<string, OrderRow>, x: string, y: string, clock: Clock,
                        lots: string -> string)
    requires x in rows && y in rows
  {
    && lots(x) != lots(y)
    && (Consulted(a, x, rows[x], clock).Some? && Consulted(a, y, rows[y], clock).Some? ==>
          Consulted(a, x, rows[x], clock).value.ref.venueOrderId != "" ==>
            Consulted(a, x, rows[x], clock).value.ref.venueOrderId != Consulted(a, y, rows[y],
                clock).value.ref.venueOrderId)
  }

  lemma ApplyNamesItsLot(db: Db, source: Source, ev: Event, lotId: string, now: Instant, x: string)
    requires Ledger.Valid(db.ledger) && InventoriesAgree(db) && ApplyEvent(db, source, ev, lotId, now).Ok?
    ensures Ledger.HasLot(ApplyEvent(db, source, ev, lotId, now).value.0.ledger.lots, x) ==>
              Ledger.HasLot(db.ledger.lots, x) || x == lotId
  {
    var id := ev.ref.clientOrderId;
    var d := Machine.Transition(StateOf(db.orders[id]), ev).value;
    if Persists(d) {
      var w := StoreProof.Write(id, source, ev, d, lotId, now);
      StoreProof.PersistWrites(db, w);
      if d.fillDelta > 0.0 {
        StoreProof.NextFillUnposted(db);
        Ledger.PostNamesItsLot(db.ledger, StoreProof.FillToPost(db, w), lotId, x);
      }
    }
  }

  lemma VisitNamesItsLot(db: Db, id: string, row: OrderRow, a: Answers, clock: Clock, lotId: string, x: string)
    requires Valid(db) && Visit(db, id, row, a, clock, lotId).Ok?
    ensures Ledger.HasLot(Visit(db, id, row, a, clock, lotId).value.ledger.lots, x) ==>
              Ledger.HasLot(db.ledger.lots, x) || x == lotId
  {
    if Consulted(a, id, row, clock).Some? {
      var ev := EventOf(Consulted(a, id, row, clock).value, clock);
      if ApplyEvent(db, Source.Reconcile, ev, lotId, clock.now).Ok? {
        ApplyNamesItsLot(db, Source.Reconcile, ev, lotId, clock.now, x);
      }
    }
  }

  lemma NoClashAfter(db: Db, db': Db, x: string, y: string, vid: string)
    requires x in db.orders && y in db.orders && x != y && x in db'.orders
    requires db'.orders == db.orders[x := db'.orders[x]]
    requires SameIdentity(db.orders[x], db'.orders[x])
    requires db'.orders[x].venueOrderId == db.orders[x].venueOrderId || db'.orders[x].venueOrderId != Some(vid)
    requires !VenueIdClash(db, y, vid)
    ensures !VenueIdClash(db', y, vid)
  {
  }

  /** Visiting one order takes nothing another one needs. */
  lemma VisitKeepsAcceptable(db: Db, rows: map<string, OrderRow>, x: string, y: string, a: Answers, clock: Clock,
                             lots: string -> string)
    requires Valid(db) && x in db.orders && y in db.orders && x != y && x in rows && y in rows
    requires db.orders[x] == rows[x]
    requires Apart(a, rows, x, y, clock, lots)
    requires AcceptableFor(db, y, rows[y], a, clock, lots(y))
    requires Visit(db, x, rows[x], a, clock, lots(x)).Ok?
    ensures var db' := Visit(db, x, rows[x], a, clock, lots(x)).value;
            y in db'.orders && AcceptableFor(db', y, rows[y], a, clock, lots(y))
  {
    var db' := Visit(db, x, rows[x], a, clock, lots(x)).value;
    VisitRepairs(db, x, a, clock, lots(x));
    if Consulted(a, x, rows[x], clock).Some? && Consulted(a, y, rows[y], clock).Some? {
      VisitNamesItsLot(db, x, rows[x], a, clock, lots(x), lots(y));
      NoClashAfter(db, db', x, y, Consulted(a, y, rows[y], clock).value.ref.venueOrderId);
    }
  }

  lemma AcceptableVisitSucceeds(db: Db, id: string, a: Answers, clock: Clock, lotId: string)
    requires Valid(db) && id in db.orders && AcceptableFor(db, id, db.orders[id], a, clock, lotId)
    ensures Visit(db, id, db.orders[id], a, clock, lotId).Ok?
  {
    if Consulted(a, id, db.orders[id], clock).Some? {
      ConsultedIsOwn(a, id, db.orders[id], clock);
      ApplyFailsIff(db, Source.Reconcile, EventOf(Consulted(a, id, db.orders[id], clock).value, clock), lotId,
          clock.now);
    }
  }

  ghost predicate AllAcceptable(db: Db, rows: map<string, OrderRow>, ids: set<string>, a: Answers, clock: Clock,
                                lots: string -> string) {
    forall id :: id in ids && id in db.orders && id in rows ==> AcceptableFor(db, id, rows[id], a, clock, lots(id))
  }

  lemma NextVisitSucceeds(db: Db, rows: map<string, OrderRow>, id: string, rest: set<string>, a: Answers,
                          clock: Clock, lots: string -> string)
    requires Valid(db) && id in db.orders && id in rows && db.orders[id] == rows[id] && id !in rest
    requires rest <= db.orders.Keys && rest <= rows.Keys
    requires AllAcceptable(db, rows, rest + {id}, a, clock, lots)
    requires forall y :: y in rest ==> Apart(a, rows, id, y, clock, lots)
    ensures Visit(db, id, rows[id], a, clock, lots(id)).Ok?
    ensures AllAcceptable(Visit(db, id, rows[id], a, clock, lots(id)).value, rows, rest, a, clock, lots)
  {
    AcceptableVisitSucceeds(db, id, a, clock, lots(id));
    var db' := Visit(db, id, rows[id], a, clock, lots(id)).value;
    forall y | y in rest && y in db'.orders && y in rows ensures AcceptableFor(db', y, rows[y], a, clock, lots(y)) {
      VisitKeepsAcceptable(db, rows, id, y, a, clock, lots);
    }
  }

  ghost predicate AllApart(a: Answers, rows: map<string, OrderRow>, ids: set<string>, others: set<string>,
                           clock: Clock, lots: string -> string) {
    forall x, y :: x in ids && y in others && x in rows && y in rows && x != y ==> Apart(a, rows, x, y, clock, lots)
  }

  lemma PassLeavesTheRest(db: Db, init: seq<string>, id: string, a: Answers, clock: Clock, lots: string -> string)
    requires Valid(db) && Distinct(init) && (forall x :: x in init ==> x in db.orders) && id in db.orders && id !in init
    requires Passed(db.orders, db, init, a, clock, lots).error.None?
    ensures var db' := Passed(db.orders, db, init, a, clock, lots).db;
            Valid(db') && db'.orders.Keys == db.orders.Keys && db'.orders[id] == db.orders[id]
  {
    PassRepairs(db, init, a, clock, lots);
  }

  /** One order more: what was acceptable to the end stays so. */
  lemma OneMoreSucceeds(db: Db, local: seq<string>, rest: set<string>, a: Answers, clock: Clock, lots: string -> string)
    requires Valid(db) && local != [] && Distinct(local) &&
        (forall id :: id in local ==> id in db.orders && id !in rest)
    requires rest <= db.orders.Keys && AllApart(a, db.orders, IdsOf(local), rest + IdsOf(local), clock, lots)
    requires var o := Passed(db.orders, db, local[..|local| - 1], a, clock, lots);
             o.error.None? && AllAcceptable(o.db, db.orders, rest + {local[|local| - 1]}, a, clock, lots)
    ensures var o := Passed(db.orders, db, local, a, clock, lots);
            o.error.None? && AllAcceptable(o.db, db.orders, rest, a, clock, lots)
  {
    var n := |local| - 1;
    SplitLast(local, rest);
    PassLeavesTheRest(db, local[..n], local[n], a, clock, lots);
    NextVisitSucceeds(Passed(db.orders, db, local[..n], a, clock, lots).db, db.orders, local[n], rest, a, clock, lots);
  }

  lemma SplitLast(local: seq<string>, rest: set<string>)
    requires local != [] && Distinct(local) && forall id :: id in local ==> id !in rest
    ensures var n := |local| - 1;
            && Distinct(local[..n]) && local[n] !in local[..n] && local[n] !in rest
            && (forall id :: id in local[..n] ==> id in local && id !in rest + {local[n]})
            && IdsOf(local) == IdsOf(local[..n]) + {local[n]}
            && rest + {local[n]} + IdsOf(local[..n]) == rest + IdsOf(local)
  {
  }

  /** A pass finds its answers acceptable to the end, and leaves those of the rest so. */
  lemma {:induction false} PassSucceedsSoFar(db: Db, local: seq<string>, rest: set<string>, a: Answers, clock: Clock,
                                             lots: string -> string)
    requires Valid(db) && Distinct(local) && (forall id :: id in local ==> id in db.orders && id !in rest)
    requires rest <= db.orders.Keys
    requires AllAcceptable(db, db.orders, rest + IdsOf(local), a, clock, lots)
    requires AllApart(a, db.orders, IdsOf(local), rest + IdsOf(local), clock, lots)
    ensures var o := Passed(db.orders, db, local, a, clock, lots);
            o.error.None? && AllAcceptable(o.db, db.orders, rest, a, clock, lots)
    decreases local
  {
    if local == [] {
      assert rest + IdsOf(local) == rest;
    } else {
      var n := |local| - 1;
      var init, id := local[..n], local[n];
      SplitLast(local, rest);
      PassSucceedsSoFar(db, init, rest + {id}, a, clock, lots);
      OneMoreSucceeds(db, local, rest, a, clock, lots);
    }
  }

  /**
   With answers that are at least as advanced as the rows, prices that are not negative and
   IDs that do not clash, a pass completes, every active order it got a snapshot for ends at
   the venue's status and fill, and no other row changes.
   */
  lemma PassCatchesUp(db: Db, venue: string, local: seq<string>, a: Answers, clock: Clock, lots: string -> string)
    requires Valid(db) && ListsActive(db.orders, venue, local) && forall id :: id in local ==> id in db.orders
    requires AllAcceptable(db, db.orders, IdsOf(local), a, clock, lots)
    requires AllApart(a, db.orders, IdsOf(local), IdsOf(local), clock, lots)
    requires forall id :: id in local && Consulted(a, id, db.orders[id], clock).Some? ==>
               AtLeastAsAdvanced(db.orders[id], Consulted(a, id, db.orders[id], clock).value)
    ensures var o := Passed(db.orders, db, local, a, clock, lots);
            var touched := Touched(db.orders, local, a, clock);
            && o.error.None? && o.db.orders.Keys == db.orders.Keys
            && (forall id :: id in touched ==>
                  var snap := Consulted(a, id, db.orders[id], clock).value;
                  StateOf(o.db.orders[id]) == Machine.State(snap.status, snap.filledQty))
            && (forall id :: id in db.orders && id !in touched ==> o.db.orders[id] == db.orders[id])
            && OnlyAbout(db, o.db, touched)
  {
    assert {} + IdsOf(local) == IdsOf(local);
    PassSucceedsSoFar(db, local, {}, a, clock, lots);
    PassRepairs(db, local, a, clock, lots);
    RowsCatchUp(db.orders, Passed(db.orders, db, local, a, clock, lots).db.orders, venue, local, a, clock);
  }

  lemma RowsCatchUp(rows: map<string, OrderRow>, rows': map<string, OrderRow>, venue: string, local: seq<string>,
                    a: Answers, clock: Clock)
    requires ListsActive(rows, venue, local) && (forall id :: id in local ==> id in rows) &&
        RowsDid(rows, rows', local, a, clock)
    requires forall id :: id in local && Consulted(a, id, rows[id], clock).Some? ==>
               AtLeastAsAdvanced(rows[id], Consulted(a, id, rows[id], clock).value)
    ensures var touched := Touched(rows, local, a, clock);
            && (forall id :: id in touched ==>
                  var snap := Consulted(a, id, rows[id], clock).value;
                  StateOf(rows'[id]) == Machine.State(snap.status, snap.filledQty))
            && (forall id :: id in rows && id !in touched ==> rows'[id] == rows[id])
  {
    forall id | id in Touched(rows, local, a, clock)
      ensures var snap := Consulted(a, id, rows[id], clock).value;
              StateOf(rows'[id]) == Machine.State(snap.status, snap.filledQty)
    {
      assert ActiveAt(rows, venue, id);
      RepairedMatchesIff(a, id, rows[id], rows'[id], clock);
    }
    forall id | id in rows && id !in Touched(rows, local, a, clock) ensures rows'[id] == rows[id] {
      assert id in local ==> Repaired(a, id, rows[id], rows'[id], clock);
    }
  }

  // ---------- With other writers in between ----------

  /** The pass when other writers run `others(k)` just before visit `k`. */
  function PassedAmid(rows: map<string, OrderRow>, db: Db, local: seq<string>, a: Answers, clock: Clock,
                      lots: string -> string,
                      others: nat -> seq<Op>): Outcome
    requires forall id :: id in local ==> id in rows
    decreases local
  {
    if local == [] then Outcome(db, None)
    else
      var n := |local| - 1;
      var o := PassedAmid(rows, db, local[..n], a, clock, lots, others);
      if o.error.Some? then o
      else Visited(Run(o.db, others(n)), local[n], rows[local[n]], a, clock, lots(local[n]))
  }

  /** A pass nobody interferes with. */
  lemma {:induction false} QuietPassIsPassed(rows: map<string, OrderRow>, db: Db, local: seq<string>, a: Answers,
                                             clock: Clock,
                                             lots: string -> string, others: nat -> seq<Op>)
    requires (forall id :: id in local ==> id in rows) && forall k :: others(k) == []
    ensures PassedAmid(rows, db, local, a, clock, lots, others) == Passed(rows, db, local, a, clock, lots)
    decreases local
  {
    if local != [] {
      QuietPassIsPassed(rows, db, local[..|local| - 1], a, clock, lots, others);
    }
  }

  lemma VisitIsExec(db: Db, id: string, row: OrderRow, a: Answers, clock: Clock, lotId: string)
    requires Visit(db, id, row, a, clock, lotId).Ok?
    ensures var db' := Visit(db, id, row, a, clock, lotId).value;
            db' == db || (Consulted(a, id, row, clock).Some? &&
              db' == Exec(db, Apply(Source.Reconcile, EventOf(Consulted(a, id, row, clock).value, clock), lotId,
                  clock.now)))
  {
  }

  lemma VisitKeepsHeld(db: Db, id: string, row: OrderRow, a: Answers, clock: Clock, lotId: string, ev: Event)
    requires Valid(db) && Holds(db, ev) && Visit(db, id, row, a, clock, lotId).Ok?
    ensures Holds(Visit(db, id, row, a, clock, lotId).value, ev)
  {
    VisitIsExec(db, id, row, a, clock, lotId);
    if Visit(db, id, row, a, clock, lotId).value != db {
      ExecKeepsHeld(db, Apply(Source.Reconcile, EventOf(Consulted(a, id, row, clock).value, clock), lotId, clock.now),
          ev);
    }
  }

  lemma {:induction false} AmidKeepsValid(rows: map<string, OrderRow>, db: Db, local: seq<string>, a: Answers,
                                          clock: Clock,
                                          lots: string -> string, others: nat -> seq<Op>)
    requires Valid(db) && forall id :: id in local ==> id in rows
    ensures Valid(PassedAmid(rows, db, local, a, clock, lots, others).db)
    decreases local
  {
    if local != [] {
      var n := |local| - 1;
      var o := PassedAmid(rows, db, local[..n], a, clock, lots, others);
      AmidKeepsValid(rows, db, local[..n], a, clock, lots, others);
      if o.error.None? {
        RunKeepsValid(o.db, others(n));
        if Visit(Run(o.db, others(n)), local[n], rows[local[n]], a, clock, lots(local[n])).Ok? {
          VisitKeepsValid(Run(o.db, others(n)), local[n], rows[local[n]], a, clock, lots(local[n]));
        }
      }
    }
  }

  /** What is held when the pass starts, or after any of its visits, stays held to the end. */
  lemma {:induction false} AmidKeepsHeld(rows: map<string, OrderRow>, db: Db, local: seq<string>, a: Answers,
                                         clock: Clock,
                                         lots: string -> string, others: nat -> seq<Op>, ev: Event)
    requires Valid(db) && (forall id :: id in local ==> id in rows) && Holds(db, ev)
    ensures Holds(PassedAmid(rows, db, local, a, clock, lots, others).db, ev)
    decreases local
  {
    if local != [] {
      var n := |local| - 1;
      AmidKeepsHeld(rows, db, local[..n], a, clock, lots, others, ev);
      TurnKeepsHeld(rows, db, local, a, clock, lots, others, ev);
    }
  }

  lemma TurnKeepsHeld(rows: map<string, OrderRow>, db: Db, local: seq<string>, a: Answers, clock: Clock,
                      lots: string -> string, others: nat -> seq<Op>, ev: Event)
    requires Valid(db) && local != [] && forall id :: id in local ==> id in rows
    requires Holds(PassedAmid(rows, db, local[..|local| - 1], a, clock, lots, others).db, ev)
    ensures Holds(PassedAmid(rows, db, local, a, clock, lots, others).db, ev)
  {
    var n := |local| - 1;
    var o := PassedAmid(rows, db, local[..n], a, clock, lots, others);
    AmidKeepsValid(rows, db, local[..n], a, clock, lots, others);
    if o.error.None? {
      LateVisitKeepsHeld(o.db, others(n), local[n], rows[local[n]], a, clock, lots(local[n]), ev);
    }
  }

  lemma LateVisitKeepsHeld(db: Db, ops: seq<Op>, id: string, row: OrderRow, a: Answers, clock: Clock, lotId: string,
                           ev: Event)
    requires Valid(db) && Holds(db, ev)
    ensures Holds(Visited(Run(db, ops), id, row, a, clock, lotId).db, ev)
  {
    RunKeepsHeld(db, ops, ev);
    RunKeepsValid(db, ops);
    if Visit(Run(db, ops), id, row, a, clock, lotId).Ok? {
      VisitKeepsHeld(Run(db, ops), id, row, a, clock, lotId, ev);
    }
  }

  /** A listed row that agrees with its snapshot holds it already. */
  lemma AgreementHolds(db: Db, id: string, a: Answers, clock: Clock)
    requires RowsOk(db) && id in db.orders && Consulted(a, id, db.orders[id], clock).Some?
    requires Agrees(db.orders[id], Consulted(a, id, db.orders[id], clock).value)
    ensures Holds(db, EventOf(Consulted(a, id, db.orders[id], clock).value, clock))
  {
    assert RowOk(db.orders[id]);
    ConsultedIsOwn(a, id, db.orders[id], clock);
  }

  lemma OrdersStay(rows: map<string, OrderRow>, db: Db, local: seq<string>, a: Answers, clock: Clock,
                   lots: string -> string, others: nat -> seq<Op>, id: string)
    requires Valid(db) && (forall x :: x in local ==> x in rows) && id in db.orders
    ensures id in PassedAmid(rows, db, local, a, clock, lots, others).db.orders
  {
    var row := db.orders[id];
    KnownRow(db, id);
    var nothing := Event(Ref(row.instrument, id, ""), Pending, 0.0, 0.0, "", 0.0, "", "", 0);
    AmidKeepsHeld(rows, db, local, a, clock, lots, others, nothing);
  }

  lemma VisitHolds(db: Db, id: string, row: OrderRow, a: Answers, clock: Clock, lotId: string)
    requires RowsOk(db) && id in db.orders && Consulted(a, id, row, clock).Some?
    requires !(id in ByClient(a.open) && Agrees(row, Consulted(a, id, row, clock).value))
    requires Visit(db, id, row, a, clock, lotId).Ok?
    ensures Holds(Visit(db, id, row, a, clock, lotId).value, EventOf(Consulted(a, id, row, clock).value, clock))
  {
    var ev := EventOf(Consulted(a, id, row, clock).value, clock);
    ConsultedIsOwn(a, id, row, clock);
    KnownIsFound(db, ev, lotId, clock.now);
    AppliedIsHeld(db, Source.Reconcile, ev, lotId, clock.now);
  }

  /** The tables a visit finds: valid, and with every order of the listing. */
  lemma BeforeLastVisit(db: Db, local: seq<string>, a: Answers, clock: Clock, lots: string -> string,
                        others: nat -> seq<Op>)
    requires Valid(db) && local != [] && forall id :: id in local ==> id in db.orders
    ensures var n := |local| - 1;
            var db1 := Run(PassedAmid(db.orders, db, local[..n], a, clock, lots, others).db, others(n));
            RowsOk(db1) && local[n] in db1.orders
  {
    var n := |local| - 1;
    var o := PassedAmid(db.orders, db, local[..n], a, clock, lots, others);
    AmidKeepsValid(db.orders, db, local[..n], a, clock, lots, others);
    OrdersStay(db.orders, db, local[..n], a, clock, lots, others, local[n]);
    RunKeepsValid(o.db, others(n));
    RunKeepsIdentity(o.db, others(n));
  }

  lemma LastVisitHolds(db: Db, local: seq<string>, a: Answers, clock: Clock, lots: string -> string,
                       others: nat -> seq<Op>)
    requires Valid(db) && local != [] && forall id :: id in local ==> id in db.orders
    requires PassedAmid(db.orders, db, local, a, clock, lots, others).error.None?
    requires Consulted(a, local[|local| - 1], db.orders[local[|local| - 1]], clock).Some?
    ensures Holds(PassedAmid(db.orders, db, local, a, clock, lots, others).db,
                  EventOf(Consulted(a, local[|local| - 1], db.orders[local[|local| - 1]], clock).value, clock))
  {
    var n := |local| - 1;
    var id, row := local[n], db.orders[local[n]];
    var ev := EventOf(Consulted(a, id, row, clock).value, clock);
    var o := PassedAmid(db.orders, db, local[..n], a, clock, lots, others);
    if id in ByClient(a.open) && Agrees(row, Consulted(a, id, row, clock).value) {
      AgreementHolds(db, id, a, clock);
      AmidKeepsHeld(db.orders, db, local, a, clock, lots, others, ev);
    } else {
      BeforeLastVisit(db, local, a, clock, lots, others);
      VisitHolds(Run(o.db, others(n)), id, row, a, clock, lots(id));
    }
  }

  lemma {:induction false} AnswersStayHeld(db: Db, local: seq<string>, a: Answers, clock: Clock, lots: string -> string,
                                           others: nat -> seq<Op>, i: nat)
    requires Valid(db) && (forall id :: id in local ==> id in db.orders) && i < |local|
    requires PassedAmid(db.orders, db, local, a, clock, lots, others).error.None?
    requires Consulted(a, local[i], db.orders[local[i]], clock).Some?
    ensures Holds(PassedAmid(db.orders, db, local, a, clock, lots, others).db,
                  EventOf(Consulted(a, local[i], db.orders[local[i]], clock).value, clock))
    decreases local
  {
    var n := |local| - 1;
    if i == n {
      LastVisitHolds(db, local, a, clock, lots, others);
    } else {
      AnswersStayHeld(db, local[..n], a, clock, lots, others, i);
      TurnKeepsHeld(db.orders, db, local, a, clock, lots, others,
                    EventOf(Consulted(a, local[i], db.orders[local[i]], clock).value, clock));
    }
  }

  /**
   Whatever other writers do between the visits, a completed pass leaves the store valid and
   holding every answer it consulted: no status, fill or venue order ID it reported is lost.
   */
  lemma AmidPassHolds(db: Db, local: seq<string>, a: Answers, clock: Clock, lots: string -> string,
                      others: nat -> seq<Op>, i: nat)
    requires Valid(db) && (forall id :: id in local ==> id in db.orders) && i < |local|
    requires PassedAmid(db.orders, db, local, a, clock, lots, others).error.None?
    requires Consulted(a, local[i], db.orders[local[i]], clock).Some?
    ensures var o := PassedAmid(db.orders, db, local, a, clock, lots, others);
            Valid(o.db) && Holds(o.db, EventOf(Consulted(a, local[i], db.orders[local[i]], clock).value, clock))
  {
    AmidKeepsValid(db.orders, db, local, a, clock, lots, others);
    AnswersStayHeld(db, local, a, clock, lots, others, i);
  }

  // ---------- Orphans ----------

  /** Open on the venue, unknown here. */
  predicate IsOrphan(snap: Snapshot, orders: map<string, OrderRow>) {
    snap.ref.clientOrderId == "" || snap.ref.clientOrderId !in orders
  }

  /** A listed snapshot of an order that has a row. */
  predicate HasRow(snap: Snapshot, orders: map<string, OrderRow>) {
    snap.ref.clientOrderId != "" && snap.ref.clientOrderId in orders
  }

  /** `failed` says that reading an order failed, which ends the scan. */
  datatype Scan = Scan(count: nat, current: set<string>, published: seq<Snapshot>, failed: bool)

  /** `broken` says for which client order IDs reading the order fails. */
  function ScanOrphans(open: seq<Snapshot>, localActive: set<string>, orders: map<string, OrderRow>, last: set<string>,
                       broken: string -> bool): Scan
  {
    if open == [] then Scan(0, {}, [], false)
    else
      var scan, snap := ScanOrphans(open[..|open| - 1], localActive, orders, last, broken), open[|open| - 1];
      var client, vid := snap.ref.clientOrderId, snap.ref.venueOrderId;
      if scan.failed || (client != "" && client in localActive) then scan
      else if client != "" && broken(client) then scan.(failed := true)
      else if !IsOrphan(snap, orders) then scan
      else
        scan.(count := scan.count + 1, current := scan.current + {vid},
              published := if vid in last then scan.published else scan.published + [snap])
  }

  /** The local listing only saves reads: it never changes who is an orphan. */
  lemma {:induction false} ScanIsExact(open: seq<Snapshot>, localActive: set<string>, orders: map<string, OrderRow>,
                                       last: set<string>, broken: string -> bool)
    requires localActive <= orders.Keys && !ScanOrphans(open, localActive, orders, last, broken).failed
    ensures var scan := ScanOrphans(open, localActive, orders, last, broken);
            && (forall vid :: vid in scan.current <==>
                  exists snap :: snap in open && !HasRow(snap, orders) && snap.ref.venueOrderId == vid)
            && (forall snap :: snap in scan.published <==>
                  snap in open && !HasRow(snap, orders) && snap.ref.venueOrderId !in last)
  {
    if open != [] {
      var n := |open| - 1;
      ScanIsExact(open[..n], localActive, orders, last, broken);
      assert forall snap :: snap in open <==> snap in open[..n] || snap == open[n];
    }
  }

  /** A scan that cannot read an order has still published only new orphans. */
  lemma {:induction false} ScanPublishesOrphans(open: seq<Snapshot>, localActive: set<string>,
                                                orders: map<string, OrderRow>,
                                                last: set<string>, broken: string -> bool, snap: Snapshot)
    requires localActive <= orders.Keys && snap in ScanOrphans(open, localActive, orders, last, broken).published
    ensures snap in open && !HasRow(snap, orders) && snap.ref.venueOrderId !in last
  {
    var n := |open| - 1;
    if snap in ScanOrphans(open[..n], localActive, orders, last, broken).published {
      ScanPublishesOrphans(open[..n], localActive, orders, last, broken, snap);
    }
  }

  /** An orphan is reported once: the next scan of the same answers publishes nothing. */
  lemma SecondScanIsSilent(open: seq<Snapshot>, active: set<string>, active': set<string>,
                           orders: map<string, OrderRow>,
                           orders': map<string, OrderRow>, last: set<string>, broken: string -> bool,
                               broken': string -> bool)
    requires active <= orders.Keys && active' <= orders.Keys && orders'.Keys == orders.Keys
    requires !ScanOrphans(open, active, orders, last, broken).failed
    ensures var first := ScanOrphans(open, active, orders, last, broken);
            var second := ScanOrphans(open, active', orders', first.current, broken');
            second.published == [] && (!second.failed ==> second.current == first.current)
  {
    var first := ScanOrphans(open, active, orders, last, broken);
    var second := ScanOrphans(open, active', orders', first.current, broken');
    ScanIsExact(open, active, orders, last, broken);
    if second.published != [] {
      ScanPublishesOrphans(open, active', orders', first.current, broken', second.published[0]);
      assert false;
    }
    if !second.failed {
      ScanIsExact(open, active', orders', first.current, broken');
    }
  }

  // ---------- The venue loop ----------

  datatype PassError = ApplyFailed(error: StoreError) | ReadFailed

  class VenueLoop {
    var lastOrphans: set<string>
    var notices: seq<Snapshot>

    constructor ()
      ensures lastOrphans == {} && notices == []
    {
      lastOrphans, notices := {}, [];
    }

    method IndexByClient(open: seq<Snapshot>) returns (venueByClient: map<string, Snapshot>)
      ensures venueByClient == ByClient(open)
    {
      venueByClient := map[];
      for i := 0 to |open|
        invariant venueByClient == ByClient(open[..i])
      {
        assert open[..i + 1][..i] == open[..i];
        if open[i].ref.clientOrderId != "" {
          venueByClient := venueByClient[open[i].ref.clientOrderId := open[i]];
        }
      }
      assert open[..|open|] == open;
    }

    method ReconcileLocal(tables: OrderStore.Tables, id: string, lo: OrderRow, venueByClient: map<string, Snapshot>,
                          a: Answers, clock: Clock, lotId: string) returns (error: Option<StoreError>)
      requires tables.Valid() && venueByClient == ByClient(a.open)
      modifies tables
      ensures tables.Valid()
      ensures Visited(old(tables.Contents()), id, lo, a, clock, lotId) == Outcome(tables.Contents(), error)
    {
      if id in venueByClient {
        var snap := venueByClient[id];
        if Agrees(lo, snap) {
          return None;
        }
        error := Apply(tables, snap, clock, lotId);
      } else if LeftPending(lo, clock) {
        return None;
      } else {
        var found := a.lookup(StoredRef(id, lo));
        if found.None? {
          return None;
        }
        error := Apply(tables, WithLocalRef(found.value, id, lo), clock, lotId);
      }
    }

    method Apply(tables: OrderStore.Tables, snap: Snapshot, clock: Clock, lotId: string)
      returns (error: Option<StoreError>)
      requires tables.Valid()
      modifies tables
      ensures tables.Valid()
      ensures match Applied(old(tables.Contents()), EventOf(snap, clock), lotId, clock.now)
              case Ok(db) => error == None && tables.Contents() == db
              case Err(e) => error == Some(e) && tables.Contents() == old(tables.Contents())
    {
      var r := tables.ApplyEvent(Source.Reconcile, EventOf(snap, clock), lotId, clock.now);
      error := if r.Ok? || r.error == NotFound then None else Some(r.error);
    }

    method ReconcileOrphans(orders: map<string, OrderRow>, open: seq<Snapshot>, localActive: set<string>,
                            broken: string -> bool)
      returns (failed: bool, count: nat, current: set<string>)
      modifies this`notices
      ensures var scan := ScanOrphans(open, localActive, orders, lastOrphans, broken);
              && failed == scan.failed && notices == old(notices) + scan.published
              && (!failed ==> count == scan.count && current == scan.current)
    {
      failed, count, current := false, 0, {};
      for i := 0 to |open|
        invariant var scan := ScanOrphans(open[..i], localActive, orders, lastOrphans, broken);
                  && !scan.failed && count == scan.count && current == scan.current
                  && notices == old(notices) + scan.published
      {
        assert open[..i + 1][..i] == open[..i];
        var snap := open[i];
        if snap.ref.clientOrderId != "" && snap.ref.clientOrderId in localActive {
          continue;
        }
        if snap.ref.clientOrderId != "" && broken(snap.ref.clientOrderId) {
          ScanStops(open, i + 1, localActive, orders, lastOrphans, broken);
          return true, 0, {};
        }
        if !IsOrphan(snap, orders) {
          continue;
        }
        count := count + 1;
        current := current + {snap.ref.venueOrderId};
        if snap.ref.venueOrderId in lastOrphans {
          continue;
        }
        notices := notices + [snap];
      }
      assert open[..|open|] == open;
      failed := false;
    }

    /** The scan, and what it leaves for the next pass to compare with. */
    method RememberOrphans(orders: map<string, OrderRow>, open: seq<Snapshot>, localActive: set<string>,
                           broken: string -> bool)
      returns (failed: bool)
      modifies this
      ensures var scan := ScanOrphans(open, localActive, orders, old(lastOrphans), broken);
              && failed == scan.failed && notices == old(notices) + scan.published
              && lastOrphans == if failed then old(lastOrphans) else scan.current
    {
      var count, current;
      failed, count, current := ReconcileOrphans(orders, open, localActive, broken);
      if !failed {
        lastOrphans := current;
      }
    }

    method ReconcileAll(tables: OrderStore.Tables, local: seq<string>, a: Answers, clock: Clock, lots: string -> string)
      returns (error: Option<StoreError>, localActive: set<string>)
      requires tables.Valid() && forall id :: id in local ==> id in tables.orders
      modifies tables
      ensures tables.Valid()
      ensures Passed(old(tables.orders), old(tables.Contents()), local, a, clock, lots) ==
          Outcome(tables.Contents(), error)
      ensures error.None? ==> localActive == IdsOf(local)
    {
      var rows := tables.orders;
      ghost var before := tables.Contents();
      var venueByClient := IndexByClient(a.open);
      localActive := {};
      error := None;
      for i := 0 to |local|
        invariant tables.Valid() && error.None?
        invariant localActive == IdsOf(local[..i])
        invariant Passed(rows, before, local[..i], a, clock, lots) == Outcome(tables.Contents(), None)
      {
        PassSnoc(rows, before, local, i, a, clock, lots);
        localActive := localActive + {local[i]};
        error := ReconcileLocal(tables, local[i], rows[local[i]], venueByClient, a, clock, lots(local[i]));
        if error.Some? {
          PassStops(rows, before, local, i + 1, a, clock, lots);
          return;
        }
      }
      assert local[..|local|] == local;
    }

    /** `open` is None when the venue does not answer: the pass is skipped. */
    method Pass(tables: OrderStore.Tables, open: Option<seq<Snapshot>>, lookup: Ref -> Option<Snapshot>,
                local: seq<string>, clock: Clock, lots: string -> string, broken: string -> bool)
      returns (error: Option<PassError>)
      requires tables.Valid() && forall id :: id in local ==> id in tables.orders
      modifies this, tables
      ensures tables.Valid()
      ensures open.None? ==>
                error == None && tables.Contents() == old(tables.Contents()) && lastOrphans == old(lastOrphans) &&
                    notices == old(notices)
      ensures open.Some? ==>
                var o := Passed(old(tables.orders), old(tables.Contents()), local, Answers(open.value, lookup), clock,
                    lots);
                var scan := ScanOrphans(open.value, IdsOf(local), o.db.orders, old(lastOrphans), broken);
                && tables.Contents() == o.db
                && error == (if o.error.Some? then Some(ApplyFailed(o.error.value))
                    else if scan.failed then Some(ReadFailed) else None)
                && lastOrphans == (if error.None? then scan.current else old(lastOrphans))
                && notices == old(notices) + (if o.error.None? then scan.published else [])
    {
      if open.None? {
        return None;
      }
      var failure, localActive := ReconcileAll(tables, local, Answers(open.value, lookup), clock, lots);
      if failure.Some? {
        return Some(ApplyFailed(failure.value));
      }
      var failed := RememberOrphans(tables.orders, open.value, localActive, broken);
      return if failed then Some(ReadFailed) else None;
    }
  }

  lemma {:induction false} ScanStops(open: seq<Snapshot>, n: nat, localActive: set<string>,
                                     orders: map<string, OrderRow>,
                                     last: set<string>, broken: string -> bool)
    requires n <= |open| && ScanOrphans(open[..n], localActive, orders, last, broken).failed
    ensures ScanOrphans(open, localActive, orders, last, broken) ==
        ScanOrphans(open[..n], localActive, orders, last, broken)
    decreases |open|
  {
    if n < |open| {
      assert open[..|open| - 1][..n] == open[..n];
      ScanStops(open[..|open| - 1], n, localActive, orders, last, broken);
    } else {
      assert open[..n] == open;
    }
  }

  lemma PassSnoc(rows: map<string, OrderRow>, db: Db, local: seq<string>, i: nat, a: Answers, clock: Clock,
                 lots: string -> string)
    requires i < |local| && forall id :: id in local ==> id in rows
    ensures var o := Passed(rows, db, local[..i], a, clock, lots);
            Passed(rows, db, local[..i + 1], a, clock, lots) ==
              if o.error.Some? then o else Visited(o.db, local[i], rows[local[i]], a, clock, lots(local[i]))
    ensures IdsOf(local[..i + 1]) == IdsOf(local[..i]) + {local[i]}
  {
    assert local[..i + 1][..i] == local[..i];
  }

  lemma {:induction false} PassStops(rows: map<string, OrderRow>, db: Db, local: seq<string>, n: nat, a: Answers,
                                     clock: Clock, lots: string -> string)
    requires n <= |local| && forall id :: id in local ==> id in rows
    requires Passed(rows, db, local[..n], a, clock, lots).error.Some?
    ensures Passed(rows, db, local, a, clock, lots) == Passed(rows, db, local[..n], a, clock, lots)
    decreases |local|
  {
    if n < |local| {
      assert local[..|local| - 1][..n] == local[..n];
      PassStops(rows, db, local[..|local| - 1], n, a, clock, lots);
    } else {
      assert local[..n] == local;
    }
  }
}

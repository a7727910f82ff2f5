/**
 Placing orders against a venue that may or may not receive a submit and may or may not say
 so. Calls interleave with each other, with every other store operation and with crashes.
 A pending row is stored before the first submit and every retry reuses its client order ID.
 */
module Placement {
  import opened Prelude
  import opened Domain
  import opened Store
  import opened StoreInvariant
  import opened StoreRuns
  import Effects
  import Machine

  /** Retry identity: everything a stored order and a request share except the venue symbol. */
  predicate SameOrder(row: OrderRow, req: Request) {
    && row.bot == req.bot
    && row.instrument.venue == req.instrument.venue
    && row.instrument.base == req.instrument.base
    && row.instrument.quote == req.instrument.quote
    && row.side == req.side && row.kind == req.kind
    && row.price == req.price && row.qty == req.qty
  }

  /** A stored order that may be submitted again: nothing is known of it at the venue. */
  predicate Resubmittable(row: OrderRow) {
    row.venueOrderId.None? && row.status == Pending
  }

  datatype Phase =
    | Inserting
    | Reading
    | Submitting
    | Acked(ack: Ref, status: Status, acceptedAt: Instant)
    | Refused(reason: string)
    | Finished

  /** `seen` is the row the call read back, if it got that far. */
  datatype Call = Call(req: Request, phase: Phase, inserted: bool, seen: Option<OrderRow>)

  /** A submit, what the call was told, and whether the venue received it. */
  datatype Submit = Submit(call: nat, req: Request, answer: Answer, received: bool)

  /** `created` are the orders that came to exist at venues. */
  datatype State = State(db: Db, calls: map<nat, Call>, submits: seq<Submit>, created: seq<Request>)

  const START: State := State(EMPTY, map[], [], [])

  /** Anything but success and a permanent refusal is ambiguous and tried again. */
  datatype Answer = Accepted(ack: Ref, status: Status, acceptedAt: Instant) | Permanent(reason: string) | Ambiguous

  datatype Action =
    | Begin(call: nat, req: Request, generatedId: string)
    | Insert(call: nat, configured: bool, now: Instant)
    | Read(call: nat, configured: bool)
    | Send(call: nat, received: bool, answer: Answer)
    | GiveUp(call: nat)
    | ApplyAck(call: nat, lotId: string, now: Instant)
    | Reject(call: nat, lotId: string, now: Instant)
    | Elsewhere(op: Op)
    | Crash

  function Normalized(req: Request, generatedId: string): Request {
    req.(clientOrderId := if req.clientOrderId == "" then generatedId else req.clientOrderId,
         bot := if req.bot == "" then "manual" else req.bot)
  }

  predicate InPhase(s: State, c: nat, p: Phase) {
    c in s.calls && s.calls[c].phase == p
  }

  predicate Enabled(s: State, a: Action) {
    match a
    case Begin(c, _, _) => c !in s.calls
    case Insert(c, _, _) => InPhase(s, c, Inserting)
    case Read(c, _) => InPhase(s, c, Reading)
    case Send(c, _, _) => InPhase(s, c, Submitting)
    case GiveUp(c) => InPhase(s, c, Submitting)
    case ApplyAck(c, _, _) => c in s.calls && s.calls[c].phase.Acked?
    case Reject(c, _, _) => c in s.calls && s.calls[c].phase.Refused?
    case Elsewhere(_) => true
    case Crash => true
  }

  function To(s: State, c: nat, p: Phase): State
    requires c in s.calls
  {
    s.(calls := s.calls[c := s.calls[c].(phase := p)])
  }

  /** A venue keeps one order per client order ID. */
  predicate VenueHas(created: seq<Request>, req: Request) {
    exists i :: 0 <= i < |created| && created[i].instrument.venue == req.instrument.venue
                && created[i].clientOrderId == req.clientOrderId
  }

  function Received(created: seq<Request>, req: Request): seq<Request> {
    if VenueHas(created, req) then created else created + [req]
  }

  function AckEvent(ack: Ref, status: Status, at: Instant, now: Instant): Event {
    Event(ack, status, 0.0, 0.0, "", 0.0, "", "", if at == UNSET then now else at)
  }

  function RejectEvent(req: Request, reason: string, now: Instant): Event {
    Event(Ref(req.instrument, req.clientOrderId, ""), Rejected, 0.0, 0.0, "", 0.0, "", "submit failed: " + reason, now)
  }

  /** Inserting decides at once; only an order that exists already is read back. */
  function InsertStep(s: State, c: nat, configured: bool, now: Instant): State
    requires c in s.calls
  {
    if !configured then To(s, c, Reading)
    else
      match CreatePending(s.db, s.calls[c].req, now)
      case Err(_) => To(s, c, Finished)
      case Ok((db, isNew)) =>
        if isNew
        then s.(db := db, calls := s.calls[c := s.calls[c].(phase := Submitting, inserted := true)])
        else To(s, c, Reading)
  }

  function ReadStep(s: State, c: nat, configured: bool): State
    requires c in s.calls
  {
    var req := s.calls[c].req;
    if req.clientOrderId !in s.db.orders then To(s, c, Finished)
    else
      var row := s.db.orders[req.clientOrderId];
      var next := if SameOrder(row, req) && Resubmittable(row) && configured then Submitting else Finished;
      s.(calls := s.calls[c := s.calls[c].(phase := next, seen := Some(row))])
  }

  function SendStep(s: State, c: nat, received: bool, answer: Answer): State
    requires c in s.calls
  {
    var req := s.calls[c].req;
    var next := match answer
      case Accepted(ack, status, at) => Acked(ack, status, at)
      case Permanent(reason) => Refused(reason)
      case Ambiguous => Submitting;
    To(s, c, next).(submits := s.submits + [Submit(c, req, answer, received)],
                    created := if received then Received(s.created, req) else s.created)
  }

  function Do(s: State, a: Action): State
    requires Enabled(s, a)
  {
    match a
    case Begin(c, req, generatedId) =>
      s.(calls := s.calls[c := Call(Normalized(req, generatedId), Inserting, false, None)])
    case Insert(c, configured, now) => InsertStep(s, c, configured, now)
    case Read(c, configured) => ReadStep(s, c, configured)
    case Send(c, received, answer) => SendStep(s, c, received, answer)
    case GiveUp(c) => To(s, c, Finished)
    case ApplyAck(c, lotId, now) =>
      var p := s.calls[c].phase;
      To(s, c, Finished).(db := Exec(s.db, Apply(Ack, AckEvent(p.ack, p.status, p.acceptedAt, now), lotId, now)))
    case Reject(c, lotId, now) =>
      To(s, c, Finished).(db := Exec(s.db,
          Apply(Local, RejectEvent(s.calls[c].req, s.calls[c].phase.reason, now), lotId, now)))
    case Elsewhere(op) => s.(db := Exec(s.db, op))
    case Crash => s.(calls := map c | c in s.calls :: s.calls[c].(phase := Finished))
  }

  function After(actions: seq<Action>): State {
    if actions == [] then START
    else
      var s, a := After(actions[..|actions| - 1]), actions[|actions| - 1];
      if Enabled(s, a) then Do(s, a) else s
  }

  // ---------- Invariant ----------

  /** The request is backed by a stored row with its identity. */
  predicate Backed(orders: map<string, OrderRow>, req: Request) {
    req.clientOrderId in orders && SameOrder(orders[req.clientOrderId], req)
  }

  /** A call past its first steps stored its row or found it untouched. */
  ghost predicate CallOk(orders: map<string, OrderRow>, call: Call) {
    && (call.inserted ==> Backed(orders, call.req) && call.seen.None?)
    && (call.phase.Submitting? || call.phase.Acked? || call.phase.Refused? ==>
        Backed(orders, call.req) && Entitled(call))
    && (call.phase.Inserting? || call.phase.Reading? ==> !call.inserted && call.seen.None?)
  }

  /** A call may submit if it inserted the row, or read back one that nothing had happened to. */
  predicate Entitled(call: Call) {
    call.inserted || (call.seen.Some? && Resubmittable(call.seen.value))
  }

  ghost predicate SubmitOk(s: State, submit: Submit) {
    && Backed(s.db.orders, submit.req)
    && submit.call in s.calls
    && s.calls[submit.call].req == submit.req
    && !(s.calls[submit.call].phase.Inserting? || s.calls[submit.call].phase.Reading?)
    && Entitled(s.calls[submit.call])
  }

  ghost predicate InsertedOnce(s: State) {
    forall c, d :: c in s.calls && d in s.calls && c != d && s.calls[c].inserted && s.calls[d].inserted ==>
      s.calls[c].req.clientOrderId != s.calls[d].req.clientOrderId
  }

  ghost predicate OnePerId(created: seq<Request>) {
    forall i, j :: 0 <= i < j < |created| ==> created[i].clientOrderId != created[j].clientOrderId
  }

  ghost predicate AllBacked(orders: map<string, OrderRow>, created: seq<Request>) {
    forall i :: 0 <= i < |created| ==> Backed(orders, created[i])
  }

  predicate Arrived(submits: seq<Submit>, id: string) {
    exists i :: 0 <= i < |submits| && submits[i].received && submits[i].req.clientOrderId == id
  }

  predicate ExistsAtVenue(created: seq<Request>, id: string) {
    exists i :: 0 <= i < |created| && created[i].clientOrderId == id
  }

  ghost predicate CreatedBySubmits(s: State) {
    forall id :: ExistsAtVenue(s.created, id) <==> Arrived(s.submits, id)
  }

  ghost predicate Inv(s: State) {
    Valid(s.db) && Protocol(s)
  }

  ghost predicate Protocol(s: State) {
    && CreatedBySubmits(s)
    && (forall c :: c in s.calls ==> CallOk(s.db.orders, s.calls[c]))
    && (forall i :: 0 <= i < |s.submits| ==> SubmitOk(s, s.submits[i]))
    && InsertedOnce(s)
    && OnePerId(s.created) && AllBacked(s.db.orders, s.created)
  }

  // ---------- Preservation ----------

  /** A store operation that is no part of a call's own steps. */
  lemma ExecKeeps(s: State, op: Op)
    requires Inv(s)
    ensures Inv(s.(db := Exec(s.db, op)))
  {
    var s' := s.(db := Exec(s.db, op));
    ExecKeepsValid(s.db, op);
    ExecKeepsIdentity(s.db, op);
    forall c | c in s'.calls ensures CallOk(s'.db.orders, s'.calls[c]) {
      assert CallOk(s.db.orders, s.calls[c]);
    }
    forall i | 0 <= i < |s'.submits| ensures SubmitOk(s', s'.submits[i]) {
      assert SubmitOk(s, s.submits[i]);
    }
  }

  /** Moving one call along, the store untouched. */
  lemma MoveKeepsProtocol(s: State, c: nat, call: Call)
    requires Protocol(s) && CallOk(s.db.orders, call)
    requires c in s.calls ==>
               && call.req == s.calls[c].req && call.inserted == s.calls[c].inserted
               && (s.calls[c].phase.Inserting? || s.calls[c].phase.Reading? ||
                   (!call.phase.Inserting? && !call.phase.Reading? && call.seen == s.calls[c].seen))
    requires c !in s.calls ==> !call.inserted
    ensures Protocol(s.(calls := s.calls[c := call]))
  {
    var s' := s.(calls := s.calls[c := call]);
    forall i | 0 <= i < |s'.submits| ensures SubmitOk(s', s'.submits[i]) {
      assert SubmitOk(s, s.submits[i]);
    }
  }

  lemma MoveKeeps(s: State, c: nat, call: Call)
    requires Inv(s) && CallOk(s.db.orders, call)
    requires c in s.calls ==>
               && call.req == s.calls[c].req && call.inserted == s.calls[c].inserted
               && (s.calls[c].phase.Inserting? || s.calls[c].phase.Reading? ||
                   (!call.phase.Inserting? && !call.phase.Reading? && call.seen == s.calls[c].seen))
    requires c !in s.calls ==> !call.inserted
    ensures Inv(s.(calls := s.calls[c := call]))
  {
    MoveKeepsProtocol(s, c, call);
  }

  lemma InsertKeeps(s: State, c: nat, configured: bool, now: Instant)
    requires Inv(s) && InPhase(s, c, Inserting)
    ensures Inv(InsertStep(s, c, configured, now))
  {
    var call := s.calls[c];
    assert CallOk(s.db.orders, call);
    var r := CreatePending(s.db, call.req, now);
    if configured && r.Ok? && r.value.1 {
      NewRowKeeps(s, c, now);
    } else {
      MoveKeeps(s, c, call.(phase := if configured && r.Err? then Finished else Reading));
    }
  }

  /** The new row is nobody else's. */
  lemma NewRowIsFirst(s: State, c: nat)
    requires (forall d :: d in s.calls ==> CallOk(s.db.orders, s.calls[d])) && InsertedOnce(s)
    requires c in s.calls && s.calls[c].req.clientOrderId !in s.db.orders
    ensures InsertedOnce(s.(calls := s.calls[c := s.calls[c].(phase := Submitting, inserted := true)]))
  {
    forall d | d in s.calls && s.calls[d].inserted
        ensures s.calls[d].req.clientOrderId != s.calls[c].req.clientOrderId {
      assert CallOk(s.db.orders, s.calls[d]);
    }
  }

  lemma NewRowKeeps(s: State, c: nat, now: Instant)
    requires Inv(s) && InPhase(s, c, Inserting)
    requires CreatePending(s.db, s.calls[c].req, now).Ok? && CreatePending(s.db, s.calls[c].req, now).value.1
    ensures Inv(InsertStep(s, c, true, now))
  {
    ExecKeeps(s, Create(s.calls[c].req, now));
    NewRowIsFirst(s, c);
    InsertedCallKeeps(s.(db := Exec(s.db, Create(s.calls[c].req, now))), c);
  }

  lemma InsertedCallKeeps(s: State, c: nat)
    requires Protocol(s) && InPhase(s, c, Inserting) && Backed(s.db.orders, s.calls[c].req)
    requires InsertedOnce(s.(calls := s.calls[c := s.calls[c].(phase := Submitting, inserted := true)]))
    ensures Protocol(s.(calls := s.calls[c := s.calls[c].(phase := Submitting, inserted := true)]))
  {
    var s' := s.(calls := s.calls[c := s.calls[c].(phase := Submitting, inserted := true)]);
    assert CallOk(s.db.orders, s.calls[c]);
    forall i | 0 <= i < |s'.submits| ensures SubmitOk(s', s'.submits[i]) {
      assert SubmitOk(s, s.submits[i]);
    }
  }

  lemma ReadKeeps(s: State, c: nat, configured: bool)
    requires Inv(s) && InPhase(s, c, Reading)
    ensures Inv(ReadStep(s, c, configured))
  {
    assert CallOk(s.db.orders, s.calls[c]);
    MoveKeeps(s, c, ReadStep(s, c, configured).calls[c]);
  }

  lemma ReceivedKeeps(orders: map<string, OrderRow>, created: seq<Request>, req: Request)
    requires OnePerId(created) && AllBacked(orders, created) && Backed(orders, req)
    ensures OnePerId(Received(created, req)) && AllBacked(orders, Received(created, req))
  {
    forall i | 0 <= i < |created| && created[i].clientOrderId == req.clientOrderId ensures VenueHas(created, req) {
      assert Backed(orders, created[i]);
    }
  }

  lemma SendCreates(s: State, c: nat, received: bool, answer: Answer)
    requires CreatedBySubmits(s) && c in s.calls
    ensures CreatedBySubmits(SendStep(s, c, received, answer))
  {
    var s', req := SendStep(s, c, received, answer), s.calls[c].req;
    var n := |s.submits|;
    assert s'.submits[n] == Submit(c, req, answer, received);
    forall id ensures Arrived(s'.submits, id) <==> Arrived(s.submits, id) || (received && id == req.clientOrderId) {
      if Arrived(s.submits, id) {
        var i :| 0 <= i < n && s.submits[i].received && s.submits[i].req.clientOrderId == id;
        assert s'.submits[i] == s.submits[i];
      }
    }
    forall id ensures ExistsAtVenue(s'.created, id) <==>
        ExistsAtVenue(s.created, id) || (received && id == req.clientOrderId) {
      if ExistsAtVenue(s.created, id) {
        var i :| 0 <= i < |s.created| && s.created[i].clientOrderId == id;
        assert s'.created[i] == s.created[i];
      }
      if received && !VenueHas(s.created, req) {
        assert s'.created[|s.created|] == req;
      }
    }
  }

  lemma SendKeeps(s: State, c: nat, received: bool, answer: Answer)
    requires Inv(s) && InPhase(s, c, Submitting)
    ensures Inv(SendStep(s, c, received, answer))
  {
    var s' := SendStep(s, c, received, answer);
    assert CallOk(s.db.orders, s.calls[c]);
    MoveKeeps(s, c, s'.calls[c]);
    ReceivedKeeps(s.db.orders, s.created, s.calls[c].req);
    SendCreates(s, c, received, answer);
    forall i | 0 <= i < |s'.submits| ensures SubmitOk(s', s'.submits[i]) {
      if i < |s.submits| {
        assert SubmitOk(s.(calls := s'.calls), s.submits[i]);
      }
    }
  }

  lemma FinishKeeps(s: State, c: nat)
    requires Inv(s) && c in s.calls && !s.calls[c].phase.Inserting? && !s.calls[c].phase.Reading?
    ensures Inv(To(s, c, Finished))
  {
    assert CallOk(s.db.orders, s.calls[c]);
    MoveKeeps(s, c, s.calls[c].(phase := Finished));
  }

  lemma CrashKeeps(s: State)
    requires Inv(s)
    ensures Inv(Do(s, Crash))
  {
    var s' := Do(s, Crash);
    forall c | c in s'.calls ensures CallOk(s'.db.orders, s'.calls[c]) {
      assert CallOk(s.db.orders, s.calls[c]);
    }
    forall i | 0 <= i < |s'.submits| ensures SubmitOk(s', s'.submits[i]) {
      assert SubmitOk(s, s.submits[i]);
    }
  }

  lemma StepKeeps(s: State, a: Action)
    requires Inv(s) && Enabled(s, a)
    ensures Inv(Do(s, a))
  {
    match a
    case Begin(c, req, generatedId) => MoveKeeps(s, c, Call(Normalized(req, generatedId), Inserting, false, None));
    case Insert(c, configured, now) => InsertKeeps(s, c, configured, now);
    case Read(c, configured) => ReadKeeps(s, c, configured);
    case Send(c, received, answer) => SendKeeps(s, c, received, answer);
    case GiveUp(c) => FinishKeeps(s, c);
    case ApplyAck(c, lotId, now) =>
      var p := s.calls[c].phase;
      FinishKeeps(s, c);
      ExecKeeps(To(s, c, Finished), Apply(Ack, AckEvent(p.ack, p.status, p.acceptedAt, now), lotId, now));
    case Reject(c, lotId, now) =>
      FinishKeeps(s, c);
      ExecKeeps(To(s, c, Finished), Apply(Local, RejectEvent(s.calls[c].req, s.calls[c].phase.reason, now), lotId,
          now));
    case Elsewhere(op) => ExecKeeps(s, op);
    case Crash => CrashKeeps(s);
  }

  lemma EmptyIsValid()
    ensures Inv(START)
  {
    EveryRunIsExact([]);
  }

  lemma {:induction false} EveryScheduleKeepsInv(actions: seq<Action>)
    ensures Inv(After(actions))
  {
    if actions == [] {
      EmptyIsValid();
    } else {
      var init, a := actions[..|actions| - 1], actions[|actions| - 1];
      EveryScheduleKeepsInv(init);
      if Enabled(After(init), a) {
        StepKeeps(After(init), a);
      }
    }
  }

  // ---------- What every schedule guarantees ----------

  /** Whenever a call is about to submit, its row is stored, under the identity it submits. */
  lemma SubmitsAreBacked(actions: seq<Action>, c: nat)
    requires InPhase(After(actions), c, Submitting)
    ensures Backed(After(actions).db.orders, After(actions).calls[c].req)
  {
    EveryScheduleKeepsInv(actions);
    assert CallOk(After(actions).db.orders, After(actions).calls[c]);
  }

  /** A call that read back an advanced row, or one with a venue order ID, never submitted and never will. */
  lemma AdvancedRowsAreNotSubmitted(actions: seq<Action>, c: nat, i: nat)
    requires var s := After(actions);
             && c in s.calls && s.calls[c].seen.Some? && i < |s.submits|
             && (s.calls[c].seen.value.status != Pending || s.calls[c].seen.value.venueOrderId.Some?)
    ensures After(actions).submits[i].call != c
  {
    EveryScheduleKeepsInv(actions);
    assert SubmitOk(After(actions), After(actions).submits[i]);
    assert CallOk(After(actions).db.orders, After(actions).calls[c]);
  }

  /** Two requests for the same order, up to the venue symbol. */
  predicate SameRequest(a: Request, b: Request) {
    && a.bot == b.bot && a.side == b.side && a.kind == b.kind && a.price == b.price && a.qty == b.qty
    && a.instrument.venue == b.instrument.venue && a.instrument.base == b.instrument.base &&
        a.instrument.quote == b.instrument.quote
  }

  /** All submits under one client order ID are for the same order. */
  lemma SubmitsAgree(actions: seq<Action>, i: nat, j: nat)
    requires i < |After(actions).submits| && j < |After(actions).submits|
    requires After(actions).submits[i].req.clientOrderId == After(actions).submits[j].req.clientOrderId
    ensures SameRequest(After(actions).submits[i].req, After(actions).submits[j].req)
  {
    EveryScheduleKeepsInv(actions);
    assert SubmitOk(After(actions), After(actions).submits[i]) && SubmitOk(After(actions), After(actions).submits[j]);
  }

  /** With venues that keep one order per client order ID, no ID ever has two orders, at any venues. */
  lemma AtMostOneVenueOrder(actions: seq<Action>, i: nat, j: nat)
    requires i < |After(actions).created| && j < |After(actions).created|
    requires After(actions).created[i].clientOrderId == After(actions).created[j].clientOrderId
    ensures i == j && Backed(After(actions).db.orders, After(actions).created[i])
  {
    EveryScheduleKeepsInv(actions);
    assert OnePerId(After(actions).created);
  }

  /** At most one call ever inserts an order. */
  lemma AtMostOneInsert(actions: seq<Action>, c: nat, d: nat)
    requires var s := After(actions);
             c in s.calls && d in s.calls && s.calls[c].inserted && s.calls[d].inserted &&
             s.calls[c].req.clientOrderId == s.calls[d].req.clientOrderId
    ensures c == d
  {
    EveryScheduleKeepsInv(actions);
  }

  // ---------- How a call goes on ----------

  /** A missing ID is generated, and a missing bot is the manual one. */
  predicate AskedFor(asked: Request, generatedId: string, req: Request) {
    && req.clientOrderId == (if asked.clientOrderId == "" then generatedId else asked.clientOrderId)
    && req.bot == (if asked.bot == "" then "manual" else asked.bot)
    && req.instrument == asked.instrument && req.side == asked.side && req.kind == asked.kind
    && req.price == asked.price && req.qty == asked.qty
  }

  predicate Supported(req: Request) {
    req.side in {Buy, Sell} && req.kind in {Limit, Market}
  }

  /** The row was stored for this request, whatever the venue calls the instrument. */
  predicate StoredFor(row: OrderRow, req: Request) {
    && row.bot == req.bot && row.side == req.side && row.kind == req.kind && row.price == req.price
    && row.qty == req.qty && row.instrument.venue == req.instrument.venue
    && row.instrument.base == req.instrument.base && row.instrument.quote == req.instrument.quote
  }

  /**
   A call stores its order before it submits. If the order exists, or no venue is configured,
   it reads the row back instead, and submits only a row stored for the same request that is
   still pending without a venue order ID.
   */
  lemma CallGoesOn(s: State, a: Action)
    requires Enabled(s, a)
    ensures match a
            case Begin(c, asked, generatedId) =>
              var s' := Do(s, a);
              InPhase(s', c, Inserting) && s'.db == s.db && AskedFor(asked, generatedId, s'.calls[c].req)
            case Insert(c, configured, now) =>
              var s', req := Do(s, a), s.calls[c].req;
              if configured && Supported(req) && req.clientOrderId !in s.db.orders then
                InPhase(s', c, Submitting) && Effects.OrderEntered(s.db, s'.db, req, now)
              else
                InPhase(s', c, if configured && !Supported(req) then Finished else Reading) && s'.db == s.db
            case Read(c, configured) =>
              var s', req := Do(s, a), s.calls[c].req;
              var again := && configured && req.clientOrderId in s.db.orders
                           && var row := s.db.orders[req.clientOrderId];
                              StoredFor(row, req) && row.status == Pending && row.venueOrderId.None?;
              InPhase(s', c, if again then Submitting else Finished) && s'.db == s.db
            case Send(c, received, answer) =>
              var s' := Do(s, a);
              && s'.db == s.db && InPhase(s', c, match answer
                                                 case Accepted(ack, status, at) => Acked(ack, status, at)
                                                 case Permanent(reason) => Refused(reason)
                                                 case Ambiguous => Submitting)
              && (received ==> ExistsAtVenue(s'.created, s.calls[c].req.clientOrderId))
            case _ => true
  {
    if a.Insert? {
      Effects.CreationEnters(s.db, s.calls[a.call].req, a.now);
    }
    if a.Send? && a.received {
      var req, created := s.calls[a.call].req, Do(s, a).created;
      if VenueHas(s.created, req) {
        var i :| 0 <= i < |s.created| && s.created[i].instrument.venue == req.instrument.venue
                 && s.created[i].clientOrderId == req.clientOrderId;
      } else {
        assert created[|s.created|] == req;
      }
    }
  }

  // ---------- What an answer leaves in the store ----------

  /** One audit row more if the status moved, and no fill. */
  ghost predicate MovedOnly(db: Db, db': Db, id: string, source: Source, at: Instant, reason: string)
    requires id in db.orders && id in db'.orders
  {
    var row, row' := db.orders[id], db'.orders[id];
    && db'.orders == db.orders[id := row'] && db'.fills == db.fills && db'.ledger == db.ledger
    && row'.filledQty == row.filledQty
    && (row'.status == row.status ==> db'.transitions == db.transitions && row'.reason == row.reason)
    && (row'.status != row.status ==>
          && |db'.transitions| == |db.transitions| + 1 && db.transitions <= db'.transitions
          && var t := db'.transitions[|db.transitions|];
             && t.order == id && t.from == row.status && t.to == row'.status && t.filledQty == row.filledQty
             && t.source == source && t.at == at
             && t.reason == (if reason == "" then None else Some(reason))
             && row'.reason == (if reason == "" then row.reason else Some(reason)))
  }

  /** The status moves on if the event's is a later one, a missing venue order ID is adopted, and that is all. */
  ghost predicate Moved(db: Db, db': Db, source: Source, ev: Event) {
    var id := ev.ref.clientOrderId;
    && id in db.orders && id in db'.orders
    && MovedOnly(db, db', id, source, ev.at, ev.reason)
    && db'.orders[id].status ==
         (if Machine.Later(ev.status, db.orders[id].status) then ev.status else db.orders[id].status)
    && db'.orders[id].venueOrderId ==
         (if db.orders[id].venueOrderId.Some? then db.orders[id].venueOrderId
          else if ev.ref.venueOrderId == "" then None else Some(ev.ref.venueOrderId))
  }

  lemma FilllessEventMoves(db: Db, source: Source, ev: Event, lotId: string, now: Instant)
    requires Valid(db) && ApplyEvent(db, source, ev, lotId, now).Ok? && ev.filledQty == 0.0
    ensures Moved(db, ApplyEvent(db, source, ev, lotId, now).value.0, source, ev)
  {
    Effects.ApplyEnters(db, source, ev, lotId, now);
    assert RowOk(db.orders[ev.ref.clientOrderId]);
  }

  /** What keeps a store from taking an acknowledgement. */
  ghost predicate AckRefusable(db: Db, ack: Ref, status: Status) {
    ack.clientOrderId !in db.orders || status.Unknown? || VenueIdClash(db, ack.clientOrderId, ack.venueOrderId)
  }

  /**
   An acknowledgement moves its order to the acknowledged status if that is a later one, adopts
   the venue order ID if there was none, and fills nothing; it does so at the accepted time, or
   now if the venue gave none. One the store cannot take changes nothing.
   */
  lemma AckIsStored(s: State, c: nat, lotId: string, now: Instant)
    requires Valid(s.db) && Enabled(s, ApplyAck(c, lotId, now))
    ensures var p, s' := s.calls[c].phase, Do(s, ApplyAck(c, lotId, now));
            var id := p.ack.clientOrderId;
            if AckRefusable(s.db, p.ack, p.status) then s'.db == s.db
            else
              && id in s'.db.orders
              && var row, row' := s.db.orders[id], s'.db.orders[id];
                 && MovedOnly(s.db, s'.db, id, Ack, if p.acceptedAt == UNSET then now else p.acceptedAt, "")
                 && row'.status == (if Machine.Later(p.status, row.status) then p.status else row.status)
                 && row'.venueOrderId == (if row.venueOrderId.Some? then row.venueOrderId
                                          else if p.ack.venueOrderId == "" then None else Some(p.ack.venueOrderId))
  {
    var p := s.calls[c].phase;
    var ev := AckEvent(p.ack, p.status, p.acceptedAt, now);
    ApplyFailsIff(s.db, Ack, ev, lotId, now);
    if ApplyEvent(s.db, Ack, ev, lotId, now).Ok? {
      FilllessEventMoves(s.db, Ack, ev, lotId, now);
    }
    AckMeetsRefusals(s.db, ev, lotId, p.ack, p.status);
  }

  lemma AckMeetsRefusals(db: Db, ev: Event, lotId: string, ack: Ref, status: Status)
    requires RowsOk(db) && ev.ref == ack && ev.status == status && ev.filledQty == 0.0
    ensures Refusable(db, ev, lotId) <==> AckRefusable(db, ack, status)
  {
    assert ack.clientOrderId in db.orders ==> RowOk(db.orders[ack.clientOrderId]);
  }

  lemma RejectionIsTaken(db: Db, ev: Event, lotId: string, now: Instant)
    requires Valid(db) && ev.ref.clientOrderId in db.orders
    requires ev.status == Rejected && ev.filledQty == 0.0 && ev.ref.venueOrderId == ""
    ensures ApplyEvent(db, Local, ev, lotId, now).Ok?
  {
    ApplyFailsIff(db, Local, ev, lotId, now);
    assert RowOk(db.orders[ev.ref.clientOrderId]);
  }

  /** A rejection without a fill is always taken, and ends an order that has not ended. */
  lemma RejectionMoves(db: Db, ev: Event, lotId: string, now: Instant)
    requires Valid(db) && ev.ref.clientOrderId in db.orders
    requires ev.status == Rejected && ev.filledQty == 0.0 && ev.ref.venueOrderId == ""
    ensures Moved(db, Exec(db, Apply(Local, ev, lotId, now)), Local, ev)
  {
    RejectionIsTaken(db, ev, lotId, now);
    FilllessEventMoves(db, Local, ev, lotId, now);
  }

  /** The order is rejected, unless it had ended, and keeps its fill and venue order ID. */
  ghost predicate RejectedIn(db: Db, db': Db, id: string, reason: string, now: Instant) {
    && id in db.orders && id in db'.orders
    && MovedOnly(db, db', id, Local, now, reason)
    && db'.orders[id].status == (if Machine.Ends(db.orders[id].status) then db.orders[id].status else Rejected)
    && db'.orders[id].venueOrderId == db.orders[id].venueOrderId
  }

  lemma MovedIsRejected(db: Db, db': Db, ev: Event)
    requires Moved(db, db', Local, ev) && ev.status == Rejected && ev.ref.venueOrderId == ""
    requires RowOk(db.orders[ev.ref.clientOrderId])
    ensures RejectedIn(db, db', ev.ref.clientOrderId, ev.reason, ev.at)
  {
  }

  lemma RejectEventSays(req: Request, reason: string, now: Instant)
    ensures var ev := RejectEvent(req, reason, now);
            && ev.ref.clientOrderId == req.clientOrderId && ev.ref.venueOrderId == "" && ev.status == Rejected
            && ev.filledQty == 0.0 && ev.reason == "submit failed: " + reason && ev.at == now
  {
  }

  /** A local rejection moves its order to rejected, unless it has ended, with the refusal as the reason. */
  lemma RejectionIsStored(s: State, c: nat, lotId: string, now: Instant)
    requires Inv(s) && Enabled(s, Reject(c, lotId, now))
    ensures RejectedIn(s.db, Do(s, Reject(c, lotId, now)).db, s.calls[c].req.clientOrderId,
                       "submit failed: " + s.calls[c].phase.reason, now)
  {
    var ev := RejectEvent(s.calls[c].req, s.calls[c].phase.reason, now);
    RejectEventSays(s.calls[c].req, s.calls[c].phase.reason, now);
    assert CallOk(s.db.orders, s.calls[c]);
    assert RowOk(s.db.orders[ev.ref.clientOrderId]);
    RejectionMoves(s.db, ev, lotId, now);
    MovedIsRejected(s.db, Exec(s.db, Apply(Local, ev, lotId, now)), ev);
  }

  /** The order exists at the venue, and is stored for the request with the status and ID the venue gave it. */
  ghost predicate Placed(s': State, req: Request, ack: Ref, status: Status) {
    && ExistsAtVenue(s'.created, req.clientOrderId) && req.clientOrderId in s'.db.orders
    && var row := s'.db.orders[req.clientOrderId];
       && StoredFor(row, req) && row.filledQty == 0.0
       && row.status == (if Machine.Later(status, Pending) then status else Pending)
       && row.venueOrderId == if ack.venueOrderId == "" then None else Some(ack.venueOrderId)
  }

  lemma AckPlaces(s: State, c: nat, lotId: string, now: Instant)
    requires Inv(s) && Enabled(s, ApplyAck(c, lotId, now))
    requires var p, req := s.calls[c].phase, s.calls[c].req;
             && p.ack.clientOrderId == req.clientOrderId && !AckRefusable(s.db, p.ack, p.status)
             && StoredFor(s.db.orders[req.clientOrderId], req) && ExistsAtVenue(s.created, req.clientOrderId)
             && s.db.orders[req.clientOrderId].status == Pending && s.db.orders[req.clientOrderId].filledQty == 0.0
             && s.db.orders[req.clientOrderId].venueOrderId.None?
    ensures Placed(Do(s, ApplyAck(c, lotId, now)), s.calls[c].req, s.calls[c].phase.ack, s.calls[c].phase.status)
  {
    AckIsStored(s, c, lotId, now);
    AckKeepsRequest(s, c, lotId, now);
  }

  /** A new order that its venue accepts is stored as asked, with the status and ID the venue gave it. */
  lemma PlacedIsStored(s: State, s1: State, s2: State, s3: State, c: nat, asked: Request, generatedId: string, ack: Ref,
                       status: Status, at: Instant, lotId: string, t1: Instant, t2: Instant)
    requires Inv(s) && Enabled(s, Begin(c, asked, generatedId)) && s1 == Do(s, Begin(c, asked, generatedId))
    requires Enabled(s1, Insert(c, true, t1)) && s2 == Do(s1, Insert(c, true, t1))
    requires Supported(asked) && s1.calls[c].req.clientOrderId !in s.db.orders
    requires Enabled(s2, Send(c, true, Accepted(ack, status, at)))
    requires s3 == Do(s2, Send(c, true, Accepted(ack, status, at)))
    requires ack.clientOrderId == s1.calls[c].req.clientOrderId && !AckRefusable(s3.db, ack, status)
    ensures InPhase(s3, c, Acked(ack, status, at))
    ensures Placed(Do(s3, ApplyAck(c, lotId, t2)), s1.calls[c].req, ack, status)
    ensures AskedFor(asked, generatedId, s1.calls[c].req)
  {
    CallGoesOn(s, Begin(c, asked, generatedId));
    CallGoesOn(s1, Insert(c, true, t1));
    CallGoesOn(s2, Send(c, true, Accepted(ack, status, at)));
    StepKeeps(s, Begin(c, asked, generatedId));
    StepKeeps(s1, Insert(c, true, t1));
    StepKeeps(s2, Send(c, true, Accepted(ack, status, at)));
    AckPlaces(s3, c, lotId, t2);
  }

  /** An acknowledgement rewrites nothing of the request. */
  lemma AckKeepsRequest(s: State, c: nat, lotId: string, now: Instant)
    requires Inv(s) && Enabled(s, ApplyAck(c, lotId, now))
    ensures var s' := Do(s, ApplyAck(c, lotId, now));
            && s'.created == s.created
            && forall id, req :: id in s.db.orders && StoredFor(s.db.orders[id], req) ==>
                 id in s'.db.orders && StoredFor(s'.db.orders[id], req)
  {
    var p := s.calls[c].phase;
    ExecKeepsIdentity(s.db, Apply(Ack, AckEvent(p.ack, p.status, p.acceptedAt, now), lotId, now));
  }
}

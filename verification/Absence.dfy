/**
 When a local rejection means that no venue holds the order. A refusal for good says that its
 own submit was not received; it says nothing of other attempts, nor of other calls that are
 still to submit under the same ID.
 */
module Absence {
  import opened Prelude
  import opened Domain
  import opened Store
  import opened StoreInvariant
  import opened StoreRuns
  import opened Placement
  import Machine

  // ---------- Absence at one moment ----------

  /** An order exists at a venue exactly when one of its submits arrived. */
  lemma ExistsIffArrived(actions: seq<Action>, id: string)
    ensures var s := After(actions); ExistsAtVenue(s.created, id) <==> Arrived(s.submits, id)
  {
    EveryScheduleKeepsInv(actions);
  }

  /** A venue that refuses for good has not taken the order, and one that accepts has. */
  predicate LawfulAnswer(received: bool, answer: Answer) {
    match answer
    case Accepted(_, _, _) => received
    case Permanent(_) => !received
    case Ambiguous => true
  }

  predicate Lawful(actions: seq<Action>) {
    forall i :: 0 <= i < |actions| && actions[i].Send? ==> LawfulAnswer(actions[i].received, actions[i].answer)
  }

  /** What the service can see of a submit. */
  datatype Reply = Reply(call: nat, req: Request, answer: Answer)

  function Replies(submits: seq<Submit>): seq<Reply> {
    seq(|submits|, i requires 0 <= i < |submits| => Reply(submits[i].call, submits[i].req, submits[i].answer))
  }

  /** Two states the service cannot tell apart. */
  predicate LooksLike(s: State, s': State) {
    s.db == s'.db && s.calls == s'.calls && Replies(s.submits) == Replies(s'.submits)
  }

  /** No venue that obeys the law can hold the order, whatever happened out of sight. */
  ghost predicate CertainlyAbsent(actions: seq<Action>, id: string) {
    forall others :: Lawful(others) && LooksLike(After(actions), After(others)) ==>
        !ExistsAtVenue(After(others).created, id)
  }

  /** No submit under the ID was accepted or left ambiguous. */
  predicate AllRefused(submits: seq<Submit>, id: string) {
    forall i :: 0 <= i < |submits| && submits[i].req.clientOrderId == id ==> submits[i].answer.Permanent?
  }

  lemma {:induction false} LawfulSubmits(actions: seq<Action>, i: nat)
    requires Lawful(actions) && i < |After(actions).submits|
    ensures LawfulAnswer(After(actions).submits[i].received, After(actions).submits[i].answer)
  {
    var init, a := actions[..|actions| - 1], actions[|actions| - 1];
    if i < |After(init).submits| {
      LawfulSubmits(init, i);
    }
  }

  lemma RefusedLooksRefused(s: State, s': State, id: string)
    requires LooksLike(s, s') && AllRefused(s.submits, id)
    ensures AllRefused(s'.submits, id)
  {
    forall i | 0 <= i < |s'.submits| && s'.submits[i].req.clientOrderId == id ensures s'.submits[i].answer.Permanent? {
      assert Replies(s.submits)[i] == Replies(s'.submits)[i];
    }
  }

  /** The same run, had every ambiguous submit arrived. */
  function Arriving(actions: seq<Action>): seq<Action> {
    seq(|actions|, i requires 0 <= i < |actions| => WouldArrive(actions[i]))
  }

  function WouldArrive(a: Action): Action {
    if a.Send? && a.answer.Ambiguous? then a.(received := true) else a
  }

  /** `s'` is `s` with its ambiguous submits received. */
  ghost predicate Twins(s: State, s': State) {
    && s'.db == s.db && s'.calls == s.calls && |s'.submits| == |s.submits|
    && forall i :: 0 <= i < |s.submits| ==>
         s'.submits[i] == s.submits[i].(received := s.submits[i].received || s.submits[i].answer.Ambiguous?)
  }

  lemma StepKeepsTwins(s: State, s': State, a: Action)
    requires Twins(s, s') && Enabled(s, a)
    ensures Enabled(s', WouldArrive(a)) && Twins(Do(s, a), Do(s', WouldArrive(a)))
  {
  }

  lemma {:induction false} ArrivingIsTwin(actions: seq<Action>)
    ensures Twins(After(actions), After(Arriving(actions)))
  {
    if actions != [] {
      var n := |actions| - 1;
      ArrivingIsTwin(actions[..n]);
      assert Arriving(actions)[..n] == Arriving(actions[..n]);
      if Enabled(After(actions[..n]), actions[n]) {
        StepKeepsTwins(After(actions[..n]), After(Arriving(actions[..n])), actions[n]);
      }
    }
  }

  lemma TwinsLookAlike(s: State, s': State)
    requires Twins(s, s')
    ensures LooksLike(s, s')
  {
    assert Replies(s.submits) == Replies(s'.submits);
  }

  /**
   In a lawful run the absence of an order at its venue is certain if and only if every submit
   under its ID was refused for good. This speaks of one moment: a call about to submit can
   change it at the next.
   */
  lemma AbsenceIsCertainIff(actions: seq<Action>, id: string)
    requires Lawful(actions)
    ensures CertainlyAbsent(actions, id) <==> AllRefused(After(actions).submits, id)
  {
    var s := After(actions);
    if AllRefused(s.submits, id) {
      forall others | Lawful(others) && LooksLike(s, After(others)) ensures !ExistsAtVenue(After(others).created, id) {
        RefusedIsAbsent(s, others, id);
      }
    } else {
      var i :| 0 <= i < |s.submits| && s.submits[i].req.clientOrderId == id && !s.submits[i].answer.Permanent?;
      UnrefusedMayExist(actions, id, i);
    }
  }

  lemma RefusedIsAbsent(s: State, others: seq<Action>, id: string)
    requires AllRefused(s.submits, id) && Lawful(others) && LooksLike(s, After(others))
    ensures !ExistsAtVenue(After(others).created, id)
  {
    var s' := After(others);
    RefusedLooksRefused(s, s', id);
    ExistsIffArrived(others, id);
    forall i | 0 <= i < |s'.submits| && s'.submits[i].req.clientOrderId == id ensures !s'.submits[i].received {
      LawfulSubmits(others, i);
    }
  }

  lemma UnrefusedMayExist(actions: seq<Action>, id: string, i: nat)
    requires Lawful(actions) && i < |After(actions).submits|
    requires After(actions).submits[i].req.clientOrderId == id && !After(actions).submits[i].answer.Permanent?
    ensures !CertainlyAbsent(actions, id)
  {
    var others := Arriving(actions);
    ArrivingIsTwin(actions);
    TwinsLookAlike(After(actions), After(others));
    LawfulSubmits(actions, i);
    assert After(others).submits[i].received;
    ExistsIffArrived(others, id);
    assert Lawful(others);
  }

  // ---------- Absence for good ----------

  /** No run the service cannot tell from this one, however it goes on, has the order at a lawful venue. */
  ghost predicate AbsentForGood(actions: seq<Action>, id: string) {
    forall others, more :: Lawful(others + more) && LooksLike(After(actions), After(others)) ==>
        !ExistsAtVenue(After(others + more).created, id)
  }

  predicate NobodySubmits(calls: map<nat, Call>, id: string) {
    forall c :: c in calls && calls[c].req.clientOrderId == id ==> !calls[c].phase.Submitting?
  }

  /** A call could still come to submit under the ID. Calls name a bot, so none matches a row without one. */
  predicate OpenToSubmits(orders: map<string, OrderRow>, id: string) {
    id !in orders || (Resubmittable(orders[id]) && orders[id].bot != "")
  }

  /** The order does not exist and nothing can submit it any more. */
  ghost predicate Closed(s: State, id: string) {
    && !ExistsAtVenue(s.created, id) && NobodySubmits(s.calls, id) && !OpenToSubmits(s.db.orders, id)
    && forall c :: c in s.calls ==> s.calls[c].req.bot != ""
  }

  lemma AfterSnoc(actions: seq<Action>, a: Action)
    ensures var s := After(actions); After(actions + [a]) == if Enabled(s, a) then Do(s, a) else s
  {
    assert (actions + [a])[..|actions|] == actions;
  }

  lemma LawfulParts(actions: seq<Action>, more: seq<Action>)
    ensures Lawful(actions + more) <==> Lawful(actions) && Lawful(more)
  {
    var all := actions + more;
    if Lawful(all) {
      assert forall i :: 0 <= i < |actions| ==> all[i] == actions[i];
      assert forall i :: 0 <= i < |more| ==> all[|actions| + i] == more[i];
    }
  }

  lemma {:induction false} CallsNameBots(actions: seq<Action>, c: nat)
    requires c in After(actions).calls
    ensures After(actions).calls[c].req.bot != ""
  {
    var init, a := actions[..|actions| - 1], actions[|actions| - 1];
    var s := After(init);
    if Enabled(s, a) {
      StepKeepsBots(s, a, c);
    }
    if c in s.calls {
      CallsNameBots(init, c);
    }
  }

  lemma StepKeepsBots(s: State, a: Action, c: nat)
    requires Enabled(s, a) && c in Do(s, a).calls
    ensures if c in s.calls then Do(s, a).calls[c].req == s.calls[c].req else Do(s, a).calls[c].req.bot != ""
  {
  }

  lemma NeverPendingAgain(s: Machine.State, ev: Event)
    requires Machine.Known(s.status) && s.status != Pending
    ensures Machine.Step(s, ev).status != Pending
  {
  }

  lemma ApplyKeepsAdvanced(db: Db, op: Op, id: string)
    requires RowsOk(db) && op.Apply? && id in db.orders && db.orders[id].status != Pending
    ensures id in Exec(db, op).orders && Exec(db, op).orders[id].status != Pending
  {
    assert RowOk(db.orders[id]);
    ApplySteps(db, op.source, op.ev, op.lotId, op.now);
    NeverPendingAgain(StateOf(db.orders[id]), op.ev);
  }

  lemma ExecKeepsAdvanced(db: Db, op: Op, id: string)
    requires RowsOk(db) && id in db.orders && db.orders[id].status != Pending
    ensures id in Exec(db, op).orders && Exec(db, op).orders[id].status != Pending
  {
    if op.Apply? {
      ApplyKeepsAdvanced(db, op, id);
    }
  }

  lemma ExecKeepsBot(db: Db, op: Op, id: string)
    requires RowsOk(db) && id in db.orders
    ensures id in Exec(db, op).orders && Exec(db, op).orders[id].bot == db.orders[id].bot
  {
    ExecKeepsIdentity(db, op);
  }

  lemma ExecKeepsClosed(db: Db, op: Op, id: string)
    requires RowsOk(db) && !OpenToSubmits(db.orders, id)
    ensures !OpenToSubmits(Exec(db, op).orders, id)
  {
    if db.orders[id].status != Pending {
      ExecKeepsAdvanced(db, op, id);
    } else if db.orders[id].bot == "" {
      ExecKeepsBot(db, op, id);
    } else {
      ExecKeepsFirsts(db, op, id);
    }
  }

  lemma InsertStaysOut(s: State, c: nat, configured: bool, now: Instant, id: string)
    requires InPhase(s, c, Inserting) && Closed(s, id)
    ensures NobodySubmits(InsertStep(s, c, configured, now).calls, id)
  {
  }

  lemma ReadStaysOut(s: State, c: nat, configured: bool, id: string)
    requires InPhase(s, c, Reading) && Closed(s, id)
    ensures NobodySubmits(ReadStep(s, c, configured).calls, id)
  {
  }

  lemma SendStaysOut(s: State, c: nat, received: bool, answer: Answer, id: string)
    requires InPhase(s, c, Submitting) && Closed(s, id)
    ensures NobodySubmits(SendStep(s, c, received, answer).calls, id)
  {
  }

  lemma StepKeepsNobody(s: State, a: Action, id: string)
    requires Enabled(s, a) && Closed(s, id)
    ensures NobodySubmits(Do(s, a).calls, id)
  {
    match a
    case Insert(c, configured, now) => InsertStaysOut(s, c, configured, now, id);
    case Read(c, configured) => ReadStaysOut(s, c, configured, id);
    case Send(c, received, answer) => SendStaysOut(s, c, received, answer, id);
    case _ =>
  }

  lemma StepKeepsRowClosed(s: State, a: Action, id: string)
    requires RowsOk(s.db) && Enabled(s, a) && !OpenToSubmits(s.db.orders, id)
    ensures !OpenToSubmits(Do(s, a).db.orders, id)
  {
    match a
    case Insert(c, _, now) => ExecKeepsClosed(s.db, Create(s.calls[c].req, now), id);
    case ApplyAck(c, lotId, now) =>
      var p := s.calls[c].phase;
      ExecKeepsClosed(s.db, Apply(Ack, AckEvent(p.ack, p.status, p.acceptedAt, now), lotId, now), id);
    case Reject(c, lotId, now) =>
      ExecKeepsClosed(s.db, Apply(Local, RejectEvent(s.calls[c].req, s.calls[c].phase.reason, now), lotId, now), id);
    case Elsewhere(op) => ExecKeepsClosed(s.db, op, id);
    case _ =>
  }

  lemma StepCreatesOthers(s: State, a: Action, id: string)
    requires Enabled(s, a) && NobodySubmits(s.calls, id) && !ExistsAtVenue(s.created, id)
    ensures !ExistsAtVenue(Do(s, a).created, id)
  {
    if a.Send? {
      SendElsewhere(s, a.call, a.received, a.answer, id);
    }
  }

  lemma SendElsewhere(s: State, c: nat, received: bool, answer: Answer, id: string)
    requires InPhase(s, c, Submitting) && NobodySubmits(s.calls, id) && !ExistsAtVenue(s.created, id)
    ensures !ExistsAtVenue(SendStep(s, c, received, answer).created, id)
  {
    assert s.calls[c].req.clientOrderId != id;
  }

  lemma StepKeepsClosed(s: State, a: Action, id: string)
    requires RowsOk(s.db) && Enabled(s, a) && Closed(s, id)
    ensures Closed(Do(s, a), id)
  {
    StepKeepsNobody(s, a, id);
    StepKeepsRowClosed(s, a, id);
    StepCreatesOthers(s, a, id);
    forall c | c in Do(s, a).calls ensures Do(s, a).calls[c].req.bot != "" {
      StepKeepsBots(s, a, c);
    }
  }

  lemma {:induction false} ClosedStays(actions: seq<Action>, more: seq<Action>, id: string)
    requires Closed(After(actions), id)
    ensures Closed(After(actions + more), id)
  {
    if more == [] {
      assert actions + more == actions;
    } else {
      var init, a := more[..|more| - 1], more[|more| - 1];
      ClosedStays(actions, init, id);
      assert actions + more == actions + init + [a];
      AfterSnoc(actions + init, a);
      EveryScheduleKeepsInv(actions + init);
      if Enabled(After(actions + init), a) {
        StepKeepsClosed(After(actions + init), a, id);
      }
    }
  }

  /** What the service can see rules the order out: the other runs that look the same are closed. */
  lemma SettledIsAbsent(actions: seq<Action>, others: seq<Action>, more: seq<Action>, id: string)
    requires var s := After(actions);
             AllRefused(s.submits, id) && NobodySubmits(s.calls, id) && !OpenToSubmits(s.db.orders, id)
    requires Lawful(others + more) && LooksLike(After(actions), After(others))
    ensures !ExistsAtVenue(After(others + more).created, id)
  {
    LawfulParts(others, more);
    RefusedIsAbsent(After(actions), others, id);
    forall c | c in After(others).calls ensures After(others).calls[c].req.bot != "" {
      CallsNameBots(others, c);
    }
    ClosedStays(others, more, id);
  }

  lemma ReceivedExists(created: seq<Request>, req: Request)
    ensures ExistsAtVenue(Received(created, req), req.clientOrderId)
  {
    if !VenueHas(created, req) {
      assert Received(created, req)[|created|] == req;
    }
  }

  /** A call about to submit may be received, by venues as lawful as before. */
  lemma SubmitterMayCreate(actions: seq<Action>, c: nat)
    requires Lawful(actions) && InPhase(After(actions), c, Submitting)
    ensures var more := [Send(c, true, Ambiguous)];
            && Lawful(actions + more)
            && ExistsAtVenue(After(actions + more).created, After(actions).calls[c].req.clientOrderId)
  {
    var more := [Send(c, true, Ambiguous)];
    LawfulParts(actions, more);
    AfterSnoc(actions, more[0]);
    ReceivedExists(After(actions).created, After(actions).calls[c].req);
  }

  /** There is always a call number left. */
  lemma {:induction false} FreshNumber(used: set<nat>) returns (c: nat)
    ensures forall x :: x in used ==> x < c
    decreases |used|
  {
    if used == {} {
      c := 0;
    } else {
      var x :| x in used;
      var d := FreshNumber(used - {x});
      c := if x < d then d else x + 1;
      assert forall y :: y in used ==> y == x || y in used - {x};
    }
  }

  /** A request that matches a stored row, or any under a free ID. */
  function Matching(orders: map<string, OrderRow>, id: string): Request {
    if id in orders then
      var row := orders[id];
      Request(id, row.bot, row.instrument, row.side, row.kind, row.price, row.qty)
    else SAMPLE.(clientOrderId := id)
  }

  lemma NewCallBegins(actions: seq<Action>, c: nat, req: Request, id: string)
    requires c !in After(actions).calls && req.clientOrderId == id && req.bot != ""
    ensures var s, s' := After(actions), After(actions + [Begin(c, req, id)]);
            s' == s.(calls := s.calls[c := Call(req, Inserting, false, None)])
  {
    AfterSnoc(actions, Begin(c, req, id));
  }

  lemma NewCallInserts(actions: seq<Action>, c: nat)
    requires InPhase(After(actions), c, Inserting)
    requires var req := After(actions).calls[c].req; !req.side.UnsupportedSide? && !req.kind.UnsupportedKind?
    ensures var s, s' := After(actions), After(actions + [Insert(c, true, 0)]);
            && c in s'.calls && s'.calls[c].req == s.calls[c].req
            && (s.calls[c].req.clientOrderId !in s.db.orders ==> InPhase(s', c, Submitting))
            && (s.calls[c].req.clientOrderId in s.db.orders ==> InPhase(s', c, Reading) && s'.db == s.db)
  {
    AfterSnoc(actions, Insert(c, true, 0));
  }

  lemma NewCallReads(actions: seq<Action>, c: nat)
    requires InPhase(After(actions), c, Reading)
    requires var s, req := After(actions), After(actions).calls[c].req;
             Backed(s.db.orders, req) && Resubmittable(s.db.orders[req.clientOrderId])
    ensures var s, s' := After(actions), After(actions + [Read(c, true)]);
            InPhase(s', c, Submitting) && s'.calls[c].req == s.calls[c].req
  {
    AfterSnoc(actions, Read(c, true));
  }

  lemma OpenRequest(actions: seq<Action>, id: string)
    requires OpenToSubmits(After(actions).db.orders, id)
    ensures var orders := After(actions).db.orders;
            var req := Matching(orders, id);
            && req.clientOrderId == id && req.bot != "" && !req.side.UnsupportedSide? && !req.kind.UnsupportedKind?
            && (id in orders ==> SameOrder(orders[id], req))
  {
    EveryScheduleKeepsInv(actions);
    assert id in After(actions).db.orders ==> RowOk(After(actions).db.orders[id]);
  }

  /** While the ID is open a new call can get as far as submitting. */
  lemma OpenCanSubmit(actions: seq<Action>, id: string) returns (longer: seq<Action>, c: nat)
    requires Lawful(actions) && OpenToSubmits(After(actions).db.orders, id)
    ensures actions <= longer && Lawful(longer) && InPhase(After(longer), c, Submitting)
    ensures After(longer).calls[c].req.clientOrderId == id
  {
    var req := Matching(After(actions).db.orders, id);
    c := FreshNumber(After(actions).calls.Keys);
    OpenRequest(actions, id);
    var begun := actions + [Begin(c, req, id)];
    var inserted := begun + [Insert(c, true, 0)];
    LawfulParts(actions, [Begin(c, req, id)]);
    LawfulParts(begun, [Insert(c, true, 0)]);
    NewCallBegins(actions, c, req, id);
    NewCallInserts(begun, c);
    longer := inserted;
    if id in After(actions).db.orders {
      LawfulParts(inserted, [Read(c, true)]);
      NewCallReads(inserted, c);
      longer := inserted + [Read(c, true)];
    }
  }

  lemma OpenMayExist(actions: seq<Action>, id: string)
    requires Lawful(actions) && OpenToSubmits(After(actions).db.orders, id)
    ensures !AbsentForGood(actions, id)
  {
    var longer, c := OpenCanSubmit(actions, id);
    SubmitterMayCreate(longer, c);
    var more := longer[|actions|..] + [Send(c, true, Ambiguous)];
    assert actions + more == longer + [Send(c, true, Ambiguous)];
    MayExist(actions, more, id);
  }

  lemma MayExist(actions: seq<Action>, more: seq<Action>, id: string)
    requires Lawful(actions + more) && ExistsAtVenue(After(actions + more).created, id)
    ensures !AbsentForGood(actions, id)
  {
    assert LooksLike(After(actions), After(actions));
  }

  lemma SubmitterMayRevive(actions: seq<Action>, id: string)
    requires Lawful(actions) && !NobodySubmits(After(actions).calls, id)
    ensures !AbsentForGood(actions, id)
  {
    var calls := After(actions).calls;
    var c :| c in calls && calls[c].req.clientOrderId == id && calls[c].phase.Submitting?;
    SubmitterMayCreate(actions, c);
    MayExist(actions, [Send(c, true, Ambiguous)], id);
  }

  lemma AbsentForGoodIsCertain(actions: seq<Action>, id: string)
    requires AbsentForGood(actions, id)
    ensures CertainlyAbsent(actions, id)
  {
    forall others | Lawful(others) && LooksLike(After(actions), After(others))
        ensures !ExistsAtVenue(After(others).created, id) {
      assert others + [] == others;
    }
  }

  /**
   In a lawful run the order is absent for good if and only if every submit under its ID was
   refused for good, no call is about to submit it, and its row lets no later call submit it.
   */
  lemma AbsentForGoodIff(actions: seq<Action>, id: string)
    requires Lawful(actions)
    ensures var s := After(actions);
            AbsentForGood(actions, id) <==>
              AllRefused(s.submits, id) && NobodySubmits(s.calls, id) && !OpenToSubmits(s.db.orders, id)
  {
    var s := After(actions);
    if AllRefused(s.submits, id) && NobodySubmits(s.calls, id) && !OpenToSubmits(s.db.orders, id) {
      forall others, more | Lawful(others + more) && LooksLike(s, After(others))
          ensures !ExistsAtVenue(After(others + more).created, id) {
        SettledIsAbsent(actions, others, more, id);
      }
    } else if AbsentForGood(actions, id) {
      AbsentForGoodIsCertain(actions, id);
      AbsenceIsCertainIff(actions, id);
      if !NobodySubmits(s.calls, id) {
        SubmitterMayRevive(actions, id);
      } else {
        OpenMayExist(actions, id);
      }
    }
  }

  /** A rejection settles a known state for good. */
  lemma RejectionSteps(s: Machine.State, ev: Event)
    requires Machine.Known(s.status) && ev.status == Rejected
    ensures Machine.Terminal(Machine.Step(s, ev).status)
  {
  }

  /** The local rejection never fails, and leaves a row that no call submits again. */
  lemma RejectCloses(db: Db, ev: Event, lotId: string, now: Instant)
    requires Valid(db) && ev.ref.clientOrderId in db.orders
    requires ev.status == Rejected && ev.filledQty == 0.0 && ev.ref.venueOrderId == ""
    ensures !OpenToSubmits(Exec(db, Apply(Local, ev, lotId, now)).orders, ev.ref.clientOrderId)
  {
    assert RowOk(db.orders[ev.ref.clientOrderId]);
    RejectionIsTaken(db, ev, lotId, now);
    ApplySteps(db, Local, ev, lotId, now);
    RejectionSteps(StateOf(db.orders[ev.ref.clientOrderId]), ev);
  }

  lemma AfterRejection(actions: seq<Action>, c: nat, lotId: string, now: Instant)
    requires Enabled(After(actions), Reject(c, lotId, now))
    ensures var s, s' := After(actions), After(actions + [Reject(c, lotId, now)]);
            var id := s.calls[c].req.clientOrderId;
            && s'.submits == s.submits && !OpenToSubmits(s'.db.orders, id)
            && s'.calls == s.calls[c := s.calls[c].(phase := Finished)]
  {
    var s := After(actions);
    EveryScheduleKeepsInv(actions);
    AfterSnoc(actions, Reject(c, lotId, now));
    assert CallOk(s.db.orders, s.calls[c]);
    RejectCloses(s.db, RejectEvent(s.calls[c].req, s.calls[c].phase.reason, now), lotId, now);
  }

  lemma FinishingSubmitsNot(calls: map<nat, Call>, c: nat, id: string)
    requires c in calls && !calls[c].phase.Submitting?
    ensures NobodySubmits(calls[c := calls[c].(phase := Finished)], id) <==> NobodySubmits(calls, id)
  {
    var calls' := calls[c := calls[c].(phase := Finished)];
    if NobodySubmits(calls', id) {
      forall d | d in calls && calls[d].req.clientOrderId == id ensures !calls[d].phase.Submitting? {
        assert d in calls';
      }
    }
  }

  /**
   The guard for settling a row after a refusal: rejecting it is right, in that no venue will
   ever hold the order, if and only if every submit under its ID was refused for good and no
   other call is about to submit it. Both are known before the rejection.
   */
  lemma RejectionIsRightIff(actions: seq<Action>, c: nat, lotId: string, now: Instant)
    requires Lawful(actions) && Enabled(After(actions), Reject(c, lotId, now))
    ensures var s := After(actions);
            var id := s.calls[c].req.clientOrderId;
            AbsentForGood(actions + [Reject(c, lotId, now)], id) <==>
              AllRefused(s.submits, id) && NobodySubmits(s.calls, id)
  {
    var s := After(actions);
    var id := s.calls[c].req.clientOrderId;
    AfterRejection(actions, c, lotId, now);
    FinishingSubmitsNot(s.calls, c, id);
    LawfulParts(actions, [Reject(c, lotId, now)]);
    AbsentForGoodIff(actions + [Reject(c, lotId, now)], id);
  }

  // ---------- Two runs ----------

  const SAMPLE: Request := Request("id", "manual", Instrument("venue", "BTC", "EUR", "BTC-EUR"), Buy, Limit, 1.0, 1.0)

  /** The first attempt arrives but looks ambiguous; the second is refused for good. */
  const MISJUDGED: seq<Action> := [
    Begin(0, SAMPLE, ""), Insert(0, true, 1), Send(0, true, Ambiguous),
    Send(0, false, Permanent("auth")), Reject(0, "lot", 2)]

  /** The one call's phase, what the venue holds, and a row still pending. */
  ghost predicate At(s: State, p: Phase, created: seq<Request>) {
    && s.calls == map[0 := Call(SAMPLE, p, true, None)]
    && s.created == created
    && "id" in s.db.orders && s.db.orders["id"] == PendingRow(SAMPLE, 1)
  }

  lemma Advance(run: seq<Action>, k: nat)
    requires k < |run|
    ensures var s, a := After(run[..k]), run[k];
            After(run[..k + 1]) == if Enabled(s, a) then Do(s, a) else s
  {
    assert run[..k + 1][..k] == run[..k];
  }

  lemma Inserts()
    ensures At(After(MISJUDGED[..2]), Submitting, [])
  {
    Advance(MISJUDGED, 0);
    Advance(MISJUDGED, 1);
  }

  lemma Arrives()
    ensures At(After(MISJUDGED[..3]), Submitting, [SAMPLE])
  {
    Inserts();
    Advance(MISJUDGED, 2);
  }

  lemma IsRefused()
    ensures At(After(MISJUDGED[..4]), Refused("auth"), [SAMPLE])
  {
    Arrives();
    Advance(MISJUDGED, 3);
  }

  /** The local rejection closes a pending row. */
  lemma RejectionApplies(db: Db)
    requires "id" in db.orders && db.orders["id"] == PendingRow(SAMPLE, 1)
    ensures var db' := Exec(db, Apply(Local, RejectEvent(SAMPLE, "auth", 2), "lot", 2));
            "id" in db'.orders && db'.orders["id"].status == Rejected
  {
  }

  /** A row rejected locally after a permanent refusal may be live at a lawful venue. */
  lemma RejectedMayExistAtVenue()
    ensures var s := After(MISJUDGED);
            && Lawful(MISJUDGED)
            && "id" in s.db.orders && s.db.orders["id"].status == Rejected
            && ExistsAtVenue(s.created, "id") && !AllRefused(s.submits, "id")
  {
    IsRefused();
    Advance(MISJUDGED, 4);
    assert MISJUDGED[..5] == MISJUDGED;
    RejectionApplies(After(MISJUDGED[..4]).db);
    assert After(MISJUDGED).created[0] == SAMPLE;
    if AllRefused(After(MISJUDGED).submits, "id") {
      RefusedIsAbsent(After(MISJUDGED), MISJUDGED, "id");
    }
  }

  /**
   Two calls for one order: the second finds the pending row of the first, which is then
   refused for good and rejects the row while the second is about to submit it.
   */
  const OVERTAKEN: seq<Action> := [
    Begin(0, SAMPLE, ""), Insert(0, true, 1), Begin(1, SAMPLE, ""), Insert(1, true, 1), Read(1, true),
    Send(0, false, Permanent("auth")), Reject(0, "lot", 2)]

  /** The phases of the two calls, the second's reading, and the submits so far. */
  ghost predicate Beside(s: State, p: Phase, q: Phase, seen: Option<OrderRow>, submits: seq<Submit>) {
    && s.calls == map[0 := Call(SAMPLE, p, true, None), 1 := Call(SAMPLE, q, false, seen)]
    && s.submits == submits
    && "id" in s.db.orders && s.db.orders["id"] == PendingRow(SAMPLE, 1)
  }

  lemma SecondBegins()
    ensures Beside(After(OVERTAKEN[..3]), Submitting, Inserting, None, [])
  {
    Advance(OVERTAKEN, 0);
    Advance(OVERTAKEN, 1);
    Advance(OVERTAKEN, 2);
  }

  lemma SecondReads()
    ensures Beside(After(OVERTAKEN[..5]), Submitting, Submitting, Some(PendingRow(SAMPLE, 1)), [])
  {
    SecondBegins();
    Advance(OVERTAKEN, 3);
    Advance(OVERTAKEN, 4);
  }

  lemma FirstIsRefused()
    ensures Beside(After(OVERTAKEN[..6]), Refused("auth"), Submitting, Some(PendingRow(SAMPLE, 1)),
                [Submit(0, SAMPLE, Permanent("auth"), false)])
  {
    SecondReads();
    Advance(OVERTAKEN, 5);
  }

  lemma FirstRejects()
    ensures var s := After(OVERTAKEN);
            && "id" in s.db.orders && s.db.orders["id"].status == Rejected
            && s.submits == [Submit(0, SAMPLE, Permanent("auth"), false)]
            && InPhase(s, 1, Submitting) && s.calls[1].req == SAMPLE
  {
    FirstIsRefused();
    Advance(OVERTAKEN, 6);
    assert OVERTAKEN[..7] == OVERTAKEN;
    RejectionApplies(After(OVERTAKEN[..6]).db);
  }

  lemma OvertakenIsLawful()
    ensures Lawful(OVERTAKEN)
  {
  }

  /** Every submit was refused and the row is rejected, and still the venue may come to have the order. */
  lemma RejectedMayComeToExist()
    ensures var s, more := After(OVERTAKEN), [Send(1, true, Ambiguous)];
            && Lawful(OVERTAKEN + more)
            && "id" in s.db.orders && s.db.orders["id"].status == Rejected
            && AllRefused(s.submits, "id") && CertainlyAbsent(OVERTAKEN, "id")
            && ExistsAtVenue(After(OVERTAKEN + more).created, "id")
  {
    FirstRejects();
    OvertakenIsLawful();
    AbsenceIsCertainIff(OVERTAKEN, "id");
    SubmitterMayCreate(OVERTAKEN, 1);
  }
}

/**
 The order state machine: a rank guard on statuses and cumulative quantities on fills.
 Folding events is shown to be a join of the two, which settles exactly when the
 arrival order of a set of venue events matters.
 */
module Machine {
  import opened Prelude
  import opened Domain

  const TERMINAL_RANK := 3

  /** None is the source's "unknown status" error. */
  function Rank(s: Status): Option<nat> {
    match s
    case Pending => Some(0)
    case Open => Some(1)
    case PartiallyFilled => Some(2)
    case Filled | Canceled | Rejected | Expired => Some(TERMINAL_RANK)
    case Unknown(_) => None
  }

  predicate Known(s: Status) {
    Rank(s).Some?
  }

  predicate Terminal(s: Status) {
    Rank(s) == Some(TERMINAL_RANK)
  }

  datatype State = State(status: Status, filledQty: Decimal)

  datatype DropReason = Stale | Duplicate | PostTerminal

  datatype Decision = Decision(
    transition: bool,
    to: Status,
    fillDelta: Decimal,
    fillAnomaly: bool,
    drop: Option<DropReason>)

  datatype MachineError = UnknownStatus(status: Status)

  function Transition(current: State, ev: Event): Result<Decision, MachineError> {
    if !Known(current.status) then
      Err(UnknownStatus(current.status))
    else if !Known(ev.status) then
      Err(UnknownStatus(ev.status))
    else
      var curRank, evRank := Rank(current.status).value, Rank(ev.status).value;
      var delta := ev.filledQty - current.filledQty;
      var fill := if delta > 0.0 && ev.status != Pending then delta else 0.0;
      Ok(
        if curRank == TERMINAL_RANK then
          Decision(false, current.status, fill, false, Some(PostTerminal))
        else if delta < 0.0 && evRank <= curRank then
          Decision(false, current.status, 0.0, false, Some(Stale))
        else if delta < 0.0 then
          Decision(true, ev.status, 0.0, true, None)
        else if evRank < curRank then
          Decision(false, current.status, fill, false, Some(Stale))
        else if evRank > curRank then
          Decision(true, ev.status, fill, false, None)
        else if ev.status == PartiallyFilled && fill > 0.0 then
          Decision(true, ev.status, fill, false, None)
        else
          Decision(false, current.status, fill, false, Some(Duplicate)))
  }

  /** The stored state after a decision; an event in error leaves it alone. */
  function Step(s: State, ev: Event): State {
    match Transition(s, ev)
    case Ok(d) => State(d.to, s.filledQty + d.fillDelta)
    case Err(_) => s
  }

  function Fold(s: State, evs: seq<Event>): State
    decreases evs
  {
    if evs == [] then s else Fold(Step(s, evs[0]), evs[1..])
  }

  const FRESH: State := State(Pending, 0.0)

  // ---------- The closed form of a fold ----------

  /** Events that carry execution facts: known and past acceptance. */
  predicate Executes(ev: Event) {
    Known(ev.status) && ev.status != Pending
  }

  /** `m` is the largest of `base` and every cumulative the events may establish. */
  ghost predicate IsPeak(m: Decimal, base: Decimal, evs: seq<Event>) {
    && base <= m
    && (forall ev :: ev in evs && Executes(ev) ==> ev.filledQty <= m)
    && (m == base || exists ev :: ev in evs && Executes(ev) && ev.filledQty == m)
  }

  function FirstTerminal(evs: seq<Event>): Option<Status> {
    if evs == [] then None
    else if Terminal(evs[0].status) then Some(evs[0].status)
    else FirstTerminal(evs[1..])
  }

  /** No known status among `base` and the events outranks `top`, which is one of them. */
  ghost predicate IsTop(top: Status, base: Status, evs: seq<Event>)
    requires Known(base)
  {
    && Known(top)
    && Rank(base).value <= Rank(top).value
    && (forall ev :: ev in evs && Known(ev.status) ==> Rank(ev.status).value <= Rank(top).value)
    && (top == base || exists ev :: ev in evs && ev.status == top)
  }

  /**
   What folding computes, without running it: the cumulative is the peak of all executing
   reports, the status is the first terminal one, and failing that the highest ranked.
   */
  ghost predicate ClosedForm(s: State, evs: seq<Event>, r: State)
    requires Known(s.status)
  {
    && IsPeak(r.filledQty, s.filledQty, evs)
    && (if Terminal(s.status) then r.status == s.status
        else match FirstTerminal(evs)
        case Some(t) => r.status == t
        case None => !Terminal(r.status) && IsTop(r.status, s.status, evs))
  }

  lemma {:induction false} FoldClosedForm(s: State, evs: seq<Event>)
    requires Known(s.status)
    ensures Known(Fold(s, evs).status)
    ensures ClosedForm(s, evs, Fold(s, evs))
    decreases evs
  {
    if evs == [] {
    } else {
      var ev, rest := evs[0], evs[1..];
      var next := Step(s, ev);
      var r := Fold(s, evs);
      FoldClosedForm(next, rest);
      assert forall e :: e in evs <==> e == ev || e in rest;
      assert IsPeak(r.filledQty, next.filledQty, rest);
    }
  }

  /** The closed form pins the state down, so it is a second definition of the fold. */
  lemma ClosedFormUnique(s: State, evs: seq<Event>, a: State, b: State)
    requires Known(s.status)
    requires ClosedForm(s, evs, a) && ClosedForm(s, evs, b)
    ensures a == b
  {
  }

  // ---------- By name ----------

  /** Statuses that end an order's life. */
  predicate Ends(s: Status) {
    s == Filled || s == Canceled || s == Rejected || s == Expired
  }

  /** The life of an order goes from pending over open and partially filled to its end. */
  predicate Later(a: Status, b: Status) {
    || (Ends(a) && (b == PartiallyFilled || b == Open || b == Pending))
    || (a == PartiallyFilled && (b == Open || b == Pending))
    || (a == Open && b == Pending)
  }

  predicate Reported(x: Status, evs: seq<Event>) {
    exists i :: 0 <= i < |evs| && evs[i].status == x
  }

  /** `x` is the first report of an end. */
  ghost predicate EndsFirst(x: Status, evs: seq<Event>) {
    exists i :: 0 <= i < |evs| && evs[i].status == x && Ends(x) && forall j :: 0 <= j < i ==> !Ends(evs[j].status)
  }

  lemma {:induction false} FirstTerminalEnds(evs: seq<Event>)
    ensures match FirstTerminal(evs)
            case Some(x) => EndsFirst(x, evs)
            case None => forall i :: 0 <= i < |evs| ==> !Ends(evs[i].status)
  {
    if evs != [] && !Terminal(evs[0].status) {
      FirstTerminalEnds(evs[1..]);
      if FirstTerminal(evs).Some? {
        var x := FirstTerminal(evs).value;
        var i :| 0 <= i < |evs| - 1 && evs[1..][i].status == x && Ends(x) &&
            forall j :: 0 <= j < i ==> !Ends(evs[1..][j].status);
        assert evs[i + 1].status == x;
        forall j | 0 <= j < i + 1 ensures !Ends(evs[j].status) {
          assert j > 0 ==> evs[j] == evs[1..][j - 1];
        }
      } else {
        forall i | 0 <= i < |evs| ensures !Ends(evs[i].status) {
          assert i > 0 ==> evs[i] == evs[1..][i - 1];
        }
      }
    }
  }

  /**
   Where a fold ends, by name. An order that has ended stays as it is; otherwise the first end
   reported counts; otherwise it is partially filled if anything ever said so, else open if
   anything said so, else pending.
   */
  lemma StatusByName(s: State, evs: seq<Event>)
    requires !s.status.Unknown?
    ensures var r := Fold(s, evs).status;
            if Ends(s.status) then r == s.status
            else if exists i :: 0 <= i < |evs| && Ends(evs[i].status) then EndsFirst(r, evs)
            else if s.status == PartiallyFilled || Reported(PartiallyFilled, evs) then r == PartiallyFilled
            else if s.status == Open || Reported(Open, evs) then r == Open
            else r == Pending
  {
    var r := Fold(s, evs).status;
    FoldClosedForm(s, evs);
    FirstTerminalEnds(evs);
    if !Ends(s.status) && FirstTerminal(evs).None? {
      TopByName(s, evs, r);
    }
  }

  lemma TopByName(s: State, evs: seq<Event>, top: Status)
    requires !s.status.Unknown? && !Ends(s.status) && !Terminal(top) && IsTop(top, s.status, evs)
    ensures !Ends(top) && !top.Unknown?
    ensures top == PartiallyFilled <==> s.status == PartiallyFilled || Reported(PartiallyFilled, evs)
    ensures top == Open || top == PartiallyFilled <==>
              s.status == Open || s.status == PartiallyFilled || Reported(Open, evs) || Reported(PartiallyFilled, evs)
  {
    forall x | Reported(x, evs) ensures exists ev :: ev in evs && ev.status == x {
      var i :| 0 <= i < |evs| && evs[i].status == x;
      assert evs[i] in evs;
    }
    if top != s.status {
      var ev :| ev in evs && ev.status == top;
      var i :| 0 <= i < |evs| && evs[i] == ev;
      assert Reported(top, evs);
    }
  }

  /** A cumulative counts once an event says more than that the order is pending. */
  predicate Counts(ev: Event) {
    !ev.status.Unknown? && ev.status != Pending
  }

  /** The fill a fold ends with is the largest cumulative that counts, or what it started with. */
  lemma FillByName(s: State, evs: seq<Event>)
    requires !s.status.Unknown?
    ensures var r := Fold(s, evs).filledQty;
            && s.filledQty <= r && (forall i :: 0 <= i < |evs| && Counts(evs[i]) ==> evs[i].filledQty <= r)
            && (r == s.filledQty || exists i :: 0 <= i < |evs| && Counts(evs[i]) && evs[i].filledQty == r)
  {
    var r := Fold(s, evs).filledQty;
    FoldClosedForm(s, evs);
    if r != s.filledQty {
      var ev :| ev in evs && Executes(ev) && ev.filledQty == r;
      var i :| 0 <= i < |evs| && evs[i] == ev;
    }
  }

  /** A decision, by name: where it leads, what it fills, and what it reports. */
  lemma DecisionByName(s: State, ev: Event)
    ensures Transition(s, ev).Ok? <==> !s.status.Unknown? && !ev.status.Unknown?
    ensures Transition(s, ev).Ok? ==>
              var d := Transition(s, ev).value;
              && d.to == (if Later(ev.status, s.status) then ev.status else s.status)
              && d.fillDelta == (if Counts(ev) && ev.filledQty > s.filledQty then ev.filledQty - s.filledQty else 0.0)
              && (d.transition <==>
                    Later(ev.status, s.status) ||
                    (ev.status == s.status == PartiallyFilled && ev.filledQty > s.filledQty))
              && (d.fillAnomaly <==> Later(ev.status, s.status) && ev.filledQty < s.filledQty)
              && d.drop == (if d.transition then None
                            else if Ends(s.status) then Some(PostTerminal)
                            else if ev.filledQty < s.filledQty || Later(s.status, ev.status) then Some(Stale)
                            else Some(Duplicate))
  {
  }

  // ---------- Order independence ----------

  ghost predicate TerminalsAgree(evs: seq<Event>) {
    forall a, b :: a in evs && b in evs && Terminal(a.status) && Terminal(b.status) ==> a.status == b.status
  }

  lemma {:induction false} FirstTerminalIsOne(evs: seq<Event>)
    ensures match FirstTerminal(evs)
            case Some(t) => Terminal(t) && exists ev :: ev in evs && ev.status == t
            case None => forall ev :: ev in evs ==> !Terminal(ev.status)
  {
    if evs == [] {
    } else if Terminal(evs[0].status) {
      assert evs[0] in evs;
    } else {
      FirstTerminalIsOne(evs[1..]);
      assert forall e :: e in evs <==> e == evs[0] || e in evs[1..];
    }
  }

  lemma SameMembers(xs: seq<Event>, ys: seq<Event>)
    requires multiset(xs) == multiset(ys)
    ensures forall ev :: ev in xs <==> ev in ys
  {
    forall ev ensures ev in xs <==> ev in ys {
      assert ev in xs <==> ev in multiset(xs);
    }
  }

  lemma AgreeingOrdersConverge(s: State, xs: seq<Event>, ys: seq<Event>)
    requires Known(s.status)
    requires multiset(xs) == multiset(ys)
    requires Terminal(s.status) || TerminalsAgree(xs)
    ensures Fold(s, xs) == Fold(s, ys)
  {
    SameMembers(xs, ys);
    FoldClosedForm(s, xs);
    FoldClosedForm(s, ys);
    FirstTerminalIsOne(xs);
    FirstTerminalIsOne(ys);
  }

  /** A terminal report delivered first decides the status for good. */
  lemma TerminalFirst(s: State, evs: seq<Event>, i: nat) returns (ys: seq<Event>)
    requires Known(s.status) && !Terminal(s.status)
    requires i < |evs| && Terminal(evs[i].status)
    ensures multiset(ys) == multiset(evs)
    ensures Fold(s, ys).status == evs[i].status
  {
    ys := [evs[i]] + (evs[..i] + evs[i + 1..]);
    assert evs == evs[..i] + [evs[i]] + evs[i + 1..];
    assert FirstTerminal(ys) == Some(evs[i].status);
    FoldClosedForm(s, ys);
  }

  ghost predicate OrderIndependent(s: State, evs: seq<Event>) {
    forall ys :: multiset(ys) == multiset(evs) ==> Fold(s, ys) == Fold(s, evs)
  }

  /**
   Delivery order is irrelevant exactly when the order is already terminal or the
   terminal reports do not contradict each other.
   */
  lemma OrderIndependentIff(s: State, evs: seq<Event>)
    requires Known(s.status)
    ensures OrderIndependent(s, evs) <==> Terminal(s.status) || TerminalsAgree(evs)
  {
    if Terminal(s.status) || TerminalsAgree(evs) {
      forall ys | multiset(ys) == multiset(evs) ensures Fold(s, ys) == Fold(s, evs) {
        AgreeingOrdersConverge(s, evs, ys);
      }
    } else {
      var a, b :| a in evs && b in evs && Terminal(a.status) && Terminal(b.status) && a.status != b.status;
      var i :| 0 <= i < |evs| && evs[i] == a;
      var j :| 0 <= j < |evs| && evs[j] == b;
      var xs := TerminalFirst(s, evs, i);
      var ys := TerminalFirst(s, evs, j);
      assert Fold(s, xs) != Fold(s, ys);
    }
  }

  // ---------- Replays ----------

  /** `s` already reflects everything `ev` could contribute. */
  predicate Absorbed(s: State, ev: Event) {
    && Known(s.status)
    && Known(ev.status)
    && (Terminal(s.status) || Rank(ev.status).value <= Rank(s.status).value)
    && (Executes(ev) ==> ev.filledQty <= s.filledQty)
  }

  lemma StepAbsorbs(s: State, ev: Event)
    requires Known(s.status) && Known(ev.status)
    ensures Absorbed(Step(s, ev), ev)
  {
  }

  lemma StepKeepsAbsorbed(s: State, ev: Event, other: Event)
    requires Absorbed(s, ev)
    ensures Absorbed(Step(s, other), ev)
  {
  }

  lemma {:induction false} FoldKeepsAbsorbed(s: State, ev: Event, evs: seq<Event>)
    requires Absorbed(s, ev)
    ensures Absorbed(Fold(s, evs), ev)
    decreases evs
  {
    if evs != [] {
      StepKeepsAbsorbed(s, ev, evs[0]);
      FoldKeepsAbsorbed(Step(s, evs[0]), ev, evs[1..]);
    }
  }

  /** An absorbed event is dropped and carries no fill, and conversely. */
  lemma AbsorbedIffDropped(s: State, ev: Event)
    requires Known(s.status) && Known(ev.status)
    ensures var d := Transition(s, ev).value;
            Absorbed(s, ev) <==> !d.transition && d.fillDelta == 0.0
  {
  }

  /** Replaying an event after any traffic whatsoever contributes nothing. */
  lemma ReplayContributesNothing(s: State, ev: Event, evs: seq<Event>)
    requires Known(s.status) && Known(ev.status)
    ensures var later := Fold(s, [ev] + evs);
            var d := Transition(later, ev);
            d.Ok? && !d.value.transition && d.value.fillDelta == 0.0 && d.value.drop.Some?
  {
    StepAbsorbs(s, ev);
    FoldKeepsAbsorbed(Step(s, ev), ev, evs);
    assert ([ev] + evs)[1..] == evs;
    AbsorbedIffDropped(Fold(s, [ev] + evs), ev);
  }
}

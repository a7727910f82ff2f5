/**
 The in-process bus: prefix subscriptions over bounded channels, one goroutine per
 subscriber, a non-blocking publish that counts what it drops. Ghost records keep, for every
 subscriber there ever was, what it was offered and what became of it.
 */
module Bus {
  import opened Prelude

  datatype Event = Event(subject: string, payload: string)

  const BUFFER: nat := 64

  /** Published events whose subject starts with the prefix, in publication order. */
  function Matching(log: seq<Event>, prefix: string): seq<Event> {
    if log == [] then []
    else
      var e := log[|log| - 1];
      Matching(log[..|log| - 1], prefix) + (if prefix <= e.subject then [e] else [])
  }

  /** The subsequence of `events` whose flag is set. */
  function Kept(events: seq<Event>, taken: seq<bool>): seq<Event>
    requires |events| == |taken|
  {
    if events == [] then []
    else
      var n := |events| - 1;
      Kept(events[..n], taken[..n]) + (if taken[n] then [events[n]] else [])
  }

  function Rejected(taken: seq<bool>): nat {
    if taken == [] then 0
    else Rejected(taken[..|taken| - 1]) + (if taken[|taken| - 1] then 0 else 1)
  }

  lemma {:induction false} KeptAndRejected(events: seq<Event>, taken: seq<bool>)
    requires |events| == |taken|
    ensures |Kept(events, taken)| + Rejected(taken) == |events|
    ensures Rejected(taken) == 0 ==> Kept(events, taken) == events
  {
    if events != [] {
      var n := |events| - 1;
      KeptAndRejected(events[..n], taken[..n]);
      assert events == events[..n] + [events[n]];
    }
  }

  /** `since` and `until` bound the part of the log published while it was registered. */
  datatype Record = Record(prefix: string, since: nat, until: Option<nat>, taken: seq<bool>, handled: seq<Event>)

  ghost predicate Dated(r: Record, log: seq<Event>) {
    r.since <= |log| && (r.until.Some? ==> r.since <= r.until.value <= |log|)
  }

  /** What this subscriber was offered: matching events published while it was registered. */
  ghost function Offered(r: Record, log: seq<Event>): seq<Event>
    requires Dated(r, log)
  {
    Matching(log[r.since..if r.until.Some? then r.until.value else |log|], r.prefix)
  }

  /** Every offered event was handled, is buffered, or was rejected; the first two keep their order. */
  ghost predicate Accounted(r: Record, buffer: seq<Event>, log: seq<Event>) {
    && Dated(r, log)
    && |r.taken| == |Offered(r, log)|
    && Kept(Offered(r, log), r.taken) == r.handled + buffer
    && |buffer| <= BUFFER
  }

  ghost predicate Numbered(records: map<nat, Record>, n: nat) {
    forall i: nat :: i in records <==> i < n
  }

  /** Rejections over all subscribers ever registered. */
  ghost function Lost(records: map<nat, Record>, n: nat): nat
    requires forall i: nat :: i < n ==> i in records
  {
    if n == 0 then 0 else Lost(records, n - 1) + Rejected(records[n - 1].taken)
  }

  lemma {:induction false} LostAfterUpdate(records: map<nat, Record>, n: nat, id: nat, r: Record)
    requires forall i: nat :: i < n ==> i in records
    ensures Lost(records[id := r], n) ==
            Lost(records, n) + (if id < n then Rejected(r.taken) - Rejected(records[id].taken) else 0)
  {
    if n > 0 {
      LostAfterUpdate(records, n - 1, id, r);
    }
  }

  lemma RejectedSnoc(taken: seq<bool>, ok: bool)
    ensures Rejected(taken + [ok]) == Rejected(taken) + (if ok then 0 else 1)
  {
    assert (taken + [ok])[..|taken|] == taken;
  }

  lemma KeptSnoc(events: seq<Event>, taken: seq<bool>, e: Event, ok: bool)
    requires |events| == |taken|
    ensures Kept(events + [e], taken + [ok]) == Kept(events, taken) + (if ok then [e] else [])
  {
    assert (events + [e])[..|events|] == events;
    assert (taken + [ok])[..|taken|] == taken;
  }

  lemma OfferedSnoc(r: Record, log: seq<Event>, e: Event)
    requires Dated(r, log)
    ensures Offered(r, log + [e]) ==
            Offered(r, log) + (if r.until.None? && r.prefix <= e.subject then [e] else [])
  {
    if r.until.None? {
      assert (log + [e])[r.since..] == log[r.since..] + [e];
      assert (log[r.since..] + [e])[..|log[r.since..]|] == log[r.since..];
      assert (log + [e])[r.since..|log| + 1] == log[r.since..] + [e];
      assert log[r.since..|log|] == log[r.since..];
    } else {
      assert (log + [e])[r.since..r.until.value] == log[r.since..r.until.value];
    }
  }

  /** What one publish does to a registered subscriber's record and buffer. */
  ghost predicate Visited(r: Record, buffer: seq<Event>, r': Record, buffer': seq<Event>, e: Event) {
    if r.prefix <= e.subject then
      var ok := |buffer| < 64;
      && r' == r.(taken := r.taken + [ok])
      && buffer' == (if ok then buffer + [e] else buffer)
    else
      r' == r && buffer' == buffer
  }

  lemma VisitedStaysAccounted(r: Record, buffer: seq<Event>, r': Record, buffer': seq<Event>, log: seq<Event>, e: Event)
    requires Accounted(r, buffer, log) && r.until.None? && Visited(r, buffer, r', buffer', e)
    ensures Accounted(r', buffer', log + [e])
  {
    OfferedSnoc(r, log, e);
    var offered := Offered(r, log);
    assert Offered(r', log + [e]) == Offered(r, log + [e]);
    if r.prefix <= e.subject {
      KeptSnoc(offered, r.taken, e, |buffer| < BUFFER);
      assert r.handled + buffer + [e] == r.handled + (buffer + [e]);
    } else {
      assert offered + [] == offered;
    }
  }

  lemma RetiredStaysAccounted(r: Record, buffer: seq<Event>, log: seq<Event>, e: Event)
    requires Accounted(r, buffer, log) && r.until.Some?
    ensures Accounted(r, buffer, log + [e])
  {
    OfferedSnoc(r, log, e);
    assert Offered(r, log) + [] == Offered(r, log);
  }

  /** A snapshot of the whole bus. */
  datatype View = View(nextID: nat, subs: map<nat, string>, buffers: map<nat, seq<Event>>, closedChannels: set<nat>,
                       dropped: nat, log: seq<Event>, records: map<nat, Record>)

  ghost predicate Consistent(v: View) {
    Shaped(v) && AllAccounted(v)
  }

  ghost predicate Shaped(v: View) {
    && Numbered(v.records, v.nextID)
    && v.buffers.Keys == v.records.Keys
    && v.subs.Keys <= v.records.Keys
    && v.closedChannels <= v.records.Keys
    && v.dropped == Lost(v.records, v.nextID)
    && forall i :: i in v.records ==> Registered(v, i)
  }

  ghost predicate AllAccounted(v: View) {
    forall i :: i in v.records && i in v.buffers ==> Accounted(v.records[i], v.buffers[i], v.log)
  }

  /** A subscriber is registered exactly while its channel is open. */
  ghost predicate Registered(v: View, i: nat)
    requires i in v.records
  {
    && (i in v.subs <==> i !in v.closedChannels)
    && (i in v.subs <==> v.records[i].until.None?)
    && (i in v.subs ==> v.subs[i] == v.records[i].prefix)
  }

  /** `v'` is `v` after `e` was offered to every registered subscriber. */
  ghost predicate Published(v: View, v': View, e: Event) {
    && v'.nextID == v.nextID && v'.subs == v.subs && v'.closedChannels == v.closedChannels
    && v'.log == v.log + [e]
    && v'.records.Keys == v.records.Keys == v.buffers.Keys == v'.buffers.Keys
    && forall i :: i in v.records ==>
         if i in v.subs then Visited(v.records[i], v.buffers[i], v'.records[i], v'.buffers[i], e)
         else v'.records[i] == v.records[i] && v'.buffers[i] == v.buffers[i]
  }

  lemma PublishKeeps(v: View, v': View, e: Event)
    requires Consistent(v) && Published(v, v', e) && v'.dropped == Lost(v'.records, v'.nextID)
    ensures Consistent(v')
  {
    forall i | i in v'.records ensures Accounted(v'.records[i], v'.buffers[i], v'.log) && Registered(v', i) {
      assert Registered(v, i);
      if i in v.subs {
        VisitedStaysAccounted(v.records[i], v.buffers[i], v'.records[i], v'.buffers[i], v.log, e);
      } else {
        RetiredStaysAccounted(v.records[i], v.buffers[i], v.log, e);
      }
    }
  }

  function Subscribed(v: View, prefix: string): View {
    v.(nextID := v.nextID + 1, subs := v.subs[v.nextID := prefix], buffers := v.buffers[v.nextID := []],
       records := v.records[v.nextID := Record(prefix, |v.log|, None, [], [])])
  }

  lemma SubscribeKeepsShape(v: View, prefix: string)
    requires Shaped(v)
    ensures Shaped(Subscribed(v, prefix))
  {
    var v', r := Subscribed(v, prefix), Record(prefix, |v.log|, None, [], []);
    LostAfterUpdate(v.records, v.nextID, v.nextID, r);
    forall i | i in v'.records ensures Registered(v', i) {
      assert i != v.nextID ==> Registered(v, i);
    }
  }

  lemma SubscribeKeeps(v: View, prefix: string)
    requires Consistent(v)
    ensures Consistent(Subscribed(v, prefix))
  {
    SubscribeKeepsShape(v, prefix);
    StartsAccounted(Record(prefix, |v.log|, None, [], []), v.log);
  }

  lemma StartsAccounted(r: Record, log: seq<Event>)
    requires r.since == |log| && r.until.None? && r.taken == [] && r.handled == []
    ensures Accounted(r, [], log)
  {
    assert log[|log|..|log|] == [];
  }

  function Unsubscribed(v: View, id: nat): View
    requires id in v.records
  {
    v.(subs := v.subs - {id}, closedChannels := v.closedChannels + {id},
       records := v.records[id := v.records[id].(until := Some(|v.log|))])
  }

  lemma UnsubscribeKeepsShape(v: View, id: nat)
    requires Shaped(v) && id in v.subs
    ensures Shaped(Unsubscribed(v, id))
  {
    var v' := Unsubscribed(v, id);
    LostAfterUpdate(v.records, v.nextID, id, v'.records[id]);
    forall i | i in v'.records ensures Registered(v', i) {
      assert Registered(v, i);
    }
  }

  lemma UnsubscribeKeeps(v: View, id: nat)
    requires Consistent(v) && id in v.subs
    ensures Consistent(Unsubscribed(v, id))
  {
    UnsubscribeKeepsShape(v, id);
    assert Registered(v, id);
    var r := v.records[id];
    assert Offered(r.(until := Some(|v.log|)), v.log) == Offered(r, v.log);
  }

  function Received(v: View, id: nat): View
    requires id in v.records && id in v.buffers && v.buffers[id] != []
  {
    var r := v.records[id];
    v.(buffers := v.buffers[id := v.buffers[id][1..]],
       records := v.records[id := r.(handled := r.handled + [v.buffers[id][0]])])
  }

  lemma ReceiveKeepsShape(v: View, id: nat)
    requires Shaped(v) && id in v.buffers && v.buffers[id] != []
    ensures Shaped(Received(v, id))
  {
    var v' := Received(v, id);
    LostAfterUpdate(v.records, v.nextID, id, v'.records[id]);
    forall i | i in v'.records ensures Registered(v', i) {
      assert Registered(v, i);
    }
  }

  lemma ReceiveKeeps(v: View, id: nat)
    requires Consistent(v) && id in v.buffers && v.buffers[id] != []
    ensures Consistent(Received(v, id)) && Received(v, id).buffers.Keys == v.buffers.Keys
  {
    ReceiveKeepsShape(v, id);
    HandledStaysAccounted(v.records[id], v.buffers[id], v.log);
  }

  lemma TurnKeeps(v: View, v': View, id: nat)
    requires Consistent(v) && id in v.buffers && v.buffers[id] != [] && id in v.records
    requires v'.records == v.records[id := v.records[id].(handled := v.records[id].handled + [v.buffers[id][0]])]
    requires v' == v.(records := v'.records, buffers := v.buffers[id := v.buffers[id][1..]])
    ensures v' == Received(v, id) && Consistent(v') && v'.buffers.Keys == v.buffers.Keys
  {
    ReceiveKeeps(v, id);
  }

  lemma HandledStaysAccounted(r: Record, buffer: seq<Event>, log: seq<Event>)
    requires Accounted(r, buffer, log) && buffer != []
    ensures Accounted(r.(handled := r.handled + [buffer[0]]), buffer[1..], log)
  {
    assert r.handled + buffer == (r.handled + [buffer[0]]) + buffer[1..];
  }

  /** A subscriber that only handled events of its buffer, oldest first. */
  ghost predicate HandedOn(r: Record, buffer: seq<Event>, r': Record, buffer': seq<Event>) {
    r' == r.(handled := r'.handled) && r.handled <= r'.handled && r'.handled + buffer' == r.handled + buffer
  }

  /** `v'` is `v` after some subscribers handled some of their buffered events. */
  ghost predicate Settled(v: View, v': View) {
    && v' == v.(buffers := v'.buffers, records := v'.records)
    && v'.records.Keys == v.records.Keys == v.buffers.Keys == v'.buffers.Keys
    && forall i :: i in v.records ==> HandedOn(v.records[i], v.buffers[i], v'.records[i], v'.buffers[i])
  }

  lemma NothingSettles(v: View)
    requires v.records.Keys == v.buffers.Keys
    ensures Settled(v, v)
  {
  }

  lemma HandsOnOne(r: Record, buffer: seq<Event>, r': Record, buffer': seq<Event>)
    requires HandedOn(r, buffer, r', buffer') && buffer' != []
    ensures HandedOn(r, buffer, r'.(handled := r'.handled + [buffer'[0]]), buffer'[1..])
  {
    assert (r'.handled + [buffer'[0]]) + buffer'[1..] == r'.handled + buffer';
  }

  lemma TurnSettles(v: View, v': View, id: nat)
    requires Settled(v, v') && id in v'.records && v'.buffers[id] != []
    ensures Settled(v, Received(v', id))
  {
    HandsOnOne(v.records[id], v.buffers[id], v'.records[id], v'.buffers[id]);
  }

  /** Midway through a publish: the subscribers in `pending` are still to be visited. */
  ghost predicate Offering(v: View, v': View, pending: set<nat>, e: Event) {
    && v'.records.Keys == v.records.Keys == v.buffers.Keys == v'.buffers.Keys
    && forall i :: i in v.records ==>
         if i in v.subs && i !in pending then Visited(v.records[i], v.buffers[i], v'.records[i], v'.buffers[i], e)
         else v'.records[i] == v.records[i] && v'.buffers[i] == v.buffers[i]
  }

  lemma OfferingAdvances(v: View, v1: View, v2: View, pending: set<nat>, id: nat, e: Event)
    requires Offering(v, v1, pending + {id}, e) && id !in pending && id in v.subs && id in v.records
    requires id in v2.records && id in v2.buffers
    requires v2.records == v1.records[id := v2.records[id]] && v2.buffers == v1.buffers[id := v2.buffers[id]]
    requires Visited(v1.records[id], v1.buffers[id], v2.records[id], v2.buffers[id], e)
    ensures Offering(v, v2, pending, e)
  {
  }

  class InProc {
    var nextID: nat
    var subs: map<nat, string>
    var buffers: map<nat, seq<Event>>
    var closedChannels: set<nat>
    var dropped: nat
    var closed: bool
    /** Subscribers whose goroutine has not returned. */
    var running: set<nat>
    ghost var log: seq<Event>
    ghost var records: map<nat, Record>

    ghost function Now(): View
      reads this
    {
      View(nextID, subs, buffers, closedChannels, dropped, log, records)
    }

    ghost predicate Valid()
      reads this
    {
      Consistent(Now()) && running <= buffers.Keys
    }

    constructor ()
      ensures Valid() && log == [] && nextID == 0 && !closed && running == {}
    {
      nextID, subs, buffers, closedChannels, dropped, closed, running := 0, map[], map[], {}, 0, false, {};
      log, records := [], map[];
    }

    /** A non-blocking send; sending on a closed channel would panic. */
    method Send(id: nat, e: Event) returns (ok: bool)
      requires id in buffers && id !in closedChannels
      modifies this`buffers
      ensures ok == (|old(buffers)[id]| < BUFFER)
      ensures buffers == if ok then old(buffers)[id := old(buffers)[id] + [e]] else old(buffers)
    {
      ok := |buffers[id]| < BUFFER;
      if ok {
        buffers := buffers[id := buffers[id] + [e]];
      }
    }

    /** What the publish loop does for one subscriber. */
    method Offer(id: nat, e: Event)
      requires id in subs && id in buffers && id !in closedChannels
      requires id in records && subs[id] == records[id].prefix
      requires Numbered(records, nextID) && dropped == Lost(records, nextID)
      modifies this`buffers, this`dropped, this`records
      ensures id in records && id in buffers
      ensures Visited(old(records)[id], old(buffers)[id], records[id], buffers[id], e)
      ensures records == old(records)[id := records[id]] && buffers == old(buffers)[id := buffers[id]]
      ensures dropped == Lost(records, nextID)
    {
      if subs[id] <= e.subject {
        var ok := Send(id, e);
        if !ok {
          dropped := dropped + 1;
        }
        ghost var r := records[id].(taken := records[id].taken + [ok]);
        LostAfterUpdate(records, nextID, id, r);
        RejectedSnoc(records[id].taken, ok);
        records := records[id := r];
      }
    }

    /** The publish loop, over the subscribers in any order. */
    method OfferToAll(e: Event)
      requires Shaped(Now())
      modifies this`buffers, this`dropped, this`records
      ensures Offering(old(Now()), Now(), {}, e)
      ensures dropped == Lost(records, nextID)
    {
      ghost var before := Now();
      var pending := subs.Keys;
      while pending != {}
        invariant pending <= subs.Keys
        invariant Offering(before, Now(), pending, e)
        invariant dropped == Lost(records, nextID)
        decreases |pending|
      {
        var id :| id in pending;
        ghost var earlier := Now();
        assert Registered(before, id);
        assert pending == pending - {id} + {id};
        pending := pending - {id};
        Offer(id, e);
        OfferingAdvances(before, earlier, Now(), pending, id, e);
      }
    }

    method Publish(e: Event)
      requires Valid()
      modifies this`buffers, this`dropped, this`log, this`records
      ensures Valid()
      ensures if closed then Now() == old(Now()) else Published(old(Now()), Now(), e)
    {
      if closed {
        return;
      }
      ghost var before := Now();
      OfferToAll(e);
      log := log + [e];
      PublishKeeps(before, Now(), e);
    }

    method Subscribe(prefix: string) returns (id: nat)
      requires Valid()
      modifies this`nextID, this`subs, this`buffers, this`records, this`running
      ensures Valid()
      ensures id == old(nextID) && Now() == Subscribed(old(Now()), prefix)
      ensures running == old(running) + {id}
    {
      ghost var before := Now();
      id := nextID;
      nextID := nextID + 1;
      records := records[id := Record(prefix, |log|, None, [], [])];
      subs := subs[id := prefix];
      buffers := buffers[id := []];
      running := running + {id};
      assert Now() == Subscribed(before, prefix);
      SubscribeKeeps(before, prefix);
    }

    /** The function `Subscribe` returns; calling it twice is harmless. */
    method Unsubscribe(id: nat)
      requires Valid()
      modifies this`subs, this`closedChannels, this`records
      ensures Valid()
      ensures Now() == if id in old(subs) then Unsubscribed(old(Now()), id) else old(Now())
    {
      if id in subs {
        ghost var before := Now();
        subs := subs - {id};
        closedChannels := closedChannels + {id};
        records := records[id := records[id].(until := Some(|log|))];
        assert Now() == Unsubscribed(before, id);
        UnsubscribeKeeps(before, id);
      }
    }

    /** Hands the oldest buffered event to the handler. */
    method Handle(id: nat) returns (e: Event)
      requires Valid() && id in buffers && buffers[id] != []
      modifies this`buffers, this`records
      ensures Valid()
      ensures e == old(buffers)[id][0] && Now() == Received(old(Now()), id)
    {
      ghost var before := Now();
      e := buffers[id][0];
      records := records[id := records[id].(handled := records[id].handled + [e])];
      buffers := buffers[id := buffers[id][1..]];
      TurnKeeps(before, Now(), id);
    }

    /** Whether a goroutine's turn ends it: the select saw the shutdown, or a drained closed channel. */
    predicate Leaves(id: nat, exits: bool)
      requires id in buffers
      reads this
    {
      (closed && exits) || (buffers[id] == [] && id in closedChannels)
    }

    /**
     One turn of a subscriber's goroutine. Once the bus is closed its select may pick that
     (`exits`) over a buffered event; a drained closed channel ends it too.
     */
    method Receive(id: nat, exits: bool) returns (e: Option<Event>)
      requires Valid() && id in buffers
      modifies this`buffers, this`records, this`running
      ensures Valid()
      ensures running == if old(Leaves(id, exits)) then old(running) - {id} else old(running)
      ensures e.Some? <==> id in old(running) && !old(Leaves(id, exits)) && old(buffers)[id] != []
      ensures e.None? ==> Now() == old(Now())
      ensures e.Some? ==> e.value == old(buffers)[id][0] && Now() == Received(old(Now()), id)
    {
      e := None;
      if Leaves(id, exits) {
        running := running - {id};
      } else if id in running && buffers[id] != [] {
        var first := Handle(id);
        e := Some(first);
      }
    }

    /** A subscriber's goroutine takes the next event although the bus is closed, if there is one. */
    method LateTurn(id: nat, ghost before: View)
      requires Valid() && closed && id in running && Settled(before, Now())
      modifies this`buffers, this`records, this`running
      ensures Valid() && running <= old(running) && Settled(before, Now())
    {
      ghost var v := Now();
      var e := Receive(id, false);
      if e.Some? {
        TurnSettles(before, v, id);
      }
    }

    method LateTurns(turns: seq<nat>, ghost before: View)
      requires Valid() && closed && Settled(before, Now())
      modifies this`buffers, this`records, this`running
      ensures Valid() && Settled(before, Now())
    {
      if turns != [] {
        if turns[0] in running {
          LateTurn(turns[0], before);
        }
        LateTurns(turns[1..], before);
      }
    }

    /** Every goroutine still running sees the shutdown and returns. */
    method Wait()
      requires Valid() && closed
      modifies this`buffers, this`records, this`running
      ensures Valid() && running == {} && Now() == old(Now())
      decreases |running|
    {
      if running != {} {
        var id :| id in running;
        var e := Receive(id, true);
        Wait();
      }
    }

    /**
     Shuts down and waits for every goroutine. `turns` names the goroutines that still pick a
     buffered event over the shutdown, in order; what is left in the buffers stays unhandled.
     */
    method Close(turns: seq<nat>)
      requires Valid()
      modifies this`closed, this`buffers, this`records, this`running
      ensures Valid() && closed && running == {} && Settled(old(Now()), Now())
    {
      NothingSettles(Now());
      ghost var before := Now();
      closed := true;
      LateTurns(turns, before);
      Wait();
    }
  }

  lemma {:induction false} LostBounds(records: map<nat, Record>, n: nat, i: nat)
    requires forall k: nat :: k < n ==> k in records
    requires i < n
    ensures Rejected(records[i].taken) <= Lost(records, n)
  {
    if i < n - 1 {
      LostBounds(records, n - 1, i);
    }
  }

  /**
   The books balance for every subscriber there ever was, and when nothing was dropped every
   one of them got exactly what it was offered, in order.
   */
  lemma BooksBalance(v: View, i: nat)
    requires Consistent(v) && i < v.nextID
    ensures i in v.records && i in v.buffers && Dated(v.records[i], v.log)
    ensures var offered := Offered(v.records[i], v.log);
            && |offered| == |v.records[i].handled| + |v.buffers[i]| + Rejected(v.records[i].taken)
            && |v.buffers[i]| <= 64
            && (v.dropped == 0 ==> offered == v.records[i].handled + v.buffers[i])
  {
    assert Accounted(v.records[i], v.buffers[i], v.log);
    KeptAndRejected(Offered(v.records[i], v.log), v.records[i].taken);
    LostBounds(v.records, v.nextID, i);
  }
}

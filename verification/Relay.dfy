/** The relay's own loops: one claim, publish and mark transaction, and draining a backlog into the bus. */
module Relay {
  import opened Prelude
  import opened Outbox
  import Bus

  datatype PublishError = PublishFailed(id: nat) | MarkFailed

  /** `backlog` is the unpublished rows, in id order. */
  ghost predicate Lists(backlog: seq<nat>, rows: map<nat, Row>) {
    Rising(backlog) && forall id :: id in backlog <==> id in rows && rows[id].publishedAt.None?
  }

  lemma {:induction false} RisingIsUnique(a: seq<nat>, b: seq<nat>)
    requires Rising(a) && Rising(b) && forall id :: id in a <==> id in b
    ensures a == b
  {
    assert a != [] ==> a[0] in b;
    assert b != [] ==> b[0] in a;
    if a != [] {
      SameHead(a, b);
      var a', b' := a[1..], b[1..];
      forall id ensures id in a' <==> id in b' {
        assert id in a' <==> id in a && id != a[0];
        assert id in b' <==> id in b && id != b[0];
      }
      RisingIsUnique(a', b');
      assert a == [a[0]] + a' && b == [b[0]] + b';
    }
  }

  lemma SameHead(a: seq<nat>, b: seq<nat>)
    requires Rising(a) && Rising(b) && a != [] && b != [] && forall id :: id in a <==> id in b
    ensures a[0] == b[0]
  {
    assert a[0] in b && b[0] in a;
    var i :| 0 <= i < |a| && a[i] == b[0];
    var j :| 0 <= j < |b| && b[j] == a[0];
  }

  /** The claim query returns the head of the backlog. */
  lemma ClaimedIsHead(backlog: seq<nat>, rows: map<nat, Row>, limit: nat)
    requires Lists(backlog, rows)
    ensures Claimed(rows, limit) == Take(backlog, limit) == if |backlog| <= limit then backlog else backlog[..limit]
  {
    AscendingHolds(Unpublished(rows));
    RisingIsUnique(backlog, Ascending(Unpublished(rows)));
  }

  /** Marking what was claimed leaves the rest of the backlog, in the same order. */
  lemma MarkingAdvances(backlog: seq<nat>, rows: map<nat, Row>, n: nat, now: Instant)
    requires Lists(backlog, rows) && n <= |backlog|
    ensures Lists(backlog[n..], Marked(rows, backlog[..n], now))
  {
    var rows' := Marked(rows, backlog[..n], now);
    forall id ensures id in backlog[n..] <==> id in rows' && rows'[id].publishedAt.None? {
      assert backlog == backlog[..n] + backlog[n..];
      assert id in backlog <==> id in backlog[..n] || id in backlog[n..];
      assert !(id in backlog[..n] && id in backlog[n..]);
    }
  }

  /** The batch is marked as published now, and the other rows are as they were. */
  ghost predicate MarkedNow(before: map<nat, Row>, after: map<nat, Row>, batch: seq<nat>, now: Instant) {
    && after.Keys == before.Keys
    && forall id :: id in before ==>
         after[id] == if id in batch then before[id].(publishedAt := Some(now)) else before[id]
  }

  lemma MarkedComposes(rows: map<nat, Row>, a: seq<nat>, b: seq<nat>, now: Instant)
    ensures Marked(Marked(rows, a, now), b, now) == Marked(rows, a + b, now)
  {
  }

  predicate Clean(ids: seq<nat>, failing: set<nat>) {
    forall id :: id in ids ==> id !in failing
  }

  /** What comes before the first row whose publication fails. */
  function UpToFailure(batch: seq<nat>, failing: set<nat>): seq<nat> {
    if batch == [] || batch[0] in failing then [] else [batch[0]] + UpToFailure(batch[1..], failing)
  }

  lemma {:induction false} CleanPrefixPasses(done: seq<nat>, rest: seq<nat>, failing: set<nat>)
    requires Clean(done, failing)
    ensures UpToFailure(done + rest, failing) == done + UpToFailure(rest, failing)
  {
    if done == [] {
      assert done + rest == rest;
    } else {
      assert (done + rest)[1..] == done[1..] + rest;
      CleanPrefixPasses(done[1..], rest, failing);
      assert [done[0]] + done[1..] == done;
    }
  }

  lemma {:induction false} FailureInPrefixStops(prefix: seq<nat>, rest: seq<nat>, failing: set<nat>)
    requires prefix <= rest && !Clean(prefix, failing)
    ensures UpToFailure(rest, failing) == UpToFailure(prefix, failing) && !Clean(rest, failing)
  {
    var id :| id in prefix && id in failing;
    assert id in rest;
    if prefix[0] !in failing {
      assert id in prefix[1..];
      FailureInPrefixStops(prefix[1..], rest[1..], failing);
    }
  }

  lemma FailureStopsAll(all: seq<nat>, k: nat, batch: seq<nat>, failing: set<nat>)
    requires k <= |all| && Clean(all[..k], failing)
    requires batch <= all[k..] && !Clean(batch, failing)
    ensures UpToFailure(all, failing) == all[..k] + UpToFailure(batch, failing) && !Clean(all, failing)
  {
    assert all == all[..k] + all[k..];
    CleanPrefixPasses(all[..k], all[k..], failing);
    FailureInPrefixStops(batch, all[k..], failing);
    var id :| id in all[k..] && id in failing;
    assert id in all;
  }

  lemma BatchExtends(all: seq<nat>, k: nat, batch: seq<nat>, earlier: seq<nat>, failing: set<nat>)
    requires k + |batch| <= |all| && all[..k] + batch == all[..k + |batch|]
    requires Clean(all[..k], failing) && Clean(batch, failing)
    ensures Clean(all[..k + |batch|], failing)
    ensures earlier + all[..k] + batch == earlier + all[..k + |batch|]
  {
    forall id | id in all[..k + |batch|] ensures id !in failing {
      assert id in all[..k] || id in batch;
    }
  }

  /** A drain that has published and marked the first `k` rows of the backlog it found. */
  ghost predicate Draining(backlog: seq<nat>, before: map<nat, Row>, published: seq<nat>, k: nat,
                           rows: map<nat, Row>, history: seq<nat>, failing: set<nat>, now: Instant)
  {
    && k <= |backlog|
    && Lists(backlog[k..], rows)
    && rows == Marked(before, backlog[..k], now)
    && history == published + backlog[..k]
    && Clean(backlog[..k], failing)
  }

  lemma DrainStarts(backlog: seq<nat>, rows: map<nat, Row>, history: seq<nat>, failing: set<nat>, now: Instant)
    requires Lists(backlog, rows)
    ensures Draining(backlog, rows, history, 0, rows, history, failing, now)
  {
    assert backlog[..0] == [] && backlog[0..] == backlog;
    assert history + [] == history;
    assert Marked(rows, [], now) == rows;
  }

  lemma TakeFromSlice(backlog: seq<nat>, k: nat, limit: nat)
    requires k <= |backlog|
    ensures var rest := backlog[k..];
            var batch := Take(rest, limit);
            && k + |batch| <= |backlog|
            && (|batch| < limit ==> k + |batch| == |backlog|)
            && batch == rest[..|batch|]
            && backlog[..k] + batch == backlog[..k + |batch|]
            && rest[|batch|..] == backlog[k + |batch|..]
  {
  }

  lemma DrainAdvances(backlog: seq<nat>, before: map<nat, Row>, published: seq<nat>, k: nat,
                      rows: map<nat, Row>, history: seq<nat>, limit: nat, failing: set<nat>, now: Instant)
    requires Draining(backlog, before, published, k, rows, history, failing, now)
    requires Clean(Take(backlog[k..], limit), failing)
    ensures var batch := Take(backlog[k..], limit);
            Draining(backlog, before, published, k + |batch|, Marked(rows, batch, now), history + batch, failing, now)
  {
    var batch := Take(backlog[k..], limit);
    TakeFromSlice(backlog, k, limit);
    MarkingAdvances(backlog[k..], rows, |batch|, now);
    MarkedComposes(before, backlog[..k], batch, now);
    BatchExtends(backlog, k, batch, published, failing);
  }

  lemma PrefixInside(backlog: seq<nat>, k: nat, part: seq<nat>, earlier: seq<nat>)
    requires k <= |backlog| && part <= backlog[k..]
    ensures backlog[..k] <= backlog[..k] + part <= backlog
    ensures earlier + backlog[..k] + part == earlier + (backlog[..k] + part)
  {
    assert backlog == backlog[..k] + backlog[k..];
  }

  /** A batch that fails, in publishing or in committing, ends the drain inside the backlog. */
  lemma DrainFails(backlog: seq<nat>, before: map<nat, Row>, published: seq<nat>, k: nat,
                   rows: map<nat, Row>, history: seq<nat>, limit: nat, failing: set<nat>, now: Instant)
    requires Draining(backlog, before, published, k, rows, history, failing, now)
    ensures var batch := Take(backlog[k..], limit);
            var sent := backlog[..k] + UpToFailure(batch, failing);
            && backlog[..k] <= sent <= backlog
            && history + UpToFailure(batch, failing) == published + sent
            && (!Clean(batch, failing) ==> sent == UpToFailure(backlog, failing) && !Clean(backlog, failing))
  {
    var batch := Take(backlog[k..], limit);
    UpToFailureIsPrefix(batch, failing);
    TakeIsPrefix(backlog[k..], limit);
    PrefixInside(backlog, k, UpToFailure(batch, failing), published);
    if !Clean(batch, failing) {
      FailureStopsAll(backlog, k, batch, failing);
    }
  }

  /** What one batch makes of a drain. */
  lemma DrainTurns(backlog: seq<nat>, before: map<nat, Row>, published: seq<nat>, k: nat,
                   rows: map<nat, Row>, history: seq<nat>, limit: nat, failing: set<nat>, now: Instant)
    requires Draining(backlog, before, published, k, rows, history, failing, now)
    ensures k <= |backlog| && Lists(backlog[k..], rows) && rows == Marked(before, backlog[..k], now)
    ensures var batch := Take(backlog[k..], limit);
            var part := UpToFailure(batch, failing);
            && backlog[..k] <= backlog[..k] + part <= backlog
            && history + part == published + (backlog[..k] + part)
            && (Clean(batch, failing) ==>
                  && k + |batch| <= |backlog| && (|batch| < limit ==> k + |batch| == |backlog|)
                  && backlog[..k] + batch == backlog[..k + |batch|]
                  && Draining(backlog, before, published, k + |batch|, Marked(rows, batch, now), history + batch,
                      failing, now))
            && (!Clean(batch, failing) ==>
                  backlog[..k] + part == UpToFailure(backlog, failing) && !Clean(backlog, failing))
  {
    TakeFromSlice(backlog, k, limit);
    DrainFails(backlog, before, published, k, rows, history, limit, failing, now);
    if Clean(Take(backlog[k..], limit), failing) {
      DrainAdvances(backlog, before, published, k, rows, history, limit, failing, now);
    }
  }

  lemma {:induction false} UpToFailureIsPrefix(batch: seq<nat>, failing: set<nat>)
    ensures UpToFailure(batch, failing) <= batch
  {
    if batch != [] && batch[0] !in failing {
      UpToFailureIsPrefix(batch[1..], failing);
    }
  }

  lemma DrainEnds(backlog: seq<nat>, before: map<nat, Row>, published: seq<nat>, rows: map<nat, Row>,
                  history: seq<nat>, failing: set<nat>, now: Instant)
    requires Draining(backlog, before, published, |backlog|, rows, history, failing, now)
    ensures history == published + backlog && Clean(backlog, failing) && UpToFailure(backlog, failing) == backlog
    ensures rows == Marked(before, backlog, now) && Lists([], rows)
  {
    assert backlog[..|backlog|] == backlog == backlog + [];
    assert backlog[|backlog|..] == [];
    CleanPrefixPasses(backlog, [], failing);
  }

  /** The messages of these rows, in order. */
  function Sent(ids: seq<nat>, message: nat -> Bus.Event): seq<Bus.Event> {
    seq(|ids|, i requires 0 <= i < |ids| => message(ids[i]))
  }

  /** An open bus takes every message handed to it; a closed one takes none and says nothing. */
  ghost predicate Took(closed: bool, before: seq<Bus.Event>, after: seq<Bus.Event>, ids: seq<nat>,
                       message: nat -> Bus.Event) {
    after == if closed then before else before + Sent(ids, message)
  }

  lemma TookNothing(closed: bool, log: seq<Bus.Event>, message: nat -> Bus.Event)
    ensures Took(closed, log, log, [], message)
  {
    assert log + [] == log;
  }

  lemma TookJoins(closed: bool, a: seq<Bus.Event>, b: seq<Bus.Event>, c: seq<Bus.Event>,
                  xs: seq<nat>, ys: seq<nat>, message: nat -> Bus.Event)
    requires Took(closed, a, b, xs, message) && Took(closed, b, c, ys, message)
    ensures Took(closed, a, c, xs + ys, message)
  {
    assert Sent(xs + ys, message) == Sent(xs, message) + Sent(ys, message);
  }

  lemma TookOne(closed: bool, a: seq<Bus.Event>, b: seq<Bus.Event>, id: nat, message: nat -> Bus.Event)
    requires b == if closed then a else a + [message(id)]
    ensures Took(closed, a, b, [id], message)
  {
    assert Sent([id], message) == [message(id)];
  }

  lemma MarkingNothing(rows: map<nat, Row>, now: Instant)
    ensures Marked(rows, [], now) == rows
  {
  }

  /** The rows of a batch published so far, none of them failing. */
  ghost predicate GotTo(batch: seq<nat>, ids: seq<nat>, failing: set<nat>) {
    ids <= batch && Clean(ids, failing)
  }

  lemma GoesOn(batch: seq<nat>, ids: seq<nat>, earlier: seq<nat>, failing: set<nat>)
    requires GotTo(batch, ids, failing) && |ids| < |batch|
    ensures batch[|ids|] in failing ==> UpToFailure(batch, failing) == ids && !Clean(batch, failing)
    ensures batch[|ids|] !in failing ==> GotTo(batch, ids + [batch[|ids|]], failing)
    ensures earlier + ids + [batch[|ids|]] == earlier + (ids + [batch[|ids|]])
  {
    var rest := batch[|ids|..];
    assert batch == ids + rest && batch[|ids|] in batch;
    CleanPrefixPasses(ids, rest, failing);
  }

  lemma RunsThrough(batch: seq<nat>, ids: seq<nat>, failing: set<nat>)
    requires GotTo(batch, ids, failing) && |ids| >= |batch|
    ensures ids == batch == UpToFailure(batch, failing) && Clean(batch, failing)
  {
    assert batch == batch + [];
    CleanPrefixPasses(batch, [], failing);
  }

  /** What a drain started from. */
  datatype Drained = Drained(rows: map<nat, Row>, history: seq<nat>, log: seq<Bus.Event>)

  /** A drain that stopped short has handed over `sent`, which covers the rows it marked. */
  ghost predicate Stopped(backlog: seq<nat>, d: Drained, marked: nat, sent: seq<nat>, rows: map<nat, Row>,
                          history: seq<nat>, now: Instant) {
    && marked <= |backlog| && rows == Marked(d.rows, backlog[..marked], now)
    && history == d.history + sent && backlog[..marked] <= sent <= backlog
  }

  /** It stopped at the first row whose publication errors. */
  ghost predicate AtFailure(backlog: seq<nat>, sent: seq<nat>, failing: set<nat>) {
    sent == UpToFailure(backlog, failing) && !Clean(backlog, failing)
  }

  class Store {
    const bus: Bus.InProc
    var rows: map<nat, Row>
    var history: seq<nat>

    constructor (bus: Bus.InProc, rows: map<nat, Row>)
      ensures this.bus == bus && this.rows == rows && history == []
    {
      this.bus := bus;
      this.rows := rows;
      history := [];
    }

    /** Hands one more row's message to the bus, whose publish never reports an error. */
    method Hand(id: nat, message: nat -> Bus.Event, ghost log: seq<Bus.Event>, ghost ids: seq<nat>)
      requires bus.Valid() && Took(bus.closed, log, bus.log, ids, message)
      modifies `history, bus
      ensures bus.Valid() && bus.closed == old(bus.closed)
      ensures history == old(history) + [id]
      ensures Took(bus.closed, log, bus.log, ids + [id], message)
    {
      ghost var before := bus.log;
      bus.Publish(message(id));
      history := history + [id];
      TookOne(bus.closed, before, bus.log, id, message);
      TookJoins(bus.closed, log, before, bus.log, ids, [id], message);
    }

    /** The publish loop over a claimed batch; it stops at the first row whose publication errors. */
    method PublishAll(batch: seq<nat>, message: nat -> Bus.Event, failing: set<nat>) returns (ids: seq<nat>)
      requires bus.Valid()
      modifies `history, bus
      ensures bus.Valid() && bus.closed == old(bus.closed)
      ensures ids == UpToFailure(batch, failing) && history == old(history) + ids
      ensures ids == batch <==> Clean(batch, failing)
      ensures Took(bus.closed, old(bus.log), bus.log, ids, message)
    {
      ghost var before, log := history, bus.log;
      TookNothing(bus.closed, log, message);
      ids := [];
      assert before + [] == before;
      while |ids| < |batch|
        invariant GotTo(batch, ids, failing) && history == before + ids
        invariant bus.Valid() && bus.closed == old(bus.closed)
        invariant Took(bus.closed, log, bus.log, ids, message)
        decreases |batch| - |ids|
      {
        GoesOn(batch, ids, before, failing);
        if batch[|ids|] in failing {
          return;
        }
        Hand(batch[|ids|], message, log, ids);
        ids := ids + [batch[|ids|]];
      }
      RunsThrough(batch, ids, failing);
    }

    /**
     One claim, publish and mark transaction. `message` gives the rows' messages, `failing`
     the rows whose publication errors; `commits` says whether marking and committing succeed.
     */
    method PublishPending(limit: nat, message: nat -> Bus.Event, failing: set<nat>, commits: bool, now: Instant,
                          ghost backlog: seq<nat>) returns (r: Result<nat, PublishError>)
      requires Lists(backlog, rows) && bus.Valid()
      modifies this, bus
      ensures bus.Valid() && bus.closed == old(bus.closed)
      ensures var batch := Take(backlog, limit);
              && history == old(history) + UpToFailure(batch, failing)
              && Took(bus.closed, old(bus.log), bus.log, UpToFailure(batch, failing), message)
              && (r.Ok? <==> batch == [] || (commits && Clean(batch, failing)))
              && (r.Ok? ==>
                    && r.value == |batch| && rows == Marked(old(rows), batch, now)
                    && MarkedNow(old(rows), rows, batch, now)
                    && UpToFailure(batch, failing) == batch)
              && (r.Err? ==> rows == old(rows))
    {
      var batch := Claim(limit, backlog);
      var ids := PublishAll(batch, message, failing);
      if |batch| == 0 {
        MarkingNothing(rows, now);
        return Ok(0);
      }
      UpToFailureIsPrefix(batch, failing);
      if |ids| < |batch| {
        return Err(PublishFailed(batch[|ids|]));
      }
      if !commits {
        return Err(MarkFailed);
      }
      rows := Marked(rows, ids, now);
      return Ok(|batch|);
    }

    method Claim(limit: nat, ghost backlog: seq<nat>) returns (batch: seq<nat>)
      requires Lists(backlog, rows)
      ensures batch == Take(backlog, limit)
    {
      batch := Claimed(rows, limit);
      ClaimedIsHead(backlog, rows, limit);
    }

    /** One batch of a drain that has marked the first `marked` rows of the backlog. */
    method DrainBatch(batch: nat, message: nat -> Bus.Event, failing: set<nat>, commits: bool, now: Instant,
                      ghost backlog: seq<nat>, ghost d: Drained, ghost marked: nat)
      returns (r: Result<nat, PublishError>, ghost sent: seq<nat>)
      requires bus.Valid() && Draining(backlog, d.rows, d.history, marked, rows, history, failing, now)
      requires Took(bus.closed, d.log, bus.log, backlog[..marked], message)
      modifies this, bus
      ensures bus.Valid() && bus.closed == old(bus.closed)
      ensures Took(bus.closed, d.log, bus.log, sent, message)
      ensures r.Ok? ==>
                && Draining(backlog, d.rows, d.history, marked + r.value, rows, history, failing, now)
                && sent == backlog[..marked + r.value] && (r.value < batch ==> marked + r.value == |backlog|)
      ensures r.Err? ==> Stopped(backlog, d, marked, sent, rows, history, now)
      ensures r.Err? && commits ==> AtFailure(backlog, sent, failing)
    {
      ghost var claimed, earlier := Take(backlog[marked..], batch), bus.log;
      DrainTurns(backlog, d.rows, d.history, marked, rows, history, batch, failing, now);
      r := PublishPending(batch, message, failing, commits, now, backlog[marked..]);
      TookJoins(bus.closed, d.log, earlier, bus.log, backlog[..marked], UpToFailure(claimed, failing), message);
      sent := backlog[..marked] + UpToFailure(claimed, failing);
    }

    /** The drain's loop: batches until one comes back short, or fails. */
    method DrainLoop(batch: nat, message: nat -> Bus.Event, failing: set<nat>, commits: nat -> bool, now: Instant,
                     ghost backlog: seq<nat>, ghost d: Drained)
      returns (ok: bool, ghost sent: seq<nat>, ghost marked: nat)
      requires 1 <= batch && bus.Valid() && Draining(backlog, d.rows, d.history, 0, rows, history, failing, now)
      requires Took(bus.closed, d.log, bus.log, [], message)
      modifies this, bus
      ensures bus.Valid() && bus.closed == old(bus.closed)
      ensures Took(bus.closed, d.log, bus.log, sent, message)
      ensures ok ==> marked == |backlog| && sent == backlog[..marked]
      ensures ok ==> Draining(backlog, d.rows, d.history, marked, rows, history, failing, now)
      ensures !ok ==> Stopped(backlog, d, marked, sent, rows, history, now)
      ensures !ok && (forall j :: commits(j)) ==> AtFailure(backlog, sent, failing)
    {
      var n, round := batch, 0;
      marked := 0;
      assert backlog[..0] == [];
      while n >= batch
        invariant Draining(backlog, d.rows, d.history, marked, rows, history, failing, now)
        invariant bus.Valid() && bus.closed == old(bus.closed)
        invariant Took(bus.closed, d.log, bus.log, backlog[..marked], message)
        invariant n < batch ==> marked == |backlog|
        decreases |backlog| - marked, n
      {
        var r;
        r, sent := DrainBatch(batch, message, failing, commits(round), now, backlog, d, marked);
        if r.Err? {
          return false, sent, marked;
        }
        n, round := r.value, round + 1;
        marked := marked + n;
      }
      return true, backlog[..marked], marked;
    }

    /**
     `sent` is what was handed to the bus, a prefix of the backlog in id order, and `marked` how
     much of it is marked: never more than was sent. `commits` says which batches commit; when
     all do, only a failed publication stops the drain short of the whole backlog.
     */
    method Drain(batch: nat, message: nat -> Bus.Event, failing: set<nat>, commits: nat -> bool, now: Instant,
                 ghost backlog: seq<nat>) returns (ok: bool, ghost sent: seq<nat>, ghost marked: nat)
      requires 1 <= batch && Lists(backlog, rows) && bus.Valid()
      modifies this, bus
      ensures bus.Valid() && bus.closed == old(bus.closed)
      ensures marked <= |backlog| && backlog[..marked] <= sent <= backlog
      ensures history == old(history) + sent && MarkedNow(old(rows), rows, backlog[..marked], now)
      ensures Took(bus.closed, old(bus.log), bus.log, sent, message)
      ensures ok ==> sent == backlog && marked == |backlog| && Lists([], rows) && Clean(backlog, failing)
      ensures (forall j :: commits(j)) ==> (ok <==> Clean(backlog, failing)) && sent == UpToFailure(backlog, failing)
    {
      ghost var d := Drained(rows, history, bus.log);
      DrainStarts(backlog, rows, history, failing, now);
      TookNothing(bus.closed, bus.log, message);
      ok, sent, marked := DrainLoop(batch, message, failing, commits, now, backlog, d);
      if ok {
        DrainEnds(backlog, d.rows, d.history, rows, history, failing, now);
        assert backlog[..marked] == backlog;
      }
    }

    method DeletePublishedBefore(cutoff: Instant) returns (n: nat)
      modifies this`rows
      ensures rows == DeletedBefore(old(rows), cutoff)
      ensures forall id :: id in rows <==>
          id in old(rows) && (old(rows)[id].publishedAt.None? || old(rows)[id].publishedAt.value >= cutoff)
      ensures forall id :: id in rows ==> rows[id] == old(rows)[id]
      ensures n == |old(rows)| - |rows|
    {
      var kept := DeletedBefore(rows, cutoff);
      assert kept.Keys <= rows.Keys;
      FewerKeys(kept, rows);
      n := |rows| - |kept|;
      rows := kept;
    }
  }

  lemma FewerKeys(a: map<nat, Row>, b: map<nat, Row>)
    requires a.Keys <= b.Keys
    ensures |a| <= |b|
  {
    var extra := b.Keys - a.Keys;
    assert b.Keys == a.Keys + extra;
    assert |b.Keys| == |a.Keys| + |extra|;
  }
}

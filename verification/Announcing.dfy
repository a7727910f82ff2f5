/**
 The outbox protocol over the store: a writer's commit is a store operation, and the rows it
 inserted carry the messages of that operation. What the relay first publishes of an order is
 then a prefix of what the order's audit log announced, in its order.
 */
module Announcing {
  import opened Prelude
  import opened Domain
  import opened Store
  import opened StoreInvariant
  import opened StoreProof
  import opened StoreRuns
  import Machine
  import Outbox

  /** `content` is the message of every committed row. */
  datatype State = State(relay: Outbox.State, db: Db, content: map<nat, Message>)

  const START: State := State(Outbox.START, EMPTY, map[])

  datatype Action =
    | Step(a: Outbox.Action)
    | Commit(writer: nat, op: Op)

  /** The messages an operation adds. */
  function Added(db: Db, op: Op): seq<Message> {
    var db' := Exec(db, op);
    if |db.outbox| <= |db'.outbox| then db'.outbox[|db.outbox|..] else []
  }

  /** A writer commits the operation whose messages it inserted. */
  predicate Enabled(s: State, a: Action) {
    match a
    case Step(x) => !x.CommitWriter? && Outbox.Enabled(s.relay, x)
    case Commit(w, op) =>
      && w in s.relay.writers && s.relay.writers[w].order == OrderOf(op)
      && |s.relay.writers[w].ids| == |Added(s.db, op)|
  }

  function Contents(ids: seq<nat>, messages: seq<Message>): map<nat, Message>
    requires |ids| == |messages|
  {
    if ids == [] then map[]
    else
      var n := |ids| - 1;
      Contents(ids[..n], messages[..n])[ids[n] := messages[n]]
  }

  function Do(s: State, a: Action): State
    requires Enabled(s, a)
  {
    match a
    case Step(x) => s.(relay := Outbox.Do(s.relay, x))
    case Commit(w, op) =>
      State(Outbox.Do(s.relay, Outbox.CommitWriter(w)), Exec(s.db, op),
            s.content + Contents(s.relay.writers[w].ids, Added(s.db, op)))
  }

  function After(actions: seq<Action>): State {
    if actions == [] then START
    else
      var s, a := After(actions[..|actions| - 1]), actions[|actions| - 1];
      if Enabled(s, a) then Do(s, a) else s
  }

  // ---------- An operation's messages ----------

  ghost predicate AllOf(ms: seq<Message>, id: string) {
    forall k :: 0 <= k < |ms| ==> ms[k].order == id
  }

  lemma PersistAddsOwn(db: Db, w: Write)
    requires Decided(db, w)
    ensures var r := Persist(db, w.source, w.ev, w.d, w.lotId, w.now);
            r.Ok? ==> exists ms :: r.value.0.outbox == db.outbox + ms && AllOf(ms, w.id)
  {
    PersistWrites(db, w);
    var r := Persist(db, w.source, w.ev, w.d, w.lotId, w.now);
    if r.Ok? {
      var row := db.orders[w.id];
      var ms := Oversell(db, w, r.value.1.unmatchedQty) + Messages(w.id, row, w.source, MessageEvent(db, w), w.d);
      assert AllOf(ms, w.id);
      assert r.value.0.outbox == db.outbox + ms;
    }
  }

  lemma ExecAddsOwn(db: Db, op: Op)
    ensures exists ms :: Exec(db, op).outbox == db.outbox + ms && AllOf(ms, OrderOf(op))
  {
    var id := OrderOf(op);
    if op.Apply? && id in db.orders && Machine.Transition(StateOf(db.orders[id]), op.ev).Ok? {
      var d := Machine.Transition(StateOf(db.orders[id]), op.ev).value;
      if Persists(d) {
        PersistAddsOwn(db, Write(id, op.source, op.ev, d, op.lotId, op.now));
      }
    }
    assert Exec(db, op).outbox == db.outbox ==> Exec(db, op).outbox == db.outbox + [] && AllOf([], id);
  }

  /** Operations add messages about their own order, and only add. */
  lemma AddedIsOwn(db: Db, op: Op)
    ensures Exec(db, op).outbox == db.outbox + Added(db, op) && AllOf(Added(db, op), OrderOf(op))
  {
    ExecAddsOwn(db, op);
    var ms :| Exec(db, op).outbox == db.outbox + ms && AllOf(ms, OrderOf(op));
    assert Added(db, op) == ms;
  }

  // ---------- Rows and messages ----------

  /** Commit `k` is the row of message `k`. */
  ghost predicate Paired(r: Outbox.State, content: map<nat, Message>, outbox: seq<Message>, k: nat)
    requires k < |r.commits| == |outbox|
  {
    var id := r.commits[k];
    && id in content && content[id] == outbox[k]
    && id in r.orders && r.orders[id] == outbox[k].order
  }

  ghost predicate AllPaired(r: Outbox.State, content: map<nat, Message>, outbox: seq<Message>) {
    |r.commits| == |outbox| && forall k :: 0 <= k < |outbox| ==> Paired(r, content, outbox, k)
  }

  ghost predicate Inv(s: State) {
    Outbox.Inv(s.relay) && Valid(s.db) && AllPaired(s.relay, s.content, s.db.outbox)
  }

  lemma {:induction false} ContentsAt(ids: seq<nat>, messages: seq<Message>, k: nat)
    requires |ids| == |messages| && Outbox.Rising(ids) && k < |ids|
    ensures ids[k] in Contents(ids, messages) && Contents(ids, messages)[ids[k]] == messages[k]
  {
    var n := |ids| - 1;
    if k < n {
      ContentsAt(ids[..n], messages[..n], k);
    }
  }

  lemma {:induction false} ContentsKeys(ids: seq<nat>, messages: seq<Message>, id: nat)
    requires |ids| == |messages|
    ensures id in Contents(ids, messages) ==> id in ids
  {
    if ids != [] {
      var n := |ids| - 1;
      ContentsKeys(ids[..n], messages[..n], id);
    }
  }

  lemma OldRowStaysPaired(r: Outbox.State, content: map<nat, Message>, outbox: seq<Message>, w: nat,
                          added: seq<Message>, k: nat)
    requires Outbox.WritersOk(r) && AllPaired(r, content, outbox) && k < |outbox|
    requires w in r.writers && |r.writers[w].ids| == |added|
    ensures Paired(Outbox.Do(r, Outbox.CommitWriter(w)), content + Contents(r.writers[w].ids, added), outbox + added, k)
  {
    assert Paired(r, content, outbox, k) && Outbox.IdsOk(r, r.writers[w]);
    assert r.commits[k] in r.commits;
    ContentsKeys(r.writers[w].ids, added, r.commits[k]);
  }

  lemma NewRowIsPaired(r: Outbox.State, content: map<nat, Message>, outbox: seq<Message>, w: nat,
                       added: seq<Message>, k: nat)
    requires Outbox.WritersOk(r) && AllPaired(r, content, outbox) && k < |added|
    requires w in r.writers && |r.writers[w].ids| == |added| && AllOf(added, r.writers[w].order)
    ensures Paired(Outbox.Do(r, Outbox.CommitWriter(w)), content + Contents(r.writers[w].ids, added), outbox + added,
                |outbox| + k)
  {
    var writer := r.writers[w];
    assert Outbox.IdsOk(r, writer);
    assert writer.ids[k] in writer.ids && Outbox.SameOrder(r, writer.ids[k], writer.order);
    ContentsAt(writer.ids, added, k);
  }

  lemma CommitStaysPaired(r: Outbox.State, content: map<nat, Message>, outbox: seq<Message>, w: nat,
                          added: seq<Message>)
    requires Outbox.WritersOk(r) && AllPaired(r, content, outbox)
    requires w in r.writers && |r.writers[w].ids| == |added| && AllOf(added, r.writers[w].order)
    ensures AllPaired(Outbox.Do(r, Outbox.CommitWriter(w)), content + Contents(r.writers[w].ids, added), outbox + added)
  {
    var r', content', outbox' := Outbox.Do(r, Outbox.CommitWriter(w)), content + Contents(r.writers[w].ids, added),
        outbox + added;
    forall k | 0 <= k < |outbox'| ensures Paired(r', content', outbox', k) {
      if k < |outbox| {
        OldRowStaysPaired(r, content, outbox, w, added, k);
      } else {
        NewRowIsPaired(r, content, outbox, w, added, k - |outbox|);
      }
    }
  }

  lemma StepStaysPaired(r: Outbox.State, content: map<nat, Message>, outbox: seq<Message>, x: Outbox.Action)
    requires Outbox.WritersOk(r) && AllPaired(r, content, outbox) && Outbox.Enabled(r, x) && !x.CommitWriter?
    ensures AllPaired(Outbox.Do(r, x), content, outbox)
  {
    forall k | 0 <= k < |outbox| ensures Paired(Outbox.Do(r, x), content, outbox, k) {
      assert Paired(r, content, outbox, k);
    }
  }

  lemma {:induction false} EveryScheduleKeepsInv(actions: seq<Action>)
    ensures Inv(After(actions))
  {
    if actions == [] {
      EveryRunIsExact([]);
      Outbox.EveryScheduleDelivers([]);
    } else {
      var init, a := actions[..|actions| - 1], actions[|actions| - 1];
      var s := After(init);
      EveryScheduleKeepsInv(init);
      if Enabled(s, a) {
        StepKeepsInv(s, a);
      }
    }
  }

  lemma StepKeepsInv(s: State, a: Action)
    requires Inv(s) && Enabled(s, a)
    ensures Inv(Do(s, a))
  {
    match a
    case Step(x) =>
      Outbox.StepKeeps(s.relay, x);
      StepStaysPaired(s.relay, s.content, s.db.outbox, x);
    case Commit(w, op) =>
      Outbox.CommitKeeps(s.relay, w);
      ExecKeepsValid(s.db, op);
      AddedIsOwn(s.db, op);
      CommitStaysPaired(s.relay, s.content, s.db.outbox, w, Added(s.db, op));
  }

  // ---------- First publications ----------

  function OfOrder(ids: seq<nat>, orders: map<nat, string>, o: string): seq<nat> {
    if ids == [] then []
    else
      var last := ids[|ids| - 1];
      OfOrder(ids[..|ids| - 1], orders, o) + if last in orders && orders[last] == o then [last] else []
  }

  /** An order's rows in the order in which they were published for the first time. */
  function Firsts(history: seq<nat>, orders: map<nat, string>, o: string): seq<nat> {
    if history == [] then []
    else
      var init, last := history[..|history| - 1], history[|history| - 1];
      Firsts(init, orders, o) + if last !in init && last in orders && orders[last] == o then [last] else []
  }

  lemma {:induction false} OfOrderElements(ids: seq<nat>, orders: map<nat, string>, o: string, id: nat)
    ensures id in OfOrder(ids, orders, o) <==> id in ids && id in orders && orders[id] == o
  {
    if ids != [] {
      var n := |ids| - 1;
      OfOrderElements(ids[..n], orders, o, id);
      assert id in ids <==> id in ids[..n] || id == ids[n];
    }
  }

  lemma {:induction false} FirstsElements(history: seq<nat>, orders: map<nat, string>, o: string, id: nat)
    ensures id in Firsts(history, orders, o) <==> id in history && id in orders && orders[id] == o
  {
    if history != [] {
      var n := |history| - 1;
      FirstsElements(history[..n], orders, o, id);
      assert id in history <==> id in history[..n] || id == history[n];
    }
  }

  predicate Rises(orders: map<nat, string>, a: nat, b: nat) {
    a in orders && b in orders && orders[a] == orders[b] ==> a < b
  }

  /** Commits of one order rise. */
  ghost predicate RisesPerOrder(commits: seq<nat>, orders: map<nat, string>) {
    forall i, j :: 0 <= i < j < |commits| ==> Rises(orders, commits[i], commits[j])
  }

  lemma {:induction false} OfOrderRises(commits: seq<nat>, orders: map<nat, string>, o: string)
    requires RisesPerOrder(commits, orders)
    ensures Outbox.Rising(OfOrder(commits, orders, o))
  {
    if commits != [] {
      var n := |commits| - 1;
      var before := OfOrder(commits[..n], orders, o);
      OfOrderRises(commits[..n], orders, o);
      if commits[n] in orders && orders[commits[n]] == o {
        forall i | 0 <= i < |before| ensures before[i] < commits[n] {
          OfOrderElements(commits[..n], orders, o, before[i]);
          var k :| 0 <= k < n && commits[k] == before[i];
        }
      }
    }
  }

  /** A row of the same order with a lower id. */
  predicate BelowOf(orders: map<nat, string>, c: nat, x: nat) {
    c in orders && x in orders && orders[c] == orders[x] && c < x
  }

  /** Publication `p` finds the commits of the order below it published. */
  ghost predicate FollowsAt(s: Outbox.State, p: nat)
    requires p < |s.history|
  {
    forall c :: c in s.commits && BelowOf(s.orders, c, s.history[p]) ==> c in s.history[..p]
  }

  lemma OrderedFollows(s: Outbox.State, p: nat)
    requires p < |s.history| && Outbox.CommitsOk(s) && Outbox.NothingInvented(s) && Outbox.OrderedAt(s, p)
    ensures FollowsAt(s, p)
  {
    var x := s.history[p];
    forall c | c in s.commits && BelowOf(s.orders, c, x) ensures c in s.history[..p] {
      assert x in s.history;
      var i :| 0 <= i < |s.commits| && s.commits[i] == c;
      var j :| 0 <= j < |s.commits| && s.commits[j] == x;
    }
  }

  /** One more publication extends the prefix by the next commit of its order, or not at all. */
  lemma NextFirst(commits: seq<nat>, before: seq<nat>, x: nat)
    requires Outbox.Rising(commits) && before <= commits && x in commits && x !in before
    requires forall c :: c in commits && c < x ==> c in before
    ensures before + [x] <= commits
  {
    var q :| 0 <= q < |commits| && commits[q] == x;
    var m := |before|;
    assert m <= q by {
      assert forall i :: 0 <= i < m ==> before[i] in before && before[i] == commits[i];
    }
    assert commits[m] !in before by {
      assert forall i :: 0 <= i < m ==> before[i] == commits[i] && commits[i] < commits[m];
    }
    assert commits[m] in commits && commits[m] >= x;
  }

  lemma {:induction false} FirstsArePrefix(s: Outbox.State, o: string, p: nat)
    requires Outbox.Inv(s) && p <= |s.history|
    ensures Firsts(s.history[..p], s.orders, o) <= OfOrder(s.commits, s.orders, o)
  {
    if p > 0 {
      var x := s.history[p - 1];
      var before, commits := Firsts(s.history[..p - 1], s.orders, o), OfOrder(s.commits, s.orders, o);
      FirstsArePrefix(s, o, p - 1);
      assert s.history[..p][..p - 1] == s.history[..p - 1];
      if x !in s.history[..p - 1] && x in s.orders && s.orders[x] == o {
        NextIsFirst(s, o, p - 1);
      }
    }
  }

  lemma NextIsFirst(s: Outbox.State, o: string, p: nat)
    requires Outbox.Inv(s) && p < |s.history|
    requires s.history[p] !in s.history[..p] && s.history[p] in s.orders && s.orders[s.history[p]] == o
    requires Firsts(s.history[..p], s.orders, o) <= OfOrder(s.commits, s.orders, o)
    ensures Firsts(s.history[..p], s.orders, o) + [s.history[p]] <= OfOrder(s.commits, s.orders, o)
  {
    var x, before, commits := s.history[p], Firsts(s.history[..p], s.orders, o), OfOrder(s.commits, s.orders, o);
    assert Outbox.OrderedAt(s, p);
    OrderedFollows(s, p);
    OfOrderRises(s.commits, s.orders, o);
    OfOrderElements(s.commits, s.orders, o, x);
    FirstsElements(s.history[..p], s.orders, o, x);
    forall c | c in commits && c < x ensures c in before {
      OfOrderElements(s.commits, s.orders, o, c);
      assert BelowOf(s.orders, c, x);
      FirstsElements(s.history[..p], s.orders, o, c);
    }
    NextFirst(commits, before, x);
  }

  // ---------- What is announced ----------

  /** The messages of these rows. */
  function MessagesOf(content: map<nat, Message>, ids: seq<nat>): seq<Message>
    requires forall id :: id in ids ==> id in content
  {
    seq(|ids|, i requires 0 <= i < |ids| => content[ids[i]])
  }

  /** The messages about one order. */
  function About(outbox: seq<Message>, o: string): seq<Message> {
    if outbox == [] then []
    else
      var last := outbox[|outbox| - 1];
      About(outbox[..|outbox| - 1], o) + if last.order == o then [last] else []
  }

  lemma {:induction false} CommittedMessages(r: Outbox.State, content: map<nat, Message>, outbox: seq<Message>,
                                             o: string, n: nat)
    requires AllPaired(r, content, outbox) && n <= |r.commits|
    ensures var ids := OfOrder(r.commits[..n], r.orders, o);
            && (forall id :: id in ids ==> id in content)
            && MessagesOf(content, ids) == About(outbox[..n], o)
  {
    if n > 0 {
      CommittedMessages(r, content, outbox, o, n - 1);
      assert Paired(r, content, outbox, n - 1);
      assert r.commits[..n][..n - 1] == r.commits[..n - 1];
      assert outbox[..n][..n - 1] == outbox[..n - 1];
    }
  }

  /** The messages about an order, in the order in which they were first published. */
  function Announcements(s: State, o: string): seq<Message>
    requires forall id :: id in Firsts(s.relay.history, s.relay.orders, o) ==> id in s.content
  {
    MessagesOf(s.content, Firsts(s.relay.history, s.relay.orders, o))
  }

  lemma {:induction false} AboutKeepsUpdates(outbox: seq<Message>, o: string)
    ensures UpdatesOf(About(outbox, o), o) == UpdatesOf(outbox, o)
  {
    if outbox != [] {
      var init, last := outbox[..|outbox| - 1], outbox[|outbox| - 1];
      AboutKeepsUpdates(init, o);
      SnocMessage(init, last, o);
      SnocMessage(About(init, o), last, o);
      assert outbox == init + [last];
      assert About(outbox, o) == if last.order == o then About(init, o) + [last] else About(init, o);
    }
  }

  lemma {:induction false} UpdatesOfPrefix(a: seq<Message>, b: seq<Message>, o: string)
    requires a <= b
    ensures UpdatesOf(a, o) <= UpdatesOf(b, o)
    decreases |b|
  {
    if |a| == |b| {
      assert a == b;
    } else {
      var n := |b| - 1;
      assert a <= b[..n];
      UpdatesOfPrefix(a, b[..n], o);
      assert UpdatesOf(b[..n], o) <= UpdatesOf(b, o);
    }
  }

  /**
   Under every schedule of store operations, one relay, deletions, crashes and bus shutdowns: what
   was first published about an order is a prefix of the messages its operations committed, so
   the states it announced are those of the order's audit log, from the first, in its order.
   */
  lemma AnnouncementsFollowTheLog(actions: seq<Action>, o: string)
    ensures var s := After(actions);
            && (forall id :: id in Firsts(s.relay.history, s.relay.orders, o) ==> id in s.content)
            && Announcements(s, o) <= About(s.db.outbox, o)
            && UpdatesOf(Announcements(s, o), o) <= StatesOf(s.db.transitions, o)
  {
    var s := After(actions);
    EveryScheduleKeepsInv(actions);
    FirstsAreAnnounced(s, o);
    AboutKeepsUpdates(s.db.outbox, o);
    UpdatesOfPrefix(Announcements(s, o), About(s.db.outbox, o), o);
    UpdatesAreStates(s.db, o);
  }

  lemma UpdatesAreStates(db: Db, o: string)
    requires Valid(db)
    ensures UpdatesOf(db.outbox, o) == StatesOf(db.transitions, o)
  {
    if o in db.orders {
      assert OutboxExactFor(db, o);
    } else {
      FillsNameOrders(db);
      NothingAnnounced(db, o);
    }
  }

  lemma MessagesOfPrefix(content: map<nat, Message>, a: seq<nat>, b: seq<nat>)
    requires a <= b && forall id :: id in b ==> id in content
    ensures forall id :: id in a ==> id in content
    ensures MessagesOf(content, a) <= MessagesOf(content, b)
  {
    assert forall id :: id in a ==> id in b;
  }

  lemma FirstsAreAnnounced(s: State, o: string)
    requires Inv(s)
    ensures forall id :: id in Firsts(s.relay.history, s.relay.orders, o) ==> id in s.content
    ensures Announcements(s, o) <= About(s.db.outbox, o)
  {
    var firsts, ids := Firsts(s.relay.history, s.relay.orders, o), OfOrder(s.relay.commits, s.relay.orders, o);
    FirstsArePrefix(s.relay, o, |s.relay.history|);
    assert s.relay.history[..|s.relay.history|] == s.relay.history;
    AllCommittedMessages(s, o);
    MessagesOfPrefix(s.content, firsts, ids);
  }

  lemma NextIsNew(firsts: seq<nat>, ids: seq<nat>)
    requires firsts <= ids && Outbox.Rising(ids) && |firsts| < |ids|
    ensures ids[|firsts|] !in firsts
  {
    assert forall i :: 0 <= i < |firsts| ==> firsts[i] == ids[i] && ids[i] < ids[|firsts|];
  }

  lemma PrefixOfAll(firsts: seq<nat>, ids: seq<nat>)
    requires firsts <= ids && Outbox.Rising(ids) && forall x :: x in ids ==> x in firsts
    ensures firsts == ids
  {
    if |firsts| < |ids| {
      NextIsNew(firsts, ids);
    }
  }

  /** No row of the order waits in the table. */
  ghost predicate NoneWaits(s: Outbox.State, o: string) {
    forall id :: id in s.rows && id in s.orders && s.orders[id] == o ==> s.rows[id].publishedAt.Some?
  }

  lemma AllFirst(s: Outbox.State, o: string)
    requires Outbox.Inv(s) && NoneWaits(s, o)
    ensures Firsts(s.history, s.orders, o) == OfOrder(s.commits, s.orders, o)
  {
    var firsts, ids := Firsts(s.history, s.orders, o), OfOrder(s.commits, s.orders, o);
    FirstsArePrefix(s, o, |s.history|);
    assert s.history[..|s.history|] == s.history;
    OfOrderRises(s.commits, s.orders, o);
    forall x | x in ids ensures x in firsts {
      OfOrderElements(s.commits, s.orders, o, x);
      FirstsElements(s.history, s.orders, o, x);
    }
    PrefixOfAll(firsts, ids);
  }

  lemma AllCommittedMessages(s: State, o: string)
    requires AllPaired(s.relay, s.content, s.db.outbox)
    ensures var ids := OfOrder(s.relay.commits, s.relay.orders, o);
            && (forall id :: id in ids ==> id in s.content)
            && MessagesOf(s.content, ids) == About(s.db.outbox, o)
  {
    CommittedMessages(s.relay, s.content, s.db.outbox, o, |s.relay.commits|);
    assert s.relay.commits[..|s.relay.commits|] == s.relay.commits;
    assert s.db.outbox[..|s.db.outbox|] == s.db.outbox;
  }

  /** Once none of an order's rows waits, everything about it has been published. */
  lemma DrainedOrderIsAnnounced(actions: seq<Action>, o: string)
    requires NoneWaits(After(actions).relay, o)
    ensures var s := After(actions);
            && (forall id :: id in Firsts(s.relay.history, s.relay.orders, o) ==> id in s.content)
            && Announcements(s, o) == About(s.db.outbox, o)
            && UpdatesOf(Announcements(s, o), o) == StatesOf(s.db.transitions, o)
  {
    var s := After(actions);
    EveryScheduleKeepsInv(actions);
    AllFirst(s.relay, o);
    AllCommittedMessages(s, o);
    AboutKeepsUpdates(s.db.outbox, o);
    UpdatesAreStates(s.db, o);
  }
}

/**
 The transactional outbox and its relay. Writers insert rows inside transactions that hold
 an order's row lock; one relay claims unpublished rows in id order, publishes them one by
 one and marks the batch in the same transaction. Any of them may crash at any point.
 */
module Outbox {
  import opened Prelude

  datatype Row = Row(publishedAt: Option<Instant>)

  /** A writer's open transaction: the order it has locked and the ids it has inserted. */
  datatype Writer = Writer(order: string, ids: seq<nat>)

  datatype Relay = Idle | Publishing(batch: seq<nat>, done: nat)

  /**
   `rows` is the committed table and `history` what was handed to the bus: `taken` while it
   was `open`, `ignored` while it was closed, which a publish does not notice. `commits` and
   `orders` record every committed row, in commit order, and every id's order, for the
   statements.
   */
  datatype State = State(
    rows: map<nat, Row>,
    nextId: nat,
    writers: map<nat, Writer>,
    locks: map<string, nat>,
    relay: Relay,
    history: seq<nat>,
    open: bool,
    taken: set<nat>,
    ignored: set<nat>,
    commits: seq<nat>,
    orders: map<nat, string>)

  const START: State := State(map[], 0, map[], map[], Idle, [], true, {}, {}, [], map[])

  // ---------- The claim query ----------

  predicate IsSmallest(m: nat, s: set<nat>) {
    m in s && forall x :: x in s ==> m <= x
  }

  lemma SmallestExists(s: set<nat>) returns (m: nat)
    requires s != {}
    ensures IsSmallest(m, s)
  {
    m :| m in s;
    var rest := s - {m};
    if rest != {} {
      var n := SmallestExists(rest);
      var first := m;
      m := if n < m then n else m;
      forall x | x in s ensures m <= x {
        assert x == first || x in rest;
      }
    } else {
      forall x | x in s ensures m <= x {
        assert x == m || x in rest;
      }
    }
  }

  function Smallest(s: set<nat>): nat
    requires s != {}
  {
    SmallestWitness(s);
    var m :| m in s && IsSmallest(m, s);
    m
  }

  lemma SmallestWitness(s: set<nat>)
    requires s != {}
    ensures exists m :: m in s && IsSmallest(m, s)
  {
    var m := SmallestExists(s);
  }

  lemma SmallestHolds(s: set<nat>)
    requires s != {}
    ensures IsSmallest(Smallest(s), s)
  {
    SmallestWitness(s);
  }

  predicate Rising(ids: seq<nat>) {
    forall i, j :: 0 <= i < j < |ids| ==> ids[i] < ids[j]
  }

  function Ascending(s: set<nat>): seq<nat>
    decreases |s|
  {
    if s == {} then []
    else
      SmallestHolds(s);
      [Smallest(s)] + Ascending(s - {Smallest(s)})
  }

  lemma ConsRises(m: nat, rest: seq<nat>)
    requires Rising(rest) && forall x :: x in rest ==> m < x
    ensures Rising([m] + rest)
  {
    forall i, j | 0 <= i < j < |rest| + 1 ensures ([m] + rest)[i] < ([m] + rest)[j] {
      assert rest[j - 1] in rest;
      if i > 0 {
        assert rest[i - 1] < rest[j - 1];
      }
    }
  }

  lemma {:induction false} AscendingHolds(s: set<nat>)
    ensures forall x :: x in Ascending(s) <==> x in s
    ensures Rising(Ascending(s))
    ensures |Ascending(s)| == |s|
    decreases |s|
  {
    if s != {} {
      SmallestHolds(s);
      var m := Smallest(s);
      var rest := Ascending(s - {m});
      AscendingHolds(s - {m});
      assert Ascending(s) == [m] + rest;
      forall x ensures x in Ascending(s) <==> x in s {
        assert x in Ascending(s) <==> x == m || x in rest;
      }
      ConsRises(m, rest);
    }
  }

  function Unpublished(rows: map<nat, Row>): set<nat> {
    set id | id in rows && rows[id].publishedAt.None?
  }

  function Take(s: seq<nat>, limit: nat): seq<nat> {
    if |s| <= limit then s else s[..limit]
  }

  /** WHERE published_at IS NULL ORDER BY id LIMIT limit. */
  function Claimed(rows: map<nat, Row>, limit: nat): seq<nat> {
    Take(Ascending(Unpublished(rows)), limit)
  }

  function Marked(rows: map<nat, Row>, batch: seq<nat>, now: Instant): map<nat, Row> {
    map id | id in rows :: if id in batch then rows[id].(publishedAt := Some(now)) else rows[id]
  }

  function DeletedBefore(rows: map<nat, Row>, cutoff: Instant): map<nat, Row> {
    map id | id in rows && !(rows[id].publishedAt.Some? && rows[id].publishedAt.value < cutoff) :: rows[id]
  }

  // ---------- Steps ----------

  datatype Action =
    | Begin(writer: nat, order: string)
    | Insert(writer: nat)
    | CommitWriter(writer: nat)
    | AbortWriter(writer: nat)
    | Claim(limit: nat)
    | PublishNext
    | MarkBatch(now: Instant)
    | AbortRelay
    | Delete(cutoff: Instant)
    | CloseBus
    | Restart

  predicate Enabled(s: State, a: Action) {
    match a
    case Begin(w, o) => w !in s.writers && o !in s.locks
    case Insert(w) => w in s.writers
    case CommitWriter(w) => w in s.writers
    case AbortWriter(w) => w in s.writers
    case Claim(_) => s.relay.Idle?
    case PublishNext => s.relay.Publishing? && s.relay.done < |s.relay.batch|
    case MarkBatch(_) => s.relay.Publishing? && s.relay.done == |s.relay.batch|
    case AbortRelay => s.relay.Publishing?
    case Delete(_) => true
    case CloseBus => true
    case Restart => true
  }

  function Inserted(ids: seq<nat>): map<nat, Row> {
    map id | id in ids :: Row(None)
  }

  function Do(s: State, a: Action): State
    requires Enabled(s, a)
  {
    match a
    case Begin(w, o) =>
      s.(writers := s.writers[w := Writer(o, [])], locks := s.locks[o := w])
    case Insert(w) =>
      s.(writers := s.writers[w := Writer(s.writers[w].order, s.writers[w].ids + [s.nextId])],
         orders := s.orders[s.nextId := s.writers[w].order],
         nextId := s.nextId + 1)
    case CommitWriter(w) =>
      s.(rows := s.rows + Inserted(s.writers[w].ids),
         commits := s.commits + s.writers[w].ids,
         locks := s.locks - {s.writers[w].order},
         writers := s.writers - {w})
    case AbortWriter(w) =>
      s.(locks := s.locks - {s.writers[w].order}, writers := s.writers - {w})
    case Claim(limit) =>
      s.(relay := Publishing(Claimed(s.rows, limit), 0))
    case PublishNext =>
      var id := s.relay.batch[s.relay.done];
      s.(history := s.history + [id], relay := s.relay.(done := s.relay.done + 1),
         taken := if s.open then s.taken + {id} else s.taken,
         ignored := if s.open then s.ignored else s.ignored + {id})
    case MarkBatch(now) =>
      s.(rows := Marked(s.rows, s.relay.batch, now), relay := Idle)
    case AbortRelay =>
      s.(relay := Idle)
    case Delete(cutoff) =>
      s.(rows := DeletedBefore(s.rows, cutoff))
    case CloseBus =>
      s.(open := false)
    case Restart =>
      s.(relay := Idle, open := true)
  }

  /** Any schedule: actions that are not enabled do nothing. */
  function After(actions: seq<Action>): State {
    if actions == [] then START
    else
      var s, a := After(actions[..|actions| - 1]), actions[|actions| - 1];
      if Enabled(s, a) then Do(s, a) else s
  }

  // ---------- Invariant ----------

  ghost predicate WritersOk(s: State) {
    && (forall w :: w in s.writers ==> s.writers[w].order in s.locks && s.locks[s.writers[w].order] == w)
    && (forall w :: w in s.writers ==> IdsOk(s, s.writers[w]))
    && (forall id :: id in s.orders ==> id < s.nextId)
    && WritersDisjoint(s)
  }

  ghost predicate WritersDisjoint(s: State) {
    forall v, w, id :: v in s.writers && w in s.writers && v != w && id in s.writers[v].ids ==> id !in s.writers[w].ids
  }

  /** A writer's ids rise, belong to its order, and are above all that its order has committed. */
  ghost predicate IdsOk(s: State, w: Writer) {
    && Rising(w.ids)
    && (forall id :: id in w.ids ==> SameOrder(s, id, w.order) && id !in s.commits && AboveCommits(s, id, w.order))
  }

  ghost predicate AboveCommits(s: State, id: nat, order: string) {
    forall c :: c in s.commits && SameOrder(s, c, order) ==> c < id
  }

  predicate SameOrder(s: State, id: nat, order: string) {
    id in s.orders && s.orders[id] == order
  }

  ghost predicate CommitsOk(s: State) {
    && (forall id :: id in s.commits ==> id in s.orders)
    && (forall i, j :: 0 <= i < j < |s.commits| && s.orders[s.commits[i]] == s.orders[s.commits[j]] ==>
        s.commits[i] < s.commits[j])
    && (forall id :: id in s.rows ==> id in s.commits)
  }

  /** Every committed row is still waiting in the table or has reached the bus. */
  ghost predicate NothingLost(s: State) {
    forall id :: id in s.commits ==>
      (id in s.rows && s.rows[id].publishedAt.None?) || id in s.history
  }

  /** What was handed to the bus was taken, unless the bus was closed. */
  ghost predicate HandedOver(s: State) {
    forall id :: id in s.history ==> id in s.taken || id in s.ignored
  }

  /** Only committed rows are published. */
  ghost predicate NothingInvented(s: State) {
    forall id :: id in s.history ==> id in s.commits
  }

  /** When a row is published, rows of its order committed before it have been published. */
  ghost predicate OrderedAt(s: State, p: nat)
    requires p < |s.history|
  {
    forall i, j :: 0 <= i < j < |s.commits| && s.commits[j] == s.history[p] &&
                   s.commits[i] in s.orders && s.commits[j] in s.orders &&
                   s.orders[s.commits[i]] == s.orders[s.commits[j]] ==>
                     s.commits[i] in s.history[..p]
  }

  ghost predicate PublishedInOrder(s: State) {
    forall p :: 0 <= p < |s.history| ==> OrderedAt(s, p)
  }

  ghost predicate RelayOk(s: State) {
    s.relay.Publishing? ==>
      && s.relay.done <= |s.relay.batch|
      && (forall id :: id in s.relay.batch ==> id in s.rows && s.rows[id].publishedAt.None?)
      && (forall k :: 0 <= k < s.relay.done ==> s.relay.batch[k] in s.history)
      && (forall k :: 0 <= k < |s.relay.batch| ==> PredecessorsFirst(s, k))
  }

  /** Rows of the same order committed before batch row `k` are published, or earlier in the batch. */
  ghost predicate PredecessorsFirst(s: State, k: nat)
    requires s.relay.Publishing? && k < |s.relay.batch|
  {
    forall i, j :: 0 <= i < j < |s.commits| && s.commits[j] == s.relay.batch[k] &&
                   s.commits[i] in s.orders && s.commits[j] in s.orders &&
                   s.orders[s.commits[i]] == s.orders[s.commits[j]] ==>
                     s.commits[i] in s.history || s.commits[i] in s.relay.batch[..k]
  }

  ghost predicate Inv(s: State) {
    && WritersOk(s) && CommitsOk(s) && NothingLost(s) && HandedOver(s) && NothingInvented(s)
    && PublishedInOrder(s) && RelayOk(s)
  }

  // ---------- Preservation ----------

  lemma TakeIsPrefix(s: seq<nat>, limit: nat)
    ensures Take(s, limit) <= s
  {
  }

  lemma ClaimTakesPredecessors(s: State, limit: nat, k: nat)
    requires CommitsOk(s) && NothingLost(s)
    requires s.relay.Publishing? && s.relay.batch == Claimed(s.rows, limit) && k < |s.relay.batch|
    ensures PredecessorsFirst(s, k)
  {
    var all := Ascending(Unpublished(s.rows));
    var batch := s.relay.batch;
    TakeIsPrefix(all, limit);
    AscendingHolds(Unpublished(s.rows));
    forall i, j | 0 <= i < j < |s.commits| && s.commits[j] == batch[k] &&
        s.orders[s.commits[i]] == s.orders[s.commits[j]]
      ensures s.commits[i] in s.history || s.commits[i] in batch[..k]
    {
      var a, b := s.commits[i], batch[k];
      assert a < b;
      if a !in s.history {
        assert a in all;
        var q :| 0 <= q < |all| && all[q] == a;
        assert all[k] == b;
        assert q < k;
        assert batch[..k][q] == a;
      }
    }
  }

  lemma ClaimKeeps(s: State, limit: nat)
    requires Inv(s) && Enabled(s, Claim(limit))
    ensures Inv(Do(s, Claim(limit)))
  {
    var s' := Do(s, Claim(limit));
    ClaimIsOk(s, limit);
    QuietKeepsHistory(s, s');
    QuietKeepsWriters(s, s');
  }

  lemma ClaimIsOk(s: State, limit: nat)
    requires CommitsOk(s) && NothingLost(s) && Enabled(s, Claim(limit))
    ensures RelayOk(Do(s, Claim(limit)))
  {
    var s' := Do(s, Claim(limit));
    var all := Ascending(Unpublished(s.rows));
    AscendingHolds(Unpublished(s.rows));
    TakeIsPrefix(all, limit);
    forall id | id in s'.relay.batch ensures id in s'.rows && s'.rows[id].publishedAt.None? {
      assert id in all;
    }
    forall k | 0 <= k < |s'.relay.batch| ensures PredecessorsFirst(s', k) {
      ClaimTakesPredecessors(s', limit, k);
    }
  }

  /** Steps that leave writers, locks, commits, ids and orders alone keep what is said about writers. */
  lemma QuietKeepsWriters(s: State, s': State)
    requires WritersOk(s)
    requires s'.writers == s.writers && s'.locks == s.locks && s'.commits == s.commits
    requires s'.orders == s.orders && s'.nextId == s.nextId
    ensures WritersOk(s')
  {
    forall w | w in s'.writers ensures IdsOk(s', s'.writers[w]) {
      assert IdsOk(s, s.writers[w]);
    }
  }

  /** Steps that leave history, commits and known orders alone keep what is said about them. */
  lemma QuietKeepsHistory(s: State, s': State)
    requires PublishedInOrder(s)
    requires s'.history == s.history && s'.commits == s.commits
    requires forall id :: id in s.commits ==> id in s.orders && id in s'.orders && s'.orders[id] == s.orders[id]
    ensures PublishedInOrder(s')
  {
    forall p | 0 <= p < |s'.history| ensures OrderedAt(s', p) {
      assert OrderedAt(s, p);
    }
  }

  lemma QuietKeepsRelay(s: State, s': State)
    requires RelayOk(s)
    requires s'.history == s.history && s'.commits == s.commits && s'.relay == s.relay
    requires forall id :: id in s.commits ==> id in s.orders && id in s'.orders && s'.orders[id] == s.orders[id]
    requires forall id :: id in s.rows && s.rows[id].publishedAt.None? ==> id in s'.rows && s'.rows[id] == s.rows[id]
    ensures RelayOk(s')
  {
    if s'.relay.Publishing? {
      forall k | 0 <= k < |s'.relay.batch| ensures PredecessorsFirst(s', k) {
        assert PredecessorsFirst(s, k);
      }
    }
  }

  lemma PublishKeeps(s: State)
    requires Inv(s) && Enabled(s, PublishNext)
    ensures Inv(Do(s, PublishNext))
  {
    var s' := Do(s, PublishNext);
    var n, k := |s.history|, s.relay.done;
    assert s.relay.batch[k] in s.relay.batch;
    forall p | 0 <= p < |s'.history| ensures OrderedAt(s', p) {
      if p < n {
        assert OrderedAt(s, p);
        assert s'.history[..p] == s.history[..p];
      } else {
        assert PredecessorsFirst(s, k);
        assert s'.history[..p] == s.history;
        forall x | x in s.relay.batch[..k] ensures x in s.history {
          var q :| 0 <= q < k && s.relay.batch[q] == x;
        }
      }
    }
    forall q | 0 <= q < |s'.relay.batch| ensures PredecessorsFirst(s', q) {
      assert PredecessorsFirst(s, q);
    }
    forall w | w in s'.writers ensures IdsOk(s', s'.writers[w]) {
      assert IdsOk(s, s.writers[w]);
    }
    forall q | 0 <= q < s'.relay.done ensures s'.relay.batch[q] in s'.history {
      if q == k {
        assert s'.history[n] == s.relay.batch[k];
      }
    }
  }

  lemma BeginKeeps(s: State, w: nat, o: string)
    requires Inv(s) && Enabled(s, Begin(w, o))
    ensures Inv(Do(s, Begin(w, o)))
  {
    var s' := Do(s, Begin(w, o));
    forall v | v in s'.writers ensures IdsOk(s', s'.writers[v]) {
      assert v != w ==> IdsOk(s, s.writers[v]);
    }
    QuietKeepsHistory(s, s');
    QuietKeepsRelay(s, s');
  }

  lemma InsertKeepsId(s: State, w: nat, id: nat, order: string)
    requires WritersOk(s) && CommitsOk(s) && w in s.writers
    requires id != s.nextId && SameOrder(s, id, order) && id !in s.commits && AboveCommits(s, id, order)
    ensures var s' := Do(s, Insert(w)); SameOrder(s', id, order) && id !in s'.commits && AboveCommits(s', id, order)
  {
    var s' := Do(s, Insert(w));
    forall c | c in s'.commits && SameOrder(s', c, order) ensures c < id {
      assert c in s.orders;
    }
  }

  lemma InsertKeepsWriter(s: State, w: nat, v: nat)
    requires WritersOk(s) && CommitsOk(s) && w in s.writers && v in s.writers
    ensures IdsOk(Do(s, Insert(w)), Do(s, Insert(w)).writers[v])
  {
    var s' := Do(s, Insert(w));
    var ids, ids' := s.writers[v].ids, s'.writers[v].ids;
    var order := s.writers[v].order;
    assert IdsOk(s, s.writers[v]);
    forall id | id in ids' ensures SameOrder(s', id, order) && id !in s'.commits && AboveCommits(s', id, order) {
      if id in ids {
        InsertKeepsId(s, w, id, order);
      } else {
        assert v == w && id == s.nextId;
      }
    }
    forall i, j | 0 <= i < j < |ids'| ensures ids'[i] < ids'[j] {
      assert i < |ids|;
      assert ids'[i] == ids[i] && ids[i] in ids;
    }
  }

  lemma InsertKeeps(s: State, w: nat)
    requires Inv(s) && Enabled(s, Insert(w))
    ensures Inv(Do(s, Insert(w)))
  {
    var s' := Do(s, Insert(w));
    forall v | v in s'.writers ensures IdsOk(s', s'.writers[v]) {
      InsertKeepsWriter(s, w, v);
    }
    InsertKeepsDisjoint(s, w);
    QuietKeepsHistory(s, s');
    QuietKeepsRelay(s, s');
  }

  lemma InsertKeepsDisjoint(s: State, w: nat)
    requires WritersOk(s) && w in s.writers
    ensures WritersDisjoint(Do(s, Insert(w)))
  {
    var s' := Do(s, Insert(w));
    forall u, v, id | u in s'.writers && v in s'.writers && u != v && id in s'.writers[u].ids
      ensures id !in s'.writers[v].ids
    {
      assert IdsOk(s, s.writers[u]) && IdsOk(s, s.writers[v]);
      assert s.nextId !in s.writers[u].ids && s.nextId !in s.writers[v].ids;
    }
  }

  lemma AbortWriterKeeps(s: State, w: nat)
    requires Inv(s) && Enabled(s, AbortWriter(w))
    ensures Inv(Do(s, AbortWriter(w)))
  {
    var s' := Do(s, AbortWriter(w));
    forall v | v in s'.writers ensures IdsOk(s', s'.writers[v]) {
      assert IdsOk(s, s.writers[v]);
    }
    QuietKeepsHistory(s, s');
    QuietKeepsRelay(s, s');
  }

  lemma CommitKeepsWriters(s: State, w: nat)
    requires WritersOk(s) && CommitsOk(s) && w in s.writers
    ensures WritersOk(Do(s, CommitWriter(w)))
  {
    var s' := Do(s, CommitWriter(w));
    forall v | v in s'.writers ensures IdsOk(s', s'.writers[v]) {
      assert IdsOk(s, s.writers[v]) && IdsOk(s, s.writers[w]);
      assert s.writers[v].order != s.writers[w].order;
    }
  }

  lemma CommitKeepsCommits(s: State, w: nat)
    requires WritersOk(s) && CommitsOk(s) && w in s.writers
    ensures CommitsOk(Do(s, CommitWriter(w)))
  {
    var s' := Do(s, CommitWriter(w));
    assert IdsOk(s, s.writers[w]);
    var n := |s.commits|;
    forall i, j | 0 <= i < j < |s'.commits| && s'.orders[s'.commits[i]] == s'.orders[s'.commits[j]]
      ensures s'.commits[i] < s'.commits[j]
    {
      if n <= j {
        assert s'.commits[j] == s.writers[w].ids[j - n];
        assert s'.commits[j] in s.writers[w].ids;
        if i < n {
          assert s'.commits[i] in s.commits;
          assert SameOrder(s, s'.commits[i], s.writers[w].order);
          assert AboveCommits(s, s'.commits[j], s.writers[w].order);
        } else {
          assert s'.commits[i] == s.writers[w].ids[i - n];
        }
      }
    }
  }

  lemma CommitKeepsOrder(s: State, w: nat)
    requires WritersOk(s) && CommitsOk(s) && NothingInvented(s) && PublishedInOrder(s) && RelayOk(s) && w in s.writers
    ensures PublishedInOrder(Do(s, CommitWriter(w))) && RelayOk(Do(s, CommitWriter(w)))
  {
    var s' := Do(s, CommitWriter(w));
    assert IdsOk(s, s.writers[w]);
    forall p | 0 <= p < |s'.history| ensures OrderedAt(s', p) {
      assert OrderedAt(s, p);
      LateCommitsDoNotPrecede(s, w, s.history[p]);
    }
    if s'.relay.Publishing? {
      forall k | 0 <= k < |s'.relay.batch| ensures PredecessorsFirst(s', k) {
        assert PredecessorsFirst(s, k);
        assert s.relay.batch[k] in s.relay.batch;
        LateCommitsDoNotPrecede(s, w, s.relay.batch[k]);
      }
      forall id | id in s'.relay.batch ensures id in s'.rows && s'.rows[id].publishedAt.None? {
        assert id in s.rows && s.rows[id].publishedAt.None?;
      }
    }
  }

  /** A row committed earlier sits before all the ids a commit appends. */
  lemma LateCommitsDoNotPrecede(s: State, w: nat, id: nat)
    requires w in s.writers && IdsOk(s, s.writers[w])
    requires id in s.commits
    ensures var commits := s.commits + s.writers[w].ids;
            forall j :: 0 <= j < |commits| && commits[j] == id ==> j < |s.commits|
  {
    forall j | |s.commits| <= j < |s.commits| + |s.writers[w].ids| ensures (s.commits + s.writers[w].ids)[j] != id {
      assert s.writers[w].ids[j - |s.commits|] in s.writers[w].ids;
    }
  }

  lemma CommitKeeps(s: State, w: nat)
    requires Inv(s) && Enabled(s, CommitWriter(w))
    ensures Inv(Do(s, CommitWriter(w)))
  {
    CommitKeepsWriters(s, w);
    CommitKeepsCommits(s, w);
    CommitKeepsOrder(s, w);
    CommitLosesNothing(s, w);
  }

  lemma CommitLosesNothing(s: State, w: nat)
    requires WritersOk(s) && CommitsOk(s) && NothingLost(s) && NothingInvented(s) && w in s.writers
    ensures NothingLost(Do(s, CommitWriter(w))) && NothingInvented(Do(s, CommitWriter(w)))
  {
    assert IdsOk(s, s.writers[w]);
  }

  lemma MarkKeeps(s: State, now: Instant)
    requires Inv(s) && Enabled(s, MarkBatch(now))
    ensures Inv(Do(s, MarkBatch(now)))
  {
    var s' := Do(s, MarkBatch(now));
    forall v | v in s'.writers ensures IdsOk(s', s'.writers[v]) {
      assert IdsOk(s, s.writers[v]);
    }
    QuietKeepsHistory(s, s');
    forall id | id in s.relay.batch ensures id in s.history {
      var k :| 0 <= k < |s.relay.batch| && s.relay.batch[k] == id;
    }
  }

  lemma AbortRelayKeeps(s: State)
    requires Inv(s) && Enabled(s, AbortRelay)
    ensures Inv(Do(s, AbortRelay))
  {
    var s' := Do(s, AbortRelay);
    forall v | v in s'.writers ensures IdsOk(s', s'.writers[v]) {
      assert IdsOk(s, s.writers[v]);
    }
    QuietKeepsHistory(s, s');
  }

  /** Closing the bus, or starting again with a new one. */
  lemma BusKeeps(s: State, a: Action)
    requires Inv(s) && (a == CloseBus || a == Restart)
    ensures Inv(Do(s, a))
  {
    var s' := Do(s, a);
    QuietKeepsWriters(s, s');
    QuietKeepsHistory(s, s');
    if a == CloseBus {
      QuietKeepsRelay(s, s');
    }
  }

  lemma DeleteKeeps(s: State, cutoff: Instant)
    requires Inv(s)
    ensures Inv(Do(s, Delete(cutoff)))
  {
    var s' := Do(s, Delete(cutoff));
    forall v | v in s'.writers ensures IdsOk(s', s'.writers[v]) {
      assert IdsOk(s, s.writers[v]);
    }
    QuietKeepsHistory(s, s');
    QuietKeepsRelay(s, s');
  }

  lemma StepKeeps(s: State, a: Action)
    requires Inv(s) && Enabled(s, a)
    ensures Inv(Do(s, a))
  {
    match a
    case Begin(w, o) => BeginKeeps(s, w, o);
    case Insert(w) => InsertKeeps(s, w);
    case CommitWriter(w) => CommitKeeps(s, w);
    case AbortWriter(w) => AbortWriterKeeps(s, w);
    case Claim(limit) => ClaimKeeps(s, limit);
    case PublishNext => PublishKeeps(s);
    case MarkBatch(now) => MarkKeeps(s, now);
    case AbortRelay => AbortRelayKeeps(s);
    case Delete(cutoff) => DeleteKeeps(s, cutoff);
    case CloseBus => BusKeeps(s, a);
    case Restart => BusKeeps(s, a);
  }

  /**
   Under every schedule of writers, one relay, deletions, crashes and bus shutdowns: no
   committed row is lost or deleted unpublished, nothing uncommitted is published, and the
   rows of one order are first published in commit order.
   */
  lemma {:induction false} EveryScheduleDelivers(actions: seq<Action>)
    ensures Inv(After(actions))
  {
    if actions != [] {
      var init, a := actions[..|actions| - 1], actions[|actions| - 1];
      EveryScheduleDelivers(init);
      if Enabled(After(init), a) {
        StepKeeps(After(init), a);
      }
    }
  }

  lemma {:induction false} OpenBusIgnoresNothing(actions: seq<Action>)
    requires CloseBus !in actions
    ensures After(actions).open && After(actions).ignored == {}
  {
    if actions != [] {
      var init, a := actions[..|actions| - 1], actions[|actions| - 1];
      assert a in actions;
      OpenBusIgnoresNothing(init);
    }
  }

  lemma StepKeepsTaken(s: State, a: Action)
    requires Enabled(s, a)
    ensures s.taken <= Do(s, a).taken
  {
  }

  lemma {:induction false} TakenStays(actions: seq<Action>, k: nat, id: nat)
    requires k <= |actions| && id in After(actions[..k]).taken
    ensures id in After(actions).taken
    decreases |actions|
  {
    var n := |actions| - 1;
    if k <= n {
      var init, a := actions[..n], actions[n];
      assert init[..k] == actions[..k];
      TakenStays(init, k, id);
      if Enabled(After(init), a) {
        StepKeepsTaken(After(init), a);
      }
    } else {
      assert actions[..k] == actions;
    }
  }

  predicate RestartedAfter(actions: seq<Action>, k: nat) {
    exists j :: k < j < |actions| && actions[j].Restart?
  }

  /** Whenever the bus was closed, the process was restarted since. */
  predicate Reopened(actions: seq<Action>) {
    forall k :: 0 <= k < |actions| && actions[k].CloseBus? ==> RestartedAfter(actions, k)
  }

  lemma {:induction false} OpenIffReopened(actions: seq<Action>)
    ensures After(actions).open <==> Reopened(actions)
  {
    if actions != [] {
      var n := |actions| - 1;
      var init, a := actions[..n], actions[n];
      OpenIffReopened(init);
      if a.CloseBus? {
        assert !RestartedAfter(actions, n);
      } else if a.Restart? {
        assert forall k :: 0 <= k < n ==> RestartedAfter(actions, k) by {
          assert actions[n].Restart?;
        }
      } else {
        forall k | 0 <= k < n ensures RestartedAfter(actions, k) <==> RestartedAfter(init, k) {
          RestartIsEarlier(actions, k);
        }
        assert forall k :: 0 <= k < n ==> init[k] == actions[k];
      }
    }
  }

  lemma RestartIsEarlier(actions: seq<Action>, k: nat)
    requires actions != [] && !actions[|actions| - 1].Restart?
    ensures RestartedAfter(actions, k) <==> RestartedAfter(actions[..|actions| - 1], k)
  {
    var init := actions[..|actions| - 1];
    if RestartedAfter(actions, k) {
      var j :| k < j < |actions| && actions[j].Restart?;
      assert init[j].Restart?;
    }
    if RestartedAfter(init, k) {
      var j :| k < j < |init| && init[j].Restart?;
      assert actions[j].Restart?;
    }
  }

  /** A row published while the bus is not closed, or reopened by a restart, has been taken, whatever happens later. */
  lemma OpenPublishIsTaken(actions: seq<Action>, k: nat)
    requires k < |actions| && actions[k].PublishNext?
    requires Enabled(After(actions[..k]), actions[k]) && Reopened(actions[..k])
    ensures var relay := After(actions[..k]).relay; relay.batch[relay.done] in After(actions).taken
  {
    OpenIffReopened(actions[..k]);
    assert actions[..k + 1][..k] == actions[..k];
    TakenStays(actions, k + 1, After(actions[..k]).relay.batch[After(actions[..k]).relay.done]);
  }

  /** While the bus stays open every committed row is still unpublished, or the bus has taken it. */
  lemma OpenBusTakesAll(actions: seq<Action>, id: nat)
    requires CloseBus !in actions && id in After(actions).commits
    ensures var s := After(actions); (id in s.rows && s.rows[id].publishedAt.None?) || id in s.taken
  {
    EveryScheduleDelivers(actions);
    OpenBusIgnoresNothing(actions);
  }
}

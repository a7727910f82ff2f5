/**
 Concurrent transactions over the whole store, under two locks: the order row lock, then the
 inventory advisory lock, both held to commit or abort. Creating an order and marking a cancel
 are single statements, the latter waiting for the row lock. Reads see committed data only. An
 apply decides from what it read under the row lock: the row, the next audit number, whether
 the fill ID is taken. It closes the lots it read under the inventory lock, and its writes
 appear at commit. Any interleaving is shown equal to the sequential store executing the
 committed operations in commit order.
 */
module Locking {
  import opened Prelude
  import opened Domain
  import opened Store
  import opened StoreInvariant
  import opened StoreRuns
  import Fifo
  import Ledger
  import Machine
  import Profit
  import StoreProof

  /**
   One transaction per operation. `key` is any assignment of advisory lock keys to inventories,
   colliding ones included.
   */
  datatype Config = Config(jobs: seq<Op>, initial: Db, key: Inventory -> int)

  /** What an apply reads under the row lock. */
  datatype Read = Read(row: OrderRow, seqNo: nat, conflict: bool)

  /** What a transaction carries from its reads: the order, the decision, the lots to close. */
  datatype Phase =
    | Waiting
    | Decided(read: Read, d: Machine.Decision)
    | Holding(read: Read, d: Machine.Decision)
    | Planned(read: Read, d: Machine.Decision, plan: Fifo.Allocation)
    | Finished(committed: bool)

  datatype Grant = Grant(key: int, tx: nat)

  datatype Commit = Commit(tx: nat, key: Option<int>)

  /** `grants` lists inventory-lock grants of transactions that have not aborted, `log` the commits. */
  datatype State = State(
    db: Db,
    phases: seq<Phase>,
    orderLocks: map<string, nat>,
    inventoryLocks: map<int, nat>,
    grants: seq<Grant>,
    log: seq<Commit>)

  function OrderAt(cfg: Config, t: nat): string
    requires t < |cfg.jobs|
  {
    OrderOf(cfg.jobs[t])
  }

  /** The sequential store, executing the committed operations one after the other. */
  function Serial(cfg: Config, log: seq<Commit>): Db
    requires forall i :: 0 <= i < |log| ==> log[i].tx < |cfg.jobs|
  {
    if log == [] then cfg.initial else Exec(Serial(cfg, log[..|log| - 1]), cfg.jobs[log[|log| - 1].tx])
  }

  /** The operation does not fail. */
  predicate Succeeds(db: Db, op: Op) {
    match op
    case Create(req, now) => CreatePending(db, req, now).Ok?
    case Apply(source, ev, lotId, now) => ApplyEvent(db, source, ev, lotId, now).Ok?
    case MarkCancel(id, at, now) => MarkCancelRequested(db, id, at, now).Ok?
  }

  // ---------- The writes of one transaction ----------

  /** The lots a sell closes, from the open lots it can see; a buy reads none. */
  function PlanFrom(db: Db, row: OrderRow, d: Machine.Decision): Fifo.Allocation {
    if row.side.Sell? then Fifo.Allocate(Ledger.Walked(db.ledger, InventoryOf(row)), d.fillDelta)
    else Fifo.Allocation([], 0.0)
  }

  function PostingOf(fill: Ledger.Fill, lotId: string, plan: Fifo.Allocation): Ledger.Posting {
    if fill.side.Buy? then Ledger.OpenLot(Ledger.NewLot(fill, lotId))
        else Ledger.CloseLots(plan.closures, plan.unmatched)
  }

  /** The audit row, under the number read. */
  function InsertNumbered(db: Db, id: string, d: Machine.Decision, source: Source, ev: Event, seqNo: nat): Db
    requires id in db.orders
  {
    var row := db.orders[id];
    db.(transitions := db.transitions + [
      TransitionRow(id, seqNo, row.status, d.to, row.filledQty + d.fillDelta, source, NullString(ev.reason), ev.at)])
  }

  /** The event as recorded, given whether its fill ID was taken. */
  function Recorded(ev: Event, conflict: bool): Event {
    if conflict then WithoutFillId(ev) else ev
  }

  /** The fill row and the posting planned for it. */
  function RecordPlanned(db: Db, id: string, ev: Event, conflict: bool, qty: Decimal, lotId: string,
                         plan: Fifo.Allocation): Result<(Db, Decimal), StoreError>
    requires id in db.orders && db.transitions != []
  {
    var fill := LedgerFill(db, id, ev, qty);
    var posting := PostingOf(fill, lotId, plan);
    match Ledger.Execute(db.ledger, fill, posting)
    case Err(e) => Err(LedgerRefused(e))
    case Ok(ledger) =>
      var unmatched := Ledger.Oversold(posting);
      Ok((db.(fills := db.fills + [NewFill(db, id, Recorded(ev, conflict), qty)],
              ledger := ledger,
              outbox := db.outbox + (if unmatched > 0.0
                then [UnmatchedSell(id, InventoryOf(db.orders[id]), |db.fills|, unmatched)] else [])),
          unmatched))
  }

  /** What an apply writes, from what it read, its decision and its plan. */
  function Writes(db: Db, op: Op, read: Read, d: Machine.Decision, plan: Fifo.Allocation): Result<Db, StoreError>
    requires op.Apply?
  {
    var id := op.ev.ref.clientOrderId;
    var own := db.(orders := db.orders[id := read.row]);
    if !Persists(d) then Adopt(own, id, op.ev.ref.venueOrderId, op.now)
    else
      var db1 := InsertNumbered(own, id, d, op.source, op.ev, read.seqNo);
      if d.fillDelta > 0.0 then
        var (db2, unmatched) :- RecordPlanned(db1, id, op.ev, read.conflict, d.fillDelta, op.lotId, plan);
        Finish(db2, id, op.source, Recorded(op.ev, read.conflict), d, op.now)
      else
        Finish(db1, id, op.source, op.ev, d, op.now)
  }

  // ---------- Interleaved steps ----------

  datatype Action =
    | Statement(tx: nat)
    | LockOrder(tx: nat)
    | LockInventory(tx: nat)
    | ReadLots(tx: nat)
    | CommitTx(tx: nat)
    | FailTx(tx: nat)
    | Crash(tx: nat)

  function Start(cfg: Config): State {
    State(cfg.initial, seq(|cfg.jobs|, _ => Waiting), map[], map[], [], [])
  }

  /** A single statement runs at once; only marking a cancel needs the row lock. */
  predicate CanExecute(cfg: Config, s: State, t: nat)
    requires t < |cfg.jobs| == |s.phases|
  {
    && s.phases[t].Waiting? && !cfg.jobs[t].Apply?
    && (cfg.jobs[t].MarkCancel? ==> OrderAt(cfg, t) !in s.orderLocks)
    && Succeeds(s.db, cfg.jobs[t])
  }

  predicate CanLockOrder(cfg: Config, s: State, t: nat)
    requires t < |cfg.jobs| == |s.phases|
  {
    var o := OrderAt(cfg, t);
    s.phases[t].Waiting? && cfg.jobs[t].Apply? && o !in s.orderLocks && o in s.db.orders &&
    Machine.Transition(StateOf(s.db.orders[o]), cfg.jobs[t].ev).Ok?
  }

  /** What the store holds for an apply to read, once it has the row lock. */
  function ReadOf(db: Db, ev: Event): Read
    requires ev.ref.clientOrderId in db.orders
  {
    var o := ev.ref.clientOrderId;
    Read(db.orders[o], MaxSeqNo(db.transitions, o) + 1, Conflicts(db, o, ev))
  }

  /** A negative price is refused before the inventory is locked. */
  predicate CanLockInventory(cfg: Config, s: State, t: nat)
    requires t < |cfg.jobs| == |s.phases|
  {
    && s.phases[t].Decided? && cfg.jobs[t].Apply?
    && s.phases[t].d.fillDelta > 0.0 && cfg.jobs[t].ev.fillPrice >= 0.0
    && cfg.key(InventoryOf(s.phases[t].read.row)) !in s.inventoryLocks
  }

  predicate CanReadLots(s: State, t: nat)
    requires t < |s.phases|
  {
    s.phases[t].Holding? && !s.phases[t].read.row.side.UnsupportedSide?
  }

  /** A transaction that has read all it needs. */
  predicate Ready(p: Phase) {
    (p.Decided? && p.d.fillDelta <= 0.0) || p.Planned?
  }

  function PlanOf(p: Phase): Fifo.Allocation {
    if p.Planned? then p.plan else Fifo.Allocation([], 0.0)
  }

  predicate CanWrite(cfg: Config, s: State, t: nat)
    requires t < |cfg.jobs| == |s.phases|
  {
    cfg.jobs[t].Apply? && Ready(s.phases[t])
  }

  function WritesOf(cfg: Config, s: State, t: nat): Result<Db, StoreError>
    requires t < |cfg.jobs| == |s.phases| && CanWrite(cfg, s, t)
  {
    var p := s.phases[t];
    Writes(s.db, cfg.jobs[t], p.read, p.d, PlanOf(p))
  }

  /** A statement's own error. */
  predicate StatementFails(cfg: Config, s: State, t: nat)
    requires t < |cfg.jobs| == |s.phases|
  {
    s.phases[t].Waiting? && !cfg.jobs[t].Apply? && !Succeeds(s.db, cfg.jobs[t])
  }

  /** An apply's own error before it has read all it needs, or at its writes. */
  predicate ApplyFails(cfg: Config, s: State, t: nat)
    requires t < |cfg.jobs| == |s.phases| && cfg.jobs[t].Apply?
  {
    var p, o := s.phases[t], OrderAt(cfg, t);
    || (p.Waiting? && o !in s.db.orders)
    || (p.Waiting? && o !in s.orderLocks && Machine.Transition(StateOf(s.db.orders[o]), cfg.jobs[t].ev).Err?)
    || (p.Decided? && p.d.fillDelta > 0.0 && cfg.jobs[t].ev.fillPrice < 0.0)
    || (p.Holding? && p.read.row.side.UnsupportedSide?)
    || (Ready(p) && WritesOf(cfg, s, t).Err?)
  }

  /** A transaction's own error, as opposed to a crash. */
  predicate MustFail(cfg: Config, s: State, t: nat)
    requires t < |cfg.jobs| == |s.phases|
  {
    if cfg.jobs[t].Apply? then ApplyFails(cfg, s, t) else StatementFails(cfg, s, t)
  }

  predicate Enabled(cfg: Config, s: State, a: Action)
    requires |cfg.jobs| == |s.phases|
  {
    && a.tx < |cfg.jobs|
    && match a
       case Statement(t) => CanExecute(cfg, s, t)
       case LockOrder(t) => CanLockOrder(cfg, s, t)
       case LockInventory(t) => CanLockInventory(cfg, s, t)
       case ReadLots(t) => CanReadLots(s, t)
       case CommitTx(t) => CanWrite(cfg, s, t) && WritesOf(cfg, s, t).Ok?
       case FailTx(t) => MustFail(cfg, s, t)
       case Crash(t) => !s.phases[t].Finished?
  }

  function Release<K>(locks: map<K, nat>, t: nat): map<K, nat> {
    map k | k in locks && locks[k] != t :: locks[k]
  }

  function Without(grants: seq<Grant>, t: nat): seq<Grant> {
    if grants == [] then []
    else
      var last := grants[|grants| - 1];
      Without(grants[..|grants| - 1], t) + if last.tx == t then [] else [last]
  }

  function Aborted(s: State, t: nat): State
    requires t < |s.phases|
  {
    s.(phases := s.phases[t := Finished(false)],
       orderLocks := Release(s.orderLocks, t),
       inventoryLocks := Release(s.inventoryLocks, t),
       grants := Without(s.grants, t))
  }

  function Do(cfg: Config, s: State, a: Action): State
    requires |cfg.jobs| == |s.phases| && Enabled(cfg, s, a)
  {
    var t := a.tx;
    match a
    case Statement(_) =>
      s.(db := Exec(s.db, cfg.jobs[t]), phases := s.phases[t := Finished(true)], log := s.log + [Commit(t, None)])
    case LockOrder(_) =>
      var o, ev := OrderAt(cfg, t), cfg.jobs[t].ev;
      var d := Machine.Transition(StateOf(s.db.orders[o]), ev).value;
      s.(phases := s.phases[t := Decided(ReadOf(s.db, ev), d)], orderLocks := s.orderLocks[o := t])
    case LockInventory(_) =>
      var p := s.phases[t];
      var k := cfg.key(InventoryOf(p.read.row));
      s.(phases := s.phases[t := Holding(p.read, p.d)], inventoryLocks := s.inventoryLocks[k := t],
          grants := s.grants + [Grant(k, t)])
    case ReadLots(_) =>
      var p := s.phases[t];
      s.(phases := s.phases[t := Planned(p.read, p.d, PlanFrom(s.db, p.read.row, p.d))])
    case CommitTx(_) =>
      var p := s.phases[t];
      s.(db := WritesOf(cfg, s, t).value,
         phases := s.phases[t := Finished(true)],
         orderLocks := Release(s.orderLocks, t),
         inventoryLocks := Release(s.inventoryLocks, t),
         log := s.log + [Commit(t, if p.Planned? then Some(cfg.key(InventoryOf(p.read.row))) else None)])
    case FailTx(_) => Aborted(s, t)
    case Crash(_) => Aborted(s, t)
  }

  /** Any schedule: actions that are not enabled do nothing. */
  function After(cfg: Config, actions: seq<Action>): (s: State)
    ensures |s.phases| == |cfg.jobs|
  {
    if actions == [] then Start(cfg)
    else
      var s, a := After(cfg, actions[..|actions| - 1]), actions[|actions| - 1];
      if Enabled(cfg, s, a) then Do(cfg, s, a) else s
  }

  // ---------- Invariant ----------

  predicate Active(p: Phase) {
    p.Decided? || p.Holding? || p.Planned?
  }

  predicate HoldsInventory(p: Phase) {
    p.Holding? || p.Planned?
  }

  ghost predicate LocksMatch(cfg: Config, s: State) {
    |s.phases| == |cfg.jobs| && OrderLocksMatch(cfg, s) && InventoryLocksMatch(cfg, s)
  }

  ghost predicate OrderLocksMatch(cfg: Config, s: State)
    requires |s.phases| == |cfg.jobs|
  {
    && (forall t :: 0 <= t < |s.phases| && Active(s.phases[t]) ==>
          OrderAt(cfg, t) in s.orderLocks && s.orderLocks[OrderAt(cfg, t)] == t)
    && (forall o :: o in s.orderLocks ==>
          s.orderLocks[o] < |s.phases| && Active(s.phases[s.orderLocks[o]]) && OrderAt(cfg, s.orderLocks[o]) == o)
  }

  function KeyOf(cfg: Config, p: Phase): int
    requires HoldsInventory(p)
  {
    cfg.key(InventoryOf(p.read.row))
  }

  ghost predicate InventoryLocksMatch(cfg: Config, s: State)
    requires |s.phases| == |cfg.jobs|
  {
    && (forall t :: 0 <= t < |s.phases| && HoldsInventory(s.phases[t]) ==>
          KeyOf(cfg, s.phases[t]) in s.inventoryLocks && s.inventoryLocks[KeyOf(cfg, s.phases[t])] == t)
    && (forall k :: k in s.inventoryLocks ==>
          && s.inventoryLocks[k] < |s.phases|
          && HoldsInventory(s.phases[s.inventoryLocks[k]])
          && KeyOf(cfg, s.phases[s.inventoryLocks[k]]) == k)
  }

  /** What an active transaction has read is still what is committed. */
  ghost predicate ReadCurrent(cfg: Config, s: State, t: nat)
    requires t < |s.phases| == |cfg.jobs|
  {
    Active(s.phases[t]) ==> cfg.jobs[t].Apply? && StillCommitted(s.db, cfg.jobs[t].ev, s.phases[t])
  }

  ghost predicate StillCommitted(db: Db, ev: Event, p: Phase)
    requires Active(p)
  {
    var o := ev.ref.clientOrderId;
    && o in db.orders && p.read == ReadOf(db, ev)
    && Machine.Transition(StateOf(p.read.row), ev) == Ok(p.d)
    && (HoldsInventory(p) ==> p.d.fillDelta > 0.0 && ev.fillPrice >= 0.0)
    && (p.Planned? ==> p.plan == PlanFrom(db, p.read.row, p.d))
  }

  ghost predicate LogOk(cfg: Config, s: State) {
    && |s.phases| == |cfg.jobs|
    && (forall i :: 0 <= i < |s.log| ==> s.log[i].tx < |cfg.jobs| && s.phases[s.log[i].tx] == Finished(true))
    && (forall i, j :: 0 <= i < j < |s.log| ==> s.log[i].tx != s.log[j].tx)
  }

  /** Commit `i` executed its operation on what the commits before it had left. */
  ghost predicate Accepted(cfg: Config, log: seq<Commit>, i: nat)
    requires i < |log| && forall k :: 0 <= k < |log| ==> log[k].tx < |cfg.jobs|
  {
    Succeeds(Serial(cfg, log[..i]), cfg.jobs[log[i].tx])
  }

  ghost predicate Serializable(cfg: Config, s: State)
    requires LogOk(cfg, s)
  {
    s.db == Serial(cfg, s.log) && AllAccepted(cfg, s.log)
  }

  ghost predicate AllAccepted(cfg: Config, log: seq<Commit>)
    requires forall k :: 0 <= k < |log| ==> log[k].tx < |cfg.jobs|
  {
    forall i :: 0 <= i < |log| ==> Accepted(cfg, log, i)
  }

  function GrantsOf(grants: seq<Grant>, k: int): seq<nat> {
    if grants == [] then []
    else
      var last := grants[|grants| - 1];
      GrantsOf(grants[..|grants| - 1], k) + if last.key == k then [last.tx] else []
  }

  function CommitsOf(log: seq<Commit>, k: int): seq<nat> {
    if log == [] then []
    else
      var last := log[|log| - 1];
      CommitsOf(log[..|log| - 1], k) + if last.key == Some(k) then [last.tx] else []
  }

  function HolderOf(s: State, k: int): seq<nat> {
    if k in s.inventoryLocks then [s.inventoryLocks[k]] else []
  }

  /** Grants on record are of holders and of committed transactions. */
  ghost predicate GrantsCurrent(s: State) {
    forall i :: 0 <= i < |s.grants| ==> GrantCurrent(s, s.grants[i].tx)
  }

  predicate GrantCurrent(s: State, t: nat) {
    t < |s.phases| && (HoldsInventory(s.phases[t]) || s.phases[t] == Finished(true))
  }

  /** Commits under lock key `k` happen in the order the lock was granted. */
  ghost predicate KeyInOrder(s: State, k: int) {
    GrantsOf(s.grants, k) == CommitsOf(s.log, k) + HolderOf(s, k)
  }

  ghost predicate InLockOrder(s: State) {
    GrantsCurrent(s) && forall k :: KeyInOrder(s, k)
  }

  ghost predicate Inv(cfg: Config, s: State) {
    && LocksMatch(cfg, s)
    && Valid(s.db)
    && (forall t :: 0 <= t < |s.phases| ==> ReadCurrent(cfg, s, t))
    && LogOk(cfg, s) && Serializable(cfg, s)
    && InLockOrder(s)
  }

  // ---------- A commit is one sequential apply ----------

  /** Carrying out the plan is posting the fill, as long as the plan is what a posting would read. */
  lemma PlannedIsPosted(db: Db, id: string, ev: Event, qty: Decimal, lotId: string, plan: Fifo.Allocation)
    requires id in db.orders && db.transitions != [] && qty > 0.0 && ev.fillPrice >= 0.0
    requires !db.orders[id].side.UnsupportedSide?
    requires db.orders[id].side.Sell? ==>
               plan == Fifo.Allocate(Ledger.Walked(db.ledger, InventoryOf(db.orders[id])), qty)
    ensures RecordPlanned(db, id, ev, Conflicts(db, id, ev), qty, lotId, plan) == RecordFill(db, id, ev, qty, lotId)
  {
    var fill := LedgerFill(db, id, ev, qty);
    assert Ledger.Plan(db.ledger, fill, lotId) == Ok(PostingOf(fill, lotId, plan));
  }

  lemma PersistIsWritten(db: Db, op: Op, d: Machine.Decision, plan: Fifo.Allocation)
    requires op.Apply? && RowsOk(db) && op.ev.ref.clientOrderId in db.orders
    requires Persists(d) && d.fillDelta > 0.0 && op.ev.fillPrice >= 0.0
    requires plan == PlanFrom(db, db.orders[op.ev.ref.clientOrderId], d)
    ensures var r := Persist(db, op.source, op.ev, d, op.lotId, op.now);
            Writes(db, op, ReadOf(db, op.ev), d, plan) == if r.Ok? then Ok(r.value.0) else Err(r.error)
  {
    var id := op.ev.ref.clientOrderId;
    var db1 := InsertTransition(db, id, d, op.source, op.ev);
    assert RowOk(db.orders[id]);
    assert db.(orders := db.orders[id := db.orders[id]]) == db;
    assert InsertNumbered(db, id, d, op.source, op.ev, ReadOf(db, op.ev).seqNo) == db1;
    assert Conflicts(db1, id, op.ev) == ReadOf(db, op.ev).conflict;
    PlannedIsPosted(db1, id, op.ev, d.fillDelta, op.lotId, plan);
  }

  lemma CommitIsApply(db: Db, op: Op, p: Phase)
    requires op.Apply? && RowsOk(db) && Ready(p) && Active(p) && StillCommitted(db, op.ev, p)
    ensures var r := ApplyEvent(db, op.source, op.ev, op.lotId, op.now);
            Writes(db, op, p.read, p.d, PlanOf(p)) == if r.Ok? then Ok(r.value.0) else Err(r.error)
  {
    var id := op.ev.ref.clientOrderId;
    assert db.(orders := db.orders[id := p.read.row]) == db;
    if p.Planned? {
      PersistIsWritten(db, op, p.d, p.plan);
    }
  }

  // ---------- What other commits leave alone ----------

  /** Applying an event of one inventory keeps the lots a sell of another one would close. */
  lemma WritesKeepPlans(db: Db, w: StoreProof.Write, unmatched: Decimal, db': Db, v: Inventory)
    requires Ledger.Valid(db.ledger) && InventoriesAgree(db)
    requires StoreProof.Decided(db, w) && StoreProof.WroteLedger(db, w, unmatched, db'.ledger)
    requires v != InventoryOf(db.orders[w.id])
    ensures Ledger.Walked(db'.ledger, v) == Ledger.Walked(db.ledger, v)
  {
    if w.d.fillDelta > 0.0 {
      StoreProof.NextFillUnposted(db);
      Ledger.PostKeepsOthers(db.ledger, StoreProof.FillToPost(db, w), w.lotId, v);
    }
  }

  lemma ApplyKeepsPlans(db: Db, source: Source, ev: Event, lotId: string, now: Instant, v: Inventory)
    requires Ledger.Valid(db.ledger) && InventoriesAgree(db) && ApplyEvent(db, source, ev, lotId, now).Ok?
    requires v != InventoryOf(db.orders[ev.ref.clientOrderId])
    ensures Ledger.Walked(ApplyEvent(db, source, ev, lotId, now).value.0.ledger, v) == Ledger.Walked(db.ledger, v)
  {
    var id := ev.ref.clientOrderId;
    var d := Machine.Transition(StateOf(db.orders[id]), ev).value;
    if Persists(d) {
      var w := StoreProof.Write(id, source, ev, d, lotId, now);
      StoreProof.PersistWrites(db, w);
      var r := Persist(db, source, ev, d, lotId, now).value;
      WritesKeepPlans(db, w, r.1.unmatchedQty, r.0, v);
    }
  }

  /** Without a fill the ledger stays as it is. */
  lemma NoFillKeepsLedger(db: Db, source: Source, ev: Event, lotId: string, now: Instant, d: Machine.Decision)
    requires ApplyEvent(db, source, ev, lotId, now).Ok?
    requires Machine.Transition(StateOf(db.orders[ev.ref.clientOrderId]), ev) == Ok(d) && d.fillDelta <= 0.0
    ensures ApplyEvent(db, source, ev, lotId, now).value.0.ledger == db.ledger
  {
  }

  lemma {:induction false} OtherRowsCountNot(ts: seq<TransitionRow>, more: seq<TransitionRow>, o: string)
    requires forall i :: 0 <= i < |more| ==> more[i].order != o
    ensures MaxSeqNo(ts + more, o) == MaxSeqNo(ts, o)
  {
    if more == [] {
      assert ts + more == ts;
    } else {
      var n := |more| - 1;
      OtherRowsCountNot(ts, more[..n], o);
      assert (ts + more)[..|ts + more| - 1] == ts + more[..n];
    }
  }

  lemma OtherFillsConflictNot(fills: seq<FillRow>, more: seq<FillRow>, o: string, vfid: string)
    requires forall i :: 0 <= i < |more| ==> more[i].order != o
    ensures FillIdUsed(fills + more, o, vfid) <==> FillIdUsed(fills, o, vfid)
  {
    if i :| 0 <= i < |fills| && fills[i].order == o && fills[i].venueFillId == Some(vfid) {
      assert (fills + more)[i] == fills[i];
    }
  }

  /** Applying an event of another order leaves what was read of this one as it was. */
  lemma PersistKeepsReadOf(db: Db, w: StoreProof.Write, unmatched: Decimal, db': Db, ev: Event)
    requires StoreProof.Decided(db, w) && StoreProof.WroteRows(db, w, unmatched, db')
    requires ev.ref.clientOrderId in db.orders && ev.ref.clientOrderId != w.id
    ensures ev.ref.clientOrderId in db'.orders && ReadOf(db', ev) == ReadOf(db, ev)
  {
    OtherRowsCountNot(db.transitions, [StoreProof.NewTransition(db, w)], ev.ref.clientOrderId);
    OtherFillsConflictNot(db.fills, StoreProof.NewFills(db, w), ev.ref.clientOrderId, ev.venueFillId);
  }

  lemma ApplyKeepsReadOf(db: Db, op: Op, ev: Event)
    requires op.Apply? && ApplyEvent(db, op.source, op.ev, op.lotId, op.now).Ok?
    requires ev.ref.clientOrderId in db.orders && ev.ref.clientOrderId != op.ev.ref.clientOrderId
    ensures var db' := ApplyEvent(db, op.source, op.ev, op.lotId, op.now).value.0;
            ev.ref.clientOrderId in db'.orders && ReadOf(db', ev) == ReadOf(db, ev)
  {
    var id := op.ev.ref.clientOrderId;
    var d := Machine.Transition(StateOf(db.orders[id]), op.ev).value;
    if Persists(d) {
      var w := StoreProof.Write(id, op.source, op.ev, d, op.lotId, op.now);
      StoreProof.PersistWrites(db, w);
      var r := Persist(db, op.source, op.ev, d, op.lotId, op.now).value;
      PersistKeepsReadOf(db, w, r.1.unmatchedQty, r.0, ev);
    }
  }

  /** Another transaction's commit leaves what `p` has read as it was. */
  lemma CommitKeepsReads(db: Db, ev: Event, p: Phase, other: Op, q: Phase)
    requires Valid(db) && Active(p) && StillCommitted(db, ev, p)
    requires other.Apply? && Ready(q) && Active(q) && StillCommitted(db, other.ev, q)
    requires ev.ref.clientOrderId != other.ev.ref.clientOrderId
    requires p.Planned? && q.Planned? ==> InventoryOf(p.read.row) != InventoryOf(q.read.row)
    requires ApplyEvent(db, other.source, other.ev, other.lotId, other.now).Ok?
    ensures StillCommitted(ApplyEvent(db, other.source, other.ev, other.lotId, other.now).value.0, ev, p)
  {
    ApplyKeepsReadOf(db, other, ev);
    if p.Planned? {
      if q.Planned? {
        ApplyKeepsPlans(db, other.source, other.ev, other.lotId, other.now, InventoryOf(p.read.row));
      } else {
        NoFillKeepsLedger(db, other.source, other.ev, other.lotId, other.now, q.d);
      }
    }
  }

  /** So does a single statement that is not about the order. */
  lemma StatementKeepsReads(db: Db, ev: Event, p: Phase, op: Op)
    requires Active(p) && StillCommitted(db, ev, p) && !op.Apply?
    requires op.MarkCancel? ==> op.id != ev.ref.clientOrderId
    ensures StillCommitted(Exec(db, op), ev, p)
  {
  }

  // ---------- Preservation ----------

  lemma OrderLocksKept(cfg: Config, s: State, a: Action)
    requires |s.phases| == |cfg.jobs| && OrderLocksMatch(cfg, s) && Enabled(cfg, s, a)
    ensures OrderLocksMatch(cfg, Do(cfg, s, a))
  {
  }

  lemma InventoryLocksKept(cfg: Config, s: State, a: Action)
    requires |s.phases| == |cfg.jobs| && InventoryLocksMatch(cfg, s) && Enabled(cfg, s, a)
    ensures InventoryLocksMatch(cfg, Do(cfg, s, a))
  {
  }

  /** Two active transactions are of different orders, and two that hold inventories of different ones. */
  lemma LocksSeparate(cfg: Config, s: State, t: nat, u: nat)
    requires LocksMatch(cfg, s) && t < |s.phases| && u < |s.phases| && t != u && Active(s.phases[t]) &&
        Active(s.phases[u])
    ensures OrderAt(cfg, t) != OrderAt(cfg, u)
    ensures HoldsInventory(s.phases[t]) && HoldsInventory(s.phases[u]) ==>
              InventoryOf(s.phases[t].read.row) != InventoryOf(s.phases[u].read.row)
  {
  }

  lemma CommitReadsKept(cfg: Config, s: State, u: nat, t: nat)
    requires LocksMatch(cfg, s) && Valid(s.db) && Enabled(cfg, s, CommitTx(u))
    requires t < |s.phases| && t != u && ReadCurrent(cfg, s, u) && ReadCurrent(cfg, s, t)
    ensures ReadCurrent(cfg, Do(cfg, s, CommitTx(u)), t)
  {
    if Active(s.phases[t]) {
      LocksSeparate(cfg, s, t, u);
      CommitIsApply(s.db, cfg.jobs[u], s.phases[u]);
      CommitKeepsReads(s.db, cfg.jobs[t].ev, s.phases[t], cfg.jobs[u], s.phases[u]);
    }
  }

  lemma StatementReadsKept(cfg: Config, s: State, u: nat, t: nat)
    requires LocksMatch(cfg, s) && Enabled(cfg, s, Statement(u))
    requires t < |s.phases| && t != u && ReadCurrent(cfg, s, t)
    ensures ReadCurrent(cfg, Do(cfg, s, Statement(u)), t)
  {
    if Active(s.phases[t]) {
      assert OrderAt(cfg, t) in s.orderLocks;
      StatementKeepsReads(s.db, cfg.jobs[t].ev, s.phases[t], cfg.jobs[u]);
    }
  }

  lemma OwnReadsKept(cfg: Config, s: State, a: Action)
    requires |s.phases| == |cfg.jobs| && Enabled(cfg, s, a) && ReadCurrent(cfg, s, a.tx)
    ensures ReadCurrent(cfg, Do(cfg, s, a), a.tx)
  {
  }

  lemma ReadsKept(cfg: Config, s: State, a: Action, t: nat)
    requires LocksMatch(cfg, s) && Valid(s.db) && Enabled(cfg, s, a)
    requires t < |s.phases| && ReadCurrent(cfg, s, a.tx) && ReadCurrent(cfg, s, t)
    ensures ReadCurrent(cfg, Do(cfg, s, a), t)
  {
    if t == a.tx {
      OwnReadsKept(cfg, s, a);
    } else if a.CommitTx? {
      CommitReadsKept(cfg, s, a.tx, t);
    } else if a.Statement? {
      StatementReadsKept(cfg, s, a.tx, t);
    }
  }

  lemma SerialSnoc(cfg: Config, log: seq<Commit>, c: Commit)
    requires forall i :: 0 <= i < |log| ==> log[i].tx < |cfg.jobs|
    requires c.tx < |cfg.jobs|
    ensures Serial(cfg, log + [c]) == Exec(Serial(cfg, log), cfg.jobs[c.tx])
  {
    assert (log + [c])[..|log|] == log;
  }

  lemma AcceptedSnoc(cfg: Config, log: seq<Commit>, c: Commit, i: nat)
    requires i <= |log| && c.tx < |cfg.jobs| && forall k :: 0 <= k < |log| ==> log[k].tx < |cfg.jobs|
    ensures i < |log| ==> (Accepted(cfg, log + [c], i) <==> Accepted(cfg, log, i))
    ensures i == |log| ==> (Accepted(cfg, log + [c], i) <==> Succeeds(Serial(cfg, log), cfg.jobs[c.tx]))
  {
    assert (log + [c])[..i] == log[..i];
    assert log[..|log|] == log;
  }

  lemma LogStaysOk(cfg: Config, s: State, a: Action)
    requires LogOk(cfg, s) && Enabled(cfg, s, a)
    ensures LogOk(cfg, Do(cfg, s, a))
  {
  }

  /** One more commit whose operation the serial store accepts. */
  lemma OneMoreAccepted(cfg: Config, log: seq<Commit>, c: Commit)
    requires c.tx < |cfg.jobs| && (forall k :: 0 <= k < |log| ==> log[k].tx < |cfg.jobs|) && AllAccepted(cfg, log)
    requires Succeeds(Serial(cfg, log), cfg.jobs[c.tx])
    ensures AllAccepted(cfg, log + [c])
  {
    forall i | 0 <= i < |log + [c]| ensures Accepted(cfg, log + [c], i) {
      AcceptedSnoc(cfg, log, c, i);
    }
  }

  /** A step that commits executes its operation, which succeeds. */
  lemma CommitExecutes(cfg: Config, s: State, a: Action)
    requires |s.phases| == |cfg.jobs| && RowsOk(s.db) && Enabled(cfg, s, a) && ReadCurrent(cfg, s, a.tx)
    requires a.CommitTx? || a.Statement?
    ensures Succeeds(s.db, cfg.jobs[a.tx]) && Do(cfg, s, a).db == Exec(s.db, cfg.jobs[a.tx])
  {
    if a.CommitTx? {
      CommitIsApply(s.db, cfg.jobs[a.tx], s.phases[a.tx]);
    }
  }

  lemma CommitKeepsSerial(cfg: Config, s: State, a: Action)
    requires LogOk(cfg, s) && Serializable(cfg, s) && RowsOk(s.db) && Enabled(cfg, s, a) && ReadCurrent(cfg, s, a.tx)
    requires a.CommitTx? || a.Statement?
    ensures LogOk(cfg, Do(cfg, s, a)) && Serializable(cfg, Do(cfg, s, a))
  {
    var s' := Do(cfg, s, a);
    var c := s'.log[|s.log|];
    LogStaysOk(cfg, s, a);
    CommitExecutes(cfg, s, a);
    SerialSnoc(cfg, s.log, c);
    OneMoreAccepted(cfg, s.log, c);
  }

  lemma SerialKept(cfg: Config, s: State, a: Action)
    requires LogOk(cfg, s) && Serializable(cfg, s) && Valid(s.db) && Enabled(cfg, s, a) && ReadCurrent(cfg, s, a.tx)
    ensures LogOk(cfg, Do(cfg, s, a)) && Serializable(cfg, Do(cfg, s, a)) && Valid(Do(cfg, s, a).db)
  {
    if a.CommitTx? || a.Statement? {
      CommitKeepsSerial(cfg, s, a);
      CommitExecutes(cfg, s, a);
      ExecKeepsValid(s.db, cfg.jobs[a.tx]);
    } else {
      LogStaysOk(cfg, s, a);
    }
  }

  lemma SnocGrant(grants: seq<Grant>, g: Grant, k: int)
    ensures GrantsOf(grants + [g], k) == GrantsOf(grants, k) + (if g.key == k then [g.tx] else [])
  {
    assert (grants + [g])[..|grants|] == grants;
  }

  lemma SnocCommit(log: seq<Commit>, c: Commit, k: int)
    ensures CommitsOf(log + [c], k) == CommitsOf(log, k) + (if c.key == Some(k) then [c.tx] else [])
  {
    assert (log + [c])[..|log|] == log;
  }

  function Dropped(txs: seq<nat>, t: nat): seq<nat> {
    if txs == [] then []
    else Dropped(txs[..|txs| - 1], t) + if txs[|txs| - 1] == t then [] else [txs[|txs| - 1]]
  }

  lemma SnocDropped(txs: seq<nat>, x: nat, t: nat)
    ensures Dropped(txs + [x], t) == Dropped(txs, t) + (if x == t then [] else [x])
  {
    assert (txs + [x])[..|txs|] == txs;
  }

  lemma {:induction false} WithoutDrops(grants: seq<Grant>, t: nat, k: int)
    ensures GrantsOf(Without(grants, t), k) == Dropped(GrantsOf(grants, k), t)
  {
    if grants != [] {
      var init, last := grants[..|grants| - 1], grants[|grants| - 1];
      WithoutDrops(init, t, k);
      if last.key == k {
        SnocDropped(GrantsOf(init, k), last.tx, t);
      }
      assert last.key != k ==> GrantsOf(grants, k) == GrantsOf(init, k);
      if last.tx != t {
        assert Without(grants, t) == Without(init, t) + [last];
        SnocGrant(Without(init, t), last, k);
      } else {
        assert Without(grants, t) == Without(init, t);
      }
    }
  }

  lemma {:induction false} DroppedAbsent(txs: seq<nat>, t: nat)
    requires t !in txs
    ensures Dropped(txs, t) == txs
  {
    if txs != [] {
      assert txs[|txs| - 1] in txs;
      DroppedAbsent(txs[..|txs| - 1], t);
    }
  }

  lemma {:induction false} CommitsAreLogged(log: seq<Commit>, k: int)
    ensures forall x :: x in CommitsOf(log, k) ==> exists i :: 0 <= i < |log| && log[i].tx == x
  {
    if log != [] {
      var init := log[..|log| - 1];
      CommitsAreLogged(init, k);
      forall x | x in CommitsOf(log, k) ensures exists i :: 0 <= i < |log| && log[i].tx == x {
        if x in CommitsOf(init, k) {
          var i :| 0 <= i < |init| && init[i].tx == x;
          assert log[i].tx == x;
        } else {
          assert log[|log| - 1].tx == x;
        }
      }
    }
  }

  lemma {:induction false} WithoutSubset(grants: seq<Grant>, t: nat)
    ensures forall g :: g in Without(grants, t) ==> g in grants && g.tx != t
  {
    if grants != [] {
      WithoutSubset(grants[..|grants| - 1], t);
    }
  }

  lemma AbortKeepsGrants(s: State, t: nat)
    requires t < |s.phases| && !s.phases[t].Finished? && GrantsCurrent(s)
    ensures GrantsCurrent(Aborted(s, t))
  {
    var s' := Aborted(s, t);
    WithoutSubset(s.grants, t);
    forall i | 0 <= i < |s'.grants| ensures GrantCurrent(s', s'.grants[i].tx) {
      assert s'.grants[i] in s.grants;
      assert GrantCurrent(s, s'.grants[i].tx);
    }
  }

  lemma AbortKeepsKey(cfg: Config, s: State, t: nat, k: int)
    requires LogOk(cfg, s) && KeyInOrder(s, k)
    requires t < |s.phases| && !s.phases[t].Finished?
    ensures KeyInOrder(Aborted(s, t), k)
  {
    var commits := CommitsOf(s.log, k);
    WithoutDrops(s.grants, t, k);
    CommitsAreLogged(s.log, k);
    assert t !in commits;
    DroppedAbsent(commits, t);
    if k in s.inventoryLocks {
      SnocDropped(commits, s.inventoryLocks[k], t);
    } else {
      assert GrantsOf(s.grants, k) == commits;
    }
  }

  /** The holder of a key is the transaction that commits under it. */
  lemma CommitterHolds(cfg: Config, s: State, t: nat, k: int)
    requires LocksMatch(cfg, s) && t < |s.phases|
    ensures s.phases[t].Planned? && KeyOf(cfg, s.phases[t]) == k ==> HolderOf(s, k) == [t]
    ensures !(s.phases[t].Planned? && KeyOf(cfg, s.phases[t]) == k) && !s.phases[t].Holding? ==> t !in HolderOf(s, k)
  {
  }

  lemma ReleaseKeepsHolder(s: State, t: nat, k: int)
    requires t !in HolderOf(s, k)
    ensures HolderOf(s.(inventoryLocks := Release(s.inventoryLocks, t)), k) == HolderOf(s, k)
  {
  }

  lemma CommitKeepsKey(cfg: Config, s: State, t: nat, k: int)
    requires LocksMatch(cfg, s) && KeyInOrder(s, k) && Enabled(cfg, s, CommitTx(t))
    ensures KeyInOrder(Do(cfg, s, CommitTx(t)), k)
  {
    var c := Do(cfg, s, CommitTx(t)).log[|s.log|];
    SnocCommit(s.log, c, k);
    CommitterHolds(cfg, s, t, k);
    if c.key != Some(k) {
      ReleaseKeepsHolder(s, t, k);
      assert CommitsOf(s.log, k) + [] == CommitsOf(s.log, k);
    }
  }

  lemma StatementKeepsKey(cfg: Config, s: State, t: nat, k: int)
    requires |cfg.jobs| == |s.phases| && KeyInOrder(s, k) && Enabled(cfg, s, Statement(t))
    ensures KeyInOrder(Do(cfg, s, Statement(t)), k)
  {
    SnocCommit(s.log, Commit(t, None), k);
    assert CommitsOf(s.log, k) + [] == CommitsOf(s.log, k);
  }

  lemma GrantKeepsKey(cfg: Config, s: State, t: nat, k: int)
    requires |cfg.jobs| == |s.phases| && KeyInOrder(s, k) && Enabled(cfg, s, LockInventory(t))
    ensures KeyInOrder(Do(cfg, s, LockInventory(t)), k)
  {
    SnocGrant(s.grants, Grant(cfg.key(InventoryOf(s.phases[t].read.row)), t), k);
  }

  lemma StepKeepsKey(cfg: Config, s: State, a: Action, k: int)
    requires LocksMatch(cfg, s) && LogOk(cfg, s) && KeyInOrder(s, k)
    requires Enabled(cfg, s, a)
    ensures KeyInOrder(Do(cfg, s, a), k)
  {
    match a
    case CommitTx(t) => CommitKeepsKey(cfg, s, t, k);
    case Statement(t) => StatementKeepsKey(cfg, s, t, k);
    case FailTx(t) => FailKeepsKey(cfg, s, t, k);
    case Crash(t) => AbortKeepsKey(cfg, s, t, k);
    case LockInventory(t) => GrantKeepsKey(cfg, s, t, k);
    case LockOrder(t) =>
    case ReadLots(t) =>
  }

  lemma FailKeepsKey(cfg: Config, s: State, t: nat, k: int)
    requires LogOk(cfg, s) && KeyInOrder(s, k) && Enabled(cfg, s, FailTx(t))
    ensures KeyInOrder(Aborted(s, t), k)
  {
    AbortKeepsKey(cfg, s, t, k);
  }

  lemma StepKeepsGrants(cfg: Config, s: State, a: Action)
    requires GrantsCurrent(s) && |cfg.jobs| == |s.phases| && Enabled(cfg, s, a)
    ensures GrantsCurrent(Do(cfg, s, a))
  {
    if a.FailTx? || a.Crash? {
      AbortKeepsGrants(s, a.tx);
    } else {
      var s' := Do(cfg, s, a);
      forall i | 0 <= i < |s'.grants| ensures GrantCurrent(s', s'.grants[i].tx) {
        if i < |s.grants| {
          assert GrantCurrent(s, s.grants[i].tx);
        }
      }
    }
  }

  lemma StepKeepsInv(cfg: Config, s: State, a: Action)
    requires Inv(cfg, s) && Enabled(cfg, s, a)
    ensures Inv(cfg, Do(cfg, s, a))
  {
    var s' := Do(cfg, s, a);
    OrderLocksKept(cfg, s, a);
    InventoryLocksKept(cfg, s, a);
    assert ReadCurrent(cfg, s, a.tx);
    SerialKept(cfg, s, a);
    forall t | 0 <= t < |s'.phases| ensures ReadCurrent(cfg, s', t) {
      assert ReadCurrent(cfg, s, t);
      ReadsKept(cfg, s, a, t);
    }
    StepKeepsGrants(cfg, s, a);
    forall k ensures KeyInOrder(s', k) {
      assert KeyInOrder(s, k);
      StepKeepsKey(cfg, s, a, k);
    }
  }

  /**
   Under every schedule, crashes included and lock keys colliding or not, the committed store
   is what the sequential store makes of the committed operations in commit order, its books are
   exact, and fills of one inventory are serialized in the order they got its lock.
   */
  lemma {:induction false} EveryScheduleIsSerial(cfg: Config, actions: seq<Action>)
    requires Valid(cfg.initial)
    ensures Inv(cfg, After(cfg, actions))
  {
    if actions != [] {
      var init, a := actions[..|actions| - 1], actions[|actions| - 1];
      EveryScheduleIsSerial(cfg, init);
      if Enabled(cfg, After(cfg, init), a) {
        StepKeepsInv(cfg, After(cfg, init), a);
      }
    }
  }

  // ---------- What the serial order means ----------

  /** What an apply leaves unmatched, if it is a sell with a fill. */
  ghost predicate OversoldExactly(db: Db, ev: Event, unmatched: Decimal)
    requires ev.ref.clientOrderId in db.orders
  {
    var row := db.orders[ev.ref.clientOrderId];
    row.side.Sell? && NewFillQty(row, ev) > 0.0 ==>
      unmatched == Max(0.0, NewFillQty(row, ev) - Ledger.HeldIn(db.ledger.lots, InventoryOf(row)))
  }

  lemma SellOversells(db: Db, w: StoreProof.Write, unmatched: Decimal, ledger: Ledger.Tables)
    requires Ledger.Valid(db.ledger) && InventoriesAgree(db) && w.id in db.orders
    requires StoreProof.WroteLedger(db, w, unmatched, ledger)
    requires w.d.fillDelta > 0.0 && db.orders[w.id].side.Sell?
    ensures unmatched == Max(0.0, w.d.fillDelta - Ledger.HeldIn(db.ledger.lots, InventoryOf(db.orders[w.id])))
  {
    StoreProof.NextFillUnposted(db);
    Ledger.SellOversold(db.ledger, StoreProof.FillToPost(db, w), w.lotId);
  }

  lemma FillIsNewFill(db: Db, w: StoreProof.Write)
    requires RowsOk(db) && StoreProof.Decided(db, w)
    ensures NewFillQty(db.orders[w.id], w.ev) == w.d.fillDelta
  {
    KnownRow(db, w.id);
    DecisionFillIsNewFill(db.orders[w.id], w.ev);
  }

  lemma WritesOversell(db: Db, w: StoreProof.Write, unmatched: Decimal, db': Db)
    requires RowsOk(db) && Ledger.Valid(db.ledger) && InventoriesAgree(db)
    requires StoreProof.Decided(db, w) && StoreProof.WroteLedger(db, w, unmatched, db'.ledger)
    ensures OversoldExactly(db, w.ev, unmatched)
  {
    FillIsNewFill(db, w);
    if w.d.fillDelta > 0.0 && db.orders[w.id].side.Sell? {
      SellOversells(db, w, unmatched, db'.ledger);
    }
  }

  /** A sell leaves unmatched exactly what its inventory's lots could not cover. */
  lemma OversellIsExact(db: Db, source: Source, ev: Event, lotId: string, now: Instant)
    requires RowsOk(db) && Ledger.Valid(db.ledger) && InventoriesAgree(db) && ApplyEvent(db, source, ev, lotId, now).Ok?
    ensures OversoldExactly(db, ev, ApplyEvent(db, source, ev, lotId, now).value.1.unmatchedQty)
  {
    var id := ev.ref.clientOrderId;
    KnownRow(db, id);
    var d := Machine.Transition(StateOf(db.orders[id]), ev).value;
    DecisionFillIsNewFill(db.orders[id], ev);
    if Persists(d) {
      var w := StoreProof.Write(id, source, ev, d, lotId, now);
      StoreProof.PersistWrites(db, w);
      var r := Persist(db, source, ev, d, lotId, now).value;
      WritesOversell(db, w, r.1.unmatchedQty, r.0);
    }
  }

  /**
   No committed sell records a false oversell: at its position in the commit log, what it
   leaves unmatched is exactly what the lots committed before it could not cover.
   */
  lemma NoFalseOversell(cfg: Config, actions: seq<Action>, i: nat)
    requires Valid(cfg.initial) && i < |After(cfg, actions).log|
    ensures var log := After(cfg, actions).log;
            && LogOk(cfg, After(cfg, actions))
            && (cfg.jobs[log[i].tx].Apply? ==> OpensNext(cfg, log, i))
  {
    EveryScheduleIsSerial(cfg, actions);
    if cfg.jobs[After(cfg, actions).log[i].tx].Apply? {
      LoggedApply(cfg, After(cfg, actions).log, i);
    }
  }

  /** Commit `i` leaves the next serial store, and unmatched what the one before could not cover. */
  ghost predicate OpensNext(cfg: Config, log: seq<Commit>, i: nat)
    requires i < |log| && (forall k :: 0 <= k < |log| ==> log[k].tx < |cfg.jobs|) && cfg.jobs[log[i].tx].Apply?
  {
    var before, op := Serial(cfg, log[..i]), cfg.jobs[log[i].tx];
    var r := ApplyEvent(before, op.source, op.ev, op.lotId, op.now);
    && r.Ok? && Serial(cfg, log[..i + 1]) == r.value.0
    && OversoldExactly(before, op.ev, r.value.1.unmatchedQty)
  }

  lemma LoggedApply(cfg: Config, log: seq<Commit>, i: nat)
    requires Valid(cfg.initial) && i < |log| && forall k :: 0 <= k < |log| ==> log[k].tx < |cfg.jobs|
    requires cfg.jobs[log[i].tx].Apply? && Accepted(cfg, log, i)
    ensures OpensNext(cfg, log, i)
  {
    var before, op := Serial(cfg, log[..i]), cfg.jobs[log[i].tx];
    assert log[..i + 1] == log[..i] + [log[i]];
    SerialSnoc(cfg, log[..i], log[i]);
    SerialIsValid(cfg, log[..i]);
    OversellIsExact(before, op.source, op.ev, op.lotId, op.now);
  }

  lemma {:induction false} SerialIsValid(cfg: Config, log: seq<Commit>)
    requires Valid(cfg.initial) && forall i :: 0 <= i < |log| ==> log[i].tx < |cfg.jobs|
    ensures Valid(Serial(cfg, log))
  {
    if log != [] {
      SerialIsValid(cfg, log[..|log| - 1]);
      ExecKeepsValid(Serial(cfg, log[..|log| - 1]), cfg.jobs[log[|log| - 1].tx]);
    }
  }

  lemma {:induction false} SerialIsPriced(cfg: Config, log: seq<Commit>)
    requires Valid(cfg.initial) && Profit.Priced(cfg.initial) && forall i :: 0 <= i < |log| ==> log[i].tx < |cfg.jobs|
    ensures Profit.Priced(Serial(cfg, log))
  {
    if log != [] {
      var init := log[..|log| - 1];
      SerialIsPriced(cfg, init);
      SerialIsValid(cfg, init);
      Profit.ExecKeepsPriced(Serial(cfg, init), cfg.jobs[log[|log| - 1].tx]);
    }
  }

  /** Concurrency does not touch profit either: costs and prices are those of the fills. */
  lemma EveryScheduleIsPriced(cfg: Config, actions: seq<Action>)
    requires Valid(cfg.initial) && Profit.Priced(cfg.initial)
    ensures Profit.Priced(After(cfg, actions).db)
  {
    EveryScheduleIsSerial(cfg, actions);
    SerialIsPriced(cfg, After(cfg, actions).log);
  }

  // ---------- Progress ----------

  /** A step that is not a crash. */
  predicate Works(a: Action) {
    !a.Crash?
  }

  /** No deadlock: under every schedule, while a transaction is unfinished, some transaction can take a step. */
  lemma SomeoneCanStep(cfg: Config, actions: seq<Action>, t: nat)
    requires Valid(cfg.initial) && t < |cfg.jobs| && !After(cfg, actions).phases[t].Finished?
    ensures exists a :: Works(a) && Enabled(cfg, After(cfg, actions), a)
  {
    EveryScheduleIsSerial(cfg, actions);
    UnfinishedCanStep(cfg, After(cfg, actions), t);
  }

  lemma UnfinishedCanStep(cfg: Config, s: State, t: nat)
    requires LocksMatch(cfg, s) && (forall u :: 0 <= u < |s.phases| ==> ReadCurrent(cfg, s, u))
    requires t < |s.phases| && !s.phases[t].Finished?
    ensures exists a :: Works(a) && Enabled(cfg, s, a)
  {
    assert ReadCurrent(cfg, s, t);
    if Active(s.phases[t]) {
      ActiveCanStep(cfg, s, t);
    } else if OrderAt(cfg, t) in s.orderLocks {
      assert ReadCurrent(cfg, s, s.orderLocks[OrderAt(cfg, t)]);
      ActiveCanStep(cfg, s, s.orderLocks[OrderAt(cfg, t)]);
    } else {
      UnlockedCanStep(cfg, s, t);
    }
  }

  lemma UnlockedCanStep(cfg: Config, s: State, t: nat)
    requires |cfg.jobs| == |s.phases| && t < |s.phases| && s.phases[t].Waiting? && OrderAt(cfg, t) !in s.orderLocks
    ensures exists a :: Works(a) && Enabled(cfg, s, a)
  {
    if CanExecute(cfg, s, t) {
      assert Enabled(cfg, s, Statement(t));
    } else if CanLockOrder(cfg, s, t) {
      assert Enabled(cfg, s, LockOrder(t));
    } else {
      assert Enabled(cfg, s, FailTx(t));
    }
  }

  lemma ReadyCanStep(cfg: Config, s: State, t: nat)
    requires |cfg.jobs| == |s.phases| && t < |s.phases| && CanWrite(cfg, s, t)
    ensures exists a :: Works(a) && Enabled(cfg, s, a)
  {
    if WritesOf(cfg, s, t).Ok? {
      assert Enabled(cfg, s, CommitTx(t));
    } else {
      assert Enabled(cfg, s, FailTx(t));
    }
  }

  lemma HolderCanStep(cfg: Config, s: State, t: nat)
    requires |cfg.jobs| == |s.phases| && t < |s.phases| && HoldsInventory(s.phases[t]) && cfg.jobs[t].Apply?
    ensures exists a :: Works(a) && Enabled(cfg, s, a)
  {
    if s.phases[t].Planned? {
      ReadyCanStep(cfg, s, t);
    } else if CanReadLots(s, t) {
      assert Enabled(cfg, s, ReadLots(t));
    } else {
      assert Enabled(cfg, s, FailTx(t));
    }
  }

  lemma ActiveCanStep(cfg: Config, s: State, t: nat)
    requires LocksMatch(cfg, s) && t < |s.phases| && Active(s.phases[t])
    requires forall u :: 0 <= u < |s.phases| ==> ReadCurrent(cfg, s, u)
    ensures exists a :: Works(a) && Enabled(cfg, s, a)
  {
    var k := cfg.key(InventoryOf(s.phases[t].read.row));
    assert ReadCurrent(cfg, s, t);
    if HoldsInventory(s.phases[t]) {
      HolderCanStep(cfg, s, t);
    } else if Ready(s.phases[t]) {
      ReadyCanStep(cfg, s, t);
    } else if cfg.jobs[t].ev.fillPrice < 0.0 {
      assert Enabled(cfg, s, FailTx(t));
    } else if k in s.inventoryLocks {
      var u := s.inventoryLocks[k];
      assert HoldsInventory(s.phases[u]) && ReadCurrent(cfg, s, u);
      HolderCanStep(cfg, s, u);
    } else {
      assert Enabled(cfg, s, LockInventory(t));
    }
  }

  function Stage(p: Phase): nat {
    match p
    case Waiting => 0
    case Decided(_, _) => 1
    case Holding(_, _) => 2
    case Planned(_, _, _) => 3
    case Finished(_) => 4
  }

  function Stages(phases: seq<Phase>): nat {
    if phases == [] then 0 else Stages(phases[..|phases| - 1]) + Stage(phases[|phases| - 1])
  }

  lemma {:induction false} StagesUpdate(phases: seq<Phase>, t: nat, p: Phase)
    requires t < |phases|
    ensures Stages(phases[t := p]) == Stages(phases) - Stage(phases[t]) + Stage(p)
  {
    var n := |phases| - 1;
    if t == n {
      assert phases[t := p][..n] == phases[..n];
    } else {
      assert phases[t := p][..n] == phases[..n][t := p];
      StagesUpdate(phases[..n], t, p);
    }
  }

  lemma {:induction false} StagesBound(phases: seq<Phase>)
    ensures Stages(phases) <= 4 * |phases|
  {
    if phases != [] {
      StagesBound(phases[..|phases| - 1]);
    }
  }

  lemma StepAdvances(cfg: Config, s: State, a: Action)
    requires |cfg.jobs| == |s.phases| && Enabled(cfg, s, a)
    ensures Stages(s.phases) < Stages(Do(cfg, s, a).phases)
  {
    var s' := Do(cfg, s, a);
    assert s'.phases == s.phases[a.tx := s'.phases[a.tx]];
    StagesUpdate(s.phases, a.tx, s'.phases[a.tx]);
  }

  /** How many actions of a schedule were steps. */
  function StepsTaken(cfg: Config, actions: seq<Action>): nat {
    if actions == [] then 0
    else
      var init := actions[..|actions| - 1];
      StepsTaken(cfg, init) + if Enabled(cfg, After(cfg, init), actions[|actions| - 1]) then 1 else 0
  }

  /** n transactions take at most 4n steps, however they are scheduled. */
  lemma StepsAreBounded(cfg: Config, actions: seq<Action>)
    ensures StepsTaken(cfg, actions) <= 4 * |cfg.jobs|
  {
    StepsAreStages(cfg, actions);
    StagesBound(After(cfg, actions).phases);
  }

  lemma {:induction false} StepsAreStages(cfg: Config, actions: seq<Action>)
    ensures StepsTaken(cfg, actions) <= Stages(After(cfg, actions).phases)
  {
    if actions != [] {
      var init, a := actions[..|actions| - 1], actions[|actions| - 1];
      StepsAreStages(cfg, init);
      if Enabled(cfg, After(cfg, init), a) {
        StepAdvances(cfg, After(cfg, init), a);
      }
    }
  }
}

/**
 Balance snapshots: targets that share one buffered series writer write their rows, flush,
 record a checkpoint and publish. The writer serialises single calls only; a mutex is held
 from the first write to the end of the flush, so that no flush decides over the rows of a
 snapshot that another target is still writing or has reported as stored.
 */
module Snapshots {
  import opened Prelude

  datatype Balance = Balance(currency: string, total: Decimal)

  /** A series row, tagged with the snapshot it belongs to. */
  datatype Row = Row(job: nat, balance: Balance)

  function NonZero(balances: seq<Balance>): seq<Balance> {
    if balances == [] then []
    else
      var last := balances[|balances| - 1];
      NonZero(balances[..|balances| - 1]) + (if last.total != 0.0 then [last] else [])
  }

  /** NonZero drops exactly the zero totals. */
  lemma {:induction false} NonZeroKeeps(balances: seq<Balance>, b: Balance)
    ensures b in NonZero(balances) <==> b in balances && b.total != 0.0
  {
    if balances != [] {
      var n := |balances| - 1;
      NonZeroKeeps(balances[..n], b);
      assert b in balances <==> b in balances[..n] || b == balances[n];
    }
  }

  datatype Phase =
    | Fetched
    | Writing(next: nat)
    | Flushed
    | Recorded
    | Failing
    | Done

  datatype Job = Job(balances: seq<Balance>, phase: Phase)

  datatype Checkpoint = Checkpoint(ok: bool, balanceCount: nat)

  datatype State = State(
    jobs: map<nat, Job>,
    lock: Option<nat>,
    buffer: set<Row>,
    durable: set<Row>,
    checkpoints: map<nat, Checkpoint>,
    published: set<nat>)

  const START: State := State(map[], None, {}, {}, map[], {})

  /** A failed write or flush may have stored some rows and may have kept others buffered. */
  datatype Outcome = Fine | Flush | Failure(stored: set<Row>, kept: set<Row>)

  datatype Action =
    | Fetch(job: nat, balances: seq<Balance>)
    | FetchFails(job: nat)
    | Acquire(job: nat)
    | WriteRow(job: nat, outcome: Outcome)
    | FlushAll(job: nat, outcome: Outcome)
    | Record(job: nat, answered: bool, stored: bool)
    | Publish(job: nat)
    | Crash

  predicate InPhase(s: State, j: nat, p: Phase) {
    j in s.jobs && s.jobs[j].phase == p
  }

  predicate IsWriting(s: State, j: nat) {
    j in s.jobs && s.jobs[j].phase.Writing?
  }

  function RowCount(s: State, j: nat): nat
    requires j in s.jobs
  {
    |NonZero(s.jobs[j].balances)|
  }

  /** The writer buffers every row, and flushes on its own at times. */
  predicate Enabled(s: State, a: Action) {
    match a
    case Fetch(j, _) => j !in s.jobs
    case FetchFails(j) => j !in s.jobs
    case Acquire(j) => InPhase(s, j, Fetched) && s.lock.None?
    case WriteRow(j, outcome) =>
      IsWriting(s, j) && s.jobs[j].phase.next < RowCount(s, j) &&
      (outcome.Failure? ==> outcome.stored + outcome.kept <= s.buffer + {NextRow(s, j)})
    case FlushAll(j, outcome) =>
      IsWriting(s, j) && s.jobs[j].phase.next == RowCount(s, j) &&
      (outcome.Failure? ==> outcome.stored + outcome.kept <= s.buffer)
    case Record(j, answered, stored) =>
      (InPhase(s, j, Flushed) || InPhase(s, j, Failing)) && (answered ==> stored)
    case Publish(j) => InPhase(s, j, Recorded)
    case Crash => true
  }

  function NextRow(s: State, j: nat): Row
    requires IsWriting(s, j) && s.jobs[j].phase.next < RowCount(s, j)
  {
    Row(j, NonZero(s.jobs[j].balances)[s.jobs[j].phase.next])
  }

  function To(s: State, j: nat, p: Phase): State
    requires j in s.jobs
  {
    s.(jobs := s.jobs[j := s.jobs[j].(phase := p)])
  }

  /** Rows the writer now holds, those it made durable, and whether the call reported success. */
  function Wrote(s: State, rows: set<Row>, outcome: Outcome): State {
    match outcome
    case Fine => s.(buffer := s.buffer + rows)
    case Flush => s.(buffer := {}, durable := s.durable + s.buffer + rows)
    case Failure(stored, kept) => s.(buffer := kept, durable := s.durable + stored)
  }

  function Do(s: State, a: Action): State
    requires Enabled(s, a)
  {
    match a
    case Fetch(j, balances) => s.(jobs := s.jobs[j := Job(balances, Fetched)])
    case FetchFails(j) => s.(jobs := s.jobs[j := Job([], Failing)])
    case Acquire(j) => To(s, j, Writing(0)).(lock := Some(j))
    case WriteRow(j, outcome) =>
      var s1 := Wrote(s, {NextRow(s, j)}, outcome);
      if outcome.Failure? then To(s1, j, Failing).(lock := None)
      else To(s1, j, Writing(s.jobs[j].phase.next + 1))
    case FlushAll(j, outcome) =>
      var s1 := if outcome.Failure? then Wrote(s, {}, outcome) else Wrote(s, {}, Flush);
      To(s1, j, if outcome.Failure? then Failing else Flushed).(lock := None)
    case Record(j, answered, stored) =>
      var ok := InPhase(s, j, Flushed);
      var c := Checkpoint(ok, if ok then RowCount(s, j) else 0);
      var s1 := if stored then s.(checkpoints := s.checkpoints[j := c]) else s;
      To(s1, j, if ok && answered then Recorded else Done)
    case Publish(j) => To(s, j, Done).(published := s.published + {j})
    case Crash =>
      s.(jobs := map j | j in s.jobs :: s.jobs[j].(phase := Done), lock := None, buffer := {})
  }

  function After(actions: seq<Action>): State {
    if actions == [] then START
    else
      var s, a := After(actions[..|actions| - 1]), actions[|actions| - 1];
      if Enabled(s, a) then Do(s, a) else s
  }

  // ---------- What a checkpoint promises ----------

  /** Every non-zero balance of snapshot `j` is durable. */
  ghost predicate Stored(s: State, j: nat) {
    j in s.jobs && forall b :: b in s.jobs[j].balances && b.total != 0.0 ==> Row(j, b) in s.durable
  }

  /** An ok checkpoint describes durable rows, and counts them. */
  ghost predicate CheckpointsHonest(s: State) {
    forall j :: j in s.checkpoints && s.checkpoints[j].ok ==>
        Stored(s, j) && s.checkpoints[j].balanceCount == RowCount(s, j)
  }

  ghost predicate PublicationsAnchored(s: State) {
    forall j :: j in s.published ==> j in s.checkpoints && s.checkpoints[j].ok
  }

  ghost predicate PhaseOk(s: State, j: nat)
    requires j in s.jobs
  {
    var job := s.jobs[j];
    && (job.phase.Writing? ==>
          && s.lock == Some(j) && job.phase.next <= RowCount(s, j)
          && forall k :: 0 <= k < job.phase.next ==> Written(s, j, k))
    && (job.phase.Flushed? || job.phase.Recorded? ==> Stored(s, j))
    && (job.phase.Recorded? ==> j in s.checkpoints && s.checkpoints[j].ok)
    && ((job.phase.Fetched? || job.phase.Writing? || job.phase.Flushed? || job.phase.Failing?) ==> j !in s.checkpoints)
  }

  ghost predicate Written(s: State, j: nat, k: nat)
    requires j in s.jobs && k < RowCount(s, j)
  {
    Row(j, NonZero(s.jobs[j].balances)[k]) in s.buffer + s.durable
  }

  ghost predicate Inv(s: State) {
    && CheckpointsHonest(s) && PublicationsAnchored(s)
    && (forall j :: j in s.jobs ==> PhaseOk(s, j))
    && s.checkpoints.Keys <= s.jobs.Keys
  }

  /** Nothing durable is lost and no other job's rows, phase or checkpoint changes. */
  ghost predicate Beside(s: State, s': State, j: nat) {
    && s.durable <= s'.durable
    && s'.jobs.Keys == s.jobs.Keys + {j}
    && (forall i :: i in s.jobs && i != j ==> s'.jobs[i] == s.jobs[i])
    && (j in s.jobs ==> s'.jobs[j].balances == s.jobs[j].balances)
    && (forall i :: i != j ==> (i in s'.checkpoints <==> i in s.checkpoints))
    && (forall i :: i in s.checkpoints ==> i in s'.checkpoints && s'.checkpoints[i] == s.checkpoints[i])
  }

  lemma BesideKeepsOthers(s: State, s': State, j: nat, i: nat)
    requires Beside(s, s', j) && i in s.jobs && i != j && PhaseOk(s, i)
    requires s.jobs[i].phase.Writing? ==> s'.lock == s.lock && s'.buffer == s.buffer
    ensures PhaseOk(s', i)
  {
    if s.jobs[i].phase.Writing? {
      forall k | 0 <= k < s'.jobs[i].phase.next ensures Written(s', i, k) {
        assert Written(s, i, k);
      }
    }
  }

  lemma BesideKeepsHonest(s: State, s': State, j: nat)
    requires CheckpointsHonest(s) && Beside(s, s', j)
    requires j in s'.checkpoints && j !in s.checkpoints && s'.checkpoints[j].ok ==>
               Stored(s', j) && s'.checkpoints[j].balanceCount == RowCount(s', j)
    ensures CheckpointsHonest(s')
  {
    forall i | i in s'.checkpoints && s'.checkpoints[i].ok
      ensures Stored(s', i) && s'.checkpoints[i].balanceCount == RowCount(s', i)
    {
      if i in s.checkpoints {
        assert Stored(s, i);
      }
    }
  }

  /** The lock holder is the only writer. */
  lemma OneWriter(s: State, j: nat, i: nat)
    requires Inv(s) && IsWriting(s, j) && i in s.jobs && i != j
    ensures !s.jobs[i].phase.Writing?
  {
    assert PhaseOk(s, j) && PhaseOk(s, i);
  }

  lemma WriteKeeps(s: State, j: nat, outcome: Outcome)
    requires Inv(s) && Enabled(s, WriteRow(j, outcome))
    ensures Inv(Do(s, WriteRow(j, outcome)))
  {
    var s' := Do(s, WriteRow(j, outcome));
    assert PhaseOk(s, j);
    BesideKeepsHonest(s, s', j);
    forall i | i in s'.jobs ensures PhaseOk(s', i) {
      if i != j {
        OneWriter(s, j, i);
        BesideKeepsOthers(s, s', j, i);
      } else if !outcome.Failure? {
        forall k | 0 <= k < s'.jobs[j].phase.next ensures Written(s', j, k) {
          assert k < s.jobs[j].phase.next ==> Written(s, j, k);
        }
      }
    }
  }

  /** Once every row is in the buffer or durable, a flush that succeeds stores the snapshot. */
  lemma FlushStores(s: State, j: nat)
    requires Inv(s) && IsWriting(s, j) && s.jobs[j].phase.next == RowCount(s, j)
    ensures Stored(Do(s, FlushAll(j, Fine)), j)
  {
    var s' := Do(s, FlushAll(j, Fine));
    assert PhaseOk(s, j);
    forall b | b in s'.jobs[j].balances && b.total != 0.0 ensures Row(j, b) in s'.durable {
      NonZeroKeeps(s.jobs[j].balances, b);
      var k :| 0 <= k < RowCount(s, j) && NonZero(s.jobs[j].balances)[k] == b;
      assert Written(s, j, k);
    }
  }

  lemma FlushKeeps(s: State, j: nat, outcome: Outcome)
    requires Inv(s) && Enabled(s, FlushAll(j, outcome))
    ensures Inv(Do(s, FlushAll(j, outcome)))
  {
    var s' := Do(s, FlushAll(j, outcome));
    assert PhaseOk(s, j);
    if !outcome.Failure? {
      FlushStores(s, j);
    }
    BesideKeepsHonest(s, s', j);
    forall i | i in s'.jobs ensures PhaseOk(s', i) {
      if i != j {
        OneWriter(s, j, i);
        BesideKeepsOthers(s, s', j, i);
      }
    }
  }

  /** Every action that leaves the writer and the lock alone. */
  lemma QuietKeeps(s: State, a: Action, j: nat)
    requires Inv(s) && Enabled(s, a)
    requires a == FetchFails(j) || (a.Fetch? && a.job == j) || (a.Record? && a.job == j) || a == Publish(j)
    ensures Inv(Do(s, a))
  {
    var s' := Do(s, a);
    assert j in s.jobs ==> PhaseOk(s, j);
    BesideKeepsHonest(s, s', j);
    forall i | i in s'.jobs ensures PhaseOk(s', i) {
      if i != j {
        BesideKeepsOthers(s, s', j, i);
      }
    }
  }

  lemma AcquireKeeps(s: State, j: nat)
    requires Inv(s) && Enabled(s, Acquire(j))
    ensures Inv(Do(s, Acquire(j)))
  {
    var s' := Do(s, Acquire(j));
    assert PhaseOk(s, j);
    BesideKeepsHonest(s, s', j);
    forall i | i in s'.jobs ensures PhaseOk(s', i) {
      if i != j {
        assert PhaseOk(s, i);
        BesideKeepsOthers(s, s', j, i);
      }
    }
  }

  lemma CrashKeeps(s: State)
    requires Inv(s)
    ensures Inv(Do(s, Crash))
  {
    var s' := Do(s, Crash);
    forall j | j in s'.checkpoints && s'.checkpoints[j].ok
      ensures Stored(s', j) && s'.checkpoints[j].balanceCount == RowCount(s', j)
    {
      assert Stored(s, j);
    }
  }

  lemma {:induction false} EveryScheduleKeepsInv(actions: seq<Action>)
    ensures Inv(After(actions))
  {
    if actions != [] {
      var init, a := actions[..|actions| - 1], actions[|actions| - 1];
      var s := After(init);
      EveryScheduleKeepsInv(init);
      if Enabled(s, a) {
        match a
        case Fetch(j, _) => QuietKeeps(s, a, j);
        case FetchFails(j) => QuietKeeps(s, a, j);
        case Acquire(j) => AcquireKeeps(s, j);
        case WriteRow(j, outcome) => WriteKeeps(s, j, outcome);
        case FlushAll(j, outcome) => FlushKeeps(s, j, outcome);
        case Record(j, _, _) => QuietKeeps(s, a, j);
        case Publish(j) => QuietKeeps(s, a, j);
        case Crash => CrashKeeps(s);
      }
    }
  }

  /**
   In every interleaving of targets, lost and kept rows and crashes: a published snapshot has
   an ok checkpoint, and an ok checkpoint means that all its non-zero rows are durable.
   */
  lemma PublishedMeansDurable(actions: seq<Action>, j: nat)
    ensures var s := After(actions);
            && (j in s.published ==> j in s.checkpoints && s.checkpoints[j].ok)
            && (j in s.checkpoints && s.checkpoints[j].ok ==>
                  Stored(s, j) && s.checkpoints[j].balanceCount == RowCount(s, j))
  {
    EveryScheduleKeepsInv(actions);
  }

  // ---------- What the mutex keeps apart ----------

  /** A snapshot that failed, or was cut off, and was never reported as stored. */
  ghost predicate GivenUp(s: State, j: nat)
    requires j in s.jobs
  {
    && (s.jobs[j].phase.Failing? || s.jobs[j].phase.Done?)
    && (j in s.checkpoints ==> !s.checkpoints[j].ok)
  }

  /** A buffered row belongs to the one snapshot being written, or to one that was given up. */
  ghost predicate RowOwned(s: State, r: Row) {
    r.job in s.jobs && (s.jobs[r.job].phase.Writing? || GivenUp(s, r.job))
  }

  ghost predicate BufferOwned(s: State) {
    forall r :: r in s.buffer ==> RowOwned(s, r)
  }

  lemma WriterStepKeepsOwned(s: State, a: Action)
    requires Inv(s) && BufferOwned(s) && Enabled(s, a) && (a.WriteRow? || a.FlushAll?)
    ensures BufferOwned(Do(s, a))
  {
    var s' := Do(s, a);
    assert PhaseOk(s, a.job);
    forall r | r in s'.buffer ensures RowOwned(s', r) {
      assert r.job != a.job ==> r in s.buffer && RowOwned(s, r);
    }
  }

  lemma OtherStepKeepsOwned(s: State, a: Action)
    requires Inv(s) && BufferOwned(s) && Enabled(s, a) && !a.WriteRow? && !a.FlushAll?
    ensures BufferOwned(Do(s, a))
  {
    var s' := Do(s, a);
    forall r | r in s'.buffer ensures RowOwned(s', r) {
      assert RowOwned(s, r) && PhaseOk(s, r.job);
    }
  }

  /**
   In every interleaving, buffered rows are those of the one snapshot that holds the mutex and
   of snapshots that were given up: no flush decides over rows of any other target.
   */
  lemma {:induction false} FlushesAreOwn(actions: seq<Action>)
    ensures BufferOwned(After(actions))
    ensures forall i, j :: IsWriting(After(actions), i) && IsWriting(After(actions), j) ==> i == j
  {
    if actions != [] {
      var init, a := actions[..|actions| - 1], actions[|actions| - 1];
      var s := After(init);
      FlushesAreOwn(init);
      EveryScheduleKeepsInv(init);
      if Enabled(s, a) {
        if a.WriteRow? || a.FlushAll? {
          WriterStepKeepsOwned(s, a);
        } else {
          OtherStepKeepsOwned(s, a);
        }
      }
    }
    WritersAlone(actions);
  }

  lemma WritersAlone(actions: seq<Action>)
    ensures forall i, j :: IsWriting(After(actions), i) && IsWriting(After(actions), j) ==> i == j
  {
    EveryScheduleKeepsInv(actions);
    var s := After(actions);
    forall i, j | IsWriting(s, i) && IsWriting(s, j) ensures i == j {
      assert PhaseOk(s, i) && PhaseOk(s, j);
    }
  }

  // ---------- A snapshot that nothing disturbs ----------

  function Repeated(a: Action, n: nat): seq<Action> {
    if n == 0 then [] else Repeated(a, n - 1) + [a]
  }

  lemma OneMore(actions: seq<Action>, a: Action)
    requires Enabled(After(actions), a)
    ensures After(actions + [a]) == Do(After(actions), a)
  {
    assert (actions + [a])[..|actions|] == actions;
  }

  /** Snapshot `j` of these balances has written its first `k` rows. */
  ghost predicate WroteRows(s: State, j: nat, balances: seq<Balance>, k: nat) {
    InPhase(s, j, Writing(k)) && s.jobs[j].balances == balances
  }

  lemma RowWritten(actions: seq<Action>, j: nat, balances: seq<Balance>, k: nat)
    requires WroteRows(After(actions), j, balances, k) && k < |NonZero(balances)|
    ensures WroteRows(After(actions + [WriteRow(j, Fine)]), j, balances, k + 1)
  {
    OneMore(actions, WriteRow(j, Fine));
  }

  lemma {:induction false} AllRowsWritten(actions: seq<Action>, j: nat, balances: seq<Balance>, k: nat)
    requires WroteRows(After(actions), j, balances, 0) && k <= |NonZero(balances)|
    ensures WroteRows(After(actions + Repeated(WriteRow(j, Fine), k)), j, balances, k)
  {
    if k == 0 {
      assert actions + [] == actions;
    } else {
      var before := actions + Repeated(WriteRow(j, Fine), k - 1);
      AllRowsWritten(actions, j, balances, k - 1);
      RowWritten(before, j, balances, k - 1);
      assert actions + Repeated(WriteRow(j, Fine), k) == before + [WriteRow(j, Fine)];
    }
  }

  /** Everything a target does when nothing fails. */
  function Undisturbed(j: nat, balances: seq<Balance>): seq<Action> {
    [Fetch(j, balances), Acquire(j)] + Repeated(WriteRow(j, Fine), |NonZero(balances)|) +
    [FlushAll(j, Fine), Record(j, true, true), Publish(j)]
  }

  lemma WrittenIsPublished(actions: seq<Action>, j: nat)
    requires var s := After(actions);
             && j in s.jobs && s.jobs[j].phase == Writing(RowCount(s, j))
    ensures var n, s' := RowCount(After(actions), j),
                After(actions + [FlushAll(j, Fine)] + [Record(j, true, true)] + [Publish(j)]);
            j in s'.published && j in s'.checkpoints && s'.checkpoints[j] == Checkpoint(true, n) &&
            j in s'.jobs && s'.jobs[j].balances == After(actions).jobs[j].balances
  {
    OneMore(actions, FlushAll(j, Fine));
    OneMore(actions + [FlushAll(j, Fine)], Record(j, true, true));
    OneMore(actions + [FlushAll(j, Fine)] + [Record(j, true, true)], Publish(j));
  }

  lemma FetchedIsWritten(actions: seq<Action>, j: nat, balances: seq<Balance>)
    requires j !in After(actions).jobs && After(actions).lock.None?
    ensures var n := |NonZero(balances)|;
            var s := After(actions + [Fetch(j, balances)] + [Acquire(j)] + Repeated(WriteRow(j, Fine), n));
            WroteRows(s, j, balances, n)
  {
    OneMore(actions, Fetch(j, balances));
    OneMore(actions + [Fetch(j, balances)], Acquire(j));
    AllRowsWritten(actions + [Fetch(j, balances)] + [Acquire(j)], j, balances, |NonZero(balances)|);
  }

  lemma UndisturbedSplits(actions: seq<Action>, j: nat, balances: seq<Balance>)
    ensures actions + Undisturbed(j, balances) ==
            actions + [Fetch(j, balances)] + [Acquire(j)] + Repeated(WriteRow(j, Fine), |NonZero(balances)|) +
            [FlushAll(j, Fine)] + [Record(j, true, true)] + [Publish(j)]
  {
  }

  /** Whatever happened before, as long as the mutex is free: a snapshot nothing disturbs is recorded and published. */
  lemma UndisturbedIsPublished(actions: seq<Action>, j: nat, balances: seq<Balance>)
    requires j !in After(actions).jobs && After(actions).lock.None?
    ensures var s := After(actions + Undisturbed(j, balances));
            && j in s.published && j in s.checkpoints && s.checkpoints[j].ok
            && s.checkpoints[j].balanceCount == |NonZero(balances)|
            && forall b :: b in balances && b.total != 0.0 ==> Row(j, b) in s.durable
  {
    FetchedIsWritten(actions, j, balances);
    WrittenIsPublished(actions + [Fetch(j, balances)] + [Acquire(j)] +
                       Repeated(WriteRow(j, Fine), |NonZero(balances)|), j);
    UndisturbedSplits(actions, j, balances);
    PublishedMeansDurable(actions + Undisturbed(j, balances), j);
  }

  /** A target whose balances could not be fetched is recorded as failed, and not published. */
  lemma FailedFetchIsRecorded(actions: seq<Action>, j: nat)
    requires j !in After(actions).jobs
    ensures var s := After(actions + [FetchFails(j), Record(j, true, true)]);
            j in s.checkpoints && s.checkpoints[j] == Checkpoint(false, 0) && j !in s.published
  {
    EveryScheduleKeepsInv(actions);
    OneMore(actions, FetchFails(j));
    OneMore(actions + [FetchFails(j)], Record(j, true, true));
    assert actions + [FetchFails(j), Record(j, true, true)] == actions + [FetchFails(j)] + [Record(j, true, true)];
  }
}

/**
 The lot ledger: the tables lots, lot_closures and unmatched_sells, and the posting of one
 fill to them. Every CHECK, UNIQUE and foreign key constraint of the tables is modelled as
 an error, and shown never to fire.
 */
module Ledger {
  import opened Prelude
  import opened Domain
  import opened Fifo

  datatype LotRow = LotRow(lot: Lot, openedBy: nat, open: bool, closedAt: Option<Instant>)

  datatype ClosureRow = ClosureRow(lotId: string, fillId: nat, qty: Decimal, price: Decimal, closedAt: Instant)

  datatype UnmatchedRow = UnmatchedRow(fillId: nat, inventory: Inventory, qty: Decimal, at: Instant)

  datatype Tables = Tables(lots: seq<LotRow>, closures: seq<ClosureRow>, unmatched: seq<UnmatchedRow>)

  const EMPTY: Tables := Tables([], [], [])

  datatype LedgerError = NonPositiveQty | NegativePrice | SideNotSupported | LotIdTaken | ConstraintViolated

  /** What a fill posts: the fill row's key and quantity with its order's side and inventory. */
  datatype Fill = Fill(id: nat, side: Side, inventory: Inventory, qty: Decimal, price: Decimal, at: Instant)

  /** The writes a fill decides on after reading the open lots. */
  datatype Posting = OpenLot(row: LotRow) | CloseLots(closures: seq<Closure>, unmatched: Decimal)

  // ---------- Statements ----------

  predicate LotChecks(r: LotRow) {
    && r.lot.qty > 0.0
    && 0.0 <= r.lot.remaining <= r.lot.qty
    && r.lot.cost >= 0.0
    && r.open == r.closedAt.None?
    && (!r.open || r.lot.remaining > 0.0)
    && (r.open || r.lot.remaining == 0.0)
  }

  function InsertLot(t: Tables, row: LotRow): Result<Tables, LedgerError> {
    if exists i :: 0 <= i < |t.lots| && t.lots[i].lot.id == row.lot.id then
      Err(LotIdTaken)
    else if !LotChecks(row) || exists i :: 0 <= i < |t.lots| && t.lots[i].openedBy == row.openedBy then
      Err(ConstraintViolated)
    else
      Ok(t.(lots := t.lots + [row]))
  }

  function OpenLots(lots: seq<LotRow>, inventory: Inventory): seq<Lot> {
    if lots == [] then []
    else
      var last := lots[|lots| - 1];
      OpenLots(lots[..|lots| - 1], inventory) +
      (if last.open && last.lot.inventory == inventory then [last.lot] else [])
  }

  function ListOpenLots(t: Tables, inventory: Inventory): seq<Lot> {
    Ordered(OpenLots(t.lots, inventory))
  }

  /** The lots a sell walks: the open rows of its inventory, oldest first. */
  function Walked(t: Tables, inventory: Inventory): seq<Lot> {
    Ordered(ListOpenLots(t, inventory))
  }

  function InsertClosure(t: Tables, row: ClosureRow): Result<Tables, LedgerError> {
    if row.qty <= 0.0 || row.price < 0.0
       || (forall i :: 0 <= i < |t.lots| ==> t.lots[i].lot.id != row.lotId)
       || exists i :: 0 <= i < |t.closures| && t.closures[i].lotId == row.lotId && t.closures[i].fillId == row.fillId
    then
      Err(ConstraintViolated)
    else
      Ok(t.(closures := t.closures + [row]))
  }

  function DecrementRow(r: LotRow, qty: Decimal, at: Instant): LotRow {
    var rest := r.lot.remaining - qty;
    r.(lot := r.lot.(remaining := rest), open := rest != 0.0, closedAt := if rest == 0.0 then Some(at) else None)
  }

  function DecrementedLots(lots: seq<LotRow>, id: string, qty: Decimal, at: Instant): seq<LotRow> {
    seq(|lots|, i requires 0 <= i < |lots| => if lots[i].lot.id == id then DecrementRow(lots[i], qty, at) else lots[i])
  }

  function DecrementLot(t: Tables, id: string, qty: Decimal, at: Instant): Result<Tables, LedgerError> {
    var lots := DecrementedLots(t.lots, id, qty, at);
    if exists i :: 0 <= i < |lots| && lots[i].lot.id == id && !LotChecks(lots[i]) then
      Err(ConstraintViolated)
    else
      Ok(t.(lots := lots))
  }

  function InsertUnmatched(t: Tables, row: UnmatchedRow): Result<Tables, LedgerError> {
    if row.qty <= 0.0 || exists i :: 0 <= i < |t.unmatched| && t.unmatched[i].fillId == row.fillId then
      Err(ConstraintViolated)
    else
      Ok(t.(unmatched := t.unmatched + [row]))
  }

  // ---------- Posting a fill ----------

  function NewLot(fill: Fill, lotId: string): LotRow {
    LotRow(Lot(lotId, fill.inventory, fill.qty, fill.qty, fill.price, fill.at), fill.id, true, None)
  }

  function Plan(t: Tables, fill: Fill, lotId: string): Result<Posting, LedgerError> {
    if fill.qty <= 0.0 then Err(NonPositiveQty)
    else if fill.price < 0.0 then Err(NegativePrice)
    else
      match fill.side
      case Buy => Ok(OpenLot(NewLot(fill, lotId)))
      case Sell =>
        var allocation := Allocate(Walked(t, fill.inventory), fill.qty);
        Ok(CloseLots(allocation.closures, allocation.unmatched))
      case UnsupportedSide(_) => Err(SideNotSupported)
  }

  function RecordClosure(t: Tables, c: Closure, fill: Fill): Result<Tables, LedgerError> {
    var t1 :- InsertClosure(t, ClosureRow(c.lotId, fill.id, c.qty, fill.price, fill.at));
    DecrementLot(t1, c.lotId, c.qty, fill.at)
  }

  function RecordClosures(t: Tables, cs: seq<Closure>, fill: Fill): Result<Tables, LedgerError>
    decreases cs
  {
    if cs == [] then Ok(t)
    else
      var t1 :- RecordClosure(t, cs[0], fill);
      RecordClosures(t1, cs[1..], fill)
  }

  function Execute(t: Tables, fill: Fill, posting: Posting): Result<Tables, LedgerError> {
    match posting
    case OpenLot(row) => InsertLot(t, row)
    case CloseLots(closures, unmatched) =>
      var t1 :- RecordClosures(t, closures, fill);
      if unmatched <= 0.0 then Ok(t1)
      else InsertUnmatched(t1, UnmatchedRow(fill.id, fill.inventory, unmatched, fill.at))
  }

  /** The quantity a posting could not match; only a sell can leave one. */
  function Oversold(posting: Posting): Decimal {
    match posting
    case OpenLot(_) => 0.0
    case CloseLots(_, unmatched) => if unmatched <= 0.0 then 0.0 else unmatched
  }

  function Post(t: Tables, fill: Fill, lotId: string): Result<(Tables, Decimal), LedgerError> {
    var posting :- Plan(t, fill, lotId);
    var t1 :- Execute(t, fill, posting);
    Ok((t1, Oversold(posting)))
  }

  // ---------- Sums over the tables ----------

  function ClosedFromLot(cs: seq<ClosureRow>, id: string): Decimal {
    if cs == [] then 0.0
    else
      var last := cs[|cs| - 1];
      ClosedFromLot(cs[..|cs| - 1], id) + if last.lotId == id then last.qty else 0.0
  }

  function ClosedByFill(cs: seq<ClosureRow>, fillId: nat): Decimal {
    if cs == [] then 0.0
    else
      var last := cs[|cs| - 1];
      ClosedByFill(cs[..|cs| - 1], fillId) + if last.fillId == fillId then last.qty else 0.0
  }

  function UnmatchedOf(us: seq<UnmatchedRow>, fillId: nat): Decimal {
    if us == [] then 0.0
    else
      var last := us[|us| - 1];
      UnmatchedOf(us[..|us| - 1], fillId) + if last.fillId == fillId then last.qty else 0.0
  }

  function UnmatchedIn(us: seq<UnmatchedRow>, inventory: Inventory): Decimal {
    if us == [] then 0.0
    else
      var last := us[|us| - 1];
      UnmatchedIn(us[..|us| - 1], inventory) + if last.inventory == inventory then last.qty else 0.0
  }

  function HeldIn(lots: seq<LotRow>, inventory: Inventory): Decimal {
    if lots == [] then 0.0
    else
      var last := lots[|lots| - 1].lot;
      HeldIn(lots[..|lots| - 1], inventory) + if last.inventory == inventory then last.remaining else 0.0
  }

  // ---------- Invariant ----------

  ghost predicate LotsDistinct(lots: seq<LotRow>) {
    forall i, j :: 0 <= i < j < |lots| ==> lots[i].lot.id != lots[j].lot.id && lots[i].openedBy != lots[j].openedBy
  }

  ghost predicate HasLot(lots: seq<LotRow>, id: string) {
    exists i :: 0 <= i < |lots| && lots[i].lot.id == id
  }

  /** A lot's quantity is what remains of it plus everything its closures took. */
  ghost predicate LotBalanced(r: LotRow, cs: seq<ClosureRow>) {
    LotChecks(r) && r.lot.qty == r.lot.remaining + ClosedFromLot(cs, r.lot.id)
  }

  ghost predicate Valid(t: Tables) {
    && LotsDistinct(t.lots)
    && (forall i :: 0 <= i < |t.lots| ==> LotBalanced(t.lots[i], t.closures))
    && (forall i :: 0 <= i < |t.closures| ==>
          t.closures[i].qty > 0.0 && t.closures[i].price >= 0.0 && HasLot(t.lots, t.closures[i].lotId))
    && (forall i, j :: 0 <= i < j < |t.closures| ==>
          t.closures[i].lotId != t.closures[j].lotId || t.closures[i].fillId != t.closures[j].fillId)
    && (forall i :: 0 <= i < |t.unmatched| ==> t.unmatched[i].qty > 0.0)
    && (forall i, j :: 0 <= i < j < |t.unmatched| ==> t.unmatched[i].fillId != t.unmatched[j].fillId)
  }

  /** No row mentions fill `id`: the fill being posted is a new one. */
  ghost predicate Unposted(t: Tables, id: nat) {
    && (forall i :: 0 <= i < |t.lots| ==> t.lots[i].openedBy != id)
    && (forall i :: 0 <= i < |t.closures| ==> t.closures[i].fillId != id)
    && (forall i :: 0 <= i < |t.unmatched| ==> t.unmatched[i].fillId != id)
  }

  // ---------- Sums under the statements ----------

  lemma SnocClosure(cs: seq<ClosureRow>, c: ClosureRow)
    ensures forall id :: ClosedFromLot(cs + [c], id) == ClosedFromLot(cs, id) + if c.lotId == id then c.qty else 0.0
    ensures forall f :: ClosedByFill(cs + [c], f) == ClosedByFill(cs, f) + if c.fillId == f then c.qty else 0.0
  {
    assert (cs + [c])[..|cs|] == cs;
  }

  lemma SnocUnmatched(us: seq<UnmatchedRow>, u: UnmatchedRow)
    ensures forall f :: UnmatchedOf(us + [u], f) == UnmatchedOf(us, f) + if u.fillId == f then u.qty else 0.0
    ensures forall v :: UnmatchedIn(us + [u], v) == UnmatchedIn(us, v) + if u.inventory == v then u.qty else 0.0
  {
    assert (us + [u])[..|us|] == us;
  }

  lemma SnocLot(lots: seq<LotRow>, r: LotRow)
    ensures forall v :: HeldIn(lots + [r], v) == HeldIn(lots, v) + if r.lot.inventory == v then r.lot.remaining else 0.0
  {
    assert (lots + [r])[..|lots|] == lots;
  }

  lemma {:induction false} HeldInUpdate(lots: seq<LotRow>, k: nat, r: LotRow, v: Inventory)
    requires k < |lots|
    requires r.lot.inventory == lots[k].lot.inventory
    ensures HeldIn(lots[k := r], v) ==
            HeldIn(lots, v) + if r.lot.inventory == v then r.lot.remaining - lots[k].lot.remaining else 0.0
  {
    var n := |lots| - 1;
    var updated := lots[k := r];
    if k == n {
      assert updated[..n] == lots[..n];
    } else {
      assert updated[..n] == lots[..n][k := r];
      HeldInUpdate(lots[..n], k, r, v);
    }
  }

  lemma {:induction false} UnpostedSums(t: Tables, f: nat)
    requires Unposted(t, f)
    ensures ClosedByFill(t.closures, f) == 0.0
    ensures UnmatchedOf(t.unmatched, f) == 0.0
    decreases |t.closures| + |t.unmatched|
  {
    if t.closures != [] {
      UnpostedSums(t.(closures := t.closures[..|t.closures| - 1]), f);
    }
    if t.unmatched != [] {
      UnpostedSums(t.(unmatched := t.unmatched[..|t.unmatched| - 1]), f);
    }
  }

  lemma {:induction false} NoClosuresOfNewLot(cs: seq<ClosureRow>, id: string)
    requires forall i :: 0 <= i < |cs| ==> cs[i].lotId != id
    ensures ClosedFromLot(cs, id) == 0.0
  {
    if cs != [] {
      NoClosuresOfNewLot(cs[..|cs| - 1], id);
    }
  }

  // ---------- The open lots ----------

  lemma {:induction false} OpenLotsAreRows(lots: seq<LotRow>, inventory: Inventory)
    requires LotsDistinct(lots)
    ensures var open := OpenLots(lots, inventory);
            && DistinctIds(open)
            && forall x :: x in open <==>
                 exists i :: 0 <= i < |lots| && lots[i].lot == x && lots[i].open && x.inventory == inventory
  {
    if lots != [] {
      var n := |lots| - 1;
      var init := lots[..n];
      OpenLotsAreRows(init, inventory);
      var open, before := OpenLots(lots, inventory), OpenLots(init, inventory);
      forall x
        ensures x in open <==>
                exists i :: 0 <= i < |lots| && lots[i].lot == x && lots[i].open && x.inventory == inventory
      {
        if x in open {
          if x in before {
            var i :| 0 <= i < |init| && init[i].lot == x && init[i].open;
            assert lots[i].lot == x;
          } else {
            assert lots[n].lot == x;
          }
        }
        if i :| 0 <= i < |lots| && lots[i].lot == x && lots[i].open && x.inventory == inventory {
          if i < n {
            assert init[i].lot == x;
          }
        }
      }
      if open != before {
        forall k | 0 <= k < |before| ensures before[k].id != lots[n].lot.id {
          assert before[k] in before;
          var i :| 0 <= i < |init| && init[i].lot == before[k];
          assert lots[i].lot.id != lots[n].lot.id;
        }
      }
    }
  }

  lemma {:induction false} HeldByFront(x: Lot, lots: seq<Lot>, n: nat)
    requires n <= |lots|
    ensures HeldBy([x] + lots, n + 1) == Held(x) + HeldBy(lots, n)
  {
    if n > 0 {
      HeldByFront(x, lots, n - 1);
    }
  }

  lemma {:induction false} HeldByInsert(x: Lot, lots: seq<Lot>)
    ensures |Insert(x, lots)| == |lots| + 1
    ensures HeldBy(Insert(x, lots), |lots| + 1) == HeldBy(lots, |lots|) + Held(x)
  {
    if lots == [] || !Before(lots[0], x) {
      HeldByFront(x, lots, |lots|);
    } else {
      HeldByInsert(x, lots[1..]);
      HeldByFront(lots[0], Insert(x, lots[1..]), |lots|);
      HeldByFront(lots[0], lots[1..], |lots| - 1);
      assert lots == [lots[0]] + lots[1..];
    }
  }

  lemma {:induction false} HeldByOrdered(lots: seq<Lot>)
    ensures |Ordered(lots)| == |lots|
    ensures HeldBy(Ordered(lots), |lots|) == HeldBy(lots, |lots|)
  {
    if lots != [] {
      HeldByOrdered(lots[1..]);
      HeldByInsert(lots[0], Ordered(lots[1..]));
      HeldByFront(lots[0], lots[1..], |lots| - 1);
      assert lots == [lots[0]] + lots[1..];
    }
  }

  lemma {:induction false} HeldByAgrees(xs: seq<Lot>, ys: seq<Lot>, n: nat)
    requires n <= |xs| && n <= |ys| && xs[..n] == ys[..n]
    ensures HeldBy(xs, n) == HeldBy(ys, n)
  {
    if n > 0 {
      assert xs[n - 1] == xs[..n][n - 1] == ys[..n][n - 1] == ys[n - 1];
      assert xs[..n - 1] == xs[..n][..n - 1] == ys[..n][..n - 1] == ys[..n - 1];
      HeldByAgrees(xs, ys, n - 1);
    }
  }

  lemma {:induction false} HeldInIsOpenHeld(lots: seq<LotRow>, inventory: Inventory)
    requires forall i :: 0 <= i < |lots| ==> LotChecks(lots[i])
    ensures var open := OpenLots(lots, inventory);
            HeldBy(open, |open|) == HeldIn(lots, inventory)
  {
    if lots != [] {
      var n := |lots| - 1;
      HeldInIsOpenHeld(lots[..n], inventory);
      var before, open := OpenLots(lots[..n], inventory), OpenLots(lots, inventory);
      HeldByAgrees(open, before, |before|);
    }
  }

  /** The closures a plan asks for, against the rows they will touch. */
  ghost predicate Closable(t: Tables, cs: seq<Closure>, inventory: Inventory, fillId: nat) {
    && (forall k :: 0 <= k < |cs| ==> cs[k].qty > 0.0)
    && (forall k :: 0 <= k < |cs| ==> Covered(t.lots, cs[k], inventory))
    && (forall j, k :: 0 <= j < k < |cs| ==> cs[j].lotId != cs[k].lotId)
    && (forall k, i :: 0 <= k < |cs| && 0 <= i < |t.closures| && t.closures[i].fillId == fillId ==>
        t.closures[i].lotId != cs[k].lotId)
  }

  ghost predicate Covers(r: LotRow, c: Closure, inventory: Inventory) {
    r.lot.id == c.lotId && r.lot.inventory == inventory && c.qty <= r.lot.remaining
  }

  ghost predicate Covered(lots: seq<LotRow>, c: Closure, inventory: Inventory) {
    exists i :: 0 <= i < |lots| && Covers(lots[i], c, inventory)
  }

  ghost predicate TakenFrom(c: Closure, lots: seq<Lot>) {
    exists x :: x in lots && x.id == c.lotId && 0.0 < c.qty <= x.remaining
  }

  ghost predicate Fits(cs: seq<Closure>, lots: seq<Lot>) {
    && (forall k :: 0 <= k < |cs| ==> TakenFrom(cs[k], lots))
    && (forall j, k :: 0 <= j < k < |cs| ==> cs[j].lotId != cs[k].lotId)
  }

  lemma FitsCons(cs: seq<Closure>, lots: seq<Lot>, qty: Decimal)
    requires lots != [] && DistinctIds(lots)
    requires Fits(cs, lots[1..])
    requires 0.0 < qty <= lots[0].remaining
    ensures Fits([Closure(lots[0].id, qty)] + cs, lots)
  {
    forall k | 0 <= k < |cs| ensures TakenFrom(cs[k], lots) && cs[k].lotId != lots[0].id {
      assert TakenFrom(cs[k], lots[1..]);
      var x :| x in lots[1..] && x.id == cs[k].lotId && 0.0 < cs[k].qty <= x.remaining;
      assert x in lots;
    }
    assert lots[0] in lots;
    assert TakenFrom(Closure(lots[0].id, qty), lots);
  }

  lemma FitsTail(cs: seq<Closure>, lots: seq<Lot>)
    requires lots != []
    requires Fits(cs, lots[1..])
    ensures Fits(cs, lots)
  {
    forall k | 0 <= k < |cs| ensures TakenFrom(cs[k], lots) {
      assert TakenFrom(cs[k], lots[1..]);
      var x :| x in lots[1..] && x.id == cs[k].lotId && 0.0 < cs[k].qty <= x.remaining;
      assert x in lots;
    }
  }

  lemma {:induction false} AllocationFits(lots: seq<Lot>, sell: Decimal)
    requires DistinctIds(lots)
    ensures Fits(Allocate(lots, sell).closures, lots)
    decreases |lots|
  {
    if lots != [] && sell > 0.0 {
      if lots[0].remaining > 0.0 {
        var qty := Min(sell, lots[0].remaining);
        AllocationFits(lots[1..], sell - qty);
        FitsCons(Allocate(lots[1..], sell - qty).closures, lots, qty);
      } else {
        AllocationFits(lots[1..], sell);
        FitsTail(Allocate(lots[1..], sell).closures, lots);
      }
    }
  }

  ghost predicate IsRow(rows: seq<LotRow>, x: Lot, inventory: Inventory) {
    x.inventory == inventory && exists i :: 0 <= i < |rows| && rows[i].lot == x
  }

  lemma WalkedAreRows(t: Tables, inventory: Inventory)
    requires LotsDistinct(t.lots)
    ensures DistinctIds(Walked(t, inventory))
    ensures forall x :: x in Walked(t, inventory) ==> IsRow(t.lots, x, inventory)
  {
    var open := OpenLots(t.lots, inventory);
    OpenLotsAreRows(t.lots, inventory);
    OrderedIsSorted(open);
    OrderedIsSorted(Ordered(open));
    DistinctIdsByCount(open, Walked(t, inventory));
    forall x | x in Walked(t, inventory) ensures IsRow(t.lots, x, inventory) {
      assert x in multiset(Walked(t, inventory)) && x in multiset(open);
    }
  }

  lemma WalkedHold(t: Tables, inventory: Inventory)
    requires forall i :: 0 <= i < |t.lots| ==> LotChecks(t.lots[i])
    ensures HeldBy(Walked(t, inventory), |Walked(t, inventory)|) == HeldIn(t.lots, inventory)
  {
    var open := OpenLots(t.lots, inventory);
    HeldByOrdered(open);
    HeldByOrdered(Ordered(open));
    HeldInIsOpenHeld(t.lots, inventory);
  }

  lemma AllLotsChecked(t: Tables)
    requires Valid(t)
    ensures forall i :: 0 <= i < |t.lots| ==> LotChecks(t.lots[i])
  {
    forall i | 0 <= i < |t.lots| ensures LotChecks(t.lots[i]) {
      assert LotBalanced(t.lots[i], t.closures);
    }
  }

  /** A sell over any listing of the inventory's open lots. */
  lemma AllocationFitsLedger(t: Tables, lots: seq<Lot>, fill: Fill)
    requires Unposted(t, fill.id) && fill.qty > 0.0 && DistinctIds(lots)
    requires forall x :: x in lots ==> IsRow(t.lots, x, fill.inventory)
    ensures var a := Allocate(lots, fill.qty);
            && Closable(t, a.closures, fill.inventory, fill.id)
            && Total(a.closures) + a.unmatched == fill.qty
  {
    AllocationConserves(lots, fill.qty);
    AllocationFits(lots, fill.qty);
    FittingClosuresClosable(t, Allocate(lots, fill.qty).closures, lots, fill);
  }

  lemma PlannedClosuresFit(t: Tables, fill: Fill)
    requires LotsDistinct(t.lots) && (forall i :: 0 <= i < |t.lots| ==> LotChecks(t.lots[i]))
    requires Unposted(t, fill.id) && fill.qty > 0.0
    ensures var a := Allocate(Walked(t, fill.inventory), fill.qty);
            && Closable(t, a.closures, fill.inventory, fill.id)
            && Total(a.closures) + a.unmatched == fill.qty
            && a.unmatched == Max(0.0, fill.qty - HeldIn(t.lots, fill.inventory))
  {
    WalkedAreRows(t, fill.inventory);
    WalkedHold(t, fill.inventory);
    UnmatchedIsExcess(Walked(t, fill.inventory), fill.qty);
    AllocationFitsLedger(t, Walked(t, fill.inventory), fill);
  }

  lemma FittingClosuresClosable(t: Tables, cs: seq<Closure>, lots: seq<Lot>, fill: Fill)
    requires Fits(cs, lots) && Unposted(t, fill.id)
    requires forall x :: x in lots ==> IsRow(t.lots, x, fill.inventory)
    ensures Closable(t, cs, fill.inventory, fill.id)
  {
    forall k | 0 <= k < |cs| ensures cs[k].qty > 0.0 && Covered(t.lots, cs[k], fill.inventory) {
      assert TakenFrom(cs[k], lots);
      var x :| x in lots && x.id == cs[k].lotId && 0.0 < cs[k].qty <= x.remaining;
      assert IsRow(t.lots, x, fill.inventory);
      var i :| 0 <= i < |t.lots| && t.lots[i].lot == x && x.inventory == fill.inventory;
      assert Covers(t.lots[i], cs[k], fill.inventory);
    }
  }

  // ---------- Closing lots ----------

  /** Rows whose lot changed only in what remains of it. */
  ghost predicate SameLots(before: seq<LotRow>, after: seq<LotRow>) {
    && |after| == |before|
    && forall i :: 0 <= i < |before| ==>
         && after[i].openedBy == before[i].openedBy
         && after[i].lot == before[i].lot.(remaining := after[i].lot.remaining)
  }

  /** A lot that was exhausted was closed at `at`; any other keeps its closing time. */
  ghost predicate ClosedAtTheEnd(before: seq<LotRow>, after: seq<LotRow>, at: Instant) {
    && |after| == |before|
    && forall i :: 0 <= i < |before| ==>
         after[i].closedAt == if before[i].open && !after[i].open then Some(at) else before[i].closedAt
  }

  ghost predicate AllChecked(lots: seq<LotRow>) {
    forall i :: 0 <= i < |lots| ==> LotChecks(lots[i])
  }

  lemma ClosingTimesCompose(a: seq<LotRow>, b: seq<LotRow>, c: seq<LotRow>, at: Instant)
    requires ClosedAtTheEnd(a, b, at) && ClosedAtTheEnd(b, c, at)
    requires AllChecked(a) && AllChecked(b) && AllChecked(c)
    ensures ClosedAtTheEnd(a, c, at)
  {
    forall i | 0 <= i < |a|
        ensures c[i].closedAt == if a[i].open && !c[i].open then Some(at) else a[i].closedAt {
      assert LotChecks(a[i]) && LotChecks(b[i]) && LotChecks(c[i]);
    }
  }

  lemma DecrementCloses(lots: seq<LotRow>, k: nat, qty: Decimal, at: Instant)
    requires k < |lots| && LotChecks(lots[k]) && 0.0 < qty <= lots[k].lot.remaining
    ensures ClosedAtTheEnd(lots, lots[k := DecrementRow(lots[k], qty, at)], at)
  {
  }

  lemma ClosureKeepsValid(t: Tables, k: nat, updated: LotRow, row: ClosureRow)
    requires Valid(t) && k < |t.lots| && t.lots[k].lot.id == row.lotId
    requires updated.openedBy == t.lots[k].openedBy && LotChecks(updated)
    requires updated.lot == t.lots[k].lot.(remaining := t.lots[k].lot.remaining - row.qty)
    requires row.qty > 0.0 && row.price >= 0.0
    requires forall i :: 0 <= i < |t.closures| && t.closures[i].fillId == row.fillId ==>
        t.closures[i].lotId != row.lotId
    ensures Valid(Tables(t.lots[k := updated], t.closures + [row], t.unmatched))
  {
    var t' := Tables(t.lots[k := updated], t.closures + [row], t.unmatched);
    SnocClosure(t.closures, row);
    forall i | 0 <= i < |t'.lots| ensures LotBalanced(t'.lots[i], t'.closures) {
      assert LotBalanced(t.lots[i], t.closures);
    }
    forall i | 0 <= i < |t'.closures| ensures HasLot(t'.lots, t'.closures[i].lotId) {
      var j :| 0 <= j < |t.lots| && t.lots[j].lot.id == t'.closures[i].lotId;
      assert t'.lots[j].lot.id == t'.closures[i].lotId;
    }
  }

  lemma RecordClosureFits(t: Tables, c: Closure, fill: Fill, k: nat)
    requires Valid(t) && fill.price >= 0.0
    requires k < |t.lots| && Covers(t.lots[k], c, fill.inventory)
    requires c.qty > 0.0
    requires forall i :: 0 <= i < |t.closures| && t.closures[i].fillId == fill.id ==> t.closures[i].lotId != c.lotId
    ensures RecordClosure(t, c, fill) ==
            Ok(Tables(t.lots[k := DecrementRow(t.lots[k], c.qty, fill.at)],
                      t.closures + [ClosureRow(c.lotId, fill.id, c.qty, fill.price, fill.at)],
                      t.unmatched))
    ensures Valid(RecordClosure(t, c, fill).value)
  {
    var row := ClosureRow(c.lotId, fill.id, c.qty, fill.price, fill.at);
    var updated := DecrementRow(t.lots[k], c.qty, fill.at);
    assert InsertClosure(t, row) == Ok(t.(closures := t.closures + [row]));
    assert DecrementedLots(t.lots, c.lotId, c.qty, fill.at) == t.lots[k := updated];
    assert LotBalanced(t.lots[k], t.closures);
    ClosureKeepsValid(t, k, updated, row);
  }

  /** Lots of other inventories are as they were. */
  ghost predicate OthersUntouched(before: seq<LotRow>, after: seq<LotRow>, inventory: Inventory) {
    && |after| == |before|
    && forall i :: 0 <= i < |before| && before[i].lot.inventory != inventory ==> after[i] == before[i]
  }

  /** What recording a list of closures did to the tables. */
  ghost predicate Recorded(t: Tables, cs: seq<Closure>, fill: Fill, t': Tables) {
    && SameLots(t.lots, t'.lots)
    && OthersUntouched(t.lots, t'.lots, fill.inventory)
    && ClosedAtTheEnd(t.lots, t'.lots, fill.at)
    && t'.unmatched == t.unmatched
    && |t'.closures| == |t.closures| + |cs|
    && t'.closures[..|t.closures|] == t.closures
    && (forall k :: 0 <= k < |cs| ==>
          t'.closures[|t.closures| + k] == ClosureRow(cs[k].lotId, fill.id, cs[k].qty, fill.price, fill.at))
    && (forall f :: ClosedByFill(t'.closures, f) == ClosedByFill(t.closures, f) + if f == fill.id then Total(cs)
        else 0.0)
    && (forall v :: HeldIn(t'.lots, v) == HeldIn(t.lots, v) - if v == fill.inventory then Total(cs) else 0.0)
  }

  /** What recording one closure did to the tables. */
  ghost predicate RecordedOne(t: Tables, c: Closure, fill: Fill, t1: Tables) {
    && SameLots(t.lots, t1.lots)
    && OthersUntouched(t.lots, t1.lots, fill.inventory)
    && ClosedAtTheEnd(t.lots, t1.lots, fill.at)
    && t1.unmatched == t.unmatched
    && t1.closures == t.closures + [ClosureRow(c.lotId, fill.id, c.qty, fill.price, fill.at)]
    && (forall i :: 0 <= i < |t.lots| && t.lots[i].lot.id != c.lotId ==> t1.lots[i] == t.lots[i])
    && (forall v :: HeldIn(t1.lots, v) == HeldIn(t.lots, v) - if v == fill.inventory then c.qty else 0.0)
  }

  lemma RecordOne(t: Tables, c: Closure, fill: Fill)
    requires Valid(t) && fill.price >= 0.0
    requires Covered(t.lots, c, fill.inventory)
    requires c.qty > 0.0
    requires forall i :: 0 <= i < |t.closures| && t.closures[i].fillId == fill.id ==> t.closures[i].lotId != c.lotId
    ensures var r := RecordClosure(t, c, fill);
            r.Ok? && Valid(r.value) && RecordedOne(t, c, fill, r.value)
  {
    var k :| 0 <= k < |t.lots| && Covers(t.lots[k], c, fill.inventory);
    RecordClosureFits(t, c, fill, k);
    AllLotsChecked(t);
    DecrementCloses(t.lots, k, c.qty, fill.at);
    forall v
      ensures HeldIn(RecordClosure(t, c, fill).value.lots, v) == HeldIn(t.lots, v) - if v == fill.inventory then c.qty
          else 0.0
    {
      HeldInUpdate(t.lots, k, DecrementRow(t.lots[k], c.qty, fill.at), v);
    }
  }

  lemma {:induction false} RecordClosuresFit(t: Tables, cs: seq<Closure>, fill: Fill)
    requires Valid(t) && fill.price >= 0.0
    requires Closable(t, cs, fill.inventory, fill.id)
    ensures var r := RecordClosures(t, cs, fill);
            r.Ok? && Valid(r.value) && Recorded(t, cs, fill, r.value)
    decreases cs
  {
    if cs == [] {
      assert Total(cs) == 0.0;
    } else {
      RecordOne(t, cs[0], fill);
      var t1 := RecordClosure(t, cs[0], fill).value;
      StillClosable(t, cs, fill, t1);
      RecordClosuresFit(t1, cs[1..], fill);
      var t2 := RecordClosures(t1, cs[1..], fill).value;
      AllLotsChecked(t);
      AllLotsChecked(t1);
      AllLotsChecked(t2);
      RecordedCons(t, cs, fill, t1, t2);
    }
  }

  lemma StillClosable(t: Tables, cs: seq<Closure>, fill: Fill, t1: Tables)
    requires Closable(t, cs, fill.inventory, fill.id) && cs != []
    requires RecordedOne(t, cs[0], fill, t1)
    ensures Closable(t1, cs[1..], fill.inventory, fill.id)
  {
    var rest := cs[1..];
    forall m | 0 <= m < |rest| ensures Covered(t1.lots, rest[m], fill.inventory) {
      assert Covered(t.lots, cs[m + 1], fill.inventory);
      var i :| 0 <= i < |t.lots| && Covers(t.lots[i], cs[m + 1], fill.inventory);
      assert Covers(t1.lots[i], rest[m], fill.inventory);
    }
  }

  lemma RecordedCons(t: Tables, cs: seq<Closure>, fill: Fill, t1: Tables, t2: Tables)
    requires cs != []
    requires RecordedOne(t, cs[0], fill, t1)
    requires Recorded(t1, cs[1..], fill, t2)
    requires AllChecked(t.lots) && AllChecked(t1.lots) && AllChecked(t2.lots)
    ensures Recorded(t, cs, fill, t2)
  {
    ClosingTimesCompose(t.lots, t1.lots, t2.lots, fill.at);
    SnocClosure(t.closures, ClosureRow(cs[0].lotId, fill.id, cs[0].qty, fill.price, fill.at));
    assert t2.closures[..|t.closures|] == t2.closures[..|t1.closures|][..|t.closures|] == t.closures;
    assert t2.closures[|t.closures|] == t2.closures[..|t1.closures|][|t.closures|];
    forall k | 0 <= k < |cs|
      ensures t2.closures[|t.closures| + k] == ClosureRow(cs[k].lotId, fill.id, cs[k].qty, fill.price, fill.at)
    {
      if k > 0 {
        assert cs[1..][k - 1] == cs[k];
      }
    }
  }

  // ---------- The effect of a posting ----------

  /** A buy appends one lot for its whole quantity and touches nothing else. */
  ghost predicate Opened(t: Tables, fill: Fill, lotId: string, t': Tables) {
    t' == t.(lots := t.lots + [NewLot(fill, lotId)])
  }

  /**
   A sell takes its quantity from lots of its own inventory and records exactly the part no
   lot could cover; closures and unmatched rows of other fills, and lots of other
   inventories, keep their sums.
   */
  ghost predicate Sold(t: Tables, fill: Fill, oversold: Decimal, t': Tables) {
    && oversold == Max(0.0, fill.qty - HeldIn(t.lots, fill.inventory))
    && SameLots(t.lots, t'.lots)
    && OthersUntouched(t.lots, t'.lots, fill.inventory)
    && ClosedAtTheEnd(t.lots, t'.lots, fill.at)
    && |t.closures| <= |t'.closures| && t'.closures[..|t.closures|] == t.closures
    && (forall i :: |t.closures| <= i < |t'.closures| ==> ClosedBy(t.lots, t'.closures[i], fill))
    && t'.unmatched == t.unmatched +
        (if oversold > 0.0 then [UnmatchedRow(fill.id, fill.inventory, oversold, fill.at)] else [])
    && (forall f :: ClosedByFill(t'.closures, f) == ClosedByFill(t.closures, f) + if f == fill.id then
        fill.qty - oversold else 0.0)
    && (forall v :: HeldIn(t'.lots, v) == HeldIn(t.lots, v) - if v == fill.inventory then fill.qty - oversold else 0.0)
  }

  /** A closure of the fill: at its price and time, of a lot of its inventory. */
  ghost predicate ClosedBy(lots: seq<LotRow>, c: ClosureRow, fill: Fill) {
    c.fillId == fill.id && c.price == fill.price && c.closedAt == fill.at && ClosesIn(lots, c, fill.inventory)
  }

  ghost predicate ClosesIn(lots: seq<LotRow>, c: ClosureRow, inventory: Inventory) {
    exists i :: 0 <= i < |lots| && lots[i].lot.id == c.lotId && lots[i].lot.inventory == inventory
  }

  ghost predicate RefusalOnly(e: LedgerError, t: Tables, fill: Fill, lotId: string) {
    match e
    case NonPositiveQty => fill.qty <= 0.0
    case NegativePrice => fill.price < 0.0
    case SideNotSupported => fill.side.UnsupportedSide?
    case LotIdTaken => fill.side.Buy? && HasLot(t.lots, lotId)
    case ConstraintViolated => false
  }

  lemma BuyPosts(t: Tables, fill: Fill, lotId: string)
    requires Valid(t) && Unposted(t, fill.id)
    requires fill.side.Buy? && fill.qty > 0.0 && fill.price >= 0.0
    ensures match Post(t, fill, lotId)
            case Ok((t', oversold)) => Valid(t') && oversold == 0.0 && Opened(t, fill, lotId, t')
            case Err(e) => e == LotIdTaken && HasLot(t.lots, lotId)
  {
    var row := NewLot(fill, lotId);
    if !HasLot(t.lots, lotId) {
      var t' := t.(lots := t.lots + [row]);
      assert InsertLot(t, row) == Ok(t');
      NoClosuresOfNewLot(t.closures, lotId) by {
        forall i | 0 <= i < |t.closures| ensures t.closures[i].lotId != lotId {
          assert HasLot(t.lots, t.closures[i].lotId);
        }
      }
      forall i | 0 <= i < |t'.lots| ensures LotBalanced(t'.lots[i], t'.closures) {
        if i < |t.lots| {
          assert LotBalanced(t.lots[i], t.closures);
        }
      }
      forall i | 0 <= i < |t'.closures|
        ensures t'.closures[i].qty > 0.0 && t'.closures[i].price >= 0.0 && HasLot(t'.lots, t'.closures[i].lotId)
      {
        var j :| 0 <= j < |t.lots| && t.lots[j].lot.id == t.closures[i].lotId;
        assert t'.lots[j].lot.id == t.closures[i].lotId;
      }
    }
  }

  lemma ClosuresNameLots(t: Tables, cs: seq<Closure>, fill: Fill, t1: Tables)
    requires Closable(t, cs, fill.inventory, fill.id) && Recorded(t, cs, fill, t1)
    ensures forall i :: |t.closures| <= i < |t1.closures| ==> ClosedBy(t.lots, t1.closures[i], fill)
  {
    forall i | |t.closures| <= i < |t1.closures| ensures ClosedBy(t.lots, t1.closures[i], fill) {
      var k := i - |t.closures|;
      assert t1.closures[|t.closures| + k] == ClosureRow(cs[k].lotId, fill.id, cs[k].qty, fill.price, fill.at);
      assert Covered(t.lots, cs[k], fill.inventory);
      assert ClosesIn(t.lots, t1.closures[i], fill.inventory);
    }
  }

  lemma RemainderRecorded(t1: Tables, row: UnmatchedRow)
    requires Valid(t1) && row.qty > 0.0
    requires forall i :: 0 <= i < |t1.unmatched| ==> t1.unmatched[i].fillId != row.fillId
    ensures InsertUnmatched(t1, row) == Ok(t1.(unmatched := t1.unmatched + [row]))
    ensures Valid(t1.(unmatched := t1.unmatched + [row]))
  {
  }

  lemma SoldFromRecorded(t: Tables, cs: seq<Closure>, fill: Fill, t1: Tables, oversold: Decimal)
    requires Closable(t, cs, fill.inventory, fill.id) && Recorded(t, cs, fill, t1)
    requires Total(cs) + oversold == fill.qty
    requires oversold == Max(0.0, fill.qty - HeldIn(t.lots, fill.inventory))
    ensures Sold(t, fill, oversold,
                 if oversold > 0.0 then t1.(unmatched := t1.unmatched +
                     [UnmatchedRow(fill.id, fill.inventory, oversold, fill.at)]) else t1)
  {
    ClosuresNameLots(t, cs, fill, t1);
  }

  /** The closures are recorded; what they could not cover is recorded too. */
  lemma ExecuteClosing(t: Tables, a: Allocation, fill: Fill, t1: Tables)
    requires RecordClosures(t, a.closures, fill) == Ok(t1) && Valid(t1) && t1.unmatched == t.unmatched
    requires Unposted(t, fill.id)
    ensures var row := UnmatchedRow(fill.id, fill.inventory, a.unmatched, fill.at);
            var t2 := if a.unmatched > 0.0 then t1.(unmatched := t1.unmatched + [row]) else t1;
            Execute(t, fill, CloseLots(a.closures, a.unmatched)) == Ok(t2) && Valid(t2)
  {
    if a.unmatched > 0.0 {
      RemainderRecorded(t1, UnmatchedRow(fill.id, fill.inventory, a.unmatched, fill.at));
    }
  }

  lemma ClosingSells(t: Tables, a: Allocation, fill: Fill)
    requires Valid(t) && Unposted(t, fill.id) && fill.price >= 0.0
    requires Closable(t, a.closures, fill.inventory, fill.id) && Total(a.closures) + a.unmatched == fill.qty
    requires a.unmatched == Max(0.0, fill.qty - HeldIn(t.lots, fill.inventory))
    ensures var r := Execute(t, fill, CloseLots(a.closures, a.unmatched));
            r.Ok? && Valid(r.value) && Sold(t, fill, a.unmatched, r.value)
  {
    RecordClosuresFit(t, a.closures, fill);
    var t1 := RecordClosures(t, a.closures, fill).value;
    SoldFromRecorded(t, a.closures, fill, t1, a.unmatched);
    ExecuteClosing(t, a, fill, t1);
  }

  lemma SellIsPlanned(t: Tables, fill: Fill, lotId: string)
    requires fill.side.Sell? && fill.qty > 0.0 && fill.price >= 0.0
    ensures var a := Allocate(Walked(t, fill.inventory), fill.qty);
            var r := Execute(t, fill, CloseLots(a.closures, a.unmatched));
            Post(t, fill, lotId) ==
              if r.Ok? then Ok((r.value, if a.unmatched <= 0.0 then 0.0 else a.unmatched)) else Err(r.error)
  {
  }

  lemma SellPosts(t: Tables, fill: Fill, lotId: string)
    requires Valid(t) && Unposted(t, fill.id)
    requires fill.side.Sell? && fill.qty > 0.0 && fill.price >= 0.0
    ensures var r := Post(t, fill, lotId);
            r.Ok? && Valid(r.value.0) && Sold(t, fill, r.value.1, r.value.0)
  {
    AllLotsChecked(t);
    PlannedClosuresFit(t, fill);
    ClosingSells(t, Allocate(Walked(t, fill.inventory), fill.qty), fill);
    SellIsPlanned(t, fill, lotId);
  }

  /** The closures a sell appends are the ones its selection asked for. */
  lemma SellAppends(t: Tables, fill: Fill, lotId: string)
    requires Valid(t) && Unposted(t, fill.id)
    requires fill.side.Sell? && fill.qty > 0.0 && fill.price >= 0.0
    ensures Post(t, fill, lotId).Ok?
    ensures var cs, t' := Allocate(Walked(t, fill.inventory), fill.qty).closures, Post(t, fill, lotId).value.0;
            && |t'.closures| == |t.closures| + |cs| && t'.closures[..|t.closures|] == t.closures
            && forall k :: 0 <= k < |cs| ==>
                 t'.closures[|t.closures| + k] == ClosureRow(cs[k].lotId, fill.id, cs[k].qty, fill.price, fill.at)
  {
    var a := Allocate(Walked(t, fill.inventory), fill.qty);
    AllLotsChecked(t);
    PlannedClosuresFit(t, fill);
    RecordClosuresFit(t, a.closures, fill);
    ExecuteClosing(t, a, fill, RecordClosures(t, a.closures, fill).value);
    SellIsPlanned(t, fill, lotId);
  }

  lemma {:induction false} AppendedCloses(before: seq<ClosureRow>, after: seq<ClosureRow>, cs: seq<Closure>,
                                          fill: Fill, id: string)
    requires |after| == |before| + |cs| && after[..|before|] == before
    requires forall k :: 0 <= k < |cs| ==>
               after[|before| + k] == ClosureRow(cs[k].lotId, fill.id, cs[k].qty, fill.price, fill.at)
    ensures ClosedFromLot(after, id) == ClosedFromLot(before, id) + ClosedFrom(cs, id)
    decreases |cs|
  {
    if cs == [] {
      assert after == before;
    } else {
      var row := after[|before|];
      assert after[..|before| + 1] == before + [row];
      SnocClosure(before, row);
      AppendedCloses(before + [row], after, cs[1..], fill, id);
    }
  }

  /**
   A sell closes the open rows of its inventory oldest first: if it takes anything from a row,
   it takes all that was left of every row opened earlier, or at the same time under a smaller ID.
   */
  lemma SellClosesOldestFirst(t: Tables, fill: Fill, lotId: string, x: LotRow, y: LotRow)
    requires Valid(t) && Unposted(t, fill.id)
    requires fill.side.Sell? && fill.qty > 0.0 && fill.price >= 0.0
    requires x in t.lots && x.open && x.lot.inventory == fill.inventory
    requires y in t.lots && y.open && y.lot.inventory == fill.inventory
    requires Older(x.lot, y.lot)
    ensures Post(t, fill, lotId).Ok?
    ensures var after := Post(t, fill, lotId).value.0.closures;
            ClosedFromLot(after, y.lot.id) > ClosedFromLot(t.closures, y.lot.id) ==>
              ClosedFromLot(after, x.lot.id) == ClosedFromLot(t.closures, x.lot.id) + x.lot.remaining
  {
    var open := OpenLots(t.lots, fill.inventory);
    var cs := Allocate(Walked(t, fill.inventory), fill.qty).closures;
    SellAppends(t, fill, lotId);
    AppendedCloses(t.closures, Post(t, fill, lotId).value.0.closures, cs, fill, x.lot.id);
    AppendedCloses(t.closures, Post(t, fill, lotId).value.0.closures, cs, fill, y.lot.id);
    OpenLotsAreRows(t.lots, fill.inventory);
    OrderedIsSorted(open);
    OrderedIsSorted(Ordered(open));
    SelectsOldestFirst(open, Walked(t, fill.inventory), fill.qty);
    RowIsListed(t.lots, x, fill.inventory);
    RowIsListed(t.lots, y, fill.inventory);
    AllLotsChecked(t);
  }

  lemma RowIsListed(lots: seq<LotRow>, r: LotRow, inventory: Inventory)
    requires LotsDistinct(lots) && r in lots && r.open && r.lot.inventory == inventory
    ensures r.lot in OpenLots(lots, inventory)
  {
    OpenLotsAreRows(lots, inventory);
    var i :| 0 <= i < |lots| && lots[i] == r;
    assert lots[i].lot == r.lot && lots[i].open;
  }

  /** Posting keeps the ledger valid, and refuses only what the code refuses on purpose. */
  lemma PostKeepsValid(t: Tables, fill: Fill, lotId: string)
    requires Valid(t) && Unposted(t, fill.id)
    ensures match Post(t, fill, lotId)
            case Ok((t', oversold)) =>
              Valid(t') && (if fill.side.Buy? then oversold == 0.0 && Opened(t, fill, lotId, t')
                  else Sold(t, fill, oversold, t'))
            case Err(e) => RefusalOnly(e, t, fill, lotId)
  {
    if fill.qty > 0.0 && fill.price >= 0.0 {
      if fill.side.Buy? {
        BuyPosts(t, fill, lotId);
      } else if fill.side.Sell? {
        SellPosts(t, fill, lotId);
      }
    }
  }

  /** A posting opens no lot but the one it was given an ID for. */
  lemma PostNamesItsLot(t: Tables, fill: Fill, lotId: string, x: string)
    requires Valid(t) && Unposted(t, fill.id) && Post(t, fill, lotId).Ok?
    ensures HasLot(Post(t, fill, lotId).value.0.lots, x) ==> HasLot(t.lots, x) || x == lotId
  {
    PostKeepsValid(t, fill, lotId);
    var lots' := Post(t, fill, lotId).value.0.lots;
    if HasLot(lots', x) {
      var i :| 0 <= i < |lots'| && lots'[i].lot.id == x;
      if i < |t.lots| {
        assert t.lots[i].lot.id == x;
      }
    }
  }

  lemma {:induction false} OpenLotsUntouched(before: seq<LotRow>, after: seq<LotRow>, inventory: Inventory,
                                             v: Inventory)
    requires SameLots(before, after) && OthersUntouched(before, after, inventory) && v != inventory
    ensures OpenLots(after, v) == OpenLots(before, v)
  {
    if before != [] {
      var n := |before| - 1;
      OpenLotsUntouched(before[..n], after[..n], inventory, v);
      assert after[n].lot.inventory == before[n].lot.inventory;
    }
  }

  /** A posting in one inventory leaves the open lots of every other one alone. */
  lemma PostKeepsOthers(t: Tables, fill: Fill, lotId: string, v: Inventory)
    requires Valid(t) && Unposted(t, fill.id) && v != fill.inventory && Post(t, fill, lotId).Ok?
    ensures Walked(Post(t, fill, lotId).value.0, v) == Walked(t, v)
  {
    var t' := Post(t, fill, lotId).value.0;
    PostKeepsValid(t, fill, lotId);
    if fill.side.Buy? {
      assert t'.lots[..|t.lots|] == t.lots;
      assert OpenLots(t'.lots, v) == OpenLots(t.lots, v) + [] == OpenLots(t.lots, v);
    } else {
      OpenLotsUntouched(t.lots, t'.lots, fill.inventory, v);
    }
  }

  lemma SellOversold(t: Tables, fill: Fill, lotId: string)
    requires Valid(t) && Unposted(t, fill.id) && fill.side.Sell? && Post(t, fill, lotId).Ok?
    ensures Post(t, fill, lotId).value.1 == Max(0.0, fill.qty - HeldIn(t.lots, fill.inventory))
  {
    PostKeepsValid(t, fill, lotId);
  }
}

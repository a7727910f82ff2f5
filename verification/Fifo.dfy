/**
 Lot selection: oldest lot first, ties broken by lot ID. The selection loop is proved
 equal to clamped prefix sums, independent of the order the lots arrive in, and
 composable: two sells close what their sum would.
 */
module Fifo {
  import opened Prelude
  import opened Domain
  import TextOrder

  datatype Lot = Lot(
    id: string,
    inventory: Inventory,
    qty: Decimal,
    remaining: Decimal,
    cost: Decimal,
    openedAt: Instant)

  datatype Closure = Closure(lotId: string, qty: Decimal)

  datatype Allocation = Allocation(closures: seq<Closure>, unmatched: Decimal)

  // ---------- Ordering ----------

  predicate Before(a: Lot, b: Lot) {
    if a.openedAt == b.openedAt then TextOrder.Less(a.id, b.id) else a.openedAt < b.openedAt
  }

  /** Opened earlier, or at the same time under a smaller ID. */
  predicate Older(x: Lot, y: Lot) {
    x.openedAt < y.openedAt || (x.openedAt == y.openedAt && TextOrder.Less(x.id, y.id))
  }

  predicate Sorted(lots: seq<Lot>) {
    forall i, j :: 0 <= i < j < |lots| ==> !Before(lots[j], lots[i])
  }

  predicate DistinctIds(lots: seq<Lot>) {
    forall i, j :: 0 <= i < j < |lots| ==> lots[i].id != lots[j].id
  }

  lemma BeforeIsStrictWeak(a: Lot, b: Lot, c: Lot)
    ensures !(Before(a, b) && Before(b, a))
    ensures !Before(b, a) && !Before(c, b) ==> !Before(c, a)
    ensures !Before(a, b) && !Before(b, a) ==> a.id == b.id
  {
    TextOrder.Trichotomy(a.id, b.id);
    TextOrder.Trichotomy(b.id, c.id);
    TextOrder.Trichotomy(a.id, c.id);
    if TextOrder.Less(a.id, b.id) && TextOrder.Less(b.id, c.id) {
      TextOrder.Transitive(a.id, b.id, c.id);
    }
  }

  /** Distinct IDs survive reordering: an ID occurs once in the whole multiset. */
  lemma DistinctIdsByCount(lots: seq<Lot>, other: seq<Lot>)
    requires multiset(lots) == multiset(other)
    requires DistinctIds(lots)
    ensures DistinctIds(other)
  {
    forall i, j | 0 <= i < j < |other| ensures other[i].id != other[j].id {
      if other[i].id == other[j].id {
        assert other[i] in multiset(lots) && other[j] in multiset(lots);
        assert other[i] == other[j];
        assert other == other[..i] + [other[i]] + other[i + 1..j] + [other[j]] + other[j + 1..];
        assert multiset(other)[other[i]] >= 2;
        CountAtMostOne(lots, other[i]);
      }
    }
  }

  lemma {:induction false} CountAtMostOne(lots: seq<Lot>, x: Lot)
    requires DistinctIds(lots)
    ensures multiset(lots)[x] <= 1
  {
    if lots != [] {
      assert lots == [lots[0]] + lots[1..];
      CountAtMostOne(lots[1..], x);
      if lots[0] == x {
        assert x !in lots[1..];
      }
    }
  }

  lemma SameOldest(xs: seq<Lot>, ys: seq<Lot>)
    requires Sorted(xs) && Sorted(ys) && xs != [] && ys != []
    requires multiset(xs) == multiset(ys)
    requires DistinctIds(xs)
    ensures xs[0] == ys[0]
  {
    var x, y := xs[0], ys[0];
    assert x in multiset(ys) && y in multiset(xs);
    var i :| 0 <= i < |xs| && xs[i] == y;
    var j :| 0 <= j < |ys| && ys[j] == x;
    BeforeIsStrictWeak(x, y, x);
  }

  lemma TailsMatch(xs: seq<Lot>, ys: seq<Lot>)
    requires xs != [] && ys != [] && xs[0] == ys[0]
    requires multiset(xs) == multiset(ys)
    ensures multiset(xs[1..]) == multiset(ys[1..])
  {
    assert xs == [xs[0]] + xs[1..] && ys == [ys[0]] + ys[1..];
    assert multiset(xs[1..]) == multiset(xs) - multiset{xs[0]} == multiset(ys[1..]);
  }

  /** With distinct IDs only one arrangement of the lots is sorted. */
  lemma {:induction false} SortedIsUnique(xs: seq<Lot>, ys: seq<Lot>)
    requires Sorted(xs) && Sorted(ys)
    requires multiset(xs) == multiset(ys)
    requires DistinctIds(xs)
    ensures xs == ys
  {
    assert |xs| == |multiset(xs)| == |multiset(ys)| == |ys|;
    if xs != [] {
      SameOldest(xs, ys);
      TailsMatch(xs, ys);
      SortedIsUnique(xs[1..], ys[1..]);
      assert xs == [xs[0]] + xs[1..] && ys == [ys[0]] + ys[1..];
    }
  }

  function Insert(x: Lot, lots: seq<Lot>): seq<Lot> {
    if lots == [] || !Before(lots[0], x) then [x] + lots
    else [lots[0]] + Insert(x, lots[1..])
  }

  /** The lots ordered by (opened_at, id). */
  function Ordered(lots: seq<Lot>): seq<Lot> {
    if lots == [] then [] else Insert(lots[0], Ordered(lots[1..]))
  }

  lemma {:induction false} InsertSorted(x: Lot, lots: seq<Lot>)
    requires Sorted(lots)
    ensures Sorted(Insert(x, lots))
    ensures multiset(Insert(x, lots)) == multiset(lots) + multiset{x}
  {
    if lots == [] {
    } else if !Before(lots[0], x) {
      forall j | 0 < j <= |lots| ensures !Before(([x] + lots)[j], x) {
        BeforeIsStrictWeak(x, lots[0], lots[j - 1]);
      }
    } else {
      InsertSorted(x, lots[1..]);
      assert lots == [lots[0]] + lots[1..];
      var rest := Insert(x, lots[1..]);
      forall j | 0 <= j < |rest| ensures !Before(rest[j], lots[0]) {
        assert rest[j] in multiset(rest);
        BeforeIsStrictWeak(lots[0], x, x);
      }
    }
  }

  lemma {:induction false} OrderedIsSorted(lots: seq<Lot>)
    ensures Sorted(Ordered(lots))
    ensures multiset(Ordered(lots)) == multiset(lots)
  {
    if lots != [] {
      OrderedIsSorted(lots[1..]);
      InsertSorted(lots[0], Ordered(lots[1..]));
      assert lots == [lots[0]] + lots[1..];
    }
  }

  // ---------- Selection ----------

  /** One pass over lots already in FIFO order. */
  function Allocate(lots: seq<Lot>, sell: Decimal): Allocation {
    if lots == [] || sell <= 0.0 then
      Allocation([], sell)
    else if lots[0].remaining <= 0.0 then
      Allocate(lots[1..], sell)
    else
      var qty := Min(sell, lots[0].remaining);
      var rest := Allocate(lots[1..], sell - qty);
      Allocation([Closure(lots[0].id, qty)] + rest.closures, rest.unmatched)
  }

  method SortInPlace(lots: array<Lot>)
    modifies lots
    ensures Sorted(lots[..])
    ensures forall i, j :: 0 <= i < j < lots.Length ==> !Older(lots[j], lots[i])
    ensures multiset(lots[..]) == multiset(old(lots[..]))
  {
    var i := 0;
    while i < lots.Length
      invariant 0 <= i <= lots.Length
      invariant forall p, q :: 0 <= p < q < i ==> !Before(lots[q], lots[p])
      invariant multiset(lots[..]) == multiset(old(lots[..]))
    {
      var j := i;
      while j > 0 && Before(lots[j], lots[j - 1])
        invariant 0 <= j <= i
        invariant forall p, q :: 0 <= p < q <= i && q != j ==> !Before(lots[q], lots[p])
        invariant multiset(lots[..]) == multiset(old(lots[..]))
      {
        BeforeIsStrictWeak(lots[j], lots[j - 1], lots[j]);
        lots[j - 1], lots[j] := lots[j], lots[j - 1];
        j := j - 1;
      }
      forall p | 0 <= p < j ensures !Before(lots[j], lots[p]) {
        BeforeIsStrictWeak(lots[p], lots[j - 1], lots[j]);
      }
      i := i + 1;
    }
  }

  /** The walk over sorted lots, taking what is still to be sold. */
  method Walk(lots: seq<Lot>, sellQty: Decimal) returns (allocation: Allocation)
    ensures allocation == Allocate(lots, sellQty)
  {
    var remaining := sellQty;
    var closures := [];
    var i := 0;
    assert lots[0..] == lots;
    while i < |lots| && remaining > 0.0
      invariant 0 <= i <= |lots|
      invariant Allocate(lots, sellQty).closures == closures + Allocate(lots[i..], remaining).closures
      invariant Allocate(lots, sellQty).unmatched == Allocate(lots[i..], remaining).unmatched
    {
      assert lots[i..][1..] == lots[i + 1..];
      if lots[i].remaining > 0.0 {
        var qty := Min(remaining, lots[i].remaining);
        closures := closures + [Closure(lots[i].id, qty)];
        remaining := remaining - qty;
      }
      i := i + 1;
    }
    allocation := Allocation(closures, remaining);
  }

  /** Sorts a copy of the open lots, then walks it. */
  method Select(open: seq<Lot>, sellQty: Decimal) returns (allocation: Allocation)
    ensures exists order ::
              Sorted(order) && multiset(order) == multiset(open) && allocation == Allocate(order, sellQty)
    ensures DistinctIds(open) ==> allocation == Allocate(Ordered(open), sellQty)
    ensures DistinctIds(open) && sellQty >= 0.0 ==> OldestFirst(open, allocation.closures)
  {
    var copy := new Lot[|open|](i requires 0 <= i < |open| => open[i]);
    assert copy[..] == open;
    SortInPlace(copy);
    var lots := copy[..];
    allocation := Walk(lots, sellQty);
    if DistinctIds(open) {
      SortedIsOrdered(open, lots);
      if sellQty >= 0.0 {
        SelectsOldestFirst(open, lots, sellQty);
      }
    }
  }

  lemma SortedIsOrdered(open: seq<Lot>, lots: seq<Lot>)
    requires Sorted(lots) && multiset(lots) == multiset(open) && DistinctIds(open)
    ensures lots == Ordered(open)
  {
    OrderedIsSorted(open);
    DistinctIdsByCount(open, lots);
    SortedIsUnique(lots, Ordered(open));
  }

  /** The answer does not depend on the order the open lots are listed in. */
  lemma SelectionIgnoresListing(xs: seq<Lot>, ys: seq<Lot>, sell: Decimal)
    requires multiset(xs) == multiset(ys)
    requires DistinctIds(xs)
    ensures Allocate(Ordered(xs), sell) == Allocate(Ordered(ys), sell)
  {
    OrderedIsSorted(xs);
    OrderedIsSorted(ys);
    DistinctIdsByCount(xs, Ordered(xs));
    SortedIsUnique(Ordered(xs), Ordered(ys));
  }

  // ---------- Clamped prefix sums ----------

  function Held(lot: Lot): Decimal {
    Max(lot.remaining, 0.0)
  }

  /** What the first `n` lots hold together. */
  function HeldBy(lots: seq<Lot>, n: nat): Decimal
    requires n <= |lots|
  {
    if n == 0 then 0.0 else HeldBy(lots, n - 1) + Held(lots[n - 1])
  }

  /** What lot `i` gives up: the part of the sell that reaches past the lots before it. */
  function Share(lots: seq<Lot>, sell: Decimal, i: nat): Decimal
    requires i < |lots|
  {
    Max(0.0, Min(Held(lots[i]), sell - HeldBy(lots, i)))
  }

  function SharesFrom(lots: seq<Lot>, sell: Decimal, i: nat): seq<Closure>
    requires i <= |lots|
    decreases |lots| - i
  {
    if i == |lots| then []
    else
      var rest := SharesFrom(lots, sell, i + 1);
      if Share(lots, sell, i) > 0.0 then [Closure(lots[i].id, Share(lots, sell, i))] + rest else rest
  }

  lemma {:induction false} HeldByMonotone(lots: seq<Lot>, i: nat, j: nat)
    requires i <= j <= |lots|
    ensures HeldBy(lots, i) <= HeldBy(lots, j)
  {
    if i < j {
      HeldByMonotone(lots, i, j - 1);
    }
  }

  lemma {:induction false} NoSharesPast(lots: seq<Lot>, sell: Decimal, i: nat)
    requires i <= |lots|
    requires sell <= HeldBy(lots, i)
    ensures SharesFrom(lots, sell, i) == []
    decreases |lots| - i
  {
    if i < |lots| {
      NoSharesPast(lots, sell, i + 1);
    }
  }

  /** The lot that covers what is left of the sell is the last one touched. */
  lemma LastLotCloses(lots: seq<Lot>, sell: Decimal, i: nat)
    requires i < |lots| && HeldBy(lots, i) < sell < HeldBy(lots, i + 1)
    ensures var last := [Closure(lots[i].id, sell - HeldBy(lots, i))];
            && Allocate(lots[i..], sell - HeldBy(lots, i)) == Allocation(last, 0.0)
            && SharesFrom(lots, sell, i) == last
  {
    var left := sell - HeldBy(lots, i);
    assert lots[i..][0] == lots[i] && lots[i..][1..] == lots[i + 1..];
    assert Share(lots, sell, i) == left;
    assert Allocate(lots[i + 1..], 0.0) == Allocation([], 0.0);
    NoSharesPast(lots, sell, i + 1);
  }

  lemma {:induction false} AllocateFrom(lots: seq<Lot>, sell: Decimal, i: nat)
    requires i <= |lots|
    requires HeldBy(lots, i) <= sell
    ensures var a := Allocate(lots[i..], sell - HeldBy(lots, i));
            && a.closures == SharesFrom(lots, sell, i)
            && a.unmatched == Max(0.0, sell - HeldBy(lots, |lots|))
    decreases |lots| - i
  {
    if i == |lots| {
    } else if sell == HeldBy(lots, i) {
      NoSharesPast(lots, sell, i);
      HeldByMonotone(lots, i, |lots|);
    } else {
      var left := sell - HeldBy(lots, i);
      assert lots[i..][0] == lots[i] && lots[i..][1..] == lots[i + 1..];
      if Held(lots[i]) <= left {
        assert left - Held(lots[i]) == sell - HeldBy(lots, i + 1);
        AllocateFrom(lots, sell, i + 1);
      } else {
        LastLotCloses(lots, sell, i);
        HeldByMonotone(lots, i + 1, |lots|);
      }
    }
  }

  /** The loop computes clamped prefix sums. */
  lemma AllocateIsClampedPrefixSums(lots: seq<Lot>, sell: Decimal)
    requires sell >= 0.0
    ensures Allocate(lots, sell) == Allocation(SharesFrom(lots, sell, 0), Max(0.0, sell - HeldBy(lots, |lots|)))
  {
    assert lots[0..] == lots;
    AllocateFrom(lots, sell, 0);
  }

  /** First in, first out: a lot is touched only once every older lot is exhausted. */
  lemma OlderLotsCloseFirst(lots: seq<Lot>, sell: Decimal, i: nat, j: nat)
    requires i < j < |lots|
    requires Share(lots, sell, j) > 0.0
    ensures Share(lots, sell, i) == Held(lots[i])
  {
    HeldByMonotone(lots, i + 1, j);
  }

  // ---------- Effect on a single lot ----------

  function ClosedFrom(closures: seq<Closure>, id: string): Decimal {
    if closures == [] then 0.0
    else (if closures[0].lotId == id then closures[0].qty else 0.0) + ClosedFrom(closures[1..], id)
  }

  function Total(closures: seq<Closure>): Decimal {
    if closures == [] then 0.0 else closures[0].qty + Total(closures[1..])
  }

  lemma {:induction false} AllocationConserves(lots: seq<Lot>, sell: Decimal)
    requires sell >= 0.0
    ensures var a := Allocate(lots, sell);
            && Total(a.closures) + a.unmatched == sell
            && a.unmatched >= 0.0
    decreases |lots|
  {
    if lots != [] && sell > 0.0 {
      AllocationConserves(lots[1..], if lots[0].remaining <= 0.0 then sell else sell - Min(sell, lots[0].remaining));
    }
  }

  lemma SharesStep(lots: seq<Lot>, sell: Decimal, i: nat, id: string)
    requires i < |lots|
    ensures ClosedFrom(SharesFrom(lots, sell, i), id) ==
            (if lots[i].id == id then Share(lots, sell, i) else 0.0) + ClosedFrom(SharesFrom(lots, sell, i + 1), id)
  {
    var rest := SharesFrom(lots, sell, i + 1);
    assert ([Closure(lots[i].id, Share(lots, sell, i))] + rest)[1..] == rest;
  }

  lemma {:induction false} UnlistedLotsUntouched(lots: seq<Lot>, sell: Decimal, i: nat, id: string)
    requires i <= |lots|
    requires forall k :: i <= k < |lots| ==> lots[k].id != id
    ensures ClosedFrom(SharesFrom(lots, sell, i), id) == 0.0
    decreases |lots| - i
  {
    if i < |lots| {
      UnlistedLotsUntouched(lots, sell, i + 1, id);
      SharesStep(lots, sell, i, id);
    }
  }

  lemma {:induction false} SharesClose(lots: seq<Lot>, sell: Decimal, i: nat, k: nat)
    requires i <= k < |lots|
    requires DistinctIds(lots)
    ensures ClosedFrom(SharesFrom(lots, sell, i), lots[k].id) == Share(lots, sell, k)
    decreases k - i
  {
    SharesStep(lots, sell, i, lots[k].id);
    if i == k {
      UnlistedLotsUntouched(lots, sell, i + 1, lots[k].id);
    } else {
      SharesClose(lots, sell, i + 1, k);
    }
  }

  // ---------- Composition ----------

  /** The lots after a sell: each one less what it gave up. */
  function Decremented(lots: seq<Lot>, closures: seq<Closure>): (r: seq<Lot>)
    ensures |r| == |lots|
    ensures forall i :: 0 <= i < |r| ==>
              r[i] == lots[i].(remaining := lots[i].remaining - ClosedFrom(closures, lots[i].id))
  {
    if lots == [] then []
    else
      var left := lots[0].remaining - ClosedFrom(closures, lots[0].id);
      [lots[0].(remaining := left)] + Decremented(lots[1..], closures)
  }

  /** The query that lists open lots leaves the exhausted ones out. */
  function OpenOnly(lots: seq<Lot>): seq<Lot> {
    if lots == [] then []
    else (if lots[0].remaining > 0.0 then [lots[0]] else []) + OpenOnly(lots[1..])
  }

  /** The closures name the first open lots in order, and only the last may leave part of its lot. */
  ghost predicate ClosesFirst(closures: seq<Closure>, open: seq<Lot>) {
    && |closures| <= |open|
    && (forall k :: 0 <= k < |closures| ==>
        closures[k].lotId == open[k].id && 0.0 < closures[k].qty <= open[k].remaining)
    && (forall k :: 0 <= k < |closures| - 1 ==> closures[k].qty == open[k].remaining)
  }

  lemma ClosesFirstCons(lot: Lot, qty: Decimal, closures: seq<Closure>, open: seq<Lot>)
    requires ClosesFirst(closures, open) && 0.0 < qty <= lot.remaining
    requires closures != [] ==> qty == lot.remaining
    ensures ClosesFirst([Closure(lot.id, qty)] + closures, [lot] + open)
  {
  }

  /**
   First in, first out: closures are a prefix of the open lots with all but the last whole, and
   a sell that leaves something unmatched closes every open lot whole.
   */
  lemma {:induction false} ClosuresArePrefix(lots: seq<Lot>, sell: Decimal)
    ensures var a, open := Allocate(lots, sell), OpenOnly(lots);
            && ClosesFirst(a.closures, open)
            && (sell > 0.0 && a.unmatched > 0.0 ==>
                  |a.closures| == |open| && forall k :: 0 <= k < |open| ==> a.closures[k].qty == open[k].remaining)
    decreases |lots|
  {
    if lots != [] && sell > 0.0 {
      if lots[0].remaining <= 0.0 {
        ClosuresArePrefix(lots[1..], sell);
        assert OpenOnly(lots) == OpenOnly(lots[1..]);
      } else {
        var qty := Min(sell, lots[0].remaining);
        ClosuresArePrefix(lots[1..], sell - qty);
        ClosesFirstCons(lots[0], qty, Allocate(lots[1..], sell - qty).closures, OpenOnly(lots[1..]));
      }
    }
  }

  lemma {:induction false} ExhaustedLotsDoNotMatter(lots: seq<Lot>, sell: Decimal)
    ensures Allocate(OpenOnly(lots), sell) == Allocate(lots, sell)
    decreases |lots|
  {
    if lots != [] {
      var tail := lots[1..];
      if lots[0].remaining > 0.0 {
        assert OpenOnly(lots)[1..] == OpenOnly(tail);
        ExhaustedLotsDoNotMatter(tail, sell - Min(sell, lots[0].remaining));
      } else {
        ExhaustedLotsDoNotMatter(tail, sell);
        assert OpenOnly(lots) == OpenOnly(tail);
        if sell <= 0.0 {
          assert Allocate(OpenOnly(lots), sell) == Allocation([], sell);
        }
      }
    }
  }

  /** What is left of lot `i` after a sell of `a`. */
  ghost predicate SoldFrom(lots: seq<Lot>, a: Decimal, after: seq<Lot>, i: nat)
    requires i < |lots| == |after|
  {
    after[i].id == lots[i].id && after[i].remaining == lots[i].remaining - Share(lots, a, i)
  }

  /** `after` is `lots` with the sell's shares taken off. */
  ghost predicate AfterSell(lots: seq<Lot>, a: Decimal, after: seq<Lot>) {
    |after| == |lots| && forall i :: 0 <= i < |lots| ==> SoldFrom(lots, a, after, i)
  }

  /** One more lot, of `x` remaining behind `h` held by the lots before it. */
  lemma HeldAfterOne(h: Decimal, x: Decimal, a: Decimal)
    requires h >= 0.0 && a >= 0.0
    ensures var held := Max(x, 0.0);
            var share := Max(0.0, Min(held, a - h));
            (h - Min(a, h)) + Max(x - share, 0.0) == (h + held) - Min(a, h + held)
  {
  }

  lemma {:induction false} HeldAfter(lots: seq<Lot>, after: seq<Lot>, a: Decimal, n: nat)
    requires a >= 0.0 && AfterSell(lots, a, after) && n <= |lots|
    ensures HeldBy(after, n) == HeldBy(lots, n) - Min(a, HeldBy(lots, n))
  {
    if n > 0 {
      HeldAfter(lots, after, a, n - 1);
      HeldByMonotone(lots, 0, n - 1);
      assert SoldFrom(lots, a, after, n - 1);
      HeldAfterOne(HeldBy(lots, n - 1), lots[n - 1].remaining, a);
    }
  }

  /** The second sell takes from lot `k` what the whole sell would still take. */
  lemma SharesCompose(lots: seq<Lot>, after: seq<Lot>, a: Decimal, b: Decimal, k: nat)
    requires a >= 0.0 && b >= 0.0 && AfterSell(lots, a, after) && k < |lots|
    ensures Share(lots, a, k) + Share(after, b, k) == Share(lots, a + b, k)
  {
    HeldAfter(lots, after, a, k);
    HeldByMonotone(lots, 0, k);
    assert SoldFrom(lots, a, after, k);
  }

  lemma ClosedFromListed(lots: seq<Lot>, sell: Decimal, k: nat)
    requires sell >= 0.0
    requires DistinctIds(lots)
    requires k < |lots|
    ensures ClosedFrom(Allocate(lots, sell).closures, lots[k].id) == Share(lots, sell, k)
  {
    AllocateIsClampedPrefixSums(lots, sell);
    SharesClose(lots, sell, 0, k);
  }

  /** What FIFO means: no lot is closed at all while an older one has anything left. */
  ghost predicate OldestFirst(open: seq<Lot>, closures: seq<Closure>) {
    forall x, y :: x in open && y in open && Older(x, y) && ClosedFrom(closures, y.id) > 0.0 ==>
      ClosedFrom(closures, x.id) == Max(x.remaining, 0.0)
  }

  lemma OlderComesFirst(lots: seq<Lot>, i: nat, j: nat)
    requires Sorted(lots) && i < |lots| && j < |lots| && Older(lots[i], lots[j])
    ensures i < j
  {
    TextOrder.Trichotomy(lots[i].id, lots[j].id);
  }

  lemma PermutedMember(xs: seq<Lot>, ys: seq<Lot>, x: Lot) returns (i: nat)
    requires multiset(xs) == multiset(ys) && x in xs
    ensures i < |ys| && ys[i] == x
  {
    assert x in multiset(ys);
    i :| 0 <= i < |ys| && ys[i] == x;
  }

  /** A sell closes open lots oldest first, however they are listed. */
  lemma SelectsOldestFirst(open: seq<Lot>, order: seq<Lot>, sell: Decimal)
    requires sell >= 0.0 && DistinctIds(open) && Sorted(order) && multiset(order) == multiset(open)
    ensures OldestFirst(open, Allocate(order, sell).closures)
  {
    var closures := Allocate(order, sell).closures;
    DistinctIdsByCount(open, order);
    forall x, y | x in open && y in open && Older(x, y) && ClosedFrom(closures, y.id) > 0.0
        ensures ClosedFrom(closures, x.id) == Max(x.remaining, 0.0) {
      var i := PermutedMember(open, order, x);
      var j := PermutedMember(open, order, y);
      OlderComesFirst(order, i, j);
      ClosedFromListed(order, sell, i);
      ClosedFromListed(order, sell, j);
      OlderLotsCloseFirst(order, sell, i, j);
    }
  }

  lemma ClosedFromUnlisted(lots: seq<Lot>, sell: Decimal, id: string)
    requires sell >= 0.0
    requires forall k :: 0 <= k < |lots| ==> lots[k].id != id
    ensures ClosedFrom(Allocate(lots, sell).closures, id) == 0.0
  {
    AllocateIsClampedPrefixSums(lots, sell);
    UnlistedLotsUntouched(lots, sell, 0, id);
  }

  lemma RemainingAfter(lots: seq<Lot>, a: Decimal)
    requires DistinctIds(lots) && a >= 0.0
    ensures AfterSell(lots, a, Decremented(lots, Allocate(lots, a).closures))
  {
    var after := Decremented(lots, Allocate(lots, a).closures);
    forall i | 0 <= i < |lots| ensures SoldFrom(lots, a, after, i) {
      ClosedFromListed(lots, a, i);
    }
  }

  lemma IdsStayDistinct(lots: seq<Lot>, after: seq<Lot>, a: Decimal)
    requires DistinctIds(lots) && AfterSell(lots, a, after)
    ensures DistinctIds(after) && forall i :: 0 <= i < |lots| ==> after[i].id == lots[i].id
  {
    forall i | 0 <= i < |lots| ensures after[i].id == lots[i].id {
      assert SoldFrom(lots, a, after, i);
    }
  }

  lemma ClosuresCompose(lots: seq<Lot>, after: seq<Lot>, a: Decimal, b: Decimal, id: string)
    requires DistinctIds(lots) && AfterSell(lots, a, after)
    requires a >= 0.0 && b >= 0.0
    ensures ClosedFrom(Allocate(lots, a).closures, id) + ClosedFrom(Allocate(after, b).closures, id)
            == ClosedFrom(Allocate(lots, a + b).closures, id)
  {
    IdsStayDistinct(lots, after, a);
    if k :| 0 <= k < |lots| && lots[k].id == id {
      ClosedFromListed(lots, a, k);
      ClosedFromListed(after, b, k);
      ClosedFromListed(lots, a + b, k);
      SharesCompose(lots, after, a, b, k);
    } else {
      ClosedFromUnlisted(lots, a, id);
      ClosedFromUnlisted(after, b, id);
      ClosedFromUnlisted(lots, a + b, id);
    }
  }

  lemma UnmatchedIsExcess(lots: seq<Lot>, sell: Decimal)
    requires sell >= 0.0
    ensures Allocate(lots, sell).unmatched == Max(0.0, sell - HeldBy(lots, |lots|))
  {
    AllocateIsClampedPrefixSums(lots, sell);
  }

  lemma UnmatchedComposes(lots: seq<Lot>, after: seq<Lot>, a: Decimal, b: Decimal)
    requires AfterSell(lots, a, after)
    requires a >= 0.0 && b >= 0.0
    ensures Allocate(lots, a).unmatched + Allocate(after, b).unmatched == Allocate(lots, a + b).unmatched
  {
    UnmatchedIsExcess(lots, a);
    UnmatchedIsExcess(after, b);
    UnmatchedIsExcess(lots, a + b);
    HeldAfter(lots, after, a, |lots|);
    HeldByMonotone(lots, 0, |lots|);
  }

  /**
   Selling `a`, decrementing, and selling `b` from what is still open closes the same
   amount from every lot, and leaves the same amount unmatched, as selling `a + b`.
   */
  lemma SellsCompose(lots: seq<Lot>, a: Decimal, b: Decimal)
    requires DistinctIds(lots)
    requires a >= 0.0 && b >= 0.0
    ensures var first := Allocate(lots, a);
            var second := Allocate(OpenOnly(Decremented(lots, first.closures)), b);
            var whole := Allocate(lots, a + b);
            && (forall id ::
                  ClosedFrom(first.closures, id) + ClosedFrom(second.closures, id) == ClosedFrom(whole.closures, id))
            && first.unmatched + second.unmatched == whole.unmatched
  {
    var first := Allocate(lots, a);
    var after := Decremented(lots, first.closures);
    RemainingAfter(lots, a);
    ExhaustedLotsDoNotMatter(after, b);
    UnmatchedComposes(lots, after, a, b);
    forall id
      ensures ClosedFrom(first.closures, id) + ClosedFrom(Allocate(after, b).closures, id)
              == ClosedFrom(Allocate(lots, a + b).closures, id)
    {
      ClosuresCompose(lots, after, a, b, id);
    }
  }
}

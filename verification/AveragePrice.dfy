/**
 The stored average fill price. Division is the only rounding in the accounting: it
 yields the nearest multiple of 10^-16, halves away from zero. Folding fills one by one
 is shown to stay inside a price range exactly when rounding does not leave that range,
 and close to the exact weighted mean exactly when no price rounds to nothing.
 */
module AveragePrice {
  import opened Prelude

  const UNIT: Decimal := 0.0000000000000001

  const HALF: Decimal := 0.00000000000000005

  function RoundHalfAway(x: real): int {
    if x >= 0.0 then (x + 0.5).Floor else -((0.5 - x).Floor)
  }

  function RoundToUnit(x: Decimal): Decimal {
    RoundHalfAway(x / UNIT) as real * UNIT
  }

  function Quotient(a: Decimal, b: Decimal): Decimal
    requires b != 0.0
  {
    a / b
  }

  function Div(a: Decimal, b: Decimal): Decimal
    requires b != 0.0
  {
    RoundToUnit(Quotient(a, b))
  }

  /** One fill row: its delta, and its price when the venue reported one. */
  datatype Priced = Priced(qty: Decimal, price: Option<Decimal>)

  /** The new average after a fill of `qty` at `price` on top of `filled`. */
  function Next(avg: Option<Decimal>, filled: Decimal, qty: Decimal, price: Decimal): Option<Decimal> {
    if qty <= 0.0 || price <= 0.0 || filled + qty == 0.0 then
      avg
    else if avg.None? && filled > 0.0 then
      NullNumeric(price)
    else
      NullNumeric(Weighted(FromNumeric(avg), filled, price, qty))
  }

  function Sum(avg: Decimal, filled: Decimal, price: Decimal, qty: Decimal): Decimal {
    avg * filled + price * qty
  }

  /** The rounded mean of `filled` at `avg` and `qty` at `price`. */
  function Weighted(avg: Decimal, filled: Decimal, price: Decimal, qty: Decimal): Decimal
    requires filled + qty != 0.0
  {
    Div(Sum(avg, filled, price, qty), filled + qty)
  }

  function Quantity(fills: seq<Priced>): Decimal {
    if fills == [] then 0.0 else Quantity(fills[..|fills| - 1]) + fills[|fills| - 1].qty
  }

  /** What the order row stores after these fills, in order. */
  function Average(fills: seq<Priced>): Option<Decimal> {
    if fills == [] then None
    else
      var init, last := fills[..|fills| - 1], fills[|fills| - 1];
      Next(Average(init), Quantity(init), last.qty, FromNumeric(last.price))
  }

  function Notional(fills: seq<Priced>): Decimal {
    if fills == [] then 0.0
    else Notional(fills[..|fills| - 1]) + FromNumeric(fills[|fills| - 1].price) * fills[|fills| - 1].qty
  }

  /** A fill without a price leaves the average, and the first priced one after such fills starts it. */
  lemma UnpricedFillsDoNotWeigh(fills: seq<Priced>, f: Priced)
    ensures f.price.None? ==> Average(fills + [f]) == Average(fills)
    ensures Average(fills).None? && Quantity(fills) > 0.0 && f.qty > 0.0 && f.price.Some? && f.price.value > 0.0 ==>
              Average(fills + [f]) == f.price
  {
    assert (fills + [f])[..|fills|] == fills;
  }

  // ---------- Rounding ----------

  predicate OnGrid(p: Decimal) {
    (p / UNIT).Floor as real * UNIT == p
  }

  /** Rounding either end of the range stays inside it. */
  predicate RoundsInside(lo: Decimal, hi: Decimal) {
    lo <= RoundToUnit(lo) && RoundToUnit(hi) <= hi
  }

  lemma RoundsNearby(x: Decimal)
    ensures -HALF <= RoundToUnit(x) - x <= HALF
  {
    var k := RoundHalfAway(x / UNIT);
    assert -0.5 <= k as real - x / UNIT <= 0.5;
  }

  /** The nearest whole number, and of two nearest the one farther from zero. */
  lemma RoundsHalvesAway(x: real)
    ensures var k := RoundHalfAway(x) as real;
            && -0.5 <= k - x <= 0.5
            && (k - x == 0.5 ==> x > 0.0) && (k - x == -0.5 ==> x < 0.0)
  {
  }

  lemma RoundsInOrder(x: Decimal, y: Decimal)
    requires 0.0 <= x <= y
    ensures 0.0 <= RoundToUnit(x) <= RoundToUnit(y)
  {
    assert 0.0 <= x / UNIT <= y / UNIT;
    assert 0 <= RoundHalfAway(x / UNIT) <= RoundHalfAway(y / UNIT);
  }

  lemma GridPointsStay(p: Decimal)
    requires 0.0 <= p && OnGrid(p)
    ensures RoundToUnit(p) == p
  {
    var k := (p / UNIT).Floor;
    UnitsCancel(k as real);
    assert (k as real + 0.5).Floor == k;
  }

  lemma UnitsCancel(r: real)
    ensures (r * UNIT) / UNIT == r
  {
  }

  /** Half a unit is the least amount that does not round to nothing. */
  lemma RoundsToNothingIff(x: Decimal)
    requires x >= 0.0
    ensures RoundToUnit(x) == 0.0 <==> x < HALF
    ensures x >= HALF ==> RoundToUnit(x) >= UNIT
  {
    var k := RoundHalfAway(x / UNIT);
    assert x / UNIT < 0.5 <==> x < HALF;
    assert k == 0 <==> x / UNIT < 0.5;
  }

  // ---------- Arithmetic ----------

  lemma QuotientTimes(a: Decimal, b: Decimal)
    requires b != 0.0
    ensures Quotient(a, b) * b == a
  {
  }

  lemma QuotientOfProduct(a: Decimal, b: Decimal)
    requires b != 0.0
    ensures Quotient(a * b, b) == a
  {
  }

  lemma MulOrder(a: Decimal, b: Decimal, c: Decimal)
    requires a <= b && c >= 0.0
    ensures a * c <= b * c
  {
  }

  lemma DivOrder(a: Decimal, b: Decimal, c: Decimal)
    requires c > 0.0 && a * c <= b * c
    ensures a <= b
  {
  }

  lemma SumAtLeast(avg: Decimal, filled: Decimal, price: Decimal, qty: Decimal, lo: Decimal)
    requires filled >= 0.0 && qty > 0.0
    requires filled == 0.0 || lo <= avg
    requires lo <= price
    ensures lo * (filled + qty) <= Sum(avg, filled, price, qty)
  {
    if filled != 0.0 {
      MulOrder(lo, avg, filled);
    }
    MulOrder(lo, price, qty);
  }

  lemma SumAtMost(avg: Decimal, filled: Decimal, price: Decimal, qty: Decimal, hi: Decimal)
    requires filled >= 0.0 && qty > 0.0
    requires filled == 0.0 || avg <= hi
    requires price <= hi
    ensures Sum(avg, filled, price, qty) <= hi * (filled + qty)
  {
    if filled != 0.0 {
      MulOrder(avg, hi, filled);
    }
    MulOrder(price, hi, qty);
  }

  lemma MeanAtLeast(sum: Decimal, total: Decimal, lo: Decimal)
    requires total > 0.0 && lo * total <= sum
    ensures lo <= Quotient(sum, total)
  {
    QuotientTimes(sum, total);
    DivOrder(lo, Quotient(sum, total), total);
  }

  lemma MeanAtMost(sum: Decimal, total: Decimal, hi: Decimal)
    requires total > 0.0 && sum <= hi * total
    ensures Quotient(sum, total) <= hi
  {
    QuotientTimes(sum, total);
    DivOrder(Quotient(sum, total), hi, total);
  }

  lemma WeightedAtLeast(avg: Decimal, filled: Decimal, price: Decimal, qty: Decimal, lo: Decimal)
    requires filled >= 0.0 && qty > 0.0 && 0.0 <= lo <= price
    requires filled == 0.0 || lo <= avg
    ensures RoundToUnit(lo) <= Weighted(avg, filled, price, qty)
  {
    var sum, total := Sum(avg, filled, price, qty), filled + qty;
    SumAtLeast(avg, filled, price, qty, lo);
    MeanAtLeast(sum, total, lo);
    RoundsInOrder(lo, Quotient(sum, total));
  }

  lemma WeightedAtMost(avg: Decimal, filled: Decimal, price: Decimal, qty: Decimal, lo: Decimal, hi: Decimal)
    requires filled >= 0.0 && qty > 0.0 && 0.0 <= lo <= price <= hi
    requires filled == 0.0 || lo <= avg <= hi
    ensures Weighted(avg, filled, price, qty) <= RoundToUnit(hi)
  {
    var sum, total := Sum(avg, filled, price, qty), filled + qty;
    SumAtLeast(avg, filled, price, qty, lo);
    SumAtMost(avg, filled, price, qty, hi);
    MeanAtLeast(sum, total, lo);
    MeanAtMost(sum, total, hi);
    RoundsInOrder(Quotient(sum, total), hi);
  }

  // ---------- The range of a history ----------

  ghost predicate Positive(fills: seq<Priced>) {
    forall i :: 0 <= i < |fills| ==> fills[i].qty > 0.0
  }

  ghost predicate Between(fills: seq<Priced>, lo: Decimal, hi: Decimal) {
    forall i :: 0 <= i < |fills| && fills[i].price.Some? ==> lo <= fills[i].price.value <= hi
  }

  /** Some fill carries a price. */
  predicate SomePriced(fills: seq<Priced>) {
    if fills == [] then false else fills[|fills| - 1].price.Some? || SomePriced(fills[..|fills| - 1])
  }

  /** An average is stored exactly when some fill carried a price, and lies in the range. */
  ghost predicate InRange(fills: seq<Priced>, lo: Decimal, hi: Decimal) {
    && (Average(fills).Some? <==> SomePriced(fills))
    && (Average(fills).Some? ==> lo <= Average(fills).value <= hi)
  }

  ghost predicate AlwaysInRange(lo: Decimal, hi: Decimal) {
    forall fills :: Positive(fills) && Between(fills, lo, hi) ==> InRange(fills, lo, hi)
  }

  lemma {:induction false} QuantityPositive(fills: seq<Priced>)
    requires Positive(fills)
    ensures Quantity(fills) >= 0.0
    ensures fills != [] ==> Quantity(fills) > 0.0
  {
    if fills != [] {
      QuantityPositive(fills[..|fills| - 1]);
    }
  }

  lemma NextInRange(avg: Option<Decimal>, filled: Decimal, qty: Decimal, price: Decimal, lo: Decimal, hi: Decimal)
    requires filled >= 0.0 && qty > 0.0
    requires 0.0 < lo <= price <= hi && RoundsInside(lo, hi)
    requires avg.Some? ==> lo <= avg.value <= hi
    ensures Next(avg, filled, qty, price).Some? && lo <= Next(avg, filled, qty, price).value <= hi
  {
    if avg.Some? || filled == 0.0 {
      WeightedAtLeast(FromNumeric(avg), filled, price, qty, lo);
      WeightedAtMost(FromNumeric(avg), filled, price, qty, lo, hi);
    }
  }

  /** One history: what its prices lie between, its average lies between. */
  lemma {:induction false} AverageWithinPrices(fills: seq<Priced>, lo: Decimal, hi: Decimal)
    requires Positive(fills) && Between(fills, lo, hi)
    requires 0.0 < lo <= hi && RoundsInside(lo, hi)
    ensures InRange(fills, lo, hi)
  {
    if fills != [] {
      var init, last := fills[..|fills| - 1], fills[|fills| - 1];
      AverageWithinPrices(init, lo, hi);
      QuantityPositive(init);
      if last.price.Some? {
        NextInRange(Average(init), Quantity(init), last.qty, last.price.value, lo, hi);
      } else {
        assert Average(fills) == Average(init);
      }
    }
  }

  /** A single fill is stored rounded, or not at all when it rounds to nothing. */
  lemma SingleFillIsRounded(qty: Decimal, price: Decimal)
    requires qty > 0.0 && price > 0.0
    ensures Average([Priced(qty, Some(price))]) == NullNumeric(RoundToUnit(price))
  {
    var fills := [Priced(qty, Some(price))];
    assert fills[..0] == [];
    assert Sum(0.0, 0.0, price, qty) == price * qty;
    QuotientOfProduct(price, qty);
  }

  lemma RangeNeedsRounding(p: Decimal, lo: Decimal, hi: Decimal)
    requires 0.0 < lo <= p <= hi && AlwaysInRange(lo, hi)
    ensures lo <= RoundToUnit(p) <= hi
  {
    var fills := [Priced(1.0, Some(p))];
    assert fills[..0] == [];
    assert Positive(fills) && Between(fills, lo, hi) && SomePriced(fills);
    SingleFillIsRounded(1.0, p);
    assert InRange(fills, lo, hi);
  }

  /**
   The range promise holds for a range exactly when rounding its ends does not leave it:
   then every history of positive quantities priced within it keeps its average within it.
   */
  lemma RangeIsKeptIff(lo: Decimal, hi: Decimal)
    requires 0.0 < lo <= hi
    ensures AlwaysInRange(lo, hi) <==> RoundsInside(lo, hi)
  {
    if RoundsInside(lo, hi) {
      forall fills | Positive(fills) && Between(fills, lo, hi) ensures InRange(fills, lo, hi) {
        AverageWithinPrices(fills, lo, hi);
      }
    } else if AlwaysInRange(lo, hi) {
      RangeNeedsRounding(lo, lo, hi);
      RangeNeedsRounding(hi, lo, hi);
    }
  }

  /** Ranges between multiples of the unit are kept. */
  lemma GridRangeIsKept(lo: Decimal, hi: Decimal)
    requires 0.0 < lo <= hi && OnGrid(lo) && OnGrid(hi)
    ensures AlwaysInRange(lo, hi)
  {
    GridPointsStay(lo);
    GridPointsStay(hi);
    RangeIsKeptIff(lo, hi);
  }

  /** A first fill at a tenth of a unit stores no average, so its range is not kept. */
  lemma SubUnitPriceIsLost()
    ensures var p := UNIT / 10.0;
            Average([Priced(1.0, Some(p))]) == None && !AlwaysInRange(p, p)
  {
    var p := UNIT / 10.0;
    SingleFillIsRounded(1.0, p);
    RoundsToNothingIff(p);
    RangeIsKeptIff(p, p);
  }

  // ---------- Distance from the exact mean ----------

  /** Every fill is priced, at `lo` or above. */
  ghost predicate PricedFrom(fills: seq<Priced>, lo: Decimal) {
    forall i :: 0 <= i < |fills| ==> fills[i].price.Some? && fills[i].price.value >= lo
  }

  function Abs(x: Decimal): Decimal {
    if x >= 0.0 then x else -x
  }

  /** What rounding takes off the first price, and half a unit for each later fill. */
  function Drift(fills: seq<Priced>): Decimal
    requires fills != []
  {
    var first := FromNumeric(fills[0].price);
    Abs(RoundToUnit(first) - first) + (|fills| - 1) as real * HALF
  }

  /** At most half a unit a fill, and half a unit less when the first price is on the grid. */
  lemma DriftIsAtMost(fills: seq<Priced>)
    requires fills != [] && PricedFrom(fills, 0.0)
    ensures Drift(fills) <= |fills| as real * HALF
    ensures OnGrid(fills[0].price.value) ==> Drift(fills) == (|fills| - 1) as real * HALF
  {
    RoundsNearby(fills[0].price.value);
    if OnGrid(fills[0].price.value) {
      GridPointsStay(fills[0].price.value);
    }
  }

  /** The average times the quantity stays within `drift` times the quantity of the notional. */
  predicate Drifted(avg: Decimal, notional: Decimal, total: Decimal, drift: Decimal) {
    -(drift * total) <= avg * total - notional <= drift * total
  }

  lemma NearbyTimes(rounded: Decimal, exact: Decimal, sum: Decimal, total: Decimal, half: Decimal)
    requires total > 0.0 && exact * total == sum
    requires -half <= rounded - exact <= half
    ensures -(half * total) <= rounded * total - sum <= half * total
  {
    MulOrder(rounded - exact, half, total);
    MulOrder(-half, rounded - exact, total);
    assert (rounded - exact) * total == rounded * total - sum;
  }

  lemma DivDrift(sum: Decimal, total: Decimal)
    requires total > 0.0
    ensures -(HALF * total) <= Div(sum, total) * total - sum <= HALF * total
  {
    RoundsNearby(Quotient(sum, total));
    QuotientTimes(sum, total);
    NearbyTimes(Div(sum, total), Quotient(sum, total), sum, total, HALF);
  }

  lemma DriftSum(drift: Decimal, half: Decimal, total: Decimal)
    ensures (drift + half) * total == drift * total + half * total
  {
  }

  lemma DriftAdds(rounded: Decimal, avg: Decimal, filled: Decimal, qty: Decimal, price: Decimal,
                  drift: Decimal, half: Decimal, notional: Decimal)
    requires filled > 0.0 && qty > 0.0 && drift >= 0.0
    requires Drifted(avg, notional, filled, drift)
    requires -(half * (filled + qty)) <= rounded * (filled + qty) - (avg * filled + price * qty) <=
        half * (filled + qty)
    ensures Drifted(rounded, notional + price * qty, filled + qty, drift + half)
  {
    MulOrder(filled, filled + qty, drift);
    DriftSum(drift, half, filled + qty);
  }

  /** What a history amounts to. */
  datatype Totals = Totals(avg: Option<Decimal>, qty: Decimal, notional: Decimal, drift: Decimal)

  function Summary(fills: seq<Priced>): Totals
    requires fills != []
  {
    Totals(Average(fills), Quantity(fills), Notional(fills), Drift(fills))
  }

  function First(qty: Decimal, price: Decimal): Totals {
    Totals(NullNumeric(RoundToUnit(price)), qty, price * qty, Abs(RoundToUnit(price) - price))
  }

  function Later(t: Totals, qty: Decimal, price: Decimal): Totals {
    Totals(Next(t.avg, t.qty, qty, price), t.qty + qty, t.notional + price * qty, t.drift + HALF)
  }

  /** The average times the quantity is near the notional. */
  predicate Near(t: Totals) {
    && t.avg.Some? && t.avg.value >= HALF && t.qty > 0.0 && t.drift >= 0.0
    && Drifted(t.avg.value, t.notional, t.qty, t.drift)
  }

  lemma FirstIsNear(qty: Decimal, price: Decimal)
    requires qty > 0.0 && price >= HALF
    ensures Near(First(qty, price))
  {
    RoundsToNothingIff(price);
    NearbyTimes(RoundToUnit(price), price, price * qty, qty, Abs(RoundToUnit(price) - price));
  }

  lemma LaterIsNear(t: Totals, qty: Decimal, price: Decimal)
    requires Near(t) && qty > 0.0 && price >= HALF
    ensures Near(Later(t, qty, price))
  {
    var avg := t.avg.value;
    WeightedAtLeast(avg, t.qty, price, qty, HALF);
    RoundsToNothingIff(HALF);
    DivDrift(Sum(avg, t.qty, price, qty), t.qty + qty);
    DriftAdds(Weighted(avg, t.qty, price, qty), avg, t.qty, qty, price, t.drift, HALF, t.notional);
  }

  lemma FirstSummary(qty: Decimal, price: Decimal)
    requires qty > 0.0 && price > 0.0
    ensures Summary([Priced(qty, Some(price))]) == First(qty, price)
  {
    SingleFillIsRounded(qty, price);
    var fills := [Priced(qty, Some(price))];
    assert fills[..0] == [] && Quantity(fills[..0]) == 0.0 && Notional(fills[..0]) == 0.0;
    assert Quantity(fills) == qty && Notional(fills) == price * qty;
    assert Drift(fills) == Abs(RoundToUnit(price) - price);
  }

  lemma LaterDrift(init: seq<Priced>, last: Priced)
    requires init != []
    ensures Drift(init + [last]) == Drift(init) + HALF
  {
    assert (init + [last])[0] == init[0];
  }

  lemma LaterSummary(init: seq<Priced>, last: Priced)
    requires init != []
    ensures Summary(init + [last]) == Later(Summary(init), last.qty, FromNumeric(last.price))
  {
    var fills := init + [last];
    assert fills[..|fills| - 1] == init && fills[|fills| - 1] == last;
    LaterDrift(init, last);
  }

  /** The stored average times the quantity stays near the notional, fill after fill. */
  lemma {:induction false} StaysNear(fills: seq<Priced>)
    requires Positive(fills) && PricedFrom(fills, HALF) && fills != []
    ensures Near(Summary(fills))
  {
    var init, last := fills[..|fills| - 1], fills[|fills| - 1];
    if init == [] {
      assert fills == [Priced(last.qty, Some(last.price.value))];
      FirstSummary(last.qty, last.price.value);
      FirstIsNear(last.qty, last.price.value);
    } else {
      StaysNear(init);
      assert fills == init + [last];
      LaterSummary(init, last);
      LaterIsNear(Summary(init), last.qty, last.price.value);
    }
  }

  lemma Unscale(avg: Decimal, notional: Decimal, total: Decimal, drift: Decimal)
    requires total > 0.0 && Drifted(avg, notional, total, drift)
    ensures -drift <= avg - notional / total <= drift
  {
    var exact := notional / total;
    assert exact * total == notional;
    DivOrder(exact - drift, avg, total);
    DivOrder(avg, exact + drift, total);
  }

  /** The average is stored, and within `Drift` of the exact volume-weighted one. */
  ghost predicate NearExact(fills: seq<Priced>)
    requires fills != []
  {
    && Average(fills).Some? && Quantity(fills) != 0.0
    && -Drift(fills) <= Average(fills).value - Notional(fills) / Quantity(fills) <= Drift(fills)
  }

  /** One history, every fill priced at half a unit or more. */
  lemma AverageNearExact(fills: seq<Priced>)
    requires Positive(fills) && PricedFrom(fills, HALF) && fills != []
    ensures Quantity(fills) > 0.0 && NearExact(fills)
  {
    StaysNear(fills);
    Unscale(Average(fills).value, Notional(fills), Quantity(fills), Drift(fills));
  }

  ghost predicate AlwaysNearExact(lo: Decimal) {
    forall fills :: Positive(fills) && PricedFrom(fills, lo) && fills != [] ==> NearExact(fills)
  }

  /** Histories priced from `lo` up are all near exact exactly when `lo` is half a unit or more. */
  lemma NearExactIff(lo: Decimal)
    requires lo > 0.0
    ensures AlwaysNearExact(lo) <==> lo >= HALF
  {
    if lo >= HALF {
      forall fills | Positive(fills) && PricedFrom(fills, lo) && fills != [] ensures NearExact(fills) {
        AverageNearExact(fills);
      }
    } else {
      var fills := [Priced(1.0, Some(lo))];
      assert Positive(fills) && PricedFrom(fills, lo);
      SingleFillIsRounded(1.0, lo);
      RoundsToNothingIff(lo);
      assert !NearExact(fills);
    }
  }
}

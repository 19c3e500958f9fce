/** Invoice totals in exact fixed-point arithmetic: money in cents, percentages in hundredths
    of a percent, and one half-up rounding (roundTiesToAway of IEEE 754-2008, section 4.3.1). */
module Invoicing {

  // ---------------------------------------------------------------- rounding

  // num / den rounded to an integer, ties going away from zero.
  function RoundHalfUp(num: int, den: int): int
    requires den > 0
  {
    if num >= 0 then (2 * num + den) / (2 * den) else -((-2 * num + den) / (2 * den))
  }

  // The nearest integer, and of two nearest ones the one farther from zero: this fixes the
  // rounding completely.
  predicate IsHalfUp(num: int, den: int, r: int)
    requires den > 0
  {
    && -den <= 2 * (num - den * r) <= den
    && (2 * (num - den * r) == den ==> num < 0)
    && (2 * (num - den * r) == -den ==> num > 0)
  }

  lemma DivBounds(a: int, b: int)
    requires b > 0
    ensures b * (a / b) <= a < b * (a / b) + b
  {
  }

  lemma Twice(den: int, q: int)
    ensures (2 * den) * q == 2 * (den * q) && den * -q == -(den * q)
  {
  }

  // The quotient both branches of the rounding take, n being the size of the numerator.
  lemma QuotientBounds(n: nat, den: int, q: int)
    requires den > 0 && q == (2 * n + den) / (2 * den)
    ensures 2 * (den * q) <= 2 * n + den < 2 * (den * q) + 2 * den
  {
    DivBounds(2 * n + den, 2 * den);
    Twice(den, q);
  }

  lemma RoundHalfUpIs(num: int, den: int)
    requires den > 0
    ensures IsHalfUp(num, den, RoundHalfUp(num, den))
  {
    if num >= 0 {
      QuotientBounds(num, den, RoundHalfUp(num, den));
    } else {
      QuotientBounds(-num, den, -RoundHalfUp(num, den));
      Twice(den, -RoundHalfUp(num, den));
    }
  }

  lemma Multiples(den: int, d: int)
    requires den > 0
    ensures d >= 1 ==> den * d >= den
    ensures d >= 2 ==> den * d >= 2 * den
    ensures d <= -1 ==> den * d <= -den
    ensures d <= -2 ==> den * d <= -2 * den
  {
  }

  lemma HalfUpUnique(num: int, den: int, r: int, s: int)
    requires den > 0 && IsHalfUp(num, den, r) && IsHalfUp(num, den, s)
    ensures r == s
  {
    assert den * r - den * s == den * (r - s);
    Multiples(den, r - s);
  }

  // Rounding is the unique integer with the half-up property.
  lemma RoundHalfUpIff(num: int, den: int, r: int)
    requires den > 0
    ensures r == RoundHalfUp(num, den) <==> IsHalfUp(num, den, r)
  {
    RoundHalfUpIs(num, den);
    if IsHalfUp(num, den, r) {
      HalfUpUnique(num, den, r, RoundHalfUp(num, den));
    }
  }

  lemma RoundMonotone(a: int, b: int, den: int)
    requires den > 0 && a <= b
    ensures RoundHalfUp(a, den) <= RoundHalfUp(b, den)
  {
    var r, s := RoundHalfUp(a, den), RoundHalfUp(b, den);
    RoundHalfUpIs(a, den);
    RoundHalfUpIs(b, den);
    HalfUpMonotone(a, b, den, r, s);
  }

  lemma HalfUpMonotone(a: int, b: int, den: int, r: int, s: int)
    requires den > 0 && a <= b && IsHalfUp(a, den, r) && IsHalfUp(b, den, s)
    ensures r <= s
  {
    assert den * r - den * s == den * (r - s);
    Multiples(den, r - s);
  }

  // ---------------------------------------------------------------- totals

  lemma Scale(a: nat, b: nat, c: nat)
    requires a <= b
    ensures a * c <= b * c && c * a <= c * b
  {
  }

  const HUNDRED_PERCENT := 10000

  datatype Totals = Totals(gross: nat, discount: nat, net: nat)

  function Sum(amounts: seq<nat>): nat {
    if amounts == [] then 0 else Sum(amounts[..|amounts| - 1]) + amounts[|amounts| - 1]
  }

  // gross * percent / 100, rounded once to the cent.
  function Discount(gross: nat, percent: nat): int {
    RoundHalfUp(gross * percent, HUNDRED_PERCENT)
  }

  // The amounts carry two decimals already, so only the discount is rounded.
  function ComputeTotals(amounts: seq<nat>, mcaCharges: nat, percent: nat): (t: Totals)
    requires percent <= HUNDRED_PERCENT
  {
    var gross := Sum(amounts) + mcaCharges;
    DiscountBounds(gross, percent);
    Totals(gross, Discount(gross, percent), gross - Discount(gross, percent))
  }

  lemma DiscountBounds(gross: nat, percent: nat)
    requires percent <= HUNDRED_PERCENT
    ensures 0 <= Discount(gross, percent) <= gross
  {
    Scale(percent, HUNDRED_PERCENT, gross);
    RoundMonotone(0, gross * percent, HUNDRED_PERCENT);
    RoundMonotone(gross * percent, gross * HUNDRED_PERCENT, HUNDRED_PERCENT);
    RoundHalfUpIff(gross * HUNDRED_PERCENT, HUNDRED_PERCENT, gross);
  }

  // The discount is within half a cent of gross * percent / 100, half cents going up, and
  // net and discount make up the gross.
  lemma TotalsExact(amounts: seq<nat>, mcaCharges: nat, percent: nat)
    requires percent <= 10000
    ensures var t := ComputeTotals(amounts, mcaCharges, percent);
            && t.net + t.discount == t.gross
            && t.gross == Sum(amounts) + mcaCharges
            && -10000 <= 2 * (t.gross * percent - 10000 * t.discount) < 10000
  {
    var t := ComputeTotals(amounts, mcaCharges, percent);
    RoundHalfUpIs(t.gross * percent, HUNDRED_PERCENT);
    assert t.gross * percent >= 0;
  }

  // ---------------------------------------------------------------- order of the items

  // The sum is what counting the items one by one gives.
  lemma SumOfItems(amounts: seq<nat>, more: nat)
    ensures Sum([]) == 0 && Sum(amounts + [more]) == Sum(amounts) + more
  {
    assert (amounts + [more])[..|amounts|] == amounts;
  }

  lemma {:induction false} SumRemove(amounts: seq<nat>, i: nat)
    requires i < |amounts|
    ensures Sum(amounts) == Sum(amounts[..i] + amounts[i + 1..]) + amounts[i]
  {
    var n := |amounts| - 1;
    if i == n {
      assert amounts[..i] + amounts[i + 1..] == amounts[..n];
    } else {
      SumRemove(amounts[..n], i);
      var rest := amounts[..i] + amounts[i + 1..];
      assert rest[..|rest| - 1] == amounts[..n][..i] + amounts[..n][i + 1..];
      assert rest[|rest| - 1] == amounts[n];
    }
  }

  // Totals depend on which items there are, not on their order.
  lemma {:induction false} SumOfPermutation(a: seq<nat>, b: seq<nat>)
    requires multiset(a) == multiset(b)
    ensures Sum(a) == Sum(b)
    decreases |a|
  {
    if a == [] {
      assert |multiset(b)| == 0;
    } else {
      var n := |a| - 1;
      assert a == a[..n] + [a[n]];
      assert a[n] in multiset(b);
      var i :| 0 <= i < |b| && b[i] == a[n];
      var rest := b[..i] + b[i + 1..];
      assert b == b[..i] + [b[i]] + b[i + 1..];
      assert multiset(b) == multiset(rest) + multiset([b[i]]);
      assert multiset(a) == multiset(a[..n]) + multiset([a[n]]);
      assert multiset(a[..n]) == multiset(a) - multiset([a[n]]);
      assert multiset(rest) == multiset(b) - multiset([b[i]]);
      SumOfPermutation(a[..n], rest);
      SumRemove(b, i);
    }
  }

  lemma TotalsIgnoreOrder(a: seq<nat>, b: seq<nat>, mcaCharges: nat, percent: nat)
    requires multiset(a) == multiset(b) && percent <= HUNDRED_PERCENT
    ensures ComputeTotals(a, mcaCharges, percent) == ComputeTotals(b, mcaCharges, percent)
  {
    SumOfPermutation(a, b);
  }

  // ---------------------------------------------------------------- monotonicity

  // A higher gross never lowers the discount nor the net amount.
  lemma TotalsMonotoneInGross(g: nat, h: nat, percent: nat)
    requires g <= h && percent <= HUNDRED_PERCENT
    ensures Discount(g, percent) <= Discount(h, percent)
    ensures g - Discount(g, percent) <= h - Discount(h, percent)
  {
    Scale(g, h, percent);
    RoundMonotone(g * percent, h * percent, HUNDRED_PERCENT);
    var k := h - g;
    DiscountGrowth(g, k, percent);
  }

  // Adding k cents to the gross adds at most k cents to the discount.
  lemma DiscountGrowth(g: nat, k: nat, percent: nat)
    requires percent <= HUNDRED_PERCENT
    ensures Discount(g + k, percent) <= Discount(g, percent) + k
  {
    var d := Discount(g, percent);
    Scale(percent, HUNDRED_PERCENT, k);
    assert (g + k) * percent == g * percent + k * percent;
    var shifted := g * percent + k * HUNDRED_PERCENT;
    RoundMonotone((g + k) * percent, shifted, HUNDRED_PERCENT);
    RoundHalfUpIs(g * percent, HUNDRED_PERCENT);
    assert HUNDRED_PERCENT * (d + k) == HUNDRED_PERCENT * d + k * HUNDRED_PERCENT;
    assert g * percent >= 0;
    if 2 * (shifted - HUNDRED_PERCENT * (d + k)) == -HUNDRED_PERCENT {
      assert g * percent > 0;
    }
    RoundHalfUpIff(shifted, HUNDRED_PERCENT, d + k);
  }

  // A higher percentage never raises the net amount.
  lemma NetAntitoneInPercent(gross: nat, p: nat, q: nat)
    requires p <= q <= HUNDRED_PERCENT
    ensures gross - Discount(gross, q) <= gross - Discount(gross, p)
  {
    Scale(p, q, gross);
    RoundMonotone(gross * p, gross * q, HUNDRED_PERCENT);
  }

  // ---------------------------------------------------------------- splitting an invoice

  function SumDiscounts(parts: seq<nat>, percent: nat): int {
    if parts == [] then 0
    else SumDiscounts(parts[..|parts| - 1], percent) + Discount(parts[|parts| - 1], percent)
  }

  // The parts' discounts stray from the exact share by at most half a cent each.
  lemma {:induction false} PartsNearExact(parts: seq<nat>, percent: nat)
    ensures var error := Sum(parts) * percent - HUNDRED_PERCENT * SumDiscounts(parts, percent);
            -(|parts| * HUNDRED_PERCENT) <= 2 * error <= |parts| * HUNDRED_PERCENT
  {
    if parts != [] {
      var n := |parts| - 1;
      PartsNearExact(parts[..n], percent);
      RoundHalfUpIs(parts[n] * percent, HUNDRED_PERCENT);
      assert (Sum(parts[..n]) + parts[n]) * percent == Sum(parts[..n]) * percent + parts[n] * percent;
    }
  }

  // Splitting one gross over k invoices at the same percentage changes the total discount by
  // at most (k + 1) / 2 cents, and not at all when it is not split.
  lemma SplitChangesDiscountLittle(parts: seq<nat>, percent: nat)
    ensures var change := SumDiscounts(parts, percent) - Discount(Sum(parts), percent);
            && -(|parts| + 1) <= 2 * change <= |parts| + 1
            && (|parts| == 1 ==> change == 0)
  {
    PartsNearExact(parts, percent);
    RoundHalfUpIs(Sum(parts) * percent, HUNDRED_PERCENT);
    if |parts| == 1 {
      assert Sum(parts) == parts[0] by { assert Sum(parts[..0]) == 0; }
      assert SumDiscounts(parts, percent) == Discount(parts[0], percent) by {
        assert SumDiscounts(parts[..0], percent) == 0;
      }
    }
  }

  // ---------------------------------------------------------------- decimal precision

  const PRECISION_LIMIT := 10000000000000000000000000000
  const NUMERIC_12_2_LIMIT := 1000000000000

  // With a gross that fits Numeric(12, 2), every intermediate coefficient stays below 28
  // digits, so decimal arithmetic never rounds before the one rounding asked for.
  lemma ProductsFitPrecision(amounts: seq<nat>, mcaCharges: nat, percent: nat)
    requires percent <= HUNDRED_PERCENT && Sum(amounts) + mcaCharges < NUMERIC_12_2_LIMIT
    ensures var t := ComputeTotals(amounts, mcaCharges, percent);
            t.gross * percent < PRECISION_LIMIT && t.discount < NUMERIC_12_2_LIMIT && t.net < NUMERIC_12_2_LIMIT
    ensures forall i | 0 <= i <= |amounts| :: Sum(amounts[..i]) <= Sum(amounts)
  {
    var gross := Sum(amounts) + mcaCharges;
    DiscountBounds(gross, percent);
    Scale(percent, HUNDRED_PERCENT, gross);
    Scale(gross, NUMERIC_12_2_LIMIT, HUNDRED_PERCENT);
    forall i | 0 <= i <= |amounts|
      ensures Sum(amounts[..i]) <= Sum(amounts)
    {
      SumPrefix(amounts, i);
    }
  }

  lemma {:induction false} SumPrefix(amounts: seq<nat>, i: nat)
    requires i <= |amounts|
    ensures Sum(amounts[..i]) <= Sum(amounts)
    decreases |amounts| - i
  {
    if i < |amounts| {
      assert amounts[..i + 1][..i] == amounts[..i];
      SumPrefix(amounts, i + 1);
    } else {
      assert amounts[..i] == amounts;
    }
  }
}

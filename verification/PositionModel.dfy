/** What one fill does to a position, and runs of fills. */
module PositionModel {
  // 64-bit raw quantities and prices, a 128-bit weighted sum, truncating division.  The
  // functions at the top are the arithmetic of a single fill; the concurrent protocol and the
  // one-thread object both use them.  Below is the meaning of the average entry price of a
  // long position over whole runs of fills: bounds by the fill prices, distance from the
  // exact mean, and what reducing sells leave alone.

  import opened Int64

  function SignedQty(qty: int, isBuy: bool): int {
    if isBuy then qty else Wrap(-qty)
  }

  function NewQty(qty: int, signedQty: int): int {
    Wrap(qty + signedQty)
  }

  function NewAvg(qty: int, avg: int, signedQty: int, price: int): int {
    var newQty := NewQty(qty, signedQty);
    if (qty >= 0 && signedQty > 0) || (qty < 0 && signedQty < 0) then
      var totalValue := qty * avg + signedQty * price;
      var newQtyAbs := Wrap(Abs(newQty));
      if newQtyAbs == 0 then 0 else Wrap(TruncDiv(totalValue, newQtyAbs))
    else if newQty == 0 then 0 else avg
  }

  /** Ten percent of the notional value, never negative. */
  function NewMargin(newQty: int, newAvg: int): int {
    var notional := TruncDiv(Wrap(Abs(newQty)) * newAvg, 100_000_000);
    var margin := Wrap(TruncDiv(notional, 10));
    if margin > 0 then margin else 0
  }

  // ----- runs of fills -----

  datatype Fill = Fill(qty: int, price: int)
  datatype Holding = Holding(qty: int, avg: int)

  const FLAT := Holding(0, 0)

  /** One fill of a signed quantity. */
  function AfterFill(h: Holding, f: Fill): Holding {
    Holding(NewQty(h.qty, f.qty), NewAvg(h.qty, h.avg, f.qty, f.price))
  }

  /** Fills of signed quantities, one after the other. */
  function AfterFills(fills: seq<Fill>): Holding {
    if fills == [] then FLAT else AfterFill(AfterFills(fills[..|fills| - 1]), fills[|fills| - 1])
  }

  function AfterSell(h: Holding, f: Fill): Holding {
    AfterFill(h, Fill(SignedQty(f.qty, false), f.price))
  }

  function TotalQty(fills: seq<Fill>): int {
    if fills == [] then 0 else TotalQty(fills[..|fills| - 1]) + fills[|fills| - 1].qty
  }

  function TotalValue(fills: seq<Fill>): int {
    if fills == [] then 0
    else TotalValue(fills[..|fills| - 1]) + fills[|fills| - 1].qty * fills[|fills| - 1].price
  }

  ghost predicate Buys(fills: seq<Fill>) {
    forall i :: 0 <= i < |fills| ==> fills[i].qty > 0
  }

  ghost predicate PricesWithin(fills: seq<Fill>, lo: int, hi: int) {
    forall i :: 0 <= i < |fills| ==> lo <= fills[i].price <= hi
  }

  lemma {:induction false} TotalQtyPositive(fills: seq<Fill>)
    requires Buys(fills)
    ensures TotalQty(fills) >= 0 && (fills != [] ==> TotalQty(fills) > 0)
  {
    if fills != [] { TotalQtyPositive(fills[..|fills| - 1]); }
  }

  lemma QuotientBetween(q: int, r: int, d: int, lo: int, hi: int)
    requires d > 0 && -d < r < d && lo * d <= q * d + r <= hi * d
    ensures lo <= q <= hi
  {
    assert (lo - 1) * d == lo * d - d && (hi + 1) * d == hi * d + d;
    CancelStrict(lo - 1, q, d);
    CancelStrict(q, hi + 1, d);
  }

  lemma CancelStrict(a: int, b: int, d: int)
    requires d > 0 && a * d < b * d
    ensures a < b
  {
    if b <= a { MulMono(b, a, d); }
  }

  /** Truncation stays between integer bounds. */
  lemma TruncBetween(t: int, d: int, lo: int, hi: int)
    requires d > 0 && lo * d <= t <= hi * d
    ensures lo <= TruncDiv(t, d) <= hi
  {
    TruncRemainder(t, d);
    QuotientBetween(TruncDiv(t, d), t - TruncDiv(t, d) * d, d, lo, hi);
  }

  lemma WeightedBounds(q: int, a: int, add: int, x: int, lo: int, hi: int)
    requires q >= 0 && add > 0 && lo <= x <= hi && (q > 0 ==> lo <= a <= hi)
    ensures lo * (q + add) <= q * a + add * x <= hi * (q + add)
  {
    MulMono(lo, x, add);
    MulMono(x, hi, add);
    if q > 0 {
      MulMono(lo, a, q);
      MulMono(a, hi, q);
    }
    assert lo * (q + add) == lo * q + lo * add && hi * (q + add) == hi * q + hi * add;
  }

  // One buy onto a long or flat position, before any wrap-around.
  lemma BuyStep(h: Holding, f: Fill, lo: int, hi: int)
    requires h.qty >= 0 && f.qty > 0 && h.qty + f.qty <= MAX
    requires MIN <= lo <= f.price <= hi <= MAX && (h.qty > 0 ==> lo <= h.avg <= hi)
    ensures var h', t := AfterFill(h, f), h.qty * h.avg + f.qty * f.price;
            && h'.qty == h.qty + f.qty && lo <= h'.avg <= hi
            && Abs(t - h'.qty * h'.avg) < h'.qty && (t >= 0 ==> t >= h'.qty * h'.avg)
  {
    var d, t := h.qty + f.qty, h.qty * h.avg + f.qty * f.price;
    WeightedBounds(h.qty, h.avg, f.qty, f.price, lo, hi);
    TruncBetween(t, d, lo, hi);
    BuyUnfolds(h, f);
    TruncOf(t, d);
  }

  lemma TruncOf(t: int, d: int)
    requires d > 0
    ensures Abs(t - d * TruncDiv(t, d)) < d && (t >= 0 ==> t >= d * TruncDiv(t, d))
  {
    TruncRemainder(t, d);
    assert d * TruncDiv(t, d) == TruncDiv(t, d) * d;
  }

  lemma BuyUnfolds(h: Holding, f: Fill)
    requires h.qty >= 0 && f.qty > 0 && h.qty + f.qty <= MAX
    ensures AfterFill(h, f) ==
            Holding(h.qty + f.qty, Wrap(TruncDiv(h.qty * h.avg + f.qty * f.price, h.qty + f.qty)))
  {
  }

  /** After any run of buys from flat the average lies between the lowest and the highest
      fill price, and the quantity is their sum. */
  lemma {:induction false} AverageWithinPrices(fills: seq<Fill>, lo: int, hi: int)
    requires Buys(fills) && TotalQty(fills) <= MAX && MIN <= lo <= hi <= MAX && PricesWithin(fills, lo, hi)
    ensures AfterFills(fills).qty == TotalQty(fills)
    ensures fills != [] ==> lo <= AfterFills(fills).avg <= hi
  {
    if fills != [] {
      var n := |fills| - 1;
      TotalQtyPositive(fills[..n]);
      AverageWithinPrices(fills[..n], lo, hi);
      if n == 0 { assert fills[..n] == []; } else { TotalQtyPositive(fills[..n]); }
      BuyStep(AfterFills(fills[..n]), fills[n], lo, hi);
    }
  }

  // Adding the errors of two steps.
  lemma ErrorStep(v: int, q: int, a: int, add: int, x: int, q': int, a': int, n: int)
    requires 0 <= q <= q' && n >= 0 && (n == 0 ==> v == q * a) && (n > 0 ==> Abs(v - q * a) < n * q)
    requires Abs(q * a + add * x - q' * a') < q'
    ensures Abs(v + add * x - q' * a') < (n + 1) * q'
  {
    MulMono(q, q', n);
    assert n * q <= n * q';
    assert (n + 1) * q' == n * q' + q';
    assert v + add * x - q' * a' == (v - q * a) + (q * a + add * x - q' * a');
  }

  /** After n buys the average times the quantity is within n times the quantity of the
      exact total value: the average is within n raw units of the exact weighted mean,
      and with no negative price it is never above it. */
  lemma {:induction false} AverageNearMean(fills: seq<Fill>, lo: int, hi: int)
    requires fills != [] && Buys(fills) && TotalQty(fills) <= MAX
    requires MIN <= lo <= hi <= MAX && PricesWithin(fills, lo, hi)
    ensures var h := AfterFills(fills);
            && Abs(TotalValue(fills) - h.qty * h.avg) < |fills| * h.qty
            && (lo >= 0 ==> h.qty * h.avg <= TotalValue(fills))
  {
    var n := |fills| - 1;
    var before, f := fills[..n], fills[n];
    TotalQtyPositive(before);
    AverageWithinPrices(before, lo, hi);
    BuyStep(AfterFills(before), f, lo, hi);
    var h, h' := AfterFills(before), AfterFills(fills);
    if n > 0 { AverageNearMean(before, lo, hi); } else { assert before == []; }
    ErrorStep(TotalValue(before), h.qty, h.avg, f.qty, f.price, h'.qty, h'.avg, n);
    if lo >= 0 {
      MulMono(0, h.avg, h.qty);
      MulMono(0, f.price, f.qty);
    }
  }

  // ----- what one fill computes -----

  /** Adding to a position in its own direction averages: the new average is the signed total
      value over the absolute quantity, rounded toward zero, if that fits 64 bits. */
  lemma SameDirectionAverages(qty: int, avg: int, add: int, price: int, r: int)
    requires (qty >= 0 && add > 0) || (qty < 0 && add < 0)
    requires -MAX <= qty + add <= MAX && InRange(r)
    requires var rest := qty * avg + add * price - r * Abs(qty + add);
             && Abs(rest) < Abs(qty + add)
             && (qty * avg + add * price >= 0 ==> rest >= 0) && (qty * avg + add * price <= 0 ==> rest <= 0)
    ensures NewQty(qty, add) == qty + add && NewAvg(qty, avg, add, price) == r
  {
    AveragesTo(qty, avg, add, price, qty * avg + add * price, Abs(qty + add), r);
  }

  lemma AveragesTo(qty: int, avg: int, add: int, price: int, total: int, d: int, r: int)
    requires (qty >= 0 && add > 0) || (qty < 0 && add < 0)
    requires -MAX <= qty + add <= MAX && InRange(r) && total == qty * avg + add * price && d == Abs(qty + add)
    requires var rest := total - r * d;
             Abs(rest) < d && (total >= 0 ==> rest >= 0) && (total <= 0 ==> rest <= 0)
    ensures NewQty(qty, add) == qty + add && NewAvg(qty, avg, add, price) == r
  {
    TruncUnique(total, d, r);
  }

  /** A fill against the position, or onto a flat one from the selling side, keeps the old
      average, even when it turns the position round; only closing it resets the average. */
  lemma OtherDirectionKeeps(qty: int, avg: int, add: int, price: int)
    requires add == 0 || (qty < 0 && add > 0) || (qty >= 0 && add < 0)
    requires -MAX <= qty + add <= MAX
    ensures NewQty(qty, add) == qty + add && NewAvg(qty, avg, add, price) == if qty + add == 0 then 0 else avg
  {
  }

  const NOTIONAL := 100_000_000

  /** The margin of a long position is ten percent of its notional value, rounded down to raw
      units, exactly if that fits 64 bits. */
  lemma MarginIsTenthIff(qty: int, avg: int, m: int)
    requires 0 <= qty <= MAX && 0 <= avg <= MAX
    requires m * (10 * NOTIONAL) <= qty * avg < (m + 1) * (10 * NOTIONAL)
    ensures NewMargin(qty, avg) == m <==> m <= MAX
  {
    MulMono(0, avg, qty);
    TenthOf(qty * avg, m);
    MarginOf(qty, avg, qty * avg, m);
  }

  lemma TenthOf(value: int, m: int)
    requires value >= 0 && m * (10 * NOTIONAL) <= value < (m + 1) * (10 * NOTIONAL)
    ensures m >= 0 && TruncDiv(TruncDiv(value, NOTIONAL), 10) == m
  {
  }

  lemma MarginOf(qty: int, avg: int, value: int, m: int)
    requires 0 <= qty <= MAX && 0 <= avg <= MAX && value == qty * avg && m >= 0
    requires TruncDiv(TruncDiv(value, NOTIONAL), 10) == m
    ensures NewMargin(qty, avg) == m <==> m <= MAX
  {
  }

  /** A margin is never negative. */
  lemma MarginNonNegative(qty: int, avg: int)
    ensures NewMargin(qty, avg) >= 0
  {
  }

  // ----- the 128-bit intermediate -----

  lemma ProductsFit(a: int, b: int)
    requires InRange(a) && InRange(b)
    ensures a * b <= TWO126 && (a * b == TWO126 <==> a == MIN && b == MIN)
    ensures -TWO126 < a * b
  {
    if a == MIN && b == MIN {
      assert a * b == TWO126;
    } else if a == MIN {
      ProductWithMin(b);
    } else if b == MIN {
      ProductWithMin(a);
    } else {
      ProductBound(a, b, MAX);
      AbsAtMost(a * b, MAX * MAX);
    }
  }

  lemma AbsAtMost(x: int, m: int)
    requires Abs(x) <= m
    ensures -m <= x <= m
  {
  }

  lemma ProductWithMin(b: int)
    requires MIN < b <= MAX
    ensures -TWO126 < MIN * b < TWO126 && b * MIN == MIN * b
  {
  }

  /** The weighted sum that a fill computes in 128 bits fits them unless quantity, average,
      signed fill and price are all the least 64-bit value. */
  lemma WeightedSumFitsIff(qty: int, avg: int, signedQty: int, price: int)
    requires InRange(qty) && InRange(avg) && InRange(signedQty) && InRange(price)
    ensures InRange128(qty * avg + signedQty * price)
            <==> !(qty == MIN && avg == MIN && signedQty == MIN && price == MIN)
  {
    ProductsFit(qty, avg);
    ProductsFit(signedQty, price);
  }

  /** In that one case the sum is not used: the quantity wraps to zero, and so does the
      average. */
  lemma OverflowIsHarmless()
    ensures NewQty(MIN, MIN) == 0 && NewAvg(MIN, MIN, MIN, MIN) == 0
  {
  }

  // ----- runs that mix buys and sells -----

  /** After no fill is the position short, or beyond the 64-bit range. */
  ghost predicate StaysLong(fills: seq<Fill>) {
    forall k :: 0 <= k <= |fills| ==> 0 <= TotalQty(fills[..k]) <= MAX
  }

  ghost predicate BuyPricesWithin(fills: seq<Fill>, lo: int, hi: int) {
    forall i :: 0 <= i < |fills| && fills[i].qty > 0 ==> lo <= fills[i].price <= hi
  }

  // A sell, or a fill of nothing, that leaves the position long or flat.
  lemma SellStep(h: Holding, f: Fill)
    requires 0 <= h.qty + f.qty <= h.qty <= MAX && f.qty <= 0
    ensures AfterFill(h, f) == Holding(h.qty + f.qty, if h.qty + f.qty == 0 then 0 else h.avg)
  {
  }

  /** In any run of buys and sells that never goes short, the quantity is the sum of the
      fills, and while there is a position its average lies within the prices bought at. */
  lemma {:induction false} LongAverageWithinBuys(fills: seq<Fill>, lo: int, hi: int)
    requires StaysLong(fills) && BuyPricesWithin(fills, lo, hi) && MIN <= lo <= hi <= MAX
    ensures var h := AfterFills(fills); h.qty == TotalQty(fills) && (h.qty > 0 ==> lo <= h.avg <= hi)
  {
    if fills != [] {
      var n := |fills| - 1;
      var before, f := fills[..n], fills[n];
      StaysLongBefore(fills, before);
      LongAverageWithinBuys(before, lo, hi);
      LongStep(AfterFills(before), f, lo, hi);
    }
  }

  lemma StaysLongBefore(fills: seq<Fill>, before: seq<Fill>)
    requires fills != [] && StaysLong(fills) && before == fills[..|fills| - 1]
    ensures StaysLong(before) && 0 <= TotalQty(before) <= MAX && 0 <= TotalQty(fills) <= MAX
  {
    assert fills[..|fills|] == fills;
    assert before[..|before|] == before;
    forall k | 0 <= k <= |before| ensures 0 <= TotalQty(before[..k]) <= MAX {
      assert before[..k] == fills[..k];
    }
  }

  lemma LongStep(h: Holding, f: Fill, lo: int, hi: int)
    requires 0 <= h.qty <= MAX && 0 <= h.qty + f.qty <= MAX && (h.qty > 0 ==> lo <= h.avg <= hi)
    requires MIN <= lo <= hi <= MAX && (f.qty > 0 ==> lo <= f.price <= hi)
    ensures var h' := AfterFill(h, f); h'.qty == h.qty + f.qty && (h'.qty > 0 ==> lo <= h'.avg <= hi)
  {
    if f.qty > 0 { BuyStep(h, f, lo, hi); } else { SellStep(h, f); }
  }

  // ----- runs of sells -----

  function AfterSells(h: Holding, fills: seq<Fill>): Holding {
    if fills == [] then h else AfterSell(AfterSells(h, fills[..|fills| - 1]), fills[|fills| - 1])
  }

  /** Sells that only reduce a long position leave its average alone; the one that closes
      it resets the average. */
  lemma {:induction false} SellsKeepAverage(h: Holding, fills: seq<Fill>)
    requires 0 < h.qty <= MAX && Buys(fills) && TotalQty(fills) <= h.qty
    ensures AfterSells(h, fills) ==
            if TotalQty(fills) == h.qty then FLAT else Holding(h.qty - TotalQty(fills), h.avg)
  {
    if fills != [] {
      TotalQtyPositive(fills[..|fills| - 1]);
      SellsKeepAverage(h, fills[..|fills| - 1]);
    }
  }
}

/** Volume bars as functions of the ticks they were built from. */
module VolumeBarModel {
  // All registers are unsigned 64-bit and wrap, as atomic additions and casts do in a release
  // build.  `BarOf` replays the code tick by tick; the specification beside it speaks of sums
  // and extremes of the tick sequence in unbounded integers.

  import opened Wrappers
  import opened Sequences
  import Int64

  const TWO64 := Int64.TWO64
  const U64_MAX := 0xFFFF_FFFF_FFFF_FFFF

  type U64 = x: int | 0 <= x < TWO64

  datatype Tick = Tick(price: U64, volume: U64)

  datatype Bar = Bar(
    open: U64, high: U64, low: U64, close: U64,
    volume: U64, vwapNum: U64, tickCount: U64, complete: bool)

  const EMPTY_BAR := Bar(0, 0, U64_MAX, 0, 0, 0, 0, false)

  function Wrap(x: nat): U64 {
    x % TWO64
  }

  // ----- the code: one tick -----

  function WithPrice(b: Bar, price: U64): Bar {
    b.(open := if b.open == 0 then price else b.open,
       high := if price > b.high then price else b.high,
       low := if price < b.low then price else b.low,
       close := price)
  }

  function WithSums(b: Bar, price: U64, volume: U64): Bar {
    b.(volume := Wrap(b.volume + volume),
       vwapNum := Wrap(b.vwapNum + price * volume),
       tickCount := Wrap(b.tickCount + 1))
  }

  function AddTick(b: Bar, t: Tick, threshold: U64): Bar {
    var b' := WithSums(WithPrice(b, t.price), t.price, t.volume);
    b'.(complete := b'.complete || b'.volume >= threshold)
  }

  // ----- the code: the aggregator -----

  datatype Aggregator = Aggregator(bar: Bar, completed: U64)

  const NEW_AGGREGATOR := Aggregator(EMPTY_BAR, 0)

  /** The flag says whether this tick left the volume at the threshold or above; the counter
      counts such ticks, also those after the one that completed the bar. */
  function ProcessTick(a: Aggregator, t: Tick, threshold: U64): (Aggregator, bool) {
    var bar := AddTick(a.bar, t, threshold);
    if bar.volume >= threshold then (Aggregator(bar, Wrap(a.completed + 1)), true)
    else (Aggregator(bar, a.completed), false)
  }

  function TakeBar(a: Aggregator): (Aggregator, Option<Bar>) {
    if a.bar.complete then (a.(bar := EMPTY_BAR), Some(a.bar)) else (a, None)
  }

  function Vwap(b: Bar): U64 {
    if b.volume == 0 then 0 else Quotient(b.vwapNum, b.volume)
  }

  function Quotient(n: U64, d: U64): U64
    requires d > 0
  {
    QuotientBound(n, d);
    n / d
  }

  lemma QuotientBound(n: nat, d: nat)
    requires d > 0
    ensures 0 <= n / d <= n
  {
    var q := n / d;
    assert n == q * d + n % d;
    if q > n {
      ProductAtLeast(q, d);
    }
  }

  lemma ProductAtLeast(a: nat, b: nat)
    requires b > 0
    ensures a * b >= a
  {
    assert a * (b - 1) >= 0;
  }

  function BarOf(ticks: seq<Tick>, threshold: U64): Bar {
    if ticks == [] then EMPTY_BAR else AddTick(BarOf(Init(ticks), threshold), Last(ticks), threshold)
  }

  // ----- the specification: sums and extremes of the ticks -----

  function SumVolume(ticks: seq<Tick>): nat {
    if ticks == [] then 0 else SumVolume(Init(ticks)) + Last(ticks).volume
  }

  function SumNotional(ticks: seq<Tick>): nat {
    if ticks == [] then 0 else SumNotional(Init(ticks)) + Last(ticks).price * Last(ticks).volume
  }

  ghost predicate IsHighest(price: U64, ticks: seq<Tick>) {
    && (exists i :: 0 <= i < |ticks| && ticks[i].price == price)
    && (forall i :: 0 <= i < |ticks| ==> ticks[i].price <= price)
  }

  ghost predicate IsLowest(price: U64, ticks: seq<Tick>) {
    && (exists i :: 0 <= i < |ticks| && ticks[i].price == price)
    && (forall i :: 0 <= i < |ticks| ==> price <= ticks[i].price)
  }

  /** The first price that is not zero, or zero if there is none. */
  ghost predicate IsOpening(price: U64, ticks: seq<Tick>) {
    if forall i :: 0 <= i < |ticks| ==> ticks[i].price == 0 then price == 0
    else
      exists i :: 0 <= i < |ticks| && ticks[i].price == price != 0 && forall j :: 0 <= j < i ==> ticks[j].price == 0
  }

  /** After the first n ticks the volume register stood at the threshold or above. */
  predicate ReachedAt(ticks: seq<Tick>, threshold: U64, n: nat)
    requires n <= |ticks|
  {
    n > 0 && Wrap(SumVolume(ticks[..n])) >= threshold
  }

  lemma WrapAdd(a: nat, b: nat)
    ensures Wrap(Wrap(a) + b) == Wrap(a + b)
  {
    var q := a / TWO64;
    assert a + b == Wrap(a) + b + q * TWO64;
    Int64.ModShift(Wrap(a) + b, q);
  }

  /** The additive registers hold the sums over the ticks, wrapped to 64 bits. */
  lemma {:induction false} RegistersHoldSums(ticks: seq<Tick>, threshold: U64)
    ensures var b := BarOf(ticks, threshold);
            && b.volume == Wrap(SumVolume(ticks))
            && b.vwapNum == Wrap(SumNotional(ticks))
            && b.tickCount == Wrap(|ticks|)
  {
    if ticks != [] {
      RegistersHoldSums(Init(ticks), threshold);
      WrapAdd(SumVolume(Init(ticks)), Last(ticks).volume);
      WrapAdd(SumNotional(Init(ticks)), Last(ticks).price * Last(ticks).volume);
      WrapAdd(|ticks| - 1, 1);
    }
  }

  lemma HighestExtends(ticks: seq<Tick>, high: U64)
    requires ticks != [] && (Init(ticks) == [] ==> high == 0) && (Init(ticks) != [] ==> IsHighest(high, Init(ticks)))
    ensures IsHighest(if Last(ticks).price > high then Last(ticks).price else high, ticks)
  {
    var r: U64 := if Last(ticks).price > high then Last(ticks).price else high;
    if Init(ticks) != [] && r == high {
      var i :| 0 <= i < |Init(ticks)| && Init(ticks)[i].price == high;
      assert ticks[i].price == r;
    } else {
      assert ticks[|ticks| - 1].price == r;
    }
    forall i | 0 <= i < |ticks| ensures ticks[i].price <= r {
      if i < |ticks| - 1 { assert Init(ticks)[i].price <= high; }
    }
  }

  lemma LowestExtends(ticks: seq<Tick>, low: U64)
    requires ticks != [] && (Init(ticks) == [] ==> low == U64_MAX) && (Init(ticks) != [] ==> IsLowest(low, Init(ticks)))
    ensures IsLowest(if Last(ticks).price < low then Last(ticks).price else low, ticks)
  {
    var r: U64 := if Last(ticks).price < low then Last(ticks).price else low;
    if Init(ticks) != [] && r == low {
      var i :| 0 <= i < |Init(ticks)| && Init(ticks)[i].price == low;
      assert ticks[i].price == r;
    } else {
      assert ticks[|ticks| - 1].price == r;
    }
    forall i | 0 <= i < |ticks| ensures r <= ticks[i].price {
      if i < |ticks| - 1 { assert low <= Init(ticks)[i].price; }
    }
  }

  lemma OpeningExtends(ticks: seq<Tick>, open: U64)
    requires ticks != [] && IsOpening(open, Init(ticks))
    ensures IsOpening(if open == 0 then Last(ticks).price else open, ticks)
  {
    var init, last := Init(ticks), Last(ticks);
    if open == 0 {
      assert forall i :: 0 <= i < |init| ==> init[i].price == 0;
      assert forall i :: 0 <= i < |init| ==> ticks[i] == init[i];
      assert ticks[|init|] == last;
    } else {
      var i :| 0 <= i < |init| && init[i].price == open != 0 && forall j :: 0 <= j < i ==> init[j].price == 0;
      assert ticks[i].price == open && forall j :: 0 <= j < i ==> ticks[j] == init[j];
    }
  }

  /** The four prices are the first nonzero, highest, lowest and last price of the bar's ticks. */
  lemma {:induction false} PricesOfBar(ticks: seq<Tick>, threshold: U64)
    ensures var b := BarOf(ticks, threshold);
            && IsOpening(b.open, ticks)
            && (ticks == [] ==> b.high == 0 && b.low == U64_MAX && b.close == 0)
            && (ticks != [] ==> IsHighest(b.high, ticks) && IsLowest(b.low, ticks) && b.close == Last(ticks).price)
  {
    if ticks != [] {
      PricesOfBar(Init(ticks), threshold);
      var b := BarOf(Init(ticks), threshold);
      HighestExtends(ticks, b.high);
      LowestExtends(ticks, b.low);
      OpeningExtends(ticks, b.open);
    }
  }

  /** A bar is complete exactly when its volume has stood at the threshold after some tick. */
  lemma {:induction false} CompleteIff(ticks: seq<Tick>, threshold: U64)
    ensures BarOf(ticks, threshold).complete <==>
            exists n: nat :: n <= |ticks| && ReachedAt(ticks, threshold, n)
  {
    if ticks != [] {
      var init := Init(ticks);
      CompleteIff(init, threshold);
      RegistersHoldSums(ticks, threshold);
      assert ticks[..|ticks|] == ticks;
      forall n: nat | n <= |init| ensures ReachedAt(init, threshold, n) == ReachedAt(ticks, threshold, n) {
        assert init[..n] == ticks[..n];
      }
      if BarOf(ticks, threshold).complete {
        if BarOf(init, threshold).complete {
          var n: nat :| n <= |init| && ReachedAt(init, threshold, n);
          assert ReachedAt(ticks, threshold, n);
        } else {
          assert ReachedAt(ticks, threshold, |ticks|);
        }
      }
    }
  }

  // ----- the volume-weighted average price -----

  lemma {:induction false} NotionalBounds(ticks: seq<Tick>, low: nat, high: nat)
    requires forall i :: 0 <= i < |ticks| ==> low <= ticks[i].price <= high
    ensures low * SumVolume(ticks) <= SumNotional(ticks) <= high * SumVolume(ticks)
  {
    if ticks != [] {
      NotionalBounds(Init(ticks), low, high);
      NotionalStep(low, high, Last(ticks).price, Last(ticks).volume, SumVolume(Init(ticks)));
    }
  }

  lemma NotionalStep(low: nat, high: nat, price: nat, volume: nat, before: nat)
    requires low <= price <= high
    ensures low * (before + volume) <= low * before + price * volume
    ensures high * before + price * volume <= high * (before + volume)
  {
    assert (price - low) * volume >= 0;
    assert (high - price) * volume >= 0;
  }

  lemma QuotientBetween(n: nat, d: nat, low: nat, high: nat)
    requires d > 0 && low * d <= n <= high * d
    ensures low <= n / d <= high
  {
    Euclid(n, d);
    if n / d < low { ProductMonotonic(n / d + 1, low, d); }
    if n / d > high { ProductMonotonic(high + 1, n / d, d); }
  }

  lemma Euclid(n: nat, d: nat)
    requires d > 0
    ensures (n / d) * d <= n < (n / d + 1) * d
  {
    assert n == (n / d) * d + n % d;
  }

  lemma ProductMonotonic(a: nat, b: nat, d: nat)
    requires a <= b
    ensures a * d <= b * d
  {
  }

  lemma VwapOf(b: Bar, n: U64, v: U64)
    requires b.vwapNum == n && b.volume == v > 0
    ensures Vwap(b) == n / v
  {
  }

  lemma WrapSmall(x: nat)
    requires x < TWO64
    ensures Wrap(x) == x
  {
  }

  lemma NotionalOfBar(ticks: seq<Tick>, threshold: U64)
    requires ticks != []
    ensures var b := BarOf(ticks, threshold);
            b.low * SumVolume(ticks) <= SumNotional(ticks) <= b.high * SumVolume(ticks)
  {
    var b := BarOf(ticks, threshold);
    PricesOfBar(ticks, threshold);
    NotionalBounds(ticks, b.low, b.high);
  }

  /** Without overflow the average lies between the bar's lowest and highest price. */
  lemma VwapBetween(ticks: seq<Tick>, threshold: U64)
    requires 0 < SumVolume(ticks) < TWO64 && SumNotional(ticks) < TWO64
    ensures var b := BarOf(ticks, threshold); b.low <= Vwap(b) <= b.high
  {
    var b := BarOf(ticks, threshold);
    RegistersHoldSums(ticks, threshold);
    WrapSmall(SumVolume(ticks));
    WrapSmall(SumNotional(ticks));
    NotionalOfBar(ticks, threshold);
    BarVwapBetween(b);
  }

  lemma BarVwapBetween(b: Bar)
    requires b.volume > 0 && b.low * b.volume <= b.vwapNum <= b.high * b.volume
    ensures b.low <= Vwap(b) <= b.high
  {
    VwapOf(b, b.vwapNum, b.volume);
    QuotientBetween(b.vwapNum, b.volume, b.low, b.high);
  }

  // Taking at least d off the dividend lowers the quotient.
  lemma QuotientDrops(n: nat, n': nat, d: nat)
    requires d > 0 && n' + d <= n
    ensures n' / d < n / d
  {
    Euclid(n, d);
    Euclid(n', d);
    if n' / d >= n / d { ProductMonotonic(n / d, n' / d, d); }
  }

  lemma WrapDrops(n: nat)
    requires n >= TWO64
    ensures Wrap(n) + TWO64 <= n
  {
  }

  lemma WrappedQuotientIff(n: nat, w: U64, d: U64)
    requires d > 0 && w == Wrap(n)
    ensures w / d == n / d <==> n < TWO64
  {
    if n < TWO64 {
      WrapSmall(n);
    } else {
      WrapDrops(n);
      QuotientDrops(n, w, d);
    }
  }

  /** With a volume that fits 64 bits, the reported average is the true one, rounded down,
      exactly when the sum of price times volume fits 64 bits too. */
  lemma VwapExactIff(ticks: seq<Tick>, threshold: U64)
    requires 0 < SumVolume(ticks) < TWO64
    ensures Vwap(BarOf(ticks, threshold)) == SumNotional(ticks) / SumVolume(ticks) <==> SumNotional(ticks) < TWO64
  {
    var b := BarOf(ticks, threshold);
    RegistersHoldSums(ticks, threshold);
    WrapSmall(SumVolume(ticks));
    VwapOf(b, b.vwapNum, b.volume);
    WrappedQuotientIff(SumNotional(ticks), b.vwapNum, b.volume);
  }

  /** In the documented units one unit at 100 dollars already overflows: the average of this
      single tick falls below its price, which is also the bar's low. */
  lemma SingleTickOverflow(threshold: U64)
    ensures var b := BarOf([Tick(100_000_000_000, 1_000_000_000)], threshold);
            b.low == 100_000_000_000 && Vwap(b) == 7_766_279_631
  {
    var ticks := [Tick(100_000_000_000, 1_000_000_000)];
    assert Init(ticks) == [];
    assert SumNotional(ticks) == 100_000_000_000_000_000_000;
    assert SumVolume(ticks) == 1_000_000_000;
    RegistersHoldSums(ticks, threshold);
  }
}

/** Rolling windows over a circular buffer and the cumulative average price. */
module RollingModel {
  // `Filled` and `CalculatorAfter` replay the code on everything pushed so far.  `Kept`,
  // `Sum`, `SumPV` and `SumV` are the plain definitions the streaming registers are compared
  // with; they know nothing of slots, indices or subtraction.

  import opened Reals
  import opened Sequences

  const LANES := 8

  datatype Window = Window(buffer: seq<real>, writeIdx: nat, count: nat, sum: real)

  /** The requested capacity rounded up to whole vector lanes. */
  function Aligned(capacity: nat): (c: nat)
    ensures c % LANES == 0 && capacity <= c < capacity + LANES
  {
    ((capacity + LANES - 1) / LANES) * LANES
  }

  function Zeros(n: nat): (z: seq<real>)
    ensures |z| == n && forall i :: 0 <= i < n ==> z[i] == 0.0
  {
    seq(n, _ => 0.0)
  }

  function Empty(capacity: nat): Window {
    Window(Zeros(capacity), 0, 0, 0.0)
  }

  function Push(w: Window, value: real): (w': Window)
    requires |w.buffer| > 0
    ensures |w'.buffer| == |w.buffer|
  {
    var idx := w.writeIdx % |w.buffer|;
    Window(w.buffer[idx := value], w.writeIdx + 1,
           if w.count < |w.buffer| then w.count + 1 else w.count,
           w.sum - w.buffer[idx] + value)
  }

  function Mean(w: Window): real {
    if w.count == 0 then 0.0 else w.sum / w.count as real
  }

  /** An empty window after pushing all values in turn. */
  function Filled(values: seq<real>, capacity: nat): (w: Window)
    requires capacity > 0
    ensures |w.buffer| == capacity
  {
    if values == [] then Empty(capacity) else Push(Filled(Init(values), capacity), Last(values))
  }

  // ----- the specification: the last values themselves -----

  function Kept(values: seq<real>, capacity: nat): seq<real> {
    if |values| <= capacity then values else values[|values| - capacity..]
  }

  lemma ModPeriod(n: nat, c: nat)
    requires c > 0
    ensures (n + c) % c == n % c
  {
    Remainder(n + c, n / c + 1, n % c, c);
  }

  lemma Remainder(a: nat, q: nat, r: nat, c: nat)
    requires r < c && a == q * c + r
    ensures a % c == r
  {
    var q', r' := a / c, a % c;
    assert a == q' * c + r';
    if q' < q { Product(q' + 1, q, c); }
    if q' > q { Product(q + 1, q', c); }
  }

  lemma Product(a: nat, b: nat, c: nat)
    requires a <= b
    ensures a * c <= b * c
  {
  }

  lemma ModDistinct(k: nat, n: nat, c: nat)
    requires k < n < k + c
    ensures k % c != n % c
  {
    if k % c == n % c {
      var p, q := k / c, n / c;
      assert k == p * c + k % c && n == q * c + n % c;
      DistinctMultiples(p, q, c, n - k);
    }
  }

  lemma DistinctMultiples(p: nat, q: nat, c: nat, d: nat)
    requires q * c == p * c + d && 0 < d
    ensures d >= c
  {
    if q <= p { Product(q, p, c); } else { Product(p + 1, q, c); }
  }

  /** The circular buffer holds each of the last values in its own slot and zero in every
      slot not yet written. */
  lemma {:induction false} BufferHolds(values: seq<real>, c: nat, k: nat)
    requires c > 0
    ensures Filled(values, c).writeIdx == |values|
    ensures k < |values| <= k + c ==> Filled(values, c).buffer[k % c] == values[k]
    ensures |values| <= k < c ==> Filled(values, c).buffer[k] == 0.0
  {
    if values != [] {
      var n := |values| - 1;
      BufferHolds(Init(values), c, k);
      if k < n && n + 1 <= k + c {
        ModDistinct(k, n, c);
      } else if n < k < c {
        SmallMod(n, c);
      }
    }
  }

  lemma SmallMod(n: nat, c: nat)
    requires n < c
    ensures n % c == n
  {
  }

  // What the slot to be overwritten holds.
  lemma Overwritten(values: seq<real>, c: nat)
    requires c > 0
    ensures Filled(values, c).writeIdx == |values|
    ensures Filled(values, c).buffer[|values| % c] == if |values| < c then 0.0 else values[|values| - c]
  {
    if |values| < c {
      SmallMod(|values|, c);
      BufferHolds(values, c, |values|);
    } else {
      BufferHolds(values, c, |values| - c);
      ModPeriod(|values| - c, c);
    }
  }

  lemma {:induction false} SumTail(values: seq<real>)
    requires values != []
    ensures Sum(values) == values[0] + Sum(values[1..])
  {
    if |values| == 1 {
      assert values[1..] == [] && Init(values) == [];
    } else {
      SumTail(Init(values));
      assert Init(values)[1..] == Init(values[1..]);
    }
  }

  lemma KeptExtends(values: seq<real>, v: real, c: nat)
    requires c > 0
    ensures Kept(values + [v], c) ==
            if |values| < c then Kept(values, c) + [v] else Kept(values, c)[1..] + [v]
  {
  }

  lemma SumKeptExtends(values: seq<real>, v: real, c: nat)
    requires c > 0
    ensures Sum(Kept(values + [v], c)) ==
            Sum(Kept(values, c)) + v - if |values| < c then 0.0 else values[|values| - c]
  {
    var k := Kept(values, c);
    KeptExtends(values, v, c);
    if |values| < c {
      assert Init(k + [v]) == k;
    } else {
      SumTail(k);
      assert Init(k[1..] + [v]) == k[1..];
    }
  }

  /** The incremental sum is the sum of the values kept, and the count is their number. */
  lemma {:induction false} RunningSum(values: seq<real>, c: nat)
    requires c > 0
    ensures var w := Filled(values, c);
            w.sum == Sum(Kept(values, c)) && w.count == |Kept(values, c)|
  {
    if values != [] {
      RunningSum(Init(values), c);
      NextSum(Init(values), Last(values), c);
      assert values == Init(values) + [Last(values)];
    }
  }

  lemma NextSum(values: seq<real>, v: real, c: nat)
    requires c > 0
    requires Filled(values, c).sum == Sum(Kept(values, c)) && Filled(values, c).count == |Kept(values, c)|
    ensures var w := Push(Filled(values, c), v);
            w.sum == Sum(Kept(values + [v], c)) && w.count == |Kept(values + [v], c)|
  {
    Overwritten(values, c);
    SumKeptExtends(values, v, c);
  }

  lemma ReplaceInMultiset(s: seq<real>, i: nat, v: real)
    requires i < |s|
    ensures multiset(s[i := v]) == multiset(s) - multiset{s[i]} + multiset{v}
  {
  }

  lemma DropFirst(s: seq<real>)
    requires s != []
    ensures multiset(s[1..]) == multiset(s) - multiset{s[0]}
  {
    assert s == [s[0]] + s[1..];
  }

  lemma PrefixOfUpdate(s: seq<real>, n: nat, v: real)
    requires n < |s|
    ensures s[n := v][..n + 1] == s[..n] + [v]
  {
  }

  ghost predicate SliceMatches(w: Window, values: seq<real>, c: nat) {
    && w.count <= |w.buffer| == c && w.writeIdx == |values| && w.count == |Kept(values, c)|
    && multiset(w.buffer[..w.count]) == multiset(Kept(values, c))
    && (|values| <= c ==> w.buffer[..w.count] == values)
  }

  /** The first count slots hold the kept values, in some order; in their own order as long
      as nothing has been overwritten. */
  lemma {:induction false} SliceIsKept(values: seq<real>, c: nat)
    requires c > 0
    ensures SliceMatches(Filled(values, c), values, c)
  {
    if values != [] {
      SliceIsKept(Init(values), c);
      Overwritten(Init(values), c);
      assert values == Init(values) + [Last(values)];
      if |Init(values)| < c {
        SliceGrows(Filled(Init(values), c), Init(values), Last(values), c);
      } else {
        SliceTurns(Filled(Init(values), c), Init(values), Last(values), c);
      }
    }
  }

  lemma SliceGrows(w: Window, values: seq<real>, v: real, c: nat)
    requires |values| < c && SliceMatches(w, values, c)
    ensures SliceMatches(Push(w, v), values + [v], c)
  {
    SmallMod(|values|, c);
    PrefixOfUpdate(w.buffer, |values|, v);
  }

  lemma SliceTurns(w: Window, values: seq<real>, v: real, c: nat)
    requires 0 < c <= |values| && SliceMatches(w, values, c)
    requires w.buffer[|values| % c] == values[|values| - c]
    ensures SliceMatches(Push(w, v), values + [v], c)
  {
    KeptExtends(values, v, c);
    SliceRotates(w.buffer, Kept(values, c), |values| % c, v);
  }

  lemma SliceRotates(buffer: seq<real>, kept: seq<real>, i: nat, v: real)
    requires i < |buffer| == |kept| && multiset(buffer[..|buffer|]) == multiset(kept) && buffer[i] == kept[0]
    ensures multiset(buffer[i := v][..|buffer|]) == multiset(kept[1..] + [v])
  {
    assert buffer[..|buffer|] == buffer && buffer[i := v][..|buffer|] == buffer[i := v];
    ReplaceInMultiset(buffer, i, v);
    DropFirst(kept);
  }

  lemma AverageBetween(values: seq<real>, low: real, high: real)
    requires values != [] && forall i :: 0 <= i < |values| ==> low <= values[i] <= high
    ensures low <= Sum(values) / |values| as real <= high
  {
    SumAtLeast(values, low);
    SumAtMost(values, high);
    QuotientBetween(Sum(values), |values| as real, low, high);
  }

  lemma MeanIsAverage(w: Window, values: seq<real>)
    requires values != [] && w.sum == Sum(values) && w.count == |values|
    ensures Mean(w) == Sum(values) / |values| as real
  {
  }

  /** The mean is that of the kept values, so it lies between any bounds on them. */
  lemma MeanBetween(values: seq<real>, c: nat, low: real, high: real)
    requires c > 0 && values != []
    requires forall i :: 0 <= i < |Kept(values, c)| ==> low <= Kept(values, c)[i] <= high
    ensures low <= Mean(Filled(values, c)) <= high
  {
    RunningSum(values, c);
    AverageBetween(Kept(values, c), low, high);
    MeanIsAverage(Filled(values, c), Kept(values, c));
  }

  /** Alignment makes the window keep more values than asked for: the requested number is
      kept at all times exactly when it is a multiple of the lane count. */
  lemma KeepsRequestedIff(requested: nat)
    requires requested > 0
    ensures (forall values: seq<real> :: Kept(values, Aligned(requested)) == Kept(values, requested))
            <==> requested % LANES == 0
  {
    if requested % LANES == 0 {
      assert Aligned(requested) == requested;
    } else {
      var many := Zeros(requested + 1);
      assert |Kept(many, Aligned(requested))| == requested + 1;
      assert |Kept(many, requested)| == requested;
    }
  }

  /** Asked for four values, the window still holds all of the first six. */
  lemma SmallRun(capacity: nat)
    requires capacity == Aligned(4)
    ensures var w := Filled([1.0, 2.0, 3.0, 4.0, 5.0, 6.0], capacity); w.count == 6 && Mean(w) == 3.5
  {
    var values := [1.0, 2.0, 3.0, 4.0, 5.0, 6.0];
    assert capacity == 8 && Kept(values, capacity) == values;
    RunningSum(values, capacity);
    SmallSum();
    SixthMean(Filled(values, capacity));
  }

  lemma SixthMean(w: Window)
    requires w.count == 6 && w.sum == 21.0
    ensures Mean(w) == 3.5
  {
  }

  lemma SmallSum()
    ensures Sum([1.0, 2.0, 3.0, 4.0, 5.0, 6.0]) == 21.0
  {
    var values := [1.0, 2.0, 3.0, 4.0, 5.0, 6.0];
    assert Init(values) == [1.0, 2.0, 3.0, 4.0, 5.0];
    assert Init(Init(values)) == [1.0, 2.0, 3.0, 4.0];
    assert Init(Init(Init(values))) == [1.0, 2.0, 3.0];
    assert Sum([1.0, 2.0, 3.0]) == 6.0 by {
      assert Init([1.0, 2.0, 3.0]) == [1.0, 2.0] && Init([1.0, 2.0]) == [1.0] && Init([1.0]) == [];
    }
  }

  // ----- runs of one window -----

  datatype WindowOp = Value(v: real) | Clear

  function WindowAfter(ops: seq<WindowOp>, capacity: nat): (w: Window)
    requires capacity > 0
    ensures |w.buffer| == capacity
  {
    if ops == [] then Empty(capacity)
    else match Last(ops)
      case Value(v) => Push(WindowAfter(Init(ops), capacity), v)
      case Clear => Empty(capacity)
  }

  function SinceClear(ops: seq<WindowOp>): seq<real> {
    if ops == [] then []
    else match Last(ops)
      case Value(v) => SinceClear(Init(ops)) + [v]
      case Clear => []
  }

  lemma {:induction false} RunIsFilled(ops: seq<WindowOp>, c: nat)
    requires c > 0
    ensures WindowAfter(ops, c) == Filled(SinceClear(ops), c)
  {
    if ops != [] {
      RunIsFilled(Init(ops), c);
      if Last(ops).Value? {
        assert Init(SinceClear(Init(ops)) + [Last(ops).v]) == SinceClear(Init(ops));
      }
    }
  }

  /** Whatever is pushed and cleared, sum and count are those of the last values pushed
      since the last clear. */
  lemma WindowRunSum(ops: seq<WindowOp>, c: nat)
    requires c > 0
    ensures var w := WindowAfter(ops, c);
            w.sum == Sum(Kept(SinceClear(ops), c)) && w.count == |Kept(SinceClear(ops), c)|
  {
    RunIsFilled(ops, c);
    RunningSum(SinceClear(ops), c);
  }

  /** In every run the mean is that of the last values since the last clear, zero without any. */
  lemma WindowRunMean(ops: seq<WindowOp>, c: nat)
    requires c > 0
    ensures var kept := Kept(SinceClear(ops), c);
            Mean(WindowAfter(ops, c)) == if kept == [] then 0.0 else Sum(kept) / |kept| as real
  {
    RunIsFilled(ops, c);
    RunningSum(SinceClear(ops), c);
    if SinceClear(ops) != [] { MeanIsAverage(WindowAfter(ops, c), Kept(SinceClear(ops), c)); }
  }

  // ----- the cumulative average price -----

  datatype Tick = Tick(price: real, volume: real)

  datatype Calculator = Calculator(prices: Window, volumes: Window, pvSum: real, vSum: real, tickCount: nat)

  function NewCalculator(capacity: nat): Calculator {
    Calculator(Empty(capacity), Empty(capacity), 0.0, 0.0, 0)
  }

  function AddTick(k: Calculator, t: Tick): Calculator
    requires |k.prices.buffer| > 0 && |k.volumes.buffer| > 0
  {
    Calculator(Push(k.prices, t.price), Push(k.volumes, t.volume),
               k.pvSum + t.price * t.volume, k.vSum + t.volume, k.tickCount + 1)
  }

  function ResetCumulative(k: Calculator): Calculator {
    k.(pvSum := 0.0, vSum := 0.0, tickCount := 0)
  }

  function Vwap(k: Calculator): real {
    if k.vSum == 0.0 then 0.0 else k.pvSum / k.vSum
  }

  datatype TickOp = OpTick(t: Tick) | OpReset

  function CalculatorAfter(ops: seq<TickOp>, capacity: nat): (k: Calculator)
    requires capacity > 0
    ensures |k.prices.buffer| == capacity && |k.volumes.buffer| == capacity
  {
    if ops == [] then NewCalculator(capacity)
    else match Last(ops)
      case OpTick(t) => AddTick(CalculatorAfter(Init(ops), capacity), t)
      case OpReset => ResetCumulative(CalculatorAfter(Init(ops), capacity))
  }

  function SinceReset(ops: seq<TickOp>): seq<Tick> {
    if ops == [] then []
    else match Last(ops)
      case OpTick(t) => SinceReset(Init(ops)) + [t]
      case OpReset => []
  }

  function AllPrices(ops: seq<TickOp>): seq<real> {
    if ops == [] then []
    else match Last(ops)
      case OpTick(t) => AllPrices(Init(ops)) + [t.price]
      case OpReset => AllPrices(Init(ops))
  }

  function AllVolumes(ops: seq<TickOp>): seq<real> {
    if ops == [] then []
    else match Last(ops)
      case OpTick(t) => AllVolumes(Init(ops)) + [t.volume]
      case OpReset => AllVolumes(Init(ops))
  }

  function SumPV(ticks: seq<Tick>): real {
    if ticks == [] then 0.0 else SumPV(Init(ticks)) + Last(ticks).price * Last(ticks).volume
  }

  function SumV(ticks: seq<Tick>): real {
    if ticks == [] then 0.0 else SumV(Init(ticks)) + Last(ticks).volume
  }

  /** Cumulative sums cover the ticks since the last reset; the windows go back past resets. */
  lemma {:induction false} CalculatorSums(ops: seq<TickOp>, c: nat)
    requires c > 0
    ensures var k := CalculatorAfter(ops, c);
            && k.pvSum == SumPV(SinceReset(ops)) && k.vSum == SumV(SinceReset(ops))
            && k.tickCount == |SinceReset(ops)|
            && k.prices == Filled(AllPrices(ops), c) && k.volumes == Filled(AllVolumes(ops), c)
  {
    CalculatorTotals(ops, c);
    CalculatorWindows(ops, c);
  }

  ghost predicate TotalsOf(k: Calculator, ticks: seq<Tick>) {
    k.pvSum == SumPV(ticks) && k.vSum == SumV(ticks) && k.tickCount == |ticks|
  }

  lemma TotalsAppend(k: Calculator, ticks: seq<Tick>, t: Tick)
    requires TotalsOf(k, ticks) && |k.prices.buffer| > 0 && |k.volumes.buffer| > 0
    ensures TotalsOf(AddTick(k, t), ticks + [t])
  {
    assert Init(ticks + [t]) == ticks;
  }

  lemma {:induction false} CalculatorTotals(ops: seq<TickOp>, c: nat)
    requires c > 0
    ensures TotalsOf(CalculatorAfter(ops, c), SinceReset(ops))
  {
    if ops != [] {
      CalculatorTotals(Init(ops), c);
      if Last(ops).OpTick? { TotalsAppend(CalculatorAfter(Init(ops), c), SinceReset(Init(ops)), Last(ops).t); }
    }
  }

  lemma {:induction false} CalculatorWindows(ops: seq<TickOp>, c: nat)
    requires c > 0
    ensures var k := CalculatorAfter(ops, c);
            k.prices == Filled(AllPrices(ops), c) && k.volumes == Filled(AllVolumes(ops), c)
  {
    if ops != [] {
      CalculatorWindows(Init(ops), c);
      if Last(ops).OpTick? {
        assert Init(AllPrices(Init(ops)) + [Last(ops).t.price]) == AllPrices(Init(ops));
        assert Init(AllVolumes(Init(ops)) + [Last(ops).t.volume]) == AllVolumes(Init(ops));
      }
    }
  }

  ghost predicate NoNegativeVolume(ticks: seq<Tick>) {
    forall i :: 0 <= i < |ticks| ==> ticks[i].volume >= 0.0
  }

  lemma {:induction false} PVBetween(ticks: seq<Tick>, low: real, high: real)
    requires NoNegativeVolume(ticks) && forall i :: 0 <= i < |ticks| ==> low <= ticks[i].price <= high
    ensures low * SumV(ticks) <= SumPV(ticks) <= high * SumV(ticks)
  {
    if ticks != [] {
      PVBetween(Init(ticks), low, high);
      PVStep(low, SumV(Init(ticks)), SumPV(Init(ticks)), Last(ticks).price, Last(ticks).volume, high);
    }
  }

  lemma PVStep(low: real, v: real, pv: real, price: real, volume: real, high: real)
    requires low * v <= pv <= high * v && low <= price <= high && volume >= 0.0
    ensures low * (v + volume) <= pv + price * volume <= high * (v + volume)
  {
    NonNegativeProduct(price - low, volume);
    NonNegativeProduct(high - price, volume);
    assert low * (v + volume) == low * v + low * volume;
    assert high * (v + volume) == high * v + high * volume;
  }

  lemma {:induction false} VolumeNonNegative(ticks: seq<Tick>)
    requires NoNegativeVolume(ticks)
    ensures SumV(ticks) >= 0.0
  {
    if ticks != [] { VolumeNonNegative(Init(ticks)); }
  }

  /** With non-negative volumes the average lies between the lowest and the highest price
      since the last reset, unless nothing has traded, when it is zero. */
  lemma VwapBetween(ops: seq<TickOp>, c: nat, low: real, high: real)
    requires c > 0 && NoNegativeVolume(SinceReset(ops))
    requires forall i :: 0 <= i < |SinceReset(ops)| ==> low <= SinceReset(ops)[i].price <= high
    ensures var k := CalculatorAfter(ops, c);
            if SumV(SinceReset(ops)) == 0.0 then Vwap(k) == 0.0
            else Vwap(k) == SumPV(SinceReset(ops)) / SumV(SinceReset(ops)) && low <= Vwap(k) <= high
  {
    var ticks, k := SinceReset(ops), CalculatorAfter(ops, c);
    CalculatorSums(ops, c);
    VolumeNonNegative(ticks);
    if SumV(ticks) != 0.0 {
      PriceAverageBetween(ticks, low, high);
      VwapIsAverage(k, SumPV(ticks), SumV(ticks));
    }
  }

  lemma PriceAverageBetween(ticks: seq<Tick>, low: real, high: real)
    requires NoNegativeVolume(ticks) && SumV(ticks) > 0.0
    requires forall i :: 0 <= i < |ticks| ==> low <= ticks[i].price <= high
    ensures low <= SumPV(ticks) / SumV(ticks) <= high
  {
    PVBetween(ticks, low, high);
    QuotientBetween(SumPV(ticks), SumV(ticks), low, high);
  }

  lemma VwapIsAverage(k: Calculator, pv: real, v: real)
    requires k.pvSum == pv && k.vSum == v != 0.0
    ensures Vwap(k) == pv / v
  {
  }
}

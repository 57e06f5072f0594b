/** The rolling window over its circular array, and the average-price calculator that feeds
    two of them. */
module RollingWindow {
  import opened RollingModel

  class SimdRollingWindow {
    const buffer: array<real>
    var writeIdx: nat
    var count: nat
    var runningSum: real
    const capacity: nat

    ghost predicate Valid()
      reads this
    {
      buffer.Length == capacity && count <= capacity
    }

    ghost function View(): (w: Window)
      reads this, buffer
      ensures |w.buffer| == buffer.Length
    {
      Window(buffer[..], writeIdx, count, runningSum)
    }

    constructor (requested: nat)
      ensures Valid() && fresh(buffer) && capacity == Aligned(requested) && View() == Empty(capacity)
    {
      var aligned := Aligned(requested);
      buffer := new real[aligned](_ => 0.0);
      writeIdx, count, runningSum, capacity := 0, 0, 0.0, aligned;
      new;
      assert buffer[..] == Zeros(aligned);
    }

    // A window without slots has nowhere to write; the source divides by its capacity.
    method Push(value: real)
      requires Valid() && capacity > 0
      modifies this`writeIdx, this`count, this`runningSum, buffer
      ensures Valid() && View() == RollingModel.Push(old(View()), value)
    {
      var idx := writeIdx % capacity;
      writeIdx := writeIdx + 1;
      var oldValue := buffer[idx];
      buffer[idx] := value;
      runningSum := runningSum - oldValue + value;
      if count < capacity {
        count := count + 1;
      }
    }

    method Mean() returns (mean: real)
      requires Valid()
      ensures mean == RollingModel.Mean(View())
    {
      if count == 0 {
        return 0.0;
      }
      mean := runningSum / count as real;
    }

    method Clear()
      requires Valid()
      modifies this`writeIdx, this`count, this`runningSum, buffer
      ensures Valid() && View() == Empty(capacity)
    {
      for i := 0 to capacity
        invariant forall j :: 0 <= j < i ==> buffer[j] == 0.0
      {
        buffer[i] := 0.0;
      }
      writeIdx, count, runningSum := 0, 0, 0.0;
      assert buffer[..] == Zeros(capacity);
    }

    /** After pushing some values since it was new or cleared, the window hands out the last
        of them that fit, in some order, and in their own order until the array wraps. */
    method AsSlice(ghost pushed: seq<real>) returns (slice: seq<real>)
      requires Valid() && (capacity > 0 ==> View() == Filled(pushed, capacity))
      ensures capacity == 0 ==> slice == []
      ensures capacity > 0 ==> multiset(slice) == multiset(Kept(pushed, capacity))
      ensures 0 < capacity && |pushed| <= capacity ==> slice == pushed
    {
      slice := buffer[..count];
      if capacity > 0 { SliceIsKept(pushed, capacity); }
    }
  }

  class SimdVwapCalculator {
    const prices: SimdRollingWindow
    const volumes: SimdRollingWindow
    var pvSum: real
    var vSum: real
    var tickCount: nat

    ghost predicate Valid()
      reads this, prices, volumes
    {
      && prices != volumes && prices.buffer != volumes.buffer
      && prices.Valid() && volumes.Valid() && prices.capacity == volumes.capacity
    }

    ghost function View(): (k: Calculator)
      reads this, prices, volumes, prices.buffer, volumes.buffer
    {
      Calculator(prices.View(), volumes.View(), pvSum, vSum, tickCount)
    }

    constructor (requested: nat)
      ensures Valid() && fresh(prices) && fresh(volumes) && fresh(prices.buffer) && fresh(volumes.buffer)
      ensures prices.capacity == Aligned(requested) && View() == NewCalculator(Aligned(requested))
    {
      prices := new SimdRollingWindow(requested);
      volumes := new SimdRollingWindow(requested);
      pvSum, vSum, tickCount := 0.0, 0.0, 0;
    }

    method AddTick(price: real, volume: real)
      requires Valid() && prices.capacity > 0
      modifies this, prices, volumes, prices.buffer, volumes.buffer
      ensures Valid() && View() == RollingModel.AddTick(old(View()), Tick(price, volume))
    {
      prices.Push(price);
      volumes.Push(volume);
      pvSum := pvSum + price * volume;
      vSum := vSum + volume;
      tickCount := tickCount + 1;
    }

    method VwapNow() returns (vwap: real)
      ensures vwap == Vwap(View())
    {
      if vSum == 0.0 {
        return 0.0;
      }
      vwap := pvSum / vSum;
    }

    method ResetCumulative()
      requires Valid()
      modifies this
      ensures Valid() && View() == RollingModel.ResetCumulative(old(View()))
    {
      pvSum, vSum, tickCount := 0.0, 0.0, 0;
    }
  }
}

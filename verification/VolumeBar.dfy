/** The volume bar aggregator: one bar whose registers every tick updates in place. */
module VolumeBar {
  import opened Wrappers
  import opened VolumeBarModel

  class OhlcvBar {
    var open: U64
    var high: U64
    var low: U64
    var close: U64
    var volume: U64
    var vwapNum: U64
    var tickCount: U64
    var complete: bool

    function View(): Bar
      reads this
    {
      Bar(open, high, low, close, volume, vwapNum, tickCount, complete)
    }

    constructor ()
      ensures View() == EMPTY_BAR
    {
      open, high, low, close := 0, 0, U64_MAX, 0;
      volume, vwapNum, tickCount, complete := 0, 0, 0, false;
    }

    method Reset()
      modifies this
      ensures View() == EMPTY_BAR
    {
      open, high, low, close := 0, 0, U64_MAX, 0;
      volume, vwapNum, tickCount, complete := 0, 0, 0, false;
    }

    method GetVwap() returns (vwap: U64)
      ensures vwap == Vwap(View())
    {
      if volume == 0 {
        return 0;
      }
      vwap := Quotient(vwapNum, volume);
    }
  }

  class VolumeBarAggregator {
    const bar: OhlcvBar
    const threshold: U64
    var completed: U64

    function View(): Aggregator
      reads this, bar
    {
      Aggregator(bar.View(), completed)
    }

    constructor (volumeThreshold: U64)
      ensures fresh(bar) && threshold == volumeThreshold && View() == NEW_AGGREGATOR
    {
      bar := new OhlcvBar();
      threshold := volumeThreshold;
      completed := 0;
    }

    method UpdatePrices(price: U64)
      modifies bar
      ensures bar.View() == WithPrice(old(bar.View()), price)
    {
      if bar.open == 0 {
        bar.open := price;
      }
      if price > bar.high {
        bar.high := price;
      }
      if price < bar.low {
        bar.low := price;
      }
      bar.close := price;
    }

    method UpdateSums(price: U64, volume: U64) returns (newVolume: U64)
      modifies bar
      ensures bar.View() == WithSums(old(bar.View()), price, volume) && newVolume == bar.volume
    {
      newVolume := Wrap(bar.volume + volume);
      bar.volume := newVolume;
      var notional: nat := price * volume;
      bar.vwapNum := Wrap(bar.vwapNum + notional);
      bar.tickCount := Wrap(bar.tickCount + 1);
    }

    method ProcessTick(price: U64, volume: U64) returns (complete: bool)
      modifies this, bar
      ensures (View(), complete) == VolumeBarModel.ProcessTick(old(View()), Tick(price, volume), threshold)
    {
      UpdatePrices(price);
      var newVolume := UpdateSums(price, volume);
      if newVolume >= threshold {
        bar.complete := true;
        completed := Wrap(completed + 1);
        return true;
      }
      complete := false;
    }

    /** A completed bar is handed out as a copy, and the aggregator's own bar starts afresh. */
    method TakeBar() returns (taken: Option<OhlcvBar>)
      modifies this, bar
      ensures View() == VolumeBarModel.TakeBar(old(View())).0
      ensures taken.Some? <==> VolumeBarModel.TakeBar(old(View())).1.Some?
      ensures taken.Some? ==> fresh(taken.value) && Some(taken.value.View()) == VolumeBarModel.TakeBar(old(View())).1
    {
      if !bar.complete {
        return None;
      }
      var copy := new OhlcvBar();
      copy.open, copy.high, copy.low, copy.close := bar.open, bar.high, bar.low, bar.close;
      copy.volume, copy.vwapNum, copy.tickCount, copy.complete := bar.volume, bar.vwapNum, bar.tickCount, true;
      bar.Reset();
      taken := Some(copy);
    }
  }
}

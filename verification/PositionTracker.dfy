/** The tracker used by one thread at a time.  Each compare-and-swap may still fail
    spuriously; `failures` says how often it does before it succeeds, and no result
    depends on it. */
module PositionTracker {
  import opened Int64
  import opened PositionModel

  class LockFreePositionTracker {
    var positionQty: int
    var avgEntryPrice: int
    var realizedPnl: int
    var initialMargin: int
    var accountBalance: int
    var availableBalance: int
    var sequence: nat

    ghost predicate Valid()
      reads this
    {
      && InRange(positionQty) && InRange(avgEntryPrice) && InRange(realizedPnl) && InRange(initialMargin)
      && InRange(accountBalance) && InRange(availableBalance) && sequence < TWO64
    }

    constructor (initialBalance: int)
      requires InRange(initialBalance)
      ensures Valid() && positionQty == avgEntryPrice == realizedPnl == initialMargin == 0 && sequence == 0
      ensures accountBalance == availableBalance == initialBalance
    {
      positionQty, avgEntryPrice, realizedPnl, initialMargin, sequence := 0, 0, 0, 0, 0;
      accountBalance, availableBalance := initialBalance, initialBalance;
    }

    method UpdateOnFill(fillQty: int, fillPrice: int, isBuy: bool, failures: nat) returns (seqNum: nat)
      requires Valid() && InRange(fillQty) && InRange(fillPrice)
      modifies this`positionQty, this`avgEntryPrice, this`initialMargin, this`sequence
      ensures Valid()
      ensures positionQty == NewQty(old(positionQty), SignedQty(fillQty, isBuy))
      ensures avgEntryPrice == NewAvg(old(positionQty), old(avgEntryPrice), SignedQty(fillQty, isBuy), fillPrice)
      ensures initialMargin == NewMargin(positionQty, avgEntryPrice)
      ensures sequence == seqNum == (old(sequence) + 1) % TWO64
    {
      var signedQty := if isBuy then fillQty else Wrap(-fillQty);
      var left := failures;
      while true
        invariant unchanged(this)
        decreases left
      {
        var currentQty := positionQty;
        var currentAvg := avgEntryPrice;
        var newQty := Wrap(currentQty + signedQty);
        var newAvg;
        if (currentQty >= 0 && signedQty > 0) || (currentQty < 0 && signedQty < 0) {
          var totalValue := currentQty * currentAvg + signedQty * fillPrice;
          var newQtyAbs := Wrap(Abs(newQty));
          newAvg := if newQtyAbs == 0 then 0 else Wrap(TruncDiv(totalValue, newQtyAbs));
        } else {
          newAvg := if newQty == 0 then 0 else currentAvg;
        }
        var notional := TruncDiv(Wrap(Abs(newQty)) * newAvg, 100_000_000);
        var newMargin := Wrap(TruncDiv(notional, 10));
        if newMargin < 0 { newMargin := 0; }
        if left == 0 {
          positionQty := newQty;
          avgEntryPrice := newAvg;
          initialMargin := newMargin;
          sequence := (sequence + 1) % TWO64;
          return sequence;
        }
        left := left - 1;
      }
    }

    method AddRealizedPnl(pnl: int, failures: nat) returns (seqNum: nat)
      requires Valid() && InRange(pnl)
      modifies this`realizedPnl, this`accountBalance
      ensures Valid()
      ensures realizedPnl == Saturate(old(realizedPnl) + pnl)
      ensures accountBalance == Saturate(old(accountBalance) + pnl)
      ensures seqNum == sequence
    {
      var left := failures;
      while true
        invariant unchanged(this)
        decreases left
      {
        var newVal := Saturate(realizedPnl + pnl);
        if left == 0 {
          realizedPnl := newVal;
          UpdateAccountBalance(pnl, failures);
          return sequence;
        }
        left := left - 1;
      }
    }

    method UpdateAccountBalance(delta: int, failures: nat)
      requires Valid() && InRange(delta)
      modifies this`accountBalance
      ensures Valid() && accountBalance == Saturate(old(accountBalance) + delta)
    {
      var left := failures;
      while true
        invariant unchanged(this)
        decreases left
      {
        var newVal := Saturate(accountBalance + delta);
        if left == 0 {
          accountBalance := newVal;
          return;
        }
        left := left - 1;
      }
    }

    method TryReserveMargin(required: int, failures: nat) returns (ok: bool)
      requires Valid() && InRange(required)
      modifies this`availableBalance
      ensures Valid() && ok == (required <= old(availableBalance))
      ensures availableBalance == if ok then Wrap(old(availableBalance) - required) else old(availableBalance)
    {
      var left := failures;
      while true
        invariant unchanged(this)
        decreases left
      {
        var available := availableBalance;
        if available < required {
          return false;
        }
        var newAvailable := Wrap(available - required);
        if left == 0 {
          availableBalance := newAvailable;
          return true;
        }
        left := left - 1;
      }
    }

    method ReleaseMargin(amount: int, failures: nat)
      requires Valid() && InRange(amount)
      modifies this`availableBalance
      ensures Valid() && availableBalance == Saturate(old(availableBalance) + amount)
    {
      var left := failures;
      while true
        invariant unchanged(this)
        decreases left
      {
        var newVal := Saturate(availableBalance + amount);
        if left == 0 {
          availableBalance := newVal;
          return;
        }
        left := left - 1;
      }
    }
  }
}

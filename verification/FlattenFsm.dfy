/** The liquidation state machine as an object whose entry actions request transitions of
    the object itself; every method does to the fields what FlattenModel does to a value. */
module FlattenFsm {
  import opened Wrappers
  import opened OrderedDict
  import opened FlattenModel

  class DeterministicFlattenFSM {
    var state: FlattenState
    var positions: Dict<Position>
    var pending: seq<Order>
    var executed: seq<Order>
    var progress: Dict<real>

    function View(): Fsm
      reads this
    {
      Fsm(state, positions, pending, executed, progress)
    }

    constructor ()
      ensures View() == INITIAL
    {
      state, positions, pending, executed, progress := IDLE, [], [], [], [];
    }

    method TransitionTo(to: FlattenState) returns (ok: bool)
      modifies this
      ensures (View(), ok) == FlattenModel.TransitionTo(old(View()), to)
      decreases EntryRank(to), 3
    {
      if !Allowed(state, to) {
        return false;
      }
      state := to;
      OnEnterState(to);
      ok := true;
    }

    method OnEnterState(entered: FlattenState)
      requires state == entered
      modifies this
      ensures View() == Enter(old(View()))
      decreases EntryRank(entered), 2
    {
      match entered {
        case ASSESSING => AssessPositions();
        case REDUCING_RISK => GenerateReduceOrders();
        case AGGRESSIVE_SELL => GenerateAggressiveOrders();
        case FLATTENING => GenerateFlattenOrders();
        case COMPLETE => OnLiquidationComplete();
        case ERROR =>
        case IDLE =>
      }
    }

    method AssessPositions()
      requires state == ASSESSING
      modifies this
      ensures View() == Enter(old(View()))
      decreases EntryRank(ASSESSING), 1
    {
      if positions == [] {
        var _ := TransitionTo(COMPLETE);
        return;
      }
      ghost var start := View();
      WeighPositions();
      ResetProgress();
      WeighedKeys(start.progress, start.positions);
      var _ := TransitionTo(REDUCING_RISK);
    }

    method WeighPositions()
      modifies this`positions
      ensures positions == Weighed(old(positions))
    {
      ghost var start := positions;
      for i := 0 to |positions|
        invariant |positions| == |start|
        invariant forall j :: 0 <= j < i ==> positions[j] == Weighed(start)[j]
        invariant forall j :: i <= j < |start| ==> positions[j] == start[j]
      {
        var (key, pos) := positions[i];
        positions := positions[i := (key, pos.(urgencyWeight := Urgency(pos)))];
      }
    }

    method ResetProgress()
      modifies this`progress
      ensures progress == ZeroProgress(old(progress), positions)
    {
      ghost var start := progress;
      for i := 0 to |positions|
        invariant progress == ZeroProgress(start, positions[..i])
      {
        progress := Put(progress, positions[i].0, 0.0);
        assert positions[..i + 1][..i] == positions[..i];
      }
      assert positions[..|positions|] == positions;
    }

    method GenerateReduceOrders()
      requires state == REDUCING_RISK
      modifies this
      ensures View() == Enter(old(View()))
      decreases EntryRank(REDUCING_RISK), 1
    {
      var sorted := SortByUrgency(Infos(positions));
      GenerateOrders(Reduce, Take(sorted, MAX_ORDERS_PER_CYCLE));
      if TotalProgress(View()) > AGGRESSIVE_THRESHOLD {
        var _ := TransitionTo(AGGRESSIVE_SELL);
      }
    }

    method GenerateAggressiveOrders()
      requires state == AGGRESSIVE_SELL
      modifies this
      ensures View() == Enter(old(View()))
      decreases EntryRank(AGGRESSIVE_SELL), 1
    {
      GenerateOrders(Aggressive, Infos(positions));
    }

    method GenerateFlattenOrders()
      requires state == FLATTENING
      modifies this
      ensures View() == Enter(old(View()))
      decreases EntryRank(FLATTENING), 1
    {
      GenerateOrders(Flatten, Infos(positions));
    }

    // The loop shared by the three generators.
    method GenerateOrders(g: Generator, ps: seq<Position>)
      modifies this`pending
      ensures pending == Orders(g, ps, progress)
      decreases 0, 0
    {
      pending := [];
      for i := 0 to |ps|
        invariant pending == Orders(g, ps[..i], progress)
      {
        assert ps[..i + 1][..i] == ps[..i];
        var order := Generate(g, ps[i], progress);
        if order.Some? {
          pending := pending + [order.value];
        }
      }
      assert ps[..|ps|] == ps;
    }

    method OnLiquidationComplete()
      requires state == COMPLETE
      modifies this`positions, this`pending
      ensures View() == Enter(old(View()))
      decreases 0, 0
    {
      positions, pending := [], [];
    }

    /** An unknown asset changes no progress.  Raised stands for the division by zero that a
        zero position or a zero expected price runs into. */
    method ReportOrderExecution(asset: string, executedQty: real, expectedPrice: real) returns (raised: bool)
      modifies this
      ensures (View(), raised) == Report(old(View()), asset, executedQty, expectedPrice)
    {
      var found := Get(positions, asset);
      if found.Some? {
        var total := Abs(found.value.quantity);
        if total == 0.0 {
          return true;
        }
        progress := Put(progress, asset, NewProgress(Progress(progress, asset), total, executedQty));
        if expectedPrice == 0.0 {
          return true;
        }
      }
      CheckCompletion();
      raised := false;
    }

    method CheckCompletion()
      modifies this
      ensures View() == FlattenModel.CheckCompletion(old(View()))
    {
      if Liquidating(state) && AllDone(progress) {
        var _ := TransitionTo(COMPLETE);
      }
    }

    method UpdatePosition(asset: string, info: Position)
      modifies this`positions
      ensures View() == FlattenModel.UpdatePosition(old(View()), asset, info)
      ensures forall k :: Get(positions, k) == if k == asset then Some(info) else Get(old(positions), k)
    {
      forall k ensures Get(Put(positions, asset, info), k) == if k == asset then Some(info) else Get(positions, k) {
        GetPut(positions, asset, info, k);
      }
      positions := Put(positions, asset, info);
    }

    method RemovePosition(asset: string)
      modifies this`positions, this`progress
      ensures View() == FlattenModel.RemovePosition(old(View()), asset)
    {
      positions, progress := Remove(positions, asset), Remove(progress, asset);
    }

    method ClearOrders()
      modifies this`executed, this`pending
      ensures View() == FlattenModel.ClearOrders(old(View()))
    {
      executed, pending := executed + pending, [];
    }

    method Reset()
      modifies this
      ensures View() == INITIAL
    {
      state, positions, pending, executed, progress := IDLE, [], [], [], [];
    }

    /** Store every given position, then ask for an assessment. */
    method TriggerEmergencyFlatten(given: Dict<Position>)
      modifies this
      ensures View() == FlattenModel.TransitionTo(
                        old(View()).(positions := Stored(old(positions), given)), ASSESSING).0
    {
      ghost var start := View();
      for i := 0 to |given|
        invariant View() == start.(positions := Stored(start.positions, given[..i]))
      {
        assert given[..i + 1][..i] == given[..i];
        UpdatePosition(given[i].0, given[i].1);
      }
      assert given[..|given|] == given;
      var _ := TransitionTo(ASSESSING);
    }
  }

  // Zeroing looks at keys only, so it may come after the weighing.
  lemma {:induction false} WeighedKeys(progress: Dict<real>, positions: Dict<Position>)
    ensures ZeroProgress(progress, Weighed(positions)) == ZeroProgress(progress, positions)
  {
    if positions != [] {
      var n := |positions| - 1;
      WeighedKeys(progress, positions[..n]);
      assert Weighed(positions)[..n] == Weighed(positions[..n]);
    }
  }
}

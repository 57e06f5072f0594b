/** What the liquidation state machine guarantees. */
module FlattenProofs {
  // It never steps back to a milder stage, its orders never exceed what remains of a
  // position, and an assessment ends in a state that the progress entries decide.

  import opened OrderedDict
  import opened FlattenModel

  // ----- no way back -----

  /** How far liquidation has gone; 0 outside it. */
  function Stage(s: FlattenState): nat {
    match s
    case REDUCING_RISK => 1
    case AGGRESSIVE_SELL => 2
    case FLATTENING => 3
    case _ => 0
  }

  datatype Op =
    | OpTransition(to: FlattenState)
    | OpReport(asset: string, executedQty: real, expectedPrice: real)
    | OpUpdate(asset: string, info: Position)
    | OpRemove(asset: string)
    | OpClearOrders
    | OpReset

  function Step(f: Fsm, op: Op): Fsm {
    match op
    case OpTransition(to) => TransitionTo(f, to).0
    case OpReport(asset, executedQty, expectedPrice) => Report(f, asset, executedQty, expectedPrice).0
    case OpUpdate(asset, info) => UpdatePosition(f, asset, info)
    case OpRemove(asset) => RemovePosition(f, asset)
    case OpClearOrders => ClearOrders(f)
    case OpReset => INITIAL
  }

  // Entering risk reduction, with its possible escalation.
  lemma EnterReducingState(f: Fsm)
    requires f.state == REDUCING_RISK
    ensures var f' := Enter(f);
            && f'.positions == f.positions && f'.progress == f.progress
            && f'.state == if TotalProgress(f) > AGGRESSIVE_THRESHOLD then AGGRESSIVE_SELL else REDUCING_RISK
  {
    var f1 := f.(pending := Orders(Reduce, Take(SortByUrgency(Infos(f.positions)), MAX_ORDERS_PER_CYCLE), f.progress));
    assert TotalProgress(f1) == TotalProgress(f);
    assert Enter(f1.(state := AGGRESSIVE_SELL)).state == AGGRESSIVE_SELL;
  }

  function Assessed(f: Fsm): Fsm {
    f.(positions := Weighed(f.positions), progress := ZeroProgress(f.progress, f.positions), state := REDUCING_RISK)
  }

  lemma EnterAssessing(f: Fsm)
    requires f.state == ASSESSING
    ensures Enter(f) == if f.positions == [] then f else Enter(Assessed(f))
  {
  }

  /** Where one requested transition ends, entry actions included. */
  lemma TransitionOutcome(f: Fsm, to: FlattenState)
    ensures var (f', ok) := TransitionTo(f, to);
            && ok == Allowed(f.state, to)
            && (!ok ==> f' == f)
            && (ok && to == ASSESSING ==>
                  f'.state == ASSESSING || f'.state == REDUCING_RISK || f'.state == AGGRESSIVE_SELL)
            && (ok && to == REDUCING_RISK ==> f'.state == REDUCING_RISK || f'.state == AGGRESSIVE_SELL)
            && (ok && to != ASSESSING && to != REDUCING_RISK ==> f'.state == to)
  {
    var f1 := f.(state := to);
    if to == ASSESSING {
      EnterAssessing(f1);
      EnterReducingState(Assessed(f1));
    }
    if to == REDUCING_RISK { EnterReducingState(f1); }
  }

  lemma NoStepBack(f: Fsm, op: Op)
    requires Stage(f.state) > 0 && op != OpReset
    ensures var s := Step(f, op).state;
            Stage(s) >= Stage(f.state) || s == COMPLETE || s == ERROR
  {
    if op.OpTransition? { TransitionOutcome(f, op.to); }
  }

  function States(f: Fsm, ops: seq<Op>): seq<FlattenState>
    decreases |ops|
  {
    if ops == [] then [] else [Step(f, ops[0]).state] + States(Step(f, ops[0]), ops[1..])
  }

  /** Once in a liquidation stage, no run returns to an earlier one except through COMPLETE,
      ERROR or a reset. */
  lemma {:induction false} NoWayBack(f: Fsm, ops: seq<Op>, i: nat)
    requires Stage(f.state) > 0 && OpReset !in ops && i < |States(f, ops)|
    requires COMPLETE !in States(f, ops) && ERROR !in States(f, ops)
    ensures Stage(States(f, ops)[i]) >= Stage(f.state)
    decreases |ops|
  {
    NoStepBack(f, ops[0]);
    assert States(f, ops)[0] == Step(f, ops[0]).state;
    if i > 0 {
      var rest := States(Step(f, ops[0]), ops[1..]);
      assert forall s :: s in rest ==> s in States(f, ops);
      NoWayBack(Step(f, ops[0]), ops[1..], i - 1);
    }
  }

  // ----- sorting -----

  ghost predicate MostUrgentFirst(ps: seq<Position>) {
    forall i, j :: 0 <= i < j < |ps| ==> ps[i].urgencyWeight >= ps[j].urgencyWeight
  }

  lemma {:induction false} InsertedFrom(s: seq<Position>, p: Position)
    ensures forall x :: x in InsertByUrgency(s, p) ==> x == p || x in s
  {
    if s != [] && !(s[0].urgencyWeight < p.urgencyWeight) {
      InsertedFrom(s[1..], p);
    }
  }

  lemma {:induction false} InsertKeepsOrder(s: seq<Position>, p: Position)
    requires MostUrgentFirst(s)
    ensures MostUrgentFirst(InsertByUrgency(s, p))
  {
    if s == [] || s[0].urgencyWeight < p.urgencyWeight {
    } else {
      InsertKeepsOrder(s[1..], p);
      InsertedFrom(s[1..], p);
      var r := InsertByUrgency(s[1..], p);
      forall j | 0 <= j < |r| ensures s[0].urgencyWeight >= r[j].urgencyWeight {
        assert r[j] in r;
      }
      ConsKeepsOrder(s[0], r);
    }
  }

  lemma ConsKeepsOrder(p: Position, r: seq<Position>)
    requires MostUrgentFirst(r) && forall j :: 0 <= j < |r| ==> p.urgencyWeight >= r[j].urgencyWeight
    ensures MostUrgentFirst([p] + r)
  {
  }

  lemma {:induction false} InsertPermutes(s: seq<Position>, p: Position)
    ensures multiset(InsertByUrgency(s, p)) == multiset(s) + multiset{p}
  {
    if s != [] && !(s[0].urgencyWeight < p.urgencyWeight) {
      InsertPermutes(s[1..], p);
      assert s == [s[0]] + s[1..];
    }
  }

  lemma {:induction false} SortSorts(ps: seq<Position>)
    ensures MostUrgentFirst(SortByUrgency(ps)) && multiset(SortByUrgency(ps)) == multiset(ps)
  {
    if ps != [] {
      var init, last := ps[..|ps| - 1], ps[|ps| - 1];
      SortSorts(init);
      InsertKeepsOrder(SortByUrgency(init), last);
      InsertPermutes(SortByUrgency(init), last);
      MultisetOfLast(ps, init, last);
    }
  }

  lemma MultisetOfLast(ps: seq<Position>, init: seq<Position>, last: Position)
    requires ps != [] && init == ps[..|ps| - 1] && last == ps[|ps| - 1]
    ensures multiset(ps) == multiset(init) + multiset{last}
  {
    assert ps == init + [last];
  }

  // ----- orders stay within what remains -----

  /** An order on the closing side of its position, for at least the minimum size and at
      most the quantity that remains. */
  predicate Within(o: Order, p: Position, progress: Dict<real>) {
    && o.assetId == p.assetId && o.side == OrderSide(p)
    && 0.01 <= o.quantity <= Abs(Remaining(p, progress))
  }

  lemma GeneratedWithin(g: Generator, p: Position, progress: Dict<real>)
    ensures Generate(g, p, progress).Some? ==> Within(Generate(g, p, progress).value, p, progress)
    ensures g == Flatten ==>
              (Generate(g, p, progress).None? <==> Abs(Remaining(p, progress)) < 0.01)
              && (Generate(g, p, progress).Some? ==>
                    Generate(g, p, progress).value.quantity == Abs(Remaining(p, progress)))
  {
  }

  ghost predicate FromOneOf(o: Order, ps: seq<Position>, progress: Dict<real>) {
    exists i :: 0 <= i < |ps| && Within(o, ps[i], progress)
  }

  lemma {:induction false} OrdersWithin(g: Generator, ps: seq<Position>, progress: Dict<real>, k: nat)
    requires k < |Orders(g, ps, progress)|
    ensures FromOneOf(Orders(g, ps, progress)[k], ps, progress)
  {
    var n := |ps| - 1;
    var before := Orders(g, ps[..n], progress);
    if k < |before| {
      OrdersWithin(g, ps[..n], progress, k);
      var i :| 0 <= i < n && Within(before[k], ps[..n][i], progress);
      assert Within(Orders(g, ps, progress)[k], ps[i], progress);
    } else {
      GeneratedWithin(g, ps[n], progress);
      assert Within(Orders(g, ps, progress)[k], ps[n], progress);
    }
  }

  ghost predicate PendingWithin(f: Fsm) {
    forall k :: 0 <= k < |f.pending| ==> FromOneOf(f.pending[k], Infos(f.positions), f.progress)
  }

  lemma GeneratedPendingWithin(f: Fsm, g: Generator, ps: seq<Position>)
    requires f.pending == Orders(g, ps, f.progress) && forall i :: 0 <= i < |ps| ==> ps[i] in Infos(f.positions)
    ensures PendingWithin(f)
  {
    forall k | 0 <= k < |f.pending| ensures FromOneOf(f.pending[k], Infos(f.positions), f.progress) {
      OrdersWithin(g, ps, f.progress, k);
      var i :| 0 <= i < |ps| && Within(f.pending[k], ps[i], f.progress);
      var j :| 0 <= j < |Infos(f.positions)| && Infos(f.positions)[j] == ps[i];
      assert Within(f.pending[k], Infos(f.positions)[j], f.progress);
    }
  }

  lemma TakenFromSorted(ps: seq<Position>, n: nat)
    ensures forall i :: 0 <= i < |Take(SortByUrgency(ps), n)| ==> Take(SortByUrgency(ps), n)[i] in ps
  {
    SortSorts(ps);
    var t := Take(SortByUrgency(ps), n);
    forall i | 0 <= i < |t| ensures t[i] in ps {
      assert t[i] in multiset(SortByUrgency(ps));
    }
  }

  lemma EnterReducing(f: Fsm)
    requires f.state == REDUCING_RISK
    ensures PendingWithin(Enter(f))
  {
    var ps := Take(SortByUrgency(Infos(f.positions)), MAX_ORDERS_PER_CYCLE);
    var f1 := f.(pending := Orders(Reduce, ps, f.progress));
    TakenFromSorted(Infos(f.positions), MAX_ORDERS_PER_CYCLE);
    GeneratedPendingWithin(f1, Reduce, ps);
    var f2 := f1.(state := AGGRESSIVE_SELL);
    GeneratedPendingWithin(Enter(f2), Aggressive, Infos(f.positions));
  }

  /** After every accepted transition into a liquidation stage, whether requested directly
      or by assessing the positions, each pending order closes some position, on the right
      side, and by no more than what remains of it. */
  lemma TransitionPendingWithin(f: Fsm, to: FlattenState)
    requires Allowed(f.state, to)
    ensures var f' := TransitionTo(f, to).0; Liquidating(f'.state) ==> PendingWithin(f')
  {
    var f1 := f.(state := to);
    match to
    case ASSESSING =>
      EnterAssessing(f1);
      if f.positions != [] { EnterReducing(Assessed(f1)); }
    case REDUCING_RISK => EnterReducing(f1);
    case AGGRESSIVE_SELL => GeneratedPendingWithin(Enter(f1), Aggressive, Infos(f.positions));
    case FLATTENING => GeneratedPendingWithin(Enter(f1), Flatten, Infos(f.positions));
    case _ =>
  }

  // ----- what an emergency trigger does -----

  lemma {:induction false} PutEntries(d: Dict<real>, k: string, v: real)
    requires Distinct(d)
    ensures var p := Put(d, k, v);
            && |d| <= |p| <= |d| + 1
            && (forall i :: 0 <= i < |d| ==> p[i] == if d[i].0 == k then (k, v) else d[i])
            && (|p| == |d| + 1 ==> p[|d|] == (k, v))
  {
    if d != [] && d[0].0 != k {
      PutEntries(d[1..], k, v);
      var p := Put(d[1..], k, v);
      forall i | 0 <= i < |d| ensures Put(d, k, v)[i] == if d[i].0 == k then (k, v) else d[i] {
        if i > 0 { assert p[i - 1] == if d[1..][i - 1].0 == k then (k, v) else d[1..][i - 1]; }
      }
    }
  }

  lemma {:induction false} HasAppend<V>(d: Dict<V>, e: (string, V), k: string)
    ensures Has(d + [e], k) <==> Has(d, k) || e.0 == k
  {
    if d == [] {
      assert d + [e] == [e];
    } else {
      assert (d + [e])[1..] == d[1..] + [e];
      HasAppend(d[1..], e, k);
    }
  }

  ghost predicate ZeroedEntries(d: Dict<real>, positions: Dict<Position>, z: Dict<real>) {
    && |d| <= |z|
    && (forall i :: 0 <= i < |d| ==> z[i] == (d[i].0, if Has(positions, d[i].0) then 0.0 else d[i].1))
    && (forall i :: |d| <= i < |z| ==> z[i].1 == 0.0)
  }

  lemma {:induction false} ZeroProgressEntries(d: Dict<real>, positions: Dict<Position>)
    requires Distinct(d)
    ensures Distinct(ZeroProgress(d, positions)) && ZeroedEntries(d, positions, ZeroProgress(d, positions))
  {
    if positions != [] {
      var n := |positions| - 1;
      var init, last := positions[..n], positions[n];
      ZeroProgressEntries(d, init);
      var z := ZeroProgress(d, init);
      PutEntries(z, last.0, 0.0);
      PutDistinct(z, last.0, 0.0);
      assert positions == init + [last];
      forall i | 0 <= i < |d|
        ensures ZeroProgress(d, positions)[i] == (d[i].0, if Has(positions, d[i].0) then 0.0 else d[i].1)
      {
        HasAppend(init, last, d[i].0);
      }
    }
  }

  /** Progress recorded for assets that have no position any more. */
  function LeftOver(d: Dict<real>, positions: Dict<Position>): real {
    if d == [] then 0.0
    else
      LeftOver(d[..|d| - 1], positions) + if Has(positions, d[|d| - 1].0) then 0.0 else d[|d| - 1].1
  }

  lemma {:induction false} SumOfZeroed(d: Dict<real>, positions: Dict<Position>, z: Dict<real>)
    requires ZeroedEntries(d, positions, z)
    ensures SumProgress(z) == LeftOver(d, positions)
    decreases |z|
  {
    if z != [] {
      var n := |z| - 1;
      if |d| == |z| {
        SumOfZeroed(d[..n], positions, z[..n]);
      } else {
        SumOfZeroed(d, positions, z[..n]);
      }
    }
  }

  /** Triggering a liquidation with positions always ends in risk reduction, or directly in
      aggressive selling exactly when progress left over from vanished assets exceeds half
      the number of positions.  Without positions the machine stays in assessment. */
  lemma TriggerOutcome(f: Fsm)
    requires Allowed(f.state, ASSESSING) && Distinct(f.progress)
    ensures TransitionTo(f, ASSESSING).1
    ensures TransitionTo(f, ASSESSING).0.state ==
            if f.positions == [] then ASSESSING
            else if LeftOver(f.progress, f.positions) / |f.positions| as real > 0.5
            then AGGRESSIVE_SELL
            else REDUCING_RISK
  {
    var f1 := f.(state := ASSESSING);
    EnterAssessing(f1);
    if f.positions != [] {
      ZeroProgressEntries(f.progress, f.positions);
      SumOfZeroed(f.progress, f.positions, ZeroProgress(f.progress, f.positions));
      EnterReducingState(Assessed(f1));
    }
  }

  // ----- what every run keeps -----

  predicate ProgressCapped(d: Dict<real>) {
    forall i :: 0 <= i < |d| ==> d[i].1 <= 1.0
  }

  lemma PutCapped(d: Dict<real>, k: string, v: real)
    requires Distinct(d) && ProgressCapped(d) && v <= 1.0
    ensures ProgressCapped(Put(d, k, v)) && Distinct(Put(d, k, v))
  {
    PutEntries(d, k, v);
    PutDistinct(d, k, v);
  }

  /** Dictionaries hold each key once and no progress exceeds one. */
  ghost predicate Books(f: Fsm) {
    Distinct(f.positions) && Distinct(f.progress) && ProgressCapped(f.progress)
  }

  lemma EnterKeepsBooks(f: Fsm)
    requires Books(f)
    ensures Books(Enter(f))
  {
    match f.state
    case ASSESSING =>
      EnterAssessing(f);
      ZeroProgressEntries(f.progress, f.positions);
      if f.positions != [] { EnterReducingState(Assessed(f)); }
    case REDUCING_RISK => EnterReducingState(f);
    case _ =>
  }

  lemma RemoveCapped(d: Dict<real>, k: string)
    requires Distinct(d) && ProgressCapped(d)
    ensures ProgressCapped(Remove(d, k)) && Distinct(Remove(d, k))
  {
    RemoveDistinct(d, k);
  }

  lemma StepKeepsBooks(f: Fsm, op: Op)
    requires Books(f)
    ensures Books(Step(f, op))
  {
    match op
    case OpTransition(to) => EnterKeepsBooks(f.(state := to));
    case OpReport(asset, executedQty, expectedPrice) =>
      if Has(f.positions, asset) && Abs(Get(f.positions, asset).value.quantity) != 0.0 {
        PutCapped(f.progress, asset,
                  NewProgress(Progress(f.progress, asset), Abs(Get(f.positions, asset).value.quantity), executedQty));
      }
    case OpUpdate(asset, info) => PutDistinct(f.positions, asset, info);
    case OpRemove(asset) =>
      RemoveDistinct(f.positions, asset);
      RemoveCapped(f.progress, asset);
    case OpClearOrders =>
    case OpReset =>
  }

  function Run(f: Fsm, ops: seq<Op>): Fsm {
    if ops == [] then f else Step(Run(f, ops[..|ops| - 1]), ops[|ops| - 1])
  }

  /** In every reachable state no asset's recorded progress exceeds one, and each asset has
      at most one position and one progress entry. */
  lemma {:induction false} RunKeepsBooks(ops: seq<Op>)
    ensures Books(Run(INITIAL, ops))
  {
    if ops != [] {
      RunKeepsBooks(ops[..|ops| - 1]);
      StepKeepsBooks(Run(INITIAL, ops[..|ops| - 1]), ops[|ops| - 1]);
    }
  }
}

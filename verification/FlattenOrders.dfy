/** No order exceeds its position, over whole runs. */
module FlattenOrders {
  // An order is bounded by what remains of its position.  What remains is itself bounded by
  // the position as long as no negative execution is reported.

  import opened Wrappers
  import opened Reals
  import opened OrderedDict
  import opened FlattenModel
  import opened FlattenProofs

  predicate ProgressNonNegative(d: Dict<real>) {
    forall i :: 0 <= i < |d| ==> d[i].1 >= 0.0
  }

  predicate NoNegativeReport(ops: seq<Op>) {
    forall i :: 0 <= i < |ops| ==> ops[i].OpReport? ==> ops[i].executedQty >= 0.0
  }

  lemma PutNonNegative(d: Dict<real>, k: string, v: real)
    requires Distinct(d) && ProgressNonNegative(d) && v >= 0.0
    ensures ProgressNonNegative(Put(d, k, v))
  {
    PutEntries(d, k, v);
  }

  lemma GetNonNegative(d: Dict<real>, k: string)
    requires ProgressNonNegative(d)
    ensures Progress(d, k) >= 0.0
  {
    if Has(d, k) { var i := GetSome(d, k); }
  }

  lemma NewProgressNonNegative(done: real, total: real, executedQty: real)
    requires done >= 0.0 && total > 0.0 && executedQty >= 0.0
    ensures NewProgress(done, total, executedQty) >= 0.0
  {
    NonNegativeProduct(done, total);
    NonNegativeQuotient(done * total + executedQty, total);
  }

  lemma NonNegativeQuotient(a: real, d: real)
    requires a >= 0.0 && d > 0.0
    ensures a / d >= 0.0
  {
  }

  lemma EnterKeepsNonNegative(f: Fsm)
    requires Books(f) && ProgressNonNegative(f.progress)
    ensures ProgressNonNegative(Enter(f).progress)
  {
    match f.state
    case ASSESSING =>
      EnterAssessing(f);
      ZeroProgressEntries(f.progress, f.positions);
      if f.positions != [] { EnterReducingState(Assessed(f)); }
    case REDUCING_RISK => EnterReducingState(f);
    case _ =>
  }

  lemma StepKeepsNonNegative(f: Fsm, op: Op)
    requires Books(f) && ProgressNonNegative(f.progress) && (op.OpReport? ==> op.executedQty >= 0.0)
    ensures ProgressNonNegative(Step(f, op).progress)
  {
    match op
    case OpTransition(to) => EnterKeepsNonNegative(f.(state := to));
    case OpReport(asset, executedQty, expectedPrice) =>
      if Has(f.positions, asset) && Abs(Get(f.positions, asset).value.quantity) != 0.0 {
        var total := Abs(Get(f.positions, asset).value.quantity);
        GetNonNegative(f.progress, asset);
        NewProgressNonNegative(Progress(f.progress, asset), total, executedQty);
        PutNonNegative(f.progress, asset, NewProgress(Progress(f.progress, asset), total, executedQty));
      }
    case OpUpdate(_, _) =>
    case OpRemove(asset) => RemoveDistinct(f.progress, asset);
    case OpClearOrders =>
    case OpReset =>
  }

  /** Unless a negative execution is reported, every recorded progress is at least zero, and
      at most one in any case. */
  lemma {:induction false} RunKeepsFractions(ops: seq<Op>)
    requires NoNegativeReport(ops)
    ensures Books(Run(INITIAL, ops)) && ProgressNonNegative(Run(INITIAL, ops).progress)
  {
    RunKeepsBooks(ops);
    if ops != [] {
      RunKeepsFractions(ops[..|ops| - 1]);
      StepKeepsNonNegative(Run(INITIAL, ops[..|ops| - 1]), ops[|ops| - 1]);
    }
  }

  /** An order on the closing side of its position, for at most the position itself. */
  predicate Closes(o: Order, p: Position) {
    o.assetId == p.assetId && o.side == OrderSide(p) && 0.01 <= o.quantity <= Abs(p.quantity)
  }

  ghost predicate ClosesOne(o: Order, positions: Dict<Position>) {
    exists i :: 0 <= i < |positions| && Closes(o, positions[i].1)
  }

  ghost predicate PendingCloses(f: Fsm) {
    forall k :: 0 <= k < |f.pending| ==> ClosesOne(f.pending[k], f.positions)
  }

  lemma RemainsWithin(q: real, done: real)
    requires 0.0 <= done <= 1.0
    ensures Abs(q * (1.0 - done)) <= Abs(q)
  {
    if q < 0.0 {
      NonNegativeProduct(-q, done);
      NonNegativeProduct(-q, 1.0 - done);
    } else {
      NonNegativeProduct(q, done);
      NonNegativeProduct(q, 1.0 - done);
    }
  }

  lemma ProgressIsFraction(progress: Dict<real>, asset: string)
    requires ProgressCapped(progress) && ProgressNonNegative(progress)
    ensures 0.0 <= Progress(progress, asset) <= 1.0
  {
    GetNonNegative(progress, asset);
    if Has(progress, asset) { var i := GetSome(progress, asset); }
  }

  lemma WithinCloses(o: Order, p: Position, progress: Dict<real>)
    requires Within(o, p, progress) && ProgressCapped(progress) && ProgressNonNegative(progress)
    ensures Closes(o, p)
  {
    ProgressIsFraction(progress, p.assetId);
    RemainsWithin(p.quantity, Progress(progress, p.assetId));
    assert o.quantity <= Abs(Remaining(p, progress)) <= Abs(p.quantity);
  }

  /** After any run without negative reports, each order that an accepted transition leaves
      pending closes some position, on the right side and never for more than its quantity. */
  lemma RunOrdersClose(ops: seq<Op>, to: FlattenState)
    requires NoNegativeReport(ops) && Allowed(Run(INITIAL, ops).state, to)
    ensures var f := TransitionTo(Run(INITIAL, ops), to).0; Liquidating(f.state) ==> PendingCloses(f)
  {
    var f0 := Run(INITIAL, ops);
    RunKeepsFractions(ops);
    TransitionKeepsFractions(f0, to);
    TransitionPendingWithin(f0, to);
    if Liquidating(TransitionTo(f0, to).0.state) { WithinCloseAll(TransitionTo(f0, to).0); }
  }

  lemma TransitionKeepsFractions(f: Fsm, to: FlattenState)
    requires Books(f) && ProgressNonNegative(f.progress)
    ensures var f' := TransitionTo(f, to).0; Books(f') && ProgressNonNegative(f'.progress)
  {
    StepKeepsBooks(f, OpTransition(to));
    StepKeepsNonNegative(f, OpTransition(to));
  }

  lemma WithinCloseAll(f: Fsm)
    requires PendingWithin(f) && ProgressCapped(f.progress) && ProgressNonNegative(f.progress)
    ensures PendingCloses(f)
  {
    forall k | 0 <= k < |f.pending| ensures ClosesOne(f.pending[k], f.positions) {
      var ps := Infos(f.positions);
      assert FromOneOf(f.pending[k], ps, f.progress);
      var i :| 0 <= i < |ps| && Within(f.pending[k], ps[i], f.progress);
      WithinCloses(f.pending[k], ps[i], f.progress);
      assert Closes(f.pending[k], f.positions[i].1);
    }
  }

  /** A negative report breaks this: after an execution of -1 on a position of 1, flattening
      orders 2. */
  lemma NegativeReportDoubles(p: Position)
    requires p.assetId == "A" && p.quantity == 1.0
    ensures var f := Report(Fsm(FLATTENING, [("A", p)], [], [], [("A", 0.0)]), "A", -1.0, 1.0).0;
            var order := FlattenOrder(p, f.progress);
            order.Some? && order.value.quantity == 2.0
  {
    var f := Fsm(FLATTENING, [("A", p)], [], [], [("A", 0.0)]);
    assert Get(f.positions, "A") == Some(p) && Progress(f.progress, "A") == 0.0;
    assert NewProgress(0.0, 1.0, -1.0) == -1.0;
    var f1 := f.(progress := [("A", -1.0)]);
    assert f1.progress[0].1 < DONE && !AllDone(f1.progress);
    assert Progress(f1.progress, "A") == -1.0;
    assert Remaining(p, f1.progress) == 1.0 * (1.0 - -1.0);
  }
}

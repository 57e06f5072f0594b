/** When a flatten cycle ends in COMPLETE, and what keeps it from ending. */
module FlattenCycle {
  import opened Wrappers
  import opened Reals
  import opened OrderedDict
  import opened FlattenModel
  import opened FlattenProofs

  // ----- executing every order of a cycle -----

  predicate KeysMatch(positions: Dict<Position>) {
    forall i :: 0 <= i < |positions| ==> positions[i].1.assetId == positions[i].0
  }

  predicate WholePositions(positions: Dict<Position>) {
    forall i :: 0 <= i < |positions| ==> Abs(positions[i].1.quantity) >= 1.0
  }

  /** Report every order of a list as filled in full, at some price expected to be nonzero. */
  function ExecuteAll(f: Fsm, orders: seq<Order>, expectedPrice: real): Fsm {
    if orders == [] then f
    else Report(ExecuteAll(f, orders[..|orders| - 1], expectedPrice),
                orders[|orders| - 1].assetId, orders[|orders| - 1].quantity, expectedPrice).0
  }

  /** Every progress entry of an asset without a position is as good as complete. */
  ghost predicate NothingLeftOver(d: Dict<real>, positions: Dict<Position>) {
    forall i :: 0 <= i < |d| && !Has(positions, d[i].0) ==> d[i].1 >= DONE
  }

  lemma FullExecution(p: Position, done: real)
    requires Abs(p.quantity) > 0.0 && done <= 1.0
    ensures NewProgress(done, Abs(p.quantity), Abs(p.quantity * (1.0 - done))) == 1.0
  {
    var a := Abs(p.quantity);
    ScaledAbs(p.quantity, 1.0 - done);
    assert done * a + a * (1.0 - done) == a;
    QuotientSelf(a);
  }

  lemma ScaledAbs(x: real, c: real)
    requires c >= 0.0
    ensures Abs(x * c) == Abs(x) * c
  {
    if x < 0.0 { assert x * c == -((-x) * c); NonNegativeProduct(-x, c); } else { NonNegativeProduct(x, c); }
  }

  ghost predicate CycleStart(f: Fsm) {
    && f.state == FLATTENING && Distinct(f.positions) && KeysMatch(f.positions)
    && Distinct(f.progress) && ProgressCapped(f.progress)
    && f.pending == Orders(Flatten, Infos(f.positions), f.progress)
  }

  function Ordered(f: Fsm, j: nat): bool
    requires j < |f.positions|
  {
    Generate(Flatten, f.positions[j].1, f.progress).Some?
  }

  /** The progress of an asset once the orders of the first n positions are executed. */
  function Expected(f: Fsm, n: nat, k: string): Option<real>
    requires n <= |f.positions|
  {
    if n == 0 then Get(f.progress, k)
    else if f.positions[n - 1].0 == k && Ordered(f, n - 1) then Some(1.0)
    else Expected(f, n - 1, k)
  }

  lemma {:induction false} ExpectedElsewhere(f: Fsm, n: nat, k: string)
    requires n <= |f.positions| && forall j :: 0 <= j < n ==> f.positions[j].0 != k
    ensures Expected(f, n, k) == Get(f.progress, k)
  {
    if n > 0 { ExpectedElsewhere(f, n - 1, k); }
  }

  lemma {:induction false} ExpectedAt(f: Fsm, n: nat, j: nat)
    requires j < n <= |f.positions| && Distinct(f.positions)
    ensures Expected(f, n, f.positions[j].0) == if Ordered(f, j) then Some(1.0) else Get(f.progress, f.positions[j].0)
  {
    if j == n - 1 {
      ExpectedElsewhere(f, n - 1, f.positions[j].0);
    } else {
      assert f.positions[n - 1].0 != f.positions[j].0;
      ExpectedAt(f, n - 1, j);
    }
  }

  // The cycle goes on, with the orders of the first n positions executed.
  ghost predicate Executed(f: Fsm, f0: Fsm, n: nat)
    requires n <= |f0.positions|
  {
    && f.state == FLATTENING && f.positions == f0.positions
    && Distinct(f.progress) && ProgressCapped(f.progress)
    && forall k :: Get(f.progress, k) == Expected(f0, n, k)
  }

  lemma AllDoneByKey(d: Dict<real>)
    requires Distinct(d)
    ensures AllDone(d) <==> forall k :: Has(d, k) ==> Get(d, k).value >= DONE
  {
    if AllDone(d) {
      forall k | Has(d, k) ensures Get(d, k).value >= DONE {
        var i := GetSome(d, k);
      }
    }
    if forall k :: Has(d, k) ==> Get(d, k).value >= DONE {
      forall i | 0 <= i < |d| ensures d[i].1 >= DONE {
        GetAt(d, i);
      }
    }
  }

  lemma CappedGet(d: Dict<real>, k: string)
    requires ProgressCapped(d)
    ensures Progress(d, k) <= 1.0
  {
    if Has(d, k) { var i := GetSome(d, k); }
  }

  // A full execution of one flatten order makes its asset complete.
  lemma ReportFull(f: Fsm, p: Position, key: string, price: real)
    requires Get(f.positions, key) == Some(p) && p.assetId == key && Abs(p.quantity) != 0.0
    requires ProgressCapped(f.progress) && price != 0.0
    ensures Report(f, key, Abs(Remaining(p, f.progress)), price).0 ==
            CheckCompletion(f.(progress := Put(f.progress, key, 1.0)))
  {
    CappedGet(f.progress, key);
    FullExecution(p, Progress(f.progress, key));
    ReportsProgress(f, p, key, Abs(Remaining(p, f.progress)), price, 1.0);
  }

  lemma ReportsProgress(f: Fsm, p: Position, key: string, qty: real, price: real, done: real)
    requires Get(f.positions, key) == Some(p) && Abs(p.quantity) != 0.0 && price != 0.0
    requires NewProgress(Progress(f.progress, key), Abs(p.quantity), qty) == done
    ensures Report(f, key, qty, price).0 == CheckCompletion(f.(progress := Put(f.progress, key, done)))
  {
  }

  lemma NextExecuted(f: Fsm, f0: Fsm, n: nat)
    requires CycleStart(f0) && n < |f0.positions| && Executed(f, f0, n) && Ordered(f0, n)
    ensures Executed(f.(progress := Put(f.progress, f0.positions[n].0, 1.0)), f0, n + 1)
  {
    var key := f0.positions[n].0;
    PutCapped(f.progress, key, 1.0);
    forall k ensures Get(Put(f.progress, key, 1.0), k) == Expected(f0, n + 1, k) {
      GetPut(f.progress, key, 1.0, k);
    }
  }

  // Executing the earlier orders of the cycle changed nothing for the next position.
  lemma RemainingUnchanged(f: Fsm, f0: Fsm, n: nat)
    requires CycleStart(f0) && n < |f0.positions| && Executed(f, f0, n)
    ensures Remaining(f0.positions[n].1, f.progress) == Remaining(f0.positions[n].1, f0.progress)
  {
    var key := f0.positions[n].0;
    ExpectedElsewhere(f0, n, key);
    assert Get(f.progress, key) == Expected(f0, n, key);
    assert f0.positions[n].1.assetId == key;
    SameRemaining(f0.positions[n].1, f.progress, f0.progress);
  }

  lemma SameRemaining(p: Position, a: Dict<real>, b: Dict<real>)
    requires Get(a, p.assetId) == Get(b, p.assetId)
    ensures Remaining(p, a) == Remaining(p, b)
  {
  }

  // One order of the cycle: the check passes, or the cycle goes on.
  lemma ReportOne(f: Fsm, f0: Fsm, n: nat, price: real)
    requires CycleStart(f0) && n < |f0.positions| && Executed(f, f0, n) && price != 0.0 && Ordered(f0, n)
    ensures var o := Generate(Flatten, f0.positions[n].1, f0.progress).value;
            var f1 := f.(progress := Put(f.progress, f0.positions[n].0, 1.0));
            Report(f, o.assetId, o.quantity, price).0 == CheckCompletion(f1)
  {
    var p, key := f0.positions[n].1, f0.positions[n].0;
    GetAt(f0.positions, n);
    RemainingUnchanged(f, f0, n);
    GeneratedWithin(Flatten, p, f0.progress);
    ReportFull(f, p, key, price);
  }

  lemma SkippedIsDone(p: Position, done: real)
    requires Abs(p.quantity) >= 1.0 && done <= 1.0 && Abs(p.quantity * (1.0 - done)) < MIN_ORDER_SIZE
    ensures done >= DONE
  {
    ScaledAbs(p.quantity, 1.0 - done);
    NonNegativeProduct(Abs(p.quantity) - 1.0, 1.0 - done);
    assert (Abs(p.quantity) - 1.0) * (1.0 - done) == Abs(p.quantity) * (1.0 - done) - (1.0 - done);
  }

  // ----- what the completion check waits for -----

  /** No order is generated for a position of this asset, if there is one. */
  ghost predicate Unordered(f: Fsm, k: string) {
    forall j :: 0 <= j < |f.positions| && f.positions[j].0 == k ==> !Ordered(f, j)
  }

  /** Every progress entry that the cycle's orders will not complete is as good as complete. */
  ghost predicate RestDone(f: Fsm) {
    forall i :: 0 <= i < |f.progress| && Unordered(f, f.progress[i].0) ==> f.progress[i].1 >= DONE
  }

  lemma RestDoneByKey(f: Fsm)
    requires Distinct(f.progress)
    ensures RestDone(f) <==>
            forall k :: Has(f.progress, k) && Unordered(f, k) ==> Get(f.progress, k).value >= DONE
  {
    if RestDone(f) {
      forall k | Has(f.progress, k) && Unordered(f, k) ensures Get(f.progress, k).value >= DONE {
        var i := GetSome(f.progress, k);
      }
    }
    if forall k :: Has(f.progress, k) && Unordered(f, k) ==> Get(f.progress, k).value >= DONE {
      forall i | 0 <= i < |f.progress| && Unordered(f, f.progress[i].0) ensures f.progress[i].1 >= DONE {
        GetAt(f.progress, i);
      }
    }
  }

  lemma {:induction false} ExpectedUnordered(f: Fsm, n: nat, k: string)
    requires n <= |f.positions| && Unordered(f, k)
    ensures Expected(f, n, k) == Get(f.progress, k)
  {
    if n > 0 { ExpectedUnordered(f, n - 1, k); }
  }

  // Once every order is in, the completion check depends on the other entries alone.
  lemma DoneIfRestDone(f: Fsm, f0: Fsm)
    requires CycleStart(f0) && Executed(f, f0, |f0.positions|) && RestDone(f0)
    ensures AllDone(f.progress)
  {
    AllDoneByKey(f.progress);
    RestDoneByKey(f0);
    forall k | Has(f.progress, k) ensures Get(f.progress, k).value >= DONE {
      if Unordered(f0, k) {
        ExpectedUnordered(f0, |f0.positions|, k);
      } else {
        var j :| 0 <= j < |f0.positions| && f0.positions[j].0 == k && Ordered(f0, j);
        ExpectedAt(f0, |f0.positions|, j);
      }
    }
  }

  // An unfinished entry without an order blocks the check at every point of the cycle.
  lemma RestBlocks(f: Fsm, f0: Fsm, n: nat)
    requires CycleStart(f0) && n <= |f0.positions| && Executed(f, f0, n) && AllDone(f.progress)
    ensures RestDone(f0)
  {
    RestDoneByKey(f0);
    AllDoneByKey(f.progress);
    forall k | Has(f0.progress, k) && Unordered(f0, k) ensures Get(f0.progress, k).value >= DONE {
      ExpectedUnordered(f0, n, k);
      assert Has(f.progress, k);
    }
  }

  // Either the cycle has already ended, which needs an order and no unfinished rest, or it
  // stands after n positions without having passed the check.
  ghost predicate CycleState(f: Fsm, f0: Fsm, n: nat, any: bool)
    requires n <= |f0.positions|
  {
    if f.state == COMPLETE then f.positions == [] && any && RestDone(f0)
    else Executed(f, f0, n) && (any ==> !AllDone(f.progress))
  }

  lemma CycleStep(f: Fsm, f0: Fsm, n: nat, any: bool, price: real)
    requires CycleStart(f0) && n < |f0.positions| && CycleState(f, f0, n, any) && price != 0.0 && Ordered(f0, n)
    ensures var o := Generate(Flatten, f0.positions[n].1, f0.progress).value;
            CycleState(Report(f, o.assetId, o.quantity, price).0, f0, n + 1, true)
  {
    if f.state != COMPLETE {
      var f1 := f.(progress := Put(f.progress, f0.positions[n].0, 1.0));
      ReportOne(f, f0, n, price);
      NextExecuted(f, f0, n);
      if AllDone(f1.progress) { RestBlocks(f1, f0, n + 1); }
    }
  }

  lemma CycleSkip(f: Fsm, f0: Fsm, n: nat, any: bool)
    requires CycleStart(f0) && n < |f0.positions| && CycleState(f, f0, n, any) && !Ordered(f0, n)
    ensures CycleState(f, f0, n + 1, any)
  {
    assert forall k :: Expected(f0, n + 1, k) == Expected(f0, n, k);
  }

  function Followed(before: seq<Order>, next: Option<Order>): seq<Order> {
    match next
    case Some(o) => before + [o]
    case None => before
  }

  lemma OrdersOfPrefix(g: Generator, ps: seq<Position>, n: nat, progress: Dict<real>)
    requires n < |ps|
    ensures Orders(g, ps[..n + 1], progress) == Followed(Orders(g, ps[..n], progress), Generate(g, ps[n], progress))
  {
    assert ps[..n + 1][..n] == ps[..n];
  }

  lemma ExecuteOneMore(f: Fsm, orders: seq<Order>, o: Order, price: real)
    ensures ExecuteAll(f, orders + [o], price) == Report(ExecuteAll(f, orders, price), o.assetId, o.quantity, price).0
  {
    assert (orders + [o])[..|orders|] == orders;
  }

  /** The machine after the n-th position's order, if it has one, is executed in full. */
  function Advanced(f: Fsm, f0: Fsm, n: nat, price: real): Fsm
    requires n < |f0.positions|
  {
    match Generate(Flatten, f0.positions[n].1, f0.progress)
    case Some(o) => Report(f, o.assetId, o.quantity, price).0
    case None => f
  }

  lemma CycleAdvance(f: Fsm, f0: Fsm, n: nat, any: bool, price: real)
    requires CycleStart(f0) && n < |f0.positions| && price != 0.0 && CycleState(f, f0, n, any)
    ensures CycleState(Advanced(f, f0, n, price), f0, n + 1, any || Ordered(f0, n))
  {
    if Ordered(f0, n) {
      CycleStep(f, f0, n, any, price);
    } else {
      CycleSkip(f, f0, n, any);
    }
  }

  lemma CycleBegins(f0: Fsm)
    requires CycleStart(f0)
    ensures CycleState(f0, f0, 0, false)
  {
  }

  /** The flatten orders of the first n positions. */
  function FirstOrders(f: Fsm, n: nat): seq<Order>
    requires n <= |f.positions|
  {
    if n == 0 then [] else Followed(FirstOrders(f, n - 1), Generate(Flatten, f.positions[n - 1].1, f.progress))
  }

  lemma {:induction false} FirstOrdersAre(f: Fsm, infos: seq<Position>, n: nat)
    requires n <= |f.positions| && infos == Infos(f.positions)
    ensures FirstOrders(f, n) == Orders(Flatten, infos[..n], f.progress)
  {
    if n > 0 {
      FirstOrdersAre(f, infos, n - 1);
      OrdersOfPrefix(Flatten, infos, n - 1, f.progress);
    }
  }

  /** The machine after the first n positions. */
  function AfterFirst(f: Fsm, n: nat, price: real): Fsm
    requires n <= |f.positions|
  {
    if n == 0 then f else Advanced(AfterFirst(f, n - 1, price), f, n - 1, price)
  }

  lemma {:induction false} ExecuteFirst(f: Fsm, n: nat, price: real)
    requires n <= |f.positions|
    ensures ExecuteAll(f, FirstOrders(f, n), price) == AfterFirst(f, n, price)
  {
    if n > 0 {
      ExecuteFirst(f, n - 1, price);
      if Ordered(f, n - 1) {
        ExecuteOneMore(f, FirstOrders(f, n - 1), Generate(Flatten, f.positions[n - 1].1, f.progress).value, price);
      }
    }
  }

  lemma AnyFirst(f: Fsm, n: nat)
    requires n < |f.positions|
    ensures FirstOrders(f, n + 1) != [] <==> FirstOrders(f, n) != [] || Ordered(f, n)
  {
  }

  lemma {:induction false} CycleAfter(f0: Fsm, n: nat, price: real)
    requires CycleStart(f0) && n <= |f0.positions| && price != 0.0
    ensures CycleState(AfterFirst(f0, n, price), f0, n, FirstOrders(f0, n) != [])
  {
    if n == 0 {
      CycleBegins(f0);
    } else {
      CycleAfter(f0, n - 1, price);
      AnyFirst(f0, n - 1);
      CycleAdvance(AfterFirst(f0, n - 1, price), f0, n - 1, FirstOrders(f0, n - 1) != [], price);
    }
  }

  /** Executing every order of a non-empty flatten cycle in full ends in COMPLETE, with no
      positions left, exactly when every progress entry that no order belongs to is as good
      as complete; otherwise the machine stays in FLATTENING. */
  lemma FlattenCompletesIff(f: Fsm, price: real)
    requires CycleStart(f) && f.pending != [] && price != 0.0
    ensures var f' := ExecuteAll(f, f.pending, price);
            && f'.state == (if RestDone(f) then COMPLETE else FLATTENING)
            && (f'.state == COMPLETE ==> f'.positions == [])
  {
    var n := |f.positions|;
    assert Infos(f.positions)[..n] == Infos(f.positions);
    FirstOrdersAre(f, Infos(f.positions), n);
    ExecuteFirst(f, n, price);
    CycleAfter(f, n, price);
    var f' := ExecuteAll(f, f.pending, price);
    if f'.state != COMPLETE && RestDone(f) {
      DoneIfRestDone(f', f);
    }
  }

  lemma UnorderedAt(f: Fsm, j: nat)
    requires Distinct(f.positions) && j < |f.positions|
    ensures Unordered(f, f.positions[j].0) <==> !Ordered(f, j)
  {
  }

  lemma SmallRestIsDone(f: Fsm, j: nat)
    requires j < |f.positions| && KeysMatch(f.positions) && ProgressCapped(f.progress)
    requires Abs(f.positions[j].1.quantity) >= 1.0 && !Ordered(f, j)
    ensures Progress(f.progress, f.positions[j].0) >= DONE
  {
    var p, key := f.positions[j].1, f.positions[j].0;
    CappedGet(f.progress, key);
    GeneratedWithin(Flatten, p, f.progress);
    SkippedIsDone(p, Progress(f.progress, key));
  }

  /** With positions of at least one unit, only entries left over from assets without a
      position can stand in the way. */
  lemma WholePositionsCompleteIff(f: Fsm, price: real)
    requires CycleStart(f) && WholePositions(f.positions) && f.pending != [] && price != 0.0
    ensures ExecuteAll(f, f.pending, price).state ==
            if NothingLeftOver(f.progress, f.positions) then COMPLETE else FLATTENING
  {
    FlattenCompletesIff(f, price);
    forall i | 0 <= i < |f.progress|
      ensures (Unordered(f, f.progress[i].0) ==> f.progress[i].1 >= DONE)
              <==> (!Has(f.positions, f.progress[i].0) ==> f.progress[i].1 >= DONE)
    {
      WholeEntry(f, i);
    }
  }

  lemma WholeEntry(f: Fsm, i: nat)
    requires CycleStart(f) && WholePositions(f.positions) && i < |f.progress|
    ensures Has(f.positions, f.progress[i].0) && Unordered(f, f.progress[i].0) ==> f.progress[i].1 >= DONE
    ensures !Has(f.positions, f.progress[i].0) ==> Unordered(f, f.progress[i].0)
  {
    var k := f.progress[i].0;
    GetAt(f.progress, i);
    if Has(f.positions, k) {
      var j := GetSome(f.positions, k);
      if !Ordered(f, j) { SmallRestIsDone(f, j); }
    } else {
      KeyOfNoPosition(f.positions, k);
    }
  }

  lemma KeyOfNoPosition(positions: Dict<Position>, k: string)
    requires Distinct(positions) && !Has(positions, k)
    ensures forall j :: 0 <= j < |positions| ==> positions[j].0 != k
  {
    forall j | 0 <= j < |positions| ensures positions[j].0 != k { GetAt(positions, j); }
  }

  /** A position whose progress does not stop the cycle from completing. */
  predicate NoObstacle(f: Fsm, j: nat)
    requires j < |f.positions|
  {
    var done := Get(f.progress, f.positions[j].0);
    Ordered(f, j) || done == None || done.value >= DONE
  }

  /** From any stage, when progress only concerns positions that are still there, the cycle
      completes exactly if each of these gets an order or is done already. */
  lemma FreshFlattenCompletes(f: Fsm, price: real)
    requires Allowed(f.state, FLATTENING) && price != 0.0
    requires Distinct(f.positions) && KeysMatch(f.positions) && Distinct(f.progress) && ProgressCapped(f.progress)
    requires forall i :: 0 <= i < |f.progress| ==> Has(f.positions, f.progress[i].0)
    ensures var f1 := TransitionTo(f, FLATTENING).0;
            f1.pending != [] ==>
              ExecuteAll(f1, f1.pending, price).state ==
              if forall j :: 0 <= j < |f.positions| ==> NoObstacle(f, j) then COMPLETE else FLATTENING
  {
    var f1 := TransitionTo(f, FLATTENING).0;
    if f1.pending != [] {
      FlattenCompletesIff(f1, price);
      ObstaclesAreRest(f1);
      assert forall j :: 0 <= j < |f.positions| ==> NoObstacle(f, j) == NoObstacle(f1, j);
    }
  }

  lemma ObstaclesAreRest(f: Fsm)
    requires Distinct(f.positions) && Distinct(f.progress)
    requires forall i :: 0 <= i < |f.progress| ==> Has(f.positions, f.progress[i].0)
    ensures RestDone(f) <==> forall j :: 0 <= j < |f.positions| ==> NoObstacle(f, j)
  {
    RestDoneByKey(f);
    if RestDone(f) {
      forall j | 0 <= j < |f.positions| ensures NoObstacle(f, j) { UnorderedAt(f, j); }
    }
    if forall j :: 0 <= j < |f.positions| ==> NoObstacle(f, j) {
      forall i | 0 <= i < |f.progress| && Unordered(f, f.progress[i].0) ensures f.progress[i].1 >= DONE {
        var j := GetSome(f.positions, f.progress[i].0);
        GetAt(f.progress, i);
        assert NoObstacle(f, j);
      }
    }
  }

  // ----- a whole liquidation of a fresh machine -----

  lemma {:induction false} ZeroProgressHas(d: Dict<real>, positions: Dict<Position>, k: string)
    ensures Has(ZeroProgress(d, positions), k) <==> Has(d, k) || Has(positions, k)
  {
    if positions != [] {
      var n := |positions| - 1;
      ZeroProgressHas(d, positions[..n], k);
      GetPut(ZeroProgress(d, positions[..n]), positions[n].0, 0.0, k);
      assert positions == positions[..n] + [positions[n]];
      HasAppend(positions[..n], positions[n], k);
    }
  }

  lemma {:induction false} SameKeysHas(a: Dict<Position>, b: Dict<Position>, k: string)
    requires |a| == |b| && forall i :: 0 <= i < |a| ==> a[i].0 == b[i].0
    ensures Has(a, k) <==> Has(b, k)
  {
    if a != [] && a[0].0 != k {
      assert forall i :: 0 <= i < |a[1..]| ==> a[1..][i] == a[i + 1] && b[1..][i] == b[i + 1];
      SameKeysHas(a[1..], b[1..], k);
    }
  }

  // Assessing fresh positions leaves the machine in risk reduction with nothing done yet.
  lemma FreshAssessment(positions: Dict<Position>)
    requires positions != []
    ensures var f := TransitionTo(INITIAL.(positions := positions), ASSESSING).0;
            && f.state == REDUCING_RISK && f.positions == Weighed(positions)
            && f.progress == ZeroProgress([], positions)
  {
    var f := INITIAL.(positions := positions);
    TriggerOutcome(f);
    EnterAssessing(f.(state := ASSESSING));
    EnterReducingState(Assessed(f.(state := ASSESSING)));
  }

  lemma FreshProgress(positions: Dict<Position>)
    requires Distinct(positions)
    ensures var z := ZeroProgress([], positions);
            && Distinct(z) && ProgressCapped(z)
            && (forall i :: 0 <= i < |z| ==> Has(Weighed(positions), z[i].0))
            && (forall k :: Progress(z, k) == 0.0)
            && (forall j :: 0 <= j < |positions| ==> Has(z, positions[j].0))
  {
    var z := ZeroProgress([], positions);
    ZeroProgressEntries([], positions);
    forall i | 0 <= i < |z| ensures Has(Weighed(positions), z[i].0) {
      GetAt(z, i);
      ZeroProgressHas([], positions, z[i].0);
      SameKeysHas(positions, Weighed(positions), z[i].0);
    }
    forall k ensures Progress(z, k) == 0.0 {
      if Has(z, k) { var i := GetSome(z, k); }
    }
    forall j | 0 <= j < |positions| ensures Has(z, positions[j].0) {
      GetAt(positions, j);
      ZeroProgressHas([], positions, positions[j].0);
    }
  }

  // With nothing done yet, a position gets an order exactly from the minimum size on.
  lemma FreshOrdered(f: Fsm, j: nat)
    requires j < |f.positions| && Progress(f.progress, f.positions[j].1.assetId) == 0.0
    ensures Ordered(f, j) <==> Abs(f.positions[j].1.quantity) >= MIN_ORDER_SIZE
  {
    var p := f.positions[j].1;
    assert Remaining(p, f.progress) == p.quantity * 1.0 == p.quantity;
    GeneratedWithin(Flatten, p, f.progress);
  }

  lemma LastIsOrdered(f: Fsm)
    requires f.positions != [] && Ordered(f, |f.positions| - 1)
    ensures Orders(Flatten, Infos(f.positions), f.progress) != []
  {
  }

  predicate NoDust(positions: Dict<Position>) {
    forall j :: 0 <= j < |positions| ==> Abs(positions[j].1.quantity) >= 0.01
  }

  // A fresh machine told to flatten.
  function FreshFlatten(positions: Dict<Position>): Fsm {
    TransitionTo(TransitionTo(INITIAL.(positions := positions), ASSESSING).0, FLATTENING).0
  }

  lemma FreshFlattenStarts(positions: Dict<Position>)
    requires positions != [] && Distinct(positions) && KeysMatch(positions)
    ensures var f := FreshFlatten(positions);
            && CycleStart(f) && f.positions == Weighed(positions)
            && (forall k :: Progress(f.progress, k) == 0.0)
            && (forall i :: 0 <= i < |f.progress| ==> Has(f.positions, f.progress[i].0))
            && (forall j :: 0 <= j < |positions| ==> Get(f.progress, positions[j].0) == Some(0.0))
  {
    FreshAssessment(positions);
    FreshProgress(positions);
    var z := ZeroProgress([], positions);
    forall j | 0 <= j < |positions| ensures Get(z, positions[j].0) == Some(0.0) {
      assert Has(z, positions[j].0) && Progress(z, positions[j].0) == 0.0;
    }
  }

  /** A fresh machine that is triggered, told to flatten and then reports every order as
      executed in full is complete exactly if no position is below the minimum order size;
      otherwise it stays in FLATTENING. */
  lemma FreshRunCompletesIff(positions: Dict<Position>, price: real)
    requires positions != [] && Distinct(positions) && KeysMatch(positions) && price != 0.0
    ensures var f := FreshFlatten(positions);
            ExecuteAll(f, f.pending, price).state == if NoDust(positions) then COMPLETE else FLATTENING
  {
    var f := FreshFlatten(positions);
    FreshFlattenStarts(positions);
    ObstaclesAreRest(f);
    forall j | 0 <= j < |positions| ensures NoObstacle(f, j) <==> Abs(positions[j].1.quantity) >= MIN_ORDER_SIZE {
      FreshOrdered(f, j);
    }
    if NoDust(positions) {
      FreshOrdered(f, |positions| - 1);
      LastIsOrdered(f);
    }
    if f.pending != [] { FlattenCompletesIff(f, price); }
  }

  /** For example, a dust position of 0.005 beside one of a full unit: the second one's order
      is filled, the first one never gets one, and the machine stays in FLATTENING. */
  lemma DustStalls(a: Position, b: Position, price: real)
    requires a.assetId == "A" && a.quantity == 0.005 && b.assetId == "B" && b.quantity == 1.0 && price != 0.0
    ensures var f := FreshFlatten([("A", a), ("B", b)]);
            && f.pending != [] && NothingLeftOver(f.progress, f.positions)
            && ExecuteAll(f, f.pending, price).state == FLATTENING
  {
    var positions := [("A", a), ("B", b)];
    assert "A"[0] != "B"[0];
    assert positions[0].1 == a && Abs(a.quantity) < MIN_ORDER_SIZE;
    assert !NoDust(positions);
    FreshFlattenStarts(positions);
    FreshOrdered(FreshFlatten(positions), 1);
    LastIsOrdered(FreshFlatten(positions));
    FreshRunCompletesIff(positions, price);
  }

  // ----- progress that outlives its position -----

  lemma OneWeighed(key: string, p: Position)
    ensures Weighed([(key, p)]) == [(key, p.(urgencyWeight := Urgency(p)))]
  {
  }

  // Half of a first position is sold when COMPLETE is requested.
  lemma FirstLiquidation(f: Fsm, a: Position)
    requires f.state == REDUCING_RISK && f.positions == Weighed([("A", a)]) && a.quantity == 1.0
    requires f.progress == [("A", 0.0)]
    ensures var f1 := Report(f, "A", 0.5, 1.0).0;
            var f2 := TransitionTo(TransitionTo(f1, COMPLETE).0, IDLE).0;
            f2.state == IDLE && f2.positions == [] && f2.progress == [("A", 0.5)]
  {
    OneWeighed("A", a);
    assert Get(f.positions, "A") == Some(a.(urgencyWeight := Urgency(a)));
    assert Progress(f.progress, "A") == 0.0 && NewProgress(0.0, 1.0, 0.5) == 0.5;
    var f1 := f.(progress := [("A", 0.5)]);
    assert f1.progress[0].1 < DONE && !AllDone(f1.progress);
  }

  // The next position is assessed beside the old entry.
  lemma SecondLiquidation(f: Fsm, b: Position)
    requires f.state == IDLE && f.positions == [] && f.progress == [("A", 0.5)]
    ensures var f1 := UpdatePosition(f, "B", b);
            var f2 := TransitionTo(f1, ASSESSING).0;
            && f2.state == REDUCING_RISK && f2.positions == Weighed([("B", b)])
            && f2.progress == [("A", 0.5), ("B", 0.0)]
  {
    var f1 := UpdatePosition(f, "B", b);
    assert f1.positions == [("B", b)];
    assert "A"[0] != "B"[0];
    OldEntryLeft(b);
    TriggerOutcome(f1);
    EnterAssessing(f1.(state := ASSESSING));
    EnterReducingState(Assessed(f1.(state := ASSESSING)));
  }

  lemma OldEntryLeft(b: Position)
    ensures ZeroProgress([("A", 0.5)], [("B", b)]) == [("A", 0.5), ("B", 0.0)]
    ensures LeftOver([("A", 0.5)], [("B", b)]) == 0.5
  {
    assert "A"[0] != "B"[0];
    var d, positions := [("A", 0.5)], [("B", b)];
    assert d[..0] == [] && d[1..] == [] && positions[..0] == [] && positions[1..] == [];
    assert !Has(positions[1..], "A");
    assert ZeroProgress(d, positions) == Put(d, "B", 0.0);
    assert Put(d[1..], "B", 0.0) == [("B", 0.0)];
  }

  // Flattening the second position completes it and nothing else.
  lemma OldEntryStalls(f: Fsm, b: Position, price: real)
    requires f.state == REDUCING_RISK && f.positions == Weighed([("B", b)])
    requires f.progress == [("A", 0.5), ("B", 0.0)]
    requires b.assetId == "B" && Abs(b.quantity) >= MIN_ORDER_SIZE && price != 0.0
    ensures var f1 := TransitionTo(f, FLATTENING).0;
            f1.pending != [] && ExecuteAll(f1, f1.pending, price).state == FLATTENING
  {
    var f1 := TransitionTo(f, FLATTENING).0;
    assert "A"[0] != "B"[0];
    GetAt(f.progress, 1);
    FreshOrdered(f1, 0);
    LastIsOrdered(f1);
    assert f1.progress[0] == ("A", 0.5) && Unordered(f1, "A");
    FlattenCompletesIff(f1, price);
  }

  function StaleRun(a: Position, b: Position): seq<Op> {
    [OpUpdate("A", a), OpTransition(ASSESSING), OpReport("A", 0.5, 1.0), OpTransition(COMPLETE), OpTransition(IDLE)]
    + [OpUpdate("B", b), OpTransition(ASSESSING), OpTransition(FLATTENING)]
  }

  /** Reaching COMPLETE by request keeps the progress entries, so in the next liquidation the
      half-finished progress of an asset long gone stalls the machine with every order filled. */
  lemma StaleProgressStalls(a: Position, b: Position, price: real)
    requires a.assetId == "A" && a.quantity == 1.0
    requires b.assetId == "B" && Abs(b.quantity) >= MIN_ORDER_SIZE && price != 0.0
    ensures var f := Run(INITIAL, StaleRun(a, b));
            f.pending != [] && ExecuteAll(f, f.pending, price).state == FLATTENING
  {
    var f0 := UpdatePosition(INITIAL, "A", a);
    assert f0 == INITIAL.(positions := [("A", a)]);
    FreshAssessment([("A", a)]);
    OneZero("A", a);
    var f1 := TransitionTo(f0, ASSESSING).0;
    FirstLiquidation(f1, a);
    var f2 := TransitionTo(TransitionTo(Report(f1, "A", 0.5, 1.0).0, COMPLETE).0, IDLE).0;
    SecondLiquidation(f2, b);
    var f3 := TransitionTo(UpdatePosition(f2, "B", b), ASSESSING).0;
    OldEntryStalls(f3, b, price);
    StaleRunIs(a, b, f0, f1, f2, f3);
  }

  lemma OneZero(key: string, p: Position)
    ensures ZeroProgress([], [(key, p)]) == [(key, 0.0)]
  {
    assert [(key, p)][..0] == [];
  }

  lemma RunAppend(f: Fsm, ops: seq<Op>, op: Op)
    ensures Run(f, ops + [op]) == Step(Run(f, ops), op)
  {
    assert (ops + [op])[..|ops|] == ops;
  }

  lemma StaleRunIs(a: Position, b: Position, f0: Fsm, f1: Fsm, f2: Fsm, f3: Fsm)
    requires f0 == UpdatePosition(INITIAL, "A", a) && f1 == TransitionTo(f0, ASSESSING).0
    requires f2 == TransitionTo(TransitionTo(Report(f1, "A", 0.5, 1.0).0, COMPLETE).0, IDLE).0
    requires f3 == TransitionTo(UpdatePosition(f2, "B", b), ASSESSING).0
    ensures Run(INITIAL, StaleRun(a, b)) == TransitionTo(f3, FLATTENING).0
  {
    var ops1 := [OpUpdate("A", a)];
    var ops2 := ops1 + [OpTransition(ASSESSING)];
    var ops3 := ops2 + [OpReport("A", 0.5, 1.0)];
    var ops4 := ops3 + [OpTransition(COMPLETE)];
    var ops5 := ops4 + [OpTransition(IDLE)];
    var ops6 := ops5 + [OpUpdate("B", b)];
    var ops7 := ops6 + [OpTransition(ASSESSING)];
    assert StaleRun(a, b) == ops7 + [OpTransition(FLATTENING)];
    RunAppend(INITIAL, [], OpUpdate("A", a));
    RunAppend(INITIAL, ops1, OpTransition(ASSESSING));
    RunAppend(INITIAL, ops2, OpReport("A", 0.5, 1.0));
    RunAppend(INITIAL, ops3, OpTransition(COMPLETE));
    RunAppend(INITIAL, ops4, OpTransition(IDLE));
    RunAppend(INITIAL, ops5, OpUpdate("B", b));
    RunAppend(INITIAL, ops6, OpTransition(ASSESSING));
    RunAppend(INITIAL, ops7, OpTransition(FLATTENING));
  }
}

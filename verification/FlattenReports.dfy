/** What a report, a request and an update do to the liquidation machine. */
module FlattenReports {
  import opened Wrappers
  import opened OrderedDict
  import opened FlattenModel
  import opened FlattenProofs

  // ----- execution reports -----

  predicate Selling(s: FlattenState) {
    s in {REDUCING_RISK, AGGRESSIVE_SELL, FLATTENING}
  }

  /** The fraction recorded for an asset; none counts as zero. */
  function Fraction(f: Fsm, asset: string): real {
    var entry := Get(f.progress, asset);
    if entry.Some? then entry.value else 0.0
  }

  /** The fraction after a further execution against a position. */
  function FractionAfter(done: real, executedQty: real, quantity: real): real
    requires quantity != 0.0
  {
    var fraction := done + executedQty / Abs(quantity);
    if fraction > 1.0 then 1.0 else fraction
  }

  lemma FractionIs(done: real, executedQty: real, quantity: real)
    requires quantity != 0.0
    ensures NewProgress(done, Abs(quantity), executedQty) == FractionAfter(done, executedQty, quantity)
  {
    FractionOf(done, executedQty, Abs(quantity));
  }

  lemma FractionOf(done: real, executedQty: real, total: real)
    requires total > 0.0
    ensures NewProgress(done, total, executedQty) ==
            if done + executedQty / total > 1.0 then 1.0 else done + executedQty / total
  {
    SplitQuotient(done, executedQty, total);
    CappedAtOne((done * total + executedQty) / total);
  }

  lemma CappedAtOne(x: real)
    ensures Min(1.0, x) == if x > 1.0 then 1.0 else x
  {
  }

  lemma SplitQuotient(x: real, e: real, d: real)
    requires d > 0.0
    ensures (x * d + e) / d == x + e / d
  {
    var q := e / d;
    assert q * d == e;
    assert (x + q) * d == x * d + e;
    QuotientUnique(x * d + e, d, x + q);
  }

  lemma QuotientUnique(a: real, d: real, q: real)
    requires d > 0.0 && a == q * d
    ensures a / d == q
  {
  }

  /** The machine is dropped into COMPLETE, or goes on with its positions and orders. */
  predicate EndsOrStays(f: Fsm, f': Fsm, ends: bool) {
    && f'.executed == f.executed
    && f'.state == (if ends then COMPLETE else f.state)
    && f'.positions == (if ends then [] else f.positions)
    && f'.pending == (if ends then [] else f.pending)
  }

  ghost predicate EveryEntryDone(d: Dict<real>) {
    forall k :: Has(d, k) ==> Get(d, k).value >= 0.99
  }

  lemma CheckEndsOrStays(f: Fsm)
    requires Distinct(f.progress)
    ensures var f' := CheckCompletion(f);
            f'.progress == f.progress && EndsOrStays(f, f', Selling(f.state) && EveryEntryDone(f.progress))
  {
    DoneByKey(f.progress);
  }

  lemma DoneByKey(d: Dict<real>)
    requires Distinct(d)
    ensures AllDone(d) <==> EveryEntryDone(d)
  {
    if AllDone(d) {
      forall k | Has(d, k) ensures Get(d, k).value >= 0.99 { var i := GetSome(d, k); }
    }
    if EveryEntryDone(d) {
      forall i | 0 <= i < |d| ensures d[i].1 >= DONE { GetAt(d, i); }
    }
  }

  /** A report on a known asset with a quantity and an expected price other than zero sets that
      asset's entry to min(1, old fraction + executed / |quantity|), and ends the liquidation
      exactly if one was under way and now every entry is at least 0.99. */
  lemma ReportOutcome(f: Fsm, asset: string, p: Position, executedQty: real, expectedPrice: real)
    requires Get(f.positions, asset) == Some(p) && p.quantity != 0.0 && expectedPrice != 0.0
    requires Distinct(f.progress)
    ensures var f' := Step(f, OpReport(asset, executedQty, expectedPrice));
            var fraction := FractionAfter(Fraction(f, asset), executedQty, p.quantity);
            && (forall k :: Get(f'.progress, k) == if k == asset then Some(fraction) else Get(f.progress, k))
            && EndsOrStays(f, f', Selling(f.state) && EveryEntryDone(f'.progress))
  {
    var fraction := FractionAfter(Fraction(f, asset), executedQty, p.quantity);
    FractionIs(Fraction(f, asset), executedQty, p.quantity);
    PutDistinct(f.progress, asset, fraction);
    forall k
      ensures Get(Put(f.progress, asset, fraction), k) == if k == asset then Some(fraction) else Get(f.progress, k)
    {
      GetPut(f.progress, asset, fraction, k);
    }
    CheckEndsOrStays(f.(progress := Put(f.progress, asset, fraction)));
  }

  /** A report on an asset without a position changes no entry, but may end the liquidation. */
  lemma UnknownReportOutcome(f: Fsm, asset: string, executedQty: real, expectedPrice: real)
    requires Get(f.positions, asset) == None && Distinct(f.progress)
    ensures var f' := Step(f, OpReport(asset, executedQty, expectedPrice));
            && f'.progress == f.progress
            && EndsOrStays(f, f', Selling(f.state) && EveryEntryDone(f.progress))
  {
    CheckEndsOrStays(f);
  }

  /** A position or an expected price of zero raises instead: the first before anything is
      recorded, the second after the entry is set, and neither ends a liquidation. */
  lemma RaisingReport(f: Fsm, asset: string, p: Position, executedQty: real, expectedPrice: real)
    requires Get(f.positions, asset) == Some(p)
    ensures var (f', raised) := Report(f, asset, executedQty, expectedPrice);
            && (raised <==> p.quantity == 0.0 || expectedPrice == 0.0)
            && (p.quantity == 0.0 ==> f' == f)
            && (raised ==> EndsOrStays(f, f', false))
            && (p.quantity != 0.0 ==>
                  Get(f'.progress, asset) == Some(FractionAfter(Fraction(f, asset), executedQty, p.quantity)))
  {
    if p.quantity != 0.0 {
      var fraction := FractionAfter(Fraction(f, asset), executedQty, p.quantity);
      FractionIs(Fraction(f, asset), executedQty, p.quantity);
      GetPut(f.progress, asset, fraction, asset);
      CheckKeepsProgress(f.(progress := Put(f.progress, asset, fraction)));
    }
  }

  lemma CheckKeepsProgress(f: Fsm)
    ensures CheckCompletion(f).progress == f.progress
  {
  }

  /** In no run does a report end a liquidation, or move the machine at all, while an entry is
      below 0.99. */
  lemma NoEarlyEnd(ops: seq<Op>, asset: string, executedQty: real, expectedPrice: real)
    ensures var f := Run(INITIAL, ops);
            var f' := Step(f, OpReport(asset, executedQty, expectedPrice));
            f'.state != f.state ==> Selling(f.state) && f'.state == COMPLETE && EveryEntryDone(f'.progress)
  {
    var f := Run(INITIAL, ops);
    RunKeepsBooks(ops);
    var found := Get(f.positions, asset);
    if found == None {
      UnknownReportOutcome(f, asset, executedQty, expectedPrice);
    } else if found.value.quantity != 0.0 && expectedPrice != 0.0 {
      ReportOutcome(f, asset, found.value, executedQty, expectedPrice);
    } else {
      RaisingReport(f, asset, found.value, executedQty, expectedPrice);
    }
  }

  // ----- requests -----

  /** How far along a state is. */
  function Level(s: FlattenState): nat {
    match s
    case IDLE => 0
    case ASSESSING => 1
    case REDUCING_RISK => 2
    case AGGRESSIVE_SELL => 3
    case FLATTENING => 4
    case COMPLETE => 5
    case ERROR => 6
  }

  /** A request is granted if it goes up, except that liquidation starts with ASSESSING, which
      does not jump to AGGRESSIVE_SELL or COMPLETE, and that COMPLETE is no error; and COMPLETE
      and ERROR go back to the start, ERROR also to ASSESSING, and IDLE may stay. */
  lemma GrantedIff(f: Fsm, to: FlattenState)
    ensures TransitionTo(f, to).1 <==>
            if Level(f.state) < Level(to)
            then (f.state == IDLE ==> to == ASSESSING)
                 && (f.state == ASSESSING ==> to != AGGRESSIVE_SELL && to != COMPLETE) && f.state != COMPLETE
            else (to == IDLE && f.state in {IDLE, COMPLETE, ERROR}) || (to == ASSESSING && f.state == ERROR)
  {
    TransitionOutcome(f, to);
  }

  /** What a granted request for a closing state leaves: COMPLETE drops positions and pending
      orders and keeps the entries; IDLE and ERROR keep everything. */
  lemma ClosingEffects(f: Fsm, to: FlattenState)
    requires TransitionTo(f, to).1 && to in {COMPLETE, IDLE, ERROR}
    ensures TransitionTo(f, to).0 ==
            if to == COMPLETE then f.(state := COMPLETE, positions := [], pending := []) else f.(state := to)
  {
  }

  /** A granted request for a selling stage replaces the pending orders and touches neither
      positions nor entries. */
  lemma SellingEffects(f: Fsm, to: FlattenState)
    requires TransitionTo(f, to).1 && Selling(to)
    ensures var f' := TransitionTo(f, to).0;
            f'.positions == f.positions && f'.progress == f.progress && f'.executed == f.executed
  {
    var f1 := f.(state := to);
    if to == REDUCING_RISK {
      EnterReducingState(f1);
      EnterKeepsExecuted(f1);
    }
  }

  lemma EnterKeepsExecuted(f: Fsm)
    requires f.state == REDUCING_RISK
    ensures Enter(f).executed == f.executed
  {
    var f1 := f.(pending := Orders(Reduce, Take(SortByUrgency(Infos(f.positions)), MAX_ORDERS_PER_CYCLE), f.progress));
    assert Enter(f1.(state := AGGRESSIVE_SELL)).executed == f.executed;
  }

  /** Assessing positions sets the entry of each to zero, keeps all other entries, and gives
      each position its urgency and nothing else. */
  lemma AssessingEffects(f: Fsm)
    requires TransitionTo(f, ASSESSING).1 && f.positions != []
    ensures var f' := TransitionTo(f, ASSESSING).0;
            && (forall k :: Get(f'.progress, k) == if Has(f.positions, k) then Some(0.0) else Get(f.progress, k))
            && |f'.positions| == |f.positions|
            && (forall i :: 0 <= i < |f.positions| ==>
                  f'.positions[i] ==
                  (f.positions[i].0, f.positions[i].1.(urgencyWeight := Urgency(f.positions[i].1))))
  {
    var f1 := f.(state := ASSESSING);
    EnterAssessing(f1);
    EnterReducingState(Assessed(f1));
    forall k
      ensures Get(ZeroProgress(f.progress, f.positions), k) ==
              if Has(f.positions, k) then Some(0.0) else Get(f.progress, k)
    {
      ZeroedGet(f.progress, f.positions, k);
    }
  }

  lemma {:induction false} ZeroedGet(d: Dict<real>, positions: Dict<Position>, k: string)
    ensures Get(ZeroProgress(d, positions), k) == if Has(positions, k) then Some(0.0) else Get(d, k)
  {
    if positions != [] {
      var n := |positions| - 1;
      ZeroedGet(d, positions[..n], k);
      GetPut(ZeroProgress(d, positions[..n]), positions[n].0, 0.0, k);
      assert positions == positions[..n] + [positions[n]];
      HasAppend(positions[..n], positions[n], k);
    }
  }

  // ----- updates -----

  lemma {:induction false} GetRemove<V>(d: Dict<V>, k: string, x: string)
    requires Distinct(d)
    ensures Get(Remove(d, k), x) == if x == k then None else Get(d, x)
  {
    if d != [] {
      if d[0].0 == k {
        AbsentLater(d, k);
      } else {
        GetRemove(d[1..], k, x);
      }
    }
  }

  lemma {:induction false} AbsentWhere<V>(d: Dict<V>, k: string)
    requires forall i :: 0 <= i < |d| ==> d[i].0 != k
    ensures Get(d, k) == None
  {
    if d != [] { AbsentWhere(d[1..], k); }
  }

  lemma AbsentLater<V>(d: Dict<V>, k: string)
    requires Distinct(d) && d != [] && d[0].0 == k
    ensures Get(d[1..], k) == None
  {
    AbsentWhere(d[1..], k);
  }

  /** In every reachable state, removing an asset forgets its position and its entry, and
      those of no other asset. */
  lemma RemovedIsForgotten(ops: seq<Op>, asset: string, k: string)
    ensures var f := Run(INITIAL, ops);
            var f' := Step(f, OpRemove(asset));
            && Get(f'.positions, k) == (if k == asset then None else Get(f.positions, k))
            && Get(f'.progress, k) == (if k == asset then None else Get(f.progress, k))
            && f'.state == f.state && f'.pending == f.pending && f'.executed == f.executed
  {
    RunKeepsBooks(ops);
    GetRemove(Run(INITIAL, ops).positions, asset, k);
    GetRemove(Run(INITIAL, ops).progress, asset, k);
  }

  /** A trigger stores the positions it is given over those there are. */
  lemma {:induction false} GivenAreStored(positions: Dict<Position>, given: Dict<Position>, k: string)
    requires Distinct(given)
    ensures Get(Stored(positions, given), k) == if Has(given, k) then Get(given, k) else Get(positions, k)
  {
    if given != [] {
      var n := |given| - 1;
      GivenAreStored(positions, given[..n], k);
      GetPut(Stored(positions, given[..n]), given[n].0, given[n].1, k);
      LastEntry(given, k);
    }
  }

  lemma {:induction false} LastEntry<V>(d: Dict<V>, k: string)
    requires d != [] && Distinct(d)
    ensures Get(d, k) == if d[|d| - 1].0 == k then Some(d[|d| - 1].1) else Get(d[..|d| - 1], k)
  {
    if d[|d| - 1].0 == k {
      GetAt(d, |d| - 1);
    } else if |d| > 1 {
      assert d[..|d| - 1][1..] == d[1..][..|d[1..]| - 1];
      LastEntry(d[1..], k);
    }
  }

  /** An update stores the position under its asset and changes no other. */
  lemma UpdatedIsStored(f: Fsm, asset: string, info: Position, k: string)
    ensures var f' := Step(f, OpUpdate(asset, info));
            && Get(f'.positions, k) == (if k == asset then Some(info) else Get(f.positions, k))
            && f' == f.(positions := f'.positions)
  {
    GetPut(f.positions, asset, info, k);
  }

  /** Clearing hands the pending orders over to the executed ones; none is lost or doubled. */
  lemma ClearedAreExecuted(f: Fsm)
    ensures var f' := Step(f, OpClearOrders);
            && f'.pending == [] && f'.executed[..|f.executed|] == f.executed && f'.executed[|f.executed|..] == f.pending
            && f' == f.(pending := f'.pending, executed := f'.executed)
  {
  }
}

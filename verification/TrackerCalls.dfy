/** What the calls made to the tracker ask for, and what becomes of it. */
module TrackerCalls {
  // A schedule says which calls were begun, with which arguments.  Here the history that the
  // steps leave behind is compared with those arguments.

  import opened Wrappers
  import opened Int64
  import opened PositionModel
  import opened TrackerProtocol

  /** One thing a call asks for. */
  datatype Item = OfFill(fill: Fill) | OfPnl(amount: int) | OfReserve(required: int) | OfRelease(amount: int)

  /** A buy asks for its quantity, a sell for the negated one, as 64 bits have it. */
  function Asked(call: Call): Item {
    match call
    case UpdateOnFill(qty, price, isBuy) => OfFill(Fill(if isBuy then qty else Wrap(-qty), price))
    case AddRealizedPnl(pnl) => OfPnl(pnl)
    case TryReserve(required) => OfReserve(required)
    case ReleaseMargin(amount) => OfRelease(amount)
  }

  /** How many of the calls begun ask for this item. */
  function AskedBy(schedule: seq<(nat, Action)>, x: Item): nat {
    if schedule == [] then 0
    else (if schedule[0].1.Begin? && Asked(schedule[0].1.call) == x then 1 else 0) + AskedBy(schedule[1..], x)
  }

  // ----- what is done, and what is still under way -----

  /** How often the item has been dealt with.  A reservation is dealt with by reserving or by
      refusing it. */
  function Done(h: History, x: Item): nat {
    match x
    case OfFill(f) => multiset(h.committed)[f]
    case OfPnl(amount) => multiset(h.realized)[amount]
    case OfReserve(required) => multiset(h.reserved)[required] + multiset(h.refused)[required]
    case OfRelease(amount) => multiset(h.released)[amount]
  }

  /** What a thread has still to do with the shared registers. */
  function Left(pc: Pc): Option<Item> {
    match pc
    case FillLoadSequence(q, p) => Some(OfFill(Fill(q, p)))
    case FillLoadQty(q, p) => Some(OfFill(Fill(q, p)))
    case FillLoadAvg(q, p, _) => Some(OfFill(Fill(q, p)))
    case FillLoadMargin(q, p, _, _) => Some(OfFill(Fill(q, p)))
    case FillCas(q, p, _, _) => Some(OfFill(Fill(q, p)))
    case PnlLoad(pnl) => Some(OfPnl(pnl))
    case PnlCas(pnl, _) => Some(OfPnl(pnl))
    case ReserveLoad(required) => Some(OfReserve(required))
    case ReserveCas(required, _) => Some(OfReserve(required))
    case ReleaseLoad(amount) => Some(OfRelease(amount))
    case ReleaseCas(amount, _) => Some(OfRelease(amount))
    case _ => None
  }

  function IsLeft(pc: Pc, x: Item): nat {
    if Left(pc) == Some(x) then 1 else 0
  }

  /** How many threads are about this item. */
  function LeftIn(threads: seq<Pc>, x: Item): nat {
    if threads == [] then 0 else LeftIn(threads[..|threads| - 1], x) + IsLeft(threads[|threads| - 1], x)
  }

  lemma {:induction false} LeftAfter(threads: seq<Pc>, t: nat, pc: Pc, x: Item)
    requires t < |threads|
    ensures LeftIn(threads[t := pc], x) == LeftIn(threads, x) - IsLeft(threads[t], x) + IsLeft(pc, x)
  {
    var last := |threads| - 1;
    if t == last {
      assert threads[t := pc][..last] == threads[..last];
    } else {
      LeftAfter(threads[..last], t, pc, x);
      assert threads[t := pc][..last] == threads[..last][t := pc];
    }
  }

  lemma {:induction false} NothingLeft(threads: seq<Pc>, x: Item)
    requires forall t :: 0 <= t < |threads| ==> threads[t] == Idle
    ensures LeftIn(threads, x) == 0
  {
    if threads != [] { NothingLeft(threads[..|threads| - 1], x); }
  }

  // A step of one thread moves at most its own item, from what is left to what is done.
  lemma NextMoves(s: Shared, h: History, pc: Pc, spurious: bool, x: Item)
    ensures var (_, h', pc') := Next(s, h, pc, spurious); Done(h', x) + IsLeft(pc', x) == Done(h, x) + IsLeft(pc, x)
  {
    match pc
    case FillCas(q, p, qty, avg) => FillCasMoves(s, h, q, p, qty, avg, spurious, x);
    case PnlCas(pnl, seen) => PnlCasMoves(s, h, pnl, seen, spurious, x);
    case ReserveLoad(required) => ReserveLoadMoves(s, h, required, spurious, x);
    case ReserveCas(required, seen) => ReserveCasMoves(s, h, required, seen, spurious, x);
    case ReleaseCas(amount, seen) => ReleaseCasMoves(s, h, amount, seen, spurious, x);
    case _ => LoadMoves(s, h, pc, spurious, x);
  }

  lemma LoadMoves(s: Shared, h: History, pc: Pc, spurious: bool, x: Item)
    requires !pc.FillCas? && !pc.PnlCas? && !pc.ReserveLoad? && !pc.ReserveCas? && !pc.ReleaseCas?
    ensures var (_, h', pc') := Next(s, h, pc, spurious); Done(h', x) == Done(h, x) && Left(pc') == Left(pc)
  {
  }

  lemma FillCasMoves(s: Shared, h: History, q: int, p: int, qty: int, avg: int, spurious: bool, x: Item)
    ensures var pc := FillCas(q, p, qty, avg);
            var (_, h', pc') := Next(s, h, pc, spurious); Done(h', x) + IsLeft(pc', x) == Done(h, x) + IsLeft(pc, x)
  {
  }

  lemma PnlCasMoves(s: Shared, h: History, pnl: int, seen: int, spurious: bool, x: Item)
    ensures var pc := PnlCas(pnl, seen);
            var (_, h', pc') := Next(s, h, pc, spurious); Done(h', x) + IsLeft(pc', x) == Done(h, x) + IsLeft(pc, x)
  {
  }

  lemma ReserveLoadMoves(s: Shared, h: History, required: int, spurious: bool, x: Item)
    ensures var pc := ReserveLoad(required);
            var (_, h', pc') := Next(s, h, pc, spurious); Done(h', x) + IsLeft(pc', x) == Done(h, x) + IsLeft(pc, x)
  {
  }

  lemma ReserveCasMoves(s: Shared, h: History, required: int, seen: int, spurious: bool, x: Item)
    ensures var pc := ReserveCas(required, seen);
            var (_, h', pc') := Next(s, h, pc, spurious); Done(h', x) + IsLeft(pc', x) == Done(h, x) + IsLeft(pc, x)
  {
  }

  lemma ReleaseCasMoves(s: Shared, h: History, amount: int, seen: int, spurious: bool, x: Item)
    ensures var pc := ReleaseCas(amount, seen);
            var (_, h', pc') := Next(s, h, pc, spurious); Done(h', x) + IsLeft(pc', x) == Done(h, x) + IsLeft(pc, x)
  {
  }

  lemma StepMoves(s: System, t: nat, a: Action, x: Item)
    requires Enabled(s, t, a)
    ensures var s' := Step(s, t, a);
            Done(s'.history, x) + LeftIn(s'.threads, x) ==
            Done(s.history, x) + LeftIn(s.threads, x) + if a.Begin? && Asked(a.call) == x then 1 else 0
  {
    LeftAfter(s.threads, t, Step(s, t, a).threads[t], x);
    if a.Advance? { NextMoves(s.shared, s.history, s.threads[t], a.spurious, x); }
  }

  lemma {:induction false} RunMoves(s: System, schedule: seq<(nat, Action)>, x: Item)
    requires Run(s, schedule).Some?
    ensures var s' := Run(s, schedule).value;
            Done(s'.history, x) + LeftIn(s'.threads, x) ==
            Done(s.history, x) + LeftIn(s.threads, x) + AskedBy(schedule, x)
    decreases |schedule|
  {
    if schedule != [] {
      StepMoves(s, schedule[0].0, schedule[0].1, x);
      RunMoves(Step(s, schedule[0].0, schedule[0].1), schedule[1..], x);
    }
  }

  /** In every interleaving, the fills, P&L amounts, reservations and releases that have
      reached the registers, the refused reservations, and those still under way are together
      exactly what the calls begun so far ask for, each as often as it was asked for. */
  lemma NothingLostOrInvented(initial: int, threads: nat, schedule: seq<(nat, Action)>, x: Item)
    requires Run(Start(initial, threads), schedule).Some?
    ensures var s := Run(Start(initial, threads), schedule).value;
            Done(s.history, x) + LeftIn(s.threads, x) == AskedBy(schedule, x)
  {
    RunMoves(Start(initial, threads), schedule, x);
    NothingLeft(Start(initial, threads).threads, x);
  }

  // ----- the position, from the arguments -----

  /** Quantities bought minus quantities sold by the calls of a schedule. */
  function Net(schedule: seq<(nat, Action)>): int {
    if schedule == [] then 0
    else
      var a := schedule[0].1;
      (if a.Begin? && a.call.UpdateOnFill? then if a.call.isBuy then a.call.qty else -a.call.qty else 0)
      + Net(schedule[1..])
  }

  /** The signed quantity a thread has not committed yet. */
  function LeftQty(pc: Pc): int {
    match pc
    case FillLoadSequence(q, _) => q
    case FillLoadQty(q, _) => q
    case FillLoadAvg(q, _, _) => q
    case FillLoadMargin(q, _, _, _) => q
    case FillCas(q, _, _, _) => q
    case _ => 0
  }

  function LeftQtyIn(threads: seq<Pc>): int {
    if threads == [] then 0 else LeftQtyIn(threads[..|threads| - 1]) + LeftQty(threads[|threads| - 1])
  }

  lemma {:induction false} LeftQtyAfter(threads: seq<Pc>, t: nat, pc: Pc)
    requires t < |threads|
    ensures LeftQtyIn(threads[t := pc]) == LeftQtyIn(threads) - LeftQty(threads[t]) + LeftQty(pc)
  {
    var last := |threads| - 1;
    if t == last {
      assert threads[t := pc][..last] == threads[..last];
    } else {
      LeftQtyAfter(threads[..last], t, pc);
      assert threads[t := pc][..last] == threads[..last][t := pc];
    }
  }

  lemma {:induction false} NoQtyLeft(threads: seq<Pc>)
    requires forall t :: 0 <= t < |threads| ==> LeftQty(threads[t]) == 0
    ensures LeftQtyIn(threads) == 0
  {
    if threads != [] { NoQtyLeft(threads[..|threads| - 1]); }
  }

  /** Committed and still uncommitted quantities. */
  function Known(s: System): int {
    TotalQty(s.history.committed) + LeftQtyIn(s.threads)
  }

  lemma StepNet(s: System, t: nat, a: Action, before: int)
    requires Enabled(s, t, a)
    ensures Wrap(Known(Step(s, t, a)) + before) == Wrap(Known(s) + before + Net([(t, a)]))
  {
    var s' := Step(s, t, a);
    LeftQtyAfter(s.threads, t, s'.threads[t]);
    var one := [(t, a)];
    assert one[1..] == [];
    match a
    case Begin(call) =>
      if call.UpdateOnFill? && !call.isBuy { NegationWraps(Known(s) + before, call.qty); }
    case Advance(spurious) =>
      var pc := s.threads[t];
      if pc.FillCas? { TotalAppend(s.history.committed, Fill(pc.signedQty, pc.price)); }
  }

  lemma NegationWraps(x: int, qty: int)
    ensures Wrap(x + Wrap(-qty)) == Wrap(x - qty)
  {
    WrapOfSum(-qty, x);
  }

  lemma {:induction false} RunNet(s: System, schedule: seq<(nat, Action)>)
    requires Run(s, schedule).Some?
    ensures Wrap(Known(Run(s, schedule).value)) == Wrap(Known(s) + Net(schedule))
    decreases |schedule|
  {
    if schedule != [] {
      var s' := Step(s, schedule[0].0, schedule[0].1);
      RunNet(s', schedule[1..]);
      StepNet(s, schedule[0].0, schedule[0].1, Net(schedule[1..]));
      NetCons(schedule);
    }
  }

  lemma NetCons(schedule: seq<(nat, Action)>)
    requires schedule != []
    ensures Net(schedule) == Net([schedule[0]]) + Net(schedule[1..])
  {
    var one := [schedule[0]];
    assert one[1..] == [];
  }

  predicate AllIdle(s: System) {
    forall t :: 0 <= t < |s.threads| ==> s.threads[t] == Idle
  }

  /** Once every call has returned, the position is what was bought minus what was sold, as
      64-bit arithmetic sees it, and every other call has been dealt with too. */
  lemma IdlePosition(initial: int, threads: nat, schedule: seq<(nat, Action)>)
    requires InRange(initial) && Run(Start(initial, threads), schedule).Some?
    requires AllIdle(Run(Start(initial, threads), schedule).value)
    ensures var s := Run(Start(initial, threads), schedule).value;
            s.shared.qty == Wrap(Net(schedule)) && forall x :: Done(s.history, x) == AskedBy(schedule, x)
  {
    IdleQty(initial, threads, schedule);
    var s := Run(Start(initial, threads), schedule).value;
    forall x ensures Done(s.history, x) == AskedBy(schedule, x) {
      NothingLostOrInvented(initial, threads, schedule, x);
      NothingLeft(s.threads, x);
    }
  }

  lemma IdleQty(initial: int, threads: nat, schedule: seq<(nat, Action)>)
    requires InRange(initial) && Run(Start(initial, threads), schedule).Some?
    requires AllIdle(Run(Start(initial, threads), schedule).value)
    ensures Run(Start(initial, threads), schedule).value.shared.qty == Wrap(Net(schedule))
  {
    EveryInterleaving(initial, threads, schedule);
    RunNet(Start(initial, threads), schedule);
    NoQtyLeft(Start(initial, threads).threads);
    NoQtyLeft(Run(Start(initial, threads), schedule).value.threads);
  }

  // ----- one call at a time, from its beginning -----

  /** A call made by an idle thread that then runs alone for n steps. */
  function CallAlone(t: nat, call: Call, n: nat): seq<(nat, Action)> {
    [(t, Begin(call))] + Alone(t, n)
  }

  /** The registers after one more fill: the quantity moves the position, and average and
      margin are those that go with it. */
  predicate FillApplied(s: Shared, s': Shared, signed: int, price: int) {
    var newQty := Wrap(s.qty + signed);
    var newAvg := NewAvg(s.qty, s.avg, signed, price);
    s' == s.(qty := newQty, avg := newAvg, margin := NewMargin(newQty, newAvg), sequence := (s.sequence + 1) % TWO64)
  }

  /** A buy moves the position up by its quantity, a sell down. */
  lemma FillAlone(s: System, t: nat, qty: int, price: int, isBuy: bool)
    requires t < |s.threads| && s.threads[t] == Idle && InRange(qty) && InRange(price)
    ensures var end := Run(s, CallAlone(t, UpdateOnFill(qty, price, isBuy), 8));
            && end.Some? && end.value.threads == s.threads
            && FillApplied(s.shared, end.value.shared, if isBuy then qty else Wrap(-qty), price)
  {
    var call := UpdateOnFill(qty, price, isBuy);
    RunCons(s, t, Begin(call), Alone(t, 8));
    FillFrom(Step(s, t, Begin(call)), t, if isBuy then qty else Wrap(-qty), price);
    Restored(s.threads, t, FillLoadSequence(if isBuy then qty else Wrap(-qty), price));
  }

  lemma FillFrom(s: System, t: nat, signed: int, price: int)
    requires t < |s.threads| && s.threads[t] == FillLoadSequence(signed, price)
    ensures var end := Run(s, Alone(t, 8));
            && end.Some? && end.value.threads == s.threads[t := Idle]
            && FillApplied(s.shared, end.value.shared, signed, price)
  {
    UninterruptedFill(s, t);
  }

  lemma Two(s: System, t: nat) returns (s': System)
    requires t < |s.threads|
    ensures Run(s, Alone(t, 2)) == Some(s') && s' == Step(Step(s, t, Advance(false)), t, Advance(false))
  {
    var s1 := Step(s, t, Advance(false));
    s' := Step(s1, t, Advance(false));
    AloneStep(s, t, 2);
    AloneStep(s1, t, 1);
  }

  /** Realized P&L reaches both its register and the account balance, once. */
  lemma PnlAlone(s: System, t: nat, pnl: int)
    requires t < |s.threads| && s.threads[t] == Idle && InRange(pnl)
    ensures var end := Run(s, CallAlone(t, AddRealizedPnl(pnl), 5));
            && end.Some? && end.value.threads == s.threads
            && end.value.shared == s.shared.(
                 pnl := Saturate(s.shared.pnl + pnl), account := Saturate(s.shared.account + pnl))
  {
    var call := AddRealizedPnl(pnl);
    var s1 := Step(s, t, Begin(call));
    RunCons(s, t, Begin(call), Alone(t, 5));
    var s4 := PnlRegisters(s1, t, pnl);
    Restored(s.threads, t, s1.threads[t]);
  }

  lemma PnlRegisters(s1: System, t: nat, pnl: int) returns (s6: System)
    requires t < |s1.threads| && s1.threads[t] == PnlLoad(pnl)
    ensures Run(s1, Alone(t, 5)) == Some(s6) && s6.threads == s1.threads[t := Idle]
    ensures s6.shared == s1.shared.(
              pnl := Saturate(s1.shared.pnl + pnl), account := Saturate(s1.shared.account + pnl))
  {
    var s2 := Step(s1, t, Advance(false));
    var s3 := Step(s2, t, Advance(false));
    var s4 := Step(s3, t, Advance(false));
    var s5 := Step(s4, t, Advance(false));
    s6 := Step(s5, t, Advance(false));
    AloneStep(s1, t, 5);
    AloneStep(s2, t, 4);
    AloneStep(s3, t, 3);
    AloneStep(s4, t, 2);
    AloneStep(s5, t, 1);
  }

  lemma Restored(threads: seq<Pc>, t: nat, pc: Pc)
    requires t < |threads| && threads[t] == Idle
    ensures threads[t := pc][t := Idle] == threads
  {
  }

  /** A margin that the available balance covers is taken from it. */
  lemma ReserveAlone(s: System, t: nat, required: int)
    requires t < |s.threads| && s.threads[t] == Idle && InRange(required) && required <= s.shared.available
    ensures var end := Run(s, CallAlone(t, TryReserve(required), 2));
            && end.Some? && end.value.threads == s.threads
            && end.value.shared == s.shared.(available := Wrap(s.shared.available - required))
            && end.value.history.reserved == s.history.reserved + [required]
  {
    var s1 := Step(s, t, Begin(TryReserve(required)));
    RunCons(s, t, Begin(TryReserve(required)), Alone(t, 2));
    var s' := ReserveFrom(s1, t, required);
    Restored(s.threads, t, ReserveLoad(required));
  }

  lemma ReserveFrom(s: System, t: nat, required: int) returns (s': System)
    requires t < |s.threads| && s.threads[t] == ReserveLoad(required) && required <= s.shared.available
    ensures Run(s, Alone(t, 2)) == Some(s') && s'.threads == s.threads[t := Idle]
    ensures s'.shared == s.shared.(available := Wrap(s.shared.available - required))
    ensures s'.history.reserved == s.history.reserved + [required]
  {
    s' := Two(s, t);
  }

  /** One that it does not cover is refused, and changes nothing. */
  lemma RefuseAlone(s: System, t: nat, required: int)
    requires t < |s.threads| && s.threads[t] == Idle && InRange(required) && s.shared.available < required
    ensures var end := Run(s, CallAlone(t, TryReserve(required), 1));
            && end.Some? && end.value.threads == s.threads && end.value.shared == s.shared
            && end.value.history.refused == s.history.refused + [required]
  {
    var s1 := Step(s, t, Begin(TryReserve(required)));
    RunCons(s, t, Begin(TryReserve(required)), Alone(t, 1));
    AloneStep(s1, t, 1);
    assert Step(s1, t, Advance(false)).threads == s.threads;
  }

  /** A released margin is available again. */
  lemma ReleaseAlone(s: System, t: nat, amount: int)
    requires t < |s.threads| && s.threads[t] == Idle && InRange(amount)
    ensures var end := Run(s, CallAlone(t, ReleaseMargin(amount), 2));
            && end.Some? && end.value.threads == s.threads
            && end.value.shared == s.shared.(available := Saturate(s.shared.available + amount))
  {
    var s1 := Step(s, t, Begin(ReleaseMargin(amount)));
    RunCons(s, t, Begin(ReleaseMargin(amount)), Alone(t, 2));
    var s' := ReleaseFrom(s1, t, amount);
    Restored(s.threads, t, ReleaseLoad(amount));
  }

  lemma ReleaseFrom(s: System, t: nat, amount: int) returns (s': System)
    requires t < |s.threads| && s.threads[t] == ReleaseLoad(amount)
    ensures Run(s, Alone(t, 2)) == Some(s') && s'.threads == s.threads[t := Idle]
    ensures s'.shared == s.shared.(available := Saturate(s.shared.available + amount))
  {
    s' := Two(s, t);
  }
}

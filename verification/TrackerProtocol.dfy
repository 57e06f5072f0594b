/** The position tracker used by any number of threads at once. */
module TrackerProtocol {
  // Every thread is a program counter over single atomic loads, compare-and-swaps, stores
  // and fetch-and-adds; a step of the system is one such action of one thread.  A weak
  // compare-and-swap may also fail when the values agree.

  import opened Wrappers
  import opened Int64
  import opened PositionModel

  datatype Shared = Shared(
    qty: int, avg: int, pnl: int, margin: int, account: int, available: int, sequence: nat)

  datatype Call =
    | UpdateOnFill(qty: int, price: int, isBuy: bool)
    | AddRealizedPnl(pnl: int)
    | TryReserve(required: int)
    | ReleaseMargin(amount: int)

  datatype Pc =
    | Idle
    | FillLoadSequence(signedQty: int, price: int)
    | FillLoadQty(signedQty: int, price: int)
    | FillLoadAvg(signedQty: int, price: int, qty: int)
    | FillLoadMargin(signedQty: int, price: int, qty: int, avg: int)
    | FillCas(signedQty: int, price: int, qty: int, avg: int)
    | FillStoreAvg(newAvg: int, newMargin: int)
    | FillStoreMargin(newMargin: int)
    | FillBumpSequence
    | PnlLoad(pnl: int)
    | PnlCas(pnl: int, seen: int)
    | AccountLoad(pnl: int)
    | AccountCas(pnl: int, seen: int)
    | PnlLoadSequence
    | ReserveLoad(required: int)
    | ReserveCas(required: int, seen: int)
    | ReleaseLoad(amount: int)
    | ReleaseCas(amount: int, seen: int)

  /** What has happened so far: the fills and the P&L amounts committed by a successful
      compare-and-swap, the sequence numbers handed back, the margins reserved, refused and
      released, and whether any amount was negative or any sum left the 64-bit range. */
  datatype History = History(
    initial: int, committed: seq<Fill>, returned: seq<nat>, realized: seq<int>,
    reserved: seq<int>, refused: seq<int>, released: seq<int>,
    negativeAmount: bool, clipped: bool)

  function Total(amounts: seq<int>): int {
    if amounts == [] then 0 else Total(amounts[..|amounts| - 1]) + amounts[|amounts| - 1]
  }

  datatype System = System(shared: Shared, threads: seq<Pc>, history: History)

  function Start(initial: int, threads: nat): System {
    System(Shared(0, 0, 0, 0, initial, initial, 0), seq(threads, _ => Idle),
           History(initial, [], [], [], [], [], [], false, false))
  }

  datatype Action = Begin(call: Call) | Advance(spurious: bool)

  predicate Callable(call: Call) {
    match call
    case UpdateOnFill(qty, price, _) => InRange(qty) && InRange(price)
    case AddRealizedPnl(pnl) => InRange(pnl)
    case TryReserve(required) => InRange(required)
    case ReleaseMargin(amount) => InRange(amount)
  }

  function Entry(call: Call): Pc {
    match call
    case UpdateOnFill(qty, price, isBuy) => FillLoadSequence(SignedQty(qty, isBuy), price)
    case AddRealizedPnl(pnl) => PnlLoad(pnl)
    case TryReserve(required) => ReserveLoad(required)
    case ReleaseMargin(amount) => ReleaseLoad(amount)
  }

  predicate NegativeAmount(call: Call) {
    (call.TryReserve? && call.required < 0) || (call.ReleaseMargin? && call.amount < 0)
  }

  /** The next atomic action of a thread at pc. */
  function Next(s: Shared, h: History, pc: Pc, spurious: bool): (Shared, History, Pc) {
    match pc
    case Idle => (s, h, Idle)
    case FillLoadSequence(q, p) => (s, h, FillLoadQty(q, p))
    case FillLoadQty(q, p) => (s, h, FillLoadAvg(q, p, s.qty))
    case FillLoadAvg(q, p, qty) => (s, h, FillLoadMargin(q, p, qty, s.avg))
    case FillLoadMargin(q, p, qty, avg) => (s, h, FillCas(q, p, qty, avg))
    case FillCas(q, p, qty, avg) =>
      var newQty := NewQty(qty, q);
      var newAvg := NewAvg(qty, avg, q, p);
      if s.qty == qty && !spurious then
        (s.(qty := newQty), h.(committed := h.committed + [Fill(q, p)]),
         FillStoreAvg(newAvg, NewMargin(newQty, newAvg)))
      else (s, h, FillLoadSequence(q, p))
    case FillStoreAvg(newAvg, newMargin) => (s.(avg := newAvg), h, FillStoreMargin(newMargin))
    case FillStoreMargin(newMargin) => (s.(margin := newMargin), h, FillBumpSequence)
    case FillBumpSequence =>
      var n := (s.sequence + 1) % TWO64;
      (s.(sequence := n), h.(returned := h.returned + [n]), Idle)
    case PnlLoad(pnl) => (s, h, PnlCas(pnl, s.pnl))
    case PnlCas(pnl, seen) =>
      if s.pnl == seen && !spurious then
        (s.(pnl := Saturate(seen + pnl)),
         h.(realized := h.realized + [pnl], clipped := h.clipped || !InRange(seen + pnl)), AccountLoad(pnl))
      else (s, h, PnlLoad(pnl))
    case AccountLoad(pnl) => (s, h, AccountCas(pnl, s.account))
    case AccountCas(pnl, seen) =>
      if s.account == seen && !spurious then
        (s.(account := Saturate(seen + pnl)), h.(clipped := h.clipped || !InRange(seen + pnl)), PnlLoadSequence)
      else (s, h, AccountLoad(pnl))
    case PnlLoadSequence => (s, h, Idle)
    case ReserveLoad(required) =>
      if s.available < required then (s, h.(refused := h.refused + [required]), Idle)
      else (s, h, ReserveCas(required, s.available))
    case ReserveCas(required, seen) =>
      if s.available == seen && !spurious then
        (s.(available := Wrap(seen - required)),
         h.(reserved := h.reserved + [required], clipped := h.clipped || !InRange(seen - required)), Idle)
      else (s, h, ReserveLoad(required))
    case ReleaseLoad(amount) => (s, h, ReleaseCas(amount, s.available))
    case ReleaseCas(amount, seen) =>
      if s.available == seen && !spurious then
        (s.(available := Saturate(seen + amount)),
         h.(released := h.released + [amount], clipped := h.clipped || !InRange(seen + amount)), Idle)
      else (s, h, ReleaseLoad(amount))
  }

  predicate Enabled(s: System, t: nat, a: Action) {
    t < |s.threads| && (a.Begin? ==> s.threads[t] == Idle && Callable(a.call))
  }

  function Step(s: System, t: nat, a: Action): System
    requires Enabled(s, t, a)
  {
    match a
    case Begin(call) =>
      s.(threads := s.threads[t := Entry(call)],
         history := s.history.(negativeAmount := s.history.negativeAmount || NegativeAmount(call)))
    case Advance(spurious) =>
      var (shared, history, pc) := Next(s.shared, s.history, s.threads[t], spurious);
      System(shared, s.threads[t := pc], history)
  }

  // ----- sums over threads and histories -----

  lemma TotalAppend(fills: seq<Fill>, f: Fill)
    ensures TotalQty(fills + [f]) == TotalQty(fills) + f.qty
  {
    assert (fills + [f])[..|fills|] == fills;
  }

  /** Realized P&L of one thread that has not reached the account balance yet. */
  function InFlight(pc: Pc): int {
    if pc.AccountLoad? || pc.AccountCas? then pc.pnl else 0
  }

  /** A committed fill that has no sequence number yet. */
  function Unnumbered(pc: Pc): nat {
    if pc.FillStoreAvg? || pc.FillStoreMargin? || pc.FillBumpSequence? then 1 else 0
  }

  function InFlightTotal(threads: seq<Pc>): int {
    if threads == [] then 0 else InFlightTotal(threads[..|threads| - 1]) + InFlight(threads[|threads| - 1])
  }

  function UnnumberedTotal(threads: seq<Pc>): nat {
    if threads == [] then 0 else UnnumberedTotal(threads[..|threads| - 1]) + Unnumbered(threads[|threads| - 1])
  }

  lemma {:induction false} TotalsAfterUpdate(threads: seq<Pc>, t: nat, pc: Pc)
    requires t < |threads|
    ensures InFlightTotal(threads[t := pc]) == InFlightTotal(threads) - InFlight(threads[t]) + InFlight(pc)
    ensures UnnumberedTotal(threads[t := pc]) == UnnumberedTotal(threads) - Unnumbered(threads[t]) + Unnumbered(pc)
  {
    var last := |threads| - 1;
    if t == last {
      assert threads[t := pc][..last] == threads[..last];
    } else {
      TotalsAfterUpdate(threads[..last], t, pc);
      assert threads[t := pc][..last] == threads[..last][t := pc];
    }
  }

  lemma {:induction false} TotalsWhenIdle(threads: seq<Pc>)
    requires forall t :: 0 <= t < |threads| ==> threads[t] == Idle
    ensures InFlightTotal(threads) == 0 && UnnumberedTotal(threads) == 0
  {
    if threads != [] { TotalsWhenIdle(threads[..|threads| - 1]); }
  }

  // ----- the invariant -----

  predicate SharedOk(s: Shared) {
    InRange(s.qty) && InRange(s.pnl) && InRange(s.account) && InRange(s.available) && s.sequence < TWO64
  }

  /** What a thread has passed its guard with. */
  predicate PcOk(h: History, pc: Pc) {
    match pc
    case ReserveLoad(required) => h.negativeAmount || required >= 0
    case ReserveCas(required, seen) => seen >= required && (h.negativeAmount || required >= 0)
    case ReleaseLoad(amount) => h.negativeAmount || amount >= 0
    case ReleaseCas(amount, seen) => h.negativeAmount || amount >= 0
    case _ => true
  }

  /** The position is the sum of the committed fills, as 64-bit arithmetic sees it. */
  predicate PositionIsCommitted(s: System) {
    s.shared.qty == Wrap(TotalQty(s.history.committed))
  }

  /** The sequence numbers returned so far are 1, 2, 3, ... without a gap. */
  predicate Numbered(s: System) {
    && (forall i :: 0 <= i < |s.history.returned| ==> s.history.returned[i] == (i + 1) % TWO64)
    && s.shared.sequence == |s.history.returned| % TWO64
    && |s.history.committed| == |s.history.returned| + UnnumberedTotal(s.threads)
  }

  /** Unless a sum left the 64-bit range, no money appears or disappears. */
  predicate Balanced(s: System) {
    !s.history.clipped ==>
      && s.shared.pnl == Total(s.history.realized)
      && s.shared.available == s.history.initial - Total(s.history.reserved) + Total(s.history.released)
      && s.shared.account + InFlightTotal(s.threads) == s.history.initial + s.shared.pnl
  }

  /** Unless a negative amount was passed in, the available balance is never negative. */
  predicate NeverOverdrawn(s: System) {
    s.history.initial >= 0 && !s.history.negativeAmount ==> s.shared.available >= 0
  }

  ghost predicate Inv(s: System) {
    && SharedOk(s.shared) && InRange(s.history.initial)
    && (forall t :: 0 <= t < |s.threads| ==> PcOk(s.history, s.threads[t]))
    && PositionIsCommitted(s) && Numbered(s) && Balanced(s) && NeverOverdrawn(s)
  }

  lemma StartInv(initial: int, threads: nat)
    requires InRange(initial)
    ensures Inv(Start(initial, threads))
  {
    TotalsWhenIdle(Start(initial, threads).threads);
  }

  lemma PositionStep(s: System, t: nat, spurious: bool)
    requires Inv(s) && t < |s.threads|
    ensures PositionIsCommitted(Step(s, t, Advance(spurious)))
  {
    var pc := s.threads[t];
    if pc.FillCas? {
      TotalAppend(s.history.committed, Fill(pc.signedQty, pc.price));
      WrapOfSum(TotalQty(s.history.committed), pc.signedQty);
    }
  }

  lemma NextNumber(n: nat)
    ensures (n % TWO64 + 1) % TWO64 == (n + 1) % TWO64
  {
    var k := n / TWO64;
    assert n == k * TWO64 + n % TWO64;
    ModShift(n % TWO64 + 1, k);
  }

  lemma NumberedStep(s: System, t: nat, spurious: bool)
    requires Inv(s) && t < |s.threads|
    ensures Numbered(Step(s, t, Advance(spurious)))
  {
    var s' := Step(s, t, Advance(spurious));
    TotalsAfterUpdate(s.threads, t, s'.threads[t]);
    NumbersAfter(s.shared, s.history, s.threads[t], spurious);
  }

  lemma NumbersAfter(s: Shared, h: History, pc: Pc, spurious: bool)
    requires forall i :: 0 <= i < |h.returned| ==> h.returned[i] == (i + 1) % TWO64
    requires s.sequence == |h.returned| % TWO64
    ensures var (s', h', pc') := Next(s, h, pc, spurious);
            && (forall i :: 0 <= i < |h'.returned| ==> h'.returned[i] == (i + 1) % TWO64)
            && s'.sequence == |h'.returned| % TWO64
            && |h'.committed| - |h'.returned| - Unnumbered(pc') == |h.committed| - |h.returned| - Unnumbered(pc)
  {
    NextNumber(|h.returned|);
  }

  lemma BalancedStep(s: System, t: nat, spurious: bool)
    requires Inv(s) && t < |s.threads|
    ensures Balanced(Step(s, t, Advance(spurious)))
  {
    TotalsAfterUpdate(s.threads, t, Step(s, t, Advance(spurious)).threads[t]);
    MoneyAfter(s.shared, s.history, s.threads[t], spurious);
  }

  lemma MoneyAfter(s: Shared, h: History, pc: Pc, spurious: bool)
    ensures var (s', h', pc') := Next(s, h, pc, spurious);
            && h'.initial == h.initial && (h.clipped ==> h'.clipped)
            && (!h'.clipped ==>
                  && s'.pnl - s.pnl == Total(h'.realized) - Total(h.realized)
                  && s'.available - s.available ==
                     (Total(h'.released) - Total(h.released)) - (Total(h'.reserved) - Total(h.reserved))
                  && s'.account + InFlight(pc') - s'.pnl == s.account + InFlight(pc) - s.pnl)
  {
    if pc.PnlCas? {
      AmountAppend(h.realized, pc.pnl);
    } else if pc.ReserveCas? || pc.ReleaseCas? {
      MarginAfter(s, h, pc, spurious);
    }
  }

  lemma MarginAfter(s: Shared, h: History, pc: Pc, spurious: bool)
    requires pc.ReserveCas? || pc.ReleaseCas?
    ensures var (s', h', pc') := Next(s, h, pc, spurious);
            && h'.initial == h.initial && (h.clipped ==> h'.clipped)
            && (!h'.clipped ==>
                  && s'.pnl - s.pnl == Total(h'.realized) - Total(h.realized)
                  && s'.available - s.available ==
                     (Total(h'.released) - Total(h.released)) - (Total(h'.reserved) - Total(h.reserved))
                  && s'.account + InFlight(pc') - s'.pnl == s.account + InFlight(pc) - s.pnl)
  {
    if pc.ReserveCas? { AmountAppend(h.reserved, pc.required); } else { AmountAppend(h.released, pc.amount); }
  }

  lemma AmountAppend(amounts: seq<int>, x: int)
    ensures Total(amounts + [x]) == Total(amounts) + x
  {
    assert (amounts + [x])[..|amounts|] == amounts;
  }

  lemma OverdrawnStep(s: System, t: nat, spurious: bool)
    requires Inv(s) && t < |s.threads|
    ensures NeverOverdrawn(Step(s, t, Advance(spurious)))
  {
    assert PcOk(s.history, s.threads[t]);
  }

  /** Every step of every thread, whatever the others are in the middle of, keeps the invariant. */
  lemma StepInv(s: System, t: nat, a: Action)
    requires Inv(s) && Enabled(s, t, a)
    ensures Inv(Step(s, t, a))
  {
    var s' := Step(s, t, a);
    assert PcOk(s.history, s.threads[t]);
    forall u | 0 <= u < |s'.threads| ensures PcOk(s'.history, s'.threads[u]) {
      assert PcOk(s.history, s.threads[u]);
    }
    match a
    case Begin(call) => TotalsAfterUpdate(s.threads, t, Entry(call));
    case Advance(spurious) =>
      PositionStep(s, t, spurious);
      NumberedStep(s, t, spurious);
      BalancedStep(s, t, spurious);
      OverdrawnStep(s, t, spurious);
  }

  /** An interleaving: which thread acts next, and how.  None once an action is not enabled. */
  function Run(s: System, schedule: seq<(nat, Action)>): Option<System>
    decreases |schedule|
  {
    if schedule == [] then Some(s)
    else if !Enabled(s, schedule[0].0, schedule[0].1) then None
    else Run(Step(s, schedule[0].0, schedule[0].1), schedule[1..])
  }

  lemma {:induction false} RunInv(s: System, schedule: seq<(nat, Action)>)
    requires Inv(s) && Run(s, schedule).Some?
    ensures Inv(Run(s, schedule).value)
    decreases |schedule|
  {
    if schedule != [] {
      StepInv(s, schedule[0].0, schedule[0].1);
      RunInv(Step(s, schedule[0].0, schedule[0].1), schedule[1..]);
    }
  }

  lemma {:induction false} RunKeepsInitial(s: System, schedule: seq<(nat, Action)>)
    requires Run(s, schedule).Some?
    ensures Run(s, schedule).value.history.initial == s.history.initial
    ensures |Run(s, schedule).value.threads| == |s.threads|
    decreases |schedule|
  {
    if schedule != [] {
      RunKeepsInitial(Step(s, schedule[0].0, schedule[0].1), schedule[1..]);
    }
  }

  /** The safety of every interleaving of any number of threads, from the start. */
  lemma EveryInterleaving(initial: int, threads: nat, schedule: seq<(nat, Action)>)
    requires InRange(initial) && Run(Start(initial, threads), schedule).Some?
    ensures var s := Run(Start(initial, threads), schedule).value;
            var h := s.history;
            && s.shared.qty == Wrap(TotalQty(h.committed))
            && (forall i :: 0 <= i < |h.returned| ==> h.returned[i] == (i + 1) % TWO64)
            && (!h.clipped ==>
                  && s.shared.pnl == Total(h.realized)
                  && s.shared.available == initial - Total(h.reserved) + Total(h.released)
                  && s.shared.account + InFlightTotal(s.threads) == initial + s.shared.pnl)
            && (initial >= 0 && !h.negativeAmount ==> s.shared.available >= 0)
  {
    StartInv(initial, threads);
    RunInv(Start(initial, threads), schedule);
    RunKeepsInitial(Start(initial, threads), schedule);
  }

  /** Fewer than 2^64 fills get distinct sequence numbers. */
  lemma SequenceNumbersDistinct(s: System, i: nat, j: nat)
    requires Inv(s) && i < j < |s.history.returned| && j - i < TWO64
    ensures s.history.returned[i] != s.history.returned[j]
  {
    var a, b := (i + 1) / TWO64, (j + 1) / TWO64;
    assert i + 1 == a * TWO64 + (i + 1) % TWO64 && j + 1 == b * TWO64 + (j + 1) % TWO64;
    assert (i + 1) % TWO64 == (j + 1) % TWO64 ==> j - i == (b - a) * TWO64;
  }

  /** Once every thread is idle, nothing is outstanding. */
  lemma Quiescent(s: System)
    requires Inv(s) && forall t :: 0 <= t < |s.threads| ==> s.threads[t] == Idle
    ensures |s.history.committed| == |s.history.returned|
    ensures !s.history.clipped ==> s.shared.account == s.history.initial + s.shared.pnl
  {
    TotalsWhenIdle(s.threads);
  }

  // ----- fills that do not overlap -----

  /** In the middle of a fill. */
  predicate InFill(pc: Pc) {
    match pc
    case FillLoadSequence(_, _) => true
    case FillLoadQty(_, _) => true
    case FillLoadAvg(_, _, _) => true
    case FillLoadMargin(_, _, _, _) => true
    case FillCas(_, _, _, _) => true
    case FillStoreAvg(_, _) => true
    case FillStoreMargin(_) => true
    case FillBumpSequence => true
    case _ => false
  }

  predicate AtMostOneFill(s: System) {
    forall t, u :: 0 <= t < u < |s.threads| ==> !InFill(s.threads[t]) || !InFill(s.threads[u])
  }

  /** Position, average and margin are what applying the fills one by one gives. */
  predicate Settled(s: Shared, h: Holding) {
    s.qty == h.qty && s.avg == h.avg && s.margin == NewMargin(h.qty, h.avg)
  }

  /** What the only thread in a fill has loaded, or has still to store. */
  predicate Coherent(s: Shared, h: Holding, pc: Pc) {
    match pc
    case FillLoadAvg(_, _, qty) => Settled(s, h) && qty == s.qty
    case FillLoadMargin(_, _, qty, avg) => Settled(s, h) && qty == s.qty && avg == s.avg
    case FillCas(_, _, qty, avg) => Settled(s, h) && qty == s.qty && avg == s.avg
    case FillStoreAvg(newAvg, newMargin) =>
      s.qty == h.qty && newAvg == h.avg && newMargin == NewMargin(h.qty, h.avg)
    case FillStoreMargin(newMargin) => s.qty == h.qty && s.avg == h.avg && newMargin == NewMargin(h.qty, h.avg)
    case _ => Settled(s, h)
  }

  predicate NoFill(s: System) {
    forall t :: 0 <= t < |s.threads| ==> !InFill(s.threads[t])
  }

  ghost predicate FillsCoherent(s: System) {
    var h := AfterFills(s.history.committed);
    && (NoFill(s) ==> Settled(s.shared, h))
    && forall t :: 0 <= t < |s.threads| && InFill(s.threads[t]) ==> Coherent(s.shared, h, s.threads[t])
  }

  lemma FillAdvances(s: Shared, h: History, pc: Pc, spurious: bool)
    requires InFill(pc) && Coherent(s, AfterFills(h.committed), pc)
    ensures var (s', h', pc') := Next(s, h, pc, spurious);
            && Coherent(s', AfterFills(h'.committed), pc')
            && (!InFill(pc') ==> Settled(s', AfterFills(h'.committed)))
  {
    if pc.FillCas? {
      assert (h.committed + [Fill(pc.signedQty, pc.price)])[..|h.committed|] == h.committed;
    }
  }

  lemma OthersKeepFills(s: Shared, h: History, pc: Pc, spurious: bool)
    requires !InFill(pc)
    ensures var (s', h', pc') := Next(s, h, pc, spurious);
            && h'.committed == h.committed && !InFill(pc')
            && s'.qty == s.qty && s'.avg == s.avg && s'.margin == s.margin
  {
  }

  lemma CoherentStep(s: System, t: nat, a: Action)
    requires FillsCoherent(s) && AtMostOneFill(s) && Enabled(s, t, a) && AtMostOneFill(Step(s, t, a))
    ensures FillsCoherent(Step(s, t, a))
  {
    match a
    case Begin(call) => CoherentBegin(s, t, call);
    case Advance(spurious) =>
      if InFill(s.threads[t]) {
        FillAdvances(s.shared, s.history, s.threads[t], spurious);
        CoherentFill(s, t, Step(s, t, a));
      } else {
        OthersKeepFills(s.shared, s.history, s.threads[t], spurious);
        CoherentOther(s, t, Step(s, t, a));
      }
  }

  // Nobody else is in a fill when one begins.
  lemma CoherentBegin(s: System, t: nat, call: Call)
    requires FillsCoherent(s) && Enabled(s, t, Begin(call)) && AtMostOneFill(Step(s, t, Begin(call)))
    ensures FillsCoherent(Step(s, t, Begin(call)))
  {
    var s' := Step(s, t, Begin(call));
    forall u | 0 <= u < |s.threads| && u != t ensures s'.threads[u] == s.threads[u] {
    }
    if call.UpdateOnFill? {
      assert InFill(s'.threads[t]);
      assert NoFill(s);
    } else if NoFill(s') {
      assert NoFill(s);
    }
  }

  lemma CoherentFill(s: System, t: nat, s': System)
    requires AtMostOneFill(s) && t < |s.threads| == |s'.threads| && InFill(s.threads[t])
    requires forall u :: 0 <= u < |s.threads| && u != t ==> s'.threads[u] == s.threads[u]
    requires var h := AfterFills(s'.history.committed);
             Coherent(s'.shared, h, s'.threads[t]) && (!InFill(s'.threads[t]) ==> Settled(s'.shared, h))
    ensures FillsCoherent(s')
  {
    forall u | 0 <= u < |s'.threads| && u != t ensures !InFill(s'.threads[u]) {
    }
  }

  lemma CoherentOther(s: System, t: nat, s': System)
    requires FillsCoherent(s) && t < |s.threads| == |s'.threads| && !InFill(s.threads[t]) && !InFill(s'.threads[t])
    requires forall u :: 0 <= u < |s.threads| && u != t ==> s'.threads[u] == s.threads[u]
    requires s'.history.committed == s.history.committed
    requires s'.shared.qty == s.shared.qty && s'.shared.avg == s.shared.avg && s'.shared.margin == s.shared.margin
    ensures FillsCoherent(s')
  {
    if NoFill(s') {
      forall u | 0 <= u < |s.threads| ensures !InFill(s.threads[u]) {
        if u != t { assert s'.threads[u] == s.threads[u]; }
      }
    }
  }

  /** In no state of the run are two threads in a fill. */
  predicate FillsApart(s: System, schedule: seq<(nat, Action)>)
    decreases |schedule|
  {
    && AtMostOneFill(s)
    && (schedule == [] || !Enabled(s, schedule[0].0, schedule[0].1)
        || FillsApart(Step(s, schedule[0].0, schedule[0].1), schedule[1..]))
  }

  lemma {:induction false} RunCoherent(s: System, schedule: seq<(nat, Action)>)
    requires FillsCoherent(s) && FillsApart(s, schedule) && Run(s, schedule).Some?
    ensures FillsCoherent(Run(s, schedule).value)
    decreases |schedule|
  {
    if schedule != [] {
      CoherentStep(s, schedule[0].0, schedule[0].1);
      RunCoherent(Step(s, schedule[0].0, schedule[0].1), schedule[1..]);
    }
  }

  /** While fills do not overlap, though everything else may interleave with them and any
      compare-and-swap may fail spuriously, position, average and margin between fills are
      those of the committed fills applied one by one. */
  lemma ApartFillsAreSequential(initial: int, threads: nat, schedule: seq<(nat, Action)>)
    requires Run(Start(initial, threads), schedule).Some? && FillsApart(Start(initial, threads), schedule)
    ensures var s := Run(Start(initial, threads), schedule).value;
            NoFill(s) ==> Settled(s.shared, AfterFills(s.history.committed))
  {
    RunCoherent(Start(initial, threads), schedule);
  }

  /** So if no committed fill leaves the position short, the average price between fills lies
      within the prices bought at. */
  lemma ApartFillsWithinBuys(initial: int, threads: nat, schedule: seq<(nat, Action)>, lo: int, hi: int)
    requires Run(Start(initial, threads), schedule).Some? && FillsApart(Start(initial, threads), schedule)
    requires var fills := Run(Start(initial, threads), schedule).value.history.committed;
             StaysLong(fills) && BuyPricesWithin(fills, lo, hi)
    requires MIN <= lo <= hi <= MAX
    ensures var s := Run(Start(initial, threads), schedule).value;
            NoFill(s) && s.shared.qty > 0 ==> lo <= s.shared.avg <= hi
  {
    ApartFillsAreSequential(initial, threads, schedule);
    LongAverageWithinBuys(Run(Start(initial, threads), schedule).value.history.committed, lo, hi);
  }

  // ----- a thread that runs alone, and two that do not -----

  function Alone(t: nat, n: nat): seq<(nat, Action)> {
    if n == 0 then [] else [(t, Advance(false))] + Alone(t, n - 1)
  }

  lemma {:induction false} RunConcat(s: System, a: seq<(nat, Action)>, b: seq<(nat, Action)>)
    requires Run(s, a).Some?
    ensures Run(s, a + b) == Run(Run(s, a).value, b)
    decreases |a|
  {
    if a == [] {
      assert a + b == b;
    } else {
      assert (a + b)[0] == a[0] && (a + b)[1..] == a[1..] + b;
      RunConcat(Step(s, a[0].0, a[0].1), a[1..], b);
    }
  }

  lemma AloneStep(s: System, t: nat, n: nat)
    requires t < |s.threads| && n > 0
    ensures Run(s, Alone(t, n)) == Run(Step(s, t, Advance(false)), Alone(t, n - 1))
  {
    assert Alone(t, n)[1..] == Alone(t, n - 1);
  }

  // A fill up to and including its compare-and-swap, with n actions of the thread to go.
  lemma FirstFive(s: System, t: nat, n: nat) returns (s5: System)
    requires t < |s.threads| && s.threads[t].FillLoadSequence?
    ensures Run(s, Alone(t, n + 5)) == Run(s5, Alone(t, n))
    ensures var q, p := s.threads[t].signedQty, s.threads[t].price;
            var newQty, newAvg := NewQty(s.shared.qty, q), NewAvg(s.shared.qty, s.shared.avg, q, p);
            && s5.threads == s.threads[t := FillStoreAvg(newAvg, NewMargin(newQty, newAvg))]
            && s5.shared == s.shared.(qty := newQty)
            && s5.history.committed == s.history.committed + [Fill(q, p)]
  {
    var s1 := Step(s, t, Advance(false));
    var s2 := Step(s1, t, Advance(false));
    var s3 := Step(s2, t, Advance(false));
    var s4 := Step(s3, t, Advance(false));
    s5 := Step(s4, t, Advance(false));
    AloneStep(s, t, n + 5);
    AloneStep(s1, t, n + 4);
    AloneStep(s2, t, n + 3);
    AloneStep(s3, t, n + 2);
    AloneStep(s4, t, n + 1);
  }

  lemma LastThree(s: System, t: nat) returns (s3: System)
    requires t < |s.threads| && s.threads[t].FillStoreAvg?
    ensures Run(s, Alone(t, 3)) == Some(s3)
    ensures s3.threads == s.threads[t := Idle] && s3.history.committed == s.history.committed
    ensures s3.shared == s.shared.(avg := s.threads[t].newAvg, margin := s.threads[t].newMargin,
                                   sequence := (s.shared.sequence + 1) % TWO64)
  {
    var s1 := Step(s, t, Advance(false));
    var s2 := Step(s1, t, Advance(false));
    s3 := Step(s2, t, Advance(false));
    AloneStep(s, t, 3);
    AloneStep(s1, t, 2);
    AloneStep(s2, t, 1);
  }

  /** A fill that no other thread interrupts does what the sequential tracker does. */
  lemma UninterruptedFill(s: System, t: nat)
    requires t < |s.threads| && s.threads[t].FillLoadSequence?
    ensures Run(s, Alone(t, 8)).Some?
    ensures var q, p := s.threads[t].signedQty, s.threads[t].price;
            var s' := Run(s, Alone(t, 8)).value;
            && s'.threads == s.threads[t := Idle]
            && s'.shared == s.shared.(
                 qty := NewQty(s.shared.qty, q), avg := NewAvg(s.shared.qty, s.shared.avg, q, p),
                 margin := NewMargin(NewQty(s.shared.qty, q), NewAvg(s.shared.qty, s.shared.avg, q, p)),
                 sequence := (s.shared.sequence + 1) % TWO64)
  {
    var s5 := FirstFive(s, t, 3);
    var s8 := LastThree(s5, t);
  }

  /** The average price has no such guarantee.  When a second thread runs between the
      first one's compare-and-swap and its store of the average, the average left at the
      end combines the second fill with the average from before the first. */
  lemma OverlappedFills(s: System, first: nat, second: nat) returns (schedule: seq<(nat, Action)>, s': System)
    requires first < |s.threads| && second < |s.threads| && first != second
    requires s.threads[first].FillLoadSequence? && s.threads[second].FillLoadSequence?
    ensures Run(s, schedule) == Some(s')
    ensures var f, g := s.threads[first], s.threads[second];
            var qty1 := NewQty(s.shared.qty, f.signedQty);
            && s'.threads == s.threads[first := Idle][second := Idle]
            && s'.history.committed == s.history.committed + [Fill(f.signedQty, f.price)] + [Fill(g.signedQty, g.price)]
            && s'.shared.qty == NewQty(qty1, g.signedQty)
            && s'.shared.avg == NewAvg(qty1, s.shared.avg, g.signedQty, g.price)
  {
    var a, b, c;
    a, b, c, s' := OverlapStates(s, first, second);
    schedule := RunFour(s, a, b, c, Alone(first, 5), Alone(second, 5), Alone(first, 3), Alone(second, 3));
  }

  lemma OverlapStates(s: System, first: nat, second: nat) returns (a: System, b: System, c: System, s': System)
    requires first < |s.threads| && second < |s.threads| && first != second
    requires s.threads[first].FillLoadSequence? && s.threads[second].FillLoadSequence?
    ensures Run(s, Alone(first, 5)) == Some(a) && Run(a, Alone(second, 5)) == Some(b)
    ensures Run(b, Alone(first, 3)) == Some(c) && Run(c, Alone(second, 3)) == Some(s')
    ensures var f, g := s.threads[first], s.threads[second];
            var qty1 := NewQty(s.shared.qty, f.signedQty);
            && s'.threads == s.threads[first := Idle][second := Idle]
            && s'.history.committed == s.history.committed + [Fill(f.signedQty, f.price)] + [Fill(g.signedQty, g.price)]
            && s'.shared.qty == NewQty(qty1, g.signedQty)
            && s'.shared.avg == NewAvg(qty1, s.shared.avg, g.signedQty, g.price)
  {
    a, b := CommitBoth(s, first, second);
    c, s' := FinishBoth(b, first, second);
    Overwrite(s.threads, first, second, b.threads[first], b.threads[second], Idle);
  }

  lemma CommitBoth(s: System, first: nat, second: nat) returns (a: System, b: System)
    requires first < |s.threads| && second < |s.threads| && first != second
    requires s.threads[first].FillLoadSequence? && s.threads[second].FillLoadSequence?
    ensures Run(s, Alone(first, 5)) == Some(a) && Run(a, Alone(second, 5)) == Some(b)
    ensures |b.threads| == |s.threads| && b.threads[first].FillStoreAvg? && b.threads[second].FillStoreAvg?
    ensures b.threads == s.threads[first := b.threads[first]][second := b.threads[second]]
    ensures var f, g := s.threads[first], s.threads[second];
            var qty1 := NewQty(s.shared.qty, f.signedQty);
            && b.history.committed == s.history.committed + [Fill(f.signedQty, f.price)] + [Fill(g.signedQty, g.price)]
            && b.shared.qty == NewQty(qty1, g.signedQty)
            && b.threads[second].newAvg == NewAvg(qty1, s.shared.avg, g.signedQty, g.price)
  {
    a := FirstFive(s, first, 0);
    b := FirstFive(a, second, 0);
  }

  lemma FinishBoth(b: System, first: nat, second: nat) returns (c: System, s': System)
    requires first < |b.threads| && second < |b.threads| && first != second
    requires b.threads[first].FillStoreAvg? && b.threads[second].FillStoreAvg?
    ensures Run(b, Alone(first, 3)) == Some(c) && Run(c, Alone(second, 3)) == Some(s')
    ensures s'.threads == b.threads[first := Idle][second := Idle]
    ensures s'.history.committed == b.history.committed
    ensures s'.shared.qty == b.shared.qty && s'.shared.avg == b.threads[second].newAvg
  {
    c := LastThree(b, first);
    s' := LastThree(c, second);
  }

  lemma Overwrite(threads: seq<Pc>, t: nat, u: nat, x: Pc, y: Pc, z: Pc)
    requires t < |threads| && u < |threads| && t != u
    ensures threads[t := x][u := y][t := z][u := z] == threads[t := z][u := z]
  {
  }

  /** For example, two buys of 10 at a price of 100, begun from the start, can leave an
      average of 50 with both threads idle again. */
  lemma AverageCanBeStale(initial: int) returns (schedule: seq<(nat, Action)>, s': System)
    ensures Run(Start(initial, 2), schedule) == Some(s') && s'.threads == [Idle, Idle]
    ensures s'.history.committed == [Fill(10, 100), Fill(10, 100)]
    ensures s'.shared.qty == 20 && s'.shared.avg == 50 && AfterFills(s'.history.committed).avg == 100
  {
    var s := Start(initial, 2);
    var buy := Begin(UpdateOnFill(10, 100, true));
    var s1 := Step(s, 0, buy);
    var s2 := Step(s1, 1, buy);
    var rest;
    rest, s' := OverlappedFills(s2, 0, 1);
    RunCons(s1, 1, buy, rest);
    RunCons(s, 0, buy, [(1, buy)] + rest);
    schedule := [(0, buy)] + ([(1, buy)] + rest);
    TwoBuys();
  }

  lemma RunCons(s: System, t: nat, a: Action, rest: seq<(nat, Action)>)
    requires Enabled(s, t, a)
    ensures Run(s, [(t, a)] + rest) == Run(Step(s, t, a), rest)
  {
    assert ([(t, a)] + rest)[1..] == rest;
  }

  lemma TwoBuys()
    ensures AfterFills([Fill(10, 100), Fill(10, 100)]) == Holding(20, 100)
  {
    var fills := [Fill(10, 100), Fill(10, 100)];
    assert fills[..1] == [Fill(10, 100)] && fills[..1][..0] == [];
    assert AfterFills(fills[..1]) == Holding(10, 100);
  }

  lemma RunFour(s: System, s1: System, s2: System, s3: System, a: seq<(nat, Action)>, b: seq<(nat, Action)>,
        c: seq<(nat, Action)>, d: seq<(nat, Action)>) returns (all: seq<(nat, Action)>)
    requires Run(s, a) == Some(s1) && Run(s1, b) == Some(s2) && Run(s2, c) == Some(s3)
    ensures all == a + (b + (c + d)) && Run(s, all) == Run(s3, d)
  {
    all := a + (b + (c + d));
    RunConcat(s, a, b + (c + d));
    RunConcat(s1, b, c + d);
    RunConcat(s2, c, d);
  }
}

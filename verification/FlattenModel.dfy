/** The liquidation state machine as functions of its state.  Entry actions request further
    transitions themselves; the recursion stops because each one enters a state of lower
    entry rank. */
module FlattenModel {
  import opened Wrappers
  import opened OrderedDict

  datatype FlattenState = IDLE | ASSESSING | REDUCING_RISK | AGGRESSIVE_SELL | FLATTENING | COMPLETE | ERROR

  datatype Position = Position(
    assetId: string, quantity: real, currentPrice: real, unrealizedPnl: real,
    liquidityScore: real, urgencyWeight: real)

  datatype Side = Buy | Sell
  datatype OrderType = Market | Limit | Iceberg

  datatype Order = Order(
    assetId: string, side: Side, quantity: real, kind: OrderType,
    limitPrice: Option<real>, displayQty: Option<real>, urgency: real)

  datatype Fsm = Fsm(
    state: FlattenState,
    positions: Dict<Position>,
    pending: seq<Order>,
    executed: seq<Order>,
    progress: Dict<real>)

  const REDUCE_STEP_SIZE := 0.2
  const AGGRESSIVE_THRESHOLD := 0.5
  const MAX_ORDERS_PER_CYCLE := 10
  const MIN_ORDER_SIZE := 0.01
  const DONE := 0.99

  const INITIAL := Fsm(IDLE, [], [], [], [])

  predicate Allowed(from: FlattenState, to: FlattenState) {
    match from
    case IDLE => to == ASSESSING || to == IDLE
    case ASSESSING => to == REDUCING_RISK || to == FLATTENING || to == ERROR
    case REDUCING_RISK => to == AGGRESSIVE_SELL || to == FLATTENING || to == COMPLETE || to == ERROR
    case AGGRESSIVE_SELL => to == FLATTENING || to == COMPLETE || to == ERROR
    case FLATTENING => to == COMPLETE || to == ERROR
    case COMPLETE => to == IDLE
    case ERROR => to == IDLE || to == ASSESSING
  }

  // ----- small pieces -----

  function Abs(x: real): (a: real)
    ensures a >= 0.0 && (a == x || a == -x)
  {
    if x < 0.0 then -x else x
  }

  function Min(x: real, y: real): real {
    if y < x then y else x
  }

  function Max(x: real, y: real): real {
    if y > x then y else x
  }

  function Progress(d: Dict<real>, asset: string): real {
    match Get(d, asset)
    case Some(p) => p
    case None => 0.0
  }

  function Remaining(p: Position, progress: Dict<real>): real {
    p.quantity * (1.0 - Progress(progress, p.assetId))
  }

  function OrderSide(p: Position): Side {
    if p.quantity > 0.0 then Sell else Buy
  }

  function Urgency(p: Position): real {
    Min(1.0, Abs(p.quantity) / 1000.0) * 0.4
    + Max(0.0, -p.unrealizedPnl / 10000.0) * 0.4
    + (1.0 - p.liquidityScore) * 0.2
  }

  function Weighed(positions: Dict<Position>): (w: Dict<Position>)
    ensures |w| == |positions|
    ensures forall i :: 0 <= i < |w| ==> w[i].0 == positions[i].0
    ensures forall i :: 0 <= i < |w| ==> w[i].1 == positions[i].1.(urgencyWeight := Urgency(positions[i].1))
  {
    seq(|positions|, i requires 0 <= i < |positions| =>
      (positions[i].0, positions[i].1.(urgencyWeight := Urgency(positions[i].1))))
  }

  function ZeroProgress(progress: Dict<real>, positions: Dict<Position>): Dict<real> {
    if positions == [] then progress
    else Put(ZeroProgress(progress, positions[..|positions| - 1]), positions[|positions| - 1].0, 0.0)
  }

  function Infos(positions: Dict<Position>): (ps: seq<Position>)
    ensures |ps| == |positions| && forall i :: 0 <= i < |ps| ==> ps[i] == positions[i].1
  {
    seq(|positions|, i requires 0 <= i < |positions| => positions[i].1)
  }

  // ----- sorting by urgency, most urgent first, equals in their old order -----

  function InsertByUrgency(sorted: seq<Position>, p: Position): seq<Position> {
    if sorted == [] || sorted[0].urgencyWeight < p.urgencyWeight then [p] + sorted
    else [sorted[0]] + InsertByUrgency(sorted[1..], p)
  }

  function SortByUrgency(ps: seq<Position>): seq<Position> {
    if ps == [] then [] else InsertByUrgency(SortByUrgency(ps[..|ps| - 1]), ps[|ps| - 1])
  }

  function Take(ps: seq<Position>, n: nat): seq<Position> {
    if |ps| > n then ps[..n] else ps
  }

  // ----- the three order generators -----

  function ReduceOrder(p: Position, progress: Dict<real>): Option<Order> {
    var qty := Remaining(p, progress) * REDUCE_STEP_SIZE;
    if Abs(qty) < MIN_ORDER_SIZE then None
    else
      var side := OrderSide(p);
      Some(Order(p.assetId, side, Abs(qty), Limit,
                 Some(p.currentPrice * (if side == Sell then 0.995 else 1.005)), None, p.urgencyWeight * 0.5))
  }

  function AggressiveOrder(p: Position, progress: Dict<real>): Option<Order> {
    var qty := Remaining(p, progress) * 0.5;
    if Abs(qty) < MIN_ORDER_SIZE then None
    else
      var side := OrderSide(p);
      var price := p.currentPrice * (if side == Sell then 0.99 else 1.01);
      if Abs(qty) > 100.0 then
        Some(Order(p.assetId, side, Abs(qty), Iceberg, Some(price), Some(Abs(qty) * 0.1), 0.7))
      else
        Some(Order(p.assetId, side, Abs(qty), Limit, Some(price), None, 0.7))
  }

  function FlattenOrder(p: Position, progress: Dict<real>): Option<Order> {
    var qty := Remaining(p, progress);
    if Abs(qty) < MIN_ORDER_SIZE then None
    else Some(Order(p.assetId, OrderSide(p), Abs(qty), Market, None, None, 1.0))
  }

  datatype Generator = Reduce | Aggressive | Flatten

  function Generate(g: Generator, p: Position, progress: Dict<real>): Option<Order> {
    match g
    case Reduce => ReduceOrder(p, progress)
    case Aggressive => AggressiveOrder(p, progress)
    case Flatten => FlattenOrder(p, progress)
  }

  function Orders(g: Generator, ps: seq<Position>, progress: Dict<real>): seq<Order> {
    if ps == [] then []
    else
      Orders(g, ps[..|ps| - 1], progress) +
      match Generate(g, ps[|ps| - 1], progress)
      case Some(o) => [o]
      case None => []
  }

  function SumProgress(d: Dict<real>): real {
    if d == [] then 0.0 else SumProgress(d[..|d| - 1]) + d[|d| - 1].1
  }

  function TotalProgress(f: Fsm): real {
    SumProgress(f.progress) / (if |f.positions| > 1 then |f.positions| else 1) as real
  }

  // ----- transitions and entry actions -----

  function EntryRank(s: FlattenState): nat {
    match s
    case ASSESSING => 2
    case REDUCING_RISK => 1
    case _ => 0
  }

  function TransitionTo(f: Fsm, to: FlattenState): (Fsm, bool)
    decreases EntryRank(to), 1
  {
    if !Allowed(f.state, to) then (f, false) else (Enter(f.(state := to)), true)
  }

  function Enter(f: Fsm): Fsm
    decreases EntryRank(f.state), 0
  {
    match f.state
    case ASSESSING =>
      if f.positions == [] then TransitionTo(f, COMPLETE).0
      else
        TransitionTo(f.(positions := Weighed(f.positions), progress := ZeroProgress(f.progress, f.positions)),
                     REDUCING_RISK).0
    case REDUCING_RISK =>
      var ps := Take(SortByUrgency(Infos(f.positions)), MAX_ORDERS_PER_CYCLE);
      var f1 := f.(pending := Orders(Reduce, ps, f.progress));
      if TotalProgress(f1) > AGGRESSIVE_THRESHOLD then TransitionTo(f1, AGGRESSIVE_SELL).0 else f1
    case AGGRESSIVE_SELL => f.(pending := Orders(Aggressive, Infos(f.positions), f.progress))
    case FLATTENING => f.(pending := Orders(Flatten, Infos(f.positions), f.progress))
    case COMPLETE => f.(positions := [], pending := [])
    case ERROR => f
    case IDLE => f
  }

  predicate Liquidating(s: FlattenState) {
    s == REDUCING_RISK || s == AGGRESSIVE_SELL || s == FLATTENING
  }

  predicate AllDone(progress: Dict<real>) {
    forall i :: 0 <= i < |progress| ==> progress[i].1 >= DONE
  }

  function CheckCompletion(f: Fsm): Fsm {
    if Liquidating(f.state) && AllDone(f.progress) then TransitionTo(f, COMPLETE).0 else f
  }

  /** The fraction of a position that is done after a fill on top of the fraction done before. */
  function NewProgress(done: real, total: real, executedQty: real): real
    requires total != 0.0
  {
    Min(1.0, (done * total + executedQty) / total)
  }

  /** True when Python raises ZeroDivisionError instead of returning. */
  function Report(f: Fsm, asset: string, executedQty: real, expectedPrice: real): (Fsm, bool) {
    match Get(f.positions, asset)
    case None => (CheckCompletion(f), false)
    case Some(pos) =>
      var total := Abs(pos.quantity);
      if total == 0.0 then (f, true)
      else
        var f1 := f.(progress := Put(f.progress, asset, NewProgress(Progress(f.progress, asset), total, executedQty)));
        if expectedPrice == 0.0 then (f1, true) else (CheckCompletion(f1), false)
  }

  function UpdatePosition(f: Fsm, asset: string, info: Position): Fsm {
    f.(positions := Put(f.positions, asset, info))
  }

  function RemovePosition(f: Fsm, asset: string): Fsm {
    f.(positions := Remove(f.positions, asset), progress := Remove(f.progress, asset))
  }

  function ClearOrders(f: Fsm): Fsm {
    f.(executed := f.executed + f.pending, pending := [])
  }

  /** The positions after storing those of a trigger one by one. */
  function Stored(positions: Dict<Position>, given: Dict<Position>): Dict<Position> {
    if given == [] then positions
    else Put(Stored(positions, given[..|given| - 1]), given[|given| - 1].0, given[|given| - 1].1)
  }
}

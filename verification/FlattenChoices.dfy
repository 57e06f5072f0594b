/** Which positions get orders, for how much, and at what price. */
module FlattenChoices {
  import opened Wrappers
  import opened Reals
  import opened OrderedDict
  import opened FlattenModel
  import opened FlattenProofs

  // ----- the most urgent ones -----

  /** chosen and rest make up all, with at most n chosen, none left out while there is room, and
      no one left out more urgent than one chosen. */
  ghost predicate MostUrgent(all: seq<Position>, n: nat, chosen: seq<Position>, rest: seq<Position>) {
    && multiset(all) == multiset(chosen) + multiset(rest)
    && |chosen| <= n && (|chosen| < n ==> rest == [])
    && forall i, j :: 0 <= i < |chosen| && 0 <= j < |rest| ==> chosen[i].urgencyWeight >= rest[j].urgencyWeight
  }

  lemma TakesMostUrgent(all: seq<Position>, sorted: seq<Position>, n: nat)
    requires multiset(sorted) == multiset(all) && MostUrgentFirst(sorted)
    ensures MostUrgent(all, n, Take(sorted, n), if |sorted| > n then sorted[n..] else [])
    ensures MostUrgentFirst(Take(sorted, n))
  {
    if |sorted| > n { SplitMultiset(sorted, n); }
  }

  lemma SplitMultiset(s: seq<Position>, n: nat)
    requires n <= |s|
    ensures multiset(s) == multiset(s[..n]) + multiset(s[n..])
  {
    assert s == s[..n] + s[n..];
  }

  /** The orders are those due for the positions, and no others. */
  ghost predicate OrdersFor(g: Generator, ps: seq<Position>, progress: Dict<real>, orders: seq<Order>) {
    && (forall p :: p in ps && Generate(g, p, progress).Some? ==> Generate(g, p, progress).value in orders)
    && (forall o :: o in orders ==> OrderedFor(g, ps, progress, o))
  }

  ghost predicate OrderedFor(g: Generator, ps: seq<Position>, progress: Dict<real>, o: Order) {
    exists p :: p in ps && Generate(g, p, progress) == Some(o)
  }

  lemma OrdersAreFor(g: Generator, ps: seq<Position>, progress: Dict<real>)
    ensures OrdersFor(g, ps, progress, Orders(g, ps, progress))
  {
    forall p | p in ps && Generate(g, p, progress).Some?
      ensures Generate(g, p, progress).value in Orders(g, ps, progress)
    {
      OrderedIfGenerated(g, ps, progress, p);
    }
    forall o | o in Orders(g, ps, progress) ensures OrderedFor(g, ps, progress, o) {
      var p := GeneratedIfOrdered(g, ps, progress, o);
    }
  }

  /** An entry into risk reduction, requested or after an assessment, that does not escalate
      leaves pending the orders due for the ten most urgent positions. */
  lemma ReductionIsMostUrgent(f: Fsm) returns (chosen: seq<Position>, rest: seq<Position>)
    requires f.state == REDUCING_RISK && Enter(f).state == REDUCING_RISK
    ensures MostUrgent(Infos(f.positions), 10, chosen, rest) && MostUrgentFirst(chosen)
    ensures OrdersFor(Reduce, chosen, f.progress, Enter(f).pending)
  {
    var all := Infos(f.positions);
    var sorted := SortByUrgency(all);
    SortSorts(all);
    TakesMostUrgent(all, sorted, 10);
    chosen, rest := Take(sorted, 10), if |sorted| > 10 then sorted[10..] else [];
    EnterReducingState(f);
    OrdersAreFor(Reduce, chosen, f.progress);
  }

  lemma {:induction false} OrderedIfGenerated(g: Generator, ps: seq<Position>, progress: Dict<real>, p: Position)
    requires p in ps && Generate(g, p, progress).Some?
    ensures Generate(g, p, progress).value in Orders(g, ps, progress)
  {
    var n := |ps| - 1;
    if ps[n] != p {
      assert p in ps[..n];
      OrderedIfGenerated(g, ps[..n], progress, p);
    }
  }

  lemma {:induction false} GeneratedIfOrdered(g: Generator, ps: seq<Position>, progress: Dict<real>, o: Order)
    returns (p: Position)
    requires o in Orders(g, ps, progress)
    ensures p in ps && Generate(g, p, progress) == Some(o)
  {
    var n := |ps| - 1;
    if o in Orders(g, ps[..n], progress) {
      p := GeneratedIfOrdered(g, ps[..n], progress, o);
    } else {
      p := ps[n];
    }
  }

  /** Aggressive selling and flattening leave pending an order for every position, as far as
      one is due, and no others. */
  lemma EveryPositionOrdered(f: Fsm, g: Generator)
    requires (f.state == AGGRESSIVE_SELL && g == Aggressive) || (f.state == FLATTENING && g == Flatten)
    ensures OrdersFor(g, Infos(f.positions), f.progress, Enter(f).pending)
  {
    OrdersAreFor(g, Infos(f.positions), f.progress);
  }

  // ----- how much -----

  /** The share of what remains that each generator leaves standing. */
  function Leaves(g: Generator): real {
    match g
    case Reduce => 0.8
    case Aggressive => 0.5
    case Flatten => 0.0
  }

  /** An order is due for an amount from the minimum size on, and then has that quantity. */
  predicate ForAmount(order: Option<Order>, amount: real) {
    (order.Some? <==> amount >= 0.01) && (order.Some? ==> order.value.quantity == amount)
  }

  /** A generator makes an order exactly if its share of what remains is at least the minimum
      size, and the order is for just that share. */
  lemma AmountIs(g: Generator, p: Position, progress: Dict<real>, left: real, share: real)
    requires Progress(progress, p.assetId) <= 1.0 && share == 1.0 - Leaves(g)
    requires left == Abs(p.quantity) * (1.0 - Progress(progress, p.assetId))
    ensures ForAmount(Generate(g, p, progress), share * left)
  {
    match g
    case Reduce => ReduceAmount(p, progress, left, share);
    case Aggressive => AggressiveAmount(p, progress, left, share);
    case Flatten => FlattenAmount(p, progress, left, share);
  }

  lemma ReduceAmount(p: Position, progress: Dict<real>, left: real, share: real)
    requires Progress(progress, p.assetId) <= 1.0 && share == 0.2
    requires left == Abs(p.quantity) * (1.0 - Progress(progress, p.assetId))
    ensures ForAmount(ReduceOrder(p, progress), share * left)
  {
    ReduceMagnitude(p, progress, 1.0 - Progress(progress, p.assetId));
    InShares(ReduceOrder(p, progress), p.quantity, 1.0 - Progress(progress, p.assetId), left, share);
  }

  lemma ReduceMagnitude(p: Position, progress: Dict<real>, rest: real)
    requires rest == 1.0 - Progress(progress, p.assetId)
    ensures ForAmount(ReduceOrder(p, progress), Abs(p.quantity * rest * 0.2))
  {
  }

  lemma AggressiveAmount(p: Position, progress: Dict<real>, left: real, share: real)
    requires Progress(progress, p.assetId) <= 1.0 && share == 0.5
    requires left == Abs(p.quantity) * (1.0 - Progress(progress, p.assetId))
    ensures ForAmount(AggressiveOrder(p, progress), share * left)
  {
    AggressiveMagnitude(p, progress, 1.0 - Progress(progress, p.assetId));
    InShares(AggressiveOrder(p, progress), p.quantity, 1.0 - Progress(progress, p.assetId), left, share);
  }

  lemma AggressiveMagnitude(p: Position, progress: Dict<real>, rest: real)
    requires rest == 1.0 - Progress(progress, p.assetId)
    ensures ForAmount(AggressiveOrder(p, progress), Abs(p.quantity * rest * 0.5))
  {
  }

  lemma FlattenAmount(p: Position, progress: Dict<real>, left: real, share: real)
    requires Progress(progress, p.assetId) <= 1.0 && share == 1.0
    requires left == Abs(p.quantity) * (1.0 - Progress(progress, p.assetId))
    ensures ForAmount(FlattenOrder(p, progress), share * left)
  {
    FlattenMagnitude(p, progress, 1.0 - Progress(progress, p.assetId));
    InShares(FlattenOrder(p, progress), p.quantity, 1.0 - Progress(progress, p.assetId), left, share);
  }

  lemma FlattenMagnitude(p: Position, progress: Dict<real>, rest: real)
    requires rest == 1.0 - Progress(progress, p.assetId)
    ensures ForAmount(FlattenOrder(p, progress), Abs(p.quantity * rest * 1.0))
  {
  }

  lemma InShares(order: Option<Order>, q: real, rest: real, left: real, share: real)
    requires rest >= 0.0 && share >= 0.0 && left == Abs(q) * rest && ForAmount(order, Abs(q * rest * share))
    ensures ForAmount(order, share * left)
  {
    ShareOf(q, rest, left, share);
  }

  lemma ShareOf(q: real, rest: real, left: real, share: real)
    requires rest >= 0.0 && share >= 0.0 && left == Abs(q) * rest
    ensures Abs(q * rest * share) == share * left
  {
    ScaledMagnitude(q, rest);
    ScaledMagnitude(q * rest, share);
    Commute(Abs(q * rest), share);
  }

  lemma Commute(x: real, y: real)
    ensures x * y == y * x
  {
  }

  lemma ScaledMagnitude(x: real, c: real)
    requires c >= 0.0
    ensures Abs(x * c) == Abs(x) * c
  {
    if x < 0.0 { NonNegativeProduct(-x, c); } else { NonNegativeProduct(x, c); }
  }

  /** Filling an order in full leaves of what remained four fifths after a reduce order, half
      after an aggressive one and nothing after a flatten order. */
  lemma FilledOrderLeaves(g: Generator, p: Position, progress: Dict<real>)
    requires Generate(g, p, progress).Some? && 0.0 <= Progress(progress, p.assetId) <= 1.0 && p.quantity != 0.0
    ensures var done := Progress(progress, p.assetId);
            var done' := NewProgress(done, Abs(p.quantity), Generate(g, p, progress).value.quantity);
            1.0 - done' == Leaves(g) * (1.0 - done)
  {
    var done, total := Progress(progress, p.assetId), Abs(p.quantity);
    AmountIs(g, p, progress, total * (1.0 - done), 1.0 - Leaves(g));
    ShareDone(done, total, Leaves(g), Generate(g, p, progress).value.quantity);
  }

  lemma ShareDone(done: real, total: real, leaves: real, executed: real)
    requires 0.0 <= done <= 1.0 && total > 0.0 && 0.0 <= leaves <= 1.0
    requires executed == (1.0 - leaves) * (total * (1.0 - done))
    ensures 1.0 - NewProgress(done, total, executed) == leaves * (1.0 - done)
  {
    var done' := 1.0 - leaves * (1.0 - done);
    NonNegativeProduct(leaves, 1.0 - done);
    RegroupShare(done, total, leaves);
    QuotientIs(done * total + executed, total, done');
  }

  lemma RegroupShare(done: real, total: real, leaves: real)
    ensures done * total + (1.0 - leaves) * (total * (1.0 - done)) == (1.0 - leaves * (1.0 - done)) * total
  {
  }

  // ----- at what price -----

  /** What a limit gives up against the current price: a sell asks for less, a buy offers more. */
  function Concession(o: Order, price: real): real
    requires o.limitPrice.Some?
  {
    if o.side == Sell then price - o.limitPrice.value else o.limitPrice.value - price
  }

  /** Longs are sold and shorts bought back; reduce orders concede half a percent, aggressive
      ones one percent, and flatten orders are market orders. */
  lemma OrderTerms(g: Generator, p: Position, progress: Dict<real>)
    requires Generate(g, p, progress).Some?
    ensures var o := Generate(g, p, progress).value;
            && o.assetId == p.assetId && (o.side == Sell <==> p.quantity > 0.0)
            && (g == Flatten <==> o.limitPrice == None) && (g == Flatten <==> o.kind == Market)
            && (g == Reduce ==> Concession(o, p.currentPrice) == p.currentPrice * 0.005)
            && (g == Aggressive ==> Concession(o, p.currentPrice) == p.currentPrice * 0.01)
  {
  }

  /** Only an aggressive order above 100 units is an iceberg, and shows a tenth of itself. */
  lemma IcebergIff(g: Generator, p: Position, progress: Dict<real>)
    requires Generate(g, p, progress).Some?
    ensures var o := Generate(g, p, progress).value;
            && (o.kind == Iceberg <==> g == Aggressive && o.quantity > 100.0)
            && (o.kind == Iceberg ==> o.displayQty.Some? && 10.0 * o.displayQty.value == o.quantity)
            && (o.kind != Iceberg ==> o.displayQty == None)
  {
  }

  // ----- urgency -----

  /** A larger position, a worse result and less liquidity never make a position less urgent. */
  lemma UrgencyMonotonic(p: Position, q: Position)
    requires Abs(p.quantity) <= Abs(q.quantity)
    requires p.unrealizedPnl >= q.unrealizedPnl && p.liquidityScore >= q.liquidityScore
    ensures Urgency(p) <= Urgency(q)
  {
  }

  /** From none to full, size up to 1000 units counts 0.4, each loss of 10000 another 0.4, and
      illiquidity 0.2; size beyond 1000 units and gains count nothing more. */
  lemma UrgencyScale(p: Position, size: real, loss: real, liquidity: real)
    requires size >= 0.0 && Abs(p.quantity) == size && p.unrealizedPnl == -loss && p.liquidityScore == liquidity
    ensures Urgency(p) == (if size < 1000.0 then size / 2500.0 else 0.4) + (if loss > 0.0 then loss / 25000.0 else 0.0)
                          + (1.0 - liquidity) / 5.0
  {
  }
}

/** Whole runs of the volume bar aggregator. */
module VolumeBarRuns {
  // Ticks and takes in any order cut the stream of ticks into consecutive pieces, one for
  // each bar taken and one for the bar still open.

  import opened Sequences
  import Int64
  import opened VolumeBarModel

  datatype Op = OpTick(tick: Tick) | OpTake

  datatype Run = Run(agg: Aggregator, taken: seq<Bar>)

  function Continue(r: Run, op: Op, threshold: U64): Run {
    match op
    case OpTick(t) => r.(agg := ProcessTick(r.agg, t, threshold).0)
    case OpTake =>
      var (agg, bar) := TakeBar(r.agg);
      match bar
      case Some(b) => Run(agg, r.taken + [b])
      case None => Run(agg, r.taken)
  }

  function RunOf(ops: seq<Op>, threshold: U64): Run {
    if ops == [] then Run(NEW_AGGREGATOR, [])
    else Continue(RunOf(Init(ops), threshold), Last(ops), threshold)
  }

  function Ticks(ops: seq<Op>): seq<Tick> {
    if ops == [] then []
    else match Last(ops)
      case OpTick(t) => Ticks(Init(ops)) + [t]
      case OpTake => Ticks(Init(ops))
  }

  // ----- the specification: cutting the stream -----

  datatype Cut = Cut(pieces: seq<seq<Tick>>, open: seq<Tick>)

  ghost predicate Reached(ticks: seq<Tick>, threshold: U64) {
    exists n: nat :: n <= |ticks| && ReachedAt(ticks, threshold, n)
  }

  /** A take ends the open piece if its volume has stood at the threshold. */
  ghost function CutOf(ops: seq<Op>, threshold: U64): Cut {
    if ops == [] then Cut([], [])
    else
      var before := CutOf(Init(ops), threshold);
      match Last(ops)
      case OpTick(t) => before.(open := before.open + [t])
      case OpTake => if Reached(before.open, threshold) then Cut(before.pieces + [before.open], []) else before
  }

  function Join(pieces: seq<seq<Tick>>): seq<Tick> {
    if pieces == [] then [] else Join(Init(pieces)) + Last(pieces)
  }

  /** The ticks after which the volume stood at the threshold. */
  function Late(ticks: seq<Tick>, threshold: U64): nat {
    if ticks == [] then 0
    else Late(Init(ticks), threshold) + if Wrap(SumVolume(ticks)) >= threshold then 1 else 0
  }

  function LateInAll(pieces: seq<seq<Tick>>, threshold: U64): nat {
    if pieces == [] then 0 else LateInAll(Init(pieces), threshold) + Late(Last(pieces), threshold)
  }

  lemma {:induction false} CutJoins(ops: seq<Op>, threshold: U64)
    ensures var c := CutOf(ops, threshold); Join(c.pieces) + c.open == Ticks(ops)
  {
    if ops != [] {
      CutJoins(Init(ops), threshold);
      var before := CutOf(Init(ops), threshold);
      match Last(ops)
      case OpTick(t) =>
        assert Join(before.pieces) + (before.open + [t]) == Join(before.pieces) + before.open + [t];
      case OpTake =>
        assert Init(before.pieces + [before.open]) == before.pieces;
    }
  }

  lemma BarOfAppend(ticks: seq<Tick>, t: Tick, threshold: U64)
    ensures BarOf(ticks + [t], threshold) == AddTick(BarOf(ticks, threshold), t, threshold)
    ensures Late(ticks + [t], threshold) ==
            Late(ticks, threshold) + if BarOf(ticks + [t], threshold).volume >= threshold then 1 else 0
  {
    assert Init(ticks + [t]) == ticks;
    RegistersHoldSums(ticks + [t], threshold);
  }

  ghost predicate Follows(r: Run, c: Cut, threshold: U64) {
    && r.agg.bar == BarOf(c.open, threshold)
    && |r.taken| == |c.pieces|
    && (forall i :: 0 <= i < |r.taken| ==> r.taken[i] == BarOf(c.pieces[i], threshold))
    && r.agg.completed == Wrap(LateInAll(c.pieces, threshold) + Late(c.open, threshold))
  }

  lemma TickFollows(r: Run, c: Cut, t: Tick, threshold: U64)
    requires Follows(r, c, threshold)
    ensures Follows(r.(agg := ProcessTick(r.agg, t, threshold).0), c.(open := c.open + [t]), threshold)
  {
    BarOfAppend(c.open, t, threshold);
    var bar := BarOf(c.open + [t], threshold);
    TickGives(r.agg, t, threshold, bar);
    CountFollows(r.agg.completed, LateInAll(c.pieces, threshold), Late(c.open, threshold), bar.volume >= threshold);
  }

  lemma TickGives(a: Aggregator, t: Tick, threshold: U64, bar: Bar)
    requires bar == AddTick(a.bar, t, threshold)
    ensures ProcessTick(a, t, threshold).0 ==
            Aggregator(bar, if bar.volume >= threshold then Wrap(a.completed + 1) else a.completed)
  {
  }

  lemma CountFollows(completed: U64, earlier: nat, late: nat, more: bool)
    requires completed == Wrap(earlier + late)
    ensures (if more then Wrap(completed + 1) else completed) == Wrap(earlier + (late + if more then 1 else 0))
  {
    WrapAdd(earlier + late, 1);
  }

  lemma TakeFollows(r: Run, c: Cut, threshold: U64)
    requires Follows(r, c, threshold) && r.agg.bar.complete
    ensures Follows(Run(TakeBar(r.agg).0, r.taken + [r.agg.bar]), Cut(c.pieces + [c.open], []), threshold)
  {
    assert Init(c.pieces + [c.open]) == c.pieces;
  }

  /** In every run the open bar and each taken bar are the bars of the consecutive pieces of
      the tick stream, and the counter counts late ticks rather than bars. */
  lemma {:induction false} RunFollowsCut(ops: seq<Op>, threshold: U64)
    ensures Follows(RunOf(ops, threshold), CutOf(ops, threshold), threshold)
  {
    if ops != [] {
      RunFollowsCut(Init(ops), threshold);
      var r, c := RunOf(Init(ops), threshold), CutOf(Init(ops), threshold);
      match Last(ops)
      case OpTick(t) => TickFollows(r, c, t, threshold);
      case OpTake =>
        CompleteIff(c.open, threshold);
        if r.agg.bar.complete { TakeFollows(r, c, threshold); }
    }
  }

  // ----- conservation of volume -----

  function TakenVolume(bars: seq<Bar>): nat {
    if bars == [] then 0 else TakenVolume(Init(bars)) + Last(bars).volume
  }

  lemma {:induction false} SumVolumeAppend(a: seq<Tick>, b: seq<Tick>)
    ensures SumVolume(a + b) == SumVolume(a) + SumVolume(b)
  {
    if b == [] {
      assert a + b == a;
    } else {
      SumVolumeAppend(a, Init(b));
      assert Init(a + b) == a + Init(b);
    }
  }

  /** No bar of the run, taken or open, holds more volume than its register. */
  ghost predicate Fits(c: Cut) {
    SumVolume(c.open) < TWO64 && forall i :: 0 <= i < |c.pieces| ==> SumVolume(c.pieces[i]) < TWO64
  }

  // The registers lose nothing but multiples of their width, and that only by overflow.
  lemma PieceLoss(piece: seq<Tick>, threshold: U64) returns (k: nat)
    ensures SumVolume(piece) == BarOf(piece, threshold).volume + k * TWO64
    ensures k == 0 <==> SumVolume(piece) < TWO64
  {
    RegistersHoldSums(piece, threshold);
    k := SumVolume(piece) / TWO64;
  }

  lemma {:induction false} TakenLoss(bars: seq<Bar>, pieces: seq<seq<Tick>>, threshold: U64) returns (k: nat)
    requires |bars| == |pieces| && forall i :: 0 <= i < |bars| ==> bars[i] == BarOf(pieces[i], threshold)
    ensures SumVolume(Join(pieces)) == TakenVolume(bars) + k * TWO64
    ensures k == 0 <==> forall i :: 0 <= i < |pieces| ==> SumVolume(pieces[i]) < TWO64
  {
    if bars == [] {
      k := 0;
    } else {
      var before := TakenLoss(Init(bars), Init(pieces), threshold);
      var last := PieceLoss(Last(pieces), threshold);
      SumVolumeAppend(Join(Init(pieces)), Last(pieces));
      k := before + last;
    }
  }

  /** Volume is conserved: taken bars and the open bar add up to the ticks' volume, modulo
      the register width always, and exactly if and only if no single bar overflows, however
      long the run. */
  lemma VolumeConserved(ops: seq<Op>, threshold: U64)
    ensures var r := RunOf(ops, threshold);
            && Wrap(TakenVolume(r.taken) + r.agg.bar.volume) == Wrap(SumVolume(Ticks(ops)))
            && (TakenVolume(r.taken) + r.agg.bar.volume == SumVolume(Ticks(ops)) <==> Fits(CutOf(ops, threshold)))
  {
    var k := VolumeLoss(ops, threshold);
    var r := RunOf(ops, threshold);
    Int64.ModShift(TakenVolume(r.taken) + r.agg.bar.volume, k);
  }

  lemma VolumeLoss(ops: seq<Op>, threshold: U64) returns (k: nat)
    ensures var r := RunOf(ops, threshold);
            SumVolume(Ticks(ops)) == TakenVolume(r.taken) + r.agg.bar.volume + k * TWO64
    ensures k == 0 <==> Fits(CutOf(ops, threshold))
  {
    var r, c := RunOf(ops, threshold), CutOf(ops, threshold);
    RunFollowsCut(ops, threshold);
    CutJoins(ops, threshold);
    SumVolumeAppend(Join(c.pieces), c.open);
    var taken := TakenLoss(r.taken, c.pieces, threshold);
    var open := PieceLoss(c.open, threshold);
    k := taken + open;
  }

  // ----- taking every completed bar at once -----

  function Eager(ticks: seq<Tick>): seq<Op> {
    if ticks == [] then [] else Eager(Init(ticks)) + [OpTick(Last(ticks)), OpTake]
  }

  /** The last tick, and no earlier one, brought the volume register to the threshold.  If
      the volume fits 64 bits, that is true of the volume itself. */
  ghost predicate JustFinished(ticks: seq<Tick>, threshold: U64) {
    && ticks != [] && !Reached(Init(ticks), threshold) && Late(ticks, threshold) == 1
    && threshold <= Wrap(SumVolume(ticks))
    && (SumVolume(ticks) < TWO64 ==>
          threshold <= SumVolume(ticks) && (Init(ticks) != [] ==> SumVolume(Init(ticks)) < threshold))
  }

  lemma ReachedExtends(ticks: seq<Tick>, t: Tick, threshold: U64)
    ensures Reached(ticks + [t], threshold) <==> Reached(ticks, threshold) || Wrap(SumVolume(ticks + [t])) >= threshold
  {
    var all := ticks + [t];
    assert all[..|all|] == all;
    assert forall n: nat :: n <= |ticks| ==> all[..n] == ticks[..n];
    if Reached(ticks, threshold) {
      var n: nat :| n <= |ticks| && ReachedAt(ticks, threshold, n);
      assert ReachedAt(all, threshold, n);
    }
    if Wrap(SumVolume(all)) >= threshold {
      assert ReachedAt(all, threshold, |all|);
    }
    if Reached(all, threshold) {
      var n: nat :| n <= |all| && ReachedAt(all, threshold, n);
      if n <= |ticks| { assert ReachedAt(ticks, threshold, n); }
    }
  }

  lemma {:induction false} NotReachedNoneLate(ticks: seq<Tick>, threshold: U64)
    requires !Reached(ticks, threshold)
    ensures Late(ticks, threshold) == 0
  {
    if ticks != [] {
      assert ticks == Init(ticks) + [Last(ticks)];
      ReachedExtends(Init(ticks), Last(ticks), threshold);
      NotReachedNoneLate(Init(ticks), threshold);
    }
  }

  lemma NotReachedBelow(ticks: seq<Tick>, threshold: U64)
    requires ticks != [] && !Reached(ticks, threshold) && SumVolume(ticks) < TWO64
    ensures SumVolume(ticks) < threshold
  {
    assert ticks[..|ticks|] == ticks;
    assert !ReachedAt(ticks, threshold, |ticks|);
    WrapSmall(SumVolume(ticks));
  }

  lemma OneMoreTick(ticks: seq<Tick>, t: Tick, threshold: U64)
    requires !Reached(ticks, threshold) && Reached(ticks + [t], threshold)
    ensures JustFinished(ticks + [t], threshold)
  {
    assert Init(ticks + [t]) == ticks;
    ReachedExtends(ticks, t, threshold);
    NotReachedNoneLate(ticks, threshold);
    if SumVolume(ticks + [t]) < TWO64 {
      WrapSmall(SumVolume(ticks + [t]));
      if ticks != [] { NotReachedBelow(ticks, threshold); }
    }
  }

  lemma CutAfterEagerTick(ops: seq<Op>, t: Tick, threshold: U64)
    ensures var before := CutOf(ops, threshold);
            CutOf(ops + [OpTick(t), OpTake], threshold) ==
            if Reached(before.open + [t], threshold) then Cut(before.pieces + [before.open + [t]], [])
            else before.(open := before.open + [t])
  {
    var all := ops + [OpTick(t), OpTake];
    assert Init(all) == ops + [OpTick(t)];
    assert Init(ops + [OpTick(t)]) == ops;
  }

  lemma {:induction false} EagerCut(ticks: seq<Tick>, threshold: U64)
    ensures var c := CutOf(Eager(ticks), threshold);
            && !Reached(c.open, threshold)
            && forall i :: 0 <= i < |c.pieces| ==> JustFinished(c.pieces[i], threshold)
  {
    if ticks != [] {
      EagerCut(Init(ticks), threshold);
      var before := CutOf(Eager(Init(ticks)), threshold);
      CutAfterEagerTick(Eager(Init(ticks)), Last(ticks), threshold);
      if Reached(before.open + [Last(ticks)], threshold) { OneMoreTick(before.open, Last(ticks), threshold); }
    }
  }

  lemma {:induction false} OneLateEach(pieces: seq<seq<Tick>>, threshold: U64)
    requires forall i :: 0 <= i < |pieces| ==> JustFinished(pieces[i], threshold)
    ensures LateInAll(pieces, threshold) == |pieces|
  {
    if pieces != [] { OneLateEach(Init(pieces), threshold); }
  }

  /** If every bar is taken as soon as it is complete, each taken bar stood below the
      threshold before its last tick and at the threshold after it, the open bar has never
      stood there, and the counter is the number of bars taken. */
  lemma EagerBars(ticks: seq<Tick>, threshold: U64)
    ensures var r, c := RunOf(Eager(ticks), threshold), CutOf(Eager(ticks), threshold);
            && Join(c.pieces) + c.open == ticks
            && |r.taken| == |c.pieces| && r.agg.completed == Wrap(|r.taken|)
            && (forall i :: 0 <= i < |r.taken| ==>
                  JustFinished(c.pieces[i], threshold) && r.taken[i] == BarOf(c.pieces[i], threshold))
            && r.agg.bar == BarOf(c.open, threshold) && !r.agg.bar.complete
  {
    CutJoins(Eager(ticks), threshold);
    EagerTicks(ticks);
    EagerCut(ticks, threshold);
    RunFollowsCut(Eager(ticks), threshold);
    BarsOfCut(RunOf(Eager(ticks), threshold), CutOf(Eager(ticks), threshold), threshold);
  }

  lemma BarsOfCut(r: Run, c: Cut, threshold: U64)
    requires Follows(r, c, threshold) && !Reached(c.open, threshold)
    requires forall i :: 0 <= i < |c.pieces| ==> JustFinished(c.pieces[i], threshold)
    ensures r.agg.completed == Wrap(|r.taken|) && !r.agg.bar.complete
  {
    OneLateEach(c.pieces, threshold);
    NotReachedNoneLate(c.open, threshold);
    CompleteIff(c.open, threshold);
  }

  lemma {:induction false} EagerTicks(ticks: seq<Tick>)
    ensures Ticks(Eager(ticks)) == ticks
  {
    if ticks != [] {
      EagerTicks(Init(ticks));
      var before, all := Eager(Init(ticks)), Eager(ticks);
      assert Init(all) == before + [OpTick(Last(ticks))];
      assert Init(before + [OpTick(Last(ticks))]) == before;
    }
  }

  /** Volumes too small to carry an unfinished bar past the register in one tick. */
  ghost predicate Modest(ticks: seq<Tick>, threshold: U64) {
    forall i :: 0 <= i < |ticks| ==> ticks[i].volume + threshold <= TWO64
  }

  /** With modest volumes no bar overflows, so the registers hold the volumes themselves. */
  lemma {:induction false} EagerBarsFit(ticks: seq<Tick>, threshold: U64)
    requires Modest(ticks, threshold)
    ensures var c := CutOf(Eager(ticks), threshold);
            && (c.open == [] || SumVolume(c.open) < threshold)
            && forall i :: 0 <= i < |c.pieces| ==> SumVolume(c.pieces[i]) < TWO64
  {
    if ticks != [] {
      EagerBarsFit(Init(ticks), threshold);
      CutAfterEagerTick(Eager(Init(ticks)), Last(ticks), threshold);
      OpenFits(CutOf(Eager(Init(ticks)), threshold).open, Last(ticks), threshold);
    }
  }

  lemma OpenFits(open: seq<Tick>, t: Tick, threshold: U64)
    requires (open == [] || SumVolume(open) < threshold) && t.volume + threshold <= TWO64
    ensures SumVolume(open + [t]) < TWO64
    ensures !Reached(open + [t], threshold) ==> SumVolume(open + [t]) < threshold
  {
    assert Init(open + [t]) == open;
    if !Reached(open + [t], threshold) { NotReachedBelow(open + [t], threshold); }
  }

  // ----- when the counter counts bars -----

  /** The next operation is a tick that meets a complete bar and is counted all the same. */
  predicate CountedAgain(r: Run, op: Op, threshold: U64) {
    op.OpTick? && r.agg.bar.complete && Continue(r, op, threshold).agg.bar.volume >= threshold
  }

  function Extra(ops: seq<Op>, threshold: U64): nat {
    if ops == [] then 0
    else
      Extra(Init(ops), threshold) + if CountedAgain(RunOf(Init(ops), threshold), Last(ops), threshold) then 1 else 0
  }

  /** The bars finished so far: those taken, and the open one if it is complete. */
  function Finished(r: Run): nat {
    |r.taken| + if r.agg.bar.complete then 1 else 0
  }

  lemma CountsOne(r: Run, op: Op, threshold: U64, extra: nat)
    requires r.agg.completed == Finished(r) + extra < TWO64 - 1
    ensures var r' := Continue(r, op, threshold);
            r'.agg.completed == Finished(r') + extra + if CountedAgain(r, op, threshold) then 1 else 0
    ensures r.agg.completed <= Continue(r, op, threshold).agg.completed <= r.agg.completed + 1
  {
    WrapSmall(r.agg.completed + 1);
  }

  /** The counter exceeds the number of bars by the ticks that were counted again, whether
      or not volumes overflow. */
  lemma {:induction false} CountedTwice(ops: seq<Op>, threshold: U64)
    requires |ops| < TWO64
    ensures var r := RunOf(ops, threshold);
            r.agg.completed == Finished(r) + Extra(ops, threshold) <= |ops|
  {
    if ops != [] {
      CountedTwice(Init(ops), threshold);
      CountsOne(RunOf(Init(ops), threshold), Last(ops), threshold, Extra(Init(ops), threshold));
    }
  }

  predicate NoneCountedAgain(ops: seq<Op>, threshold: U64) {
    forall i :: 0 <= i < |ops| ==> !CountedAgain(RunOf(ops[..i], threshold), ops[i], threshold)
  }

  lemma {:induction false} NoExtra(ops: seq<Op>, threshold: U64)
    ensures Extra(ops, threshold) == 0 <==> NoneCountedAgain(ops, threshold)
  {
    if ops != [] {
      NoExtra(Init(ops), threshold);
      PrefixesOfInit(ops);
    }
  }

  lemma PrefixesOfInit(ops: seq<Op>)
    requires ops != []
    ensures forall i :: 0 <= i < |ops| - 1 ==> ops[..i] == Init(ops)[..i] && ops[i] == Init(ops)[i]
    ensures ops[..|ops| - 1] == Init(ops)
  {
  }

  /** The counter is the number of finished bars exactly when no tick that meets a complete
      bar leaves the volume register at the threshold. */
  lemma CountsBarsIff(ops: seq<Op>, threshold: U64)
    requires |ops| < TWO64
    ensures var r := RunOf(ops, threshold);
            r.agg.completed == Finished(r) <==> NoneCountedAgain(ops, threshold)
  {
    CountedTwice(ops, threshold);
    NoExtra(ops, threshold);
  }

  /** No tick is sent between the one that completes a bar and its take. */
  predicate TakenInTime(ops: seq<Op>, threshold: U64) {
    forall i :: 0 <= i < |ops| && ops[i].OpTick? ==> !RunOf(ops[..i], threshold).agg.bar.complete
  }

  lemma FitsBefore(ops: seq<Op>, threshold: U64)
    requires ops != [] && Fits(CutOf(ops, threshold))
    ensures Fits(CutOf(Init(ops), threshold))
    ensures Last(ops).OpTick? ==> SumVolume(CutOf(Init(ops), threshold).open) + Last(ops).tick.volume < TWO64
  {
    var before, after := CutOf(Init(ops), threshold), CutOf(ops, threshold);
    match Last(ops)
    case OpTick(t) =>
      assert Init(before.open + [t]) == before.open;
    case OpTake =>
      assert forall i :: 0 <= i < |before.pieces| ==> after.pieces[i] == before.pieces[i];
      if Reached(before.open, threshold) { assert after.pieces[|before.pieces|] == before.open; }
  }

  // The register of a bar that fits only grows, so a complete bar stays at the threshold.
  lemma {:induction false} CompleteStays(ops: seq<Op>, threshold: U64)
    requires Fits(CutOf(ops, threshold))
    ensures var bar := RunOf(ops, threshold).agg.bar; bar.complete ==> threshold <= bar.volume
  {
    if ops != [] {
      FitsBefore(ops, threshold);
      CompleteStays(Init(ops), threshold);
      if Last(ops).OpTick? { RegisterFits(ops, threshold); }
    }
  }

  lemma RegisterFits(ops: seq<Op>, threshold: U64)
    requires ops != [] && Last(ops).OpTick? && Fits(CutOf(ops, threshold))
    ensures var before := RunOf(Init(ops), threshold).agg.bar;
            RunOf(ops, threshold).agg.bar.volume == before.volume + Last(ops).tick.volume
  {
    FitsBefore(ops, threshold);
    RegisterIsSum(Init(ops), threshold);
    WrapSmall(SumVolume(CutOf(Init(ops), threshold).open) + Last(ops).tick.volume);
  }

  lemma RegisterIsSum(ops: seq<Op>, threshold: U64)
    requires Fits(CutOf(ops, threshold))
    ensures RunOf(ops, threshold).agg.bar.volume == SumVolume(CutOf(ops, threshold).open)
  {
    RunFollowsCut(ops, threshold);
    RegistersHoldSums(CutOf(ops, threshold).open, threshold);
    WrapSmall(SumVolume(CutOf(ops, threshold).open));
  }

  lemma LastCountedAgain(ops: seq<Op>, threshold: U64)
    requires ops != [] && Fits(CutOf(ops, threshold))
    ensures CountedAgain(RunOf(Init(ops), threshold), Last(ops), threshold) <==>
            Last(ops).OpTick? && RunOf(Init(ops), threshold).agg.bar.complete
  {
    FitsBefore(ops, threshold);
    CompleteStays(Init(ops), threshold);
    if Last(ops).OpTick? { RegisterFits(ops, threshold); }
  }

  lemma {:induction false} AgainIsOverdue(ops: seq<Op>, threshold: U64)
    requires Fits(CutOf(ops, threshold))
    ensures NoneCountedAgain(ops, threshold) <==> TakenInTime(ops, threshold)
  {
    if ops != [] {
      FitsBefore(ops, threshold);
      AgainIsOverdue(Init(ops), threshold);
      LastCountedAgain(ops, threshold);
      PrefixesOfInit(ops);
    }
  }

  /** While no single bar overflows, that is exactly when every completed bar was taken
      before the next tick. */
  lemma CountsBarsIffTakenInTime(ops: seq<Op>, threshold: U64)
    requires Fits(CutOf(ops, threshold)) && |ops| < TWO64
    ensures var r := RunOf(ops, threshold);
            r.agg.completed == Finished(r) <==> TakenInTime(ops, threshold)
  {
    CountsBarsIff(ops, threshold);
    AgainIsOverdue(ops, threshold);
  }

  /** Left untaken, one bar is counted once for every further tick. */
  lemma CountsTicksNotBars(t: Tick, u: Tick, threshold: U64)
    requires threshold <= t.volume && t.volume + u.volume < TWO64
    ensures var r := RunOf([OpTick(t), OpTick(u), OpTake, OpTake], threshold);
            |r.taken| == 1 && r.agg.completed == 2
  {
    var one := RunOfAppend([], OpTick(t), threshold);
    WrapSmall(t.volume);
    assert [] + [OpTick(t)] == [OpTick(t)];
    assert one.agg.bar.volume == t.volume && one.agg.completed == 1 && one.taken == [] && one.agg.bar.complete;
    var two := RunOfAppend([OpTick(t)], OpTick(u), threshold);
    TwoTicks(one, u, threshold);
    assert [OpTick(t)] + [OpTick(u)] == [OpTick(t), OpTick(u)];
    var three := RunOfAppend([OpTick(t), OpTick(u)], OpTake, threshold);
    assert [OpTick(t), OpTick(u)] + [OpTake] == [OpTick(t), OpTick(u), OpTake];
    var four := RunOfAppend([OpTick(t), OpTick(u), OpTake], OpTake, threshold);
    assert [OpTick(t), OpTick(u), OpTake] + [OpTake] == [OpTick(t), OpTick(u), OpTake, OpTake];
  }

  lemma RunOfAppend(ops: seq<Op>, op: Op, threshold: U64) returns (r: Run)
    ensures r == RunOf(ops + [op], threshold) == Continue(RunOf(ops, threshold), op, threshold)
  {
    assert Init(ops + [op]) == ops;
    r := RunOf(ops + [op], threshold);
  }

  lemma TwoTicks(r: Run, u: Tick, threshold: U64)
    requires r.agg.completed == 1 && r.agg.bar.complete && threshold <= r.agg.bar.volume
    requires r.agg.bar.volume + u.volume < TWO64
    ensures var r' := Continue(r, OpTick(u), threshold);
            r'.agg.completed == 2 && r'.agg.bar.complete && r'.taken == r.taken
  {
    WrapSmall(r.agg.bar.volume + u.volume);
  }
}

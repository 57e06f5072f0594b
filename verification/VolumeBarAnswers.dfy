/** What the aggregator answers to each tick, and a caller that goes by it. */
module VolumeBarAnswers {
  import opened Sequences
  import opened VolumeBarModel
  import opened VolumeBarRuns

  /** After any run, a tick is answered with true exactly when it leaves the volume of the
      open piece, as far as 64 bits hold it, at the threshold or above. */
  lemma AnswerIff(ops: seq<Op>, t: Tick, threshold: U64)
    ensures ProcessTick(RunOf(ops, threshold).agg, t, threshold).1 <==>
            Wrap(SumVolume(CutOf(ops, threshold).open + [t])) >= threshold
  {
    var open := CutOf(ops, threshold).open;
    RunFollowsCut(ops, threshold);
    BarOfAppend(open, t, threshold);
    RegistersHoldSums(open + [t], threshold);
  }

  /** A caller that takes the bar when, and only when, it is told that it is complete. */
  function Obedient(ticks: seq<Tick>, threshold: U64): Run {
    if ticks == [] then Run(NEW_AGGREGATOR, [])
    else
      var before := Obedient(Init(ticks), threshold);
      var (agg, told) := ProcessTick(before.agg, Last(ticks), threshold);
      if told then Continue(before.(agg := agg), OpTake, threshold) else before.(agg := agg)
  }

  lemma EagerUnfolds(ticks: seq<Tick>, threshold: U64)
    requires ticks != []
    ensures var ticked := Continue(RunOf(Eager(Init(ticks)), threshold), OpTick(Last(ticks)), threshold);
            RunOf(Eager(ticks), threshold) == Continue(ticked, OpTake, threshold)
  {
    var before, all := Eager(Init(ticks)), Eager(ticks);
    assert Init(all) == before + [OpTick(Last(ticks))];
    assert Init(before + [OpTick(Last(ticks))]) == before;
  }

  // From an incomplete bar, a take does something exactly if the tick before it said so.
  lemma TakeIfTold(r: Run, t: Tick, threshold: U64)
    requires !r.agg.bar.complete
    ensures var (agg, told) := ProcessTick(r.agg, t, threshold);
            var ticked := Continue(r, OpTick(t), threshold);
            && ticked == r.(agg := agg)
            && (!told ==> Continue(ticked, OpTake, threshold) == ticked)
  {
  }

  /** It gets the same bars, and the same counter, as a caller that tries after every tick. */
  lemma {:induction false} ObedienceSuffices(ticks: seq<Tick>, threshold: U64)
    ensures Obedient(ticks, threshold) == RunOf(Eager(ticks), threshold)
  {
    if ticks != [] {
      ObedienceSuffices(Init(ticks), threshold);
      EagerBars(Init(ticks), threshold);
      EagerUnfolds(ticks, threshold);
      TakeIfTold(Obedient(Init(ticks), threshold), Last(ticks), threshold);
    }
  }

  /** So the bars it takes are those that ended with the tick it was told about, and the bar
      it leaves open was never complete. */
  lemma ObedientBars(ticks: seq<Tick>, threshold: U64)
    ensures var r, c := Obedient(ticks, threshold), CutOf(Eager(ticks), threshold);
            && Join(c.pieces) + c.open == ticks && |r.taken| == |c.pieces|
            && (forall i :: 0 <= i < |r.taken| ==>
                  JustFinished(c.pieces[i], threshold) && r.taken[i] == BarOf(c.pieces[i], threshold))
            && r.agg.completed == Wrap(|r.taken|) && !r.agg.bar.complete
  {
    ObedienceSuffices(ticks, threshold);
    EagerBars(ticks, threshold);
  }
}

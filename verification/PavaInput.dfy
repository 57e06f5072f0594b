/** When the correction is a least-squares projection, told from the input alone. */
module PavaInput {
  import opened Reals
  import opened PavaModel
  import opened PavaProofs
  import opened PavaOptimality

  // The loop always pools a value with the smaller ones that follow it, so its blocks can
  // only start at values that no earlier one exceeds.  A true projection may also have to
  // start a block elsewhere; the input says where.

  /** No earlier value exceeds the k-th one; the end of the sequence counts as well. */
  predicate Record(values: seq<real>, k: nat)
    requires k <= |values|
  {
    k == |values| || forall j :: 0 <= j < k ==> values[j] <= values[k]
  }

  /** Some stretch before k has at least the mean of some stretch from k on. */
  ghost predicate Joined(values: seq<real>, k: nat)
    requires k <= |values|
  {
    exists a: nat, b: nat :: a < k < b <= |values| && Mean(values[a..k]) >= Mean(values[k..b])
  }

  /** Every value that some earlier one exceeds is joined to what precedes it. */
  ghost predicate DropsJoined(values: seq<real>) {
    forall k :: 0 < k < |values| && !Record(values, k) ==> Joined(values, k)
  }

  // ----- absorbing a block only lowers what is there -----

  lemma {:induction false} AbsorbLowers(done: seq<real>, avg: real, m: nat)
    requires Sorted(done)
    ensures forall i :: 0 <= i < |done| ==> Absorb(done, avg, m)[i] <= done[i]
    decreases |done|
  {
    if done != [] && done[|done| - 1] > avg {
      var done', x := done[..|done| - 1], done[|done| - 1];
      BlendBelow(avg, m, x);
      AbsorbLowers(done', Blend(avg, m, x), m + 1);
      AbsorbSorted(done', Blend(avg, m, x), m + 1, x);
    }
  }

  lemma {:induction false} SumMonotonic(s: seq<real>, t: seq<real>)
    requires |s| == |t| && forall i :: 0 <= i < |s| ==> s[i] <= t[i]
    ensures Sum(s) <= Sum(t)
  {
    if s != [] {
      SumMonotonic(s[..|s| - 1], t[..|t| - 1]);
    }
  }

  lemma AbsorbLowersSum(done: seq<real>, avg: real, m: nat, k: nat)
    requires Sorted(done) && k <= |done|
    ensures Sum(Absorb(done, avg, m)[..k]) <= Sum(done[..k])
  {
    AbsorbLowers(done, avg, m);
    SumMonotonic(Absorb(done, avg, m)[..k], done[..k]);
  }

  /** The result of absorbing has no boundary that was not one before, and none inside the
      new block. */
  lemma {:induction false} AbsorbBoundary(done: seq<real>, avg: real, m: nat, k: nat)
    requires m > 0 && 0 < k < |done| + m && Boundary(Absorb(done, avg, m), k)
    ensures k <= |done|
    ensures if k < |done| then Boundary(done, k) else done[k - 1] <= avg
    decreases |done|
  {
    if done != [] && done[|done| - 1] > avg {
      var done', x := done[..|done| - 1], done[|done| - 1];
      BlendBelow(avg, m, x);
      AbsorbBoundary(done', Blend(avg, m, x), m + 1, k);
    }
  }

  // ----- blocks start at records, and there no prefix is exceeded -----

  ghost predicate StartsAtRecords(out: seq<real>, values: seq<real>) {
    && |out| == |values|
    && forall k :: 0 < k < |out| && Boundary(out, k) ==> Record(values, k)
  }

  ghost predicate RecordsDominated(out: seq<real>, values: seq<real>) {
    && |out| == |values|
    && forall k :: 0 <= k <= |out| && Record(values, k) ==> Sum(out[..k]) <= Sum(values[..k])
  }

  // The block [v] + rest begins with a record and has no other.
  ghost predicate NextBlock(values: seq<real>, block: seq<real>) {
    && block != [] && Under(values, block[0])
    && forall i :: 0 < i < |block| ==> block[i] < block[0]
  }

  lemma RecordOfLonger(values: seq<real>, block: seq<real>, k: nat)
    requires NextBlock(values, block) && k < |values| + |block|
    ensures Record(values + block, k) <==> k <= |values| && Record(values, k)
  {
    var all := values + block;
    if k < |values| {
      assert forall j :: 0 <= j <= k ==> all[j] == values[j];
    } else {
      assert all[|values|] == block[0];
    }
  }

  lemma BlockStartsAtRecords(done: seq<real>, avg: real, values: seq<real>, block: seq<real>)
    requires NextBlock(values, block) && StartsAtRecords(done, values)
    ensures StartsAtRecords(Absorb(done, avg, |block|), values + block)
  {
    var out := Absorb(done, avg, |block|);
    forall k | 0 < k < |out| && Boundary(out, k) ensures Record(values + block, k) {
      AbsorbBoundary(done, avg, |block|, k);
      RecordOfLonger(values, block, k);
    }
  }

  lemma BlockDominated(done: seq<real>, avg: real, values: seq<real>, block: seq<real>)
    requires NextBlock(values, block) && RecordsDominated(done, values) && Sorted(done)
    requires Balanced(Absorb(done, avg, |block|), values + block)
    ensures RecordsDominated(Absorb(done, avg, |block|), values + block)
  {
    var out, all := Absorb(done, avg, |block|), values + block;
    forall k | 0 <= k <= |out| && Record(all, k) ensures Sum(out[..k]) <= Sum(all[..k]) {
      if k == |out| {
        assert Boundary(out, k);
      } else {
        RecordOfLonger(values, block, k);
        AbsorbLowersSum(done, avg, |block|, k);
        assert all[..k] == values[..k];
      }
    }
  }

  ghost predicate Pooling(done: seq<real>, values: seq<real>) {
    Sorted(done) && Balanced(done, values) && StartsAtRecords(done, values) && RecordsDominated(done, values)
  }

  lemma BlockPooling(done: seq<real>, values: seq<real>, block: seq<real>)
    requires NextBlock(values, block) && Pooling(done, values) && Under(done, block[0])
    ensures var out := Absorb(done, Mean(block), |block|);
            Pooling(out, values + block) && Under(out, block[0])
  {
    assert block == [block[0]] + block[1..];
    BlockMean(block[0], block[1..]);
    AbsorbSorted(done, Mean(block), |block|, block[0]);
    BlockBalanced(done, block, values);
    BlockStartsAtRecords(done, Mean(block), values, block);
    BlockDominated(done, Mean(block), values, block);
  }

  lemma FirstBlock(rest: seq<real>, m: nat, values: seq<real>)
    requires rest != [] && m == 1 + CountBelow(rest[1..], rest[0]) && Under(values, rest[0])
    ensures NextBlock(values, rest[..m]) && Under(values + rest[..m], rest[0])
    ensures m < |rest| ==> rest[0] <= rest[m]
  {
    assert forall i :: 0 < i < |rest| ==> rest[1..][i - 1] == rest[i];
  }

  lemma UnderHigher(s: seq<real>, low: real, high: real)
    requires Under(s, low) && low <= high
    ensures Under(s, high)
  {
  }

  lemma {:induction false} PoolPooling(done: seq<real>, rest: seq<real>, values: seq<real>)
    requires Pooling(done, values) && (rest != [] ==> Under(done, rest[0]) && Under(values, rest[0]))
    ensures Pooling(Pool(done, rest), values + rest)
    decreases |rest|
  {
    if rest == [] {
      assert values + rest == values;
    } else {
      var m := 1 + CountBelow(rest[1..], rest[0]);
      var block, rest' := rest[..m], rest[m..];
      FirstBlock(rest, m, values);
      BlockPooling(done, values, block);
      if rest' != [] {
        UnderHigher(Absorb(done, Mean(block), m), rest[0], rest'[0]);
        UnderHigher(values + block, rest[0], rest'[0]);
      }
      PoolPooling(Absorb(done, Mean(block), m), rest', values + block);
      assert rest == block + rest';
      Regroup(values, block, rest');
    }
  }

  lemma PavaPooling(values: seq<real>)
    ensures Pooling(Pava(values), values)
  {
    PoolPooling([], values, []);
    assert [] + values == values;
  }

  // ----- from the input to the prefix sums and back -----

  // A mean compared with a bound c of a sequence t whose sum lies on the other side.
  lemma MeanAtMost(s: seq<real>, t: seq<real>, c: real)
    requires |s| == |t| > 0 && Sum(s) <= Sum(t) && forall i :: 0 <= i < |t| ==> t[i] <= c
    ensures Mean(s) <= c && (Sum(s) < Sum(t) ==> Mean(s) < c)
  {
    SumAtMost(t, c);
    QuotientAtMost(Sum(s), |s| as real, c, Sum(t));
  }

  lemma QuotientAtMost(a: real, d: real, c: real, b: real)
    requires d > 0.0 && a <= b <= c * d
    ensures a / d <= c && (a < b ==> a / d < c)
  {
    QuotientBelow(a, d, c);
    if a == c * d { QuotientIs(a, d, c); }
  }

  lemma MeanAtLeast(s: seq<real>, t: seq<real>, c: real)
    requires |s| == |t| > 0 && Sum(s) >= Sum(t) && forall i :: 0 <= i < |t| ==> t[i] >= c
    ensures Mean(s) >= c
  {
    SumAtLeast(t, c);
    QuotientBelow(Sum(s), |s| as real, c);
  }

  lemma FirstLowest(out: seq<real>, values: seq<real>, k0: nat) returns (k: nat)
    requires |out| == |values| && k0 <= |out|
    ensures k <= |out| && Lead(out, values, k) <= Lead(out, values, k0)
    ensures forall i :: 0 <= i < k ==> Lead(out, values, k) < Lead(out, values, i)
    ensures forall i :: k <= i <= |out| ==> Lead(out, values, k) <= Lead(out, values, i)
  {
    k := 0;
    for n := 1 to |out| + 1
      invariant k < n
      invariant forall i :: 0 <= i < k ==> Lead(out, values, k) < Lead(out, values, i)
      invariant forall i :: k <= i < n ==> Lead(out, values, k) <= Lead(out, values, i)
    {
      if Lead(out, values, n) < Lead(out, values, k) { k := n; }
    }
  }

  lemma LeadOfSlice(out: seq<real>, values: seq<real>, a: nat, b: nat)
    requires |out| == |values| && a <= b <= |out|
    ensures Lead(out, values, b) - Lead(out, values, a) == Sum(values[a..b]) - Sum(out[a..b])
  {
    LeadIsDifference(out, values, a);
    LeadIsDifference(out, values, b);
    SumSlice(out, a, b);
    SumSlice(values, a, b);
  }

  // At a lowest point of the lead inside a run, everything before k has a lower mean than
  // everything after it.
  lemma LowestSeparates(out: seq<real>, values: seq<real>, a: nat, k: nat, b: nat)
    requires |out| == |values| && Sorted(out) && a < k < b <= |out| && out[k - 1] == out[k]
    requires Lead(out, values, k) < Lead(out, values, a) && Lead(out, values, k) <= Lead(out, values, b)
    ensures Mean(values[a..k]) < Mean(values[k..b])
  {
    LeadOfSlice(out, values, a, k);
    LeadOfSlice(out, values, k, b);
    MeanAtMost(values[a..k], out[a..k], out[k]);
    MeanAtLeast(values[k..b], out[k..b], out[k]);
  }

  lemma DropsJoinedDominates(out: seq<real>, values: seq<real>)
    requires Pooling(out, values) && DropsJoined(values)
    ensures PrefixesDominated(out, values)
  {
    forall k0 | 0 <= k0 <= |values| ensures Sum(out[..k0]) <= Sum(values[..k0]) {
      var k := FirstLowest(out, values, k0);
      LeadIsDifference(out, values, k);
      LeadIsDifference(out, values, k0);
      if Lead(out, values, k) < 0.0 {
        assert !Boundary(out, k) && !Record(values, k);
        var a: nat, b: nat :| a < k < b <= |values| && Mean(values[a..k]) >= Mean(values[k..b]);
        LowestSeparates(out, values, a, k, b);
      }
    }
  }

  lemma LeadsOfRun(out: seq<real>, values: seq<real>, a: nat, k: nat, b: nat)
    requires Balanced(out, values) && PrefixesDominated(out, values)
    requires MaximalRun(out, a, b) && a < k < b
    ensures Lead(out, values, a) == Lead(out, values, b) == 0.0 <= Lead(out, values, k)
  {
    LeadIsDifference(out, values, a);
    LeadIsDifference(out, values, k);
    LeadIsDifference(out, values, b);
  }

  // Inside a run of a dominated result, the part before k has at least the mean of the rest.
  lemma RunJoins(out: seq<real>, values: seq<real>, a: nat, k: nat, b: nat)
    requires Balanced(out, values) && PrefixesDominated(out, values)
    requires MaximalRun(out, a, b) && a < k < b
    ensures Mean(values[a..k]) >= Mean(values[k..b])
  {
    LeadsOfRun(out, values, a, k, b);
    LeadOfSlice(out, values, a, k);
    LeadOfSlice(out, values, k, b);
    MeanAtLeast(values[a..k], out[a..k], out[a]);
    MeanAtMost(values[k..b], out[k..b], out[a]);
  }

  lemma DominatedJoins(out: seq<real>, values: seq<real>)
    requires Pooling(out, values) && PrefixesDominated(out, values)
    ensures DropsJoined(values)
  {
    forall k | 0 < k < |values| && !Record(values, k) ensures Joined(values, k) {
      assert !Boundary(out, k);
      var a, b := RunAround(out, k, k, k + 1);
      assert a != k;
      RunJoins(out, values, a, k, b);
    }
  }

  /** The documented claim holds exactly for the inputs in which every value that some
      earlier one exceeds is joined: a stretch ending just before it has at least the mean
      of a stretch starting with it. */
  lemma NearestIffDropsJoined(values: seq<real>)
    ensures Nearest(Pava(values), values) <==> DropsJoined(values)
  {
    var out := Pava(values);
    PavaPooling(values);
    NearestIffPrefixesDominated(values);
    if DropsJoined(values) { DropsJoinedDominates(out, values); }
    if PrefixesDominated(out, values) { DominatedJoins(out, values); }
  }
}

/** The isotonic correction as it runs: an index that steps back after each in-place
    merge, and the batch loop around it. */
module Pava {
  import opened Reals
  import opened PavaModel
  import opened PavaProofs
  import opened PavaChecks

  /** The mean of a stretch of an array. */
  method MeanOf(a: array<real>, lo: nat, hi: nat) returns (mean: real)
    requires lo < hi <= a.Length
    ensures mean == Mean(a[lo..hi])
  {
    var total := 0.0;
    for k := lo to hi
      invariant total == Sum(a[lo..k])
    {
      total := total + a[k];
      assert a[lo..k + 1][..k - lo] == a[lo..k];
    }
    mean := total / (hi - lo) as real;
  }

  /** One round: average the values from i up to the first one not below result[i]. */
  method MergeAt(result: array<real>, i: nat)
    requires i + 1 < result.Length && result[i] > result[i + 1]
    modifies result
    ensures result[..] == Merge(old(result[..i]), old(result[i]), old(result[i + 1..]))
  {
    ghost var s := result[..];
    var n, j := result.Length, i + 1;
    while j < n && result[i] > result[j]
      invariant i + 1 <= j <= n
      invariant forall k :: i < k < j ==> result[k] < result[i]
    {
      j := j + 1;
    }
    var avg := MeanOf(result, i, j);
    assert result[i..j] == s[i..j];
    for k := i to j
      invariant forall t :: 0 <= t < n ==> result[t] == if i <= t < k then avg else s[t]
    {
      result[k] := avg;
    }
    MergeIs(s, i, j);
    StretchReplaced(s, result[..], i, j, avg);
  }

  lemma StretchReplaced(s: seq<real>, t: seq<real>, i: nat, j: nat, x: real)
    requires i <= j <= |s| == |t| && forall k :: 0 <= k < |s| ==> t[k] == if i <= k < j then x else s[k]
    ensures t == (s[..i] + Repeat(x, j - i)) + s[j..]
  {
  }

  lemma MergeIs(s: seq<real>, i: nat, j: nat)
    requires i < j <= |s| && (forall k :: i < k < j ==> s[k] < s[i]) && (j < |s| ==> s[i] <= s[j])
    ensures Merge(s[..i], s[i], s[i + 1..]) == (s[..i] + Repeat(Mean(s[i..j]), j - i)) + s[j..]
  {
    CountBelowIs(s[i + 1..], s[i], j - i - 1);
    BlockAt(s, i, j - i);
  }

  ghost function Interior(n: nat): (c: set<nat>)
    ensures forall k :: k in c <==> 0 < k < n
  {
    if n <= 1 then {} else Interior(n - 1) + {n - 1}
  }

  // Where index i stands in the termination argument: a pair (i, i + 1) that is a violation
  // inside one block of pooled values still has i + 1 steps back to go.
  ghost function Pending(s: seq<real>, i: nat, cuts: set<nat>): nat {
    if i + 1 < |s| && s[i] > s[i + 1] && i + 1 !in cuts then i + 1 else 0
  }

  /** Every position that is not a cut lies inside a block of equal values, save for the
      violation the loop has just opened at i. */
  ghost predicate CutsSeparate(s: seq<real>, i: nat, cuts: set<nat>) {
    forall k :: 0 < k < |s| && k !in cuts ==> s[k - 1] == s[k] || (k == i + 1 && s[i] > s[i + 1])
  }

  ghost function CutsAfter(cuts: set<nat>, i: nat, m: nat): set<nat> {
    set k | k in cuts && (k <= i || k >= i + m)
  }

  // The loop's state: the prefix up to i is in order, and pooling gives what it gave at first.
  ghost predicate OnTrack(s: seq<real>, goal: seq<real>, i: nat, cuts: set<nat>) {
    && |s| == |goal| && (i < |s| || i == |s| == 0)
    && Sorted(s[..if s == [] then 0 else i + 1])
    && PavaModel.Pava(s) == goal
    && CutsSeparate(s, i, cuts)
  }

  method CorrectSequence(values: array<real>) returns (result: array<real>)
    ensures fresh(result) && result.Length == values.Length
    ensures result[..] == PavaModel.Pava(values[..])
  {
    var n := values.Length;
    result := new real[n](k requires 0 <= k < n reads values => values[k]);
    assert result[..] == values[..];
    ghost var s, goal, cuts := values[..], PavaModel.Pava(values[..]), Interior(n);
    var i := 0;
    while i < n - 1
      invariant 0 <= i && result[..] == s && OnTrack(s, goal, i, cuts)
      decreases cuts, Pending(s, i, cuts), n - i
    {
      if result[i] > result[i + 1] {
        MergeAt(result, i);
        MergeOnTrack(s, goal, i, cuts);
        s, cuts := Round(s, i), CutsAfter(cuts, i, 1 + CountBelow(s[i + 1..], s[i]));
        if i > 0 {
          i := i - 1;
        }
      } else {
        AdvanceOnTrack(s, goal, i, cuts);
        i := i + 1;
      }
    }
    OnTrackAtEnd(s, goal, i, cuts);
  }

  lemma AdvanceOnTrack(s: seq<real>, goal: seq<real>, i: nat, cuts: set<nat>)
    requires OnTrack(s, goal, i, cuts) && i + 1 < |s| && s[i] <= s[i + 1]
    ensures OnTrack(s, goal, i + 1, cuts)
    ensures Pending(s, i + 1, cuts) == Pending(s, i, cuts) == 0
  {
    SortedNext(s, i);
  }

  lemma MergeOnTrack(s: seq<real>, goal: seq<real>, i: nat, cuts: set<nat>)
    requires OnTrack(s, goal, i, cuts) && i + 1 < |s| && s[i] > s[i + 1]
    ensures var s', i' := Round(s, i), if i > 0 then i - 1 else 0;
            var cuts' := CutsAfter(cuts, i, 1 + CountBelow(s[i + 1..], s[i]));
            && OnTrack(s', goal, i', cuts')
            && (cuts' < cuts || (cuts' == cuts && Pending(s', i', cuts') < Pending(s, i, cuts)))
  {
    RoundKeeps(s, i);
    CutsAfterMerge(s, i, cuts);
  }

  lemma OnTrackAtEnd(s: seq<real>, goal: seq<real>, i: nat, cuts: set<nat>)
    requires OnTrack(s, goal, i, cuts) && i + 1 >= |s|
    ensures s == goal
  {
    assert s[..|s|] == s;
    SortedUnchanged(s);
  }

  lemma SortedNext(s: seq<real>, i: nat)
    requires i + 1 < |s| && Sorted(s[..i + 1]) && s[i] <= s[i + 1]
    ensures Sorted(s[..i + 2])
  {
    assert s[..i + 2] == s[..i + 1] + [s[i + 1]];
    SortedAppend(s[..i + 1], [s[i + 1]]);
  }

  ghost function Round(s: seq<real>, i: nat): seq<real>
    requires i + 1 < |s| && s[i] > s[i + 1]
  {
    Merge(s[..i], s[i], s[i + 1..])
  }

  lemma RoundKeeps(s: seq<real>, i: nat)
    requires i + 1 < |s| && s[i] > s[i + 1] && Sorted(s[..i + 1])
    ensures PavaModel.Pava(Round(s, i)) == PavaModel.Pava(s) && |Round(s, i)| == |s|
    ensures Sorted(Round(s, i)[..i]) && Sorted(Round(s, i)[..1])
  {
    SplitAt(s, i);
    MergeKeepsPrefix(s[..i], s[i], s[i + 1..]);
    MergePreservesPava(s[..i], s[i], s[i + 1..]);
  }

  lemma SplitAt(s: seq<real>, i: nat)
    requires i < |s|
    ensures s == s[..i] + ([s[i]] + s[i + 1..]) && s[..i + 1] == s[..i] + [s[i]]
  {
  }

  lemma BlockAt(s: seq<real>, i: nat, m: nat)
    requires 0 < m && i + m <= |s|
    ensures ([s[i]] + s[i + 1..])[..m] == s[i..i + m] && s[i + 1..][m - 1..] == s[i + m..]
  {
  }

  lemma StrictBlockMean(s: seq<real>, i: nat, j: nat)
    requires i + 1 < j <= |s| && forall k :: i < k < j ==> s[k] < s[i]
    ensures Mean(s[i..j]) < s[i]
  {
    var block, d := s[i..j - 1], (j - i) as real;
    assert block == [s[i]] + s[i + 1..j - 1];
    BlockSum(s[i], s[i + 1..j - 1]);
    assert s[i..j][..j - i - 1] == block;
    assert s[i] * d == s[i] * (j - i - 1) as real + s[i];
    QuotientBelow(Sum(s[i..j]), d, s[i]);
  }

  // The records of one round: values outside [i, i + m) stay, those inside become avg < s[i].
  lemma RoundValues(s: seq<real>, i: nat) returns (j: nat, avg: real)
    requires i + 1 < |s| && s[i] > s[i + 1]
    ensures j == i + 1 + CountBelow(s[i + 1..], s[i]) && i + 1 < j <= |s| && avg < s[i]
    ensures (forall k :: i < k < j ==> s[k] < s[i]) && (j < |s| ==> s[i] <= s[j])
    ensures |Round(s, i)| == |s|
    ensures forall t :: 0 <= t < |s| ==> Round(s, i)[t] == if i <= t < j then avg else s[t]
  {
    var rest := s[i + 1..];
    j := i + 1 + CountBelow(rest, s[i]);
    assert rest[0] == s[i + 1];
    forall k | i < k < j ensures s[k] < s[i] { assert s[k] == rest[k - i - 1]; }
    assert j < |s| ==> s[j] == rest[j - i - 1];
    avg := Mean(s[i..j]);
    MergeIs(s, i, j);
    StrictBlockMean(s, i, j);
  }

  /** A merge removes a cut, or it steps back inside the block it has just enlarged. */
  lemma CutsAfterMerge(s: seq<real>, i: nat, cuts: set<nat>)
    requires i + 1 < |s| && s[i] > s[i + 1] && CutsSeparate(s, i, cuts)
    ensures var i', cuts' := if i > 0 then i - 1 else 0, CutsAfter(cuts, i, 1 + CountBelow(s[i + 1..], s[i]));
            && CutsSeparate(Round(s, i), i', cuts')
            && cuts' <= cuts
            && (cuts' == cuts ==> Pending(Round(s, i), i', cuts') < Pending(s, i, cuts))
  {
    var j, avg := RoundValues(s, i);
    var i', cuts', s' := if i > 0 then i - 1 else 0, CutsAfter(cuts, i, j - i), Round(s, i);
    forall k | 0 < k < |s| && k !in cuts' ensures s'[k - 1] == s'[k] || (k == i' + 1 && s'[i'] > s'[i' + 1]) {
      if k <= i || k >= j {
        assert k !in cuts;
        assert s[k - 1] == s[k];
        assert k != j;
      }
    }
    if cuts' == cuts { assert i + 1 !in cuts'; }
  }

  // ----- the batch -----

  ghost function Column(q: array3<real>, b: nat, a: nat): (c: seq<real>)
    requires b < q.Length0 && a < q.Length2
    reads q
    ensures |c| == q.Length1 && forall k :: 0 <= k < |c| ==> c[k] == q[b, k, a]
  {
    seq(q.Length1, k requires 0 <= k < q.Length1 reads q => q[b, k, a])
  }

  // Only column (b, a) of the batch changes.
  method WriteColumn(q: array3<real>, b: nat, a: nat, c: array<real>)
    requires b < q.Length0 && a < q.Length2 && c.Length == q.Length1
    modifies q
    ensures Column(q, b, a) == c[..]
    ensures forall b', a' :: 0 <= b' < q.Length0 && 0 <= a' < q.Length2 && (b' != b || a' != a) ==>
              Column(q, b', a') == old(Column(q, b', a'))
  {
    for k := 0 to q.Length1
      invariant forall t :: 0 <= t < k ==> q[b, t, a] == c[t]
      invariant forall b', t, a' :: 0 <= b' < q.Length0 && 0 <= t < q.Length1 && 0 <= a' < q.Length2 &&
                                    (b' != b || a' != a) ==>
                  q[b', t, a'] == old(q[b', t, a'])
    {
      q[b, k, a] := c[k];
    }
    assert Column(q, b, a) == c[..];
    forall b', a' | 0 <= b' < q.Length0 && 0 <= a' < q.Length2 && (b' != b || a' != a)
      ensures Column(q, b', a') == old(Column(q, b', a'))
    {
    }
  }

  method ReadColumn(q: array3<real>, b: nat, a: nat) returns (c: array<real>)
    requires b < q.Length0 && a < q.Length2
    ensures fresh(c) && c[..] == Column(q, b, a)
  {
    c := new real[q.Length1](k requires 0 <= k < q.Length1 reads q => q[b, k, a]);
  }

  /** All columns of a batch, by sample and action. */
  ghost function Columns(q: array3<real>): (c: seq<seq<seq<real>>>)
    reads q
    ensures |c| == q.Length0
    ensures forall b :: 0 <= b < |c| ==> |c[b]| == q.Length2
    ensures forall b, a :: 0 <= b < |c| && 0 <= a < |c[b]| ==> c[b][a] == Column(q, b, a)
  {
    seq(q.Length0, b requires 0 <= b < q.Length0 reads q =>
      seq(q.Length2, a requires 0 <= a < q.Length2 reads q => Column(q, b, a)))
  }

  method CorrectColumn(q: array3<real>, r: array3<real>, b: nat, a: nat)
    requires q != r && b < q.Length0 && a < q.Length2
    requires r.Length0 == q.Length0 && r.Length1 == q.Length1 && r.Length2 == q.Length2
    modifies r
    ensures Column(r, b, a) == PavaModel.Pava(Column(q, b, a))
    ensures forall b', a' :: 0 <= b' < q.Length0 && 0 <= a' < q.Length2 && (b' != b || a' != a) ==>
              Column(r, b', a') == old(Column(r, b', a'))
  {
    var values := ReadColumn(q, b, a);
    var c := CorrectSequence(values);
    WriteColumn(r, b, a, c);
  }

  /** Corrects every (sample, action) column of a batch of quantile predictions. */
  method Correct(quantiles: array3<real>) returns (corrected: array3<real>)
    ensures fresh(corrected)
    ensures corrected.Length0 == quantiles.Length0 && corrected.Length1 == quantiles.Length1
    ensures corrected.Length2 == quantiles.Length2
    ensures forall b, a :: 0 <= b < quantiles.Length0 && 0 <= a < quantiles.Length2 ==>
              Column(corrected, b, a) == PavaModel.Pava(Columns(quantiles)[b][a])
    ensures CheckMonotonicity(AllColumns(Columns(corrected))) == (true, 0.0)
  {
    var nb, nq, na := quantiles.Length0, quantiles.Length1, quantiles.Length2;
    ghost var input := Columns(quantiles);
    corrected := new real[nb, nq, na]((_, _, _) => 0.0);
    for b := 0 to nb
      invariant Columns(quantiles) == input
      invariant forall b', a :: 0 <= b' < b && 0 <= a < na ==> Column(corrected, b', a) == PavaModel.Pava(input[b'][a])
    {
      for a := 0 to na
        invariant Columns(quantiles) == input
        invariant forall b', a' :: 0 <= b' < b && 0 <= a' < na ==>
                    Column(corrected, b', a') == PavaModel.Pava(input[b'][a'])
        invariant forall a' :: 0 <= a' < a ==> Column(corrected, b, a') == PavaModel.Pava(input[b][a'])
      {
        CorrectColumn(quantiles, corrected, b, a);
      }
    }
    CorrectedIsMonotonic(Columns(quantiles), Columns(corrected));
  }
}

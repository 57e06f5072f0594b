/** What pooling achieves, for every input sequence. */
module PavaProofs {
  // A non-decreasing result, each of whose constant runs carries the mean of the input over
  // the same run.

  import opened Reals
  import opened PavaModel

  // ----- sums and means -----

  lemma {:induction false} SumConcat(a: seq<real>, b: seq<real>)
    ensures Sum(a + b) == Sum(a) + Sum(b)
  {
    if b == [] {
      assert a + b == a;
    } else {
      SumConcat(a, b[..|b| - 1]);
      assert (a + b)[..|a + b| - 1] == a + b[..|b| - 1];
    }
  }

  lemma SumOne(x: real)
    ensures Sum([x]) == x
  {
    assert [x][..0] == [];
  }

  lemma {:induction false} SumRepeat(x: real, n: nat)
    ensures Sum(Repeat(x, n)) == x * n as real
  {
    if n > 0 {
      SumRepeat(x, n - 1);
      assert Repeat(x, n)[..n - 1] == Repeat(x, n - 1);
    }
  }

  lemma MeanBounds(s: seq<real>, lo: real, hi: real)
    requires s != [] && forall i :: 0 <= i < |s| ==> lo <= s[i] <= hi
    ensures lo <= Mean(s) <= hi
  {
    SumAtLeast(s, lo);
    SumAtMost(s, hi);
    QuotientBetween(Sum(s), |s| as real, lo, hi);
  }

  lemma QuotientBelow(a: real, d: real, b: real)
    requires d > 0.0
    ensures a / d < b <==> a < b * d
  {
    assert (a / d) * d == a;
    if a / d < b { ProductLess(a / d, b, d); }
    if a / d > b { ProductLess(b, a / d, d); }
  }

  lemma BlendBelow(avg: real, m: nat, x: real)
    requires x > avg
    ensures Blend(avg, m, x) < x || m == 0
    ensures Blend(avg, m, x) <= x
    ensures Blend(avg, m, x) * (m + 1) as real == avg * m as real + x
  {
    var total := avg * m as real + x;
    if m > 0 { ProductLess(avg, x, m as real); }
    assert x * (m + 1) as real == x * m as real + x;
    QuotientBelow(total, (m + 1) as real, x);
    if m == 0 { QuotientIs(total, 1.0, x); }
  }

  lemma MeanOfBlend(avg: real, m: nat, x: real)
    ensures Mean([x] + Repeat(avg, m)) == Blend(avg, m, x)
  {
    SumConcat([x], Repeat(avg, m));
    SumOne(x);
    SumRepeat(avg, m);
  }

  lemma {:induction false} BlockSum(v: real, s: seq<real>)
    requires forall i :: 0 <= i < |s| ==> s[i] < v
    ensures Sum([v] + s) <= v * (1 + |s|) as real
  {
    SumConcat([v], s);
    SumOne(v);
    if s != [] {
      BlockSum(v, s[..|s| - 1]);
      SumConcat([v], s[..|s| - 1]);
      assert v * (1 + |s|) as real == v * |s| as real + v;
    }
  }

  /** A value with smaller ones after it has a mean of at most that value. */
  lemma BlockMean(v: real, s: seq<real>)
    requires forall i :: 0 <= i < |s| ==> s[i] < v
    ensures Mean([v] + s) <= v
  {
    BlockSum(v, s);
    var d := (1 + |s|) as real;
    QuotientBelow(Sum([v] + s), d, v);
    if Sum([v] + s) == v * d { QuotientIs(Sum([v] + s), d, v); }
  }

  // ----- the result is non-decreasing -----

  lemma SortedAppend(s: seq<real>, t: seq<real>)
    requires Sorted(s) && Sorted(t) && (s != [] && t != [] ==> s[|s| - 1] <= t[0])
    ensures Sorted(s + t)
  {
  }

  lemma SortedSplit(s: seq<real>, t: seq<real>)
    requires Sorted(s + t)
    ensures Sorted(s) && Sorted(t) && (s != [] && t != [] ==> s[|s| - 1] <= t[0])
  {
    var u := s + t;
    assert s == u[..|s|] && t == u[|s|..];
  }

  // Every value of s is at most top.
  ghost predicate Under(s: seq<real>, top: real) {
    forall i :: 0 <= i < |s| ==> s[i] <= top
  }

  lemma {:induction false} AbsorbSorted(done: seq<real>, avg: real, m: nat, top: real)
    requires Sorted(done) && avg <= top && Under(done, top)
    ensures Sorted(Absorb(done, avg, m)) && Under(Absorb(done, avg, m), top)
    decreases |done|
  {
    if done != [] && done[|done| - 1] > avg {
      BlendBelow(avg, m, done[|done| - 1]);
      AbsorbSorted(done[..|done| - 1], Blend(avg, m, done[|done| - 1]), m + 1, top);
    }
  }

  lemma {:induction false} PoolSorted(done: seq<real>, rest: seq<real>)
    requires Sorted(done) && (rest != [] ==> Under(done, rest[0]))
    ensures Sorted(Pool(done, rest))
    decreases |rest|
  {
    if rest != [] {
      var m := 1 + CountBelow(rest[1..], rest[0]);
      assert rest[..m] == [rest[0]] + rest[1..][..m - 1];
      BlockMean(rest[0], rest[1..][..m - 1]);
      AbsorbSorted(done, Mean(rest[..m]), m, rest[0]);
      PoolSorted(Absorb(done, Mean(rest[..m]), m), rest[m..]);
    }
  }

  lemma PavaSorted(values: seq<real>)
    ensures Sorted(Pava(values))
  {
    PoolSorted([], values);
  }

  // ----- each constant run carries the mean of its inputs -----

  /** Position k is where a constant run of s begins or ends. */
  predicate Boundary(s: seq<real>, k: nat) {
    k == 0 || k == |s| || (k < |s| && s[k - 1] != s[k])
  }

  /** Up to every run boundary the result sums to the same as the input. */
  ghost predicate Balanced(out: seq<real>, values: seq<real>) {
    |out| == |values| && forall k :: 0 <= k <= |out| && Boundary(out, k) ==> Sum(out[..k]) == Sum(values[..k])
  }

  /** The obligation while m values of mean avg are being absorbed. */
  ghost predicate Absorbing(done: seq<real>, avg: real, m: nat, values: seq<real>) {
    && |values| == |done| + m && Sum(done) + avg * m as real == Sum(values)
    && (forall k :: 0 <= k < |done| && Boundary(done, k) ==> Sum(done[..k]) == Sum(values[..k]))
    && (done != [] ==> done[|done| - 1] > avg || Sum(done) == Sum(values[..|done|]))
  }

  lemma AbsorbStops(done: seq<real>, avg: real, m: nat, values: seq<real>)
    requires Absorbing(done, avg, m, values) && (done != [] ==> done[|done| - 1] <= avg)
    ensures Balanced(done + Repeat(avg, m), values)
  {
    var n, out := |done|, done + Repeat(avg, m);
    forall k | 0 <= k <= |out| && Boundary(out, k) ensures Sum(out[..k]) == Sum(values[..k]) {
      if k < n {
        assert Boundary(done, k) && out[..k] == done[..k];
      } else if k == n {
        assert out[..k] == done;
      } else {
        assert k == |out| && out[..k] == out && values[..k] == values;
        SumRepeat(avg, m);
        SumConcat(done, Repeat(avg, m));
      }
    }
  }

  lemma AbsorbTakes(done: seq<real>, x: real, avg: real, m: nat, values: seq<real>)
    requires Absorbing(done + [x], avg, m, values) && x > avg && m > 0
    ensures Absorbing(done, Blend(avg, m, x), m + 1, values)
  {
    var n, all := |done|, done + [x];
    BlendBelow(avg, m, x);
    SumConcat(done, [x]);
    SumOne(x);
    forall k | 0 <= k < n && Boundary(done, k) ensures Sum(done[..k]) == Sum(values[..k]) {
      assert Boundary(all, k) && all[..k] == done[..k];
    }
    if n > 0 && done[n - 1] != x {
      assert Boundary(all, n) && all[..n] == done;
    }
  }

  lemma {:induction false} AbsorbBalanced(done: seq<real>, avg: real, m: nat, values: seq<real>)
    requires m > 0 && Absorbing(done, avg, m, values)
    ensures Balanced(Absorb(done, avg, m), values)
    decreases |done|
  {
    if done != [] && done[|done| - 1] > avg {
      var done', x := done[..|done| - 1], done[|done| - 1];
      assert done == done' + [x];
      AbsorbTakes(done', x, avg, m, values);
      AbsorbBalanced(done', Blend(avg, m, x), m + 1, values);
    } else {
      AbsorbStops(done, avg, m, values);
    }
  }

  lemma AbsorbingBlock(done: seq<real>, block: seq<real>, values: seq<real>)
    requires block != [] && Balanced(done, values)
    ensures Absorbing(done, Mean(block), |block|, values + block)
  {
    assert done[..|done|] == done && values[..|values|] == values && Boundary(done, |done|);
    SumConcat(values, block);
    assert Mean(block) * |block| as real == Sum(block);
    assert (values + block)[..|done|] == values;
    forall k | 0 <= k <= |done| && Boundary(done, k) ensures Sum(done[..k]) == Sum((values + block)[..k]) {
      assert (values + block)[..k] == values[..k];
    }
  }

  lemma {:induction false} PoolBalanced(done: seq<real>, rest: seq<real>, values: seq<real>)
    requires Balanced(done, values)
    ensures Balanced(Pool(done, rest), values + rest)
    decreases |rest|
  {
    if rest == [] {
      assert values + rest == values;
    } else {
      var m := 1 + CountBelow(rest[1..], rest[0]);
      var block, rest' := rest[..m], rest[m..];
      assert rest == block + rest';
      BlockBalanced(done, block, values);
      PoolBalanced(Absorb(done, Mean(block), m), rest', values + block);
      Regroup(values, block, rest');
    }
  }

  lemma Regroup(a: seq<real>, b: seq<real>, c: seq<real>)
    ensures (a + b) + c == a + (b + c)
  {
  }

  lemma BlockBalanced(done: seq<real>, block: seq<real>, values: seq<real>)
    requires block != [] && Balanced(done, values)
    ensures Balanced(Absorb(done, Mean(block), |block|), values + block)
  {
    AbsorbingBlock(done, block, values);
    AbsorbBalanced(done, Mean(block), |block|, values + block);
  }

  /** Sums agree up to every boundary of the result, so in particular in total. */
  lemma PavaBalanced(values: seq<real>)
    ensures Balanced(Pava(values), values)
    ensures Sum(Pava(values)) == Sum(values)
  {
    PoolBalanced([], values, []);
    assert [] + values == values;
    assert Pava(values)[..|values|] == Pava(values) && values[..|values|] == values;
  }

  /** The maximal constant run [a, b) of s. */
  ghost predicate MaximalRun(s: seq<real>, a: nat, b: nat) {
    && a < b <= |s| && Boundary(s, a) && Boundary(s, b)
    && forall i :: a <= i < b ==> s[i] == s[a]
  }

  lemma SumSlice(s: seq<real>, a: nat, b: nat)
    requires a <= b <= |s|
    ensures Sum(s[a..b]) == Sum(s[..b]) - Sum(s[..a])
  {
    assert s[..b] == s[..a] + s[a..b];
    SumConcat(s[..a], s[a..b]);
  }

  lemma ConstantRunSum(s: seq<real>, a: nat, b: nat)
    requires a < b <= |s| && forall i :: a <= i < b ==> s[i] == s[a]
    ensures Sum(s[a..b]) == s[a] * (b - a) as real
  {
    SumRepeat(s[a], b - a);
    assert s[a..b] == Repeat(s[a], b - a);
  }

  /** On every maximal constant run the value is the mean of the input over that run. */
  lemma RunValueIsMean(values: seq<real>, a: nat, b: nat)
    ensures MaximalRun(Pava(values), a, b) ==> Pava(values)[a] == Mean(values[a..b])
  {
    if MaximalRun(Pava(values), a, b) {
      PavaBalanced(values);
      RunMean(Pava(values), values, a, b);
    }
  }

  lemma RunMean(out: seq<real>, values: seq<real>, a: nat, b: nat)
    requires Balanced(out, values) && MaximalRun(out, a, b)
    ensures out[a] == Mean(values[a..b])
  {
    SumSlice(out, a, b);
    SumSlice(values, a, b);
    ConstantRunSum(out, a, b);
    QuotientIs(Sum(values[a..b]), (b - a) as real, out[a]);
  }

  lemma {:induction false} RunAround(s: seq<real>, i: nat, a: nat, b: nat) returns (c: nat, d: nat)
    requires a <= i < b <= |s| && forall j :: a <= j < b ==> s[j] == s[i]
    ensures c <= a && b <= d && MaximalRun(s, c, d) && c <= i < d
    decreases a + |s| - b
  {
    c, d := a, b;
    if !Boundary(s, a) {
      c, d := RunAround(s, i, a - 1, b);
    } else if !Boundary(s, b) {
      c, d := RunAround(s, i, a, b + 1);
    }
  }

  /** No corrected value leaves the range of the inputs. */
  lemma PavaWithinBounds(values: seq<real>, lo: real, hi: real, i: nat)
    requires i < |values| && forall j :: 0 <= j < |values| ==> lo <= values[j] <= hi
    ensures lo <= Pava(values)[i] <= hi
  {
    var out := Pava(values);
    var a, b := RunAround(out, i, i, i + 1);
    RunValueIsMean(values, a, b);
    MeanBounds(values[a..b], lo, hi);
  }

  // ----- values in order pass straight through -----

  lemma PoolStep(done: seq<real>, v: real, rest: seq<real>, m: nat, avg: real, rest': seq<real>)
    requires m == 1 + CountBelow(rest, v) && avg == Mean(([v] + rest)[..m]) && rest' == rest[m - 1..]
    ensures Pool(done, [v] + rest) == Pool(Absorb(done, avg, m), rest')
  {
    ConsSlices(v, rest, m);
    PoolUnfolds(done, [v] + rest, m, avg, rest');
  }

  lemma PoolUnfolds(done: seq<real>, all: seq<real>, m: nat, avg: real, rest: seq<real>)
    requires all != [] && m == 1 + CountBelow(all[1..], all[0]) && avg == Mean(all[..m]) && rest == all[m..]
    ensures Pool(done, all) == Pool(Absorb(done, avg, m), rest)
  {
  }

  lemma ConsSlices(v: real, rest: seq<real>, m: nat)
    requires 0 < m <= 1 + |rest|
    ensures ([v] + rest)[1..] == rest && ([v] + rest)[m..] == rest[m - 1..]
  {
  }

  lemma MeanOne(x: real)
    ensures Mean([x]) == x
  {
    SumOne(x);
  }

  // One value that is below nothing to its left and above nothing next to it.
  lemma PoolOne(done: seq<real>, x: real, rest: seq<real>)
    requires (done != [] ==> done[|done| - 1] <= x) && (rest != [] ==> x <= rest[0])
    ensures Pool(done, [x] + rest) == Pool(done + [x], rest)
  {
    assert CountBelow(rest, x) == 0;
    assert ([x] + rest)[..1] == [x] && rest[0..] == rest;
    MeanOne(x);
    PoolStep(done, x, rest, 1, x, rest);
    assert Repeat(x, 1) == [x];
  }

  lemma {:induction false} PoolSortedPrefix(done: seq<real>, next: seq<real>, rest: seq<real>)
    requires Sorted(done + next) && (rest != [] && next != [] ==> next[|next| - 1] <= rest[0])
    ensures Pool(done, next + rest) == Pool(done + next, rest)
    decreases |next|
  {
    if next == [] {
      assert next + rest == rest && done + next == done;
    } else {
      var x, next' := next[0], next[1..];
      SortedSplit(done, next);
      assert (next' + rest != []) ==> x <= (next' + rest)[0];
      assert [x] + (next' + rest) == next + rest;
      assert (done + [x]) + next' == done + next;
      PoolOne(done, x, next' + rest);
      PoolSortedPrefix(done + [x], next', rest);
    }
  }

  lemma PavaSortedPrefix(done: seq<real>, rest: seq<real>)
    requires Sorted(done) && (rest != [] && done != [] ==> done[|done| - 1] <= rest[0])
    ensures Pava(done + rest) == Pool(done, rest)
  {
    assert [] + done == done;
    PoolSortedPrefix([], done, rest);
  }

  lemma SortedUnchanged(values: seq<real>)
    requires Sorted(values)
    ensures Pava(values) == values
  {
    assert values + [] == values;
    PavaSortedPrefix(values, []);
  }

  /** Correcting twice is correcting once. */
  lemma PavaIdempotent(values: seq<real>)
    ensures Pava(Pava(values)) == Pava(values)
  {
    PavaSorted(values);
    SortedUnchanged(Pava(values));
  }

  // ----- one round of the loop -----

  lemma {:induction false} CountBelowIs(s: seq<real>, v: real, n: nat)
    requires n <= |s| && (forall i :: 0 <= i < n ==> s[i] < v) && (n < |s| ==> s[n] >= v)
    ensures CountBelow(s, v) == n
  {
    if n > 0 {
      CountBelowIs(s[1..], v, n - 1);
    }
  }

  // Before the round: what precedes v passes through, then v's block is absorbed.
  lemma PavaBeforeMerge(done: seq<real>, v: real, rest: seq<real>, m: nat, avg: real, rest': seq<real>)
    requires Sorted(done + [v])
    requires m == 1 + CountBelow(rest, v) && avg == Mean(([v] + rest)[..m]) && rest' == rest[m - 1..]
    ensures Pava(done + ([v] + rest)) == Pool(Absorb(done, avg, m), rest')
  {
    SortedSplit(done, [v]);
    PavaSortedPrefix(done, [v] + rest);
    PoolStep(done, v, rest, m, avg, rest');
  }

  // After it, the merged block passes through as well ...
  lemma PavaAfterMerge(done: seq<real>, avg: real, m: nat, rest: seq<real>)
    requires m > 0 && Sorted(done) && (done != [] ==> done[|done| - 1] <= avg) && (rest != [] ==> avg <= rest[0])
    ensures Pava((done + Repeat(avg, m)) + rest) == Pool(Absorb(done, avg, m), rest)
  {
    SortedAppend(done, Repeat(avg, m));
    PavaSortedPrefix(done + Repeat(avg, m), rest);
  }

  // ... unless the value x to its left exceeds it: then x takes it, and nothing more.
  lemma PavaAfterDescent(done: seq<real>, x: real, avg: real, m: nat, rest: seq<real>)
    requires m > 0 && Sorted(done + [x]) && x > avg && (rest != [] ==> x <= rest[0])
    ensures Pava(done + ([x] + (Repeat(avg, m) + rest))) == Pool(Absorb(done, Blend(avg, m, x), m + 1), rest)
  {
    CountBelowRepeat(x, avg, m, rest);
    DescentSlices(x, Repeat(avg, m), rest);
    MeanOfBlend(avg, m, x);
    PavaBeforeMerge(done, x, Repeat(avg, m) + rest, m + 1, Blend(avg, m, x), rest);
  }

  lemma CountBelowRepeat(x: real, avg: real, m: nat, rest: seq<real>)
    requires x > avg && (rest != [] ==> x <= rest[0])
    ensures CountBelow(Repeat(avg, m) + rest, x) == m
  {
    CountBelowIs(Repeat(avg, m) + rest, x, m);
  }

  lemma DescentSlices(x: real, block: seq<real>, rest: seq<real>)
    ensures (block + rest)[|block|..] == rest
    ensures ([x] + (block + rest))[..|block| + 1] == [x] + block
  {
  }

  lemma Reassociate(done: seq<real>, x: real, block: seq<real>, rest: seq<real>)
    ensures ((done + [x]) + block) + rest == done + ([x] + (block + rest))
  {
  }

  lemma AbsorbOne(done: seq<real>, x: real, avg: real, m: nat)
    requires x > avg
    ensures Absorb(done + [x], avg, m) == Absorb(done, Blend(avg, m, x), m + 1)
  {
    assert (done + [x])[..|done|] == done;
  }

  // Either way the merged sequence pools to what absorbing the block gives.
  lemma PavaOfMerged(done: seq<real>, avg: real, m: nat, rest: seq<real>, v: real)
    requires m > 0 && Sorted(done + [v]) && avg <= v && (rest != [] ==> v <= rest[0])
    ensures Pava((done + Repeat(avg, m)) + rest) == Pool(Absorb(done, avg, m), rest)
  {
    SortedSplit(done, [v]);
    if done == [] || done[|done| - 1] <= avg {
      PavaAfterMerge(done, avg, m, rest);
    } else {
      var done', x := done[..|done| - 1], done[|done| - 1];
      assert done == done' + [x];
      Reassociate(done', x, Repeat(avg, m), rest);
      PavaAfterDescent(done', x, avg, m, rest);
      AbsorbOne(done', x, avg, m);
    }
  }

  /** A round at the first violation leaves the final result as it was. */
  lemma MergePreservesPava(done: seq<real>, v: real, rest: seq<real>)
    requires Sorted(done + [v])
    ensures Pava(Merge(done, v, rest)) == Pava(done + ([v] + rest))
  {
    var m := 1 + CountBelow(rest, v);
    assert ([v] + rest)[..m] == [v] + rest[..m - 1];
    BlockMean(v, rest[..m - 1]);
    var avg, rest' := Mean(([v] + rest)[..m]), rest[m - 1..];
    PavaBeforeMerge(done, v, rest, m, avg, rest');
    PavaOfMerged(done, avg, m, rest', v);
  }

  lemma MergeKeepsPrefix(done: seq<real>, v: real, rest: seq<real>)
    requires Sorted(done + [v])
    ensures Merge(done, v, rest)[..|done|] == done && Sorted(done)
    ensures Sorted(Merge(done, v, rest)[..1])
  {
    SortedSplit(done, [v]);
  }
}

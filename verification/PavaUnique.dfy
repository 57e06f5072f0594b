/** The correction as the one sequence with four properties of its input. */
module PavaUnique {
  // `Pooling` speaks of the order of the result, of where it may step up and of prefix sums;
  // it knows nothing of loops, blocks or means.  At most one sequence satisfies it.

  import opened Reals
  import opened PavaModel
  import opened PavaProofs
  import opened PavaOptimality
  import opened PavaInput

  // Where x is constant and the sorted y stays at or below it, x gains on y.
  lemma {:induction false} LeadRises(y: seq<real>, x: seq<real>, a: nat, k: nat, c: real)
    requires |x| == |y| && a <= k <= |x| && forall i :: a <= i < k ==> y[i] <= c && x[i] == c
    ensures Lead(y, x, a) <= Lead(y, x, k)
    decreases k
  {
    if a < k { LeadRises(y, x, a, k - 1, c); }
  }

  lemma {:induction false} LeadFalls(y: seq<real>, x: seq<real>, k: nat, b: nat, c: real)
    requires |x| == |y| && k <= b <= |x| && forall i :: k <= i < b ==> y[i] >= c && x[i] == c
    ensures Lead(y, x, k) >= Lead(y, x, b)
    decreases b
  {
    if k < b { LeadFalls(y, x, k, b - 1, c); }
  }

  // Within a run of x its lead over a sorted y is concave, so it is lowest at an end.
  lemma LeadWithinRun(y: seq<real>, x: seq<real>, a: nat, k: nat, b: nat)
    requires |x| == |y| && Sorted(y) && MaximalRun(x, a, b) && a < k < b
    requires Lead(y, x, a) >= 0.0 && Lead(y, x, b) >= 0.0
    ensures Lead(y, x, k) >= 0.0
  {
    var c := x[a];
    if y[k - 1] <= c {
      LeadRises(y, x, a, k, c);
    } else {
      LeadFalls(y, x, k, b, c);
    }
  }

  lemma LeadAtStep(y: seq<real>, x: seq<real>, values: seq<real>, k: nat)
    requires Pooling(x, values) && Pooling(y, values) && k <= |values| && Boundary(x, k)
    ensures Lead(y, x, k) >= 0.0
  {
    LeadIsDifference(y, x, k);
    assert Record(values, k);
    assert Sum(y[..k]) <= Sum(values[..k]) == Sum(x[..k]);
  }

  lemma LeadNowhereNegative(y: seq<real>, x: seq<real>, values: seq<real>, k: nat)
    requires Pooling(x, values) && Pooling(y, values) && k <= |values|
    ensures Lead(y, x, k) >= 0.0
  {
    if Boundary(x, k) {
      LeadAtStep(y, x, values, k);
    } else {
      var a, b := RunAround(x, k, k, k + 1);
      assert a != k;
      LeadAtStep(y, x, values, a);
      LeadAtStep(y, x, values, b);
      LeadWithinRun(y, x, a, k, b);
    }
  }

  lemma {:induction false} LeadTurned(y: seq<real>, x: seq<real>, k: nat)
    requires k <= |x| && k <= |y|
    ensures Lead(x, y, k) == -Lead(y, x, k)
  {
    if k > 0 { LeadTurned(y, x, k - 1); }
  }

  lemma NoLead(y: seq<real>, x: seq<real>, values: seq<real>, k: nat)
    requires Pooling(x, values) && Pooling(y, values) && k <= |values|
    ensures Lead(y, x, k) == 0.0
  {
    LeadNowhereNegative(y, x, values, k);
    LeadNowhereNegative(x, y, values, k);
    LeadTurned(y, x, k);
  }

  lemma PoolingUnique(x: seq<real>, y: seq<real>, values: seq<real>)
    requires Pooling(x, values) && Pooling(y, values)
    ensures x == y
  {
    forall k | 0 <= k < |values| ensures x[k] == y[k] {
      NoLead(y, x, values, k);
      NoLead(y, x, values, k + 1);
    }
  }

  /** The correction of a column is the only non-decreasing sequence of its length that steps up
      only at values no earlier one exceeds, has there the prefix sum of the input, and exceeds
      the input's prefix sum at no such value. */
  lemma CorrectedIff(out: seq<real>, values: seq<real>)
    ensures out == Pava(values) <==>
            && |out| == |values|
            && (forall i, j :: 0 <= i < j < |out| ==> out[i] <= out[j])
            && (forall k :: 0 <= k <= |out| && Boundary(out, k) ==>
                  Record(values, k) && Sum(out[..k]) == Sum(values[..k]))
            && (forall k :: 0 <= k <= |out| && Record(values, k) ==> Sum(out[..k]) <= Sum(values[..k]))
  {
    PavaPooling(values);
    if Pooling(out, values) { PoolingUnique(out, Pava(values), values); }
  }
}

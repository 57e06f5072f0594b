/** Is the corrected sequence the nearest non-decreasing one in the least-squares sense? */
module PavaOptimality {
  import opened Reals
  import opened PavaModel
  import opened PavaProofs

  // ----- least squares -----

  /** Squared distance over the first k positions. */
  function Distance(a: seq<real>, b: seq<real>, k: nat): real
    requires k <= |a| && k <= |b|
  {
    if k == 0 then 0.0 else Distance(a, b, k - 1) + (a[k - 1] - b[k - 1]) * (a[k - 1] - b[k - 1])
  }

  /** out is at least as near to values as any other non-decreasing sequence. */
  ghost predicate Nearest(out: seq<real>, values: seq<real>)
    requires |out| == |values|
  {
    forall z :: |z| == |values| && Sorted(z) ==> Distance(values, out, |values|) <= Distance(values, z, |values|)
  }

  /** No prefix of out sums to more than the same prefix of values. */
  ghost predicate PrefixesDominated(out: seq<real>, values: seq<real>)
    requires |out| == |values|
  {
    forall k :: 0 <= k <= |values| ==> Sum(out[..k]) <= Sum(values[..k])
  }

  /** How far values are ahead of out over the first k positions. */
  function Lead(out: seq<real>, values: seq<real>, k: nat): real
    requires k <= |out| && k <= |values|
  {
    if k == 0 then 0.0 else Lead(out, values, k - 1) + values[k - 1] - out[k - 1]
  }

  lemma {:induction false} LeadIsDifference(out: seq<real>, values: seq<real>, k: nat)
    requires k <= |out| && k <= |values|
    ensures Lead(out, values, k) == Sum(values[..k]) - Sum(out[..k])
  {
    if k > 0 {
      LeadIsDifference(out, values, k - 1);
      assert values[..k][..k - 1] == values[..k - 1] && out[..k][..k - 1] == out[..k - 1];
    }
  }

  // The growth of the distance gap at one position, in terms of the lead before and after.
  lemma GapStep(v: real, x: real, z: real, before: real, previous: real, dz: real, dx: real)
    requires before * ((x - z) - previous) <= 0.0
    requires dz - dx >= 2.0 * before * previous
    ensures (dz + (v - z) * (v - z)) - (dx + (v - x) * (v - x)) >= 2.0 * (before + v - x) * (x - z)
  {
    var w := x - z;
    assert (v - z) * (v - z) - (v - x) * (v - x) == w * w + 2.0 * (v - x) * w;
    assert w * w >= 0.0;
    assert before * previous >= before * w;
    assert (before + v - x) * w == before * w + (v - x) * w;
  }

  lemma LeadTimesGrowth(lead: real, dx: real, dz: real)
    requires lead >= 0.0 && dz >= 0.0 && (lead == 0.0 || dx == 0.0)
    ensures lead * (dx - dz) <= 0.0
  {
    if lead > 0.0 { assert lead * dz >= 0.0; }
  }

  /** The lead is never negative, and is zero wherever out changes value. */
  ghost predicate LeadOk(out: seq<real>, values: seq<real>, t: nat)
    requires 0 < t < |out| && |out| == |values|
  {
    Lead(out, values, t) >= 0.0 && (Lead(out, values, t) == 0.0 || out[t - 1] == out[t])
  }

  /** Between run boundaries out is flat, and at them the lead is zero, so moving to any
      other non-decreasing z can only cost. */
  lemma {:induction false} GapBound(out: seq<real>, values: seq<real>, z: seq<real>, k: nat)
    requires |out| == |values| == |z| && Sorted(z) && 0 < k <= |out|
    requires forall t :: 0 < t < |out| ==> LeadOk(out, values, t)
    ensures Distance(values, z, k) - Distance(values, out, k) >= 2.0 * Lead(out, values, k) * (out[k - 1] - z[k - 1])
  {
    if k == 1 {
      GapStep(values[0], out[0], z[0], 0.0, 0.0, 0.0, 0.0);
    } else {
      GapBound(out, values, z, k - 1);
      assert LeadOk(out, values, k - 1);
      GapBoundStep(out, values, z, k);
    }
  }

  lemma GapBoundStep(out: seq<real>, values: seq<real>, z: seq<real>, k: nat)
    requires |out| == |values| == |z| && 1 < k <= |out| && z[k - 2] <= z[k - 1]
    requires LeadOk(out, values, k - 1)
    requires Distance(values, z, k - 1) - Distance(values, out, k - 1)
             >= 2.0 * Lead(out, values, k - 1) * (out[k - 2] - z[k - 2])
    ensures Distance(values, z, k) - Distance(values, out, k) >= 2.0 * Lead(out, values, k) * (out[k - 1] - z[k - 1])
  {
    GapGrows(values[k - 1], out[k - 2], out[k - 1], z[k - 2], z[k - 1], Lead(out, values, k - 1),
             Distance(values, z, k - 1), Distance(values, out, k - 1));
  }

  // The same for numbers: x follows px in the result, y follows py in the other sequence.
  lemma GapGrows(v: real, px: real, x: real, py: real, y: real, lead: real, dz: real, dx: real)
    requires py <= y && lead >= 0.0 && (lead == 0.0 || px == x)
    requires dz - dx >= 2.0 * lead * (px - py)
    ensures (dz + (v - y) * (v - y)) - (dx + (v - x) * (v - x)) >= 2.0 * (lead + v - x) * (x - y)
  {
    LeadTimesGrowth(lead, x - px, y - py);
    assert (x - y) - (px - py) == (x - px) - (y - py);
    GapStep(v, x, y, lead, px - py, dz, dx);
  }

  // Twice the lead plus k times e.
  ghost function Tilt(out: seq<real>, values: seq<real>, e: real, k: nat): real
    requires k <= |out| && k <= |values|
  {
    if k == 0 then 0.0 else Tilt(out, values, e, k - 1) + (2.0 * (values[k - 1] - out[k - 1]) + e)
  }

  lemma {:induction false} TiltIs(out: seq<real>, values: seq<real>, e: real, k: nat)
    requires k <= |out| && k <= |values|
    ensures Tilt(out, values, e, k) == 2.0 * Lead(out, values, k) + k as real * e
  {
    if k > 0 {
      TiltIs(out, values, e, k - 1);
      assert k as real * e == (k - 1) as real * e + e;
    }
  }

  lemma ShiftStep(v: real, x: real, z: real, e: real, tilt: real, dz: real, dx: real)
    requires z == x - e && dz == dx + e * tilt
    ensures dz + (v - z) * (v - z) == dx + (v - x) * (v - x) + e * (tilt + (2.0 * (v - x) + e))
  {
    var d := v - x;
    assert (d + e) * (d + e) == d * d + e * (2.0 * d + e);
    assert e * (tilt + (2.0 * d + e)) == e * tilt + e * (2.0 * d + e);
  }

  ghost function Lowered(out: seq<real>, k: nat, e: real): (z: seq<real>)
    ensures |z| == |out| && forall t :: 0 <= t < |out| ==> z[t] == if t < k then out[t] - e else out[t]
  {
    seq(|out|, t requires 0 <= t < |out| => if t < k then out[t] - e else out[t])
  }

  // Lowering the first j values of out by e changes the distance by e times the tilt.
  lemma {:induction false} LoweredPrefixDistance(out: seq<real>, values: seq<real>, z: seq<real>, e: real, j: nat)
    requires |out| == |values| == |z| && j <= |out| && forall t :: 0 <= t < j ==> z[t] == out[t] - e
    ensures Distance(values, z, j) == Distance(values, out, j) + e * Tilt(out, values, e, j)
  {
    if j > 0 {
      LoweredPrefixDistance(out, values, z, e, j - 1);
      LoweredStep(out, values, z, e, j);
    }
  }

  lemma LoweredStep(out: seq<real>, values: seq<real>, z: seq<real>, e: real, j: nat)
    requires |out| == |values| == |z| && 0 < j <= |out| && z[j - 1] == out[j - 1] - e
    requires Distance(values, z, j - 1) == Distance(values, out, j - 1) + e * Tilt(out, values, e, j - 1)
    ensures Distance(values, z, j) == Distance(values, out, j) + e * Tilt(out, values, e, j)
  {
    ShiftStep(values[j - 1], out[j - 1], z[j - 1], e, Tilt(out, values, e, j - 1),
              Distance(values, z, j - 1), Distance(values, out, j - 1));
  }

  lemma {:induction false} SameTailDistance(out: seq<real>, values: seq<real>, z: seq<real>, k: nat, j: nat)
    requires |out| == |values| == |z| && k <= j <= |out|
    requires forall t :: k <= t < |out| ==> z[t] == out[t]
    ensures Distance(values, z, j) - Distance(values, out, j) == Distance(values, z, k) - Distance(values, out, k)
    decreases j
  {
    if j > k {
      SameTailDistance(out, values, z, k, j - 1);
    }
  }

  lemma DominatedLeadOk(out: seq<real>, values: seq<real>, t: nat)
    requires Balanced(out, values) && PrefixesDominated(out, values) && 0 < t < |out|
    ensures LeadOk(out, values, t)
  {
    LeadIsDifference(out, values, t);
    if out[t - 1] != out[t] { assert Boundary(out, t); }
  }

  lemma DominatedIsNearest(out: seq<real>, values: seq<real>)
    requires Balanced(out, values) && PrefixesDominated(out, values)
    ensures Nearest(out, values)
  {
    var n := |out|;
    LeadIsDifference(out, values, n);
    assert Boundary(out, n);
    forall z | |z| == |values| && Sorted(z) ensures Distance(values, out, n) <= Distance(values, z, n) {
      if n > 0 {
        forall t | 0 < t < n ensures LeadOk(out, values, t) { DominatedLeadOk(out, values, t); }
        GapBound(out, values, z, n);
      }
    }
  }

  // Where values fall behind, lowering the whole prefix of out brings it nearer.
  lemma NearerByShift(out: seq<real>, values: seq<real>, k: nat) returns (z: seq<real>)
    requires |out| == |values| && Sorted(out) && k <= |out| && Lead(out, values, k) < 0.0
    ensures |z| == |out| && Sorted(z) && Distance(values, z, |out|) < Distance(values, out, |out|)
  {
    var lead := Lead(out, values, k);
    var e := -lead / k as real;
    PositiveQuotient(-lead, k as real);
    TiltIs(out, values, e, k);
    z := Lowered(out, k, e);
    LoweredIsSorted(out, k, e);
    LoweredIsNearer(out, values, z, k, e);
  }

  lemma LoweredPrefixIsNearer(out: seq<real>, values: seq<real>, z: seq<real>, k: nat, e: real)
    requires |out| == |values| == |z| && k <= |out| && forall t :: 0 <= t < k ==> z[t] == out[t] - e
    requires e > 0.0 && Tilt(out, values, e, k) < 0.0
    ensures Distance(values, z, k) < Distance(values, out, k)
  {
    LoweredPrefixDistance(out, values, z, e, k);
    NegativeProduct(e, Tilt(out, values, e, k));
  }

  lemma NegativeProduct(a: real, b: real)
    requires a > 0.0 && b < 0.0
    ensures a * b < 0.0
  {
  }

  lemma LoweredIsNearer(out: seq<real>, values: seq<real>, z: seq<real>, k: nat, e: real)
    requires |out| == |values| == |z| && k <= |out| && forall t :: 0 <= t < k ==> z[t] == out[t] - e
    requires forall t :: k <= t < |out| ==> z[t] == out[t]
    requires e > 0.0 && Tilt(out, values, e, k) < 0.0
    ensures Distance(values, z, |out|) < Distance(values, out, |out|)
  {
    LoweredPrefixIsNearer(out, values, z, k, e);
    SameTailDistance(out, values, z, k, |out|);
  }

  lemma LoweredIsSorted(out: seq<real>, k: nat, e: real)
    requires Sorted(out) && e > 0.0
    ensures Sorted(Lowered(out, k, e))
  {
  }

  lemma PositiveQuotient(a: real, d: real)
    requires a > 0.0 && d > 0.0
    ensures a / d > 0.0 && d * (a / d) == a
  {
  }

  lemma NearestIsDominated(out: seq<real>, values: seq<real>)
    requires |out| == |values| && Sorted(out) && Nearest(out, values)
    ensures PrefixesDominated(out, values)
  {
    forall k | 0 <= k <= |values| ensures Sum(out[..k]) <= Sum(values[..k]) {
      LeadIsDifference(out, values, k);
      if Lead(out, values, k) < 0.0 {
        var z := NearerByShift(out, values, k);
        assert false;
      }
    }
  }

  /** The documented claim of least-squares nearness holds exactly when no prefix of the
      corrected sequence sums to more than that prefix of the input. */
  lemma NearestIffPrefixesDominated(values: seq<real>)
    ensures Nearest(Pava(values), values) <==> PrefixesDominated(Pava(values), values)
  {
    PavaSorted(values);
    PavaBalanced(values);
    if PrefixesDominated(Pava(values), values) {
      DominatedIsNearest(Pava(values), values);
    }
    if Nearest(Pava(values), values) {
      NearestIsDominated(Pava(values), values);
    }
  }

  /** An input on which the claim fails: 3, 0, 2.9 is pooled into one block, although the
      last value need not have been touched. */
  lemma NotAlwaysNearest()
    ensures !Nearest(Pava([3.0, 0.0, 2.9]), [3.0, 0.0, 2.9])
  {
    var values := [3.0, 0.0, 2.9];
    CountBelowIs(values[1..], 3.0, 2);
    assert [3.0] + [0.0, 2.9] == values && values[1..] == [0.0, 2.9] && values[..3] == values;
    PoolStep([], 3.0, [0.0, 2.9], 3, Mean(values), []);
    assert values[..2] == [3.0, 0.0] && [3.0, 0.0][..1] == [3.0];
    SumOne(3.0);
    assert Sum([3.0, 0.0]) == 3.0;
    assert Sum(values) == 5.9;
    var avg := Mean(values);
    assert Pava(values) == [] + Repeat(avg, 3);
    assert Pava(values)[..2] == Repeat(avg, 2);
    SumRepeat(avg, 2);
    NearestIffPrefixesDominated(values);
    assert Sum(Pava(values)[..2]) > Sum(values[..2]);
  }
}

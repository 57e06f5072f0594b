/** The two monotonicity checks, applied to corrected batches. */
module PavaChecks {
  import opened Reals
  import opened PavaModel
  import opened PavaProofs
  import opened PavaOptimality

  /** The columns of a batch in one list, sample by sample. */
  function AllColumns(batch: seq<seq<seq<real>>>): seq<seq<real>> {
    if batch == [] then [] else AllColumns(batch[..|batch| - 1]) + batch[|batch| - 1]
  }

  /** Adjacent pairs of one column whose gap is below the margin. */
  function NarrowGaps(c: seq<real>, margin: real): nat {
    if |c| < 2 then 0
    else NarrowGaps(c[..|c| - 1], margin) + if Shortfall(c, margin) > 0.0 then 1 else 0
  }

  /** By how much the last gap of a column falls short of the margin, if it does. */
  function Shortfall(c: seq<real>, margin: real): (r: real)
    requires |c| >= 2
    ensures r >= 0.0
  {
    var r := margin - (c[|c| - 1] - c[|c| - 2]);
    if r > 0.0 then r else 0.0
  }

  function SquaredGaps(c: seq<real>, margin: real): real {
    if |c| < 2 then 0.0
    else SquaredGaps(c[..|c| - 1], margin) + Shortfall(c, margin) * Shortfall(c, margin)
  }

  function NarrowGapsOver(columns: seq<seq<real>>, margin: real): nat {
    if columns == [] then 0
    else NarrowGapsOver(columns[..|columns| - 1], margin) + NarrowGaps(columns[|columns| - 1], margin)
  }

  function SquaredGapsOver(columns: seq<seq<real>>, margin: real): real {
    if columns == [] then 0.0
    else SquaredGapsOver(columns[..|columns| - 1], margin) + SquaredGaps(columns[|columns| - 1], margin)
  }

  function Pairs(columns: seq<seq<real>>): nat {
    if columns == [] then 0
    else
      var n := |columns[|columns| - 1]|;
      Pairs(columns[..|columns| - 1]) + if n > 0 then n - 1 else 0
  }

  /** Whether every column is non-decreasing, and the share of violating pairs. */
  function CheckMonotonicity(columns: seq<seq<real>>): (bool, real) {
    var violations, pairs := NarrowGapsOver(columns, 0.0), Pairs(columns);
    (violations == 0, violations as real / (if pairs > 1 then pairs else 1) as real)
  }

  /** The penalty and the number of pairs that cross or come too close.  Without pairs the
      source's mean is not a number. */
  function CrossingLoss(columns: seq<seq<real>>, weight: real, margin: real): (real, nat)
    requires Pairs(columns) > 0
  {
    (SquaredGapsOver(columns, margin) / Pairs(columns) as real * weight, NarrowGapsOver(columns, margin))
  }

  lemma {:induction false} NarrowGapsZero(c: seq<real>, margin: real)
    ensures NarrowGaps(c, margin) == 0 <==> Gapped(c, margin)
  {
    if |c| >= 2 {
      NarrowGapsZero(c[..|c| - 1], margin);
    }
  }

  lemma {:induction false} NarrowGapsOverZero(columns: seq<seq<real>>, margin: real)
    ensures NarrowGapsOver(columns, margin) == 0 <==>
            forall j :: 0 <= j < |columns| ==> NarrowGaps(columns[j], margin) == 0
  {
    if columns != [] {
      NarrowGapsOverZero(columns[..|columns| - 1], margin);
    }
  }

  // The penalty vanishes with the violations.
  lemma {:induction false} SquaredGapsZero(c: seq<real>, margin: real)
    ensures SquaredGaps(c, margin) >= 0.0
    ensures SquaredGaps(c, margin) == 0.0 <==> NarrowGaps(c, margin) == 0
  {
    if |c| >= 2 {
      SquaredGapsZero(c[..|c| - 1], margin);
      SquareZero(Shortfall(c, margin));
    }
  }

  lemma SquareZero(x: real)
    requires x >= 0.0
    ensures x * x >= 0.0 && (x * x == 0.0 <==> x == 0.0)
  {
    ZeroProduct(x, x);
  }

  lemma ZeroProduct(x: real, y: real)
    requires x >= 0.0 && y >= 0.0
    ensures x * y >= 0.0 && (x * y == 0.0 <==> x == 0.0 || y == 0.0)
  {
    if x > 0.0 && y > 0.0 { ProductLess(0.0, x, y); }
  }

  lemma {:induction false} SquaredGapsOverZero(columns: seq<seq<real>>, margin: real)
    ensures SquaredGapsOver(columns, margin) >= 0.0
    ensures SquaredGapsOver(columns, margin) == 0.0 <==> NarrowGapsOver(columns, margin) == 0
  {
    if columns != [] {
      SquaredGapsOverZero(columns[..|columns| - 1], margin);
      SquaredGapsZero(columns[|columns| - 1], margin);
    }
  }

  ghost predicate AllCorrected(columns: seq<seq<real>>, corrected: seq<seq<real>>) {
    |corrected| == |columns| && forall j :: 0 <= j < |columns| ==> corrected[j] == Pava(columns[j])
  }

  ghost predicate BatchCorrected(batch: seq<seq<seq<real>>>, corrected: seq<seq<seq<real>>>) {
    |corrected| == |batch| && forall b :: 0 <= b < |batch| ==> AllCorrected(batch[b], corrected[b])
  }

  lemma {:induction false} ColumnsCorrected(batch: seq<seq<seq<real>>>, corrected: seq<seq<seq<real>>>)
    requires BatchCorrected(batch, corrected)
    ensures AllCorrected(AllColumns(batch), AllColumns(corrected))
  {
    if batch != [] {
      ColumnsCorrected(batch[..|batch| - 1], corrected[..|batch| - 1]);
    }
  }

  /** The monotonicity check finds nothing to report on a corrected batch. */
  lemma CorrectedIsMonotonic(batch: seq<seq<seq<real>>>, corrected: seq<seq<seq<real>>>)
    requires BatchCorrected(batch, corrected)
    ensures CheckMonotonicity(AllColumns(corrected)) == (true, 0.0)
  {
    ColumnsCorrected(batch, corrected);
    var columns, out := AllColumns(batch), AllColumns(corrected);
    forall j | 0 <= j < |out| ensures NarrowGaps(out[j], 0.0) == 0 {
      PavaSorted(columns[j]);
      NarrowGapsZero(out[j], 0.0);
    }
    NarrowGapsOverZero(out, 0.0);
  }

  predicate Narrow(c: seq<real>, k: nat, margin: real) {
    0 < k < |c| && c[k] - c[k - 1] < margin
  }

  /** The positions whose gap to the value before is below the margin. */
  function NarrowAt(c: seq<real>, margin: real): set<nat> {
    set k: nat | k < |c| && Narrow(c, k, margin)
  }

  lemma {:induction false} NarrowGapsIsCount(c: seq<real>, margin: real)
    ensures NarrowGaps(c, margin) == |NarrowAt(c, margin)|
  {
    if |c| >= 2 {
      var n := |c| - 1;
      NarrowGapsIsCount(c[..n], margin);
      var before := NarrowAt(c[..n], margin);
      assert forall k: nat :: k < n ==> (Narrow(c, k, margin) <==> Narrow(c[..n], k, margin));
      assert NarrowAt(c, margin) == if Narrow(c, n, margin) then before + {n} else before;
    }
  }

  lemma {:induction false} NarrowAtMostPairs(columns: seq<seq<real>>, margin: real)
    ensures NarrowGapsOver(columns, margin) <= Pairs(columns)
  {
    if columns != [] {
      NarrowAtMostPairs(columns[..|columns| - 1], margin);
      NarrowAtMostLength(columns[|columns| - 1], margin);
    }
  }

  lemma {:induction false} NarrowAtMostLength(c: seq<real>, margin: real)
    ensures NarrowGaps(c, margin) <= if |c| > 0 then |c| - 1 else 0
  {
    if |c| >= 2 { NarrowAtMostLength(c[..|c| - 1], margin); }
  }

  lemma ShareBounds(n: nat, d: nat)
    requires 0 < d && n <= d
    ensures 0.0 <= n as real / d as real <= 1.0 && (n as real / d as real == 0.0 <==> n == 0)
  {
  }

  lemma ColumnSortedIff(c: seq<real>)
    ensures NarrowGaps(c, 0.0) == 0 <==> Sorted(c)
  {
    NarrowGapsZero(c, 0.0);
    if Gapped(c, 0.0) { GappedIsSorted(c, 0.0); }
  }

  /** The check passes exactly the batches whose columns are all non-decreasing; the rate it
      reports is a share, and zero for those batches only. */
  lemma MonotonicIff(columns: seq<seq<real>>)
    ensures var (ok, rate) := CheckMonotonicity(columns);
            && (ok <==> forall j, k, l :: 0 <= j < |columns| && 0 <= k < l < |columns[j]| ==>
                          columns[j][k] <= columns[j][l])
            && 0.0 <= rate <= 1.0 && (rate == 0.0 <==> ok)
  {
    NarrowGapsOverZero(columns, 0.0);
    forall j | 0 <= j < |columns| ensures NarrowGaps(columns[j], 0.0) == 0 <==> Sorted(columns[j]) {
      ColumnSortedIff(columns[j]);
    }
    NarrowAtMostPairs(columns, 0.0);
    ShareBounds(NarrowGapsOver(columns, 0.0), if Pairs(columns) > 1 then Pairs(columns) else 1);
  }

  /** For one column the rate is the number of steps down over the number of steps. */
  lemma RateOfColumn(c: seq<real>)
    requires |c| >= 2
    ensures CheckMonotonicity([c]).1 * (|c| - 1) as real == |set k: nat | k < |c| && Narrow(c, k, 0.0)| as real
  {
    NarrowGapsIsCount(c, 0.0);
    assert [c][..0] == [];
    assert NarrowGapsOver([c], 0.0) == NarrowGaps(c, 0.0) && Pairs([c]) == |c| - 1;
    ShareTimes(NarrowGaps(c, 0.0), |c| - 1);
  }

  lemma ShareTimes(n: nat, d: nat)
    requires d > 0
    ensures n as real / (if d > 1 then d else 1) as real * d as real == n as real
  {
  }

  ghost predicate Gapped(c: seq<real>, margin: real) {
    forall k :: 0 < k < |c| ==> c[k] - c[k - 1] >= margin
  }

  lemma {:induction false} GappedIsSorted(c: seq<real>, margin: real)
    requires Gapped(c, margin) && margin >= 0.0
    ensures Sorted(c)
  {
    if |c| >= 2 {
      var c' := c[..|c| - 1];
      GappedIsSorted(c', margin);
      assert c[|c| - 1] - c[|c| - 2] >= margin;
      SortedAppend(c', [c[|c| - 1]]);
      assert c == c' + [c[|c| - 1]];
    }
  }

  /** Values that come out strictly increasing went in that way. */
  lemma StrictlyIncreasingUnchanged(values: seq<real>)
    requires forall k :: 0 < k < |values| ==> Pava(values)[k - 1] < Pava(values)[k]
    ensures Pava(values) == values
  {
    PavaBalanced(values);
    forall k | 0 <= k < |values| ensures Pava(values)[k] == values[k] {
      BetweenBoundaries(Pava(values), values, k);
    }
  }

  lemma BetweenBoundaries(out: seq<real>, values: seq<real>, k: nat)
    requires Balanced(out, values) && k < |out| && Boundary(out, k) && Boundary(out, k + 1)
    ensures out[k] == values[k]
  {
    LeadAtBoundary(out, values, k);
    LeadAtBoundary(out, values, k + 1);
  }

  lemma LeadAtBoundary(out: seq<real>, values: seq<real>, k: nat)
    requires Balanced(out, values) && k <= |out| && Boundary(out, k)
    ensures Lead(out, values, k) == 0.0
  {
    LeadIsDifference(out, values, k);
  }

  lemma GappedAfterCorrection(values: seq<real>, margin: real)
    requires margin > 0.0
    ensures Gapped(Pava(values), margin) <==> Gapped(values, margin)
  {
    if Gapped(values, margin) {
      GappedIsSorted(values, margin);
      SortedUnchanged(values);
    }
    if Gapped(Pava(values), margin) {
      forall k | 0 < k < |values| ensures Pava(values)[k - 1] < Pava(values)[k] {
        assert Pava(values)[k] - Pava(values)[k - 1] >= margin;
      }
      StrictlyIncreasingUnchanged(values);
    }
  }

  /** The crossing penalty, unlike the check above, has a positive margin: correction clears
      the violations, and with them the penalty, exactly when the predictions already kept
      that margin in every column. */
  lemma CrossingPenaltyAfterCorrection(
      batch: seq<seq<seq<real>>>, corrected: seq<seq<seq<real>>>, weight: real, margin: real)
    requires BatchCorrected(batch, corrected) && Pairs(AllColumns(corrected)) > 0 && margin > 0.0 && weight > 0.0
    ensures var (loss, violations) := CrossingLoss(AllColumns(corrected), weight, margin);
            && (violations == 0 <==> forall j :: 0 <= j < |AllColumns(batch)| ==> Gapped(AllColumns(batch)[j], margin))
            && (loss == 0.0 <==> violations == 0)
  {
    ColumnsCorrected(batch, corrected);
    ViolationsAfterCorrection(AllColumns(batch), AllColumns(corrected), margin);
    LossZero(AllColumns(corrected), weight, margin);
  }

  lemma ViolationsAfterCorrection(columns: seq<seq<real>>, corrected: seq<seq<real>>, margin: real)
    requires AllCorrected(columns, corrected) && margin > 0.0
    ensures NarrowGapsOver(corrected, margin) == 0 <==> forall j :: 0 <= j < |columns| ==> Gapped(columns[j], margin)
  {
    NarrowGapsOverZero(corrected, margin);
    forall j | 0 <= j < |columns| ensures NarrowGaps(corrected[j], margin) == 0 <==> Gapped(columns[j], margin) {
      NarrowGapsZero(corrected[j], margin);
      GappedAfterCorrection(columns[j], margin);
    }
  }

  lemma LossZero(columns: seq<seq<real>>, weight: real, margin: real)
    requires Pairs(columns) > 0 && weight > 0.0
    ensures CrossingLoss(columns, weight, margin).0 == 0.0 <==> NarrowGapsOver(columns, margin) == 0
  {
    SquaredGapsOverZero(columns, margin);
    ScaledMeanZero(SquaredGapsOver(columns, margin), Pairs(columns) as real, weight);
  }

  lemma ScaledMeanZero(sum: real, n: real, weight: real)
    requires n > 0.0 && weight > 0.0
    ensures sum / n * weight == 0.0 <==> sum == 0.0
  {
    var q := sum / n;
    assert q * n == sum;
    if q > 0.0 { ProductLess(0.0, q, weight); }
    if q < 0.0 { ProductLess(q, 0.0, weight); }
  }
}

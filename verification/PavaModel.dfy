/** Pooling of adjacent violators, over exact reals.

    `Pool` is what the index-juggling loop of the isotonic correction computes, written as
    one left-to-right pass.  `PavaProofs` proves what `Pool` means; `Pava` proves the
    in-place loop equal to it. */
module PavaModel {
  import opened Reals

  ghost predicate Sorted(s: seq<real>) {
    forall i, j :: 0 <= i < j < |s| ==> s[i] <= s[j]
  }

  function Repeat(x: real, n: nat): (s: seq<real>)
    ensures |s| == n && forall i :: 0 <= i < n ==> s[i] == x
  {
    seq(n, i => x)
  }

  /** The length of the longest prefix of s whose elements are all below v. */
  function CountBelow(s: seq<real>, v: real): (n: nat)
    ensures n <= |s|
    ensures forall i :: 0 <= i < n ==> s[i] < v
    ensures n < |s| ==> s[n] >= v
  {
    if s == [] || s[0] >= v then 0 else 1 + CountBelow(s[1..], v)
  }

  function Mean(s: seq<real>): real
    requires s != []
  {
    Sum(s) / |s| as real
  }

  /** The mean of m values of mean avg together with x. */
  function Blend(avg: real, m: nat, x: real): real {
    (avg * m as real + x) / (m + 1) as real
  }

  /** Append m values of mean avg to a non-decreasing sequence, swallowing earlier values
      as long as they exceed the mean. */
  function Absorb(done: seq<real>, avg: real, m: nat): (r: seq<real>)
    ensures |r| == |done| + m
    decreases |done|
  {
    if done != [] && done[|done| - 1] > avg then
      Absorb(done[..|done| - 1], Blend(avg, m, done[|done| - 1]), m + 1)
    else done + Repeat(avg, m)
  }

  /** Take the next value with everything after it that lies below it as one block. */
  function Pool(done: seq<real>, rest: seq<real>): (r: seq<real>)
    ensures |r| == |done| + |rest|
    decreases |rest|
  {
    if rest == [] then done
    else
      var m := 1 + CountBelow(rest[1..], rest[0]);
      Pool(Absorb(done, Mean(rest[..m]), m), rest[m..])
  }

  function Pava(values: seq<real>): (r: seq<real>)
    ensures |r| == |values|
  {
    Pool([], values)
  }

  /** One round of the loop at a violation v > rest[0]: v and the values below it that
      follow are replaced by their mean. */
  function Merge(done: seq<real>, v: real, rest: seq<real>): (r: seq<real>)
    ensures |r| == |done| + 1 + |rest|
  {
    var m := 1 + CountBelow(rest, v);
    (done + Repeat(Mean(([v] + rest)[..m]), m)) + rest[m - 1..]
  }
}

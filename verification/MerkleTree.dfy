/** Merkle trees over any type of digest and any way of combining two of them. */
module MerkleTree {

  // ----- bottom up -----

  /** The next level: pairs are combined, an odd last digest is promoted as it is. */
  function Level<D>(combine: (D, D) -> D, digests: seq<D>): (next: seq<D>)
    ensures |next| == (|digests| + 1) / 2
  {
    seq((|digests| + 1) / 2, i requires 0 <= i < (|digests| + 1) / 2 =>
      if 2 * i + 1 < |digests| then combine(digests[2 * i], digests[2 * i + 1]) else digests[2 * i])
  }

  function Fold<D>(combine: (D, D) -> D, digests: seq<D>): D
    requires digests != []
    decreases |digests|
  {
    if |digests| == 1 then digests[0] else Fold(combine, Level(combine, digests))
  }

  // ----- the recursive tree -----

  /** The largest power of two below n. */
  function Split(n: nat): (k: nat)
    requires n > 1
    ensures 0 < k < n
  {
    if n == 2 then 1 else 2 * Split((n + 1) / 2)
  }

  ghost predicate IsPowerOfTwo(k: nat) {
    k == 1 || (k > 0 && k % 2 == 0 && IsPowerOfTwo(k / 2))
  }

  lemma {:induction false} SplitIsLargestPower(n: nat)
    requires n > 1
    ensures IsPowerOfTwo(Split(n)) && Split(n) < n <= 2 * Split(n)
  {
    if n > 2 {
      SplitIsLargestPower((n + 1) / 2);
    }
  }

  /** The Merkle tree hash of the n digests from position lo on, as in section 2.1 of
      RFC 6962 but without its prefix bytes: split at the largest power of two below n,
      combine the two halves. */
  function Tree<D>(combine: (D, D) -> D, digests: seq<D>, lo: nat, n: nat): D
    requires n > 0 && lo + n <= |digests|
    decreases n
  {
    if n == 1 then digests[lo]
    else
      var k := Split(n);
      combine(Tree(combine, digests, lo, k), Tree(combine, digests, lo + k, n - k))
  }

  lemma SplitOfHalf(n: nat, m: nat) returns (k: nat, j: nat)
    requires n > 2 && m == (n + 1) / 2
    ensures k == Split(n) && j == Split(m) && k == 2 * j && j == (k + 1) / 2 && m - j == (n - k + 1) / 2
    ensures m > 1 && k % 2 == 0 && (n - k) % 2 == n % 2
  {
    k, j := Split(n), Split(m);
    HalfFacts(n, m, k, j);
  }

  lemma HalfFacts(n: nat, m: nat, k: nat, j: nat)
    requires n > 2 && m == (n + 1) / 2 && k == 2 * j
    ensures j == (k + 1) / 2 && m - j == (n - k + 1) / 2 && m > 1 && k % 2 == 0 && (n - k) % 2 == n % 2
  {
  }

  ghost predicate IsLevel<D>(combine: (D, D) -> D, digests: seq<D>, next: seq<D>) {
    |next| == (|digests| + 1) / 2
    && forall i :: 0 <= i < |next| ==>
         next[i] == if 2 * i + 1 < |digests| then combine(digests[2 * i], digests[2 * i + 1]) else digests[2 * i]
  }

  /** One level of combining does not change the tree, nor any of its subtrees that start
      at an even position and end at one, or at the end of the list. */
  lemma {:induction false} TreeOfLevel<D>(combine: (D, D) -> D, digests: seq<D>, next: seq<D>, lo: nat, n: nat, m: nat)
    requires IsLevel(combine, digests, next) && m == (n + 1) / 2
    requires n > 0 && 2 * lo + n <= |digests| && (n % 2 == 0 || 2 * lo + n == |digests|)
    ensures Tree(combine, next, lo, m) == Tree(combine, digests, 2 * lo, n)
    decreases n
  {
    if n <= 2 {
      TreeOfTwo(combine, digests, next, lo, n);
    } else {
      var k, j := SplitOfHalf(n, m);
      TreeOfLevel(combine, digests, next, lo, k, j);
      TreeOfLevel(combine, digests, next, lo + j, n - k, m - j);
      SameHalves(combine, digests, 2 * lo, n, k, next, lo, m, j);
    }
  }

  lemma SameHalves<D>(combine: (D, D) -> D, a: seq<D>, lo: nat, n: nat, k: nat, b: seq<D>, mo: nat, m: nat, j: nat)
    requires n > 1 && lo + n <= |a| && k == Split(n) && m > 1 && mo + m <= |b| && j == Split(m)
    requires Tree(combine, b, mo, j) == Tree(combine, a, lo, k)
    requires Tree(combine, b, mo + j, m - j) == Tree(combine, a, lo + k, n - k)
    ensures Tree(combine, b, mo, m) == Tree(combine, a, lo, n)
  {
  }

  lemma TreeOfTwo<D>(combine: (D, D) -> D, digests: seq<D>, next: seq<D>, lo: nat, n: nat)
    requires IsLevel(combine, digests, next) && 1 <= n <= 2 && 2 * lo + n <= |digests|
    requires n == 2 || 2 * lo + 1 == |digests|
    ensures Tree(combine, next, lo, 1) == Tree(combine, digests, 2 * lo, n)
  {
    assert next[lo] == if n == 2 then combine(digests[2 * lo], digests[2 * lo + 1]) else digests[2 * lo];
  }

  /** The bottom-up computation yields the recursive tree. */
  lemma {:induction false} FoldIsTree<D>(combine: (D, D) -> D, digests: seq<D>)
    requires digests != []
    ensures Fold(combine, digests) == Tree(combine, digests, 0, |digests|)
    decreases |digests|
  {
    if |digests| > 1 {
      TreeOfLevel(combine, digests, Level(combine, digests), 0, |digests|, (|digests| + 1) / 2);
      FoldIsTree(combine, Level(combine, digests));
    }
  }

  // ----- keeping the order of what is combined -----

  /** Combined in the free way, digests become binary trees. */
  datatype Shape<T> = Leaf(text: T) | Node(left: Shape<T>, right: Shape<T>)

  function MakeNode<T>(): (Shape<T>, Shape<T>) -> Shape<T> {
    (l: Shape<T>, r: Shape<T>) => Node(l, r)
  }

  function Leaves<T>(s: Shape<T>): (l: seq<T>)
    ensures l != []
  {
    match s
    case Leaf(t) => [t]
    case Node(l, r) => Leaves(l) + Leaves(r)
  }

  function AllLeaves<T>(shapes: seq<Shape<T>>): seq<T> {
    if shapes == [] then [] else AllLeaves(shapes[..|shapes| - 1]) + Leaves(shapes[|shapes| - 1])
  }

  // The leaves of the first i shapes of a level are those of the first 2 i shapes below.
  lemma {:induction false} LeavesOfLevel<T>(shapes: seq<Shape<T>>, next: seq<Shape<T>>, i: nat, j: nat)
    requires IsLevel(MakeNode(), shapes, next) && i <= |next| && j == (if 2 * i <= |shapes| then 2 * i else |shapes|)
    ensures AllLeaves(next[..i]) == AllLeaves(shapes[..j])
  {
    if i > 0 {
      LeavesOfLevel(shapes, next, i - 1, 2 * (i - 1));
      assert next[..i][..i - 1] == next[..i - 1];
      if j == 2 * i {
        assert shapes[..j][..j - 1] == shapes[..j - 1] && shapes[..j - 1][..j - 2] == shapes[..j - 2];
        Associate(AllLeaves(shapes[..j - 2]), Leaves(shapes[j - 2]), Leaves(shapes[j - 1]));
      } else {
        assert shapes[..j][..j - 1] == shapes[..j - 1];
      }
    }
  }

  lemma Associate<T>(a: seq<T>, b: seq<T>, c: seq<T>)
    ensures (a + b) + c == a + (b + c)
  {
  }

  /** The tree that the bottom-up computation builds has the given leaves, in order. */
  lemma {:induction false} LeavesOfFold<T>(shapes: seq<Shape<T>>)
    requires shapes != []
    ensures Leaves(Fold(MakeNode(), shapes)) == AllLeaves(shapes)
    decreases |shapes|
  {
    if |shapes| == 1 {
      assert shapes[..0] == [];
    } else {
      var next := Level(MakeNode(), shapes);
      LeavesOfFold(next);
      LeavesOfLevel(shapes, next, |next|, |shapes|);
      assert next[..|next|] == next && shapes[..|shapes|] == shapes;
    }
  }
}

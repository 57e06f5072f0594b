/** The Merkle root of a daily batch, and what equal roots say about two batches. */
module MerkleModel {
  // The hash is any function from strings to 64 hexadecimal digits.  Such a function has
  // collisions; the statements below only ask that it has none among the strings that the
  // two computations feed to it.

  import opened Wrappers
  import opened Decimal
  import opened MerkleTree

  predicate IsHex(c: char) {
    '0' <= c <= '9' || 'a' <= c <= 'f'
  }

  predicate IsDigest(s: string) {
    |s| == 64 && forall i :: 0 <= i < |s| ==> IsHex(s[i])
  }

  type Hash = string -> string

  ghost predicate GivesDigests(h: Hash) {
    forall x :: IsDigest(h(x))
  }

  datatype ExecutionLog = ExecutionLog(
    timestamp: int, strategy: int, symbol: string, side: string, quantity: int, price: int,
    orderId: int, fillId: Option<int>, venue: int)

  function JoinWithColons(parts: seq<string>): string {
    if parts == [] then [] else if |parts| == 1 then parts[0]
    else parts[0] + ":" + JoinWithColons(parts[1..])
  }

  /** The text that is hashed for one log entry. */
  function LeafText(log: ExecutionLog): string {
    JoinWithColons([IntString(log.timestamp), IntString(log.strategy), log.symbol,
                    IntString(log.quantity), IntString(log.price)])
  }

  function LeafTexts(logs: seq<ExecutionLog>): seq<string> {
    seq(|logs|, i requires 0 <= i < |logs| => LeafText(logs[i]))
  }

  function HashAll(h: Hash, texts: seq<string>): seq<string> {
    seq(|texts|, i requires 0 <= i < |texts| => h(texts[i]))
  }

  /** Two digests are combined by hashing their concatenation. */
  function Pair(h: Hash): (string, string) -> string {
    (a: string, b: string) => h(a + b)
  }

  const EMPTY_BATCH := "EMPTY_BATCH"

  function MerkleRoot(h: Hash, logs: seq<ExecutionLog>): string {
    if logs == [] then h(EMPTY_BATCH) else Fold(Pair(h), HashAll(h, LeafTexts(logs)))
  }

  /** The root of a batch is the RFC 6962 tree hash of its leaf hashes; without any entries it
      is the hash of a fixed text. */
  lemma RootIsTreeHash(h: Hash, logs: seq<ExecutionLog>)
    ensures MerkleRoot(h, logs) ==
            if logs == [] then h("EMPTY_BATCH") else Tree(Pair(h), HashAll(h, LeafTexts(logs)), 0, |logs|)
  {
    if logs != [] { FoldIsTree(Pair(h), HashAll(h, LeafTexts(logs))); }
  }

  // ----- what the root binds -----

  /** The digest of a tree of texts. */
  function Digest(h: Hash, s: Shape<string>): string {
    match s
    case Leaf(t) => h(t)
    case Node(l, r) => h(Digest(h, l) + Digest(h, r))
  }

  /** Every string that is hashed on the way to it. */
  function Inputs(h: Hash, s: Shape<string>): set<string> {
    match s
    case Leaf(t) => {t}
    case Node(l, r) => {Digest(h, l) + Digest(h, r)} + Inputs(h, l) + Inputs(h, r)
  }

  function TextShapes(texts: seq<string>): (s: seq<Shape<string>>)
    ensures |s| == |texts|
  {
    seq(|texts|, i requires 0 <= i < |texts| => Leaf(texts[i]))
  }

  /** The tree of texts whose digest is the root of a batch. */
  function BatchShape(logs: seq<ExecutionLog>): Shape<string>
    requires logs != []
  {
    Fold(MakeNode(), TextShapes(LeafTexts(logs)))
  }

  ghost predicate DigestsOf(h: Hash, digests: seq<string>, shapes: seq<Shape<string>>) {
    |digests| == |shapes| && forall i :: 0 <= i < |shapes| ==> digests[i] == Digest(h, shapes[i])
  }

  lemma DigestsOfLevel(h: Hash, digests: seq<string>, shapes: seq<Shape<string>>)
    requires DigestsOf(h, digests, shapes)
    ensures DigestsOf(h, Level(Pair(h), digests), Level(MakeNode(), shapes))
  {
  }

  /** Hashing level by level gives the digest of the tree built level by level. */
  lemma {:induction false} FoldIsDigest(h: Hash, digests: seq<string>, shapes: seq<Shape<string>>)
    requires digests != [] && DigestsOf(h, digests, shapes)
    ensures Fold(Pair(h), digests) == Digest(h, Fold(MakeNode(), shapes))
    decreases |digests|
  {
    if |digests| > 1 {
      DigestsOfLevel(h, digests, shapes);
      FoldIsDigest(h, Level(Pair(h), digests), Level(MakeNode(), shapes));
    }
  }

  lemma RootIsDigest(h: Hash, logs: seq<ExecutionLog>)
    requires logs != []
    ensures MerkleRoot(h, logs) == Digest(h, BatchShape(logs))
  {
    FoldIsDigest(h, HashAll(h, LeafTexts(logs)), TextShapes(LeafTexts(logs)));
  }

  lemma {:induction false} LeavesOfTexts(texts: seq<string>)
    ensures AllLeaves(TextShapes(texts)) == texts
  {
    if texts != [] {
      var n := |texts| - 1;
      LeavesOfTexts(texts[..n]);
      assert TextShapes(texts)[..n] == TextShapes(texts[..n]);
    }
  }

  lemma LeavesOfBatch(logs: seq<ExecutionLog>)
    requires logs != []
    ensures Leaves(BatchShape(logs)) == LeafTexts(logs)
  {
    LeavesOfFold(TextShapes(LeafTexts(logs)));
    LeavesOfTexts(LeafTexts(logs));
  }

  ghost predicate CollisionFree(h: Hash, inputs: set<string>) {
    forall x, y :: x in inputs && y in inputs && h(x) == h(y) ==> x == y
  }

  predicate IsLeafText(s: string) {
    ':' in s
  }

  ghost predicate LeafTextsOnly(s: Shape<string>) {
    match s
    case Leaf(t) => IsLeafText(t)
    case Node(l, r) => LeafTextsOnly(l) && LeafTextsOnly(r)
  }

  lemma DigestPairs(a: string, b: string, c: string, d: string)
    requires IsDigest(a) && IsDigest(b) && IsDigest(c) && IsDigest(d) && a + b == c + d
    ensures a == c && b == d
  {
    assert (a + b)[..64] == a && (c + d)[..64] == c;
    assert (a + b)[64..] == b && (c + d)[64..] == d;
  }

  /** The string hashed last: a leaf text, which has a colon, or a pair of digests, which
      has none; never the marker of an empty batch. */
  lemma LastInput(h: Hash, s: Shape<string>) returns (x: string)
    requires GivesDigests(h) && LeafTextsOnly(s)
    ensures x in Inputs(h, s) && Digest(h, s) == h(x) && x != EMPTY_BATCH && (IsLeafText(x) <==> s.Leaf?)
    ensures s.Leaf? ==> x == s.text
    ensures s.Node? ==> x == Digest(h, s.left) + Digest(h, s.right)
  {
    match s
    case Leaf(t) => x := t;
    case Node(l, r) =>
      ShapeHasDigest(h, l);
      ShapeHasDigest(h, r);
      x := Digest(h, l) + Digest(h, r);
  }

  lemma ShapeHasDigest(h: Hash, s: Shape<string>)
    requires GivesDigests(h)
    ensures IsDigest(Digest(h, s))
  {
  }

  /** Trees with equal digests are equal, whatever their sizes. */
  lemma {:induction false} EqualDigests(h: Hash, a: Shape<string>, b: Shape<string>, inputs: set<string>)
    requires GivesDigests(h) && LeafTextsOnly(a) && LeafTextsOnly(b)
    requires Inputs(h, a) <= inputs && Inputs(h, b) <= inputs && CollisionFree(h, inputs)
    requires Digest(h, a) == Digest(h, b)
    ensures a == b
  {
    var x := LastInput(h, a);
    var y := LastInput(h, b);
    assert x == y;
    if a.Node? {
      ShapeHasDigest(h, a.left);
      ShapeHasDigest(h, a.right);
      ShapeHasDigest(h, b.left);
      ShapeHasDigest(h, b.right);
      DigestPairs(Digest(h, a.left), Digest(h, a.right), Digest(h, b.left), Digest(h, b.right));
      EqualDigests(h, a.left, b.left, inputs);
      EqualDigests(h, a.right, b.right, inputs);
    }
  }

  function BatchInputs(h: Hash, logs: seq<ExecutionLog>): set<string> {
    if logs == [] then {EMPTY_BATCH} else Inputs(h, BatchShape(logs))
  }

  lemma LeafTextUnfolds(log: ExecutionLog)
    ensures LeafText(log) ==
            IntString(log.timestamp) + ":" + (IntString(log.strategy) + ":" +
              ((log.symbol + ":" + IntString(log.quantity)) + ":" + IntString(log.price)))
  {
    var a, b, c := IntString(log.timestamp), IntString(log.strategy), log.symbol;
    var d, e := IntString(log.quantity), IntString(log.price);
    JoinFive(a, b, c, d, e);
    assert c + ":" + (d + ":" + e) == (c + ":" + d) + ":" + e;
  }

  lemma JoinFive(a: string, b: string, c: string, d: string, e: string)
    ensures JoinWithColons([a, b, c, d, e]) == a + ":" + (b + ":" + (c + ":" + (d + ":" + e)))
  {
    assert [a, b, c, d, e][1..] == [b, c, d, e];
    assert [b, c, d, e][1..] == [c, d, e];
    assert [c, d, e][1..] == [d, e];
    assert [d, e][1..] == [e];
    assert JoinWithColons([d, e]) == d + ":" + e;
    assert JoinWithColons([c, d, e]) == c + ":" + JoinWithColons([d, e]);
    assert JoinWithColons([b, c, d, e]) == b + ":" + JoinWithColons([c, d, e]);
  }

  lemma LeafTextHasColon(log: ExecutionLog)
    ensures IsLeafText(LeafText(log))
  {
    LeafTextUnfolds(log);
    assert LeafText(log)[|IntString(log.timestamp)|] == ':';
  }

  lemma {:induction false} LeavesDecide(s: Shape<string>)
    requires forall i :: 0 <= i < |Leaves(s)| ==> IsLeafText(Leaves(s)[i])
    ensures LeafTextsOnly(s)
  {
    if s.Leaf? {
      assert Leaves(s)[0] == s.text;
    } else {
      var l := Leaves(s.left);
      assert forall i :: 0 <= i < |l| ==> Leaves(s)[i] == l[i];
      var r := Leaves(s.right);
      forall i | 0 <= i < |r| ensures IsLeafText(r[i]) {
        assert Leaves(s)[|l| + i] == r[i];
      }
      LeavesDecide(s.left);
      LeavesDecide(s.right);
    }
  }

  lemma BatchHasLeafTexts(logs: seq<ExecutionLog>)
    requires logs != []
    ensures LeafTextsOnly(BatchShape(logs))
  {
    LeavesOfBatch(logs);
    forall i | 0 <= i < |LeafTexts(logs)| ensures IsLeafText(LeafTexts(logs)[i]) {
      LeafTextHasColon(logs[i]);
    }
    LeavesDecide(BatchShape(logs));
  }

  /** Equal roots mean equal sequences of leaf texts, empty batches included. */
  lemma EqualRootsEqualTexts(h: Hash, a: seq<ExecutionLog>, b: seq<ExecutionLog>)
    requires GivesDigests(h) && CollisionFree(h, BatchInputs(h, a) + BatchInputs(h, b))
    requires MerkleRoot(h, a) == MerkleRoot(h, b)
    ensures LeafTexts(a) == LeafTexts(b)
  {
    if a != [] && b != [] {
      RootIsDigest(h, a);
      RootIsDigest(h, b);
      BatchHasLeafTexts(a);
      BatchHasLeafTexts(b);
      EqualDigests(h, BatchShape(a), BatchShape(b), BatchInputs(h, a) + BatchInputs(h, b));
      LeavesOfBatch(a);
      LeavesOfBatch(b);
    } else if a != [] {
      NonEmptyRootDiffers(h, a);
    } else if b != [] {
      NonEmptyRootDiffers(h, b);
    }
  }

  lemma NonEmptyRootDiffers(h: Hash, logs: seq<ExecutionLog>)
    requires GivesDigests(h) && logs != [] && CollisionFree(h, {EMPTY_BATCH} + BatchInputs(h, logs))
    ensures MerkleRoot(h, logs) != h(EMPTY_BATCH)
  {
    RootIsDigest(h, logs);
    BatchHasLeafTexts(logs);
    var x := LastInput(h, BatchShape(logs));
  }

  // ----- from texts back to entries -----

  /** The part of an entry that its text contains. */
  datatype Bound = Bound(timestamp: int, strategy: int, symbol: string, quantity: int, price: int)

  function BoundPart(log: ExecutionLog): Bound {
    Bound(log.timestamp, log.strategy, log.symbol, log.quantity, log.price)
  }

  function BoundParts(logs: seq<ExecutionLog>): seq<Bound> {
    seq(|logs|, i requires 0 <= i < |logs| => BoundPart(logs[i]))
  }

  function FirstColon(s: string): nat {
    if s == [] || s[0] == ':' then 0 else 1 + FirstColon(s[1..])
  }

  function LastColon(s: string): int {
    if s == [] || s[|s| - 1] == ':' then |s| - 1 else LastColon(s[..|s| - 1])
  }

  lemma {:induction false} FirstColonAfter(x: string, r: string)
    requires ':' !in x
    ensures FirstColon(x + ":" + r) == |x|
  {
    if x != [] {
      assert (x + ":" + r)[1..] == x[1..] + ":" + r;
      FirstColonAfter(x[1..], r);
    }
  }

  lemma {:induction false} LastColonBefore(r: string, x: string)
    requires ':' !in x
    ensures LastColon(r + ":" + x) == |r|
  {
    var s := r + ":" + x;
    if x != [] {
      assert s[..|s| - 1] == r + ":" + x[..|x| - 1];
      LastColonBefore(r, x[..|x| - 1]);
    }
  }

  lemma IntStringHasNoColon(n: int)
    ensures ':' !in IntString(n)
  {
  }

  /** What stands before and after the first colon, and the same for the last. */
  function BeforeFirst(s: string): (string, string) {
    var k := FirstColon(s);
    if k < |s| then (s[..k], s[k + 1..]) else (s, "")
  }

  function AroundLast(s: string): (string, string) {
    var k := LastColon(s);
    if 0 <= k < |s| then (s[..k], s[k + 1..]) else ("", s)
  }

  lemma ReadFirst(x: string, r: string)
    requires ':' !in x
    ensures BeforeFirst(x + ":" + r) == (x, r)
  {
    FirstColonAfter(x, r);
    var s := x + ":" + r;
    assert s[..|x|] == x && s[|x| + 1..] == r;
  }

  lemma ReadLast(r: string, x: string)
    requires ':' !in x
    ensures AroundLast(r + ":" + x) == (r, x)
  {
    LastColonBefore(r, x);
    var s := r + ":" + x;
    assert s[..|r|] == r && s[|r| + 1..] == x;
  }

  /** The fields of a leaf text: two numbers from the front, two from the back, and between
      them the symbol, whatever colons it has. */
  function ReadLeaf(text: string): Bound {
    var (timestamp, rest) := BeforeFirst(text);
    var (strategy, tail) := BeforeFirst(rest);
    var (front, price) := AroundLast(tail);
    var (symbol, quantity) := AroundLast(front);
    Bound(ReadInt(timestamp), ReadInt(strategy), symbol, ReadInt(quantity), ReadInt(price))
  }

  /** Reading the text that is hashed for an entry gives back five of its fields. */
  lemma ReadLeafText(log: ExecutionLog)
    ensures ReadLeaf(LeafText(log)) == BoundPart(log)
  {
    var a, b, d, e := IntString(log.timestamp), IntString(log.strategy), IntString(log.quantity), IntString(log.price);
    LeafTextUnfolds(log);
    ReadIntString(log.timestamp);
    ReadIntString(log.strategy);
    ReadIntString(log.quantity);
    ReadIntString(log.price);
    IntStringHasNoColon(log.timestamp);
    IntStringHasNoColon(log.strategy);
    IntStringHasNoColon(log.quantity);
    IntStringHasNoColon(log.price);
    ReadFirst(a, b + ":" + ((log.symbol + ":" + d) + ":" + e));
    ReadFirst(b, (log.symbol + ":" + d) + ":" + e);
    ReadLast(log.symbol + ":" + d, e);
    ReadLast(log.symbol, d);
  }

  /** So the text determines those fields, even when the symbol has colons. */
  lemma LeafTextInjective(a: ExecutionLog, b: ExecutionLog)
    requires LeafText(a) == LeafText(b)
    ensures BoundPart(a) == BoundPart(b)
  {
    ReadLeafText(a);
    ReadLeafText(b);
  }

  /** Two batches have the same root exactly when they agree, entry by entry and in order,
      on timestamp, strategy, symbol, quantity and price.  The root says nothing about side,
      order id, fill id or venue. */
  lemma EqualRootsIff(h: Hash, a: seq<ExecutionLog>, b: seq<ExecutionLog>)
    requires GivesDigests(h) && CollisionFree(h, BatchInputs(h, a) + BatchInputs(h, b))
    ensures MerkleRoot(h, a) == MerkleRoot(h, b) <==> BoundParts(a) == BoundParts(b)
  {
    if MerkleRoot(h, a) == MerkleRoot(h, b) {
      EqualRootsEqualTexts(h, a, b);
      assert |LeafTexts(a)| == |a| && |LeafTexts(b)| == |b|;
      forall i | 0 <= i < |a| ensures BoundPart(a[i]) == BoundPart(b[i]) {
        assert LeafTexts(a)[i] == LeafTexts(b)[i];
        LeafTextInjective(a[i], b[i]);
      }
    }
    if BoundParts(a) == BoundParts(b) {
      EqualPartsEqualTexts(a, b);
      assert a == [] <==> b == [];
    }
  }

  lemma EqualPartsEqualTexts(a: seq<ExecutionLog>, b: seq<ExecutionLog>)
    requires BoundParts(a) == BoundParts(b)
    ensures |a| == |b| && LeafTexts(a) == LeafTexts(b)
  {
    assert |BoundParts(a)| == |a| && |BoundParts(b)| == |b|;
    forall i | 0 <= i < |a| ensures LeafText(a[i]) == LeafText(b[i]) {
      assert BoundParts(a)[i] == BoundParts(b)[i];
    }
  }
}

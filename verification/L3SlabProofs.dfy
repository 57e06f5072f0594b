/** What the slab's link surgery means. */
module L3SlabProofs {
  // `Book` is the intended meaning of a slab: the order in which free slots will be handed
  // out, the queue of every price level, and the live orders by slot.  Every operation,
  // used with care (an order is queued once, as a new level or behind a level's true tail, and
  // unlinked before it is freed), acts on the records as the plain list operation acts on the
  // book.

  import opened Wrappers
  import opened L3SlabModel

  datatype Book = Book(free: seq<nat>, levels: seq<seq<nat>>, orders: map<nat, Order>)

  function NextIn(l: seq<nat>, i: nat): nat {
    if i + 1 < |l| then l[i + 1] else INVALID_ORDER_INDEX
  }

  function PrevIn(l: seq<nat>, i: nat): nat
    requires i <= |l|
  {
    if i > 0 then l[i - 1] else INVALID_ORDER_INDEX
  }

  ghost predicate FreeEntryOk(r: seq<OrderRecord>, free: seq<nat>, i: nat)
    requires i < |free|
  {
    free[i] < |r| && !r[free[i]].occupied && r[free[i]].nextIndex == NextIn(free, i)
  }

  /** The chain from the head visits exactly the unoccupied slots, each once, and ends. */
  ghost predicate FreeListOk(s: Slab, free: seq<nat>) {
    && s.freeListHead == (if free == [] then INVALID_ORDER_INDEX else free[0])
    && (forall i :: 0 <= i < |free| ==> FreeEntryOk(s.records, free, i))
    && (forall i, j :: 0 <= i < j < |free| ==> free[i] != free[j])
    && (forall x :: 0 <= x < |s.records| && !s.records[x].occupied ==> x in free)
    && s.allocatedCount + |free| == MAX_ORDER_RECORDS
  }

  ghost predicate EntryOk(r: seq<OrderRecord>, l: seq<nat>, i: nat)
    requires i < |l|
  {
    && IsLive(r, l[i])
    && r[l[i]].nextIndex == NextIn(l, i)
    && r[l[i]].prevIndex == PrevIn(l, i)
    && r[l[i]].queuePosition == i + 1
  }

  /** A level is an acyclic doubly linked list whose k-th order holds queue position k. */
  ghost predicate LevelOk(r: seq<OrderRecord>, l: seq<nat>) {
    forall i :: 0 <= i < |l| ==> EntryOk(r, l, i)
  }

  ghost predicate Apart(l: seq<nat>, m: seq<nat>) {
    forall x :: x in l ==> x !in m
  }

  ghost predicate LevelsOk(r: seq<OrderRecord>, levels: seq<seq<nat>>) {
    && (forall k :: 0 <= k < |levels| ==> LevelOk(r, levels[k]))
    && (forall k, m :: 0 <= k < |levels| && 0 <= m < |levels| && k != m ==> Apart(levels[k], levels[m]))
  }

  ghost predicate Queued(levels: seq<seq<nat>>, x: nat) {
    exists k :: 0 <= k < |levels| && x in levels[k]
  }

  /** Slots hold exactly the live orders. */
  ghost predicate OrdersOk(r: seq<OrderRecord>, orders: map<nat, Order>) {
    && (forall x :: x in orders <==> IsLive(r, x))
    && (forall x :: x in orders ==> r[x].order == orders[x])
  }

  /** A live order in no level has no links. */
  ghost predicate LooseOk(r: seq<OrderRecord>, levels: seq<seq<nat>>) {
    forall x: nat :: IsLive(r, x) && !Queued(levels, x) ==>
      r[x].nextIndex == INVALID_ORDER_INDEX && r[x].prevIndex == INVALID_ORDER_INDEX
  }

  ghost predicate Represents(s: Slab, b: Book) {
    && InBounds(s)
    && FreeListOk(s, b.free)
    && LevelsOk(s.records, b.levels)
    && OrdersOk(s.records, b.orders)
    && LooseOk(s.records, b.levels)
    && s.allocatedCount == |b.orders|
  }

  // ----- reading a represented slab -----

  lemma LevelDistinct(r: seq<OrderRecord>, l: seq<nat>, i: nat, j: nat)
    requires LevelOk(r, l) && i < |l| && j < |l| && i != j
    ensures l[i] != l[j]
  {
    assert EntryOk(r, l, i) && EntryOk(r, l, j);
  }

  lemma LevelFrame(r: seq<OrderRecord>, r': seq<OrderRecord>, l: seq<nat>)
    requires LevelOk(r, l) && |r'| == |r|
    requires forall x :: x in l && x < |r| ==> r'[x] == r[x]
    ensures LevelOk(r', l)
  {
    forall i | 0 <= i < |l| ensures EntryOk(r', l, i) {
      assert EntryOk(r, l, i) && l[i] in l;
    }
  }

  /** No level touches the free list. */
  lemma FreeApartFromLevels(s: Slab, b: Book, k: nat)
    requires Represents(s, b) && k < |b.levels|
    ensures Apart(b.levels[k], b.free)
  {
    forall x | x in b.levels[k] ensures x !in b.free {
      var i :| 0 <= i < |b.levels[k]| && b.levels[k][i] == x;
      assert EntryOk(s.records, b.levels[k], i);
      forall j | 0 <= j < |b.free| ensures b.free[j] != x {
        assert FreeEntryOk(s.records, b.free, j);
      }
    }
  }

  /** The slots met by following next links for n steps. */
  function Walk(r: seq<OrderRecord>, from: nat, n: nat): seq<nat>
    decreases n
  {
    if n == 0 || from >= |r| then [] else [from] + Walk(r, r[from].nextIndex, n - 1)
  }

  /** Following the links from the head yields the free list, which then ends: its
      length is the number of slots not allocated. */
  lemma {:induction false} WalkIsFreeList(s: Slab, b: Book, i: nat, n: nat)
    requires Represents(s, b) && i <= |b.free| <= i + n
    ensures Walk(s.records, if i < |b.free| then b.free[i] else INVALID_ORDER_INDEX, n) == b.free[i..]
    ensures |b.free| == MAX_ORDER_RECORDS - s.allocatedCount
    decreases n
  {
    if i < |b.free| {
      assert FreeEntryOk(s.records, b.free, i);
      WalkIsFreeList(s, b, i + 1, n - 1);
    }
  }

  /** With unique live ids, the scan is the lookup of a map from ids to slots. */
  lemma FindIsLookup(s: Slab, b: Book, id: nat, slot: Option<nat>)
    requires Represents(s, b) && IsFirstMatch(s.records, id, slot)
    requires forall x, y :: x in b.orders && y in b.orders && b.orders[x].id == b.orders[y].id ==> x == y
    ensures forall x :: slot == Some(x) <==> x in b.orders && b.orders[x].id == id
    ensures slot == None <==> forall x :: x in b.orders ==> b.orders[x].id != id
  {
    forall x ensures slot == Some(x) <==> x in b.orders && b.orders[x].id == id {
      if x in b.orders && b.orders[x].id == id {
        assert Matches(s.records[x], id);
      }
    }
  }

  // ----- the operations on books -----

  function Without(l: seq<nat>, x: nat): (w: seq<nat>)
    ensures x !in l ==> w == l
  {
    if l == [] then []
    else if l[0] == x then l[1..]
    else [l[0]] + Without(l[1..], x)
  }

  lemma {:induction false} WithoutAt(l: seq<nat>, i: nat)
    requires i < |l| && forall j :: 0 <= j < i ==> l[j] != l[i]
    ensures Without(l, l[i]) == l[..i] + l[i + 1..]
  {
    if i > 0 {
      assert l[1..][i - 1] == l[i];
      forall j | 0 <= j < i - 1 ensures l[1..][j] != l[1..][i - 1] {
        assert l[1..][j] == l[j + 1];
      }
      WithoutAt(l[1..], i - 1);
      assert l[..i] + l[i + 1..] == [l[0]] + (l[1..][..i - 1] + l[1..][i..]);
    }
  }

  const INITIAL_BOOK := Book(seq(MAX_ORDER_RECORDS, i requires 0 <= i => i), [], map[])

  function BookAllocate(b: Book, o: Order): Book {
    if b.free == [] then b
    else b.(free := b.free[1..], orders := b.orders[b.free[0] := o])
  }

  function BookAppend(b: Book, x: nat, k: nat): Book
    requires k < |b.levels|
  {
    b.(levels := b.levels[k := b.levels[k] + [x]])
  }

  function BookNewLevel(b: Book, x: nat): Book {
    b.(levels := b.levels + [[x]])
  }

  function LevelsWithout(levels: seq<seq<nat>>, x: nat): seq<seq<nat>> {
    seq(|levels|, k requires 0 <= k < |levels| => Without(levels[k], x))
  }

  function BookCancel(b: Book, x: nat): Book {
    if x !in b.orders then b
    else Book([x] + b.free,
              LevelsWithout(b.levels, x),
              b.orders - {x})
  }

  lemma InitialRepresents()
    ensures Represents(Initial(), INITIAL_BOOK)
  {
    var s, b := Initial(), INITIAL_BOOK;
    forall i | 0 <= i < |b.free| ensures FreeEntryOk(s.records, b.free, i) {
      assert s.records[i] == FreshRecord(i);
    }
    forall x | 0 <= x < |s.records| ensures x in b.free && !s.records[x].occupied {
      assert b.free[x] == x && s.records[x] == FreshRecord(x);
    }
  }

  lemma AllocateRepresents(s: Slab, b: Book, o: Order)
    requires Represents(s, b)
    ensures Represents(Allocate(s, o).0, BookAllocate(b, o))
    ensures Allocate(s, o).1 == if b.free == [] then None else Some(b.free[0])
  {
    if b.free != [] {
      var x := b.free[0];
      var (s', _) := Allocate(s, o);
      var b' := BookAllocate(b, o);
      assert FreeEntryOk(s.records, b.free, 0);
      assert x !in b.orders;
      forall k | 0 <= k < |b.levels| ensures x !in b.levels[k] && LevelOk(s'.records, b.levels[k]) {
        FreeApartFromLevels(s, b, k);
        assert x in b.free;
        LevelFrame(s.records, s'.records, b.levels[k]);
      }
      AllocateFreeList(s, s', b.free, o);
      forall y ensures y in b'.orders <==> IsLive(s'.records, y) {
        assert y in b.orders <==> IsLive(s.records, y);
      }
    }
  }

  lemma AllocateFreeList(s: Slab, s': Slab, free: seq<nat>, o: Order)
    requires InBounds(s) && FreeListOk(s, free) && free != [] && s' == Allocate(s, o).0
    ensures FreeListOk(s', free[1..])
  {
    assert FreeEntryOk(s.records, free, 0);
    var free' := free[1..];
    assert free == [free[0]] + free';
    forall i | 0 <= i < |free'| ensures FreeEntryOk(s'.records, free', i) {
      assert FreeEntryOk(s.records, free, i + 1);
    }
  }

  ghost predicate IsTailOf(b: Book, tail: nat, k: nat) {
    k < |b.levels| && b.levels[k] != [] && b.levels[k][|b.levels[k]| - 1] == tail
  }

  // ----- what survives a change elsewhere in the records -----

  ghost predicate SameContents(r: seq<OrderRecord>, r': seq<OrderRecord>) {
    |r'| == |r| && forall y :: 0 <= y < |r| ==> r'[y].order == r[y].order && r'[y].occupied == r[y].occupied
  }

  lemma FreeListAfter(s: Slab, s': Slab, free: seq<nat>)
    requires FreeListOk(s, free) && SameContents(s.records, s'.records)
    requires s'.freeListHead == s.freeListHead && s'.allocatedCount == s.allocatedCount
    requires forall y :: 0 <= y < |s.records| && !s.records[y].occupied ==> s'.records[y] == s.records[y]
    ensures FreeListOk(s', free)
  {
    forall i | 0 <= i < |free| ensures FreeEntryOk(s'.records, free, i) {
      assert FreeEntryOk(s.records, free, i);
    }
  }

  lemma OrdersAfter(r: seq<OrderRecord>, r': seq<OrderRecord>, orders: map<nat, Order>)
    requires OrdersOk(r, orders) && SameContents(r, r')
    ensures OrdersOk(r', orders)
  {
    forall x ensures x in orders <==> IsLive(r', x) {
      assert x in orders <==> IsLive(r, x);
    }
  }

  /** Exchanging one level's queue for another over its own and fresh slots. */
  lemma LevelsReplace(r: seq<OrderRecord>, r': seq<OrderRecord>, levels: seq<seq<nat>>, k: nat, l: seq<nat>)
    requires LevelsOk(r, levels) && k < |levels| && |r'| == |r| && LevelOk(r', l)
    requires forall y :: y in l ==> y in levels[k] || !Queued(levels, y)
    requires forall y :: 0 <= y < |r| && y !in levels[k] && y !in l ==> r'[y] == r[y]
    ensures LevelsOk(r', levels[k := l])
  {
    var levels' := levels[k := l];
    forall m | 0 <= m < |levels| && m != k
      ensures LevelOk(r', levels[m]) && Apart(l, levels[m]) && Apart(levels[m], l)
    {
      assert Apart(levels[m], levels[k]);
      forall y | y in levels[m] ensures y !in l && y !in levels[k] {
        assert Queued(levels, y);
      }
      LevelFrame(r, r', levels[m]);
    }
    forall m, n | 0 <= m < |levels'| && 0 <= n < |levels'| && m != n ensures Apart(levels'[m], levels'[n]) {
      assert Apart(levels[m], levels[n]);
    }
  }

  lemma QueuedReplace(levels: seq<seq<nat>>, k: nat, l: seq<nat>, y: nat)
    requires k < |levels|
    ensures y in l ==> Queued(levels[k := l], y)
    ensures Queued(levels, y) && y !in levels[k] ==> Queued(levels[k := l], y)
    ensures Queued(levels[k := l], y) ==> y in l || Queued(levels, y)
  {
    var levels' := levels[k := l];
    assert levels'[k] == l;
    if Queued(levels, y) && y !in levels[k] {
      var m :| 0 <= m < |levels| && y in levels[m];
      assert y in levels'[m];
    }
  }

  // ----- appending -----

  lemma NewLevelRepresents(s: Slab, b: Book, x: nat)
    requires Represents(s, b) && x in b.orders && !Queued(b.levels, x)
    ensures Represents(InsertIntoLevel(s, x, INVALID_ORDER_INDEX).0, BookNewLevel(b, x))
    ensures InsertIntoLevel(s, x, INVALID_ORDER_INDEX).1 == Ok(1)
  {
    assert IsLive(s.records, x);
    var s' := InsertIntoLevel(s, x, INVALID_ORDER_INDEX).0;
    FreeListAfter(s, s', b.free);
    OrdersAfter(s.records, s'.records, b.orders);
    NewLevelOk(s.records, s'.records, b.levels, x);
  }

  lemma NewLevelOk(r: seq<OrderRecord>, r': seq<OrderRecord>, levels: seq<seq<nat>>, x: nat)
    requires LevelsOk(r, levels) && LooseOk(r, levels) && !Queued(levels, x) && |r'| == |r| && LevelOk(r', [x])
    requires forall y :: 0 <= y < |r| && y != x ==> r'[y] == r[y]
    ensures LevelsOk(r', levels + [[x]]) && LooseOk(r', levels + [[x]])
  {
    // An empty level first, then x into it.
    var k, wider := |levels|, levels + [[]];
    forall y: nat ensures Queued(wider, y) <==> Queued(levels, y) {
      if m :| 0 <= m < |levels| && y in levels[m] { assert y in wider[m]; }
    }
    assert LevelsOk(r, wider);
    LevelsReplace(r, r', wider, k, [x]);
    assert wider[k := [x]] == levels + [[x]];
    forall y: nat | IsLive(r', y) && !Queued(levels + [[x]], y) ensures y != x && !Queued(levels, y) {
      QueuedReplace(wider, k, [x], y);
      assert Queued(levels, y) ==> Queued(wider, y);
    }
  }

  lemma InsertAfterTail(s: Slab, l: seq<nat>, x: nat)
    requires InBounds(s) && LevelOk(s.records, l) && l != [] && IsLive(s.records, x) && x !in l
    ensures var (s', result) := InsertIntoLevel(s, x, l[|l| - 1]);
            && result == Ok(|l| + 1) && s' == s.(records := s'.records) && InBounds(s')
            && SameContents(s.records, s'.records) && LevelOk(s'.records, l + [x])
            && forall y :: 0 <= y < |s.records| && y !in l + [x] ==> s'.records[y] == s.records[y]
  {
    var r, n := s.records, |l|;
    var tail := l[n - 1];
    assert EntryOk(r, l, n - 1) && tail in l;
    var r' := InsertIntoLevel(s, x, tail).0.records;
    var l' := l + [x];
    forall i | 0 <= i < |l'| ensures EntryOk(r', l', i) {
      if i < n {
        assert EntryOk(r, l, i) && l[i] in l;
        if i < n - 1 { LevelDistinct(r, l, i, n - 1); }
      }
    }
  }

  lemma AppendRepresents(s: Slab, b: Book, x: nat, tail: nat, k: nat)
    requires Represents(s, b) && x in b.orders && !Queued(b.levels, x) && IsTailOf(b, tail, k)
    ensures Represents(InsertIntoLevel(s, x, tail).0, BookAppend(b, x, k))
    ensures InsertIntoLevel(s, x, tail).1 == Ok(|b.levels[k]| + 1)
  {
    var s', l := InsertIntoLevel(s, x, tail).0, b.levels[k];
    var r, r' := s.records, s'.records;
    assert IsLive(r, x) && LevelOk(r, l) && EntryOk(r, l, |l| - 1);
    assert x !in l && tail in l;
    InsertAfterTail(s, l, x);
    FreeListAfter(s, s', b.free);
    OrdersAfter(r, r', b.orders);
    LevelsReplace(r, r', b.levels, k, l + [x]);
    forall y: nat | IsLive(r', y) && !Queued(BookAppend(b, x, k).levels, y)
      ensures r'[y] == r[y] && !Queued(b.levels, y)
    {
      QueuedReplace(b.levels, k, l + [x], y);
      assert y !in l + [x];
    }
  }

  // ----- cancelling -----

  ghost predicate ToRenumber(r: seq<OrderRecord>, l: seq<nat>, t: nat)
    requires t < |l|
  {
    IsLive(r, l[t]) && r[l[t]].nextIndex == NextIn(l, t) && r[l[t]].queuePosition == t + 2
  }

  /** On the tail of a spliced level the renumbering loop lowers each position by one,
      touches nothing else, and reports success. */
  lemma {:induction false} RenumberTail(r: seq<OrderRecord>, l: seq<nat>, j: nat)
    requires j <= |l| && |r| == MAX_ORDER_RECORDS && (forall a, c :: 0 <= a < c < |l| ==> l[a] != l[c])
    requires forall t :: j <= t < |l| ==> ToRenumber(r, l, t)
    ensures var (r', result) := Renumber(r, if j < |l| then l[j] else INVALID_ORDER_INDEX);
            && result == Ok(()) && |r'| == |r|
            && (forall y :: 0 <= y < |r| && y !in l[j..] ==> r'[y] == r[y])
            && (forall t :: j <= t < |l| ==> l[t] < |r| && r'[l[t]] == r[l[t]].(queuePosition := t + 1))
    decreases |l| - j
  {
    if j < |l| {
      assert ToRenumber(r, l, j) && l[j] != INVALID_ORDER_INDEX;
      var r1 := SetPosition(r, l[j], j + 1);
      forall t | j + 1 <= t < |l| ensures ToRenumber(r1, l, t) {
        assert ToRenumber(r, l, t) && l[t] != l[j];
      }
      RenumberTail(r1, l, j + 1);
      assert l[j..] == [l[j]] + l[j + 1..];
      assert l[j] !in l[j + 1..];
    }
  }

  function Splice(r: seq<OrderRecord>, prev: nat, next: nat): seq<OrderRecord>
    requires (prev == INVALID_ORDER_INDEX || prev < |r|) && (next == INVALID_ORDER_INDEX || next < |r|)
  {
    var r1 := if prev != INVALID_ORDER_INDEX then SetNext(r, prev, next) else r;
    if next != INVALID_ORDER_INDEX then SetPrev(r1, next, prev) else r1
  }

  // The t-th remaining entry after the splice at i, before any renumbering.
  ghost predicate SplicedEntry(r: seq<OrderRecord>, l: seq<nat>, i: nat, t: nat)
    requires t < |l|
  {
    && IsLive(r, l[t])
    && r[l[t]].nextIndex == NextIn(l, t)
    && r[l[t]].prevIndex == PrevIn(l, t)
    && r[l[t]].queuePosition == (if t < i then t + 1 else t + 2)
  }

  lemma SpliceLevel(r: seq<OrderRecord>, l: seq<nat>, i: nat)
    requires |r| == MAX_ORDER_RECORDS && LevelOk(r, l) && i < |l|
    ensures PrevIn(l, i) == INVALID_ORDER_INDEX || IsLive(r, PrevIn(l, i))
    ensures NextIn(l, i) == INVALID_ORDER_INDEX || IsLive(r, NextIn(l, i))
    ensures var l' := l[..i] + l[i + 1..];
            var r' := Splice(r, PrevIn(l, i), NextIn(l, i));
            && (forall t :: 0 <= t < |l'| ==> SplicedEntry(r', l', i, t))
            && (forall y :: 0 <= y < |r| && y !in l' ==> r'[y] == r[y])
            && SameContents(r, r')
  {
    var l' := l[..i] + l[i + 1..];
    if i > 0 { assert EntryOk(r, l, i - 1) && l'[i - 1] == l[i - 1]; }
    if i + 1 < |l| { assert EntryOk(r, l, i + 1) && l'[i] == l[i + 1]; }
    var r' := Splice(r, PrevIn(l, i), NextIn(l, i));
    forall t | 0 <= t < |l'| ensures SplicedEntry(r', l', i, t) {
      SplicedAt(r, l, i, t);
    }
  }

  lemma SplicedAt(r: seq<OrderRecord>, l: seq<nat>, i: nat, t: nat)
    requires |r| == MAX_ORDER_RECORDS && LevelOk(r, l) && i < |l| && t + 1 < |l|
    requires PrevIn(l, i) == INVALID_ORDER_INDEX || IsLive(r, PrevIn(l, i))
    requires NextIn(l, i) == INVALID_ORDER_INDEX || IsLive(r, NextIn(l, i))
    ensures SplicedEntry(Splice(r, PrevIn(l, i), NextIn(l, i)), l[..i] + l[i + 1..], i, t)
  {
    var o := if t < i then t else t + 1;
    assert EntryOk(r, l, o);
    if i > 0 { assert EntryOk(r, l, i - 1); }
    if i + 1 < |l| { assert EntryOk(r, l, i + 1); }
    if o != i - 1 && i > 0 { LevelDistinct(r, l, o, i - 1); }
    if o != i + 1 && i + 1 < |l| { LevelDistinct(r, l, o, i + 1); }
  }

  lemma LevelWithoutDistinct(r: seq<OrderRecord>, l: seq<nat>, i: nat)
    requires LevelOk(r, l) && i < |l|
    ensures var l' := l[..i] + l[i + 1..];
            && (forall a, c :: 0 <= a < c < |l'| ==> l'[a] != l'[c])
            && l[i] !in l' && Without(l, l[i]) == l'
  {
    var l' := l[..i] + l[i + 1..];
    forall a, c | 0 <= a < c < |l'| ensures l'[a] != l'[c] {
      LevelDistinct(r, l, if a < i then a else a + 1, if c < i then c else c + 1);
    }
    forall a | 0 <= a < |l| && a != i ensures l[a] != l[i] { LevelDistinct(r, l, a, i); }
    WithoutAt(l, i);
  }

  /** Unlinking the i-th order of a level leaves exactly the old queue minus that order,
      correctly linked and numbered; every record outside the remaining queue, the
      unlinked one included, is as before. */
  lemma RemoveFromOneLevel(s: Slab, l: seq<nat>, i: nat)
    requires InBounds(s) && LevelOk(s.records, l) && i < |l|
    ensures var (s', result) := RemoveFromLevel(s, l[i]);
            var l' := Without(l, l[i]);
            && result == Ok(()) && s' == s.(records := s'.records)
            && SameContents(s.records, s'.records)
            && LevelOk(s'.records, l')
            && (forall y :: 0 <= y < |s.records| && y !in l' ==> s'.records[y] == s.records[y])
  {
    var r, x, l' := s.records, l[i], l[..i] + l[i + 1..];
    var prev, next := PrevIn(l, i), NextIn(l, i);
    assert EntryOk(r, l, i);
    SpliceLevel(r, l, i);
    LevelWithoutDistinct(r, l, i);
    var r2 := Splice(r, prev, next);
    assert next == if i < |l'| then l'[i] else INVALID_ORDER_INDEX;
    RenumberSpliced(r2, l', i);
    assert RemoveFromLevel(s, x).0.records == Renumber(r2, next).0;
  }

  lemma RenumberSpliced(r: seq<OrderRecord>, l: seq<nat>, i: nat)
    requires |r| == MAX_ORDER_RECORDS && i <= |l| && (forall a, c :: 0 <= a < c < |l| ==> l[a] != l[c])
    requires forall t :: 0 <= t < |l| ==> SplicedEntry(r, l, i, t)
    ensures var (r', result) := Renumber(r, if i < |l| then l[i] else INVALID_ORDER_INDEX);
            && result == Ok(()) && SameContents(r, r') && LevelOk(r', l)
            && (forall y :: 0 <= y < |r| && y !in l ==> r'[y] == r[y])
  {
    forall t | i <= t < |l| ensures ToRenumber(r, l, t) {
      assert SplicedEntry(r, l, i, t);
    }
    RenumberTail(r, l, i);
    var current := if i < |l| then l[i] else INVALID_ORDER_INDEX;
    RenumberChangesOnlyPositions(r, current);
    var r' := Renumber(r, current).0;
    forall t | 0 <= t < |l| ensures EntryOk(r', l, t) {
      assert SplicedEntry(r, l, i, t);
      if t < i { assert l[t] !in l[i..]; }
    }
  }

  lemma FreeListCancel(s: Slab, s': Slab, free: seq<nat>, x: nat)
    requires FreeListOk(s, free) && IsLive(s.records, x) && |s'.records| == |s.records|
    requires s'.records[x] == EMPTY_RECORD.(nextIndex := s.freeListHead)
    requires s'.freeListHead == x && s'.allocatedCount == s.allocatedCount - 1
    requires forall y :: 0 <= y < |s.records| && y != x ==> s'.records[y].occupied == s.records[y].occupied
    requires forall y :: 0 <= y < |s.records| && !s.records[y].occupied ==> s'.records[y] == s.records[y]
    ensures FreeListOk(s', [x] + free)
  {
    var free' := [x] + free;
    forall i | 0 <= i < |free'| ensures FreeEntryOk(s'.records, free', i) && (i > 0 ==> free'[i] != x) {
      if i > 0 {
        assert FreeEntryOk(s.records, free, i - 1) && free'[i] == free[i - 1];
      }
    }
    forall i, j | 0 <= i < j < |free'| ensures free'[i] != free'[j] {
      assert free'[j] == free[j - 1];
      if i > 0 { assert free'[i] == free[i - 1]; }
    }
    forall y | 0 <= y < |s'.records| && !s'.records[y].occupied ensures y in free' {
      assert y == x || y in free;
    }
  }

  lemma OrdersCancel(r: seq<OrderRecord>, r': seq<OrderRecord>, orders: map<nat, Order>, x: nat)
    requires OrdersOk(r, orders) && x in orders && |r'| == |r| && x < |r| && !r'[x].occupied
    requires forall y :: 0 <= y < |r| && y != x ==> r'[y].order == r[y].order && r'[y].occupied == r[y].occupied
    ensures OrdersOk(r', orders - {x}) && |orders - {x}| == |orders| - 1
  {
    var orders' := orders - {x};
    forall y ensures y in orders' <==> IsLive(r', y) {
      assert y in orders <==> IsLive(r, y);
    }
    assert orders.Keys == orders'.Keys + {x};
    assert |orders.Keys| == |orders'.Keys| + 1;
  }

  lemma CancelLooseRecords(s: Slab, x: nat)
    requires InBounds(s) && IsLive(s.records, x)
    requires s.records[x].nextIndex == INVALID_ORDER_INDEX && s.records[x].prevIndex == INVALID_ORDER_INDEX
    ensures Cancel(s, x) ==
            (Slab(s.records[x := EMPTY_RECORD.(nextIndex := s.freeListHead)], x, s.allocatedCount - 1), Ok(()))
    ensures InBounds(Cancel(s, x).0)
  {
    assert RemoveFromLevel(s, x) == (s, Ok(()));
  }

  lemma CancelUnqueued(s: Slab, b: Book, x: nat)
    requires Represents(s, b) && x in b.orders && !Queued(b.levels, x)
    ensures Represents(Cancel(s, x).0, BookCancel(b, x)) && Cancel(s, x).1 == Ok(())
  {
    assert IsLive(s.records, x);
    CancelLooseRecords(s, x);
    var s' := Cancel(s, x).0;
    forall k | 0 <= k < |b.levels| ensures Without(b.levels[k], x) == b.levels[k] && LevelOk(s'.records, b.levels[k]) {
      assert x !in b.levels[k];
      LevelFrame(s.records, s'.records, b.levels[k]);
    }
    assert BookCancel(b, x).levels == b.levels;
    FreeListCancel(s, s', b.free, x);
    OrdersCancel(s.records, s'.records, b.orders, x);
  }

  // After unlinking, `free` finds its two link stores already in place.
  lemma CancelRecords(s: Slab, l: seq<nat>, i: nat)
    requires InBounds(s) && LevelOk(s.records, l) && i < |l|
    ensures l[i] < MAX_ORDER_RECORDS && InBounds(Cancel(s, l[i]).0) && Cancel(s, l[i]).1 == Ok(())
    ensures |RemoveFromLevel(s, l[i]).0.records| == MAX_ORDER_RECORDS
    ensures Cancel(s, l[i]).0 ==
            Slab(RemoveFromLevel(s, l[i]).0.records[l[i] := EMPTY_RECORD.(nextIndex := s.freeListHead)],
                 l[i], s.allocatedCount - 1)
  {
    var x := l[i];
    assert EntryOk(s.records, l, i);
    RemoveFromOneLevel(s, l, i);
    RemoveFromLevelInBounds(s, x);
    LevelWithoutDistinct(s.records, l, i);
    var s1 := RemoveFromLevel(s, x).0;
    assert s1.records[x] == s.records[x];
    SpliceAgain(s1.records, l, i);
    FreeIsSplice(s1, x);
  }

  lemma SpliceAgain(r: seq<OrderRecord>, l: seq<nat>, i: nat)
    requires i < |l| && LevelOk(r, l[..i] + l[i + 1..])
    ensures PrevIn(l, i) == INVALID_ORDER_INDEX || IsLive(r, PrevIn(l, i))
    ensures NextIn(l, i) == INVALID_ORDER_INDEX || IsLive(r, NextIn(l, i))
    ensures Splice(r, PrevIn(l, i), NextIn(l, i)) == r
  {
    var l' := l[..i] + l[i + 1..];
    if i > 0 { assert EntryOk(r, l', i - 1) && l'[i - 1] == l[i - 1]; }
    if i + 1 < |l| { assert EntryOk(r, l', i) && l'[i] == l[i + 1]; }
  }

  lemma FreeIsSplice(s: Slab, x: nat)
    requires InBounds(s) && IsLive(s.records, x)
    ensures Free(s, x) ==
            (Slab(Splice(s.records, s.records[x].prevIndex, s.records[x].nextIndex)
                    [x := EMPTY_RECORD.(nextIndex := s.freeListHead)],
                  x, s.allocatedCount - 1), Ok(()))
    ensures InBounds(Free(s, x).0)
  {
  }

  lemma CancelLevels(levels: seq<seq<nat>>, k: nat, x: nat)
    requires k < |levels| && x in levels[k]
    requires forall m :: 0 <= m < |levels| && m != k ==> x !in levels[m]
    ensures LevelsWithout(levels, x) == levels[k := Without(levels[k], x)]
  {
  }

  lemma CancelLevelsOk(r: seq<OrderRecord>, r': seq<OrderRecord>, levels: seq<seq<nat>>, k: nat, x: nat)
    requires LevelsOk(r, levels) && LooseOk(r, levels) && k < |levels| && x in levels[k]
    requires |r'| == |r| && !IsLive(r', x) && LevelOk(r', Without(levels[k], x))
    requires forall y :: y in Without(levels[k], x) ==> y in levels[k]
    requires forall y :: y in levels[k] && y != x ==> y in Without(levels[k], x)
    requires forall y :: 0 <= y < |r| && y !in Without(levels[k], x) && y != x ==> r'[y] == r[y]
    ensures var levels' := LevelsWithout(levels, x);
            LevelsOk(r', levels') && LooseOk(r', levels')
  {
    var l' := Without(levels[k], x);
    forall m | 0 <= m < |levels| && m != k ensures x !in levels[m] { assert Apart(levels[k], levels[m]); }
    CancelLevels(levels, k, x);
    LevelsReplace(r, r', levels, k, l');
    forall y: nat | IsLive(r', y) && !Queued(levels[k := l'], y)
      ensures r'[y] == r[y] && !Queued(levels, y)
    {
      QueuedReplace(levels, k, l', y);
    }
  }

  lemma LevelSlotsLive(r: seq<OrderRecord>, l: seq<nat>, y: nat)
    requires LevelOk(r, l) && y in l
    ensures IsLive(r, y)
  {
    var j :| 0 <= j < |l| && l[j] == y;
    assert EntryOk(r, l, j);
  }

  lemma CancelOneLevel(s: Slab, l: seq<nat>, i: nat)
    requires InBounds(s) && LevelOk(s.records, l) && i < |l|
    ensures var (s', result) := Cancel(s, l[i]);
            var l' := Without(l, l[i]);
            && result == Ok(()) && InBounds(s') && IsLive(s.records, l[i])
            && s'.freeListHead == l[i] && s'.allocatedCount == s.allocatedCount - 1
            && s'.records[l[i]] == EMPTY_RECORD.(nextIndex := s.freeListHead)
            && LevelOk(s'.records, l')
            && (forall y :: 0 <= y < |s.records| && y !in l' && y != l[i] ==> s'.records[y] == s.records[y])
            && (forall y :: 0 <= y < |s.records| && y != l[i] ==>
                  s'.records[y].order == s.records[y].order && s'.records[y].occupied == s.records[y].occupied)
            && (forall y :: y in l' ==> y in l)
            && (forall y :: y in l && y != l[i] ==> y in l')
  {
    assert EntryOk(s.records, l, i);
    RemoveFromOneLevel(s, l, i);
    LevelWithoutDistinct(s.records, l, i);
    CancelRecords(s, l, i);
    LevelFrame(RemoveFromLevel(s, l[i]).0.records, Cancel(s, l[i]).0.records, Without(l, l[i]));
  }

  lemma CancelQueued(s: Slab, b: Book, k: nat, i: nat)
    requires Represents(s, b) && k < |b.levels| && i < |b.levels[k]|
    ensures Represents(Cancel(s, b.levels[k][i]).0, BookCancel(b, b.levels[k][i]))
    ensures Cancel(s, b.levels[k][i]).1 == Ok(())
  {
    var r, l := s.records, b.levels[k];
    var x, s' := l[i], Cancel(s, l[i]).0;
    assert LevelOk(r, l) && x in l;
    CancelOneLevel(s, l, i);
    CancelLevelsOk(r, s'.records, b.levels, k, x);
    forall y | 0 <= y < |r| && !r[y].occupied ensures s'.records[y] == r[y] {
      if y in l { LevelSlotsLive(r, l, y); }
    }
    FreeListCancel(s, s', b.free, x);
    OrdersCancel(r, s'.records, b.orders, x);
  }

  lemma CancelRepresents(s: Slab, b: Book, x: nat)
    requires Represents(s, b)
    ensures Represents(Cancel(s, x).0, BookCancel(b, x))
    ensures Cancel(s, x).1.Ok? <==> x in b.orders
  {
    if x in b.orders {
      if k :| 0 <= k < |b.levels| && x in b.levels[k] {
        var i :| 0 <= i < |b.levels[k]| && b.levels[k][i] == x;
        CancelQueued(s, b, k, i);
      } else {
        CancelUnqueued(s, b, x);
      }
    } else {
      assert !IsLive(s.records, x);
    }
  }

  /** `free` without `remove_from_level`: the queue keeps its numbering exactly when the
      freed order was the last of its level. */
  lemma FreeAloneRenumbersNothing(s: Slab, b: Book, k: nat, i: nat)
    requires Represents(s, b) && k < |b.levels| && i < |b.levels[k]|
    ensures Represents(Free(s, b.levels[k][i]).0, BookCancel(b, b.levels[k][i])) <==> i + 1 == |b.levels[k]|
  {
    var r, l := s.records, b.levels[k];
    var x, l' := l[i], l[..i] + l[i + 1..];
    assert LevelOk(r, l) && EntryOk(r, l, i);
    SpliceLevel(r, l, i);
    LevelWithoutDistinct(r, l, i);
    var r2 := Splice(r, PrevIn(l, i), NextIn(l, i));
    var s' := Free(s, x).0;
    FreeIsSplice(s, x);
    assert s'.records == r2[x := EMPTY_RECORD.(nextIndex := s.freeListHead)];
    if i + 1 == |l| {
      CancelQueued(s, b, k, i);
      CancelRecords(s, l, i);
      assert RemoveFromLevel(s, x).0.records == r2;
    } else {
      assert SplicedEntry(r2, l', i, i) && l'[i] in l';
      assert BookCancel(b, x).levels[k] == l';
      assert !EntryOk(s'.records, l', i);
      assert !LevelOk(s'.records, l');
    }
  }

  /** Freeing, inserting, unlinking or cancelling anything but a live order is an error that
      leaves no trace, and so is inserting behind anything but a live order or no order. */
  lemma MisuseIsRefused(s: Slab, b: Book, x: nat, tail: nat)
    requires Represents(s, b)
    ensures x !in b.orders ==>
              && Free(s, x).1.Err? && InsertIntoLevel(s, x, tail).1.Err? && RemoveFromLevel(s, x).1.Err?
              && Free(s, x).0 == InsertIntoLevel(s, x, tail).0 == RemoveFromLevel(s, x).0 == Cancel(s, x).0 == s
    ensures tail != INVALID_ORDER_INDEX && tail !in b.orders ==>
              InsertIntoLevel(s, x, tail).1.Err? && InsertIntoLevel(s, x, tail).0 == s
  {
    assert x in b.orders <==> IsLive(s.records, x);
    assert tail in b.orders <==> IsLive(s.records, tail);
  }

  // ----- whole runs -----

  datatype Op = OpAllocate(order: Order) | OpInsert(slot: nat, tail: nat) | OpCancel(slot: nat) | OpClear

  function StepSlab(s: Slab, op: Op): Slab
    requires InBounds(s)
  {
    match op
    case OpAllocate(o) => Allocate(s, o).0
    case OpInsert(x, tail) => InsertIntoLevel(s, x, tail).0
    case OpCancel(x) => Cancel(s, x).0
    case OpClear => Initial()
  }

  /** The callers' discipline: a live order is queued once, behind a true tail. */
  ghost predicate Disciplined(b: Book, op: Op) {
    op.OpInsert? && op.slot in b.orders ==>
      !Queued(b.levels, op.slot) && (op.tail == INVALID_ORDER_INDEX || exists k :: IsTailOf(b, op.tail, k))
  }

  ghost function StepBook(b: Book, op: Op): Book
    requires Disciplined(b, op)
  {
    match op
    case OpAllocate(o) => BookAllocate(b, o)
    case OpInsert(x, tail) =>
      if x !in b.orders then b
      else if tail == INVALID_ORDER_INDEX then BookNewLevel(b, x)
      else var k :| IsTailOf(b, tail, k); BookAppend(b, x, k)
    case OpCancel(x) => BookCancel(b, x)
    case OpClear => INITIAL_BOOK
  }

  lemma StepRepresents(s: Slab, b: Book, op: Op)
    requires Represents(s, b) && Disciplined(b, op)
    ensures Represents(StepSlab(s, op), StepBook(b, op))
  {
    match op
    case OpAllocate(o) => AllocateRepresents(s, b, o);
    case OpInsert(x, tail) =>
      if x !in b.orders {
        assert !IsLive(s.records, x);
      } else if tail == INVALID_ORDER_INDEX {
        NewLevelRepresents(s, b, x);
      } else {
        var k :| IsTailOf(b, tail, k) && StepBook(b, op) == BookAppend(b, x, k);
        AppendRepresents(s, b, x, tail, k);
      }
    case OpCancel(x) => CancelRepresents(s, b, x);
    case OpClear => InitialRepresents();
  }

  /** The books reached by a run, one after each operation; None once an operation
      breaks the discipline. */
  ghost function RunBook(b: Book, ops: seq<Op>): Option<Book>
    decreases |ops|
  {
    if ops == [] then Some(b)
    else if !Disciplined(b, ops[0]) then None
    else RunBook(StepBook(b, ops[0]), ops[1..])
  }

  ghost function RunSlab(s: Slab, b: Book, ops: seq<Op>): Slab
    requires Represents(s, b) && RunBook(b, ops).Some?
    decreases |ops|
  {
    if ops == [] then s
    else
      StepRepresents(s, b, ops[0]);
      RunSlab(StepSlab(s, ops[0]), StepBook(b, ops[0]), ops[1..])
  }

  /** Every disciplined run from any represented slab ends in a represented slab. */
  lemma {:induction false} RunRepresents(s: Slab, b: Book, ops: seq<Op>)
    requires Represents(s, b) && RunBook(b, ops).Some?
    ensures Represents(RunSlab(s, b, ops), RunBook(b, ops).value)
    decreases |ops|
  {
    if ops != [] {
      StepRepresents(s, b, ops[0]);
      RunRepresents(StepSlab(s, ops[0]), StepBook(b, ops[0]), ops[1..]);
    }
  }
}

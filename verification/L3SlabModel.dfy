/** The L3 order slab as values. */
module L3SlabModel {
  // One sequence of records in which the free list and every price level's queue are
  // threaded through the same link fields.  Each function here performs exactly the loads
  // and stores of one slab operation, including the error returns that leave some stores
  // behind.  `L3Slab` proves its array-updating methods equal to these functions, and
  // `L3SlabProofs` proves what the operations mean.

  import opened Wrappers

  const MAX_ORDER_RECORDS: nat := 65536
  const INVALID_ORDER_INDEX: nat := 0xFFFF_FFFF_FFFF_FFFF

  datatype Order = Order(id: nat, price: nat, volume: nat, side: nat)

  datatype OrderRecord = OrderRecord(
    order: Order,
    queuePosition: nat,
    nextIndex: nat,
    prevIndex: nat,
    occupied: bool)

  const EMPTY_RECORD := OrderRecord(Order(0, 0, 0, 0), 0, INVALID_ORDER_INDEX, INVALID_ORDER_INDEX, false)

  datatype Slab = Slab(records: seq<OrderRecord>, freeListHead: nat, allocatedCount: int)

  predicate IsLink(i: nat) {
    i == INVALID_ORDER_INDEX || i < MAX_ORDER_RECORDS
  }

  /** Enough for every array access below to be in bounds; it says nothing about shape. */
  ghost predicate InBounds(s: Slab) {
    && |s.records| == MAX_ORDER_RECORDS
    && IsLink(s.freeListHead)
    && forall i :: 0 <= i < MAX_ORDER_RECORDS ==> IsLink(s.records[i].nextIndex) && IsLink(s.records[i].prevIndex)
  }

  predicate IsLive(r: seq<OrderRecord>, i: nat) {
    i < |r| && r[i].occupied
  }

  function SetNext(r: seq<OrderRecord>, i: nat, next: nat): seq<OrderRecord>
    requires i < |r|
  {
    r[i := r[i].(nextIndex := next)]
  }

  function SetPrev(r: seq<OrderRecord>, i: nat, prev: nat): seq<OrderRecord>
    requires i < |r|
  {
    r[i := r[i].(prevIndex := prev)]
  }

  function SetPosition(r: seq<OrderRecord>, i: nat, position: nat): seq<OrderRecord>
    requires i < |r|
  {
    r[i := r[i].(queuePosition := position)]
  }

  // The record that `new` and `clear` leave in slot i: the next slot is the next free one.
  function FreshRecord(i: nat): OrderRecord {
    EMPTY_RECORD.(nextIndex := if i + 1 < MAX_ORDER_RECORDS then i + 1 else INVALID_ORDER_INDEX)
  }

  function Initial(): Slab {
    Slab(seq(MAX_ORDER_RECORDS, i requires 0 <= i => FreshRecord(i)), 0, 0)
  }

  function Allocate(s: Slab, o: Order): (Slab, Option<nat>)
    requires InBounds(s)
  {
    var head := s.freeListHead;
    if head == INVALID_ORDER_INDEX then (s, None)
    else
      (Slab(s.records[head := OrderRecord(o, 0, INVALID_ORDER_INDEX, INVALID_ORDER_INDEX, true)],
            s.records[head].nextIndex, s.allocatedCount + 1),
       Some(head))
  }

  function Free(s: Slab, x: nat): (Slab, Result<(), string>)
    requires InBounds(s)
  {
    if x >= MAX_ORDER_RECORDS then (s, Err("Index out of bounds"))
    else if !s.records[x].occupied then (s, Err("Slot not occupied"))
    else
      var prev, next := s.records[x].prevIndex, s.records[x].nextIndex;
      var r1 := if prev != INVALID_ORDER_INDEX then SetNext(s.records, prev, next) else s.records;
      var r2 := if next != INVALID_ORDER_INDEX then SetPrev(r1, next, prev) else r1;
      (Slab(r2[x := EMPTY_RECORD.(nextIndex := s.freeListHead)], x, s.allocatedCount - 1), Ok(()))
  }

  function InsertIntoLevel(s: Slab, x: nat, tail: nat): (Slab, Result<nat, string>)
    requires InBounds(s)
  {
    var r := s.records;
    if !IsLive(r, x) then (s, Err("Invalid order index"))
    else if tail == INVALID_ORDER_INDEX then (s.(records := SetPosition(r, x, 1)), Ok(1))
    else if !IsLive(r, tail) then (s, Err("Invalid tail index"))
    else
      var tailNext := r[tail].nextIndex;
      var r1 := SetNext(SetNext(SetPrev(r, x, tail), x, tailNext), tail, x);
      if tailNext != INVALID_ORDER_INDEX && !IsLive(r1, tailNext) then
        (s.(records := r1), Err("Invalid next index"))
      else
        var r2 := if tailNext != INVALID_ORDER_INDEX then SetPrev(r1, tailNext, x) else r1;
        var position := r2[tail].queuePosition + 1;
        (s.(records := SetPosition(r2, x, position)), Ok(position))
  }

  function TotalPosition(r: seq<OrderRecord>): nat {
    if r == [] then 0 else TotalPosition(r[..|r| - 1]) + r[|r| - 1].queuePosition
  }

  lemma {:induction false} TotalPositionUpdate(r: seq<OrderRecord>, i: nat, rec: OrderRecord)
    requires i < |r|
    ensures TotalPosition(r[i := rec]) == TotalPosition(r) - r[i].queuePosition + rec.queuePosition
  {
    var last := |r| - 1;
    if i == last {
      assert r[i := rec][..last] == r[..last];
    } else {
      TotalPositionUpdate(r[..last], i, rec);
      assert r[i := rec][..last] == r[..last][i := rec];
    }
  }

  /** The renumbering loop of `remove_from_level`.  It stops on every table of records,
      even one whose links form a cycle, because each round lowers some position. */
  function Renumber(r: seq<OrderRecord>, current: nat): (seq<OrderRecord>, Result<(), string>)
    decreases TotalPosition(r)
  {
    if current == INVALID_ORDER_INDEX then (r, Ok(()))
    else if !IsLive(r, current) then (r, Err("Invalid index in chain"))
    else if r[current].queuePosition > 1 then
      var r1 := SetPosition(r, current, r[current].queuePosition - 1);
      TotalPositionUpdate(r, current, r1[current]);
      Renumber(r1, r1[current].nextIndex)
    else (r, Ok(()))
  }

  function RemoveFromLevel(s: Slab, x: nat): (Slab, Result<(), string>)
    requires InBounds(s)
  {
    var r := s.records;
    if !IsLive(r, x) then (s, Err("Invalid order index"))
    else
      var prev, next := r[x].prevIndex, r[x].nextIndex;
      if prev != INVALID_ORDER_INDEX && !IsLive(r, prev) then (s, Err("Invalid prev index"))
      else
        var r1 := if prev != INVALID_ORDER_INDEX then SetNext(r, prev, next) else r;
        if next != INVALID_ORDER_INDEX && !IsLive(r1, next) then (s.(records := r1), Err("Invalid next index"))
        else
          var r2 := if next != INVALID_ORDER_INDEX then SetPrev(r1, next, prev) else r1;
          var (r3, result) := Renumber(r2, next);
          (s.(records := r3), result)
  }

  /** Cancelling as the book reconstructor does it: unlink, then free; an error from
      the first skips the second. */
  function Cancel(s: Slab, x: nat): (Slab, Result<(), string>)
    requires InBounds(s)
  {
    var (s1, result) := RemoveFromLevel(s, x);
    if result.Err? then (s1, result)
    else
      RemoveFromLevelInBounds(s, x);
      Free(s1, x)
  }

  predicate Matches(rec: OrderRecord, id: nat) {
    rec.occupied && rec.order.id == id
  }

  /** What the linear scan returns: the lowest matching slot, or None when none matches. */
  ghost predicate IsFirstMatch(r: seq<OrderRecord>, id: nat, slot: Option<nat>) {
    match slot
    case Some(i) => i < |r| && Matches(r[i], id) && forall j :: 0 <= j < i ==> !Matches(r[j], id)
    case None => forall j :: 0 <= j < |r| ==> !Matches(r[j], id)
  }

  // ----- every operation stays in bounds -----

  lemma {:induction false} RenumberChangesOnlyPositions(r: seq<OrderRecord>, current: nat)
    ensures var r' := Renumber(r, current).0;
            |r'| == |r| && forall i :: 0 <= i < |r| ==> r'[i] == r[i].(queuePosition := r'[i].queuePosition)
    decreases TotalPosition(r)
  {
    if current != INVALID_ORDER_INDEX && IsLive(r, current) && r[current].queuePosition > 1 {
      var r1 := SetPosition(r, current, r[current].queuePosition - 1);
      TotalPositionUpdate(r, current, r1[current]);
      RenumberChangesOnlyPositions(r1, r1[current].nextIndex);
    }
  }

  lemma RemoveFromLevelInBounds(s: Slab, x: nat)
    requires InBounds(s)
    ensures InBounds(RemoveFromLevel(s, x).0)
  {
    var r := s.records;
    if IsLive(r, x) {
      var prev, next := r[x].prevIndex, r[x].nextIndex;
      if prev == INVALID_ORDER_INDEX || IsLive(r, prev) {
        var r1 := if prev != INVALID_ORDER_INDEX then SetNext(r, prev, next) else r;
        if next == INVALID_ORDER_INDEX || IsLive(r1, next) {
          var r2 := if next != INVALID_ORDER_INDEX then SetPrev(r1, next, prev) else r1;
          RenumberChangesOnlyPositions(r2, next);
        }
      }
    }
  }
}

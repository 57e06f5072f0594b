/** The slab itself: `L3SlabAllocator` with its records updated in place.  The records
    are stored inline in one fixed array, so a record is a value in an array element. */
module L3Slab {
  import opened Wrappers
  import opened Model = L3SlabModel

  class L3SlabAllocator {
    const records: array<OrderRecord>
    var freeListHead: nat
    var allocatedCount: int
    var lookupCount: nat

    function View(): Slab
      reads this, records
    {
      Slab(records[..], freeListHead, allocatedCount)
    }

    ghost predicate Valid()
      reads this, records
    {
      InBounds(View())
    }

    constructor ()
      ensures Valid() && fresh(records)
      ensures View() == Initial() && lookupCount == 0
    {
      var table := new OrderRecord[MAX_ORDER_RECORDS](_ => EMPTY_RECORD);
      records := table;
      freeListHead := 0;
      allocatedCount := 0;
      lookupCount := 0;
      new;
      for i := 0 to MAX_ORDER_RECORDS - 1
        invariant forall j :: 0 <= j < i ==> records[j] == FreshRecord(j)
        invariant forall j :: i <= j < MAX_ORDER_RECORDS ==> records[j] == EMPTY_RECORD
        invariant freeListHead == 0 && allocatedCount == 0 && lookupCount == 0
      {
        records[i] := records[i].(nextIndex := i + 1);
      }
      records[MAX_ORDER_RECORDS - 1] := records[MAX_ORDER_RECORDS - 1].(nextIndex := INVALID_ORDER_INDEX);
      assert records[..] == Initial().records;
    }

    method Allocate(o: Order) returns (slot: Option<nat>)
      requires Valid()
      modifies this, records
      ensures Valid() && lookupCount == old(lookupCount)
      ensures (View(), slot) == Model.Allocate(old(View()), o)
    {
      var head := freeListHead;
      freeListHead := INVALID_ORDER_INDEX;
      if head == INVALID_ORDER_INDEX {
        return None;
      }
      var nextFree := records[head].nextIndex;
      freeListHead := nextFree;
      records[head] := OrderRecord(o, 0, INVALID_ORDER_INDEX, INVALID_ORDER_INDEX, true);
      allocatedCount := allocatedCount + 1;
      return Some(head);
    }

    method Free(x: nat) returns (result: Result<(), string>)
      requires Valid()
      modifies this, records
      ensures Valid() && lookupCount == old(lookupCount)
      ensures (View(), result) == Model.Free(old(View()), x)
    {
      if x >= MAX_ORDER_RECORDS {
        return Err("Index out of bounds");
      }
      if !records[x].occupied {
        return Err("Slot not occupied");
      }
      var prev, next := records[x].prevIndex, records[x].nextIndex;
      ghost var r := records[..];
      if prev != INVALID_ORDER_INDEX {
        records[prev] := records[prev].(nextIndex := next);
      }
      ghost var r1 := records[..];
      assert r1 == if prev != INVALID_ORDER_INDEX then SetNext(r, prev, next) else r;
      if next != INVALID_ORDER_INDEX {
        records[next] := records[next].(prevIndex := prev);
      }
      ghost var r2 := records[..];
      assert r2 == if next != INVALID_ORDER_INDEX then SetPrev(r1, next, prev) else r1;
      records[x] := EMPTY_RECORD;
      records[x] := records[x].(nextIndex := freeListHead);
      assert records[..] == r2[x := EMPTY_RECORD.(nextIndex := freeListHead)];
      freeListHead := x;
      allocatedCount := allocatedCount - 1;
      return Ok(());
    }

    method FindByOrderId(id: nat) returns (slot: Option<nat>)
      requires Valid()
      modifies this`lookupCount
      ensures lookupCount == old(lookupCount) + 1
      ensures IsFirstMatch(View().records, id, slot)
    {
      lookupCount := lookupCount + 1;
      for i := 0 to MAX_ORDER_RECORDS
        invariant forall j :: 0 <= j < i ==> !Matches(records[j], id)
      {
        if records[i].occupied && records[i].order.id == id {
          return Some(i);
        }
      }
      return None;
    }

    method InsertIntoLevel(x: nat, tail: nat) returns (result: Result<nat, string>)
      requires Valid()
      modifies records
      ensures Valid()
      ensures (View(), result) == Model.InsertIntoLevel(old(View()), x, tail)
    {
      if !(x < MAX_ORDER_RECORDS && records[x].occupied) {
        return Err("Invalid order index");
      }
      if tail == INVALID_ORDER_INDEX {
        records[x] := records[x].(queuePosition := 1);
        return Ok(1);
      }
      if !(tail < MAX_ORDER_RECORDS && records[tail].occupied) {
        return Err("Invalid tail index");
      }
      var tailNext := records[tail].nextIndex;
      records[x] := records[x].(prevIndex := tail);
      records[x] := records[x].(nextIndex := tailNext);
      records[tail] := records[tail].(nextIndex := x);
      if tailNext != INVALID_ORDER_INDEX {
        if !records[tailNext].occupied {
          return Err("Invalid next index");
        }
        records[tailNext] := records[tailNext].(prevIndex := x);
      }
      var position := records[tail].queuePosition + 1;
      records[x] := records[x].(queuePosition := position);
      return Ok(position);
    }

    method RemoveFromLevel(x: nat) returns (result: Result<(), string>)
      requires Valid()
      modifies records
      ensures Valid()
      ensures (View(), result) == Model.RemoveFromLevel(old(View()), x)
    {
      RemoveFromLevelInBounds(View(), x);
      if !(x < MAX_ORDER_RECORDS && records[x].occupied) {
        return Err("Invalid order index");
      }
      var prev, next := records[x].prevIndex, records[x].nextIndex;
      if prev != INVALID_ORDER_INDEX {
        if !records[prev].occupied {
          return Err("Invalid prev index");
        }
        records[prev] := records[prev].(nextIndex := next);
      }
      if next != INVALID_ORDER_INDEX {
        if !records[next].occupied {
          return Err("Invalid next index");
        }
        records[next] := records[next].(prevIndex := prev);
      }
      if next != INVALID_ORDER_INDEX {
        ghost var spliced := records[..];
        var current := next;
        while current != INVALID_ORDER_INDEX
          invariant InBounds(View()) && IsLink(current)
          invariant Renumber(records[..], current) == Renumber(spliced, next)
          decreases TotalPosition(records[..]), if current == INVALID_ORDER_INDEX then 0 else 1
        {
          if !records[current].occupied {
            return Err("Invalid index in chain");
          }
          var position := records[current].queuePosition;
          if position > 1 {
            ghost var before := records[..];
            TotalPositionUpdate(before, current, before[current].(queuePosition := position - 1));
            records[current] := records[current].(queuePosition := position - 1);
            assert records[..] == SetPosition(before, current, position - 1);
            current := records[current].nextIndex;
          } else {
            break;
          }
        }
      }
      return Ok(());
    }

    method Clear()
      requires Valid()
      modifies this, records
      ensures Valid()
      ensures View() == Initial() && lookupCount == 0
    {
      for i := 0 to MAX_ORDER_RECORDS
        invariant forall j :: 0 <= j < i ==> records[j] == FreshRecord(j)
      {
        records[i] := EMPTY_RECORD;
        if i < MAX_ORDER_RECORDS - 1 {
          records[i] := records[i].(nextIndex := i + 1);
        } else {
          records[i] := records[i].(nextIndex := INVALID_ORDER_INDEX);
        }
      }
      freeListHead := 0;
      allocatedCount := 0;
      lookupCount := 0;
      assert records[..] == Initial().records;
    }
  }
}

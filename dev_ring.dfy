/**
 * `spits::ring<T>` of dev/include/metrics.hpp: a fixed-capacity ring of element
 * pointers over a slot array, with head (next write), tail (oldest) and size
 * indices. A null pointer is `None`.
 */
module DevRing {
  import opened Wrappers
  import opened Bytes
  import opened RingSpec
  import opened Slots

  class Ring<T> {
    /** `_capacity` and `m_data`: fixed when the ring is built. */
    const capacity: nat
    const data: array<Option<T>>
    var head: nat
    var tail: nat
    var size: nat
    /** The stored elements, oldest first. */
    ghost var Contents: seq<T>

    ghost predicate Valid()
      reads this, data
    {
      capacity == data.Length &&
      head < capacity && size <= capacity &&
      head == Wrap(tail + size, capacity) &&
      |Contents| == size &&
      Holds(data[..], tail, Contents)
    }

    /** `ring(int capacity)`; a capacity of 0 would make every index `% 0`, so it is excluded. */
    constructor (capacity: nat)
      requires capacity > 0
      ensures Valid() && fresh(data)
      ensures this.capacity == capacity && Contents == []
    {
      this.capacity := capacity;
      data := new Option<T>[capacity](_ => None);
      head, tail, size := 0, 0, 0;
      Contents := [];
    }

    /** `push`: on a full ring the oldest element is popped (and deleted) first. */
    method Push(x: T)
      requires Valid()
      modifies this, data
      ensures Valid()
      ensures Contents == Evicting(old(Contents), capacity, x)
    {
      if size == capacity {
        var _ := Pop();
      }
      Store(x);
    }

    /** The write half of `push`: x goes into the head slot, which then moves on. */
    method Store(x: T)
      requires Valid() && |Contents| < capacity
      modifies this, data
      ensures Valid()
      ensures Contents == old(Contents) + [x]
    {
      ghost var slots := data[..];
      HoldsPush(slots, tail, Contents, x);
      data[head] := Some(x);
      assert data[..] == slots[head := Some(x)];
      ModIsWrap(head + 1, capacity);
      head := (head + 1) % capacity;
      size := size + 1;
      Contents := Contents + [x];
    }

    /** `pop`: null on an empty ring; otherwise removes and returns the oldest element. */
    method Pop() returns (r: Option<T>)
      requires Valid()
      modifies this
      ensures Valid()
      ensures old(Contents) == [] ==> r == None && Contents == []
      ensures old(Contents) != [] ==> r == Some(old(Contents)[0]) && Contents == old(Contents)[1..]
    {
      if size == 0 {
        return None;
      }
      HoldsPop(data[..], tail, Contents);
      r := data[tail];
      ModIsWrap(tail + 1, capacity);
      tail := (tail + 1) % capacity;
      size := size - 1;
      Contents := Contents[1..];
    }

    /** `get_front_element`: the newest element, null on an empty ring. */
    method GetFrontElement() returns (r: Option<T>)
      requires Valid()
      ensures r == if Contents == [] then None else Some(Contents[|Contents| - 1])
    {
      var headElement := CRem(head - 1, capacity);
      if head > 0 {
        ModIsWrap(head - 1, capacity);
      } else {
        ModIsWrap(1, capacity);
      }
      assert headElement == if head > 0 then head - 1 else if capacity == 1 then 0 else -1;
      if headElement < 0 {
        headElement := capacity - 1;
      }
      if size == 0 {
        r := None;
      } else {
        assert headElement == Wrap(tail + (size - 1), capacity);
        assert data[..][headElement] == Some(Contents[size - 1]);
        r := data[headElement];
      }
    }

    /** `get_back_element`: the oldest element, null on an empty ring. */
    method GetBackElement() returns (r: Option<T>)
      requires Valid()
      ensures r == if Contents == [] then None else Some(Contents[0])
    {
      if size == 0 {
        r := None;
      } else {
        HoldsPop(data[..], tail, Contents);
        r := data[tail];
      }
    }

    /** `get_element(index)`: the index-th oldest element, null outside 0 <= index < length. */
    method GetElement(index: int) returns (r: Option<T>)
      requires Valid()
      ensures r == if 0 <= index < |Contents| then Some(Contents[index]) else None
    {
      if size == 0 || index < 0 || index >= size {
        return None;
      }
      ModIsWrap(tail + index, capacity);
      assert data[..][Wrap(tail + index, capacity)] == Some(Contents[index]);
      r := data[(tail + index) % capacity];
    }

    method Full() returns (b: bool)
      requires Valid()
      ensures b <==> |Contents| == capacity
    {
      b := size == capacity;
    }

    method Empty() returns (b: bool)
      requires Valid()
      ensures b <==> Contents == []
    {
      b := size == 0;
    }

    method Length() returns (n: nat)
      requires Valid()
      ensures n == |Contents|
    {
      n := size;
    }
  }
}

/**
 * `Ring<T>` of spitz-include/ccpp/spitz/metrics.hpp: a fixed-capacity ring of owning
 * pointers over a slot array, with head (next write), tail (oldest) and size indices.
 * Both reads move the element out of its slot, leaving a null pointer (`None`): `pop`
 * takes the oldest, `pop_front` the newest.
 */
module SpitzRing {
  import opened Wrappers
  import opened Bytes
  import opened RingSpec
  import opened Slots

  class Ring<T> {
    /** `_capacity` and `m_data`: fixed when the ring is built. */
    const capacity: nat
    const data: array<Option<T>>
    var head: nat
    var tail: nat
    var size: nat
    /** The stored elements, oldest first. */
    ghost var Contents: seq<T>

    ghost predicate Valid()
      reads this, data
    {
      capacity == data.Length &&
      head < capacity && size <= capacity &&
      head == Wrap(tail + size, capacity) &&
      |Contents| == size &&
      Holds(data[..], tail, Contents)
    }

    /**
     * `Ring(int capacity)`: every slot null. A capacity of 0 makes the first push write
     * outside the array and reduce `% 0`, so it is excluded.
     */
    constructor (capacity: nat)
      requires capacity > 0
      ensures Valid() && fresh(data)
      ensures this.capacity == capacity && Contents == []
    {
      this.capacity := capacity;
      data := new Option<T>[capacity](_ => None);
      head, tail, size := 0, 0, 0;
      Contents := [];
    }

    /** `push`: on a full ring the oldest element is popped (and deleted) first. */
    method Push(x: T)
      requires Valid()
      modifies this, data
      ensures Valid()
      ensures Contents == Evicting(old(Contents), capacity, x)
    {
      if size == capacity {
        var _ := Pop();
      }
      Store(x);
    }

    /** The write half of `push`: x goes into the head slot, which then moves on. */
    method Store(x: T)
      requires Valid() && |Contents| < capacity
      modifies this, data
      ensures Valid()
      ensures Contents == old(Contents) + [x]
    {
      ghost var slots := data[..];
      HoldsPush(slots, tail, Contents, x);
      data[head] := Some(x);
      assert data[..] == slots[head := Some(x)];
      ModIsWrap(head + 1, capacity);
      head := (head + 1) % capacity;
      size := size + 1;
      Contents := Contents + [x];
    }

    /** `pop`: null on an empty ring; otherwise moves the oldest element out and returns it. */
    method Pop() returns (r: Option<T>)
      requires Valid()
      modifies this, data
      ensures Valid()
      ensures old(Contents) == [] ==> r == None && Contents == []
      ensures old(Contents) != [] ==> r == Some(old(Contents)[0]) && Contents == old(Contents)[1..]
    {
      if size == 0 {
        return None;
      }
      ghost var slots := data[..];
      HoldsTakeOldest(slots, tail, Contents);
      r := data[tail];
      data[tail] := None;
      assert data[..] == slots[tail := None];
      ModIsWrap(tail + 1, capacity);
      tail := (tail + 1) % capacity;
      size := size - 1;
      Contents := Contents[1..];
    }

    /**
     * `pop_front`: null on an empty ring; otherwise head steps back (C's `%` leaves
     * -1 at slot 0, which is then set to the last slot) and the newest element is
     * moved out and returned.
     */
    method PopFront() returns (r: Option<T>)
      requires Valid()
      modifies this, data
      ensures Valid()
      ensures old(Contents) == [] ==> r == None && Contents == []
      ensures old(Contents) != [] ==>
        r == Some(old(Contents)[|old(Contents)| - 1]) && Contents == old(Contents)[..|old(Contents)| - 1]
    {
      if size == 0 {
        return None;
      }
      var h := StepBack();
      ghost var slots := data[..];
      ghost var kept := Contents[..size - 1];
      HoldsTakeNewest(slots, tail, Contents);
      assert Holds(slots[h := None], tail, kept);
      head := h;
      r := data[head];
      data[head] := None;
      assert data[..] == slots[h := None];
      size := size - 1;
      Contents := kept;
    }

    /** The slot before head, where the newest element sits: `(head - 1) % capacity`, then -1 set to the last slot. */
    method StepBack() returns (h: nat)
      requires Valid() && size > 0
      ensures h == Wrap(tail + (size - 1), capacity)
    {
      var back := CRem(head - 1, capacity);
      if head > 0 {
        ModIsWrap(head - 1, capacity);
      } else {
        ModIsWrap(1, capacity);
      }
      assert back == if head > 0 then head - 1 else if capacity == 1 then 0 else -1;
      if back < 0 {
        back := capacity - 1;
      }
      h := back;
    }

    method Full() returns (b: bool)
      requires Valid()
      ensures b <==> |Contents| == capacity
    {
      b := size == capacity;
    }

    method Empty() returns (b: bool)
      requires Valid()
      ensures b <==> Contents == []
    {
      b := size == 0;
    }

    method Length() returns (n: nat)
      requires Valid()
      ensures n == |Contents|
    {
      n := size;
    }
  }
}

/**
 * `RingBuffer<BufferType>` of spitz-include/ccpp/metrics.hpp: a circular buffer over a
 * slot array of `DestroyableElement`s with a head (next write), a tail (oldest) and a
 * `full` flag, all `unsigned int`. A slot holding a null pointer is `None`.
 *
 * Two of its reads index from the wrong place: `peek_front` computes `(head - 1) %
 * size` in unsigned arithmetic, and `at(i)` counts from the head instead of the tail.
 * Each is modelled as written (`PeekFrontSlotAsWritten`, `AtSlotAsWritten`), which
 * is what the class and the store use, with a lemma exhibiting the wrong slot, and as
 * intended (`PeekFrontSlot`, `AtSlot`), with lemmas saying where the two agree.
 */
module CcppRing {
  import opened Wrappers
  import opened Bytes
  import opened RingSpec
  import opened Slots

  /** What the store's code throws or does not define: a `runtime_error`, or a read of a slot outside the retained samples. */
  datatype Error = RuntimeError | ReadOutsideSamples

  /** `peek_front` as written: `(_head - 1) % _buffer_size` on `unsigned int`s, so a head of 0 becomes 2^32 - 1. */
  function PeekFrontSlotAsWritten(head: u32, size: u32): (k: nat)
    requires 0 < size
    ensures k < size
  {
    ((head - 1) % TWO_32) % size
  }

  /** The slot before the head, wrapping to the last slot: where the newest element is. */
  function PeekFrontSlot(head: nat, size: nat): (k: nat)
    requires 0 < size && head < size
    ensures k < size
    ensures k == if head == 0 then size - 1 else head - 1
  {
    ModIsWrap(head + size - 1, size);
    (head + size - 1) % size
  }

  /** Away from a head of 0 the two agree. */
  lemma PeekFrontAgreesAwayFromZero(head: u32, size: u32)
    requires 0 < head < size
    ensures PeekFrontSlotAsWritten(head, size) == PeekFrontSlot(head, size)
  {
    ModIsWrap(head - 1, TWO_32);
    ModIsWrap(head - 1, size);
  }

  /**
   * On a full ring of three slots whose head has come back to 0, `peek_front` as written
   * reads slot 0, which holds the OLDEST element, not the newest.
   */
  lemma PeekFrontAsWrittenReadsOldest<T>(slots: seq<Option<T>>, contents: seq<T>)
    requires |slots| == 3 && |contents| == 3 && Holds(slots, 0, contents)
    ensures PeekFrontSlotAsWritten(0, 3) == 0 && PeekFrontSlot(0, 3) == 2
    ensures slots[PeekFrontSlotAsWritten(0, 3)] == Some(contents[0])
    ensures slots[PeekFrontSlot(0, 3)] == Some(contents[2])
  {
    assert (0 - 1) % TWO_32 == 0xffff_ffff;
    assert 0xffff_ffff == 3 * 0x5555_5555;
    assert Wrap(0 + 0, 3) == 0 && Wrap(0 + 2, 3) == 2;
  }

  /** `at(index)` as written: `(_head + index) % _buffer_size` on `unsigned int`s. */
  function AtSlotAsWritten(head: u32, index: u32, size: u32): (k: nat)
    requires 0 < size
    ensures k < size
  {
    ((head + index) % TWO_32) % size
  }

  /** The slot of the index-th oldest element: counted from the tail. */
  function AtSlot(tail: nat, index: nat, size: nat): (k: nat)
    requires 0 < size
    ensures k < size
  {
    (tail + index) % size
  }

  /** On a full ring head and tail coincide, so `at` as written reads the right slot. */
  lemma AtAgreesWhenFull(head: u32, index: u32, size: u32)
    requires 0 < size && head < size && head + index < TWO_32
    ensures AtSlotAsWritten(head, index, size) == AtSlot(head, index, size)
  {
  }

  /** An index that stays within the turn of the ring from the head reads the slot that many places on. */
  lemma AtSlotWithinTurn(head: u32, index: u32, size: u32)
    requires head + index < size
    ensures AtSlotAsWritten(head, index, size) == head + index
  {
    assert (head + index) % TWO_32 == head + index;
    ModIsWrap(head + index, size);
  }

  /** The slot `offset` places after the tail. */
  function SlotAt(tail: nat, offset: nat, size: nat): nat
  {
    Wrap(tail + offset, size)
  }

  /** Within one turn of the ring, different offsets from the tail are different slots. */
  lemma SlotAtInjective(tail: nat, a: nat, b: nat, size: nat)
    requires tail < size && a < size && b < size && a != b
    ensures SlotAt(tail, a, size) != SlotAt(tail, b, size)
  {
  }

  /**
   * On a ring that is neither empty nor full, `at(i)` as written reads, for every i short
   * of the free slots' end, the slot |contents| + i places after the tail: one holding
   * none of the elements.
   */
  lemma AtAsWrittenReadsPastNewest<T>(slots: seq<Option<T>>, tail: nat, contents: seq<T>, head: u32, index: u32)
    requires Holds(slots, tail, contents) && 0 < |contents| < |slots| < TWO_32
    requires head == Wrap(tail + |contents|, |slots|) && head + index < TWO_32
    requires index + |contents| < |slots|
    ensures AtSlotAsWritten(head, index, |slots|) == SlotAt(tail, |contents| + index, |slots|)
    ensures forall j :: 0 <= j < |contents| ==> SlotAt(tail, j, |slots|) != AtSlotAsWritten(head, index, |slots|)
  {
    var c := |slots|;
    ModIsWrap(head + index, TWO_32);
    ModIsWrap(head + index, c);
    var k := SlotAt(tail, |contents| + index, c);
    assert AtSlotAsWritten(head, index, c) == k;
    forall j | 0 <= j < |contents|
      ensures SlotAt(tail, j, c) != k
    {
      SlotAtInjective(tail, j, |contents| + index, c);
    }
  }

  /** The smallest ring of the store in which `at(0)` as written misses the only element. */
  lemma AtAsWrittenMissesOnlyElement<T>(slots: seq<Option<T>>, x: T)
    requires |slots| == 3 && Holds(slots, 0, [x])
    ensures AtSlotAsWritten(1, 0, 3) == 1 && AtSlot(0, 0, 3) == 0
    ensures slots[AtSlot(0, 0, 3)] == Some(x)
  {
    assert slots[Wrap(0 + 0, 3)] == Some([x][0]);
  }

  /**
   * The ring's invariant on its slot values and indices: the head is |contents| slots
   * after the tail, and `full` says whether every slot holds an element.
   */
  ghost predicate Inv<T>(s: seq<Option<T>>, head: nat, tail: nat, full: bool, contents: seq<T>)
  {
    |s| < TWO_32 && head < |s| && |contents| <= |s| &&
    head == Wrap(tail + |contents|, |s|) &&
    (full <==> |contents| == |s|) &&
    Holds(s, tail, contents)
  }

  /** `push`'s index updates keep the invariant, with the contents evicting as a ring does. */
  lemma PushKeepsInv<T>(s: seq<Option<T>>, head: nat, tail: nat, full: bool, contents: seq<T>, x: T)
    requires Inv(s, head, tail, full, contents)
    ensures var c := |s|;
      var tail' := if full then (tail + 1) % c else tail;
      var head' := (head + 1) % c;
      Inv(s[head := Some(x)], head', tail', head' == tail', Evicting(contents, c, x))
  {
    var c := |s|;
    var contents' := Evicting(contents, c, x);
    ModIsWrap(head + 1, c);
    ModIsWrap(tail + 1, c);
    if full {
      HoldsOverwrite(s, tail, contents, x);
      assert contents' == contents[1..] + [x];
    } else {
      HoldsPush(s, tail, contents, x);
      assert contents' == contents + [x];
    }
  }

  /** `pop`'s index updates on a non-empty ring keep the invariant, with the oldest element gone. */
  lemma PopKeepsInv<T>(s: seq<Option<T>>, head: nat, tail: nat, full: bool, contents: seq<T>)
    requires Inv(s, head, tail, full, contents) && contents != []
    ensures s[tail] == Some(contents[0])
    ensures Inv(s, head, (tail + 1) % |s|, false, contents[1..])
  {
    HoldsPop(s, tail, contents);
    ModIsWrap(tail + 1, |s|);
  }

  class RingBuffer<T> {
    /** `_buffer_size`. */
    const bufferSize: nat
    /** `_buffer`: replaced by `reset`. */
    var slots: array<Option<T>>
    var head: nat
    var tail: nat
    var full: bool
    /** The elements, oldest first. */
    ghost var Contents: seq<T>

    ghost predicate Valid()
      reads this, slots
    {
      bufferSize == slots.Length && Inv(slots[..], head, tail, full, Contents)
    }

    /**
     * `RingBuffer(size)`. A size of 0 would make every later `% _buffer_size` undefined,
     * so it is excluded.
     */
    constructor (size: u32)
      requires size > 0
      ensures Valid() && fresh(slots)
      ensures bufferSize == size && Contents == []
    {
      bufferSize := size;
      slots := new Option<T>[size](_ => None);
      head, tail, full := 0, 0, false;
      Contents := [];
    }

    /** `reset`: a new array of empty slots, and the indices back to 0. */
    method Reset()
      requires Valid()
      modifies this
      ensures Valid() && fresh(slots) && Contents == []
    {
      slots := new Option<T>[bufferSize](_ => None);
      head, tail, full := 0, 0, false;
      Contents := [];
    }

    /** `clear`: the indices back to 0; the slots keep their elements. */
    method Clear()
      requires Valid()
      modifies this
      ensures Valid() && Contents == [] && slots == old(slots)
    {
      head, tail, full := 0, 0, false;
      Contents := [];
    }

    method Full() returns (b: bool)
      requires Valid()
      ensures b <==> |Contents| == bufferSize
    {
      b := full;
    }

    /** `empty`: not full and head on tail. */
    method Empty() returns (b: bool)
      requires Valid()
      ensures b <==> Contents == []
    {
      b := !full && head == tail;
    }

    /** `length`: the size when full, else the distance from tail to head around the ring. */
    method Length() returns (n: nat)
      requires Valid()
      ensures n == |Contents|
    {
      if !full {
        if head >= tail {
          n := head - tail;
        } else {
          n := bufferSize + head - tail;
        }
      } else {
        n := bufferSize;
      }
    }

    method Capacity() returns (n: nat)
      requires Valid()
      ensures n == bufferSize
    {
      n := bufferSize;
    }

    /**
     * `push`: the element goes into the head slot (the slot's previous pointer is
     * deleted); on a full ring the tail moves on first, so the oldest element is the one
     * overwritten; then the head moves on and `full` is whether it caught up with the tail.
     */
    method Push(x: T)
      requires Valid()
      modifies this, slots
      ensures Valid() && slots == old(slots)
      ensures Contents == Evicting(old(Contents), bufferSize, x)
    {
      PushKeepsInv(slots[..], head, tail, full, Contents, x);
      ghost var contents := Contents;
      slots[head] := Some(x);
      if full {
        tail := (tail + 1) % bufferSize;
      }
      head := (head + 1) % bufferSize;
      full := head == tail;
      Contents := Evicting(contents, bufferSize, x);
    }

    /** `pop`: throws on an empty ring; otherwise clears `full`, moves the tail on and returns the oldest element. */
    method Pop() returns (r: Result<T, Error>)
      requires Valid()
      modifies this
      ensures Valid() && slots == old(slots)
      ensures old(Contents) == [] ==> r == Err(RuntimeError) && Contents == []
      ensures old(Contents) != [] ==> r == Ok(old(Contents)[0]) && Contents == old(Contents)[1..]
    {
      var isEmpty := Empty();
      if isEmpty {
        return Err(RuntimeError);
      }
      PopKeepsInv(slots[..], head, tail, full, Contents);
      var val := slots[tail];
      full := false;
      tail := (tail + 1) % bufferSize;
      Contents := Contents[1..];
      r := Ok(val.value);
    }

    /** `peek`: the tail slot, which holds the oldest element when there is one. */
    method Peek() returns (r: Option<T>)
      requires Valid()
      ensures Contents != [] ==> r == Some(Contents[0])
    {
      if Contents != [] {
        HoldsPop(slots[..], tail, Contents);
      }
      r := slots[tail];
    }

    /**
     * `peek_front`: the slot `(head - 1) % size` in `unsigned int` arithmetic. Away from a
     * head of 0 that is the newest element; at a head of 0 a full ring gives the element
     * `(2^32 - 1) % size` places after the oldest.
     */
    method PeekFront() returns (r: Option<T>)
      requires Valid()
      ensures Contents != [] && head != 0 ==> r == Some(Contents[|Contents| - 1])
      ensures full && head == 0 ==> r == Some(Contents[PeekFrontSlotAsWritten(0, bufferSize)])
    {
      var k := PeekFrontSlotAsWritten(head, bufferSize);
      if Contents != [] && head != 0 {
        PeekFrontAgreesAwayFromZero(head, bufferSize);
        assert k == Wrap(tail + (|Contents| - 1), bufferSize);
        assert slots[..][k] == Some(Contents[|Contents| - 1]);
      }
      if full && head == 0 {
        assert tail == 0 && Wrap(0 + k, bufferSize) == k;
        assert slots[..][k] == Some(Contents[k]);
      }
      r := slots[k];
    }

    /**
     * `at(index)`: the slot `(head + index) % size` in `unsigned int` arithmetic, counted
     * from the head. Head and tail coincide on a full ring, where that is the index-th
     * oldest element; on a ring that is not full it is the slot |Contents| + index places
     * after the tail, past the newest element.
     */
    method At(index: u32) returns (r: Option<T>)
      requires Valid()
      ensures full && index < |Contents| && head + index < TWO_32 ==> r == Some(Contents[index])
      ensures !full && index + |Contents| < bufferSize && head + index < TWO_32 ==>
        r == slots[SlotAt(tail, |Contents| + index, bufferSize)]
    {
      var k := AtSlotAsWritten(head, index, bufferSize);
      if full && index < |Contents| && head + index < TWO_32 {
        AtAgreesWhenFull(head, index, bufferSize);
        ModIsWrap(tail + index, bufferSize);
        assert slots[..][k] == Some(Contents[index]);
      }
      if !full && index + |Contents| < bufferSize && head + index < TWO_32 {
        ModIsWrap(head + index, TWO_32);
        ModIsWrap(head + index, bufferSize);
        ModIsWrap(tail + (|Contents| + index), bufferSize);
      }
      r := slots[k];
    }
  }
}

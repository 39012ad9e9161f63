/**
 * The `CircularBuffer<T>` of API/include/utils.hpp: head, tail and a `full` flag,
 * all `unsigned int`, over a slot array.
 *
 * The header calls `is_full()`, which it never declares, and names both a member and
 * a method `full`; the model reads `is_full()` as the flag.
 */
module LegacyRing {
  import opened Wrappers
  import opened Bytes
  import opened RingSpec
  import opened Slots
  import CcppRing

  /** Stepping one slot on from the slot `i` places after the tail. */
  lemma WrapNext(tail: nat, i: nat, c: nat)
    requires tail < c && i < c
    ensures (Wrap(tail + i, c) + 1) % c == Wrap(tail + i + 1, c)
  {
    ModIsWrap(Wrap(tail + i, c) + 1, c);
  }

  /** Writing the head slot and then advancing as `advance` does keeps the ring's invariant, with the contents evicting. */
  lemma AdvanceAfterWrite<T>(s: seq<Option<T>>, head: nat, tail: nat, full: bool, contents: seq<T>, x: T,
                             head': nat, tail': nat, full': bool)
    requires CcppRing.Inv(s, head, tail, full, contents)
    requires tail' == if full then (tail + 1) % |s| else tail
    requires head' == (head + 1) % |s| && full' == (head' == tail')
    ensures CcppRing.Inv(s[head := Some(x)], head', tail', full', Evicting(contents, |s|, x))
  {
    CcppRing.PushKeepsInv(s, head, tail, full, contents, x);
  }

  /**
   * `CircularBuffer<BufferType>`. Its slots keep the elements oldest first from the
   * tail, as the other head/tail rings do (`CcppRing.Inv`). A buffer of size 0 can be
   * built and queried, but any `% buffer_size` on it is undefined, so `push` and
   * `operator[]` require a positive size.
   */
  class CircularBuffer<T> {
    /** `buffer_size`. */
    const bufferSize: u32
    /** `buffer`: never replaced, not even by `reset`. */
    var slots: array<Option<T>>
    var head: nat
    var tail: nat
    var full: bool
    /** The elements, oldest first. */
    ghost var Contents: seq<T>

    ghost predicate Valid()
      reads this, slots
    {
      slots.Length == bufferSize &&
      if bufferSize == 0 then head == 0 && tail == 0 && !full && Contents == []
      else CcppRing.Inv(slots[..], head, tail, full, Contents)
    }

    /** `CircularBuffer(size)`: every slot default-constructed (a null pointer), both indices 0. */
    constructor (size: u32)
      ensures Valid() && fresh(slots)
      ensures bufferSize == size && Contents == []
    {
      bufferSize := size;
      slots := new Option<T>[size](_ => None);
      head, tail, full := 0, 0, false;
      Contents := [];
    }

    /** `advance`: the tail moves on only when the buffer was full, the head always, and `full` is whether they met. */
    method Advance()
      requires 0 < bufferSize && head < bufferSize && tail < bufferSize
      modifies this
      ensures tail == if old(full) then (old(tail) + 1) % bufferSize else old(tail)
      ensures head == (old(head) + 1) % bufferSize
      ensures full == (head == tail)
      ensures Contents == old(Contents) && slots == old(slots)
    {
      if full {
        tail := (tail + 1) % bufferSize;
      }
      head := (head + 1) % bufferSize;
      full := head == tail;
    }

    /** `retreat`: clears `full` and moves the tail on. */
    method Retreat()
      requires 0 < bufferSize && tail < bufferSize
      modifies this
      ensures !full && tail == (old(tail) + 1) % bufferSize
      ensures head == old(head) && Contents == old(Contents) && slots == old(slots)
    {
      full := false;
      tail := (tail + 1) % bufferSize;
    }

    /** `reset`: both indices and the flag back to 0; the slots keep what they hold. */
    method Reset()
      requires Valid()
      modifies this
      ensures Valid() && Contents == [] && slots == old(slots)
    {
      head, tail, full := 0, 0, false;
      Contents := [];
    }

    /** `full()`: the flag, which a buffer of size 0 never sets. */
    method Full() returns (b: bool)
      requires Valid()
      ensures b <==> 0 < bufferSize && |Contents| == bufferSize
    {
      b := full;
    }

    /** `empty()`: not full and head on tail. */
    method Empty() returns (b: bool)
      requires Valid()
      ensures b <==> Contents == []
    {
      b := !full && head == tail;
    }

    /** `size()`: the capacity when full, else the distance from tail to head around the ring. */
    method Size() returns (n: u32)
      requires Valid()
      ensures n == |Contents|
    {
      if !full {
        if head >= tail {
          n := head - tail;
        } else {
          n := bufferSize + head - tail;
        }
      } else {
        n := bufferSize;
      }
    }

    /** `capacity()`. */
    method Capacity() returns (n: u32)
      requires Valid()
      ensures n == bufferSize
    {
      n := bufferSize;
    }

    /**
     * `push`: on a full buffer the element in the head slot (the oldest) is destroyed;
     * the new element goes into the head slot and `advance` runs.
     */
    method Push(x: T)
      requires Valid() && 0 < bufferSize
      modifies this, slots
      ensures Valid() && slots == old(slots)
      ensures Contents == Evicting(old(Contents), bufferSize, x)
    {
      ghost var s, h, t, f, contents := slots[..], head, tail, full, Contents;
      slots[head] := Some(x);
      assert slots[..] == s[h := Some(x)];
      Advance();
      Contents := Evicting(contents, bufferSize, x);
      AdvanceAfterWrite(s, h, t, f, contents, x, head, tail, full);
    }

    /** `pop`: a default (null) element on an empty buffer; otherwise the oldest element, and `retreat`. */
    method Pop() returns (r: Option<T>)
      requires Valid()
      modifies this
      ensures Valid() && slots == old(slots)
      ensures old(Contents) == [] ==> r == None && Contents == []
      ensures old(Contents) != [] ==> r == Some(old(Contents)[0]) && Contents == old(Contents)[1..]
    {
      var isEmpty := Empty();
      if isEmpty {
        return None;
      }
      CcppRing.PopKeepsInv(slots[..], head, tail, full, Contents);
      var val := slots[tail];
      Retreat();
      Contents := Contents[1..];
      r := val;
    }

    /**
     * `operator[](index)`: the slot `(head + index) % buffer_size` in `unsigned int`
     * arithmetic. Head and tail coincide on a full buffer, so there it is the
     * index-th oldest element.
     */
    method Index(index: u32) returns (r: Option<T>)
      requires Valid() && 0 < bufferSize
      ensures full && index < bufferSize <= 0x8000_0000 ==> r == Some(Contents[index])
    {
      var k := CcppRing.AtSlotAsWritten(head, index, bufferSize);
      if full && index < bufferSize <= 0x8000_0000 {
        CcppRing.AtAgreesWhenFull(head, index, bufferSize);
        ModIsWrap(tail + index, bufferSize);
        assert slots[..][Wrap(tail + index, bufferSize)] == Some(Contents[index]);
      }
      r := slots[k];
    }

    /**
     * Iteration from `begin()` to `end()`: the iterator starts on the tail slot and
     * steps one slot on per element; it compares equal to `end()` after `size()` steps.
     */
    method Items() returns (out: seq<T>)
      requires Valid()
      ensures out == Contents
    {
      var n := Size();
      out := [];
      var k := tail;
      var i := 0;
      while i < n
        invariant i <= n
        invariant k == Wrap(tail + i, bufferSize)
        invariant out == Contents[..i]
      {
        assert slots[..][Wrap(tail + i, bufferSize)] == Some(Contents[i]);
        out := out + [slots[k].value];
        WrapNext(tail, i, bufferSize);
        k := (k + 1) % bufferSize;
        i := i + 1;
      }
    }
  }
}

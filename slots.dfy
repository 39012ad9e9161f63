/**
 * The slot arrays of the rings: a ring keeps its elements, oldest first, in
 * consecutive slots from its tail, wrapping around the end of the array. An empty slot
 * (a null pointer) is `None`.
 */
module Slots {
  import opened Wrappers
  import opened Bytes

  /**
   * The slots hold `contents`, oldest first, starting at `tail` and wrapping around the
   * end of the slot array.
   */
  ghost predicate Holds<T>(slots: seq<Option<T>>, tail: nat, contents: seq<T>)
  {
    0 < |slots| && tail < |slots| && |contents| <= |slots| &&
    forall i :: 0 <= i < |contents| ==> slots[Wrap(tail + i, |slots|)] == Some(contents[i])
  }

  /** Writing the slot after the newest element appends to the contents. */
  lemma HoldsPush<T>(slots: seq<Option<T>>, tail: nat, contents: seq<T>, x: T)
    requires Holds(slots, tail, contents) && |contents| < |slots|
    ensures Holds(slots[Wrap(tail + |contents|, |slots|) := Some(x)], tail, contents + [x])
  {
    var c := |slots|;
    var k := Wrap(tail + |contents|, c);
    var slots', contents' := slots[k := Some(x)], contents + [x];
    forall i | 0 <= i < |contents'|
      ensures slots'[Wrap(tail + i, c)] == Some(contents'[i])
    {
      if i < |contents| {
        assert Wrap(tail + i, c) != k;
      }
    }
  }

  /** The tail slot holds the oldest element; the rest start one slot further on. */
  lemma HoldsPop<T>(slots: seq<Option<T>>, tail: nat, contents: seq<T>)
    requires Holds(slots, tail, contents) && contents != []
    ensures slots[tail] == Some(contents[0])
    ensures Holds(slots, Wrap(tail + 1, |slots|), contents[1..])
  {
    var c := |slots|;
    assert Wrap(tail + 0, c) == tail;
    forall i | 0 <= i < |contents| - 1
      ensures slots[Wrap(Wrap(tail + 1, c) + i, c)] == Some(contents[1..][i])
    {
      assert Wrap(Wrap(tail + 1, c) + i, c) == Wrap(tail + (i + 1), c);
    }
  }

  /**
   * Overwriting the oldest element of a full ring (its tail slot) drops it and appends
   * the new element; the contents then start one slot further on.
   */
  lemma HoldsOverwrite<T>(slots: seq<Option<T>>, tail: nat, contents: seq<T>, x: T)
    requires Holds(slots, tail, contents) && |contents| == |slots|
    ensures Holds(slots[tail := Some(x)], Wrap(tail + 1, |slots|), contents[1..] + [x])
  {
    var c := |slots|;
    HoldsPop(slots, tail, contents);
    var tail' := Wrap(tail + 1, c);
    assert Wrap(tail' + |contents[1..]|, c) == tail;
    HoldsPush(slots, tail', contents[1..], x);
  }

  /**
   * Moving the oldest element out of the tail slot leaves a null pointer there; the
   * rest of the contents start one slot further on.
   */
  lemma HoldsTakeOldest<T>(slots: seq<Option<T>>, tail: nat, contents: seq<T>)
    requires Holds(slots, tail, contents) && contents != []
    ensures slots[tail] == Some(contents[0])
    ensures Holds(slots[tail := None], Wrap(tail + 1, |slots|), contents[1..])
  {
    var c := |slots|;
    HoldsPop(slots, tail, contents);
    var tail' := Wrap(tail + 1, c);
    forall i | 0 <= i < |contents| - 1
      ensures slots[tail := None][Wrap(tail' + i, c)] == Some(contents[1..][i])
    {
      assert Wrap(tail' + i, c) == Wrap(tail + (i + 1), c);
    }
  }

  /**
   * Moving the newest element out of its slot (the one before head) leaves a null
   * pointer there and the other elements where they were.
   */
  lemma HoldsTakeNewest<T>(slots: seq<Option<T>>, tail: nat, contents: seq<T>)
    requires Holds(slots, tail, contents) && contents != []
    ensures var k := Wrap(tail + (|contents| - 1), |slots|);
      && k < |slots| && slots[k] == Some(contents[|contents| - 1])
      && Holds(slots[k := None], tail, contents[..|contents| - 1])
  {
    var c, n := |slots|, |contents|;
    var k := Wrap(tail + (n - 1), c);
    var slots', kept := slots[k := None], contents[..n - 1];
    forall i | 0 <= i < |kept|
      ensures slots'[Wrap(tail + i, c)] == Some(kept[i])
    {
      assert Wrap(tail + i, c) != k;
    }
  }
}

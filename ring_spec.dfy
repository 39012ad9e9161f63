/**
 * What every ring of the stores promises, stated once on sequences: a ring of a
 * given capacity holds the most recent pushes, oldest first, and pushing onto a
 * full ring drops its oldest element before appending.
 */
module RingSpec {
  /** The last n items of s, in order (all of s when it is shorter). */
  function Newest<T>(s: seq<T>, n: nat): (r: seq<T>)
    ensures |r| == if |s| < n then |s| else n
    ensures r == s[|s| - |r|..]
  {
    if |s| <= n then s else s[|s| - n..]
  }

  /** Pushing x onto a ring of the given capacity that holds s, oldest first. */
  function Evicting<T>(s: seq<T>, capacity: nat, x: T): (r: seq<T>)
    requires 0 < capacity && |s| <= capacity
    ensures |r| <= capacity
    ensures r == Newest(s + [x], capacity)
  {
    if |s| == capacity then s[1..] + [x] else s + [x]
  }

  /** Pushing xs one by one, first to last. */
  function PushAll<T>(s: seq<T>, capacity: nat, xs: seq<T>): (r: seq<T>)
    requires 0 < capacity && |s| <= capacity
    decreases |xs|
  {
    if |xs| == 0 then s else PushAll(Evicting(s, capacity, xs[0]), capacity, xs[1..])
  }

  /**
   * After any sequence of pushes the ring holds exactly the `capacity` most recent
   * elements of everything it held and was given, oldest first.
   */
  lemma {:induction false} PushAllKeepsNewest<T>(s: seq<T>, capacity: nat, xs: seq<T>)
    requires 0 < capacity && |s| <= capacity
    ensures PushAll(s, capacity, xs) == Newest(s + xs, capacity)
    decreases |xs|
  {
    if |xs| > 0 {
      var s' := Evicting(s, capacity, xs[0]);
      var t := s + [xs[0]];
      calc {
        PushAll(s, capacity, xs);
        PushAll(s', capacity, xs[1..]);
        { PushAllKeepsNewest(s', capacity, xs[1..]); }
        Newest(s' + xs[1..], capacity);
        Newest(Newest(t, capacity) + xs[1..], capacity);
        { NewestAppend(t, capacity, xs[1..]); }
        Newest(t + xs[1..], capacity);
        { assert t + xs[1..] == s + xs; }
        Newest(s + xs, capacity);
      }
    } else {
      assert s + xs == s;
    }
  }

  lemma NewestAppend<T>(t: seq<T>, n: nat, ys: seq<T>)
    ensures Newest(Newest(t, n) + ys, n) == Newest(t + ys, n)
  {
    var a := Newest(t, n);
    if |t| > n {
      var d := |t| - n;
      assert t + ys == t[..d] + (a + ys);
    }
  }

  /** From an empty ring, N pushes leave min(N, capacity) elements: the last ones pushed. */
  lemma PushAllFromEmpty<T>(capacity: nat, xs: seq<T>)
    requires 0 < capacity
    ensures |PushAll([], capacity, xs)| == if |xs| < capacity then |xs| else capacity
    ensures PushAll([], capacity, xs) == xs[|xs| - |PushAll([], capacity, xs)|..]
  {
    PushAllKeepsNewest([], capacity, xs);
    assert [] + xs == xs;
  }
}

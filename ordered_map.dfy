/**
 * `std::map<std::string, V>` as the stores use it: a sequence of entries kept in
 * strictly increasing key order, so that iterating the map visits names sorted by
 * `std::string`'s `operator<` (byte-wise lexicographic, bytes compared unsigned).
 */
module OrderedMap {
  import opened Wrappers
  import opened Bytes

  type Key = seq<byte>

  /** `a < b` for two `std::string`s. */
  predicate Below(a: Key, b: Key)
  {
    if |a| == 0 then |b| > 0
    else |b| > 0 && (a[0] < b[0] || (a[0] == b[0] && Below(a[1..], b[1..])))
  }

  lemma {:induction false} BelowIrreflexive(a: Key)
    ensures !Below(a, a)
  {
    if |a| > 0 {
      BelowIrreflexive(a[1..]);
    }
  }

  lemma {:induction false} BelowTransitive(a: Key, b: Key, c: Key)
    requires Below(a, b) && Below(b, c)
    ensures Below(a, c)
  {
    if |a| > 0 && a[0] == b[0] && b[0] == c[0] {
      BelowTransitive(a[1..], b[1..], c[1..]);
    }
  }

  /** Any two distinct names are ordered one way or the other, and never both ways. */
  lemma {:induction false} BelowTotal(a: Key, b: Key)
    ensures a == b || Below(a, b) || Below(b, a)
    ensures !(Below(a, b) && Below(b, a))
  {
    if |a| > 0 && |b| > 0 && a[0] == b[0] {
      BelowTotal(a[1..], b[1..]);
      if a[1..] == b[1..] {
        assert a == [a[0]] + a[1..] && b == [b[0]] + b[1..];
      }
    }
  }

  datatype Entry<V> = Entry(key: Key, value: V)

  /** Entries in strictly increasing key order: the map's iteration order, with no key twice. */
  ghost predicate Sorted<V>(es: seq<Entry<V>>)
  {
    forall i, j :: 0 <= i < j < |es| ==> Below(es[i].key, es[j].key)
  }

  function KeySet<V>(es: seq<Entry<V>>): set<Key>
  {
    set i | 0 <= i < |es| :: es[i].key
  }

  lemma KeySetCons<V>(e: Entry<V>, es: seq<Entry<V>>)
    ensures KeySet([e] + es) == {e.key} + KeySet(es)
  {
    var r := [e] + es;
    forall k | k in KeySet(r)
      ensures k in {e.key} + KeySet(es)
    {
      var i :| 0 <= i < |r| && r[i].key == k;
      if i > 0 {
        assert es[i - 1].key == k;
      }
    }
    forall k | k in KeySet(es)
      ensures k in KeySet(r)
    {
      var i :| 0 <= i < |es| && es[i].key == k;
      assert r[i + 1].key == k;
    }
    assert r[0].key == e.key;
  }

  /** `find`: the value stored under k, if any. */
  function Get<V>(es: seq<Entry<V>>, k: Key): (r: Option<V>)
    ensures r.Some? <==> k in KeySet(es)
    ensures r.Some? ==> exists i :: 0 <= i < |es| && es[i] == Entry(k, r.value)
  {
    if |es| == 0 then None
    else if es[0].key == k then Some(es[0].value)
    else
      var r := Get(es[1..], k);
      assert es == [es[0]] + es[1..];
      KeySetCons(es[0], es[1..]);
      r
  }

  /** In a sorted map an entry is the only one with its key. */
  lemma GetSorted<V>(es: seq<Entry<V>>, i: nat)
    requires Sorted(es) && i < |es|
    ensures Get(es, es[i].key) == Some(es[i].value)
  {
    var k := es[i].key;
    var r := Get(es, k);
    var j :| 0 <= j < |es| && es[j] == Entry(k, r.value);
    if j < i {
      BelowIrreflexive(k);
    } else if i < j {
      BelowIrreflexive(k);
    }
  }

  /** An entry whose key precedes every key of a sorted map can be put in front of it. */
  lemma SortedCons<V>(e: Entry<V>, es: seq<Entry<V>>)
    requires Sorted(es)
    requires forall k :: k in KeySet(es) ==> Below(e.key, k)
    ensures Sorted([e] + es)
  {
    var r := [e] + es;
    forall i, j | 0 <= i < j < |r|
      ensures Below(r[i].key, r[j].key)
    {
      if i == 0 {
        assert r[j].key == es[j - 1].key;
        assert r[j].key in KeySet(es);
      }
    }
  }

  /** The first key of a sorted map precedes all the others. */
  lemma SortedHead<V>(es: seq<Entry<V>>)
    requires Sorted(es) && |es| > 0
    ensures forall k :: k in KeySet(es[1..]) ==> Below(es[0].key, k)
  {
    forall k | k in KeySet(es[1..])
      ensures Below(es[0].key, k)
    {
      var j :| 0 <= j < |es[1..]| && es[1..][j].key == k;
      assert es[j + 1].key == k;
    }
  }

  /** `m[k] = v`: replaces the value of an existing key in place, or inserts k at its sorted position. */
  function Put<V>(es: seq<Entry<V>>, k: Key, v: V): (r: seq<Entry<V>>)
    requires Sorted(es)
    ensures Sorted(r)
    ensures KeySet(r) == KeySet(es) + {k}
    ensures |r| == if k in KeySet(es) then |es| else |es| + 1
  {
    if |es| == 0 then
      KeySetCons(Entry(k, v), es);
      assert [Entry(k, v)] + es == [Entry(k, v)];
      [Entry(k, v)]
    else
      assert es == [es[0]] + es[1..];
      KeySetCons(es[0], es[1..]);
      SortedHead(es);
      if es[0].key == k then
        BelowIrreflexive(k);
        KeySetCons(Entry(k, v), es[1..]);
        SortedCons(Entry(k, v), es[1..]);
        [Entry(k, v)] + es[1..]
      else if Below(k, es[0].key) then
        KeySetCons(Entry(k, v), es);
        forall k' | k' in KeySet(es)
          ensures Below(k, k')
        {
          if k' != es[0].key {
            BelowTransitive(k, es[0].key, k');
          }
        }
        SortedCons(Entry(k, v), es);
        BelowIrreflexive(k);
        [Entry(k, v)] + es
      else
        BelowTotal(k, es[0].key);
        var tail := Put(es[1..], k, v);
        KeySetCons(es[0], tail);
        SortedCons(es[0], tail);
        [es[0]] + tail
  }

  /** After `m[k] = v`, k maps to v and every other key keeps its value. */
  lemma {:induction false} GetPut<V>(es: seq<Entry<V>>, k: Key, v: V, k': Key)
    requires Sorted(es)
    ensures Get(Put(es, k, v), k') == if k' == k then Some(v) else Get(es, k')
  {
    if |es| > 0 && es[0].key != k && !Below(k, es[0].key) {
      var r := Put(es, k, v);
      assert r[1..] == Put(es[1..], k, v);
      GetPut(es[1..], k, v, k');
    }
  }

  /** In a sorted map there is one entry per name. */
  lemma {:induction false} KeySetSize<V>(es: seq<Entry<V>>)
    requires Sorted(es)
    ensures |KeySet(es)| == |es|
  {
    if |es| > 0 {
      assert es == [es[0]] + es[1..];
      KeySetCons(es[0], es[1..]);
      SortedHead(es);
      BelowIrreflexive(es[0].key);
      KeySetSize(es[1..]);
    }
  }
}

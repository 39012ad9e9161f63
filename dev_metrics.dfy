/**
 * The metrics store of dev/include/metrics.hpp (`spits::metrics`): named, typed,
 * fixed-capacity buffers created on first use, each stamping its samples with a
 * per-buffer sequence counter, and `last_values`, which gathers recent samples of
 * several buffers at once.
 *
 * A buffer's state is the value `BufferState`. The buffer class `MetricBuffer` (the
 * `generic_buffer` / `metric_element_buffer` / `metric_element_array_buffer` family,
 * over a `DevRing.Ring`) is proved against the same state functions the store uses; the
 * store's map holds buffer states by value.
 */
module DevMetrics {
  import opened Wrappers
  import opened Bytes
  import opened OrderedMap
  import opened RingSpec
  import DevRing

  const DEFAULT_BUFFER_SIZE: nat := 10
  /** Largest C `int`: the ring's capacity parameter is an `int`. */
  const INT_MAX: nat := 0x7fff_ffff

  /** `spits::TYPE`. */
  datatype ValueType = TypeInt | TypeFloat | TypeDouble | TypeBytes

  /** The enumerator's value, as written to the wire. */
  function TypeCode(t: ValueType): (c: int)
    ensures 0 <= c <= 3
  {
    match t
    case TypeInt => 0
    case TypeFloat => 1
    case TypeDouble => 2
    case TypeBytes => 3
  }

  lemma TypeCodeInjective(t: ValueType, t': ValueType)
    ensures TypeCode(t) == TypeCode(t') ==> t == t'
  {
  }

  /** A byte payload; its size is kept in an `int` (`get_size`). */
  type Payload = s: seq<byte> | |s| <= 0x7fff_ffff

  /**
   * A sample's value. Floats and doubles are opaque: only their 4- and 8-byte bit
   * patterns are kept. A byte value is the array copied into the element.
   */
  datatype Value =
    | IntValue(i: Int32)
    | FloatValue(floatBits: u32)
    | DoubleValue(doubleBits: u64)
    | BytesValue(bytes: Payload)

  function TypeOf(v: Value): ValueType
  {
    match v
    case IntValue(_) => TypeInt
    case FloatValue(_) => TypeFloat
    case DoubleValue(_) => TypeDouble
    case BytesValue(_) => TypeBytes
  }

  /**
   * The value `add_metric(name, const char*)` and `add_metric(name, std::string)` store:
   * the characters followed by their terminating NUL (strlen + 1 bytes).
   */
  function StringValue(s: seq<byte>): (v: Value)
    requires 0 !in s && |s| < INT_MAX
    ensures v.BytesValue? && |v.bytes| == |s| + 1 && UntilNul(v.bytes) == s
  {
    UntilNulOfCStr(s, []);
    assert CStr(s) + [] == CStr(s);
    BytesValue(CStr(s))
  }

  /** `struct timespec`, read from the real-time clock when a sample is built. */
  datatype Timespec = Timespec(sec: i64, nsec: i64)

  /**
   * A sample: value, sequence number and timestamp. The sequence number is the
   * sample's position in its buffer's add order; the source keeps it in an `unsigned
   * int`, so what it observes is seqNo modulo 2^32, and the exports apply that reduction.
   */
  datatype Element = Element(value: Value, seqNo: nat, time: Timespec)

  /** What the store's operations throw: `std::runtime_error`, or `std::bad_array_new_length` from the ring allocation. */
  datatype Error = RuntimeError | BadArrayNewLength

  /**
   * A buffer: its type, capacity, the number of adds so far (`buffer_sequence_counter`,
   * kept here without its 32-bit wrap) and the retained samples, oldest first.
   */
  datatype BufferState = BufferState(bufferType: ValueType, capacity: nat, counter: nat, samples: seq<Element>)

  function Min(a: int, b: int): int
  {
    if a < b then a else b
  }

  /**
   * What every buffer satisfies: it retains min(counter, capacity) samples, all of its
   * type, and the retained sequence numbers are the last ones handed out, consecutive.
   */
  ghost predicate WellFormed(b: BufferState)
  {
    0 < b.capacity <= INT_MAX &&
    |b.samples| == Min(b.counter, b.capacity) &&
    forall i :: 0 <= i < |b.samples| ==>
      b.samples[i].seqNo == b.counter - |b.samples| + i &&
      TypeOf(b.samples[i].value) == b.bufferType
  }

  /**
   * Building a buffer of a given type and capacity. A capacity of 0 throws
   * `runtime_error`; one above INT_MAX turns negative in the ring's `int` parameter and
   * its array allocation throws.
   */
  function NewBuffer(t: ValueType, capacity: u32): (r: Result<BufferState, Error>)
    ensures capacity == 0 ==> r == Err(RuntimeError)
    ensures capacity > INT_MAX ==> r == Err(BadArrayNewLength)
    ensures 0 < capacity <= INT_MAX ==>
      r.Ok? && WellFormed(r.value) && r.value == BufferState(t, capacity, 0, [])
  {
    if capacity == 0 then Err(RuntimeError)
    else if capacity > INT_MAX then Err(BadArrayNewLength)
    else Ok(BufferState(t, capacity, 0, []))
  }

  /** `add_element`: a sample stamped with the current counter is pushed, then the counter is incremented. */
  function Appended(b: BufferState, v: Value, now: Timespec): (r: BufferState)
    requires WellFormed(b) && TypeOf(v) == b.bufferType
    ensures WellFormed(r)
    ensures r.bufferType == b.bufferType && r.capacity == b.capacity && r.counter == b.counter + 1
    ensures r.samples == Newest(b.samples + [Element(v, b.counter, now)], b.capacity)
  {
    var e := Element(v, b.counter, now);
    PushKeepsWellFormed(b, e);
    b.(counter := b.counter + 1, samples := Evicting(b.samples, b.capacity, e))
  }

  /** Pushing a sample of the buffer's type stamped with the counter keeps the buffer well formed once the counter moves on. */
  lemma PushKeepsWellFormed(b: BufferState, e: Element)
    requires WellFormed(b) && TypeOf(e.value) == b.bufferType && e.seqNo == b.counter
    ensures WellFormed(b.(counter := b.counter + 1, samples := Evicting(b.samples, b.capacity, e)))
  {
    var s := b.samples + [e];
    var kept := Evicting(b.samples, b.capacity, e);
    var d := |s| - |kept|;
    forall i | 0 <= i < |kept|
      ensures kept[i].seqNo == b.counter + 1 - |kept| + i && TypeOf(kept[i].value) == b.bufferType
    {
      assert kept[i] == s[d + i];
      if d + i < |b.samples| {
        assert s[d + i] == b.samples[d + i];
      }
    }
  }

  /** Adding several values one after the other, each with its own timestamp. */
  function AppendedAll(b: BufferState, vs: seq<Value>, nows: seq<Timespec>): (r: BufferState)
    requires WellFormed(b) && |nows| == |vs|
    requires forall i :: 0 <= i < |vs| ==> TypeOf(vs[i]) == b.bufferType
    ensures WellFormed(r) && r.capacity == b.capacity && r.bufferType == b.bufferType
    decreases |vs|
  {
    if |vs| == 0 then b
    else AppendedAll(Appended(b, vs[0], nows[0]), vs[1..], nows[1..])
  }

  /** The samples k adds build, before the ring drops any: value i carries sequence number from + i. */
  function Stamped(vs: seq<Value>, nows: seq<Timespec>, from: nat): (r: seq<Element>)
    requires |nows| == |vs|
    ensures |r| == |vs|
    decreases |vs|
  {
    if |vs| == 0 then [] else [Element(vs[0], from, nows[0])] + Stamped(vs[1..], nows[1..], from + 1)
  }

  lemma {:induction false} StampedAt(vs: seq<Value>, nows: seq<Timespec>, from: nat, i: nat)
    requires |nows| == |vs| && i < |vs|
    ensures Stamped(vs, nows, from)[i] == Element(vs[i], from + i, nows[i])
    decreases i
  {
    if i > 0 {
      StampedAt(vs[1..], nows[1..], from + 1, i - 1);
    }
  }

  lemma {:induction false} AppendedAllCounter(b: BufferState, vs: seq<Value>, nows: seq<Timespec>)
    requires WellFormed(b) && |nows| == |vs|
    requires forall i :: 0 <= i < |vs| ==> TypeOf(vs[i]) == b.bufferType
    ensures AppendedAll(b, vs, nows).counter == b.counter + |vs|
    decreases |vs|
  {
    if |vs| > 0 {
      AppendedAllCounter(Appended(b, vs[0], nows[0]), vs[1..], nows[1..]);
    }
  }

  /** k adds push, onto the ring, the k samples stamped with the successive counter values. */
  lemma {:induction false} AppendedAllPushes(b: BufferState, vs: seq<Value>, nows: seq<Timespec>)
    requires WellFormed(b) && |nows| == |vs|
    requires forall i :: 0 <= i < |vs| ==> TypeOf(vs[i]) == b.bufferType
    ensures AppendedAll(b, vs, nows).samples == PushAll(b.samples, b.capacity, Stamped(vs, nows, b.counter))
    decreases |vs|
  {
    if |vs| > 0 {
      var b' := Appended(b, vs[0], nows[0]);
      var st := Stamped(vs, nows, b.counter);
      assert st[1..] == Stamped(vs[1..], nows[1..], b'.counter);
      assert b'.samples == Evicting(b.samples, b.capacity, st[0]);
      AppendedAllPushes(b', vs[1..], nows[1..]);
    }
  }

  /** The state k adds leave a new buffer in: counter k, the newest C of the stamped samples. */
  ghost function AfterAdds(t: ValueType, capacity: u32, vs: seq<Value>, nows: seq<Timespec>): BufferState
    requires |nows| == |vs|
  {
    BufferState(t, capacity, |vs|, Newest(Stamped(vs, nows, 0), capacity as nat))
  }

  /** Adding vs one by one to a new buffer leaves it in the closed form above. */
  lemma AddsToNewBuffer(t: ValueType, capacity: u32, vs: seq<Value>, nows: seq<Timespec>)
    requires 0 < capacity <= INT_MAX && |nows| == |vs|
    requires forall i :: 0 <= i < |vs| ==> TypeOf(vs[i]) == t
    ensures NewBuffer(t, capacity).Ok?
    ensures AppendedAll(NewBuffer(t, capacity).value, vs, nows) == AfterAdds(t, capacity, vs, nows)
  {
    var b := BufferState(t, capacity, 0, []);
    assert WellFormed(b);
    AppendedAllCounter(b, vs, nows);
    AppendedAllPushes(b, vs, nows);
    var st := Stamped(vs, nows, 0);
    PushAllKeepsNewest([], capacity as nat, st);
    assert [] + st == st;
  }

  /**
   * After k adds a buffer of capacity C holds min(k, C) samples: the last ones added,
   * the i-th carrying value, sequence number and time of add number k - min(k, C) + i.
   */
  lemma AddsRetain(t: ValueType, capacity: u32, vs: seq<Value>, nows: seq<Timespec>)
    requires |nows| == |vs|
    ensures var r := AfterAdds(t, capacity, vs, nows);
      r.counter == |vs| && |r.samples| == Min(|vs|, capacity) &&
      forall i :: 0 <= i < |r.samples| ==>
        var j := |vs| - |r.samples| + i; r.samples[i] == Element(vs[j], j, nows[j])
  {
    var samples := AfterAdds(t, capacity, vs, nows).samples;
    RetainedAt(vs, nows, samples, |samples|);
  }

  /** The last m stamped samples, one by one. */
  lemma RetainedAt(vs: seq<Value>, nows: seq<Timespec>, samples: seq<Element>, m: nat)
    requires |nows| == |vs| && m <= |vs| && samples == Stamped(vs, nows, 0)[|vs| - m..]
    ensures forall i :: 0 <= i < m ==> samples[i] == Element(vs[|vs| - m + i], |vs| - m + i, nows[|vs| - m + i])
  {
    forall i | 0 <= i < m
      ensures samples[i] == Element(vs[|vs| - m + i], |vs| - m + i, nows[|vs| - m + i])
    {
      StampedSuffixAt(vs, nows, m, i);
    }
  }

  /** The i-th of the last m stamped samples. */
  lemma StampedSuffixAt(vs: seq<Value>, nows: seq<Timespec>, m: nat, i: nat)
    requires |nows| == |vs| && m <= |vs| && i < m
    ensures Stamped(vs, nows, 0)[|vs| - m..][i] == Element(vs[|vs| - m + i], |vs| - m + i, nows[|vs| - m + i])
  {
    StampedAt(vs, nows, 0, |vs| - m + i);
  }

  /**
   * The samples `last_values` gathers from one buffer for a request of n: at most n,
   * never more than are retained, none for n <= 0. By default they are the newest,
   * oldest to newest; with `from_last` they start at the oldest retained sample.
   */
  function Window(b: BufferState, n: int, fromLast: bool): (r: seq<Element>)
    requires WellFormed(b)
    ensures |r| == if n <= 0 then 0 else Min(n, |b.samples|)
    ensures fromLast ==> r == b.samples[..|r|]
    ensures !fromLast ==> r == Newest(b.samples, |r|)
  {
    var requested := if n > b.capacity then b.capacity else n;
    var requested' := if requested > b.counter then b.counter else requested;
    var last := if b.counter > b.capacity then b.capacity else b.counter;
    var k := if requested' < 0 then 0 else requested';
    assert last == |b.samples| && k == (if n <= 0 then 0 else Min(n, last));
    if fromLast then b.samples[..k] else b.samples[last - k..]
  }

  lemma WindowSequenceNumbers(b: BufferState, n: int, fromLast: bool)
    requires WellFormed(b)
    ensures var r := Window(b, n, fromLast);
      forall i :: 0 <= i < |r| ==>
        r[i].seqNo == if fromLast then b.counter - |b.samples| + i else b.counter - |r| + i
  {
  }

  ghost predicate AllWellFormed(buffers: seq<Entry<BufferState>>)
  {
    Sorted(buffers) && forall i :: 0 <= i < |buffers| ==> WellFormed(buffers[i].value)
  }

  function Lookup(buffers: seq<Entry<BufferState>>, name: Key): (r: Option<BufferState>)
    requires AllWellFormed(buffers)
    ensures r == Get(buffers, name)
    ensures r.Some? ==> WellFormed(r.value)
  {
    Get(buffers, name)
  }

  /** The result of `last_values`: a map from buffer name to the gathered samples. */
  type ValuesMap = seq<Entry<seq<Element>>>

  /** `last_values` from the request at hand on, with the map built so far. */
  function LastValuesFrom(buffers: seq<Entry<BufferState>>, reqs: seq<(Key, int)>, acc: ValuesMap, fromLast: bool): (r: ValuesMap)
    requires AllWellFormed(buffers) && Sorted(acc)
    ensures Sorted(r)
    decreases |reqs|
  {
    if |reqs| == 0 then acc
    else match Lookup(buffers, reqs[0].0)
      case None => []
      case Some(b) => LastValuesFrom(buffers, reqs[1..], Put(acc, reqs[0].0, Window(b, reqs[0].1, fromLast)), fromLast)
  }

  function LastValuesSpec(buffers: seq<Entry<BufferState>>, reqs: seq<(Key, int)>, fromLast: bool): ValuesMap
    requires AllWellFormed(buffers)
  {
    LastValuesFrom(buffers, reqs, [], fromLast)
  }

  /** `last_values` stops with an empty map at a request for an unknown name. */
  lemma LastValuesStop(buffers: seq<Entry<BufferState>>, reqs: seq<(Key, int)>, acc: ValuesMap, fromLast: bool)
    requires AllWellFormed(buffers) && Sorted(acc)
    requires |reqs| > 0 && reqs[0].0 !in KeySet(buffers)
    ensures LastValuesFrom(buffers, reqs, acc, fromLast) == []
  {
    assert Lookup(buffers, reqs[0].0) == None;
  }

  /** A request for a known name adds its window to the map and moves on. */
  lemma LastValuesStep(buffers: seq<Entry<BufferState>>, reqs: seq<(Key, int)>, acc: ValuesMap, fromLast: bool)
    requires AllWellFormed(buffers) && Sorted(acc)
    requires |reqs| > 0 && reqs[0].0 in KeySet(buffers)
    ensures Lookup(buffers, reqs[0].0).Some?
    ensures var w := Window(Lookup(buffers, reqs[0].0).value, reqs[0].1, fromLast);
      LastValuesFrom(buffers, reqs, acc, fromLast) == LastValuesFrom(buffers, reqs[1..], Put(acc, reqs[0].0, w), fromLast)
  {
  }

  /** Any unknown name among the requests makes `last_values` return an empty map. */
  lemma {:induction false} LastValuesAllOrNothing(buffers: seq<Entry<BufferState>>, reqs: seq<(Key, int)>, acc: ValuesMap, fromLast: bool, i: nat)
    requires AllWellFormed(buffers) && Sorted(acc)
    requires i < |reqs| && reqs[i].0 !in KeySet(buffers)
    ensures LastValuesFrom(buffers, reqs, acc, fromLast) == []
    decreases |reqs|
  {
    if i == 0 || reqs[0].0 !in KeySet(buffers) {
      LastValuesStop(buffers, reqs, acc, fromLast);
    } else {
      LastValuesStep(buffers, reqs, acc, fromLast);
      var w := Window(Lookup(buffers, reqs[0].0).value, reqs[0].1, fromLast);
      TailAt(reqs, i);
      LastValuesAllOrNothing(buffers, reqs[1..], Put(acc, reqs[0].0, w), fromLast, i - 1);
    }
  }

  lemma TailAt<T>(s: seq<T>, i: nat)
    requires 0 < i < |s|
    ensures s[1..][i - 1] == s[i]
  {
  }

  /** The count of the last request naming k, if any request does. */
  function LastCount(reqs: seq<(Key, int)>, k: Key): Option<int>
    decreases |reqs|
  {
    if |reqs| == 0 then None
    else
      var later := LastCount(reqs[1..], k);
      if later.Some? then later
      else if reqs[0].0 == k then Some(reqs[0].1)
      else None
  }

  /**
   * When every name is known, `last_values` maps each requested name to the window
   * for its last request (a later duplicate overwrites an earlier one) and holds no
   * other name.
   */
  lemma {:induction false} LastValuesWindows(buffers: seq<Entry<BufferState>>, reqs: seq<(Key, int)>, acc: ValuesMap, fromLast: bool, k: Key)
    requires AllWellFormed(buffers) && Sorted(acc)
    requires forall i :: 0 <= i < |reqs| ==> reqs[i].0 in KeySet(buffers)
    ensures match LastCount(reqs, k)
      case Some(n) =>
        k in KeySet(buffers) &&
        Get(LastValuesFrom(buffers, reqs, acc, fromLast), k) == Some(Window(Lookup(buffers, k).value, n, fromLast))
      case None => Get(LastValuesFrom(buffers, reqs, acc, fromLast), k) == Get(acc, k)
    decreases |reqs|
  {
    if |reqs| > 0 {
      assert reqs[0].0 in KeySet(buffers);
      LastValuesStep(buffers, reqs, acc, fromLast);
      var w := Window(Lookup(buffers, reqs[0].0).value, reqs[0].1, fromLast);
      var acc' := Put(acc, reqs[0].0, w);
      LastValuesWindows(buffers, reqs[1..], acc', fromLast, k);
      GetPut(acc, reqs[0].0, w, k);
      if LastCount(reqs, k).Some? {
        LastCountNamesKnown(reqs, k, buffers);
      }
    }
  }

  lemma {:induction false} LastCountNamesKnown(reqs: seq<(Key, int)>, k: Key, buffers: seq<Entry<BufferState>>)
    requires forall i :: 0 <= i < |reqs| ==> reqs[i].0 in KeySet(buffers)
    requires LastCount(reqs, k).Some?
    ensures k in KeySet(buffers)
    decreases |reqs|
  {
    if LastCount(reqs[1..], k).Some? {
      LastCountNamesKnown(reqs[1..], k, buffers);
    }
  }

  /**
   * The loop of `last_values` over one buffer: with `from_last` it appends the i-th
   * oldest sample, otherwise it inserts the (last - i - 1)-th at the front.
   */
  method Gather(b: BufferState, n: int, fromLast: bool) returns (elementBuffer: seq<Element>)
    requires WellFormed(b)
    ensures elementBuffer == Window(b, n, fromLast)
  {
    var capped := if n > b.capacity then b.capacity else n;
    var requested := if capped > b.counter then b.counter else capped;
    var last := if b.counter > b.capacity then b.capacity else b.counter;
    WindowClamped(b, n, fromLast, capped, requested, last);
    elementBuffer := GatherFrom(b.samples, requested, last, fromLast);
  }

  /** Window, in terms of the clamped request the loop runs to. */
  lemma WindowClamped(b: BufferState, n: int, fromLast: bool, capped: int, requested: int, last: int)
    requires WellFormed(b)
    requires capped == (if n > b.capacity then b.capacity else n)
    requires requested == (if capped > b.counter then b.counter else capped)
    requires last == (if b.counter > b.capacity then b.capacity else b.counter)
    ensures last == |b.samples| && requested <= last
    ensures var k := if requested < 0 then 0 else requested;
      Window(b, n, fromLast) == if fromLast then b.samples[..k] else b.samples[last - k..]
  {
  }

  /**
   * The loop itself, over the retained samples, of which there are last, for a request
   * already clamped to at most last.
   */
  method GatherFrom(samples: seq<Element>, requested: int, last: nat, fromLast: bool) returns (elementBuffer: seq<Element>)
    requires last == |samples| && requested <= last
    ensures var k := if requested < 0 then 0 else requested;
      elementBuffer == if fromLast then samples[..k] else samples[last - k..]
  {
    elementBuffer := [];
    var i := 0;
    while i < requested
      invariant 0 <= i <= last && (requested >= 0 ==> i <= requested) && (requested < 0 ==> i == 0)
      invariant fromLast ==> elementBuffer == samples[..i]
      invariant !fromLast ==> elementBuffer == samples[last - i..]
    {
      if fromLast {
        PrefixSnoc(samples, i);
        elementBuffer := elementBuffer + [samples[i]];
      } else {
        SuffixCons(samples, last - i);
        elementBuffer := [samples[last - i - 1]] + elementBuffer;
      }
      i := i + 1;
    }
  }

  lemma PrefixSnoc<T>(s: seq<T>, i: nat)
    requires i < |s|
    ensures s[..i] + [s[i]] == s[..i + 1]
  {
  }

  lemma SuffixCons<T>(s: seq<T>, j: nat)
    requires 0 < j <= |s|
    ensures [s[j - 1]] + s[j..] == s[j - 1..]
  {
  }

  /** A buffer object: `generic_buffer` with its typed ring of elements. */
  class MetricBuffer {
    const bufferType: ValueType
    const capacity: nat
    var counter: nat
    const ring: DevRing.Ring<Element>

    ghost predicate Valid()
      reads this, ring, ring.data
    {
      ring.Valid() && ring.capacity == capacity && WellFormed(State())
    }

    /** The buffer's state as the store sees it. */
    ghost function State(): BufferState
      reads this, ring
    {
      BufferState(bufferType, capacity, counter, ring.Contents)
    }

    constructor (t: ValueType, capacity: nat)
      requires 0 < capacity <= INT_MAX
      ensures Valid() && fresh(ring) && fresh(ring.data)
      ensures State() == BufferState(t, capacity, 0, [])
    {
      bufferType, this.capacity, counter := t, capacity, 0;
      ring := new DevRing.Ring(capacity);
    }

    /**
     * The buffer constructors: a capacity of 0 throws, and so does one that is negative
     * as the ring's `int`; otherwise a new, empty buffer with its counter at 0.
     */
    static method Create(t: ValueType, capacity: u32) returns (r: Result<MetricBuffer, Error>)
      ensures NewBuffer(t, capacity).Err? ==> r == Err(NewBuffer(t, capacity).error)
      ensures NewBuffer(t, capacity).Ok? ==>
        r.Ok? && fresh(r.value) && fresh(r.value.ring) && fresh(r.value.ring.data) &&
        r.value.Valid() && r.value.State() == NewBuffer(t, capacity).value
    {
      if capacity == 0 {
        return Err(RuntimeError);
      }
      if capacity > INT_MAX {
        return Err(BadArrayNewLength);
      }
      var b := new MetricBuffer(t, capacity);
      r := Ok(b);
    }

    /** `add_element`, for each of the typed buffers (an int buffer takes ints, and so on). */
    method AddElement(v: Value, now: Timespec)
      requires Valid() && TypeOf(v) == bufferType
      modifies this, ring, ring.data
      ensures Valid()
      ensures State() == Appended(old(State()), v, now)
    {
      ghost var before := State();
      var e := Element(v, counter, now);
      ring.Push(e);
      counter := counter + 1;
      assert State() == before.(counter := before.counter + 1, samples := Evicting(before.samples, capacity, e));
      assert State() == Appended(before, v, now);
    }

    /** `get_element(index)`: a copy of the index-th oldest sample, null outside the retained range. */
    method GetElement(index: int) returns (r: Option<Element>)
      requires Valid()
      ensures r == if 0 <= index < |State().samples| then Some(State().samples[index]) else None
    {
      r := ring.GetElement(index);
    }

    /** `get_front_element`: a copy of the newest sample, null when there is none. */
    method GetFrontElement() returns (r: Option<Element>)
      requires Valid()
      ensures var s := State().samples; r == if s == [] then None else Some(s[|s| - 1])
    {
      r := ring.GetFrontElement();
    }

    /** `get_back_element`: a copy of the oldest retained sample, null when there is none. */
    method GetBackElement() returns (r: Option<Element>)
      requires Valid()
      ensures var s := State().samples; r == if s == [] then None else Some(s[0])
    {
      r := ring.GetBackElement();
    }
  }

  /** `get_or_create_buffer`: the buffer under name, created with the default capacity when missing and allowed. */
  function GetOrCreate(buffers: seq<Entry<BufferState>>, defaultCapacity: u32, name: Key, createNew: bool, t: ValueType)
    : (r: Result<(seq<Entry<BufferState>>, BufferState), Error>)
    requires AllWellFormed(buffers)
    ensures name in KeySet(buffers) ==> r == Ok((buffers, Lookup(buffers, name).value))
    ensures name !in KeySet(buffers) && !createNew ==> r == Err(RuntimeError)
    ensures name !in KeySet(buffers) && createNew && NewBuffer(t, defaultCapacity).Err? ==>
      r == Err(NewBuffer(t, defaultCapacity).error)
    ensures r.Ok? ==> AllWellFormed(r.value.0) && Get(r.value.0, name) == Some(r.value.1) && WellFormed(r.value.1)
    ensures r.Ok? ==> KeySet(r.value.0) == KeySet(buffers) + {name}
    ensures r.Ok? ==> forall k :: k != name ==> Get(r.value.0, k) == Get(buffers, k)
  {
    match Lookup(buffers, name)
    case Some(b) => Ok((buffers, b))
    case None =>
      if !createNew then Err(RuntimeError)
      else match NewBuffer(t, defaultCapacity)
        case Err(e) => Err(e)
        case Ok(b) =>
          var bs := Put(buffers, name, b);
          assert forall k :: Get(bs, k) == if k == name then Some(b) else Get(buffers, k) by {
            forall k { GetPut(buffers, name, b, k); }
          }
          assert AllWellFormed(bs) by {
            forall i | 0 <= i < |bs|
              ensures WellFormed(bs[i].value)
            {
              GetSorted(bs, i);
            }
          }
          Ok((bs, b))
  }

  /** `add_metric` for a value of type TypeOf(v); an existing buffer is assumed to have that type (the source casts it unchecked). */
  function AddMetricSpec(buffers: seq<Entry<BufferState>>, defaultCapacity: u32, name: Key, v: Value, now: Timespec)
    : (r: Result<seq<Entry<BufferState>>, Error>)
    requires AllWellFormed(buffers)
    requires name in KeySet(buffers) ==> Lookup(buffers, name).value.bufferType == TypeOf(v)
    ensures r.Ok? ==> AllWellFormed(r.value)
  {
    match GetOrCreate(buffers, defaultCapacity, name, true, TypeOf(v))
    case Err(e) => Err(e)
    case Ok((bs, b)) =>
      var bs' := Put(bs, name, Appended(b, v, now));
      assert AllWellFormed(bs') by {
        forall i | 0 <= i < |bs'|
          ensures WellFormed(bs'[i].value)
        {
          GetSorted(bs', i);
          GetPut(bs, name, Appended(b, v, now), bs'[i].key);
          if bs'[i].key != name {
            var j :| 0 <= j < |bs| && bs[j] == Entry(bs'[i].key, Get(bs, bs'[i].key).value);
          }
        }
      }
      Ok(bs')
  }

  /**
   * `add_metric`: the named buffer (created with the default capacity on first use)
   * gains the sample and every other buffer is unchanged; if creating the buffer
   * throws, nothing changes.
   */
  lemma AddMetricEffect(buffers: seq<Entry<BufferState>>, defaultCapacity: u32, name: Key, v: Value, now: Timespec, k: Key)
    requires AllWellFormed(buffers)
    requires name in KeySet(buffers) ==> Lookup(buffers, name).value.bufferType == TypeOf(v)
    ensures var r := AddMetricSpec(buffers, defaultCapacity, name, v, now);
      && (r.Err? <==> name !in KeySet(buffers) && NewBuffer(TypeOf(v), defaultCapacity).Err?)
      && (r.Ok? ==> KeySet(r.value) == KeySet(buffers) + {name})
      && (r.Ok? && k != name ==> Get(r.value, k) == Get(buffers, k))
      && (r.Ok? && name in KeySet(buffers) ==>
            Get(r.value, name) == Some(Appended(Lookup(buffers, name).value, v, now)))
      && (r.Ok? && name !in KeySet(buffers) ==>
            Get(r.value, name) == Some(BufferState(TypeOf(v), defaultCapacity, 1, [Element(v, 0, now)])))
  {
    var r := AddMetricSpec(buffers, defaultCapacity, name, v, now);
    match GetOrCreate(buffers, defaultCapacity, name, true, TypeOf(v))
    case Err(_) =>
    case Ok((bs, b)) =>
      GetPut(bs, name, Appended(b, v, now), k);
      GetPut(bs, name, Appended(b, v, now), name);
      if name !in KeySet(buffers) {
        assert b == BufferState(TypeOf(v), defaultCapacity, 0, []);
        assert Evicting(b.samples, b.capacity, Element(v, 0, now)) == [Element(v, 0, now)];
      }
  }

  /** `add_metric` is `get_or_create_buffer` followed by an append to the buffer it returns. */
  lemma AddMetricSpecSteps(buffers: seq<Entry<BufferState>>, defaultCapacity: u32, name: Key, v: Value, now: Timespec)
    requires AllWellFormed(buffers)
    requires name in KeySet(buffers) ==> Lookup(buffers, name).value.bufferType == TypeOf(v)
    ensures var g := GetOrCreate(buffers, defaultCapacity, name, true, TypeOf(v));
      && (g.Err? ==> AddMetricSpec(buffers, defaultCapacity, name, v, now) == Err(g.error))
      && (g.Ok? ==> g.value.1.bufferType == TypeOf(v) && WellFormed(g.value.1))
      && (g.Ok? ==> AddMetricSpec(buffers, defaultCapacity, name, v, now) == Ok(Put(g.value.0, name, Appended(g.value.1, v, now))))
  {
  }

  /** The store: `default_capacity` and the name-to-buffer map. */
  class Metrics {
    var defaultCapacity: u32
    var buffers: seq<Entry<BufferState>>

    ghost predicate Valid()
      reads this
    {
      AllWellFormed(buffers)
    }

    /** `metrics(capacity = DEFAULT_BUFFER_SIZE)`: no buffers yet. */
    constructor (capacity: u32)
      ensures Valid() && defaultCapacity == capacity && buffers == []
    {
      defaultCapacity := capacity;
      buffers := [];
    }

    /** `reset`: every buffer is deleted; the default capacity stays. */
    method Reset()
      requires Valid()
      modifies this
      ensures Valid() && buffers == [] && defaultCapacity == old(defaultCapacity)
    {
      buffers := [];
    }

    method GetDefaultCapacity() returns (c: u32)
      ensures c == defaultCapacity
    {
      c := defaultCapacity;
    }

    /** `set_default_capacity`: affects only buffers created later. */
    method SetDefaultCapacity(capacity: u32)
      modifies this
      ensures defaultCapacity == capacity && buffers == old(buffers)
    {
      defaultCapacity := capacity;
    }

    /** `get_num_metric_buffers`: the number of distinct names. */
    method GetNumMetricBuffers() returns (n: nat)
      requires Valid()
      ensures n == |KeySet(buffers)|
    {
      n := |buffers|;
      KeySetSize(buffers);
    }

    /** `list`: (name, capacity, type code) for every buffer, in sorted name order. */
    method List() returns (r: seq<(Key, int, int)>)
      requires Valid()
      ensures |r| == |buffers|
      ensures forall i :: 0 <= i < |r| ==>
        r[i] == (buffers[i].key, buffers[i].value.capacity, TypeCode(buffers[i].value.bufferType))
      ensures forall i, j :: 0 <= i < j < |r| ==> Below(r[i].0, r[j].0)
      ensures forall k :: k in KeySet(buffers) <==> exists i :: 0 <= i < |r| && r[i].0 == k
    {
      r := [];
      var i := 0;
      while i < |buffers|
        invariant 0 <= i <= |buffers| && |r| == i
        invariant forall j :: 0 <= j < i ==>
          r[j] == (buffers[j].key, buffers[j].value.capacity, TypeCode(buffers[j].value.bufferType))
      {
        var b := buffers[i].value;
        r := r + [(buffers[i].key, b.capacity, TypeCode(b.bufferType))];
        i := i + 1;
      }
      forall k | k in KeySet(buffers)
        ensures exists i :: 0 <= i < |r| && r[i].0 == k
      {
        var j :| 0 <= j < |buffers| && buffers[j].key == k;
        assert r[j].0 == k;
      }
    }

    /**
     * `last_values`: for each (name, n) request in turn the clamped window of that
     * buffer goes into the result map under name; an unknown name discards everything
     * gathered and returns the empty map.
     */
    method LastValues(reqs: seq<(Key, int)>, fromLast: bool) returns (r: ValuesMap)
      requires Valid()
      ensures r == LastValuesSpec(buffers, reqs, fromLast)
    {
      r := [];
      var i := 0;
      while i < |reqs|
        invariant 0 <= i <= |reqs| && Sorted(r)
        invariant LastValuesFrom(buffers, reqs[i..], r, fromLast) == LastValuesSpec(buffers, reqs, fromLast)
      {
        var name := reqs[i].0;
        var found := Lookup(buffers, name);
        if found.None? {
          return [];
        }
        var elementBuffer := Gather(found.value, reqs[i].1, fromLast);
        assert LastValuesFrom(buffers, reqs[i..], r, fromLast)
            == LastValuesFrom(buffers, reqs[i + 1..], Put(r, name, elementBuffer), fromLast) by {
          assert reqs[i..][1..] == reqs[i + 1..];
        }
        r := Put(r, name, elementBuffer);
        i := i + 1;
      }
    }

    /** `get_or_create_buffer`. */
    method GetOrCreateBuffer(name: Key, createNew: bool, t: ValueType) returns (r: Result<BufferState, Error>)
      requires Valid()
      modifies this
      ensures Valid() && defaultCapacity == old(defaultCapacity)
      ensures match GetOrCreate(old(buffers), defaultCapacity, name, createNew, t)
        case Ok((bs, b)) => buffers == bs && r == Ok(b)
        case Err(e) => buffers == old(buffers) && r == Err(e)
    {
      var found := Lookup(buffers, name);
      if found.Some? {
        return Ok(found.value);
      }
      if !createNew {
        return Err(RuntimeError);
      }
      var nb := NewBuffer(t, defaultCapacity);
      if nb.Err? {
        return Err(nb.error);
      }
      buffers := Put(buffers, name, nb.value);
      r := Ok(nb.value);
      assert GetOrCreate(old(buffers), defaultCapacity, name, createNew, t) == Ok((buffers, nb.value));
    }

    /**
     * `add_metric` for every value type (`spits_set_metric_int`, `_float`, `_double`,
     * `_string`, `_bytes`): the buffer is fetched or created, then gains the sample.
     */
    method AddMetric(name: Key, v: Value, now: Timespec) returns (r: Result<(), Error>)
      requires Valid()
      requires name in KeySet(buffers) ==> Lookup(buffers, name).value.bufferType == TypeOf(v)
      modifies this
      ensures Valid() && defaultCapacity == old(defaultCapacity)
      ensures match AddMetricSpec(old(buffers), defaultCapacity, name, v, now)
        case Ok(bs) => buffers == bs && r.Ok?
        case Err(e) => buffers == old(buffers) && r == Err(e)
    {
      AddMetricSpecSteps(buffers, defaultCapacity, name, v, now);
      var got := GetOrCreateBuffer(name, true, TypeOf(v));
      if got.Err? {
        return Err(got.error);
      }
      buffers := Put(buffers, name, Appended(got.value, v, now));
      r := Ok(());
    }
  }
}

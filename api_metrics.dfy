/**
 * The metrics store of API/include/metrics.hpp: a deque-based `Ring` that drops its
 * front when full, a typed `MetricBuffer` that stamps each sample with an unsigned
 * 32-bit sequence counter, a `MetricManager` mapping names to buffers, and the C
 * exports that copy the store into `buffer_infos` and `buffer_metrics` structs.
 *
 * As in the other stores, a buffer's state is the value `BufferState`; the buffer
 * class is proved against the same state functions the manager uses, and the
 * manager's map holds buffer states by value.
 */
module ApiMetrics {
  import opened Wrappers
  import opened Bytes
  import opened OrderedMap
  import opened RingSpec

  /** `DEFAULT_CAPACITY`. */
  const DEFAULT_CAPACITY: u32 := 10
  const NS_PER_SECOND: nat := 1_000_000_000

  /** `enum DataType`. */
  datatype DataType = TypeInt | TypeFloat | TypeString | TypeBytes

  /** The enumerator's value, as stored in the C structs. */
  function TypeCode(t: DataType): (c: u32)
    ensures c <= 3
  {
    match t
    case TypeInt => 0
    case TypeFloat => 1
    case TypeString => 2
    case TypeBytes => 3
  }

  /** A `std::string` value; its `length() + 1` fits the `unsigned int` data size. */
  type Text = s: seq<byte> | |s| < 0xffff_ffff

  /** A `std::vector<std::byte>` value; its `size()` fits the `unsigned int` data size. */
  type Blob = s: seq<byte> | |s| <= 0xffff_ffff

  /** A sample's value; a float is kept as its opaque 4-byte bit pattern. */
  datatype Value =
    | IntValue(i: Int32)
    | FloatValue(floatBits: u32)
    | StringValue(chars: Text)
    | BytesValue(bytes: Blob)

  function TypeOf(v: Value): DataType
  {
    match v
    case IntValue(_) => TypeInt
    case FloatValue(_) => TypeFloat
    case StringValue(_) => TypeString
    case BytesValue(_) => TypeBytes
  }

  /** A `high_resolution_clock::time_point`, as its count of nanoseconds since the epoch. */
  type TimePoint = i64

  /** `MetricElement<T>`: value, sequence number and timestamp. */
  datatype Element = Element(value: Value, sequence: u32, timestamp: TimePoint)

  /** What the store throws: `length_error`, `out_of_range`, `invalid_argument`. */
  datatype Error = LengthError | OutOfRange | InvalidArgument

  function Min(a: int, b: int): int
  {
    if a < b then a else b
  }

  /** `_sequence++` on an `unsigned int`: the successor, wrapping from 2^32 - 1 to 0. */
  function Next(x: u32): u32
  {
    if x == TWO_32 - 1 then 0 else x + 1
  }

  /** A count reduced to an `unsigned int`: x modulo 2^32, by repeated subtraction. */
  function Mod32(x: nat): u32
  {
    if x < TWO_32 then x else Mod32(x - TWO_32)
  }

  lemma {:induction false} Mod32IsMod(x: nat)
    ensures Mod32(x) == x % TWO_32
  {
    if x >= TWO_32 {
      Mod32IsMod(x - TWO_32);
      assert x == (x - TWO_32) + 1 * TWO_32;
    }
  }

  /** `_sequence++` agrees with counting modulo 2^32. */
  lemma {:induction false} NextMod(x: nat)
    ensures Next(Mod32(x)) == Mod32(x + 1)
  {
    if x >= TWO_32 {
      NextMod(x - TWO_32);
    }
  }

  /** A buffer: its type, capacity, `_sequence` and the retained samples, oldest first. */
  datatype BufferState = BufferState(dtype: DataType, capacity: u32, sequence: u32, samples: seq<Element>)

  /**
   * Sequence numbers run on from one retained sample to the next, and the newest one
   * is the predecessor of the counter `next` (all modulo 2^32).
   */
  ghost predicate Consecutive(s: seq<Element>, next: u32)
    decreases |s|
  {
    |s| == 0 ||
    (Next(s[|s| - 1].sequence) == next && Consecutive(s[..|s| - 1], s[|s| - 1].sequence))
  }

  /** What every buffer satisfies: at most capacity samples, all of its type, numbered consecutively. */
  ghost predicate WellFormed(b: BufferState)
  {
    0 < b.capacity && |b.samples| <= b.capacity &&
    (forall i :: 0 <= i < |b.samples| ==> TypeOf(b.samples[i].value) == b.dtype) &&
    Consecutive(b.samples, b.sequence)
  }

  /** `MetricBuffer(capacity)`: a capacity of 0 throws `length_error`; otherwise empty with `_sequence` 0. */
  function NewBuffer(t: DataType, capacity: u32): (r: Result<BufferState, Error>)
    ensures capacity == 0 <==> r == Err(LengthError)
    ensures r.Ok? ==> WellFormed(r.value) && r.value == BufferState(t, capacity, 0, [])
  {
    if capacity == 0 then Err(LengthError) else Ok(BufferState(t, capacity, 0, []))
  }

  /** `add`: the sample is stamped with `_sequence`, which is then incremented, and pushed onto the ring. */
  function Added(b: BufferState, v: Value, now: TimePoint): (r: BufferState)
    requires WellFormed(b) && TypeOf(v) == b.dtype
    ensures WellFormed(r)
    ensures r.dtype == b.dtype && r.capacity == b.capacity && r.sequence == Next(b.sequence)
    ensures r.samples == Newest(b.samples + [Element(v, b.sequence, now)], b.capacity)
  {
    var e := Element(v, b.sequence, now);
    var kept := if |b.samples| == b.capacity then b.samples[1..] else b.samples;
    ConsecutiveTail(b.samples, b.sequence);
    ConsecutiveSnoc(kept, e);
    assert Evicting(b.samples, b.capacity, e) == kept + [e];
    b.(sequence := Next(b.sequence), samples := kept + [e])
  }

  /** A sample numbered with the counter extends a consecutive run, and the counter moves on. */
  lemma ConsecutiveSnoc(s: seq<Element>, e: Element)
    requires Consecutive(s, e.sequence)
    ensures Consecutive(s + [e], Next(e.sequence))
  {
    assert (s + [e])[..|s|] == s;
  }

  /** Dropping the oldest sample keeps the run consecutive. */
  lemma {:induction false} ConsecutiveTail(s: seq<Element>, next: u32)
    requires Consecutive(s, next)
    ensures |s| > 0 ==> Consecutive(s[1..], next)
    decreases |s|
  {
    if |s| > 1 {
      ConsecutiveTail(s[..|s| - 1], s[|s| - 1].sequence);
      assert s[1..][..|s| - 2] == s[..|s| - 1][1..];
    }
  }

  /** Adding several values one after the other, each with its own timestamp. */
  function AddedAll(b: BufferState, vs: seq<Value>, nows: seq<TimePoint>): (r: BufferState)
    requires WellFormed(b) && |nows| == |vs|
    requires forall i :: 0 <= i < |vs| ==> TypeOf(vs[i]) == b.dtype
    ensures WellFormed(r) && r.capacity == b.capacity && r.dtype == b.dtype
    decreases |vs|
  {
    if |vs| == 0 then b
    else AddedAll(Added(b, vs[0], nows[0]), vs[1..], nows[1..])
  }

  /** The samples k adds build, before the ring drops any: value i carries (from + i) mod 2^32. */
  function Stamped(vs: seq<Value>, nows: seq<TimePoint>, from: nat): (r: seq<Element>)
    requires |nows| == |vs|
    ensures |r| == |vs|
    decreases |vs|
  {
    if |vs| == 0 then [] else [Element(vs[0], Mod32(from), nows[0])] + Stamped(vs[1..], nows[1..], from + 1)
  }

  /** The i-th stamped sample carries number `at` = from + i, modulo 2^32. */
  lemma {:induction false} StampedAt(vs: seq<Value>, nows: seq<TimePoint>, from: nat, i: nat, at: nat)
    requires |nows| == |vs| && i < |vs| && at == from + i
    ensures Stamped(vs, nows, from)[i] == Element(vs[i], Mod32(at), nows[i])
    decreases i
  {
    if i > 0 {
      StampedAt(vs[1..], nows[1..], from + 1, i - 1, at);
    }
  }

  /** k adds, from a counter at `from` modulo 2^32, leave it at from + k modulo 2^32. */
  lemma {:induction false} AddedAllSequence(b: BufferState, vs: seq<Value>, nows: seq<TimePoint>, from: nat, to: nat)
    requires WellFormed(b) && |nows| == |vs| && b.sequence == Mod32(from) && to == from + |vs|
    requires forall i :: 0 <= i < |vs| ==> TypeOf(vs[i]) == b.dtype
    ensures AddedAll(b, vs, nows).sequence == Mod32(to)
    decreases |vs|
  {
    if |vs| > 0 {
      NextMod(from);
      AddedAllSequence(Added(b, vs[0], nows[0]), vs[1..], nows[1..], from + 1, to);
    }
  }

  /** k adds push, onto the ring, the k samples stamped with the successive counter values. */
  lemma {:induction false} AddedAllPushes(b: BufferState, vs: seq<Value>, nows: seq<TimePoint>, from: nat)
    requires WellFormed(b) && |nows| == |vs| && b.sequence == Mod32(from)
    requires forall i :: 0 <= i < |vs| ==> TypeOf(vs[i]) == b.dtype
    ensures AddedAll(b, vs, nows).samples == PushAll(b.samples, b.capacity, Stamped(vs, nows, from))
    decreases |vs|
  {
    if |vs| > 0 {
      var b' := Added(b, vs[0], nows[0]);
      var st := Stamped(vs, nows, from);
      NextMod(from);
      assert st[1..] == Stamped(vs[1..], nows[1..], from + 1);
      assert b'.samples == Evicting(b.samples, b.capacity, st[0]);
      AddedAllPushes(b', vs[1..], nows[1..], from + 1);
    }
  }

  /**
   * Closed form of a new buffer of type t and capacity C after adding vs, the i-th at
   * time nows[i]: the counter at k mod 2^32 for k adds, and the last min(k, C) samples
   * of the stamped run.
   */
  ghost function AfterAdds(t: DataType, capacity: u32, vs: seq<Value>, nows: seq<TimePoint>): (r: BufferState)
    requires |nows| == |vs|
  {
    BufferState(t, capacity, Mod32(|vs|), Newest(Stamped(vs, nows, 0), capacity as nat))
  }

  /** Adding vs one by one to a new buffer leaves it in the closed form above. */
  lemma AddsToNewBuffer(t: DataType, capacity: u32, vs: seq<Value>, nows: seq<TimePoint>)
    requires 0 < capacity && |nows| == |vs|
    requires forall i :: 0 <= i < |vs| ==> TypeOf(vs[i]) == t
    ensures NewBuffer(t, capacity).Ok?
    ensures AddedAll(NewBuffer(t, capacity).value, vs, nows) == AfterAdds(t, capacity, vs, nows)
  {
    var b := BufferState(t, capacity, 0, []);
    assert WellFormed(b) && b.sequence == Mod32(0);
    AddedAllSequence(b, vs, nows, 0, |vs|);
    AddedAllPushes(b, vs, nows, 0);
    var st := Stamped(vs, nows, 0);
    PushAllKeepsNewest([], capacity as nat, st);
    assert [] + st == st;
  }

  /**
   * After k adds a buffer of capacity C holds min(k, C) samples, and its i-th is the
   * (k - min(k, C) + i)-th value added, with that add's timestamp and that number
   * modulo 2^32.
   */
  lemma AddsRetain(t: DataType, capacity: u32, vs: seq<Value>, nows: seq<TimePoint>)
    requires |nows| == |vs|
    ensures var r := AfterAdds(t, capacity, vs, nows);
      |r.samples| == Min(|vs|, capacity) &&
      forall i :: 0 <= i < |r.samples| ==>
        var j := |vs| - |r.samples| + i; r.samples[i] == Element(vs[j], Mod32(j), nows[j])
  {
    var samples := AfterAdds(t, capacity, vs, nows).samples;
    var st := Stamped(vs, nows, 0);
    var m := |samples|;
    assert samples == st[|vs| - m..];
    forall i | 0 <= i < m
      ensures samples[i] == Element(vs[|vs| - m + i], Mod32(|vs| - m + i), nows[|vs| - m + i])
    {
      var j := |vs| - m + i;
      assert samples[i] == st[j];
      StampedAt(vs, nows, 0, j, j);
    }
  }

  /** `retrieve_multiple(n)`: `out_of_range` when n exceeds the size, otherwise the n oldest samples. */
  function Retrieved(b: BufferState, n: u32): (r: Result<seq<Element>, Error>)
    ensures n > |b.samples| <==> r == Err(OutOfRange)
    ensures r.Ok? ==> |r.value| == n && r.value <= b.samples
  {
    if n > |b.samples| then Err(OutOfRange) else Ok(b.samples[..n])
  }

  /**
   * What `retrieve_multiple` returns after k adds to a new buffer: the n OLDEST of the
   * retained samples, which start min(k, C) samples back from the newest.
   */
  lemma RetrievedAfterAdds(t: DataType, capacity: u32, vs: seq<Value>, nows: seq<TimePoint>, n: u32)
    requires |nows| == |vs| && n <= Min(|vs|, capacity)
    ensures var first := |vs| - Min(|vs|, capacity);
      Retrieved(AfterAdds(t, capacity, vs, nows), n) == Ok(Stamped(vs, nows, 0)[first..first + n])
  {
    var st := Stamped(vs, nows, 0);
    OldestOfTail(Newest(st, capacity as nat), st, |vs|, Min(|vs|, capacity), n);
  }

  /** The n oldest of the last m elements of a run of k start m back from its end. */
  lemma OldestOfTail(kept: seq<Element>, xs: seq<Element>, k: nat, m: nat, n: nat)
    requires k == |xs| && |kept| == m <= k && kept == xs[k - |kept|..] && n <= m
    ensures kept[..n] == xs[k - m..k - m + n]
  {
    assert kept[..n] == xs[k - m..][..n];
  }

  /** `Ring<T>`: a deque of bounded length. */
  class Ring<T> {
    const capacity: u32
    /** The deque's elements, front (oldest) first. */
    var items: seq<T>

    constructor (capacity: u32)
      ensures this.capacity == capacity && items == []
    {
      this.capacity := capacity;
      items := [];
    }

    /** `push_back`: when the deque already holds capacity elements, its front is popped first. */
    method PushBack(x: T)
      requires 0 < capacity && |items| <= capacity
      modifies this
      ensures items == Evicting(old(items), capacity, x)
    {
      if |items| == capacity {
        items := items[1..];
      }
      items := items + [x];
    }

    method Size() returns (n: nat)
      ensures n == |items|
    {
      n := |items|;
    }

    /** `operator[]`. */
    method At(i: nat) returns (x: T)
      requires i < |items|
      ensures x == items[i]
    {
      x := items[i];
    }

    method Clear()
      modifies this
      ensures items == []
    {
      items := [];
    }
  }

  /** `MetricBuffer<T, U>`: one class for the four typed buffers. */
  class MetricBuffer {
    const dtype: DataType
    const capacity: u32
    var sequence: u32
    const buffer: Ring<Element>

    ghost predicate Valid()
      reads this, buffer
    {
      buffer.capacity == capacity && WellFormed(State())
    }

    /** The buffer's state as the manager sees it. */
    ghost function State(): BufferState
      reads this, buffer
    {
      BufferState(dtype, capacity, sequence, buffer.items)
    }

    constructor (t: DataType, capacity: u32)
      requires 0 < capacity
      ensures Valid() && fresh(buffer)
      ensures State() == BufferState(t, capacity, 0, [])
    {
      dtype, this.capacity, sequence := t, capacity, 0;
      buffer := new Ring(capacity);
    }

    /** `MetricBuffer(capacity)` for a buffer of type t: the ring is built, then a capacity of 0 throws. */
    static method Create(t: DataType, capacity: u32) returns (r: Result<MetricBuffer, Error>)
      ensures NewBuffer(t, capacity).Err? ==> r == Err(NewBuffer(t, capacity).error)
      ensures NewBuffer(t, capacity).Ok? ==>
        r.Ok? && fresh(r.value) && fresh(r.value.buffer) &&
        r.value.Valid() && r.value.State() == NewBuffer(t, capacity).value
    {
      if capacity == 0 {
        return Err(LengthError);
      }
      var b := new MetricBuffer(t, capacity);
      r := Ok(b);
    }

    method Add(v: Value, now: TimePoint)
      requires Valid() && TypeOf(v) == dtype
      modifies this, buffer
      ensures Valid()
      ensures State() == Added(old(State()), v, now)
    {
      ghost var next := Added(State(), v, now);
      buffer.PushBack(Element(v, sequence, now));
      sequence := Next(sequence);
      assert State() == next;
    }

    method RetrieveMultiple(n: u32) returns (r: Result<seq<Element>, Error>)
      requires Valid()
      ensures r == Retrieved(State(), n)
    {
      var size := buffer.Size();
      if n > size {
        return Err(OutOfRange);
      }
      var elements := [];
      var i := 0;
      while i < n
        invariant 0 <= i <= n && elements == buffer.items[..i]
      {
        var e := buffer.At(i);
        elements := elements + [e];
        i := i + 1;
      }
      r := Ok(elements);
    }

    method Size() returns (n: u32)
      requires Valid()
      ensures n == |State().samples|
    {
      var s := buffer.Size();
      n := s;
    }

    /** `reset`: the samples are dropped; `_sequence` keeps counting from where it was. */
    method Reset()
      requires Valid()
      modifies buffer
      ensures Valid() && State() == old(State()).(samples := [])
    {
      buffer.Clear();
    }
  }

  ghost predicate AllWellFormed(buffers: seq<Entry<BufferState>>)
  {
    Sorted(buffers) && forall i :: 0 <= i < |buffers| ==> WellFormed(buffers[i].value)
  }

  /** `_metric_map.at(name)`: the buffer, or `out_of_range` for an unknown name. */
  function At(buffers: seq<Entry<BufferState>>, name: Key): (r: Result<BufferState, Error>)
    requires AllWellFormed(buffers)
    ensures r.Ok? <==> name in KeySet(buffers)
    ensures r.Err? ==> r.error == OutOfRange
    ensures r.Ok? ==> Get(buffers, name) == Some(r.value) && WellFormed(r.value)
  {
    match Get(buffers, name)
    case None => Err(OutOfRange)
    case Some(b) =>
      var i :| 0 <= i < |buffers| && buffers[i] == Entry(name, b);
      Ok(b)
  }

  /** Storing a well-formed buffer keeps every buffer of the map well formed. */
  lemma PutWellFormed(buffers: seq<Entry<BufferState>>, name: Key, b: BufferState)
    requires AllWellFormed(buffers) && WellFormed(b)
    ensures AllWellFormed(Put(buffers, name, b))
    ensures forall k :: Get(Put(buffers, name, b), k) == if k == name then Some(b) else Get(buffers, k)
  {
    var bs := Put(buffers, name, b);
    forall k
      ensures Get(bs, k) == if k == name then Some(b) else Get(buffers, k)
    {
      GetPut(buffers, name, b, k);
    }
    forall i | 0 <= i < |bs|
      ensures WellFormed(bs[i].value)
    {
      GetSorted(bs, i);
      if bs[i].key != name {
        var j :| 0 <= j < |buffers| && buffers[j] == Entry(bs[i].key, Get(buffers, bs[i].key).value);
      }
    }
  }

  /**
   * `_add_metric`: an empty name is rejected; an unknown name gets a new buffer of the
   * default capacity and the value's type (whose constructor may throw, before the map
   * is touched); a known name of another type is rejected; then the buffer gains the sample.
   */
  function AddMetricSpec(buffers: seq<Entry<BufferState>>, defaultCapacity: u32, name: Key, v: Value, now: TimePoint)
    : (r: Result<seq<Entry<BufferState>>, Error>)
    requires AllWellFormed(buffers)
    ensures r.Ok? ==> AllWellFormed(r.value)
  {
    if |name| == 0 then Err(InvalidArgument)
    else match At(buffers, name)
      case Err(_) =>
        (match NewBuffer(TypeOf(v), defaultCapacity)
         case Err(e) => Err(e)
         case Ok(b) =>
           PutWellFormed(buffers, name, Added(b, v, now));
           Ok(Put(buffers, name, Added(b, v, now))))
      case Ok(b) =>
        if b.dtype != TypeOf(v) then Err(InvalidArgument)
        else
          PutWellFormed(buffers, name, Added(b, v, now));
          Ok(Put(buffers, name, Added(b, v, now)))
  }

  /**
   * The outcomes of `_add_metric`: it fails exactly for an empty name, a type mismatch
   * or a new buffer of capacity 0, and then changes nothing; on success the named
   * buffer (new or old) gains the sample and every other buffer is unchanged.
   */
  lemma AddMetricEffect(buffers: seq<Entry<BufferState>>, defaultCapacity: u32, name: Key, v: Value, now: TimePoint, k: Key)
    requires AllWellFormed(buffers)
    ensures var r := AddMetricSpec(buffers, defaultCapacity, name, v, now);
      && (r.Err? <==>
            |name| == 0 ||
            (name in KeySet(buffers) && At(buffers, name).value.dtype != TypeOf(v)) ||
            (name !in KeySet(buffers) && defaultCapacity == 0))
      && (|name| == 0 ==> r == Err(InvalidArgument))
      && (|name| > 0 && name in KeySet(buffers) && At(buffers, name).value.dtype != TypeOf(v) ==> r == Err(InvalidArgument))
      && (|name| > 0 && name !in KeySet(buffers) && defaultCapacity == 0 ==> r == Err(LengthError))
      && (r.Ok? ==> KeySet(r.value) == KeySet(buffers) + {name})
      && (r.Ok? && k != name ==> Get(r.value, k) == Get(buffers, k))
      && (r.Ok? && name in KeySet(buffers) ==>
            Get(r.value, name) == Some(Added(At(buffers, name).value, v, now)))
      && (r.Ok? && name !in KeySet(buffers) ==>
            Get(r.value, name) == Some(BufferState(TypeOf(v), defaultCapacity, 1, [Element(v, 0, now)])))
  {
    if |name| > 0 {
      match At(buffers, name)
      case Err(_) =>
        if defaultCapacity > 0 {
          var b := BufferState(TypeOf(v), defaultCapacity, 0, []);
          PutWellFormed(buffers, name, Added(b, v, now));
          assert Evicting(b.samples, b.capacity, Element(v, 0, now)) == [Element(v, 0, now)];
        }
      case Ok(b) =>
        if b.dtype == TypeOf(v) {
          PutWellFormed(buffers, name, Added(b, v, now));
        }
    }
  }

  /** `MetricManager`: the default capacity and the name-to-buffer map. */
  /**
   * The map and result of an add whose specification gave spec: the new map and success,
   * or the map unchanged and the error.
   */
  predicate AddOutcome(spec: Result<seq<Entry<BufferState>>, Error>, before: seq<Entry<BufferState>>,
                       after: seq<Entry<BufferState>>, r: Result<(), Error>)
  {
    match spec
    case Ok(bs) => after == bs && r.Ok?
    case Err(e) => after == before && r == Err(e)
  }

  /** A first sample under a new name goes into a new buffer of the default capacity. */
  lemma AddMetricToNew(buffers: seq<Entry<BufferState>>, defaultCapacity: u32, name: Key, v: Value, now: TimePoint,
                       b: BufferState)
    requires AllWellFormed(buffers) && |name| > 0 && At(buffers, name).Err?
    requires NewBuffer(TypeOf(v), defaultCapacity) == Ok(b)
    ensures WellFormed(b) && TypeOf(v) == b.dtype
    ensures AddMetricSpec(buffers, defaultCapacity, name, v, now) == Ok(Put(buffers, name, Added(b, v, now)))
  {
  }

  /** A sample under a known name of the same type goes into that name's buffer. */
  lemma AddMetricToKnown(buffers: seq<Entry<BufferState>>, defaultCapacity: u32, name: Key, v: Value, now: TimePoint,
                         b: BufferState)
    requires AllWellFormed(buffers) && |name| > 0 && At(buffers, name) == Ok(b) && b.dtype == TypeOf(v)
    ensures WellFormed(b)
    ensures AddMetricSpec(buffers, defaultCapacity, name, v, now) == Ok(Put(buffers, name, Added(b, v, now)))
  {
  }

  class MetricManager {
    var defaultCapacity: u32
    var metricMap: seq<Entry<BufferState>>

    ghost predicate Valid()
      reads this
    {
      AllWellFormed(metricMap)
    }

    /** `MetricManager(capacity = DEFAULT_CAPACITY)`, also `spits_metrics_new(buffer_size)`. */
    constructor (capacity: u32)
      ensures Valid() && defaultCapacity == capacity && metricMap == []
    {
      defaultCapacity := capacity;
      metricMap := [];
    }

    method GetDefaultCapacity() returns (c: u32)
      ensures c == defaultCapacity
    {
      c := defaultCapacity;
    }

    /** `set_default_capacity`: affects only buffers created later. */
    method SetDefaultCapacity(capacity: u32)
      modifies this
      ensures defaultCapacity == capacity && metricMap == old(metricMap)
    {
      defaultCapacity := capacity;
    }

    /** `get_num_buffers`: the number of names, as an `unsigned int`. */
    method GetNumBuffers() returns (n: u32)
      requires Valid()
      ensures n == |KeySet(metricMap)| % TWO_32
    {
      n := |metricMap| % TWO_32;
      KeySetSize(metricMap);
    }

    /** `get_buffer_capacity`: `out_of_range` for an unknown name. */
    method GetBufferCapacity(name: Key) returns (r: Result<u32, Error>)
      requires Valid()
      ensures name !in KeySet(metricMap) ==> r == Err(OutOfRange)
      ensures name in KeySet(metricMap) ==> r == Ok(At(metricMap, name).value.capacity)
    {
      var b := At(metricMap, name);
      if b.Err? {
        return Err(b.error);
      }
      r := Ok(b.value.capacity);
    }

    /** `get_buffer_dtype`: `out_of_range` for an unknown name. */
    method GetBufferDtype(name: Key) returns (r: Result<DataType, Error>)
      requires Valid()
      ensures name !in KeySet(metricMap) ==> r == Err(OutOfRange)
      ensures name in KeySet(metricMap) ==> r == Ok(At(metricMap, name).value.dtype)
    {
      var b := At(metricMap, name);
      if b.Err? {
        return Err(b.error);
      }
      r := Ok(b.value.dtype);
    }

    /** `get_buffer_size`: the number of retained samples; `out_of_range` for an unknown name. */
    method GetBufferSize(name: Key) returns (r: Result<u32, Error>)
      requires Valid()
      ensures name !in KeySet(metricMap) ==> r == Err(OutOfRange)
      ensures name in KeySet(metricMap) ==> r == Ok(|At(metricMap, name).value.samples|)
    {
      var b := At(metricMap, name);
      if b.Err? {
        return Err(b.error);
      }
      r := Ok(|b.value.samples|);
    }

    /** `get_buffer_names`: every name once, in sorted order. */
    method GetBufferNames() returns (names: seq<Key>)
      requires Valid()
      ensures |names| == |metricMap|
      ensures forall i :: 0 <= i < |names| ==> names[i] == metricMap[i].key
      ensures forall i, j :: 0 <= i < j < |names| ==> Below(names[i], names[j])
      ensures forall k :: k in KeySet(metricMap) <==> k in names
    {
      names := [];
      var i := 0;
      while i < |metricMap|
        invariant 0 <= i <= |metricMap| && |names| == i
        invariant forall j :: 0 <= j < i ==> names[j] == metricMap[j].key
      {
        names := names + [metricMap[i].key];
        i := i + 1;
      }
      forall k | k in KeySet(metricMap)
        ensures k in names
      {
        var j :| 0 <= j < |metricMap| && metricMap[j].key == k;
        assert names[j] == k;
      }
    }

    /** `add_metric`, for each of the four value types. */
    method AddMetric(name: Key, v: Value, now: TimePoint) returns (r: Result<(), Error>)
      requires Valid()
      modifies this
      ensures Valid() && defaultCapacity == old(defaultCapacity)
      ensures AddOutcome(AddMetricSpec(old(metricMap), defaultCapacity, name, v, now), old(metricMap), metricMap, r)
    {
      var target := Target(name, v, now);
      if target.Err? {
        return Err(target.error);
      }
      metricMap := Put(metricMap, name, Added(target.value, v, now));
      r := Ok(());
    }

    /**
     * The buffer `add_metric` adds to: the existing one, or a new one of the default
     * capacity for an unknown name; an error for an empty name, a capacity of 0 or a
     * buffer of another type.
     */
    method Target(name: Key, v: Value, now: TimePoint) returns (r: Result<BufferState, Error>)
      requires Valid()
      ensures r.Err? ==> AddMetricSpec(metricMap, defaultCapacity, name, v, now) == Err(r.error)
      ensures r.Ok? ==> WellFormed(r.value) && TypeOf(v) == r.value.dtype
      ensures r.Ok? ==>
        AddMetricSpec(metricMap, defaultCapacity, name, v, now) == Ok(Put(metricMap, name, Added(r.value, v, now)))
    {
      if |name| == 0 {
        return Err(InvalidArgument);
      }
      var found := At(metricMap, name);
      if found.Err? {
        var created := NewBuffer(TypeOf(v), defaultCapacity);
        if created.Err? {
          return Err(created.error);
        }
        AddMetricToNew(metricMap, defaultCapacity, name, v, now, created.value);
        r := created;
      } else {
        if found.value.dtype != TypeOf(v) {
          return Err(InvalidArgument);
        }
        AddMetricToKnown(metricMap, defaultCapacity, name, v, now, found.value);
        r := found;
      }
    }

    /**
     * `get_element_int`, `_float`, `_string`, `_bytes`: the n oldest samples of the
     * named buffer. The typed accessors cast the buffer unchecked; the exports call
     * the one matching the buffer's type, so one accessor stands for all four.
     */
    method GetElements(name: Key, n: u32) returns (r: Result<seq<Element>, Error>)
      requires Valid()
      ensures name !in KeySet(metricMap) ==> r == Err(OutOfRange)
      ensures name in KeySet(metricMap) ==> r == Retrieved(At(metricMap, name).value, n)
    {
      var b := At(metricMap, name);
      if b.Err? {
        return Err(b.error);
      }
      r := Retrieved(b.value, n);
    }
  }
}

/**
 * The metrics store of spitz-include/ccpp/spitz/metrics.hpp (`Metrics`): named, typed,
 * fixed-capacity buffers created on first write. Unlike the other stores, its reads are
 * destructive: `metrics_last_values` and `get_metric` pop the samples they return out
 * of the buffers.
 *
 * A buffer's state is the value `BufferState`. The buffer class `MetricBuffer` (over a
 * `SpitzRing.Ring`) is proved against the same state functions the store uses; the
 * store's map holds buffer states by value.
 */
module SpitzMetrics {
  import opened Wrappers
  import opened Bytes
  import opened OrderedMap
  import opened RingSpec
  import SpitzRing

  /** `DEFAULT_BUFFER_SIZE`: the capacity of the store built at load time. */
  const DEFAULT_BUFFER_SIZE: Int32 := 10

  /** `TYPE`. */
  datatype MetricType = TypeInt | TypeFloat | TypeBytes

  /** The enumerator's value, as `get_type` reports it. */
  function TypeCode(t: MetricType): (c: int)
    ensures 0 <= c <= 2
  {
    match t
    case TypeInt => 0
    case TypeFloat => 1
    case TypeBytes => 2
  }

  /** A C string: the bytes before its terminating NUL. */
  type CString = s: seq<byte> | 0 !in s

  /**
   * A sample's value: an `int`, a `float` kept as its 4-byte bit pattern, or the C
   * string an `unsigned char*` points to.
   */
  datatype Value =
    | IntValue(i: Int32)
    | FloatValue(floatBits: u32)
    | BytesValue(chars: CString)

  function TypeOf(v: Value): MetricType
  {
    match v
    case IntValue(_) => TypeInt
    case FloatValue(_) => TypeFloat
    case BytesValue(_) => TypeBytes
  }

  /** `struct timespec`, read from the real-time clock when an element is built. */
  datatype Timespec = Timespec(sec: i64, nsec: i64)

  /** An element: `val`, `timestamp` and `seq_no` (without the `unsigned int` cut, which the exports apply). */
  datatype Element = Element(value: Value, time: Timespec, seqNo: nat)

  /** What the store throws: `std::runtime_error`, or `std::bad_array_new_length` from a ring of negative capacity. */
  datatype Error = RuntimeError | BadArrayNewLength

  /**
   * A buffer: its type, capacity (`size`), the number of adds so far (`sequence`,
   * without the overflow of its `int`) and the samples it still holds, oldest first.
   */
  datatype BufferState = BufferState(mtype: MetricType, size: nat, sequence: nat, samples: seq<Element>)

  /**
   * What every buffer satisfies: a positive `int` capacity, at most `size` samples, all of its type; an int or
   * float sample carries a sequence number already handed out, a bytes sample carries
   * 0 (its constructor takes the sequence as its size argument).
   */
  ghost predicate WellFormed(b: BufferState)
  {
    0 < b.size < 0x8000_0000 && |b.samples| <= b.size &&
    forall i :: 0 <= i < |b.samples| ==> Fits(b.mtype, b.sequence, b.samples[i])
  }

  /** A sample of a buffer of type t whose sequence is at `sequence`. */
  ghost predicate Fits(t: MetricType, sequence: nat, e: Element)
  {
    TypeOf(e.value) == t &&
    (t == TypeBytes ==> e.seqNo == 0) &&
    (t != TypeBytes ==> e.seqNo < sequence)
  }

  /**
   * A buffer of the given type and capacity, built by `get_or_create_buffer`: a
   * negative capacity makes the ring's array allocation throw. (A capacity of 0 builds
   * a ring that the first push overruns; callers exclude it.)
   */
  function NewBuffer(t: MetricType, size: Int32): (r: Result<BufferState, Error>)
    requires size != 0
    ensures r.Err? <==> size < 0
    ensures r.Err? ==> r.error == BadArrayNewLength
    ensures r.Ok? ==> (WellFormed(r.value) && r.value.mtype == t && r.value.size == size &&
      r.value.sequence == 0 && r.value.samples == [])
  {
    if size < 0 then Err(BadArrayNewLength) else Ok(BufferState(t, size, 0, []))
  }

  /**
   * The `seq_no` of the element `add_element` builds: the sequence before the
   * increment, except for a bytes element, whose constructor receives the sequence as
   * its `size` and leaves `seq_no` at its default 0.
   */
  function SeqNoOf(b: BufferState): (s: nat)
    ensures b.mtype == TypeBytes ==> s == 0
    ensures b.mtype != TypeBytes ==> s == b.sequence
  {
    if b.mtype == TypeBytes then 0 else b.sequence
  }

  /** `add_element`: the new element is pushed (a full ring drops its oldest first) and the sequence moves on. */
  function Added(b: BufferState, v: Value, now: Timespec): (r: BufferState)
    requires WellFormed(b) && TypeOf(v) == b.mtype
    ensures WellFormed(r)
    ensures r.mtype == b.mtype && r.size == b.size && r.sequence == b.sequence + 1
    ensures r.samples == Newest(b.samples + [Element(v, now, SeqNoOf(b))], b.size)
  {
    var e := Element(v, now, SeqNoOf(b));
    PushKeepsWellFormed(b, e);
    b.(sequence := b.sequence + 1, samples := Evicting(b.samples, b.size, e))
  }

  lemma PushKeepsWellFormed(b: BufferState, e: Element)
    requires WellFormed(b) && TypeOf(e.value) == b.mtype && e.seqNo == SeqNoOf(b)
    ensures WellFormed(b.(sequence := b.sequence + 1, samples := Evicting(b.samples, b.size, e)))
  {
    var kept := Evicting(b.samples, b.size, e);
    var d := if |b.samples| == b.size then 1 else 0;
    assert kept == b.samples[d..] + [e];
    forall i | 0 <= i < |kept|
      ensures Fits(b.mtype, b.sequence + 1, kept[i])
    {
      if i < |kept| - 1 {
        assert kept[i] == b.samples[d + i];
        assert Fits(b.mtype, b.sequence, b.samples[d + i]);
      } else {
        assert kept[i] == e;
      }
    }
  }

  /** `get_element`: the oldest sample moved out of the buffer; null on an empty one. */
  function TakeOldest(b: BufferState): (r: (Option<Element>, BufferState))
    requires WellFormed(b)
    ensures WellFormed(r.1) && r.1.mtype == b.mtype && r.1.size == b.size && r.1.sequence == b.sequence
    ensures b.samples == [] ==> r == (None, b)
    ensures b.samples != [] ==> r.0 == Some(b.samples[0]) && [b.samples[0]] + r.1.samples == b.samples
  {
    if b.samples == [] then (None, b)
    else
      assert [b.samples[0]] + b.samples[1..] == b.samples;
      (Some(b.samples[0]), b.(samples := b.samples[1..]))
  }

  /** `get_front_element`: the newest sample moved out of the buffer; null on an empty one. */
  function TakeNewest(b: BufferState): (r: (Option<Element>, BufferState))
    requires WellFormed(b)
    ensures WellFormed(r.1) && r.1.mtype == b.mtype && r.1.size == b.size && r.1.sequence == b.sequence
    ensures b.samples == [] ==> r == (None, b)
    ensures b.samples != [] ==>
      r.0 == Some(b.samples[|b.samples| - 1]) && r.1.samples + [b.samples[|b.samples| - 1]] == b.samples
  {
    var n := |b.samples|;
    if n == 0 then (None, b)
    else
      assert b.samples[..n - 1] + [b.samples[n - 1]] == b.samples;
      (Some(b.samples[n - 1]), b.(samples := b.samples[..n - 1]))
  }

  /** s backwards. */
  function Reversed<T>(s: seq<T>): (r: seq<T>)
    ensures |r| == |s| && forall i :: 0 <= i < |s| ==> r[i] == s[|s| - 1 - i]
  {
    seq(|s|, i requires 0 <= i < |s| => s[|s| - 1 - i])
  }

  lemma ReversedSnoc<T>(s: seq<T>, x: T)
    ensures Reversed(s + [x]) == [x] + Reversed(s)
  {
    assert forall i :: 0 <= i < |s| + 1 ==> Reversed(s + [x])[i] == ([x] + Reversed(s))[i];
  }

  /**
   * How many samples a request for n takes from a buffer: n clamped to the capacity,
   * then to the length; none for n <= 0.
   */
  function Requested(b: BufferState, n: int): (k: nat)
    requires WellFormed(b)
    ensures n <= 0 ==> k == 0
    ensures 0 < n ==> k == if n < |b.samples| then n else |b.samples|
  {
    var requested := if n > b.size then b.size else n;
    var requested' := if requested > |b.samples| then |b.samples| else requested;
    if requested' < 0 then 0 else requested'
  }

  /**
   * What the reading loop of `metrics_last_values` does to one buffer in k turns: with
   * `lasts` it takes the k newest samples, newest first; otherwise the k oldest,
   * oldest first. The buffer keeps the rest.
   */
  function Drained(b: BufferState, k: nat, lasts: bool): (r: (seq<Element>, BufferState))
    requires WellFormed(b) && k <= |b.samples|
    ensures WellFormed(r.1) && r.1.mtype == b.mtype && r.1.size == b.size && r.1.sequence == b.sequence
    ensures |r.0| == k
    ensures !lasts ==> r.0 + r.1.samples == b.samples
    ensures lasts ==> r.1.samples + Reversed(r.0) == b.samples
  {
    var n := |b.samples|;
    if lasts then
      assert Reversed(Reversed(b.samples[n - k..])) == b.samples[n - k..];
      assert b.samples[..n - k] + b.samples[n - k..] == b.samples;
      (Reversed(b.samples[n - k..]), b.(samples := b.samples[..n - k]))
    else
      assert b.samples[..k] + b.samples[k..] == b.samples;
      (b.samples[..k], b.(samples := b.samples[k..]))
  }

  /** One more turn of the loop takes one more sample, from the buffer the earlier turns left. */
  lemma DrainedStep(b: BufferState, k: nat, lasts: bool)
    requires WellFormed(b) && k < |b.samples|
    ensures var (es, rest) := Drained(b, k, lasts);
      var (e, rest') := if lasts then TakeNewest(rest) else TakeOldest(rest);
      e.Some? && Drained(b, k + 1, lasts) == (es + [e.value], rest')
  {
    var n := |b.samples|;
    if lasts {
      var s := b.samples[n - k - 1..];
      assert s == [b.samples[n - k - 1]] + b.samples[n - k..];
      assert Reversed(s) == Reversed(b.samples[n - k..]) + [b.samples[n - k - 1]];
      assert b.samples[..n - k][..n - k - 1] == b.samples[..n - k - 1];
    } else {
      assert b.samples[..k + 1] == b.samples[..k] + [b.samples[k]];
      assert b.samples[k..][1..] == b.samples[k + 1..];
    }
  }

  /** The loop over one buffer: `requested` turns of `get_front_element` (with `lasts`) or `get_element`. */
  method Drain(b: BufferState, requested: nat, lasts: bool) returns (elementBuffer: seq<Element>, rest: BufferState)
    requires WellFormed(b) && requested <= |b.samples|
    ensures (elementBuffer, rest) == Drained(b, requested, lasts)
  {
    elementBuffer, rest := [], b;
    assert b.samples[..|b.samples|] == b.samples && b.samples[0..] == b.samples;
    for i := 0 to requested
      invariant (elementBuffer, rest) == Drained(b, i, lasts)
    {
      DrainedStep(b, i, lasts);
      var element;
      if lasts {
        element, rest := TakeNewest(rest).0, TakeNewest(rest).1;
      } else {
        element, rest := TakeOldest(rest).0, TakeOldest(rest).1;
      }
      elementBuffer := elementBuffer + [element.value];
    }
  }

  ghost predicate AllWellFormed(buffers: seq<Entry<BufferState>>)
  {
    Sorted(buffers) && forall i :: 0 <= i < |buffers| ==> WellFormed(buffers[i].value)
  }

  lemma GetWellFormed(buffers: seq<Entry<BufferState>>, name: Key)
    requires AllWellFormed(buffers)
    ensures Get(buffers, name).Some? ==> WellFormed(Get(buffers, name).value)
  {
    if Get(buffers, name).Some? {
      var i :| 0 <= i < |buffers| && buffers[i] == Entry(name, Get(buffers, name).value);
    }
  }

  lemma PutKeepsWellFormed(buffers: seq<Entry<BufferState>>, name: Key, b: BufferState)
    requires AllWellFormed(buffers) && WellFormed(b)
    ensures AllWellFormed(Put(buffers, name, b))
  {
    var bs := Put(buffers, name, b);
    forall i | 0 <= i < |bs|
      ensures WellFormed(bs[i].value)
    {
      GetSorted(bs, i);
      GetPut(buffers, name, b, bs[i].key);
      if bs[i].key != name {
        GetWellFormed(buffers, bs[i].key);
      }
    }
  }

  /** Writing back a buffer under a name the map already has keeps its set of names. */
  lemma PutKnownKeys<V>(buffers: seq<Entry<V>>, name: Key, v: V)
    requires Sorted(buffers) && name in KeySet(buffers)
    ensures KeySet(Put(buffers, name, v)) == KeySet(buffers)
  {
  }

  /**
   * `get_or_create_buffer(name, exists_ok, type)`: the buffer under name, whatever its
   * type; a missing name throws unless `exists_ok`, and is otherwise given a new buffer
   * of the default capacity and the requested type.
   */
  function GetOrCreate(buffers: seq<Entry<BufferState>>, defaultSize: Int32, name: Key, existsOk: bool, t: MetricType)
    : (r: Result<(seq<Entry<BufferState>>, BufferState), Error>)
    requires AllWellFormed(buffers)
    requires existsOk && name !in KeySet(buffers) ==> defaultSize != 0
    ensures r.Ok? ==> AllWellFormed(r.value.0) && WellFormed(r.value.1)
    ensures name in KeySet(buffers) ==> r == Ok((buffers, Get(buffers, name).value))
    ensures r.Ok? && name !in KeySet(buffers) ==> r.value.1.mtype == t
  {
    match Get(buffers, name)
    case Some(b) =>
      GetWellFormed(buffers, name);
      Ok((buffers, b))
    case None =>
      if !existsOk then Err(RuntimeError)
      else match NewBuffer(t, defaultSize)
        case Err(e) => Err(e)
        case Ok(b) =>
          PutKeepsWellFormed(buffers, name, b);
          Ok((Put(buffers, name, b), b))
  }

  /**
   * A known name is returned with the map unchanged and no type check; a missing one
   * throws `runtime_error` unless `exists_ok`, throws `bad_array_new_length` for a
   * negative default capacity, and is otherwise added with a new, empty buffer while
   * every other name keeps its buffer.
   */
  lemma GetOrCreateEffect(buffers: seq<Entry<BufferState>>, defaultSize: Int32, name: Key, existsOk: bool, t: MetricType, k: Key)
    requires AllWellFormed(buffers)
    requires existsOk && name !in KeySet(buffers) ==> defaultSize != 0
    ensures var r := GetOrCreate(buffers, defaultSize, name, existsOk, t);
      && (name in KeySet(buffers) ==> r == Ok((buffers, Get(buffers, name).value)))
      && (name !in KeySet(buffers) && !existsOk ==> r == Err(RuntimeError))
      && (name !in KeySet(buffers) && existsOk && defaultSize < 0 ==> r == Err(BadArrayNewLength))
      && (name !in KeySet(buffers) && existsOk && defaultSize > 0 ==>
            r.Ok? && r.value.1 == BufferState(t, defaultSize, 0, []) &&
            Get(r.value.0, name) == Some(r.value.1) && KeySet(r.value.0) == KeySet(buffers) + {name} &&
            (k != name ==> Get(r.value.0, k) == Get(buffers, k)))
  {
    if name !in KeySet(buffers) && existsOk && defaultSize > 0 {
      var b := BufferState(t, defaultSize, 0, []);
      GetPut(buffers, name, b, k);
      GetPut(buffers, name, b, name);
    }
  }

  /**
   * `add_metric(name, value)` for the value's type: the buffer is fetched or created,
   * then gains the sample. An existing buffer is cast to the value's type unchecked, so
   * it is required to have that type; a missing name needs a non-zero default capacity.
   */
  function AddMetricSpec(buffers: seq<Entry<BufferState>>, defaultSize: Int32, name: Key, v: Value, now: Timespec)
    : (r: Result<seq<Entry<BufferState>>, Error>)
    requires AllWellFormed(buffers)
    requires name in KeySet(buffers) ==> Get(buffers, name).value.mtype == TypeOf(v)
    requires name !in KeySet(buffers) ==> defaultSize != 0
    ensures r.Ok? ==> AllWellFormed(r.value)
  {
    var g := GetOrCreate(buffers, defaultSize, name, true, TypeOf(v));
    if g.Err? then Err(g.error)
    else
      var b' := Added(g.value.1, v, now);
      PutKeepsWellFormed(g.value.0, name, b');
      Ok(Put(g.value.0, name, b'))
  }

  /** `add_metric` throws only when it has to create the buffer and the default capacity is negative. */
  lemma AddMetricFails(buffers: seq<Entry<BufferState>>, defaultSize: Int32, name: Key, v: Value, now: Timespec)
    requires AllWellFormed(buffers)
    requires name in KeySet(buffers) ==> Get(buffers, name).value.mtype == TypeOf(v)
    requires name !in KeySet(buffers) ==> defaultSize != 0
    ensures var r := AddMetricSpec(buffers, defaultSize, name, v, now);
      && (r.Err? <==> name !in KeySet(buffers) && defaultSize < 0)
      && (r.Err? ==> r.error == BadArrayNewLength)
  {
  }

  /** For a known name, `add_metric` appends the sample, stamped by the buffer's sequence, to its buffer. */
  lemma AddMetricAppends(buffers: seq<Entry<BufferState>>, defaultSize: Int32, name: Key, v: Value, now: Timespec)
    requires AllWellFormed(buffers) && name in KeySet(buffers)
    requires Get(buffers, name).value.mtype == TypeOf(v)
    ensures var r := AddMetricSpec(buffers, defaultSize, name, v, now);
      r.Ok? && Get(r.value, name) == Some(Added(Get(buffers, name).value, v, now))
  {
    var g := GetOrCreate(buffers, defaultSize, name, true, TypeOf(v));
    assert g == Ok((buffers, Get(buffers, name).value));
    GetPut(buffers, name, Added(g.value.1, v, now), name);
  }

  /**
   * For a new name and a positive default capacity, `add_metric` creates a buffer of that
   * capacity holding just the sample, numbered 0.
   */
  lemma AddMetricCreates(buffers: seq<Entry<BufferState>>, defaultSize: Int32, name: Key, v: Value, now: Timespec)
    requires AllWellFormed(buffers) && name !in KeySet(buffers) && defaultSize > 0
    ensures var r := AddMetricSpec(buffers, defaultSize, name, v, now);
      r.Ok? && Get(r.value, name) == Some(BufferState(TypeOf(v), defaultSize, 1, [Element(v, now, 0)]))
  {
    GetOrCreateEffect(buffers, defaultSize, name, true, TypeOf(v), name);
    var g := GetOrCreate(buffers, defaultSize, name, true, TypeOf(v));
    var b := BufferState(TypeOf(v), defaultSize, 0, []);
    assert g.value.1 == b;
    assert Evicting(b.samples, b.size, Element(v, now, 0)) == [Element(v, now, 0)];
    GetPut(g.value.0, name, Added(b, v, now), name);
  }

  /** `add_metric` adds at most its own name and leaves every other buffer as it was. */
  lemma AddMetricKeepsOthers(buffers: seq<Entry<BufferState>>, defaultSize: Int32, name: Key, v: Value, now: Timespec, k: Key)
    requires AllWellFormed(buffers)
    requires name in KeySet(buffers) ==> Get(buffers, name).value.mtype == TypeOf(v)
    requires name !in KeySet(buffers) ==> defaultSize != 0
    ensures var r := AddMetricSpec(buffers, defaultSize, name, v, now);
      && (r.Ok? ==> KeySet(r.value) == KeySet(buffers) + {name})
      && (r.Ok? && k != name ==> Get(r.value, k) == Get(buffers, k))
  {
    GetOrCreateEffect(buffers, defaultSize, name, true, TypeOf(v), k);
    var g := GetOrCreate(buffers, defaultSize, name, true, TypeOf(v));
    if g.Ok? {
      GetPut(g.value.0, name, Added(g.value.1, v, now), k);
    }
  }

  /**
   * `get_metric(name)`: an unknown name throws; otherwise the oldest sample (null on an
   * empty buffer) is popped and returned with the buffer's type code.
   */
  function GetMetricSpec(buffers: seq<Entry<BufferState>>, name: Key)
    : (r: Result<((Option<Element>, int), seq<Entry<BufferState>>), Error>)
    requires AllWellFormed(buffers)
    ensures r.Ok? ==> AllWellFormed(r.value.1)
  {
    var g := GetOrCreate(buffers, 0, name, false, TypeInt);
    if g.Err? then Err(g.error)
    else
      var b := g.value.1;
      var taken := TakeOldest(b);
      PutKeepsWellFormed(buffers, name, taken.1);
      Ok(((taken.0, TypeCode(b.mtype)), Put(buffers, name, taken.1)))
  }

  /**
   * `get_metric` throws exactly for an unknown name; otherwise it hands back the oldest
   * sample, which leaves its buffer, and every other buffer is unchanged.
   */
  lemma GetMetricEffect(buffers: seq<Entry<BufferState>>, name: Key, k: Key)
    requires AllWellFormed(buffers)
    ensures var r := GetMetricSpec(buffers, name);
      && (r.Err? <==> name !in KeySet(buffers))
      && (r.Err? ==> r.error == RuntimeError)
      && (r.Ok? ==>
            var b := Get(buffers, name).value;
            && r.value.0.1 == TypeCode(b.mtype)
            && (b.samples == [] ==> r.value.0.0 == None && Get(r.value.1, name) == Some(b))
            && (b.samples != [] ==>
                  r.value.0.0 == Some(b.samples[0]) && Get(r.value.1, name) == Some(b.(samples := b.samples[1..])))
            && (k != name ==> Get(r.value.1, k) == Get(buffers, k)))
  {
    GetOrCreateEffect(buffers, 0, name, false, TypeInt, k);
    if name in KeySet(buffers) {
      GetWellFormed(buffers, name);
      var b := Get(buffers, name).value;
      var b' := TakeOldest(b).1;
      GetPut(buffers, name, b', k);
      GetPut(buffers, name, b', name);
      if b.samples != [] {
        assert b'.samples == b.samples[1..];
      }
    }
  }

  /** The result of `metrics_last_values`: a map from name to the samples taken from it. */
  type ValuesMap = seq<Entry<seq<Element>>>

  /** What the loop over one request takes from a buffer, and what the buffer keeps. */
  function DrainedFor(b: BufferState, n: int, lasts: bool): (r: (seq<Element>, BufferState))
    requires WellFormed(b)
    ensures WellFormed(r.1)
  {
    Drained(b, Requested(b, n), lasts)
  }

  /** One request for a known name: the samples taken, and the map with that buffer written back. */
  function Taken(buffers: seq<Entry<BufferState>>, name: Key, n: int, lasts: bool): (r: (seq<Element>, seq<Entry<BufferState>>))
    requires AllWellFormed(buffers) && name in KeySet(buffers)
    ensures AllWellFormed(r.1)
  {
    GetWellFormed(buffers, name);
    var d := DrainedFor(Get(buffers, name).value, n, lasts);
    PutKeepsWellFormed(buffers, name, d.1);
    (d.0, Put(buffers, name, d.1))
  }

  /** A request touches only its own buffer, and the names stay the same. */
  lemma TakenEffect(buffers: seq<Entry<BufferState>>, name: Key, n: int, lasts: bool, k: Key)
    requires AllWellFormed(buffers) && name in KeySet(buffers)
    ensures WellFormed(Get(buffers, name).value)
    ensures var t := Taken(buffers, name, n, lasts);
      && KeySet(t.1) == KeySet(buffers)
      && t.0 == DrainedFor(Get(buffers, name).value, n, lasts).0
      && Get(t.1, k) == if k == name then Some(DrainedFor(Get(buffers, name).value, n, lasts).1) else Get(buffers, k)
  {
    GetWellFormed(buffers, name);
    var d := DrainedFor(Get(buffers, name).value, n, lasts);
    GetPut(buffers, name, d.1, k);
  }

  /** A request neither adds nor drops the name k. */
  lemma TakenKeepsName(buffers: seq<Entry<BufferState>>, name: Key, n: int, lasts: bool, k: Key)
    requires AllWellFormed(buffers) && name in KeySet(buffers)
    ensures k in KeySet(Taken(buffers, name, n, lasts).1) <==> k in KeySet(buffers)
  {
    TakenEffect(buffers, name, n, lasts, k);
  }

  /**
   * `metrics_last_values` from the request at hand on, given the map built so far and
   * the buffers as the earlier requests left them: each known name has its samples
   * taken and stored under it (a repeated name takes again and overwrites); an unknown
   * name clears the map and stops, and the samples taken before stay taken.
   */
  function LastValuesFrom(buffers: seq<Entry<BufferState>>, reqs: seq<(Key, int)>, acc: ValuesMap, lasts: bool)
    : (r: (ValuesMap, seq<Entry<BufferState>>))
    requires AllWellFormed(buffers) && Sorted(acc)
    ensures Sorted(r.0) && AllWellFormed(r.1)
    decreases |reqs|
  {
    if |reqs| == 0 then (acc, buffers)
    else if reqs[0].0 !in KeySet(buffers) then ([], buffers)
    else
      var t := Taken(buffers, reqs[0].0, reqs[0].1, lasts);
      LastValuesFrom(t.1, reqs[1..], Put(acc, reqs[0].0, t.0), lasts)
  }

  function LastValuesSpec(buffers: seq<Entry<BufferState>>, reqs: seq<(Key, int)>, lasts: bool): (r: (ValuesMap, seq<Entry<BufferState>>))
    requires AllWellFormed(buffers)
    ensures AllWellFormed(r.1)
  {
    LastValuesFrom(buffers, reqs, [], lasts)
  }

  /** The reads never add or drop a name: the map of buffers keeps its names. */
  lemma {:induction false} LastValuesKeepsNames(buffers: seq<Entry<BufferState>>, reqs: seq<(Key, int)>, acc: ValuesMap, lasts: bool)
    requires AllWellFormed(buffers) && Sorted(acc)
    ensures KeySet(LastValuesFrom(buffers, reqs, acc, lasts).1) == KeySet(buffers)
    decreases |reqs|
  {
    if |reqs| > 0 && reqs[0].0 in KeySet(buffers) {
      var t := Taken(buffers, reqs[0].0, reqs[0].1, lasts);
      TakenEffect(buffers, reqs[0].0, reqs[0].1, lasts, reqs[0].0);
      LastValuesKeepsNames(t.1, reqs[1..], Put(acc, reqs[0].0, t.0), lasts);
    }
  }

  /** Any unknown name among the requests makes `metrics_last_values` return an empty map. */
  lemma {:induction false} LastValuesAllOrNothing(buffers: seq<Entry<BufferState>>, reqs: seq<(Key, int)>, acc: ValuesMap, lasts: bool, i: nat)
    requires AllWellFormed(buffers) && Sorted(acc)
    requires i < |reqs| && reqs[i].0 !in KeySet(buffers)
    ensures LastValuesFrom(buffers, reqs, acc, lasts).0 == []
    decreases |reqs|, 1
  {
    if reqs[0].0 !in KeySet(buffers) {
      assert LastValuesFrom(buffers, reqs, acc, lasts) == ([], buffers);
    } else {
      AllOrNothingPastKnown(buffers, reqs, acc, lasts, i);
    }
  }

  /** The step of LastValuesAllOrNothing past a known first name. */
  lemma {:induction false} AllOrNothingPastKnown(buffers: seq<Entry<BufferState>>, reqs: seq<(Key, int)>, acc: ValuesMap, lasts: bool, i: nat)
    requires AllWellFormed(buffers) && Sorted(acc)
    requires 0 < i < |reqs| && reqs[i].0 !in KeySet(buffers) && reqs[0].0 in KeySet(buffers)
    ensures LastValuesFrom(buffers, reqs, acc, lasts).0 == []
    decreases |reqs|, 0
  {
    var t := Taken(buffers, reqs[0].0, reqs[0].1, lasts);
    var rest, acc' := reqs[1..], Put(acc, reqs[0].0, t.0);
    LastValuesFromStep(buffers, reqs, acc, lasts);
    assert rest[i - 1] == reqs[i];
    TakenKeepsName(buffers, reqs[0].0, reqs[0].1, lasts, reqs[i].0);
    LastValuesAllOrNothing(t.1, rest, acc', lasts, i - 1);
  }

  /** One known name: its samples are taken and the reads go on with the rest. */
  lemma LastValuesFromStep(buffers: seq<Entry<BufferState>>, reqs: seq<(Key, int)>, acc: ValuesMap, lasts: bool)
    requires AllWellFormed(buffers) && Sorted(acc) && 0 < |reqs| && reqs[0].0 in KeySet(buffers)
    ensures var t := Taken(buffers, reqs[0].0, reqs[0].1, lasts);
      LastValuesFrom(buffers, reqs, acc, lasts) == LastValuesFrom(t.1, reqs[1..], Put(acc, reqs[0].0, t.0), lasts)
  {
  }

  /**
   * At the first unknown name the reads stop, but they are not undone: the buffers are
   * left as the requests before it left them.
   */
  lemma {:induction false} LastValuesStopKeepsReads(buffers: seq<Entry<BufferState>>, reqs: seq<(Key, int)>, acc: ValuesMap, lasts: bool, i: nat)
    requires AllWellFormed(buffers) && Sorted(acc)
    requires i < |reqs| && reqs[i].0 !in KeySet(buffers)
    requires forall j :: 0 <= j < i ==> reqs[j].0 in KeySet(buffers)
    ensures LastValuesFrom(buffers, reqs, acc, lasts).1 == LastValuesFrom(buffers, reqs[..i], acc, lasts).1
    decreases |reqs|
  {
    if i > 0 {
      var pre := reqs[..i];
      assert pre[0] == reqs[0] && pre[1..] == reqs[1..][..i - 1];
      var t := Taken(buffers, reqs[0].0, reqs[0].1, lasts);
      TakenEffect(buffers, reqs[0].0, reqs[0].1, lasts, reqs[0].0);
      forall j | 0 <= j < i - 1
        ensures reqs[1..][j].0 in KeySet(t.1)
      {
        assert reqs[1..][j] == reqs[j + 1];
      }
      LastValuesStopKeepsReads(t.1, reqs[1..], Put(acc, reqs[0].0, t.0), lasts, i - 1);
    } else {
      assert reqs[..i] == [];
    }
  }

  /** The count of the first request naming k, if any request does. */
  function RequestFor(reqs: seq<(Key, int)>, k: Key): (r: Option<int>)
    decreases |reqs|
  {
    if |reqs| == 0 then None
    else if reqs[0].0 == k then Some(reqs[0].1)
    else RequestFor(reqs[1..], k)
  }

  /** No name is requested twice. */
  predicate DistinctNames(reqs: seq<(Key, int)>)
  {
    forall i, j :: 0 <= i < j < |reqs| ==> reqs[i].0 != reqs[j].0
  }

  /**
   * When every requested name is known and none repeats, each requested name maps to
   * the samples its request takes from its buffer as it was, and its buffer keeps the
   * rest; every other name keeps its buffer and its entry in the map.
   */
  lemma {:induction false} LastValuesDistinct(buffers: seq<Entry<BufferState>>, reqs: seq<(Key, int)>, acc: ValuesMap, lasts: bool, k: Key)
    requires AllWellFormed(buffers) && Sorted(acc) && DistinctNames(reqs)
    requires forall i :: 0 <= i < |reqs| ==> reqs[i].0 in KeySet(buffers)
    ensures var r := LastValuesFrom(buffers, reqs, acc, lasts);
      match RequestFor(reqs, k)
      case Some(n) =>
        k in KeySet(buffers) && WellFormed(Get(buffers, k).value) &&
        var d := DrainedFor(Get(buffers, k).value, n, lasts);
        Get(r.0, k) == Some(d.0) && Get(r.1, k) == Some(d.1)
      case None => Get(r.0, k) == Get(acc, k) && Get(r.1, k) == Get(buffers, k)
    decreases |reqs|
  {
    if |reqs| > 0 {
      var name := reqs[0].0;
      assert name in KeySet(buffers);
      var t := Taken(buffers, name, reqs[0].1, lasts);
      TakenEffect(buffers, name, reqs[0].1, lasts, k);
      var acc' := Put(acc, name, t.0);
      DistinctTail(reqs, t.1);
      LastValuesDistinct(t.1, reqs[1..], acc', lasts, k);
      GetPut(acc, name, t.0, k);
      GetWellFormed(buffers, k);
      if k == name {
        RequestForMissing(reqs[1..], k);
      }
    }
  }

  /** The requests after the first are still distinct, known, and do not name the first. */
  lemma DistinctTail(reqs: seq<(Key, int)>, buffers: seq<Entry<BufferState>>)
    requires |reqs| > 0 && DistinctNames(reqs)
    requires forall i :: 0 <= i < |reqs| ==> reqs[i].0 in KeySet(buffers)
    ensures DistinctNames(reqs[1..])
    ensures forall i :: 0 <= i < |reqs| - 1 ==> reqs[1..][i].0 in KeySet(buffers) && reqs[1..][i].0 != reqs[0].0
  {
    forall i | 0 <= i < |reqs| - 1
      ensures reqs[1..][i].0 in KeySet(buffers) && reqs[1..][i].0 != reqs[0].0
    {
      assert reqs[1..][i] == reqs[i + 1];
    }
    forall i, j | 0 <= i < j < |reqs| - 1
      ensures reqs[1..][i].0 != reqs[1..][j].0
    {
      assert reqs[1..][i] == reqs[i + 1] && reqs[1..][j] == reqs[j + 1];
    }
  }

  lemma {:induction false} RequestForMissing(reqs: seq<(Key, int)>, k: Key)
    requires forall i :: 0 <= i < |reqs| ==> reqs[i].0 != k
    ensures RequestFor(reqs, k) == None
    decreases |reqs|
  {
    if |reqs| > 0 {
      assert forall i :: 0 <= i < |reqs| - 1 ==> reqs[1..][i] == reqs[i + 1];
      RequestForMissing(reqs[1..], k);
    }
  }

  /** A buffer object: `MetricBuffer<T, U, type>` with its ring of owned elements. */
  class MetricBuffer {
    const mtype: MetricType
    const size: nat
    var sequence: nat
    const buffer: SpitzRing.Ring<Element>

    ghost predicate Valid()
      reads this, buffer, buffer.data
    {
      buffer.Valid() && buffer.capacity == size && WellFormed(State())
    }

    /** The buffer's state as the store sees it. */
    ghost function State(): BufferState
      reads this, buffer
    {
      BufferState(mtype, size, sequence, buffer.Contents)
    }

    /** `MetricBuffer(int size)`: an empty ring of that capacity, the sequence at 0. */
    constructor (t: MetricType, size: nat)
      requires 0 < size < 0x8000_0000
      ensures Valid() && fresh(buffer) && fresh(buffer.data)
      ensures State() == BufferState(t, size, 0, [])
    {
      mtype, this.size, sequence := t, size, 0;
      buffer := new SpitzRing.Ring(size);
    }

    /** `add_element(element)`: pushes a new element built with `sequence++`. */
    method AddElement(v: Value, now: Timespec)
      requires Valid() && TypeOf(v) == mtype
      modifies this, buffer, buffer.data
      ensures Valid()
      ensures State() == Added(old(State()), v, now)
    {
      ghost var before := State();
      var seqNo := if mtype == TypeBytes then 0 else sequence;
      var e := Element(v, now, seqNo);
      PushKeepsWellFormed(before, e);
      ghost var after := before.(sequence := before.sequence + 1, samples := Evicting(before.samples, size, e));
      assert Added(before, v, now) == after;
      buffer.Push(e);
      sequence := sequence + 1;
      assert State() == after;
    }

    /** `get_element`: pops the oldest element and hands it over; null on an empty buffer. */
    method GetElement() returns (r: Option<Element>)
      requires Valid()
      modifies buffer, buffer.data
      ensures Valid()
      ensures (r, State()) == TakeOldest(old(State()))
    {
      r := buffer.Pop();
    }

    /** `get_front_element`: pops the newest element and hands it over; null on an empty buffer. */
    method GetFrontElement() returns (r: Option<Element>)
      requires Valid()
      modifies buffer, buffer.data
      ensures Valid()
      ensures (r, State()) == TakeNewest(old(State()))
    {
      r := buffer.PopFront();
    }

    method Length() returns (n: nat)
      requires Valid()
      ensures n == |State().samples|
    {
      n := buffer.Length();
    }
  }

  /** The store: `default_size` and the name-to-buffer map. */
  class Metrics {
    const defaultSize: Int32
    var buffers: seq<Entry<BufferState>>

    ghost predicate Valid()
      reads this
    {
      AllWellFormed(buffers)
    }

    /** `Metrics(int size)`: no buffers yet. */
    constructor (size: Int32)
      ensures Valid() && defaultSize == size && buffers == []
    {
      defaultSize := size;
      buffers := [];
    }

    /** `metrics_list`: (name, capacity, type code) for every buffer, in sorted name order. */
    method MetricsList() returns (r: seq<(Key, int, int)>)
      requires Valid()
      ensures |r| == |buffers|
      ensures forall i :: 0 <= i < |r| ==>
        r[i] == (buffers[i].key, buffers[i].value.size, TypeCode(buffers[i].value.mtype))
      ensures forall i, j :: 0 <= i < j < |r| ==> Below(r[i].0, r[j].0)
    {
      r := [];
      for i := 0 to |buffers|
        invariant |r| == i
        invariant forall j :: 0 <= j < i ==>
          r[j] == (buffers[j].key, buffers[j].value.size, TypeCode(buffers[j].value.mtype))
      {
        var b := buffers[i].value;
        r := r + [(buffers[i].key, b.size, TypeCode(b.mtype))];
      }
    }

    /**
     * `metrics_last_values(list, lasts)`: for each (name, n) request in turn, the
     * clamped number of samples is popped out of that buffer into the result map; an
     * unknown name empties the map and stops the loop.
     */
    method MetricsLastValues(reqs: seq<(Key, int)>, lasts: bool) returns (r: ValuesMap)
      requires Valid()
      modifies this
      ensures Valid()
      ensures (r, buffers) == LastValuesSpec(old(buffers), reqs, lasts)
    {
      ghost var spec := LastValuesSpec(buffers, reqs, lasts);
      r := [];
      for i := 0 to |reqs|
        invariant Valid() && Sorted(r)
        invariant LastValuesFrom(buffers, reqs[i..], r, lasts) == spec
      {
        var name := reqs[i].0;
        var found := Get(buffers, name);
        if found.None? {
          return [];
        }
        assert reqs[i..][0] == reqs[i] && reqs[i..][1..] == reqs[i + 1..];
        GetWellFormed(buffers, name);
        var b := found.value;
        var elementBuffer, rest := Drain(b, Requested(b, reqs[i].1), lasts);
        assert (elementBuffer, Put(buffers, name, rest)) == Taken(buffers, name, reqs[i].1, lasts);
        buffers := Put(buffers, name, rest);
        r := Put(r, name, elementBuffer);
      }
      assert reqs[|reqs|..] == [];
    }

    /** `get_or_create_buffer`. */
    method GetOrCreateBuffer(name: Key, existsOk: bool, t: MetricType) returns (r: Result<BufferState, Error>)
      requires Valid()
      requires existsOk && name !in KeySet(buffers) ==> defaultSize != 0
      modifies this
      ensures Valid()
      ensures var g := GetOrCreate(old(buffers), defaultSize, name, existsOk, t);
        && (g.Ok? ==> buffers == g.value.0 && r == Ok(g.value.1))
        && (g.Err? ==> buffers == old(buffers) && r == Err(g.error))
    {
      var found := Get(buffers, name);
      if found.Some? {
        GetWellFormed(buffers, name);
        return Ok(found.value);
      }
      if !existsOk {
        return Err(RuntimeError);
      }
      var nb := NewBuffer(t, defaultSize);
      if nb.Err? {
        return Err(nb.error);
      }
      PutKeepsWellFormed(buffers, name, nb.value);
      buffers := Put(buffers, name, nb.value);
      r := Ok(nb.value);
    }

    /** `add_metric(name, value)` for an `int`, a `float` or an `unsigned char*` value. */
    method AddMetric(name: Key, v: Value, now: Timespec) returns (r: Result<(), Error>)
      requires Valid()
      requires name in KeySet(buffers) ==> Get(buffers, name).value.mtype == TypeOf(v)
      requires name !in KeySet(buffers) ==> defaultSize != 0
      modifies this
      ensures Valid()
      ensures var s := AddMetricSpec(old(buffers), defaultSize, name, v, now);
        && (s.Ok? ==> buffers == s.value && r == Ok(()))
        && (s.Err? ==> buffers == old(buffers) && r == Err(s.error))
    {
      ghost var before := buffers;
      var got := GetOrCreateBuffer(name, true, TypeOf(v));
      if got.Err? {
        return Err(got.error);
      }
      GetWellFormed(before, name);
      var b' := Added(got.value, v, now);
      PutKeepsWellFormed(buffers, name, b');
      buffers := Put(buffers, name, b');
      r := Ok(());
    }

    /** `get_metric(name)`. */
    method GetMetric(name: Key) returns (r: Result<(Option<Element>, int), Error>)
      requires Valid()
      modifies this
      ensures Valid()
      ensures var s := GetMetricSpec(old(buffers), name);
        && (s.Ok? ==> buffers == s.value.1 && r == Ok(s.value.0))
        && (s.Err? ==> buffers == old(buffers) && r == Err(s.error))
    {
      var got := GetOrCreateBuffer(name, false, TypeInt);
      if got.Err? {
        return Err(got.error);
      }
      var b := got.value;
      var taken := TakeOldest(b);
      PutKeepsWellFormed(buffers, name, taken.1);
      buffers := Put(buffers, name, taken.1);
      r := Ok((taken.0, TypeCode(b.mtype)));
    }
  }
}

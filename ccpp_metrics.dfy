/**
 * The store of spitz-include/ccpp/metrics.hpp (`spitz::metrics`): typed buffers over
 * `CcppRing.RingBuffer`s, kept in a name-ordered map and created with the store's
 * default size on first write; `set_metric`; the three exports, which serialise into
 * a byte stream; and the C wrappers over the global store pointer.
 *
 * The map holds each buffer's state by value, and `MetricBuffer` (the class) is
 * proved against the same state functions. Each export returns the bytes that its
 * `serial_stream` member holds. A C++ exception is an `Err`. The exports read the
 * rings through `peek_front` and `at` as written (`LastValueAsWritten`,
 * `HistoryOfBufferAsWritten`); `LastValue` and `HistoryOfBuffer` are the reads the
 * code intends, and lemmas say where the two agree and show where they part.
 */
module CcppMetrics {
  import opened Wrappers
  import opened Bytes
  import opened OrderedMap
  import opened RingSpec
  import opened CcppRing

  /** `metric_type`: codes 0 to 3 in this order. */
  datatype MetricType = TypeInt | TypeFloat | TypeByteArray | TypeDateTime

  datatype Timespec = Timespec(sec: i64, nsec: i64)

  /** An element's value: an `int64_t`, a `float` kept as its 4-byte bit pattern, or a `timespec`. */
  datatype Value = IntValue(i: i64) | FloatValue(floatBits: u32) | TimeValue(t: Timespec)

  function TypeOf(v: Value): MetricType
  {
    match v
    case IntValue(_) => TypeInt
    case FloatValue(_) => TypeFloat
    case TimeValue(_) => TypeDateTime
  }

  /**
   * A `BaseMetricElement`: the value, the time it was written and the number of the
   * write. The element keeps that number as `MetricBuffer::get_sequence_no` returns it,
   * cut to an `unsigned int` (`Stamp`), and that is what the exports write.
   */
  datatype Element = Element(value: Value, time: Timespec, seqNo: nat)

  /**
   * A `MetricBuffer`: its type, its size, its `sequence_no` (the number of writes, kept
   * here without the 64-bit wrap) and the elements its ring holds, oldest first.
   */
  datatype BufferState = BufferState(mtype: MetricType, size: u32, counter: nat, samples: seq<Element>)

  /** `MetricBuffer::get_sequence_no`: the counter returned as an `unsigned int`. */
  function Stamp(counter: nat): (s: u32)
    ensures counter < TWO_32 ==> s == counter
  {
    counter % TWO_32
  }

  /**
   * What every write keeps: the ring holds min(counter, size) elements, numbered by
   * the last stamps handed out, and in a buffer of a readable type all of them are of
   * that type.
   */
  ghost predicate Numbered(b: BufferState)
  {
    |b.samples| == (if b.counter < b.size then b.counter else b.size) &&
    forall i :: 0 <= i < |b.samples| ==>
      b.samples[i].seqNo == b.counter - |b.samples| + i &&
      (b.mtype != TypeByteArray ==> TypeOf(b.samples[i].value) == b.mtype)
  }

  /**
   * A buffer as the store keeps it between calls. One of a readable type is created only
   * by a write that goes on to push into it, so it is never empty.
   */
  ghost predicate WellFormed(b: BufferState)
  {
    Numbered(b) && (b.mtype != TypeByteArray ==> 0 < b.size && 0 < b.counter)
  }

  ghost predicate AllWellFormed(buffers: seq<Entry<BufferState>>)
  {
    Sorted(buffers) && forall i :: 0 <= i < |buffers| ==> WellFormed(buffers[i].value)
  }

  /** Names come from C strings, so none holds a NUL. */
  ghost predicate CNames(buffers: seq<Entry<BufferState>>)
  {
    forall k :: k in KeySet(buffers) ==> 0 !in k
  }

  lemma GetWellFormed(buffers: seq<Entry<BufferState>>, name: Key)
    requires AllWellFormed(buffers) && Get(buffers, name).Some?
    ensures WellFormed(Get(buffers, name).value)
  {
    var i :| 0 <= i < |buffers| && buffers[i] == Entry(name, Get(buffers, name).value);
  }

  /** The freshly created buffer that `create_buffer` puts under a name. */
  function NewBuffer(t: MetricType, size: u32): (b: BufferState)
    ensures Numbered(b) && b.samples == [] && b.counter == 0
    ensures t == TypeByteArray ==> WellFormed(b)
  {
    BufferState(t, size, 0, [])
  }

  /** `MetricBuffer::set_metric(e)`: the ring takes e, evicting its oldest element when full, and the counter moves on. */
  function Pushed(b: BufferState, e: Element): (r: BufferState)
    requires 0 < b.size && |b.samples| <= b.size
    ensures r.mtype == b.mtype && r.size == b.size && r.counter == b.counter + 1
    ensures r.samples == Newest(b.samples + [e], b.size)
  {
    b.(counter := b.counter + 1, samples := Evicting(b.samples, b.size, e))
  }

  /** A push leaves the pushed element newest. */
  lemma PushedNewest(b: BufferState, e: Element)
    requires 0 < b.size && |b.samples| <= b.size
    ensures var s := Pushed(b, e).samples; 0 < |s| && s[|s| - 1] == e
  {
    var s := b.samples + [e];
    assert s[|s| - 1] == e;
  }

  /** What `metrics::set_metric` pushes: the value, the time of the call and the buffer's stamp before the push. */
  function Appended(b: BufferState, v: Value, now: Timespec): (r: BufferState)
    requires Numbered(b) && 0 < b.size
    requires b.mtype != TypeByteArray ==> TypeOf(v) == b.mtype
    ensures WellFormed(r)
    ensures r == Pushed(b, Element(v, now, b.counter))
  {
    var e := Element(v, now, b.counter);
    PushKeepsNumbered(b, e);
    Pushed(b, e)
  }

  /** Pushing an element of the buffer's type, stamped with the counter, keeps the numbering. */
  lemma PushKeepsNumbered(b: BufferState, e: Element)
    requires Numbered(b) && 0 < b.size
    requires e.seqNo == b.counter
    requires b.mtype != TypeByteArray ==> TypeOf(e.value) == b.mtype
    ensures Numbered(Pushed(b, e))
  {
    var n := |b.samples|;
    var kept := Evicting(b.samples, b.size, e);
    var d := if n == b.size then 1 else 0;
    assert kept == b.samples[d..] + [e];
    assert |kept| == n + 1 - d;
    forall i | 0 <= i < |kept|
      ensures kept[i].seqNo == b.counter + 1 - |kept| + i
      ensures b.mtype != TypeByteArray ==> TypeOf(kept[i].value) == b.mtype
    {
      if i < |kept| - 1 {
        assert kept[i] == b.samples[d + i];
        assert b.counter + 1 - |kept| + i == b.counter - n + (d + i);
      }
    }
  }

  /**
   * What `set_metric`'s caller must ensure: the value matches the requested type, and the
   * ring it is pushed into has a size. An existing buffer must have the requested type
   * or be a byte-array buffer, since the source casts it unchecked to the requested
   * element type. A byte-array write pushes nothing.
   */
  predicate CanSet(buffers: seq<Entry<BufferState>>, defaultSize: u32, name: Key, t: MetricType, v: Value)
  {
    t != TypeByteArray ==>
      TypeOf(v) == t &&
      match Get(buffers, name)
      case None => 0 < defaultSize
      case Some(b) => 0 < b.size && (b.mtype == t || b.mtype == TypeByteArray)
  }

  /** The buffer `set_metric` writes to: the one under name, or the new one `create_buffer` makes. */
  function Target(buffers: seq<Entry<BufferState>>, defaultSize: u32, name: Key, t: MetricType): (b: BufferState)
    requires AllWellFormed(buffers)
    ensures Numbered(b)
    ensures name in KeySet(buffers) ==> WellFormed(b)
  {
    match Get(buffers, name)
    case Some(b) =>
      GetWellFormed(buffers, name);
      b
    case None => NewBuffer(t, defaultSize)
  }

  /** The map once `set_metric` has found or created the buffer: a missing name gets the new buffer. */
  function Created(buffers: seq<Entry<BufferState>>, defaultSize: u32, name: Key, t: MetricType): (bs: seq<Entry<BufferState>>)
    requires AllWellFormed(buffers)
    ensures OthersWellFormed(bs, name)
    ensures t == TypeByteArray ==> AllWellFormed(bs)
  {
    OthersOfAll(buffers, name);
    if name in KeySet(buffers) then buffers
    else
      var b := NewBuffer(t, defaultSize);
      PutKeepsOthers(buffers, name, b);
      if t == TypeByteArray then
        PutKeepsWellFormed(buffers, name, b);
        Put(buffers, name, b)
      else Put(buffers, name, b)
  }

  /** After the find-or-create step the name holds the target buffer and every other name is as it was. */
  lemma CreatedGet(buffers: seq<Entry<BufferState>>, defaultSize: u32, name: Key, t: MetricType, k: Key)
    requires AllWellFormed(buffers)
    ensures Get(Created(buffers, defaultSize, name, t), k) ==
      if k == name then Some(Target(buffers, defaultSize, name, t)) else Get(buffers, k)
  {
    if name !in KeySet(buffers) {
      GetPut(buffers, name, NewBuffer(t, defaultSize), k);
    }
  }

  /**
   * `set_metric(name, data, type)`: a missing name first gets a new buffer of the
   * default size and the requested type; a byte-array write then throws, and any
   * other pushes the value stamped with the buffer's counter.
   */
  function SetMetricSpec(buffers: seq<Entry<BufferState>>, defaultSize: u32, name: Key, t: MetricType, v: Value, now: Timespec)
    : (r: (Result<(), Error>, seq<Entry<BufferState>>))
    requires AllWellFormed(buffers) && CanSet(buffers, defaultSize, name, t, v)
    ensures AllWellFormed(r.1)
  {
    var created := Created(buffers, defaultSize, name, t);
    if t == TypeByteArray then (Err(RuntimeError), created)
    else
      var b' := Appended(Target(buffers, defaultSize, name, t), v, now);
      PutKeepsWellFormed(created, name, b');
      (Ok(()), Put(created, name, b'))
  }

  /** `set_metric` adds at most the name it writes, so a map of C-string names stays one. */
  lemma SetMetricKeepsNames(buffers: seq<Entry<BufferState>>, defaultSize: u32, name: Key, t: MetricType, v: Value, now: Timespec)
    requires AllWellFormed(buffers) && CanSet(buffers, defaultSize, name, t, v)
    requires CNames(buffers) && 0 !in name
    ensures CNames(SetMetricSpec(buffers, defaultSize, name, t, v, now).1)
  {
    var created := Created(buffers, defaultSize, name, t);
    if name !in KeySet(buffers) {
      assert created == Put(buffers, name, NewBuffer(t, defaultSize));
    }
    assert KeySet(created) == KeySet(buffers) + {name};
    var bs := SetMetricSpec(buffers, defaultSize, name, t, v, now).1;
    if t != TypeByteArray {
      assert bs == Put(created, name, Appended(Target(buffers, defaultSize, name, t), v, now));
    }
    assert KeySet(bs) == KeySet(buffers) + {name};
  }

  /** A sorted map in which every buffer except possibly the one under name is well formed. */
  ghost predicate OthersWellFormed(buffers: seq<Entry<BufferState>>, name: Key)
  {
    Sorted(buffers) && forall k :: k != name && Get(buffers, k).Some? ==> WellFormed(Get(buffers, k).value)
  }

  lemma OthersOfAll(buffers: seq<Entry<BufferState>>, name: Key)
    requires AllWellFormed(buffers)
    ensures OthersWellFormed(buffers, name)
  {
    forall k | k != name && Get(buffers, k).Some?
      ensures WellFormed(Get(buffers, k).value)
    {
      GetWellFormed(buffers, k);
    }
  }

  /** Whatever goes under name, the other buffers stay as they were. */
  lemma PutKeepsOthers(buffers: seq<Entry<BufferState>>, name: Key, b: BufferState)
    requires OthersWellFormed(buffers, name)
    ensures OthersWellFormed(Put(buffers, name, b), name)
  {
    forall k | k != name && Get(Put(buffers, name, b), k).Some?
      ensures WellFormed(Get(Put(buffers, name, b), k).value)
    {
      GetPut(buffers, name, b, k);
    }
  }

  /** Putting a well-formed buffer under name makes the whole map well formed. */
  lemma PutKeepsWellFormed(buffers: seq<Entry<BufferState>>, name: Key, b: BufferState)
    requires OthersWellFormed(buffers, name) && WellFormed(b)
    ensures AllWellFormed(Put(buffers, name, b))
  {
    var bs := Put(buffers, name, b);
    forall i | 0 <= i < |bs|
      ensures WellFormed(bs[i].value)
    {
      GetSorted(bs, i);
      GetPut(buffers, name, b, bs[i].key);
    }
  }

  /** `set_metric` throws exactly for a byte-array write, and leaves every buffer under another name as it was. */
  lemma SetMetricKeepsOthers(buffers: seq<Entry<BufferState>>, defaultSize: u32, name: Key, t: MetricType, v: Value, now: Timespec, k: Key)
    requires AllWellFormed(buffers) && CanSet(buffers, defaultSize, name, t, v) && k != name
    ensures SetMetricSpec(buffers, defaultSize, name, t, v, now).0.Err? <==> t == TypeByteArray
    ensures Get(SetMetricSpec(buffers, defaultSize, name, t, v, now).1, k) == Get(buffers, k)
  {
    CreatedGet(buffers, defaultSize, name, t, k);
    if t != TypeByteArray {
      GetPut(Created(buffers, defaultSize, name, t), name, Appended(Target(buffers, defaultSize, name, t), v, now), k);
    }
  }

  /**
   * A byte-array `set_metric` throws after the find-or-create step: a missing name is
   * left with a new empty buffer of the default size and the byte-array type, and an
   * existing one is untouched.
   */
  lemma SetByteArrayCreates(buffers: seq<Entry<BufferState>>, defaultSize: u32, name: Key, v: Value, now: Timespec)
    requires AllWellFormed(buffers)
    ensures var bs := SetMetricSpec(buffers, defaultSize, name, TypeByteArray, v, now).1;
      && (name in KeySet(buffers) ==> bs == buffers)
      && (name !in KeySet(buffers) ==> Get(bs, name) == Some(BufferState(TypeByteArray, defaultSize, 0, [])))
  {
    CreatedGet(buffers, defaultSize, name, TypeByteArray, name);
  }

  /**
   * Any other `set_metric` pushes onto the named buffer the value, numbered with the
   * buffer's counter before the push, dropping the oldest element if the buffer was
   * full; a missing name first gets a new buffer of the default size and the type.
   */
  lemma SetMetricAppends(buffers: seq<Entry<BufferState>>, defaultSize: u32, name: Key, t: MetricType, v: Value, now: Timespec)
    requires AllWellFormed(buffers) && CanSet(buffers, defaultSize, name, t, v) && t != TypeByteArray
    ensures var b := if name in KeySet(buffers) then Get(buffers, name).value else NewBuffer(t, defaultSize);
      0 < b.size && |b.samples| <= b.size &&
      Get(SetMetricSpec(buffers, defaultSize, name, t, v, now).1, name) == Some(Pushed(b, Element(v, now, b.counter)))
  {
    var b := Target(buffers, defaultSize, name, t);
    var b' := Appended(b, v, now);
    GetPut(Created(buffers, defaultSize, name, t), name, b', name);
  }

  const IntegerName: seq<byte> := Ascii("INTEGER_64")
  const FloatName: seq<byte> := Ascii("FLOAT")
  const DateName: seq<byte> := Ascii("DATE")
  const ByteArrayName: seq<byte> := Ascii("BYTE_ARRAY")

  /** `metric_type_name`: the type's name as the list export writes it. */
  function TypeName(t: MetricType): (r: seq<byte>)
    ensures 0 < |r| && 0 !in r
  {
    match t
    case TypeInt => IntegerName
    case TypeFloat => FloatName
    case TypeDateTime => DateName
    case TypeByteArray => ByteArrayName
  }

  /** One buffer in the list export: its name, its size as a `uint64_t` and its type's name, the strings NUL-terminated. */
  function ListRecord(e: Entry<BufferState>): seq<byte>
  {
    CStr(e.key) + U64(e.value.size) + CStr(TypeName(e.value.mtype))
  }

  /** `get_metrics_list`: the number of buffers as an `int64_t`, then each buffer in name order. */
  function ListExport(buffers: seq<Entry<BufferState>>): seq<byte>
  {
    I64(Int64Cast(|buffers|)) + Concat(buffers, ListRecord)
  }

  /** How the last-values export writes a value: an int as `int64_t`, a float as its 4 bytes, a time as seconds then nanoseconds. */
  function EncodeValue(v: Value): (r: seq<byte>)
    ensures |r| == match v case IntValue(_) => 8 case FloatValue(_) => 4 case TimeValue(_) => 16
  {
    Pow256Widths();
    match v
    case IntValue(i) => I64(i)
    case FloatValue(bits) => BigEndian(bits, 4)
    case TimeValue(t) => I64(t.sec) + I64(t.nsec)
  }

  /** One element in the last-values export: the value, the seconds, the nanoseconds and the sequence number. */
  function LastRecord(e: Element): seq<byte>
  {
    EncodeValue(e.value) + I64(e.time.sec) + I64(e.time.nsec) + I64(Stamp(e.seqNo))
  }

  /** One element in the history export: the value, the seconds and the nanoseconds. */
  function HistoryRecord(e: Element): seq<byte>
  {
    EncodeValue(e.value) + I64(e.time.sec) + I64(e.time.nsec)
  }

  /** The bytes `prefix` followed by the outcome of the rest, or the rest's error. */
  function Prefixed(prefix: seq<byte>, r: Result<seq<byte>, Error>): Result<seq<byte>, Error>
  {
    match r
    case Ok(rest) => Ok(prefix + rest)
    case Err(e) => Err(e)
  }

  lemma PrefixedNothing(r: Result<seq<byte>, Error>)
    ensures Prefixed([], r) == r
  {
    if r.Ok? {
      assert [] + r.value == r.value;
    }
  }

  /**
   * An export's loop over its requests: each request's bytes in turn, and the error of
   * the first request that throws.
   */
  function SerializeAll<X>(xs: seq<X>, f: X -> Result<seq<byte>, Error>): Result<seq<byte>, Error>
    decreases |xs|
  {
    if xs == [] then Ok([])
    else match f(xs[0])
      case Err(e) => Err(e)
      case Ok(block) => Prefixed(block, SerializeAll(xs[1..], f))
  }

  /** One turn of the export loop: request i's outcome r either ends the export or extends the bytes so far. */
  lemma SerializeAllStep<X>(xs: seq<X>, i: nat, f: X -> Result<seq<byte>, Error>, prefix: seq<byte>, r: Result<seq<byte>, Error>)
    requires i < |xs| && f(xs[i]) == r
    ensures r.Err? ==> Prefixed(prefix, SerializeAll(xs[i..], f)) == Err(r.error)
    ensures r.Ok? ==> Prefixed(prefix, SerializeAll(xs[i..], f)) == Prefixed(prefix + r.value, SerializeAll(xs[i + 1..], f))
  {
    assert xs[i..][0] == xs[i] && xs[i..][1..] == xs[i + 1..];
    if r.Ok? {
      match SerializeAll(xs[i + 1..], f)
      case Err(_) =>
      case Ok(rest) =>
        assert prefix + (r.value + rest) == (prefix + r.value) + rest;
    }
  }

  /** The end of the export loop: the bytes so far are the export. */
  lemma SerializeAllDone<X>(xs: seq<X>, f: X -> Result<seq<byte>, Error>, prefix: seq<byte>)
    ensures Prefixed(prefix, SerializeAll(xs[|xs|..], f)) == Ok(prefix)
  {
    assert xs[|xs|..] == [];
    assert prefix + [] == prefix;
  }

  /** The start of the export loop. */
  lemma SerializeAllStart<X>(xs: seq<X>, f: X -> Result<seq<byte>, Error>)
    ensures Prefixed([], SerializeAll(xs[0..], f)) == SerializeAll(xs, f)
  {
    assert xs[0..] == xs;
    PrefixedNothing(SerializeAll(xs, f));
  }

  /** When every request succeeds the export is the requests' bytes one after the other. */
  lemma {:induction false} SerializeAllSucceeds<X>(xs: seq<X>, f: X -> Result<seq<byte>, Error>, g: X -> seq<byte>)
    requires forall i :: 0 <= i < |xs| ==> f(xs[i]) == Ok(g(xs[i]))
    ensures SerializeAll(xs, f) == Ok(Concat(xs, g))
    decreases |xs|
  {
    if xs != [] {
      assert f(xs[0]) == Ok(g(xs[0]));
      SerializeAllSucceeds(xs[1..], f, g);
    }
  }

  /** The export fails with the error of the first request that fails. */
  lemma {:induction false} SerializeAllFails<X>(xs: seq<X>, f: X -> Result<seq<byte>, Error>, i: nat)
    requires i < |xs| && f(xs[i]).Err?
    requires forall j :: 0 <= j < i ==> f(xs[j]).Ok?
    ensures SerializeAll(xs, f) == Err(f(xs[i]).error)
    decreases i
  {
    if i > 0 {
      assert f(xs[0]).Ok?;
      assert xs[1..][i - 1] == xs[i];
      SerializeAllFails(xs[1..], f, i - 1);
    }
  }

  /**
   * The last-values bytes of one name: unknown names throw; a byte-array buffer has no
   * case in the switch and throws; otherwise the record of the newest element (read
   * from an empty ring, which the store never keeps, it would be outside the samples).
   */
  function LastValue(buffers: seq<Entry<BufferState>>, name: Key): Result<seq<byte>, Error>
  {
    match Get(buffers, name)
    case None => Err(RuntimeError)
    case Some(b) =>
      if b.mtype == TypeByteArray then Err(RuntimeError)
      else if b.samples == [] then Err(ReadOutsideSamples)
      else Ok(LastRecord(b.samples[|b.samples| - 1]))
  }

  function LastValueOf(buffers: seq<Entry<BufferState>>): Key -> Result<seq<byte>, Error>
  {
    name => LastValue(buffers, name)
  }

  /** `get_metrics_last_values(names)`. */
  function LastValuesExport(buffers: seq<Entry<BufferState>>, names: seq<Key>): Result<seq<byte>, Error>
  {
    SerializeAll(names, LastValueOf(buffers))
  }

  /** Whether the last-values export can read a name: it names a buffer that is not a byte array. */
  predicate Readable(buffers: seq<Entry<BufferState>>, name: Key)
  {
    Get(buffers, name).Some? && Get(buffers, name).value.mtype != TypeByteArray
  }

  /** The newest element of a readable buffer. */
  function NewestElement(buffers: seq<Entry<BufferState>>, name: Key): (e: Element)
    requires AllWellFormed(buffers) && Readable(buffers, name)
  {
    GetWellFormed(buffers, name);
    var s := Get(buffers, name).value.samples;
    s[|s| - 1]
  }

  lemma LastValueOfReadable(buffers: seq<Entry<BufferState>>, name: Key)
    requires AllWellFormed(buffers) && Readable(buffers, name)
    ensures LastValue(buffers, name) == Ok(LastRecord(NewestElement(buffers, name)))
  {
    GetWellFormed(buffers, name);
  }

  /** The record of a readable name's newest element, and nothing for any other name. */
  function NewestRecordOf(buffers: seq<Entry<BufferState>>): Key -> seq<byte>
  {
    name => match LastValue(buffers, name) case Ok(bs) => bs case Err(_) => []
  }

  /**
   * The last-values export succeeds exactly when every requested name is readable, and
   * then holds, in request order, the record of each name's newest element; otherwise
   * it throws a `runtime_error`.
   */
  lemma LastValuesOutcome(buffers: seq<Entry<BufferState>>, names: seq<Key>)
    requires AllWellFormed(buffers)
    ensures (forall i :: 0 <= i < |names| ==> Readable(buffers, names[i])) ==>
      LastValuesExport(buffers, names) == Ok(Concat(names, NewestRecordOf(buffers))) &&
      forall i :: 0 <= i < |names| ==> NewestRecordOf(buffers)(names[i]) == LastRecord(NewestElement(buffers, names[i]))
    ensures (exists i :: 0 <= i < |names| && !Readable(buffers, names[i])) ==>
      LastValuesExport(buffers, names) == Err(RuntimeError)
  {
    if forall i :: 0 <= i < |names| ==> Readable(buffers, names[i]) {
      LastValuesSucceed(buffers, names);
    } else {
      LastValuesFail(buffers, names);
    }
  }

  /** The success half of LastValuesOutcome. */
  lemma LastValuesSucceed(buffers: seq<Entry<BufferState>>, names: seq<Key>)
    requires AllWellFormed(buffers)
    requires forall i :: 0 <= i < |names| ==> Readable(buffers, names[i])
    ensures LastValuesExport(buffers, names) == Ok(Concat(names, NewestRecordOf(buffers)))
    ensures forall i :: 0 <= i < |names| ==> NewestRecordOf(buffers)(names[i]) == LastRecord(NewestElement(buffers, names[i]))
  {
    var f, g := LastValueOf(buffers), NewestRecordOf(buffers);
    forall i | 0 <= i < |names|
      ensures f(names[i]) == Ok(g(names[i])) && g(names[i]) == LastRecord(NewestElement(buffers, names[i]))
    {
      LastValueOfReadable(buffers, names[i]);
    }
    SerializeAllSucceeds(names, f, g);
  }

  /** The failure half of LastValuesOutcome: the first unreadable name throws. */
  lemma LastValuesFail(buffers: seq<Entry<BufferState>>, names: seq<Key>)
    requires AllWellFormed(buffers)
    requires exists i :: 0 <= i < |names| && !Readable(buffers, names[i])
    ensures LastValuesExport(buffers, names) == Err(RuntimeError)
  {
    var f := LastValueOf(buffers);
    FirstUnreadable(buffers, names);
    var i :| 0 <= i < |names| && !Readable(buffers, names[i]) &&
      (forall j :: 0 <= j < i ==> Readable(buffers, names[j]));
    forall j | 0 <= j < i
      ensures f(names[j]).Ok?
    {
      LastValueOfReadable(buffers, names[j]);
    }
    SerializeAllFails(names, f, i);
  }

  /** Some request is the first one that cannot be read. */
  lemma FirstUnreadable(buffers: seq<Entry<BufferState>>, names: seq<Key>)
    requires exists i :: 0 <= i < |names| && !Readable(buffers, names[i])
    ensures exists i :: 0 <= i < |names| && !Readable(buffers, names[i]) && (forall j :: 0 <= j < i ==> Readable(buffers, names[j]))
  {
    var i :| 0 <= i < |names| && !Readable(buffers, names[i]);
    var k := 0;
    while Readable(buffers, names[k])
      invariant 0 <= k <= i && forall j :: 0 <= j < k ==> Readable(buffers, names[j])
      decreases i - k
    {
      k := k + 1;
    }
  }

  /** A one-request export is that request's outcome. */
  lemma SerializeOne<X>(x: X, f: X -> Result<seq<byte>, Error>)
    ensures SerializeAll([x], f) == f(x)
  {
    assert [x][0] == x && [x][1..] == [];
    if f(x).Ok? {
      assert f(x).value + [] == f(x).value;
    }
  }

  /** After a write of v to a readable type, the buffer's newest element is v, stamped with the counter before the write. */
  lemma SetMetricNewest(buffers: seq<Entry<BufferState>>, defaultSize: u32, name: Key, t: MetricType, v: Value, now: Timespec)
    requires AllWellFormed(buffers) && CanSet(buffers, defaultSize, name, t, v) && t != TypeByteArray
    requires name in KeySet(buffers) ==> Get(buffers, name).value.mtype == t
    ensures var bs := SetMetricSpec(buffers, defaultSize, name, t, v, now).1;
      var counter := if name in KeySet(buffers) then Get(buffers, name).value.counter else 0;
      && Readable(bs, name)
      && NewestElement(bs, name) == Element(v, now, counter)
  {
    var b := if name in KeySet(buffers) then Get(buffers, name).value else NewBuffer(t, defaultSize);
    SetMetricAppends(buffers, defaultSize, name, t, v, now);
    PushedNewest(b, Element(v, now, b.counter));
  }

  /** After a write of v to a readable type, the last-values export of that name reports v, its time and its stamp. */
  lemma SetThenLastValue(buffers: seq<Entry<BufferState>>, defaultSize: u32, name: Key, t: MetricType, v: Value, now: Timespec)
    requires AllWellFormed(buffers) && CanSet(buffers, defaultSize, name, t, v) && t != TypeByteArray
    requires name in KeySet(buffers) ==> Get(buffers, name).value.mtype == t
    ensures var counter := if name in KeySet(buffers) then Get(buffers, name).value.counter else 0;
      LastValuesExport(SetMetricSpec(buffers, defaultSize, name, t, v, now).1, [name]) ==
        Ok(LastRecord(Element(v, now, counter)))
  {
    var bs := SetMetricSpec(buffers, defaultSize, name, t, v, now).1;
    SetMetricNewest(buffers, defaultSize, name, t, v, now);
    LastValueOfReadable(bs, name);
    SerializeOne(name, LastValueOf(bs));
  }

  /** The history export's clamp: a request for more elements than the buffer holds gets them all. */
  function HistoryCount(len: nat, n: Int32): (a: Int32)
    ensures n <= len ==> a == n
    ensures n > len ==> a == len
  {
    if len - n < 0 then len else n
  }

  /** The history block of a window: the first element's sequence number, the count, then each element. */
  function WindowBytes(w: seq<Element>, a: Int32): seq<byte>
    requires 0 < |w| == a
  {
    I64(Stamp(w[0].seqNo)) + I64(a) + Concat(w, HistoryRecord)
  }

  /**
   * The history block of a request for a <= 0 elements: no element is written, and the
   * header reads the ring at index length - a, cut to `unsigned int`, which lands on an
   * element only when it wraps onto one.
   */
  function HeaderOnly(b: BufferState, a: Int32): Result<seq<byte>, Error>
    requires a <= 0
  {
    var len := |b.samples|;
    if b.size == 0 then Err(ReadOutsideSamples)
    else
      var j := ((len - a) % TWO_32) % b.size;
      if j < len then Ok(I64(Stamp(b.samples[j].seqNo)) + I64(a))
      else Err(ReadOutsideSamples)
  }

  /**
   * The history bytes of a buffer for a request of n elements: a buffer not of type INT
   * throws; otherwise a = min(n, length), and for a > 0 the block of its a newest
   * elements, oldest first.
   */
  function HistoryOfBuffer(b: BufferState, n: Int32): Result<seq<byte>, Error>
  {
    if b.mtype != TypeInt then Err(RuntimeError)
    else
      var len := |b.samples|;
      var a := HistoryCount(len, n);
      if a > 0 then Ok(WindowBytes(b.samples[len - a..], a))
      else HeaderOnly(b, a)
  }

  /** The history bytes of one (name, n) request: unknown names throw. */
  function HistoryOf(buffers: seq<Entry<BufferState>>, req: (Key, Int32)): Result<seq<byte>, Error>
  {
    match Get(buffers, req.0)
    case None => Err(RuntimeError)
    case Some(b) => HistoryOfBuffer(b, req.1)
  }

  function HistoryOfAll(buffers: seq<Entry<BufferState>>): ((Key, Int32)) -> Result<seq<byte>, Error>
  {
    req => HistoryOf(buffers, req)
  }

  /** The requests the history export iterates over: each name with `history_sizes[i]`. */
  function Requests(names: seq<Key>, sizes: seq<Int32>): (reqs: seq<(Key, Int32)>)
    requires |sizes| >= |names|
    ensures |reqs| == |names|
  {
    seq(|names|, i requires 0 <= i < |names| => (names[i], sizes[i]))
  }

  /** `get_metrics_history(names, sizes)`. */
  function HistoryExport(buffers: seq<Entry<BufferState>>, names: seq<Key>, sizes: seq<Int32>): Result<seq<byte>, Error>
    requires |sizes| >= |names|
  {
    SerializeAll(Requests(names, sizes), HistoryOfAll(buffers))
  }

  /**
   * A positive history request of an INT buffer returns the min(n, length) newest
   * elements, oldest first, headed by the first one's sequence number and their count;
   * their sequence numbers are consecutive stamps ending at the last one handed out.
   * Unknown names and other types throw.
   */
  lemma HistoryWindow(buffers: seq<Entry<BufferState>>, name: Key, n: Int32)
    requires AllWellFormed(buffers) && 0 < n
    ensures HistoryOf(buffers, (name, n)).Err? <==>
      name !in KeySet(buffers) || Get(buffers, name).value.mtype != TypeInt
    ensures HistoryOf(buffers, (name, n)).Err? ==> HistoryOf(buffers, (name, n)).error == RuntimeError
    ensures HistoryOf(buffers, (name, n)).Ok? ==>
      var b := Get(buffers, name).value;
      var w := Newest(b.samples, n);
      && 0 < |w| == (if n < |b.samples| then n else |b.samples|)
      && HistoryOf(buffers, (name, n)).value == WindowBytes(w, |w|)
      && forall i :: 0 <= i < |w| ==> w[i].seqNo == b.counter - |w| + i
  {
    if Get(buffers, name).Some? {
      GetWellFormed(buffers, name);
      var b := Get(buffers, name).value;
      if b.mtype == TypeInt {
        BufferWindow(b, n);
      }
    }
  }

  /** HistoryWindow for one INT buffer. */
  lemma BufferWindow(b: BufferState, n: Int32)
    requires WellFormed(b) && b.mtype == TypeInt && 0 < n
    ensures var w := Newest(b.samples, n);
      && 0 < |w| == (if n < |b.samples| then n else |b.samples|)
      && HistoryOfBuffer(b, n) == Ok(WindowBytes(w, |w|))
      && forall i :: 0 <= i < |w| ==> w[i].seqNo == b.counter - |w| + i
  {
    var w := Newest(b.samples, n);
    var len := |b.samples|;
    var a := HistoryCount(len, n);
    assert 0 < a == |w| && w == b.samples[len - a..];
    assert HistoryOfBuffer(b, n) == Ok(WindowBytes(b.samples[len - a..], a));
    NewestNumbered(b, n);
  }

  /** The n newest elements of a buffer carry the n numbers handed out last, oldest first. */
  lemma NewestNumbered(b: BufferState, n: nat)
    requires Numbered(b)
    ensures var w := Newest(b.samples, n);
      forall i :: 0 <= i < |w| ==> w[i].seqNo == b.counter - |w| + i
  {
    var w := Newest(b.samples, n);
    forall i | 0 <= i < |w|
      ensures w[i].seqNo == b.counter - |w| + i
    {
      assert w[i] == b.samples[|b.samples| - |w| + i];
    }
  }

  /**
   * A history request for zero or fewer elements of a full INT buffer writes no element:
   * its header is the sequence number of the element the wrapped index lands on, and
   * the requested count itself.
   */
  lemma HistoryOfNothingWhenFull(b: BufferState, n: Int32)
    requires WellFormed(b) && b.mtype == TypeInt && |b.samples| == b.size && n <= 0
    ensures var j := ((b.size - n) % TWO_32) % b.size;
      HistoryOfBuffer(b, n) == Ok(I64(Stamp(b.samples[j].seqNo)) + I64(n))
  {
    assert HistoryCount(b.size, n) == n;
  }

  // The exports as the source runs them. `get_last_metric` and `get_metric` read a
  // ring through `peek_front` and `at` as written (`PeekFrontSlotAsWritten`,
  // `AtSlotAsWritten`). The store only ever pushes into a ring, from slot 0 on, so which
  // slot holds which element follows from the buffer's counter.

  /**
   * Where the head of a ring of the given size is after that many pushes from slot 0:
   * each `push` moves it on by one slot, modulo the size.
   */
  function HeadAfter(writes: nat, size: nat): (h: nat)
    requires 0 < size
    ensures h < size
  {
    if writes == 0 then 0 else Wrap(HeadAfter(writes - 1, size) + 1, size)
  }

  /** Before the ring first fills, the head is the number of writes. */
  lemma {:induction false} HeadAfterBelow(writes: nat, size: nat)
    requires writes < size
    ensures HeadAfter(writes, size) == writes
  {
    if writes > 0 {
      HeadAfterBelow(writes - 1, size);
    }
  }

  /** The head of a buffer's ring in the store. */
  function HeadOf(b: BufferState): (h: u32)
    requires 0 < b.size
    ensures h < b.size
  {
    HeadAfter(b.counter, b.size)
  }

  /**
   * What slot s of a buffer's ring holds. Until the ring first fills, slot i holds the
   * i-th element and the slots from the head on were never written (a null pointer,
   * `None`); once it is full, the oldest element is in the head slot and the others
   * follow it around the ring.
   */
  function SlotElement(b: BufferState, s: nat): Option<Element>
    requires 0 < b.size && s < b.size
  {
    var k := if b.counter < b.size then s else Wrap(s + b.size - HeadOf(b), b.size);
    if k < |b.samples| then Some(b.samples[k]) else None
  }

  /**
   * A write stores the element in the head slot, moves the head one slot on and leaves
   * every other slot as it was: what `push` does to the slot array.
   */
  lemma PushedWritesHead(b: BufferState, e: Element)
    requires Numbered(b) && 0 < b.size
    ensures HeadOf(Pushed(b, e)) == (HeadOf(b) + 1) % b.size
    ensures SlotElement(Pushed(b, e), HeadOf(b)) == Some(e)
    ensures forall s :: 0 <= s < b.size && s != HeadOf(b) ==> SlotElement(Pushed(b, e), s) == SlotElement(b, s)
  {
    var z, c, h := b.size, b.counter, HeadOf(b);
    ModIsWrap(h + 1, z);
    if c + 1 < z {
      HeadAfterBelow(c, z);
      assert Pushed(b, e).samples == b.samples + [e];
    } else if c + 1 == z {
      HeadAfterBelow(c, z);
      PushFillsRing(b, e);
    } else {
      PushFullRing(b, e);
    }
  }

  /** PushedWritesHead for the write that fills the ring: the head comes back to slot 0. */
  lemma PushFillsRing(b: BufferState, e: Element)
    requires Numbered(b) && 0 < b.size && b.counter + 1 == b.size && HeadOf(b) == b.counter
    ensures forall s :: 0 <= s < b.size ==>
      SlotElement(Pushed(b, e), s) == if s == HeadOf(b) then Some(e) else SlotElement(b, s)
  {
    var z: nat := b.size;
    var b' := Pushed(b, e);
    assert b'.samples == b.samples + [e];
    assert HeadOf(b') == 0;
    forall s | 0 <= s < z
      ensures SlotElement(b', s) == if s == b.counter then Some(e) else SlotElement(b, s)
    {
      assert Wrap(s + z - 0, z) == s;
    }
  }

  /** PushedWritesHead for a full ring: the oldest element, in the head slot, is overwritten. */
  lemma PushFullRing(b: BufferState, e: Element)
    requires Numbered(b) && 0 < b.size <= b.counter
    ensures forall s :: 0 <= s < b.size ==>
      SlotElement(Pushed(b, e), s) == if s == HeadOf(b) then Some(e) else SlotElement(b, s)
  {
    var z, h := b.size, HeadOf(b);
    var b' := Pushed(b, e);
    assert b'.samples == b.samples[1..] + [e];
    ModIsWrap(h + 1, z);
    assert HeadOf(b') == Wrap(h + 1, z);
    forall s | 0 <= s < z
      ensures SlotElement(b', s) == if s == h then Some(e) else SlotElement(b, s)
    {
    }
  }

  /** `get_last_metric` as written: the slot `peek_front` computes from the head. */
  function LastElementAsWritten(b: BufferState): Option<Element>
    requires 0 < b.size
  {
    SlotElement(b, PeekFrontSlotAsWritten(HeadOf(b), b.size))
  }

  /**
   * The last-values bytes of one name as the source computes them: unknown names and
   * byte-array buffers throw; otherwise the record of the element `get_last_metric`
   * returns. A read of a slot never written, or of a ring of size 0 (the store keeps
   * neither for a readable type), is outside the samples.
   */
  function LastValueAsWritten(buffers: seq<Entry<BufferState>>, name: Key): Result<seq<byte>, Error>
  {
    match Get(buffers, name)
    case None => Err(RuntimeError)
    case Some(b) =>
      if b.mtype == TypeByteArray then Err(RuntimeError)
      else if b.size == 0 then Err(ReadOutsideSamples)
      else match LastElementAsWritten(b)
        case None => Err(ReadOutsideSamples)
        case Some(e) => Ok(LastRecord(e))
  }

  function LastValueAsWrittenOf(buffers: seq<Entry<BufferState>>): Key -> Result<seq<byte>, Error>
  {
    name => LastValueAsWritten(buffers, name)
  }

  /** `get_metrics_last_values(names)` as the source computes it. */
  function LastValuesExportAsWritten(buffers: seq<Entry<BufferState>>, names: seq<Key>): Result<seq<byte>, Error>
  {
    SerializeAll(names, LastValueAsWrittenOf(buffers))
  }

  /** Whether a readable buffer's head has come back to slot 0, as it does at every size-th write. */
  predicate HeadAtZero(buffers: seq<Entry<BufferState>>, name: Key)
  {
    Readable(buffers, name) &&
    var b := Get(buffers, name).value;
    0 < b.size && HeadOf(b) == 0
  }

  /**
   * Unless its head is back at slot 0, `get_last_metric` as written returns a buffer's
   * newest element, so a name's last-values bytes are the intended ones.
   */
  lemma LastValueAsWrittenAwayFromZero(buffers: seq<Entry<BufferState>>, name: Key)
    requires AllWellFormed(buffers) && !HeadAtZero(buffers, name)
    ensures LastValueAsWritten(buffers, name) == LastValue(buffers, name)
  {
    if Readable(buffers, name) {
      GetWellFormed(buffers, name);
      LastElementAwayFromZero(Get(buffers, name).value);
    }
  }

  /** The buffer-level step of LastValueAsWrittenAwayFromZero: away from slot 0 the slot before the head holds the newest element. */
  lemma LastElementAwayFromZero(b: BufferState)
    requires WellFormed(b) && b.mtype != TypeByteArray && HeadOf(b) != 0
    ensures LastElementAsWritten(b) == Some(b.samples[|b.samples| - 1])
  {
    var h := HeadOf(b);
    PeekFrontAgreesAwayFromZero(h, b.size);
    if b.counter < b.size {
      HeadAfterBelow(b.counter, b.size);
    } else {
      assert Wrap(h - 1 + b.size - h, b.size) == b.size - 1;
    }
  }

  /**
   * At a head of 0 a readable buffer is full, and `get_last_metric` as written returns
   * the element (2^32 - 1) % size places after the oldest rather than the newest.
   */
  lemma LastValueAsWrittenAtZero(buffers: seq<Entry<BufferState>>, name: Key)
    requires AllWellFormed(buffers) && HeadAtZero(buffers, name)
    ensures var b := Get(buffers, name).value;
      && |b.samples| == b.size
      && LastValueAsWritten(buffers, name) == Ok(LastRecord(b.samples[(TWO_32 - 1) % b.size]))
  {
    GetWellFormed(buffers, name);
    var b := Get(buffers, name).value;
    if b.counter < b.size {
      HeadAfterBelow(b.counter, b.size);
    }
    var k := PeekFrontSlotAsWritten(0, b.size);
    assert (0 - 1) % TWO_32 == TWO_32 - 1;
    assert k == (TWO_32 - 1) % b.size;
    assert Wrap(k + b.size - 0, b.size) == k;
  }

  /** Two request functions that agree on every request give the same export. */
  lemma {:induction false} SerializeAllAgree<X>(xs: seq<X>, f: X -> Result<seq<byte>, Error>, g: X -> Result<seq<byte>, Error>)
    requires forall i :: 0 <= i < |xs| ==> f(xs[i]) == g(xs[i])
    ensures SerializeAll(xs, f) == SerializeAll(xs, g)
    decreases |xs|
  {
    if xs != [] {
      assert f(xs[0]) == g(xs[0]);
      forall i | 0 <= i < |xs[1..]|
        ensures f(xs[1..][i]) == g(xs[1..][i])
      {
        assert xs[1..][i] == xs[i + 1];
      }
      SerializeAllAgree(xs[1..], f, g);
    }
  }

  /**
   * When no requested buffer's head is back at slot 0, the last-values export as
   * written is the intended one: LastValuesOutcome describes it.
   */
  lemma LastValuesAsWrittenAgree(buffers: seq<Entry<BufferState>>, names: seq<Key>)
    requires AllWellFormed(buffers)
    requires forall i :: 0 <= i < |names| ==> !HeadAtZero(buffers, names[i])
    ensures LastValuesExportAsWritten(buffers, names) == LastValuesExport(buffers, names)
  {
    var f, g := LastValueAsWrittenOf(buffers), LastValueOf(buffers);
    forall i | 0 <= i < |names|
      ensures f(names[i]) == g(names[i])
    {
      LastValueAsWrittenAwayFromZero(buffers, names[i]);
    }
    SerializeAllAgree(names, f, g);
  }

  /**
   * The last-values export as written succeeds exactly when every requested name is
   * readable, and otherwise throws a `runtime_error`: the wrong slot it may read always
   * holds an element.
   */
  lemma LastValuesAsWrittenOutcome(buffers: seq<Entry<BufferState>>, names: seq<Key>)
    requires AllWellFormed(buffers)
    ensures LastValuesExportAsWritten(buffers, names).Ok? <==> forall i :: 0 <= i < |names| ==> Readable(buffers, names[i])
    ensures LastValuesExportAsWritten(buffers, names).Err? ==> LastValuesExportAsWritten(buffers, names).error == RuntimeError
  {
    var f := LastValueAsWrittenOf(buffers);
    if forall i :: 0 <= i < |names| ==> Readable(buffers, names[i]) {
      var g := name => match f(name) case Ok(bs) => bs case Err(_) => [];
      forall i | 0 <= i < |names|
        ensures f(names[i]) == Ok(g(names[i]))
      {
        if HeadAtZero(buffers, names[i]) {
          LastValueAsWrittenAtZero(buffers, names[i]);
        } else {
          LastValueAsWrittenAwayFromZero(buffers, names[i]);
          LastValueOfReadable(buffers, names[i]);
        }
      }
      SerializeAllSucceeds(names, f, g);
    } else {
      FirstUnreadable(buffers, names);
      var i :| 0 <= i < |names| && !Readable(buffers, names[i]) &&
        (forall j :: 0 <= j < i ==> Readable(buffers, names[j]));
      forall j | 0 <= j < i
        ensures f(names[j]).Ok?
      {
        if HeadAtZero(buffers, names[j]) {
          LastValueAsWrittenAtZero(buffers, names[j]);
        } else {
          LastValueAsWrittenAwayFromZero(buffers, names[j]);
          LastValueOfReadable(buffers, names[j]);
        }
      }
      SerializeAllFails(names, f, i);
    }
  }

  /**
   * After a write of v to a readable type, the last-values export as written reports v,
   * its time and its stamp, unless that write brought the buffer's head back to slot 0.
   */
  lemma SetThenLastValueAsWritten(buffers: seq<Entry<BufferState>>, defaultSize: u32, name: Key, t: MetricType, v: Value, now: Timespec)
    requires AllWellFormed(buffers) && CanSet(buffers, defaultSize, name, t, v) && t != TypeByteArray
    requires name in KeySet(buffers) ==> Get(buffers, name).value.mtype == t
    requires !HeadAtZero(SetMetricSpec(buffers, defaultSize, name, t, v, now).1, name)
    ensures var counter := if name in KeySet(buffers) then Get(buffers, name).value.counter else 0;
      LastValuesExportAsWritten(SetMetricSpec(buffers, defaultSize, name, t, v, now).1, [name]) ==
        Ok(LastRecord(Element(v, now, counter)))
  {
    var bs := SetMetricSpec(buffers, defaultSize, name, t, v, now).1;
    SetMetricNewest(buffers, defaultSize, name, t, v, now);
    LastValueOfReadable(bs, name);
    LastValueAsWrittenAwayFromZero(bs, name);
    SerializeOne(name, LastValueAsWrittenOf(bs));
  }

  /** A write into a ring that is not full appends the element stamped with the counter. */
  lemma AppendedBelowSize(b: BufferState, v: Value, now: Timespec)
    requires Numbered(b) && 0 < b.size && |b.samples| < b.size
    requires b.mtype != TypeByteArray ==> TypeOf(v) == b.mtype
    ensures Appended(b, v, now) == b.(counter := b.counter + 1, samples := b.samples + [Element(v, now, b.counter)])
  {
  }

  /** Three INT writes into a new buffer of size 3: a full ring, numbered 0 to 2. */
  function ThreeWrites(x0: i64, x1: i64, x2: i64, t0: Timespec, t1: Timespec, t2: Timespec): (b: BufferState)
    ensures b == BufferState(TypeInt, 3, 3, [Element(IntValue(x0), t0, 0), Element(IntValue(x1), t1, 1), Element(IntValue(x2), t2, 2)])
  {
    var b0 := NewBuffer(TypeInt, 3);
    AppendedBelowSize(b0, IntValue(x0), t0);
    var b1 := Appended(b0, IntValue(x0), t0);
    AppendedBelowSize(b1, IntValue(x1), t1);
    var b2 := Appended(b1, IntValue(x1), t1);
    AppendedBelowSize(b2, IntValue(x2), t2);
    Appended(b2, IntValue(x2), t2)
  }

  /**
   * Three INT writes into a new buffer of size 3 bring its head back to slot 0: the
   * last value as written is then the first write, where the newest is the third.
   */
  lemma ThreeWritesLastValueAsWritten(name: Key, x0: i64, x1: i64, x2: i64, t0: Timespec, t1: Timespec, t2: Timespec)
    ensures var bs := Put([], name, ThreeWrites(x0, x1, x2, t0, t1, t2));
      && LastValueAsWritten(bs, name) == Ok(LastRecord(Element(IntValue(x0), t0, 0)))
      && LastValue(bs, name) == Ok(LastRecord(Element(IntValue(x2), t2, 2)))
  {
    var b := ThreeWrites(x0, x1, x2, t0, t1, t2);
    GetPut([], name, b, name);
    ThreeWritesPeekFront(b);
  }

  /** In a full ring of three slots whose head is at 0, `peek_front` as written reads the oldest element. */
  lemma ThreeWritesPeekFront(b: BufferState)
    requires b.size == 3 && b.counter == 3 && |b.samples| == 3
    ensures LastElementAsWritten(b) == Some(b.samples[0])
  {
    assert HeadAfter(1, 3) == 1 && HeadAfter(2, 3) == 2 && HeadAfter(3, 3) == 0;
    assert (0 - 1) % TWO_32 == 0xffff_ffff;
    assert 0xffff_ffff == 3 * 0x5555_5555;
  }

  /** `get_metric(index)` as written: `at(index)`, counted from the head; `None` where it reads a slot never written. */
  function ElementAtAsWritten(b: BufferState, index: u32): Option<Element>
  {
    if b.size == 0 then None else SlotElement(b, AtSlotAsWritten(HeadOf(b), index, b.size))
  }

  /** The record the history loop writes for `get_metric(i)`, i cut to `unsigned int`; a null pointer is an error. */
  function HistoryReadAt(b: BufferState, i: int): Result<seq<byte>, Error>
  {
    match ElementAtAsWritten(b, i % TWO_32)
    case None => Err(ReadOutsideSamples)
    case Some(e) => Ok(HistoryRecord(e))
  }

  function HistoryReadAsWritten(b: BufferState): int -> Result<seq<byte>, Error>
  {
    i => HistoryReadAt(b, i)
  }

  /** The indices the history loop reads: length - a + j for each j from 0 below a. */
  function HistoryIndices(len: nat, a: Int32): (ix: seq<int>)
    ensures |ix| == if a > 0 then a else 0
  {
    seq(if a > 0 then a else 0, j => len - a + j)
  }

  lemma HistoryIndexAt(len: nat, a: Int32, j: nat)
    requires j < |HistoryIndices(len, a)|
    ensures HistoryIndices(len, a)[j] == len - a + j
  {
  }

  /**
   * The history bytes of a buffer as the source computes them: a buffer not of type INT
   * throws; otherwise a = min(n, length), the header reads `get_metric(length - a)` and
   * the loop `get_metric(length - a + j)` for each j below a, all through `at` as
   * written. A read of a slot never written is outside the samples.
   */
  function HistoryOfBufferAsWritten(b: BufferState, n: Int32): Result<seq<byte>, Error>
  {
    if b.mtype != TypeInt then Err(RuntimeError)
    else
      var len := |b.samples|;
      var a := HistoryCount(len, n);
      match ElementAtAsWritten(b, (len - a) % TWO_32)
      case None => Err(ReadOutsideSamples)
      case Some(first) =>
        Prefixed(I64(Stamp(first.seqNo)) + I64(a), SerializeAll(HistoryIndices(len, a), HistoryReadAsWritten(b)))
  }

  /** The history bytes of one (name, n) request as the source computes them: unknown names throw. */
  function HistoryOfAsWritten(buffers: seq<Entry<BufferState>>, req: (Key, Int32)): Result<seq<byte>, Error>
  {
    match Get(buffers, req.0)
    case None => Err(RuntimeError)
    case Some(b) => HistoryOfBufferAsWritten(b, req.1)
  }

  function HistoryOfAllAsWritten(buffers: seq<Entry<BufferState>>): ((Key, Int32)) -> Result<seq<byte>, Error>
  {
    req => HistoryOfAsWritten(buffers, req)
  }

  /** `get_metrics_history(names, sizes)` as the source computes it. */
  function HistoryExportAsWritten(buffers: seq<Entry<BufferState>>, names: seq<Key>, sizes: seq<Int32>): Result<seq<byte>, Error>
    requires |sizes| >= |names|
  {
    SerializeAll(Requests(names, sizes), HistoryOfAllAsWritten(buffers))
  }

  /** When every request succeeds with the bytes of the matching item, the export is those bytes in order. */
  lemma {:induction false} SerializeAllPointwise<X, Y>(xs: seq<X>, f: X -> Result<seq<byte>, Error>, ys: seq<Y>, g: Y -> seq<byte>)
    requires |xs| == |ys|
    requires forall i :: 0 <= i < |xs| ==> f(xs[i]) == Ok(g(ys[i]))
    ensures SerializeAll(xs, f) == Ok(Concat(ys, g))
    decreases |xs|
  {
    if xs != [] {
      assert f(xs[0]) == Ok(g(ys[0]));
      forall i | 0 <= i < |xs[1..]|
        ensures f(xs[1..][i]) == Ok(g(ys[1..][i]))
      {
        assert xs[1..][i] == xs[i + 1] && ys[1..][i] == ys[i + 1];
      }
      SerializeAllPointwise(xs[1..], f, ys[1..], g);
    }
  }

  /** On a full ring of at most 2^31 slots head and tail coincide, so `get_metric(i)` as written is the i-th oldest element. */
  lemma ElementAtAsWrittenWhenFull(b: BufferState, i: nat)
    requires Numbered(b) && 0 < b.size <= 0x8000_0000 && |b.samples| == b.size && i < b.size
    ensures ElementAtAsWritten(b, i) == Some(b.samples[i])
  {
    var h := HeadOf(b);
    ModIsWrap(h + i, b.size);
    var k := AtSlotAsWritten(h, i, b.size);
    assert (h + i) % TWO_32 == h + i;
    assert k == Wrap(h + i, b.size);
  }

  /**
   * On a full INT buffer of at most 2^31 slots, a positive history request as written
   * returns the intended window: BufferWindow describes it.
   */
  lemma HistoryAsWrittenWhenFull(b: BufferState, n: Int32)
    requires WellFormed(b) && |b.samples| == b.size <= 0x8000_0000 && 0 < n
    ensures HistoryOfBufferAsWritten(b, n) == HistoryOfBuffer(b, n)
  {
    if b.mtype == TypeInt {
      var len := |b.samples|;
      var a := HistoryCount(len, n);
      var w := b.samples[len - a..];
      assert 0 < a <= len && (len - a) % TWO_32 == len - a;
      ElementAtAsWrittenWhenFull(b, len - a);
      assert ElementAtAsWritten(b, (len - a) % TWO_32) == Some(w[0]);
      WindowReadsWhenFull(b, a);
      var header := I64(Stamp(w[0].seqNo)) + I64(a);
      assert HistoryOfBufferAsWritten(b, n) == Prefixed(header, Ok(Concat(w, HistoryRecord)));
    }
  }

  /** The loop of HistoryAsWrittenWhenFull: each `get_metric(length - a + j)` reads the intended element. */
  lemma WindowReadsWhenFull(b: BufferState, a: Int32)
    requires Numbered(b) && 0 < b.size <= 0x8000_0000 && |b.samples| == b.size && 0 < a <= b.size
    ensures SerializeAll(HistoryIndices(b.size, a), HistoryReadAsWritten(b)) == Ok(Concat(b.samples[b.size - a..], HistoryRecord))
  {
    var len := |b.samples|;
    var w := b.samples[len - a..];
    var ix := HistoryIndices(len, a);
    forall j | 0 <= j < |ix|
      ensures HistoryReadAsWritten(b)(ix[j]) == Ok(HistoryRecord(w[j]))
    {
      WindowReadAt(b, a, j);
      assert w[j] == b.samples[len - a + j];
    }
    SerializeAllPointwise(ix, HistoryReadAsWritten(b), w, HistoryRecord);
  }

  lemma WindowReadAt(b: BufferState, a: Int32, j: nat)
    requires Numbered(b) && 0 < b.size <= 0x8000_0000 && |b.samples| == b.size && 0 < a <= b.size && j < a
    ensures HistoryReadAt(b, HistoryIndices(b.size, a)[j]) == Ok(HistoryRecord(b.samples[b.size - a + j]))
  {
    var i := b.size - a + j;
    HistoryIndexAt(b.size, a, j);
    assert HistoryIndices(b.size, a)[j] == i;
    HistoryReadWhenFull(b, i);
  }

  lemma HistoryReadWhenFull(b: BufferState, i: int)
    requires Numbered(b) && 0 < b.size <= 0x8000_0000 && |b.samples| == b.size && 0 <= i < b.size
    ensures HistoryReadAt(b, i) == Ok(HistoryRecord(b.samples[i]))
  {
    assert i % TWO_32 == i;
    ElementAtAsWrittenWhenFull(b, i);
    assert ElementAtAsWritten(b, i % TWO_32) == Some(b.samples[i]);
  }

  /**
   * On an INT buffer that is not full, `get_metric(length - a)` as written reads the slot
   * length - a places after the head, so whenever 2 * length - a is short of the size a
   * positive history request reads a slot never written: the header's dereference of a
   * null pointer.
   */
  lemma HistoryAsWrittenPastNewest(b: BufferState, n: Int32)
    requires WellFormed(b) && b.mtype == TypeInt && |b.samples| < b.size && 0 < n
    requires 2 * |b.samples| - HistoryCount(|b.samples|, n) < b.size
    ensures HistoryOfBufferAsWritten(b, n) == Err(ReadOutsideSamples)
  {
    var len := |b.samples|;
    var a := HistoryCount(len, n);
    assert b.counter == len && 0 < a <= len;
    HeaderPastNewest(b, len, a);
  }

  /** The header read of HistoryAsWrittenPastNewest: slot 2 * length - a, past the newest element. */
  lemma HeaderPastNewest(b: BufferState, len: nat, a: Int32)
    requires Numbered(b) && len == |b.samples| < b.size && 0 < a <= len && 2 * len - a < b.size
    ensures ElementAtAsWritten(b, (len - a) % TWO_32) == None
  {
    HeadAfterBelow(b.counter, b.size);
    var i := len - a;
    assert i % TWO_32 == i;
    AtSlotWithinTurn(len, i, b.size);
    assert SlotElement(b, len + i) == None;
  }

  /**
   * One INT write into a new buffer of size 3 and a history request for 1 element: as
   * written the header reads slot 1, never written, where the intended block holds the
   * one write.
   */
  lemma OneWriteHistoryAsWritten(name: Key, x: i64, t: Timespec)
    ensures var bs := Put([], name, Appended(NewBuffer(TypeInt, 3), IntValue(x), t));
      && HistoryOfAsWritten(bs, (name, 1)) == Err(ReadOutsideSamples)
      && HistoryOf(bs, (name, 1)) == Ok(WindowBytes([Element(IntValue(x), t, 0)], 1))
  {
    var e := Element(IntValue(x), t, 0);
    var b := Appended(NewBuffer(TypeInt, 3), IntValue(x), t);
    assert b.samples == Evicting([], 3, e) == [e];
    GetPut([], name, b, name);
    HistoryAsWrittenPastNewest(b, 1);
    assert b.samples[1 - 1..] == [e];
  }

  /**
   * A history request for zero or fewer elements of a full INT buffer, as written, writes
   * no element: every slot holds one, so the header's read succeeds, and the block is
   * that element's stamp and the requested count itself.
   */
  lemma HistoryOfNothingAsWritten(b: BufferState, n: Int32)
    requires WellFormed(b) && b.mtype == TypeInt && |b.samples| == b.size && n <= 0
    ensures HistoryOfBufferAsWritten(b, n).Ok?
    ensures exists i :: 0 <= i < |b.samples| && HistoryOfBufferAsWritten(b, n).value == I64(Stamp(b.samples[i].seqNo)) + I64(n)
  {
    var len := |b.samples|;
    assert HistoryCount(len, n) == n;
    var s := AtSlotAsWritten(HeadOf(b), (len - n) % TWO_32, b.size);
    var k := Wrap(s + b.size - HeadOf(b), b.size);
    assert ElementAtAsWritten(b, (len - n) % TWO_32) == Some(b.samples[k]);
    assert HistoryIndices(len, n) == [];
    var header := I64(Stamp(b.samples[k].seqNo)) + I64(n);
    assert header + [] == header;
  }

  /**
   * `MetricBuffer<MetricElementType>` over its ring. The store keeps buffer states by
   * value; this class gives the same operations on a ring object.
   */
  class MetricBuffer {
    const mtype: MetricType
    const size: u32
    /** `sequence_no`, without its 64-bit wrap. */
    var sequenceNo: nat
    const buffer: RingBuffer<Element>

    ghost predicate Valid()
      reads this, buffer, buffer.slots
    {
      buffer.Valid() && buffer.bufferSize == size
    }

    ghost function State(): BufferState
      reads this, buffer
    {
      BufferState(mtype, size, sequenceNo, buffer.Contents)
    }

    /** `MetricBuffer(buffer_size, type)`: an empty ring of that size and a counter of 0; a size of 0 is excluded as for the ring. */
    constructor (bufferSize: u32, t: MetricType)
      requires bufferSize > 0
      ensures Valid() && fresh(buffer) && fresh(buffer.slots)
      ensures State() == NewBuffer(t, bufferSize)
    {
      mtype := t;
      size := bufferSize;
      sequenceNo := 0;
      buffer := new RingBuffer<Element>(bufferSize);
    }

    /** `set_metric(value)`: the ring takes the element and the counter moves on. */
    method SetMetric(e: Element)
      requires Valid()
      modifies this, buffer, buffer.slots
      ensures Valid() && buffer.slots == old(buffer.slots)
      ensures State() == Pushed(old(State()), e)
    {
      buffer.Push(e);
      sequenceNo := sequenceNo + 1;
    }

    /** `get_metric(index)`: `at(index)`, which is the index-th oldest element on a full ring. */
    method GetMetric(index: u32) returns (r: Option<Element>)
      requires Valid()
      ensures buffer.full && index < |State().samples| && buffer.head + index < TWO_32 ==> r == Some(State().samples[index])
      ensures !buffer.full && index + |State().samples| < size && buffer.head + index < TWO_32 ==>
        r == buffer.slots[SlotAt(buffer.tail, |State().samples| + index, size)]
    {
      r := buffer.At(index);
    }

    /** `get_last_metric`: `peek_front`, which is the newest element unless the head is at slot 0. */
    method GetLastMetric() returns (r: Option<Element>)
      requires Valid()
      ensures State().samples != [] && buffer.head != 0 ==> r == Some(State().samples[|State().samples| - 1])
      ensures buffer.full && buffer.head == 0 ==> r == Some(State().samples[PeekFrontSlotAsWritten(0, size)])
    {
      r := buffer.PeekFront();
    }

    /** `pop_metric`: the oldest element leaves the ring; an empty ring throws. The counter stays. */
    method PopMetric() returns (r: Result<Element, Error>)
      requires Valid()
      modifies buffer
      ensures Valid() && buffer.slots == old(buffer.slots) && sequenceNo == old(sequenceNo)
      ensures old(State()).samples == [] ==> r == Err(RuntimeError) && State().samples == []
      ensures old(State()).samples != [] ==>
        r == Ok(old(State()).samples[0]) && State().samples == old(State()).samples[1..]
    {
      r := buffer.Pop();
    }

    /** `clear`: the ring forgets its elements; the counter stays. */
    method Clear()
      requires Valid()
      modifies buffer
      ensures Valid() && State() == old(State()).(samples := [])
    {
      buffer.Clear();
    }

    method Capacity() returns (n: u32)
      ensures n == State().size
    {
      n := size;
    }

    method Length() returns (n: nat)
      requires Valid()
      ensures n == |State().samples| && n <= State().size
    {
      n := buffer.Length();
    }

    /** `get_sequence_no`: the number of writes, as an `unsigned int`. */
    method GetSequenceNo() returns (s: u32)
      ensures s == Stamp(State().counter)
    {
      s := Stamp(sequenceNo);
    }
  }

  /** `spitz::metrics`: the default size of new buffers and the name-to-buffer map. */
  class Metrics {
    const defaultSize: u32
    var buffers: seq<Entry<BufferState>>

    ghost predicate Valid()
      reads this
    {
      AllWellFormed(buffers) && CNames(buffers)
    }

    /** `metrics(size)`: no buffers yet. */
    constructor (size: u32)
      ensures Valid() && defaultSize == size && buffers == []
    {
      defaultSize := size;
      buffers := [];
    }

    /** `create_buffer(name, size, type)`: a new empty buffer goes under the name. */
    method CreateBuffer(name: Key, size: u32, t: MetricType)
      requires Sorted(buffers)
      modifies this
      ensures buffers == Put(old(buffers), name, NewBuffer(t, size))
    {
      buffers := Put(buffers, name, NewBuffer(t, size));
    }

    /** `set_metric(name, data, type)`, with `now` the clock's reading. */
    method SetMetric(name: Key, data: Value, t: MetricType, now: Timespec) returns (r: Result<(), Error>)
      requires Valid() && 0 !in name && CanSet(buffers, defaultSize, name, t, data)
      modifies this
      ensures Valid()
      ensures (r, buffers) == SetMetricSpec(old(buffers), defaultSize, name, t, data, now)
    {
      ghost var before := buffers;
      var found := Get(buffers, name);
      if found.None? {
        CreateBuffer(name, defaultSize, t);
      }
      assert buffers == Created(before, defaultSize, name, t);
      var b := if found.Some? then found.value else NewBuffer(t, defaultSize);
      assert b == Target(before, defaultSize, name, t);
      SetMetricKeepsNames(before, defaultSize, name, t, data, now);
      if t == TypeByteArray {
        return Err(RuntimeError);
      }
      buffers := Put(buffers, name, Appended(b, data, now));
      r := Ok(());
    }

    /** `get_metrics_list`. */
    method GetMetricsList() returns (stream: seq<byte>)
      ensures stream == ListExport(buffers)
    {
      stream := I64(Int64Cast(|buffers|));
      stream := AppendAll(stream, buffers, ListRecord);
    }

    /** `get_metrics_last_values(names)`: the element `get_last_metric` returns, for each name in turn. */
    method GetMetricsLastValues(names: seq<Key>) returns (r: Result<seq<byte>, Error>)
      requires Valid()
      ensures r == LastValuesExportAsWritten(buffers, names)
    {
      ghost var f := LastValueAsWrittenOf(buffers);
      var stream := [];
      SerializeAllStart(names, f);
      for i := 0 to |names|
        invariant Prefixed(stream, SerializeAll(names[i..], f)) == SerializeAll(names, f)
      {
        var block := LastValueBlock(names[i]);
        SerializeAllStep(names, i, f, stream, block);
        if block.Err? {
          return Err(block.error);
        }
        stream := stream + block.value;
      }
      SerializeAllDone(names, f, stream);
      r := Ok(stream);
    }

    /** One turn of the last-values loop: the buffer is found and, by its type, the element `peek_front` reads is written. */
    method LastValueBlock(name: Key) returns (r: Result<seq<byte>, Error>)
      requires Valid()
      ensures r == LastValueAsWritten(buffers, name)
    {
      var found := Get(buffers, name);
      if found.None? {
        return Err(RuntimeError);
      }
      var b := found.value;
      if b.mtype == TypeByteArray {
        return Err(RuntimeError);
      }
      GetWellFormed(buffers, name);
      var element := SlotElement(b, PeekFrontSlotAsWritten(HeadOf(b), b.size));
      if element.None? {
        return Err(ReadOutsideSamples);
      }
      r := Ok(LastRecord(element.value));
    }

    /** `get_metrics_history(names, sizes)`: for each name in turn, its newest `sizes[i]` elements. */
    method GetMetricsHistory(names: seq<Key>, sizes: seq<Int32>) returns (r: Result<seq<byte>, Error>)
      requires Valid() && |sizes| >= |names|
      ensures r == HistoryExportAsWritten(buffers, names, sizes)
    {
      ghost var f := HistoryOfAllAsWritten(buffers);
      ghost var reqs := Requests(names, sizes);
      var stream := [];
      SerializeAllStart(reqs, f);
      for i := 0 to |names|
        invariant Prefixed(stream, SerializeAll(reqs[i..], f)) == SerializeAll(reqs, f)
      {
        var block := HistoryBlock(names[i], sizes[i]);
        SerializeAllStep(reqs, i, f, stream, block);
        if block.Err? {
          return Err(block.error);
        }
        stream := stream + block.value;
      }
      SerializeAllDone(reqs, f, stream);
      r := Ok(stream);
    }

    /** One turn of the history loop: an unknown name throws, a known one gives its buffer's block. */
    method HistoryBlock(name: Key, n: Int32) returns (r: Result<seq<byte>, Error>)
      ensures r == HistoryOfAsWritten(buffers, (name, n))
    {
      var found := Get(buffers, name);
      if found.None? {
        return Err(RuntimeError);
      }
      r := BufferHistory(found.value, n);
    }
  }

  /**
   * The history block of one buffer: the header from `get_metric(length - a)`, then the
   * record of `get_metric(length - a + j)` for each j below a.
   */
  method BufferHistory(b: BufferState, n: Int32) returns (r: Result<seq<byte>, Error>)
    ensures r == HistoryOfBufferAsWritten(b, n)
  {
    if b.mtype != TypeInt {
      return Err(RuntimeError);
    }
    var len := |b.samples|;
    var a := HistoryCount(len, n);
    var first := ElementAtAsWritten(b, (len - a) % TWO_32);
    if first.None? {
      return Err(ReadOutsideSamples);
    }
    r := HistoryRecords(b, len, a, I64(Stamp(first.value.seqNo)) + I64(a));
  }

  /** The loop of `get_metrics_history` for one buffer: after the header, the record of each index it reads, stopping at the first read that fails. */
  method HistoryRecords(b: BufferState, len: nat, a: Int32, header: seq<byte>) returns (r: Result<seq<byte>, Error>)
    ensures r == Prefixed(header, SerializeAll(HistoryIndices(len, a), HistoryReadAsWritten(b)))
  {
    var stream := header;
    ghost var ix, f := HistoryIndices(len, a), HistoryReadAsWritten(b);
    assert ix[0..] == ix;
    var count := if a > 0 then a else 0;
    for j := 0 to count
      invariant Prefixed(stream, SerializeAll(ix[j..], f)) == Prefixed(header, SerializeAll(ix, f))
    {
      var block := HistoryReadAt(b, len - a + j);
      HistoryIndexAt(len, a, j);
      assert f(ix[j]) == block;
      SerializeAllStep(ix, j, f, stream, block);
      if block.Err? {
        return Err(block.error);
      }
      stream := stream + block.value;
    }
    SerializeAllDone(ix, f, stream);
    r := Ok(stream);
  }

  /** `spits_metric_new(buffer_size)`: the global store, created with the `int` size read as `unsigned int` when there is none. */
  method SpitsMetricNew(global: Metrics?, bufferSize: Int32) returns (m: Metrics)
    ensures global != null ==> m == global
    ensures global == null ==> fresh(m) && m.Valid() && m.defaultSize == bufferSize % TWO_32 && m.buffers == []
  {
    if global == null {
      m := new Metrics(bufferSize % TWO_32);
    } else {
      m := global;
    }
  }

  /** `spits_get_metrics_list`: NULL without a store. */
  method SpitsGetMetricsList(global: Metrics?) returns (r: Option<seq<byte>>)
    ensures global == null ==> r == None
    ensures global != null ==> r == Some(ListExport(global.buffers))
  {
    if global == null {
      return None;
    }
    var stream := global.GetMetricsList();
    r := Some(stream);
  }

  /** `spits_get_metrics_last_values(names)`: NULL without a store; what the store throws escapes. */
  method SpitsGetMetricsLastValues(global: Metrics?, names: seq<Key>) returns (r: Result<Option<seq<byte>>, Error>)
    requires global != null ==> global.Valid()
    ensures global == null ==> r == Ok(None)
    ensures global != null ==>
      r == match LastValuesExportAsWritten(global.buffers, names) case Ok(bs) => Ok(Some(bs)) case Err(e) => Err(e)
  {
    if global == null {
      return Ok(None);
    }
    var out := global.GetMetricsLastValues(names);
    r := match out case Ok(bs) => Ok(Some(bs)) case Err(e) => Err(e);
  }

  /** `spits_get_metrics_history(names, sizes)`: `sizes[i]` is read for every name. */
  method SpitsGetMetricsHistory(global: Metrics?, names: seq<Key>, sizes: seq<Int32>) returns (r: Result<Option<seq<byte>>, Error>)
    requires |sizes| >= |names|
    requires global != null ==> global.Valid()
    ensures global == null ==> r == Ok(None)
    ensures global != null ==>
      r == match HistoryExportAsWritten(global.buffers, names, sizes) case Ok(bs) => Ok(Some(bs)) case Err(e) => Err(e)
  {
    if global == null {
      return Ok(None);
    }
    var out := global.GetMetricsHistory(names, sizes);
    r := match out case Ok(bs) => Ok(Some(bs)) case Err(e) => Err(e);
  }

  /** `spits_set_metric(name, value)` and `spits_set_metric_int(name, value)`: an INT write, nothing without a store. */
  method SpitsSetMetric(global: Metrics?, name: Key, value: i64, now: Timespec)
    requires global != null ==> global.Valid() && 0 !in name
    requires global != null ==> CanSet(global.buffers, global.defaultSize, name, TypeInt, IntValue(value))
    modifies global
    ensures global != null ==> global.Valid()
    ensures global != null ==>
      global.buffers == SetMetricSpec(old(global.buffers), global.defaultSize, name, TypeInt, IntValue(value), now).1
  {
    if global != null {
      var _ := global.SetMetric(name, IntValue(value), TypeInt, now);
    }
  }
}

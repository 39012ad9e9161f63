/**
 * The `Metrics` class of API/include/utils.hpp: a map from a fixed set of registered
 * names to typed circular buffers, a writer `_set_metric` that checks the name and the
 * type and then returns before storing anything, and `serializate`, which writes each
 * requested buffer's size and samples to a stream.
 */
module LegacyMetrics {
  import opened Wrappers
  import opened Bytes
  import opened OrderedMap

  /** `metrics_type`. */
  datatype MetricType = TypeInt | TypeFloat | TypeByteArray | TypeDateTime

  /**
   * A sample's value: an `int64_t`, a `float` as its 4-byte bit pattern, a byte array
   * with its length, or a `struct timespec` kept as its raw bytes.
   */
  datatype Value = IntValue(i: i64) | FloatValue(bits: u32) | ByteArrayValue(bytes: seq<byte>) | DateTimeValue(raw: seq<byte>)

  function TypeOf(v: Value): MetricType
  {
    match v
    case IntValue(_) => TypeInt
    case FloatValue(_) => TypeFloat
    case ByteArrayValue(_) => TypeByteArray
    case DateTimeValue(_) => TypeDateTime
  }

  /** `buffer_element<Type>`: the value, the clock reading and the sequence number. */
  datatype Sample = Sample(value: Value, sec: i64, usec: i64, seqNo: u64)

  /** `metric_buffer_t` with its `CircularBuffer` held by value: the type, the capacity and the samples, oldest first. */
  datatype MetricBuffer = MetricBuffer(mtype: MetricType, capacity: u32, samples: seq<Sample>)

  /**
   * The `runtime_error`s: "Requested metric does not exists.", "Requested metric is
   * inserted with different types." and "Metric not recognized to Serialize".
   */
  datatype Error = MetricDoesNotExist | DifferentType | NotRecognized

  /** The registered names. */
  const CurrentTime: Key := Ascii("current_time")
  const StartTime: Key := Ascii("start_time")
  const TasksReceived: Key := Ascii("tasks_received")
  const TasksExecuted: Key := Ascii("tasks_executed")
  const ResultsSent: Key := Ascii("results_sent")
  const TotalStallingTime: Key := Ascii("total_stalling_time")
  const TotalExecutingTime: Key := Ascii("total_executing_time")
  const InitTime: Key := Ascii("init_time")
  const TasksGenerated: Key := Ascii("tasks_generated")
  const RunIterations: Key := Ascii("run_iterations")
  const TasksSent: Key := Ascii("tasks_sent")
  const TasksReplicated: Key := Ascii("tasks_replicated")
  const TasksCommited: Key := Ascii("tasks_commited")
  const ResultsReceived: Key := Ascii("results_received")
  const ResultsDiscarded: Key := Ascii("results_discarded")
  const TestI: Key := Ascii("test_i")
  const TestF: Key := Ascii("test_f")
  const TestDt: Key := Ascii("test_dt")
  const TestBa: Key := Ascii("test_ba")

  /** The names the constructor registers, in the order it registers them, with their types. */
  const Registry: seq<Entry<MetricType>> := [
    Entry(CurrentTime, TypeInt),
    Entry(StartTime, TypeInt),
    Entry(TasksReceived, TypeInt),
    Entry(TasksExecuted, TypeInt),
    Entry(ResultsSent, TypeInt),
    Entry(TotalStallingTime, TypeInt),
    Entry(TotalExecutingTime, TypeInt),
    Entry(InitTime, TypeInt),
    Entry(TasksGenerated, TypeInt),
    Entry(RunIterations, TypeInt),
    Entry(TasksSent, TypeInt),
    Entry(TasksReplicated, TypeInt),
    Entry(TasksCommited, TypeInt),
    Entry(ResultsReceived, TypeInt),
    Entry(ResultsDiscarded, TypeInt),
    Entry(TestI, TypeInt),
    Entry(TestF, TypeFloat),
    Entry(TestDt, TypeDateTime),
    Entry(TestBa, TypeByteArray)
  ]

  /** No name is registered twice. */
  ghost predicate Distinct(regs: seq<Entry<MetricType>>)
  {
    forall i, j :: 0 <= i < j < |regs| ==> regs[i].key != regs[j].key
  }

  /** The registered names alone, in the same order. */
  const RegisteredNames: seq<Key> := [
    CurrentTime, StartTime, TasksReceived, TasksExecuted, ResultsSent, TotalStallingTime,
    TotalExecutingTime, InitTime, TasksGenerated, RunIterations, TasksSent, TasksReplicated,
    TasksCommited, ResultsReceived, ResultsDiscarded, TestI, TestF, TestDt, TestBa
  ]

  /** Names of different lengths differ; for each pair of the same length, a position where they differ. */
  lemma NamesDistinct()
    ensures forall i, j :: 0 <= i < j < |RegisteredNames| ==> RegisteredNames[i] != RegisteredNames[j]
  {
    assert CurrentTime[0] != ResultsSent[0];
    assert StartTime[0] != TasksSent[0];
    assert TasksReceived[6] != TasksExecuted[6] && TasksReceived[6] != TasksCommited[6] && TasksExecuted[6] != TasksCommited[6];
    assert RunIterations[0] != TasksReceived[0];
    assert TasksReplicated[0] != ResultsReceived[0];
    assert TestI[5] != TestF[5];
    assert TestDt[5] != TestBa[5];
  }

  lemma RegistryDistinct()
    ensures Distinct(Registry)
  {
    assert |Registry| == |RegisteredNames|;
    assert forall i :: 0 <= i < |Registry| ==> Registry[i].key == RegisteredNames[i];
    NamesDistinct();
  }

  /** `metric_buffers[name] = ...` for each registration in turn: an empty buffer of capacity n and the registered type. */
  function RegisterFrom(es: seq<Entry<MetricBuffer>>, regs: seq<Entry<MetricType>>, n: u32): (r: seq<Entry<MetricBuffer>>)
    requires Sorted(es)
    ensures Sorted(r)
    decreases |regs|
  {
    if regs == [] then es
    else RegisterFrom(Put(es, regs[0].key, MetricBuffer(regs[0].value, n, [])), regs[1..], n)
  }

  /** Registering from position i is registering regs[i], then the rest. */
  lemma RegisterFromStep(es: seq<Entry<MetricBuffer>>, regs: seq<Entry<MetricType>>, i: nat, n: u32)
    requires Sorted(es) && i < |regs|
    ensures RegisterFrom(es, regs[i..], n) ==
      RegisterFrom(Put(es, regs[i].key, MetricBuffer(regs[i].value, n, [])), regs[i + 1..], n)
  {
    assert regs[i..][1..] == regs[i + 1..];
  }

  /** Nothing left to register. */
  lemma RegisterFromDone(es: seq<Entry<MetricBuffer>>, regs: seq<Entry<MetricType>>, n: u32)
    requires Sorted(es)
    ensures RegisterFrom(es, regs[|regs|..], n) == es
  {
    assert regs[|regs|..] == [];
  }

  /** The map as the constructor `Metrics(N)` leaves it. */
  function Registered(n: u32): seq<Entry<MetricBuffer>>
  {
    RegisterFrom([], Registry, n)
  }

  /** Registering names other than k leaves k's entry alone. */
  lemma {:induction false} RegisterFromOthers(es: seq<Entry<MetricBuffer>>, regs: seq<Entry<MetricType>>, n: u32, k: Key)
    requires Sorted(es)
    requires forall i :: 0 <= i < |regs| ==> regs[i].key != k
    ensures Get(RegisterFrom(es, regs, n), k) == Get(es, k)
    decreases |regs|
  {
    if regs != [] {
      var es' := Put(es, regs[0].key, MetricBuffer(regs[0].value, n, []));
      GetPut(es, regs[0].key, MetricBuffer(regs[0].value, n, []), k);
      RegisterFromOthers(es', regs[1..], n, k);
    }
  }

  /** Each registered name ends up with an empty buffer of capacity n and its registered type. */
  lemma {:induction false} RegisterFromListed(es: seq<Entry<MetricBuffer>>, regs: seq<Entry<MetricType>>, n: u32, i: nat)
    requires Sorted(es) && Distinct(regs) && i < |regs|
    ensures Get(RegisterFrom(es, regs, n), regs[i].key) == Some(MetricBuffer(regs[i].value, n, []))
    decreases |regs|
  {
    var b := MetricBuffer(regs[0].value, n, []);
    var es' := Put(es, regs[0].key, b);
    if i == 0 {
      RegisterFromOthers(es', regs[1..], n, regs[0].key);
      GetPut(es, regs[0].key, b, regs[0].key);
    } else {
      RegisterFromListed(es', regs[1..], n, i - 1);
    }
  }

  /** Registering distinct new names adds one entry per name. */
  lemma {:induction false} RegisterFromSize(es: seq<Entry<MetricBuffer>>, regs: seq<Entry<MetricType>>, n: u32)
    requires Sorted(es) && Distinct(regs)
    requires forall i :: 0 <= i < |regs| ==> regs[i].key !in KeySet(es)
    ensures |RegisterFrom(es, regs, n)| == |es| + |regs|
    decreases |regs|
  {
    if regs != [] {
      var es' := Put(es, regs[0].key, MetricBuffer(regs[0].value, n, []));
      forall i | 0 <= i < |regs[1..]|
        ensures regs[1..][i].key !in KeySet(es')
      {
        assert regs[1..][i].key == regs[i + 1].key;
      }
      RegisterFromSize(es', regs[1..], n);
    }
  }

  /** `Metrics(N)` registers exactly the listed names, one entry each, and gives each its listed type, capacity N and no samples. */
  lemma RegisteredContents(n: u32)
    ensures |Registered(n)| == |Registry|
    ensures forall k :: k in KeySet(Registered(n)) <==> k in KeySet(Registry)
    ensures forall i :: 0 <= i < |Registry| ==> Get(Registered(n), Registry[i].key) == Some(MetricBuffer(Registry[i].value, n, []))
  {
    RegistryDistinct();
    RegisterFromSize([], Registry, n);
    forall i | 0 <= i < |Registry|
      ensures Get(Registered(n), Registry[i].key) == Some(MetricBuffer(Registry[i].value, n, []))
    {
      RegisterFromListed([], Registry, n, i);
    }
    forall k | k in KeySet(Registered(n))
      ensures k in KeySet(Registry)
    {
      if k !in KeySet(Registry) {
        RegisterFromOthers([], Registry, n, k);
      }
    }
  }

  /** Every buffer of the registered map is empty and has capacity N. */
  lemma RegisteredUniform(n: u32, k: Key)
    requires k in KeySet(Registered(n))
    ensures Get(Registered(n), k).value.capacity == n && Get(Registered(n), k).value.samples == []
  {
    RegisteredContents(n);
    var i :| 0 <= i < |Registry| && Registry[i].key == k;
  }

  /** The keys of the registered map, in map order, are the registered names, each once, sorted. */
  lemma RegisteredListing(n: u32, names: seq<Key>)
    requires |names| == |Registered(n)|
    requires forall j :: 0 <= j < |names| ==> names[j] == Registered(n)[j].key
    ensures |names| == |Registry|
    ensures forall i, j :: 0 <= i < j < |names| ==> Below(names[i], names[j])
    ensures forall k :: k in names <==> k in KeySet(Registry)
  {
    var es := Registered(n);
    RegisteredContents(n);
    forall k | k in KeySet(es)
      ensures k in names
    {
      var j :| 0 <= j < |es| && es[j].key == k;
      assert names[j] == k;
    }
  }

  /** How `serializate` writes one sample: an `int64_t`, a `float`'s 4 bytes, a `std::string` of the array, or the raw `timespec`. */
  function EncodeSample(s: Sample): seq<byte>
  {
    Pow256Widths();
    match s.value
    case IntValue(x) => I64(x)
    case FloatValue(bits) => BigEndian(bits, 4)
    case ByteArrayValue(bytes) => CStr(bytes)
    case DateTimeValue(raw) => raw
  }

  /** One buffer's block: `(uint64_t) size()` of the `unsigned int` size, then each sample oldest first. */
  function Block(b: MetricBuffer): seq<byte>
  {
    U64(|b.samples| % TWO_32) + Concat(b.samples, EncodeSample)
  }

  /** A block starts with the number of samples, as a reader decodes it. */
  lemma BlockStartsWithSize(b: MetricBuffer)
    requires |b.samples| < TWO_32
    ensures Unsigned(Block(b)[..8]) == |b.samples|
  {
    var n := |b.samples| % TWO_32;
    assert n == |b.samples|;
    assert Block(b)[..8] == U64(n);
    UnsignedOfU64(n);
  }

  lemma UnsignedOfU64(x: u64)
    ensures Unsigned(U64(x)) == x
  {
    Pow256Widths();
    UnsignedOfBigEndian(x, 8);
  }

  /**
   * `serializate(stream, names)`: what it appends to the stream and whether it throws.
   * The blocks of the names before the first unknown one stay in the stream.
   */
  function Serialized(buffers: seq<Entry<MetricBuffer>>, names: seq<Key>): (seq<byte>, Result<(), Error>)
  {
    if names == [] then ([], Ok(()))
    else
      var p := Serialized(buffers, names[..|names| - 1]);
      if p.1.Err? then p
      else match Get(buffers, names[|names| - 1])
        case None => (p.0, Err(NotRecognized))
        case Some(b) => (p.0 + Block(b), Ok(()))
  }

  /** Once a name has thrown, the names after it add nothing. */
  lemma {:induction false} FailureSticks(buffers: seq<Entry<MetricBuffer>>, names: seq<Key>, i: nat)
    requires i <= |names| && Serialized(buffers, names[..i]).1.Err?
    ensures Serialized(buffers, names) == Serialized(buffers, names[..i])
    decreases |names| - i
  {
    if i < |names| {
      var front := names[..|names| - 1];
      assert front[..i] == names[..i];
      FailureSticks(buffers, front, i);
    } else {
      assert names[..i] == names;
    }
  }

  /** A known name appends its block to what the names before it wrote. */
  lemma SerializedKnownStep(buffers: seq<Entry<MetricBuffer>>, names: seq<Key>, i: nat, b: MetricBuffer)
    requires i < |names| && Get(buffers, names[i]) == Some(b)
    requires Serialized(buffers, names[..i]).1 == Ok(())
    ensures Serialized(buffers, names[..i + 1]) == (Serialized(buffers, names[..i]).0 + Block(b), Ok(()))
  {
    assert names[..i + 1][..i] == names[..i];
  }

  /** The first unknown name throws, and the stream keeps the blocks of the names before it. */
  lemma SerializedStopsAtUnknown(buffers: seq<Entry<MetricBuffer>>, names: seq<Key>, i: nat)
    requires i < |names| && names[i] !in KeySet(buffers)
    requires Serialized(buffers, names[..i]).1 == Ok(())
    ensures Serialized(buffers, names) == (Serialized(buffers, names[..i]).0, Err(NotRecognized))
  {
    assert names[..i + 1][..i] == names[..i];
    FailureSticks(buffers, names, i + 1);
  }

  /** Eight zero bytes per name. */
  function Zeros(n: nat): (r: seq<byte>)
    ensures |r| == n && forall j :: 0 <= j < n ==> r[j] == 0
  {
    seq(n, _ => 0)
  }

  /** A buffer with no samples writes a size of 0: eight zero bytes. */
  lemma BlockOfEmpty(b: MetricBuffer)
    requires b.samples == []
    ensures Block(b) == Zeros(8)
  {
    Pow256Widths();
    assert Concat(b.samples, EncodeSample) == [];
    assert BigEndian(0, 8) == Zeros(8);
  }

  /** On buffers holding no samples, every known name writes a size of 0 and nothing else, and nothing throws. */
  lemma {:induction false} SerializedEmptyBuffers(buffers: seq<Entry<MetricBuffer>>, names: seq<Key>)
    requires forall j :: 0 <= j < |names| ==> Get(buffers, names[j]).Some? && Get(buffers, names[j]).value.samples == []
    ensures Serialized(buffers, names) == (Zeros(8 * |names|), Ok(()))
  {
    if names != [] {
      var front := names[..|names| - 1];
      SerializedEmptyBuffers(buffers, front);
      var b := Get(buffers, names[|names| - 1]).value;
      BlockOfEmpty(b);
      assert Serialized(buffers, names) == (Zeros(8 * |front|) + Zeros(8), Ok(()));
      assert Zeros(8 * |front|) + Zeros(8) == Zeros(8 * |names|);
    }
  }

  /**
   * `Metrics`. `metric_buffers` holds the registered buffers by value. Since
   * `_set_metric` returns before its `switch`, no sample is ever stored and
   * `sequence_no` stays 0: the map is always the one the constructor built.
   */
  class Metrics {
    /** `default_size`. */
    const defaultSize: u32
    /** `metric_buffers`, in name order. */
    var buffers: seq<Entry<MetricBuffer>>
    /** `sequence_no`. */
    var sequenceNo: u64

    ghost predicate Valid()
      reads this
    {
      buffers == Registered(defaultSize) && sequenceNo == 0
    }

    /** `Metrics(N)`: one `metric_buffers[name] = ...` per registered name. */
    constructor (n: u32)
      ensures Valid() && defaultSize == n
    {
      defaultSize := n;
      sequenceNo := 0;
      var es: seq<Entry<MetricBuffer>> := [];
      for i := 0 to |Registry|
        invariant Sorted(es)
        invariant RegisterFrom(es, Registry[i..], n) == Registered(n)
      {
        RegisterFromStep(es, Registry, i, n);
        es := Put(es, Registry[i].key, MetricBuffer(Registry[i].value, n, []));
      }
      RegisterFromDone(es, Registry, n);
      buffers := es;
    }

    /** `get_metrics_list`: the registered names, each once, in sorted order. */
    method MetricsList() returns (names: seq<Key>)
      requires Valid()
      ensures |names| == |Registry|
      ensures forall i, j :: 0 <= i < j < |names| ==> Below(names[i], names[j])
      ensures forall k :: k in names <==> k in KeySet(Registry)
    {
      names := [];
      for i := 0 to |buffers|
        invariant |names| == i
        invariant forall j :: 0 <= j < i ==> names[j] == buffers[j].key
      {
        names := names + [buffers[i].key];
      }
      RegisteredListing(defaultSize, names);
    }

    /** `get_metric_size`: the default size, whatever the name; every registered buffer has that capacity. */
    method MetricSize(name: Key) returns (n: u32)
      requires Valid()
      ensures n == defaultSize
      ensures name in KeySet(buffers) ==> n == Get(buffers, name).value.capacity
    {
      if name in KeySet(buffers) {
        RegisteredUniform(defaultSize, name);
      }
      n := defaultSize;
    }

    /**
     * `_set_metric`: throws for an unknown name or one registered with another type;
     * otherwise returns before storing anything or moving `sequence_no`.
     */
    method SetMetric(name: Key, v: Value) returns (r: Result<(), Error>)
      requires Valid()
      ensures name !in KeySet(buffers) ==> r == Err(MetricDoesNotExist)
      ensures name in KeySet(buffers) && Get(buffers, name).value.mtype != TypeOf(v) ==> r == Err(DifferentType)
      ensures name in KeySet(buffers) && Get(buffers, name).value.mtype == TypeOf(v) ==> r == Ok(())
    {
      var found := Get(buffers, name);
      if found.None? {
        return Err(MetricDoesNotExist);
      }
      if found.value.mtype != TypeOf(v) {
        return Err(DifferentType);
      }
      return Ok(());
    }

    /** `set_metric_int`. */
    method SetMetricInt(name: Key, data: i64) returns (r: Result<(), Error>)
      requires Valid()
      ensures r.Ok? <==> name in KeySet(buffers) && Get(buffers, name).value.mtype == TypeInt
    {
      r := SetMetric(name, IntValue(data));
    }

    /** `set_metric_float`. */
    method SetMetricFloat(name: Key, bits: u32) returns (r: Result<(), Error>)
      requires Valid()
      ensures r.Ok? <==> name in KeySet(buffers) && Get(buffers, name).value.mtype == TypeFloat
    {
      r := SetMetric(name, FloatValue(bits));
    }

    /** `set_metric_datetime`. */
    method SetMetricDateTime(name: Key, raw: seq<byte>) returns (r: Result<(), Error>)
      requires Valid()
      ensures r.Ok? <==> name in KeySet(buffers) && Get(buffers, name).value.mtype == TypeDateTime
    {
      r := SetMetric(name, DateTimeValue(raw));
    }

    /** `set_metric_byte_array`: the array and its length. */
    method SetMetricByteArray(name: Key, data: seq<byte>) returns (r: Result<(), Error>)
      requires Valid()
      ensures r.Ok? <==> name in KeySet(buffers) && Get(buffers, name).value.mtype == TypeByteArray
    {
      r := SetMetric(name, ByteArrayValue(data));
    }

    /** The inner loop of `serializate`: the size, then each sample from `begin()` to `end()`. */
    method WriteBlock(stream: seq<byte>, b: MetricBuffer) returns (out: seq<byte>)
      ensures out == stream + Block(b)
    {
      out := stream + U64(|b.samples| % TWO_32);
      for j := 0 to |b.samples|
        invariant out == stream + U64(|b.samples| % TWO_32) + Concat(b.samples[..j], EncodeSample)
      {
        ConcatSnoc(b.samples, j, EncodeSample);
        out := out + EncodeSample(b.samples[j]);
      }
      assert b.samples[..|b.samples|] == b.samples;
    }

    /** `serializate(stream, names)`: each name's block in turn, throwing at the first unknown name. */
    method Serialize(stream: seq<byte>, names: seq<Key>) returns (out: seq<byte>, r: Result<(), Error>)
      ensures out == stream + Serialized(buffers, names).0 && r == Serialized(buffers, names).1
    {
      var es := buffers;
      out := stream;
      var i := 0;
      while i < |names|
        invariant i <= |names|
        invariant Serialized(es, names[..i]).1 == Ok(())
        invariant out == stream + Serialized(es, names[..i]).0
      {
        var found := Get(es, names[i]);
        if found.None? {
          SerializedStopsAtUnknown(es, names, i);
          return out, Err(NotRecognized);
        }
        SerializedKnownStep(es, names, i, found.value);
        AppendAssoc(stream, Serialized(es, names[..i]).0, Block(found.value));
        out := WriteBlock(out, found.value);
        i := i + 1;
      }
      assert names[..i] == names;
      r := Ok(());
    }

    /** `serializate(stream)`: every registered name, in map order; each writes a size of 0. */
    method SerializeAll(stream: seq<byte>) returns (out: seq<byte>, r: Result<(), Error>)
      requires Valid()
      ensures r == Ok(()) && out == stream + Zeros(8 * |Registry|)
    {
      var names := MetricsList();
      RegisteredContents(defaultSize);
      forall j | 0 <= j < |names|
        ensures Get(buffers, names[j]).Some? && Get(buffers, names[j]).value.samples == []
      {
        RegisteredUniform(defaultSize, names[j]);
      }
      SerializedEmptyBuffers(buffers, names);
      out, r := Serialize(stream, names);
    }
  }
}

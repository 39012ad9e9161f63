/**
 * The C exports of the store of API/include/metrics.hpp: the setters, the buffer count,
 * the list of buffers copied into a `buffer_infos` struct, and the history copied into
 * an array of `buffer_metrics` structs. A `const char*` argument is a `CString` (its
 * bytes up to the terminating NUL); an exception thrown through the C boundary is
 * the `Err` it carries.
 */
module ApiExports {
  import opened Wrappers
  import opened Bytes
  import opened OrderedMap
  import opened ApiMetrics

  /** The bytes of a `const char*` argument: no NUL, and short enough for a `std::string` value. */
  type CString = s: seq<byte> | 0 !in s && |s| < 0xffff_ffff

  /** What a reader of a name copied with `strcpy` into `length() + 1` bytes sees. */
  function CopiedName(k: Key): (r: seq<byte>)
    ensures r <= k && 0 !in r
    ensures 0 !in k ==> r == k
  {
    var r := UntilNul(CStr(k));
    assert 0 !in k ==> r == k by {
      if 0 !in k {
        assert CStr(k) + [] == CStr(k);
        UntilNulOfCStr(k, []);
      }
    }
    r
  }

  /** `spits_set_metric_int`. */
  method SpitsSetMetricInt(m: MetricManager, name: CString, value: Int32, now: TimePoint) returns (r: Result<(), Error>)
    requires m.Valid()
    modifies m
    ensures m.Valid() && m.defaultCapacity == old(m.defaultCapacity)
    ensures AddOutcome(AddMetricSpec(old(m.metricMap), m.defaultCapacity, name, IntValue(value), now), old(m.metricMap), m.metricMap, r)
  {
    r := m.AddMetric(name, IntValue(value), now);
  }

  /** `spits_set_metric_float`; the float is its bit pattern. */
  method SpitsSetMetricFloat(m: MetricManager, name: CString, floatBits: u32, now: TimePoint) returns (r: Result<(), Error>)
    requires m.Valid()
    modifies m
    ensures m.Valid() && m.defaultCapacity == old(m.defaultCapacity)
    ensures AddOutcome(AddMetricSpec(old(m.metricMap), m.defaultCapacity, name, FloatValue(floatBits), now), old(m.metricMap), m.metricMap, r)
  {
    r := m.AddMetric(name, FloatValue(floatBits), now);
  }

  /** `spits_set_metric_string`: the C string becomes a `std::string`. */
  method SpitsSetMetricString(m: MetricManager, name: CString, value: CString, now: TimePoint) returns (r: Result<(), Error>)
    requires m.Valid()
    modifies m
    ensures m.Valid() && m.defaultCapacity == old(m.defaultCapacity)
    ensures AddOutcome(AddMetricSpec(old(m.metricMap), m.defaultCapacity, name, StringValue(value), now), old(m.metricMap), m.metricMap, r)
  {
    r := m.AddMetric(name, StringValue(value), now);
  }

  /** `spits_set_metric_bytes`: its body is commented out, so it records nothing. */
  method SpitsSetMetricBytes(m: MetricManager, name: CString, value: seq<byte>, size: u32)
    requires m.Valid()
    ensures m.Valid() && m.metricMap == old(m.metricMap) && m.defaultCapacity == old(m.defaultCapacity)
  {
  }

  /** `spits_get_num_buffers`. */
  method SpitsGetNumBuffers(m: MetricManager) returns (n: u32)
    requires m.Valid()
    ensures n == |KeySet(m.metricMap)| % TWO_32
  {
    n := m.GetNumBuffers();
  }

  /** `struct buffer_info`: the copied name, the type and the capacity of one buffer. */
  datatype BufferInfo = BufferInfo(name: seq<byte>, dtype: DataType, capacity: u32)

  /** `struct buffer_infos`: the number of entries, as an `unsigned int`, and the entries. */
  datatype BufferInfos = BufferInfos(quantity: u32, infos: seq<BufferInfo>)

  /** The list entry of one buffer. */
  function InfoOf(e: Entry<BufferState>): BufferInfo
  {
    BufferInfo(CopiedName(e.key), e.value.dtype, e.value.capacity)
  }

  /** What `spits_get_metrics_list` builds: one entry per buffer, in the map's order. */
  function ListInfos(buffers: seq<Entry<BufferState>>): (r: BufferInfos)
    ensures |r.infos| == |buffers|
  {
    BufferInfos(|buffers| % TWO_32, seq(|buffers|, i requires 0 <= i < |buffers| => InfoOf(buffers[i])))
  }

  /** With NUL-free names, the i-th entry names the i-th buffer of the map. */
  lemma ListInfosNamesKeys(buffers: seq<Entry<BufferState>>)
    requires forall k :: k in KeySet(buffers) ==> 0 !in k
    ensures forall i :: 0 <= i < |buffers| ==> ListInfos(buffers).infos[i].name == buffers[i].key
  {
    forall i | 0 <= i < |buffers|
      ensures ListInfos(buffers).infos[i].name == buffers[i].key
    {
      assert buffers[i].key in KeySet(buffers);
    }
  }

  /**
   * The list reports as many buffers as `get_num_buffers`, and names every buffer
   * exactly once, in sorted name order.
   */
  lemma ListInfosNames(buffers: seq<Entry<BufferState>>)
    requires AllWellFormed(buffers)
    requires forall k :: k in KeySet(buffers) ==> 0 !in k
    ensures var r := ListInfos(buffers);
      && r.quantity == |KeySet(buffers)| % TWO_32
      && (forall i, j :: 0 <= i < j < |r.infos| ==> Below(r.infos[i].name, r.infos[j].name))
      && (forall k :: k in KeySet(buffers) <==> exists i :: 0 <= i < |r.infos| && r.infos[i].name == k)
  {
    KeySetSize(buffers);
    ListInfosNamesKeys(buffers);
    var r := ListInfos(buffers);
    forall k | k in KeySet(buffers)
      ensures exists i :: 0 <= i < |r.infos| && r.infos[i].name == k
    {
      var i :| 0 <= i < |buffers| && buffers[i].key == k;
      assert r.infos[i].name == k;
    }
  }

  /** Each entry of the list carries the type and capacity the store holds under its name. */
  lemma ListInfosAttributes(buffers: seq<Entry<BufferState>>)
    requires AllWellFormed(buffers)
    requires forall k :: k in KeySet(buffers) ==> 0 !in k
    ensures var r := ListInfos(buffers);
      forall i :: 0 <= i < |r.infos| ==>
        At(buffers, r.infos[i].name).Ok? &&
        At(buffers, r.infos[i].name).value.dtype == r.infos[i].dtype &&
        At(buffers, r.infos[i].name).value.capacity == r.infos[i].capacity
  {
    ListInfosNamesKeys(buffers);
    forall i | 0 <= i < |buffers|
      ensures At(buffers, buffers[i].key) == Ok(buffers[i].value)
    {
      GetSorted(buffers, i);
    }
  }

  /** The i-th key of the map is known, and `at` finds the i-th buffer under it. */
  lemma AtSorted(buffers: seq<Entry<BufferState>>, i: nat)
    requires AllWellFormed(buffers) && i < |buffers|
    ensures buffers[i].key in KeySet(buffers)
    ensures At(buffers, buffers[i].key) == Ok(buffers[i].value)
  {
    GetSorted(buffers, i);
  }

  /** `spits_get_metrics_list`: the names, then each buffer's type and capacity, into a new array. */
  method SpitsGetMetricsList(m: MetricManager) returns (r: BufferInfos)
    requires m.Valid()
    ensures r == ListInfos(m.metricMap)
  {
    var names := m.GetBufferNames();
    var infos := new BufferInfo[|names|];
    for i := 0 to |names|
      invariant forall j :: 0 <= j < i ==> infos[j] == InfoOf(m.metricMap[j])
    {
      AtSorted(m.metricMap, i);
      var t := m.GetBufferDtype(names[i]);
      var c := m.GetBufferCapacity(names[i]);
      infos[i] := BufferInfo(CopiedName(names[i]), t.value, c.value);
    }
    assert infos[..] == ListInfos(m.metricMap).infos;
    r := BufferInfos(|names| % TWO_32, infos[..]);
  }

  /** The payload of a `struct metric_info`: the union member the export writes. */
  datatype MetricData = IData(i: Int32) | FData(floatBits: u32) | CData(bytes: seq<byte>)

  /** `struct metric_info`: payload, payload size, seconds, nanoseconds, sequence number. */
  datatype MetricInfo = MetricInfo(data: MetricData, dataSize: u32, seconds: u64, nanoSeconds: u64, sequenceNo: u32)

  /** `struct buffer_metrics`: the copied name, the type code, the number of samples and the samples. */
  datatype BufferMetrics = BufferMetrics(name: seq<byte>, btype: u32, numMetrics: u32, metrics: seq<MetricInfo>)

  /**
   * `time_point_cast<seconds>`: the whole seconds of t, truncated toward zero, so the
   * nanoseconds left over are t's C remainder by 10^9.
   */
  function WholeSeconds(t: TimePoint): (q: i64)
    ensures q * NS_PER_SECOND + CRem(t, NS_PER_SECOND) == t
  {
    var m := Abs(t) / NS_PER_SECOND;
    assert m * NS_PER_SECOND + Abs(t) % NS_PER_SECOND == Abs(t);
    if t >= 0 then m else -m
  }

  /** `time_point_cast<seconds>(t).time_since_epoch().count()`, stored in an `unsigned long`. */
  function Seconds(t: TimePoint): u64
  {
    ToUnsigned64(WholeSeconds(t))
  }

  /** The nanoseconds of t past `time_point_cast<seconds>(t)`, stored in an `unsigned long`. */
  function NanoSeconds(t: TimePoint): u64
  {
    ToUnsigned64(t - WholeSeconds(t) * NS_PER_SECOND)
  }

  /**
   * Read back as signed 64-bit numbers, the seconds and nanoseconds recompose the time
   * point; the nanoseconds lie strictly within one second and share the sign of t, so
   * for a time after the epoch they are 0 .. 999999999.
   */
  lemma TimeSplit(t: TimePoint)
    ensures ToSigned64(Seconds(t)) * NS_PER_SECOND + ToSigned64(NanoSeconds(t)) == t
    ensures Abs(ToSigned64(NanoSeconds(t))) < NS_PER_SECOND
    ensures t >= 0 ==> Seconds(t) * NS_PER_SECOND + NanoSeconds(t) == t && NanoSeconds(t) < NS_PER_SECOND
    ensures t < 0 ==> ToSigned64(NanoSeconds(t)) <= 0
  {
    var q := WholeSeconds(t);
    SignedUnsignedInverse(q, 0);
    SignedUnsignedInverse(t - q * NS_PER_SECOND, 0);
  }

  /**
   * One sample as the history export copies it: an int or a float into the union with
   * size 4, a string `strcpy`d into `length() + 1` bytes, a byte vector `memcpy`d whole.
   */
  function MetricOf(e: Element): (r: MetricInfo)
  {
    var secs, nanos := Seconds(e.timestamp), NanoSeconds(e.timestamp);
    match e.value
    case IntValue(i) => MetricInfo(IData(i), 4, secs, nanos, e.sequence)
    case FloatValue(bits) => MetricInfo(FData(bits), 4, secs, nanos, e.sequence)
    case StringValue(cs) => MetricInfo(CData(CStr(UntilNul(cs))), |cs| + 1, secs, nanos, e.sequence)
    case BytesValue(bs) => MetricInfo(CData(bs), |bs|, secs, nanos, e.sequence)
  }

  /** How a reader of a `metric_info` of the given type gets the value back. */
  function ValueOf(info: MetricInfo, t: DataType): Option<Value>
  {
    match (t, info.data)
    case (TypeInt, IData(i)) => Some(IntValue(i))
    case (TypeFloat, FData(bits)) => Some(FloatValue(bits))
    case (TypeString, CData(cs)) => if |UntilNul(cs)| < 0xffff_ffff then Some(StringValue(UntilNul(cs))) else None
    case (TypeBytes, CData(bs)) => if |bs| <= 0xffff_ffff then Some(BytesValue(bs)) else None
    case _ => None
  }

  /**
   * Every sample survives the copy: read back with its buffer's type it gives the value
   * again (a string up to its first NUL), and the size field counts the copied payload
   * (a string's terminating NUL included).
   */
  lemma MetricOfRoundTrip(e: Element)
    ensures var info := MetricOf(e);
      && (e.value.StringValue? && 0 !in e.value.chars ==> ValueOf(info, TypeOf(e.value)) == Some(e.value))
      && (!e.value.StringValue? ==> ValueOf(info, TypeOf(e.value)) == Some(e.value))
      && (e.value.BytesValue? ==> info.dataSize == |info.data.bytes| == |e.value.bytes|)
      && (e.value.StringValue? && 0 !in e.value.chars ==> info.dataSize == |info.data.bytes| == |e.value.chars| + 1)
      && info.sequenceNo == e.sequence
  {
    match e.value
    case StringValue(cs) =>
      UntilNulOfCStr(UntilNul(cs), []);
      assert CStr(UntilNul(cs)) + [] == CStr(UntilNul(cs));
      if 0 !in cs {
        UntilNulOfCStr(cs, []);
        assert CStr(cs) + [] == CStr(cs);
        assert UntilNul(cs) == UntilNul(CStr(cs)) by { UntilNulPrefix(cs); }
      }
    case _ =>
  }

  /** A NUL-free sequence is its own C string contents. */
  lemma {:induction false} UntilNulPrefix(s: seq<byte>)
    requires 0 !in s
    ensures UntilNul(s) == s
  {
    if |s| > 0 {
      UntilNulPrefix(s[1..]);
    }
  }

  /** The copies of the given samples. */
  function MetricsOf(es: seq<Element>): (r: seq<MetricInfo>)
    ensures |r| == |es|
  {
    seq(|es|, j requires 0 <= j < |es| => MetricOf(es[j]))
  }

  /**
   * One entry of `spits_get_metrics_history`: `out_of_range` for an unknown name;
   * otherwise the copied name, the type and the min(size, sizes[i]) OLDEST samples.
   */
  function HistoryEntry(buffers: seq<Entry<BufferState>>, name: Key, size: u32): (r: Result<BufferMetrics, Error>)
    requires AllWellFormed(buffers)
    ensures r.Ok? <==> name in KeySet(buffers)
    ensures r.Err? ==> r.error == OutOfRange
  {
    match At(buffers, name)
    case Err(e) => Err(e)
    case Ok(b) =>
      var n: u32 := if |b.samples| <= size then |b.samples| else size;
      Ok(BufferMetrics(CopiedName(name), TypeCode(b.dtype), n, MetricsOf(b.samples[..n])))
  }

  /**
   * `spits_get_metrics_history`: `out_of_range` when some requested name has no buffer;
   * otherwise the entries of the names, in request order.
   */
  function History(buffers: seq<Entry<BufferState>>, names: seq<Key>, sizes: seq<u32>): (r: Result<seq<BufferMetrics>, Error>)
    requires AllWellFormed(buffers) && |sizes| == |names|
  {
    if forall i :: 0 <= i < |names| ==> names[i] in KeySet(buffers) then
      Ok(seq(|names|, i requires 0 <= i < |names| => HistoryEntry(buffers, names[i], sizes[i]).value))
    else Err(OutOfRange)
  }

  /**
   * The entry of a known name carries the name, the buffer's type code and, oldest
   * first, copies of the min(size, request) oldest samples of that buffer.
   */
  lemma HistoryEntryContents(buffers: seq<Entry<BufferState>>, name: Key, size: u32)
    requires AllWellFormed(buffers) && name in KeySet(buffers)
    ensures var h := HistoryEntry(buffers, name, size);
      var b := At(buffers, name).value;
      && h.Ok?
      && h.value.name == CopiedName(name) && h.value.btype == TypeCode(b.dtype)
      && h.value.numMetrics == Min(|b.samples|, size) && |h.value.metrics| == h.value.numMetrics
      && forall j :: 0 <= j < h.value.numMetrics ==> h.value.metrics[j] == MetricOf(b.samples[j])
  {
  }

  /**
   * `spits_get_metrics_history`: for each name in turn its size (which throws for an
   * unknown name), its type, and min(size, sizes[i]) samples copied out.
   */
  method SpitsGetMetricsHistory(m: MetricManager, names: seq<CString>, sizes: seq<u32>) returns (r: Result<seq<BufferMetrics>, Error>)
    requires m.Valid() && |sizes| == |names|
    ensures r == History(m.metricMap, names, sizes)
  {
    var buffers := new BufferMetrics[|names|];
    for i := 0 to |names|
      invariant forall j :: 0 <= j < i ==> HistoryEntry(m.metricMap, names[j], sizes[j]) == Ok(buffers[j])
    {
      var entry := CopyEntry(m, names[i], sizes[i]);
      if entry.Err? {
        assert !(forall j :: 0 <= j < |names| ==> names[j] in KeySet(m.metricMap));
        return Err(OutOfRange);
      }
      buffers[i] := entry.value;
    }
    assert buffers[..] == History(m.metricMap, names, sizes).value;
    r := Ok(buffers[..]);
  }

  /** One iteration of the export's loop: size, type, then the samples copied out. */
  method CopyEntry(m: MetricManager, name: CString, size: u32) returns (r: Result<BufferMetrics, Error>)
    requires m.Valid()
    ensures r == HistoryEntry(m.metricMap, name, size)
    ensures r.Err? ==> name !in KeySet(m.metricMap)
  {
    var bufferSize := m.GetBufferSize(name);
    if bufferSize.Err? {
      return Err(OutOfRange);
    }
    var dtype := m.GetBufferDtype(name);
    var n: u32 := if bufferSize.value <= size then bufferSize.value else size;
    var values := m.GetElements(name, n);
    var metrics := CopyMetrics(values.value);
    r := Ok(BufferMetrics(CopiedName(name), TypeCode(dtype.value), |values.value|, metrics));
  }

  /** The copy loop of one entry: each sample into a new `metric_info`. */
  method CopyMetrics(values: seq<Element>) returns (metrics: seq<MetricInfo>)
    ensures metrics == MetricsOf(values)
  {
    var a := new MetricInfo[|values|];
    for j := 0 to |values|
      invariant forall l :: 0 <= l < j ==> a[l] == MetricOf(values[l])
    {
      a[j] := MetricOf(values[j]);
    }
    metrics := a[..];
  }
}

/**
 * The C wrapper of spitz-include/ccpp/spitz/metrics.hpp over the global `spits_metrics`
 * store: the writes, which do nothing without a store, and the three exports, which
 * serialise into a byte buffer or give NULL (`None`). The `NULL`-terminated
 * `const char**` name array is a sequence of names and the optional `int*` sizes array
 * a sequence of counts. The last-values and history exports read destructively: the
 * samples they take leave their buffers even when the export then gives NULL.
 */
module SpitzExports {
  import opened Wrappers
  import opened Bytes
  import opened OrderedMap
  import opened SpitzMetrics

  /**
   * How a sample's value is written: an `int` as a sign-extended `int64_t`, a `float`
   * as its 4-byte bit pattern, a byte string as a `std::string`, NUL-terminated.
   */
  function EncodeValue(v: Value): (r: seq<byte>)
    ensures v.IntValue? ==> |r| == 8
    ensures v.FloatValue? ==> |r| == 4
    ensures v.BytesValue? ==> |r| == |v.chars| + 1 && UntilNul(r) == v.chars
  {
    Pow256Widths();
    match v
    case IntValue(i) => I64(i)
    case FloatValue(bits) => BigEndian(bits, 4)
    case BytesValue(chars) =>
      UntilNulOfCStr(chars, []);
      assert CStr(chars) + [] == CStr(chars);
      CStr(chars)
  }

  /** `(int64_t) element->seq_no`: the number as the element's `unsigned int` keeps it. */
  function SeqNo32(e: Element): (s: u32)
    ensures e.seqNo < TWO_32 ==> s == e.seqNo
  {
    e.seqNo % TWO_32
  }

  /** One sample of the last-values export: value, seconds, nanoseconds, sequence number. */
  function LastRecord(e: Element): seq<byte>
  {
    EncodeValue(e.value) + I64(e.time.sec) + I64(e.time.nsec) + I64(SeqNo32(e))
  }

  /** One sample of the history export: value, seconds, nanoseconds. */
  function HistoryRecord(e: Element): seq<byte>
  {
    EncodeValue(e.value) + I64(e.time.sec) + I64(e.time.nsec)
  }

  function RecordOf(history: bool): Element -> seq<byte>
  {
    if history then HistoryRecord else LastRecord
  }

  /**
   * What one requested name contributes: the records of the samples taken from it,
   * headed in the history export by the first sample's sequence number and the number
   * of samples.
   */
  function Block(es: seq<Element>, history: bool): seq<byte>
    requires es != []
  {
    if history then I64(SeqNo32(es[0])) + I64(Int64Cast(|es|)) + Concat(es, HistoryRecord)
    else Concat(es, LastRecord)
  }

  /** `metrics_map[name]`: the vector stored under the name, or a new empty one. */
  function Entries(m: ValuesMap, k: Key): seq<Element>
  {
    match Get(m, k)
    case Some(es) => es
    case None => []
  }

  /** The vectors a map holds for the requested names, in request order. */
  function Vectors(m: ValuesMap, names: seq<Key>): (vs: seq<seq<Element>>)
    ensures |vs| == |names|
  {
    seq(|names|, i requires 0 <= i < |names| => Entries(m, names[i]))
  }

  /**
   * The serialising loop of an export over the requested names' vectors: each one's
   * block in turn, and NULL as soon as a vector is empty.
   */
  function Body(vs: seq<seq<Element>>, history: bool): Option<seq<byte>>
  {
    if vs == [] then Some([])
    else match Body(vs[..|vs| - 1], history)
      case None => None
      case Some(prefix) =>
        var es := vs[|vs| - 1];
        if es == [] then None else Some(prefix + Block(es, history))
  }

  /** The request list `_spits_metrics_last_values` builds: each name with `sizes[i]`, or 1 when sizes is NULL. */
  function Requests(names: seq<Key>, sizes: Option<seq<Int32>>): (reqs: seq<(Key, int)>)
    requires sizes.Some? ==> |sizes.value| >= |names|
    ensures |reqs| == |names|
    ensures forall i :: 0 <= i < |names| ==> reqs[i].0 == names[i]
    ensures sizes.None? ==> forall i :: 0 <= i < |names| ==> reqs[i].1 == 1
  {
    seq(|names|, i requires 0 <= i < |names| => (names[i], if sizes.Some? then sizes.value[i] as int else 1))
  }

  /**
   * `spits_get_metrics_last_values` (history false, sizes NULL, newest samples first)
   * and `spits_get_metrics_history` (history true, oldest samples first): the output,
   * NULL when `metrics_last_values` gives an empty map, and the buffers as the reads
   * left them.
   */
  function Export(buffers: seq<Entry<BufferState>>, names: seq<Key>, sizes: Option<seq<Int32>>, history: bool)
    : (r: (Option<seq<byte>>, seq<Entry<BufferState>>))
    requires AllWellFormed(buffers)
    requires sizes.Some? ==> |sizes.value| >= |names|
    ensures AllWellFormed(r.1)
  {
    var m := LastValuesSpec(buffers, Requests(names, sizes), !history);
    (if m.0 == [] then None else Body(Vectors(m.0, names), history), m.1)
  }

  /** `spits_metrics_new(buffer_size)`: the old store is deleted and a new, empty one takes its place. */
  method SpitsMetricsNew(bufferSize: Int32) returns (m: Metrics)
    ensures fresh(m) && m.Valid() && m.defaultSize == bufferSize && m.buffers == []
  {
    m := new Metrics(bufferSize);
  }

  /** What a write needs: a store whose existing buffer has the value's type, or a non-zero default size for a new one. */
  ghost predicate CanAdd(global: Metrics?, name: Key, v: Value)
    reads global
  {
    global != null ==>
      global.Valid() &&
      (name in KeySet(global.buffers) ==> Get(global.buffers, name).value.mtype == TypeOf(v)) &&
      (name !in KeySet(global.buffers) ==> global.defaultSize != 0)
  }

  /** The three `spits_set_metric_*` wrappers: `add_metric` on the store, nothing without one. */
  method SetMetric(global: Metrics?, name: Key, v: Value, now: Timespec) returns (r: Result<(), Error>)
    requires CanAdd(global, name, v)
    modifies global
    ensures global == null ==> r == Ok(())
    ensures global != null ==> global.Valid()
    ensures global != null ==>
      var s := AddMetricSpec(old(global.buffers), global.defaultSize, name, v, now);
      && (s.Ok? ==> global.buffers == s.value && r == Ok(()))
      && (s.Err? ==> global.buffers == old(global.buffers) && r == Err(s.error))
  {
    if global == null {
      return Ok(());
    }
    r := global.AddMetric(name, v, now);
  }

  /** `spits_set_metric_int(name, ivalue)`. */
  method SpitsSetMetricInt(global: Metrics?, name: Key, ivalue: Int32, now: Timespec) returns (r: Result<(), Error>)
    requires CanAdd(global, name, IntValue(ivalue))
    modifies global
    ensures global == null ==> r == Ok(())
    ensures global != null ==> global.Valid()
    ensures global != null ==>
      var s := AddMetricSpec(old(global.buffers), global.defaultSize, name, IntValue(ivalue), now);
      && (s.Ok? ==> global.buffers == s.value && r == Ok(()))
      && (s.Err? ==> global.buffers == old(global.buffers) && r == Err(s.error))
  {
    r := SetMetric(global, name, IntValue(ivalue), now);
  }

  /** `spits_set_metric_float(name, fvalue)`, the float given by its bit pattern. */
  method SpitsSetMetricFloat(global: Metrics?, name: Key, floatBits: u32, now: Timespec) returns (r: Result<(), Error>)
    requires CanAdd(global, name, FloatValue(floatBits))
    modifies global
    ensures global == null ==> r == Ok(())
    ensures global != null ==> global.Valid()
    ensures global != null ==>
      var s := AddMetricSpec(old(global.buffers), global.defaultSize, name, FloatValue(floatBits), now);
      && (s.Ok? ==> global.buffers == s.value && r == Ok(()))
      && (s.Err? ==> global.buffers == old(global.buffers) && r == Err(s.error))
  {
    r := SetMetric(global, name, FloatValue(floatBits), now);
  }

  /** `spits_set_metric_bytes(name, byte_array)`, the array read as the C string it holds. */
  method SpitsSetMetricBytes(global: Metrics?, name: Key, chars: CString, now: Timespec) returns (r: Result<(), Error>)
    requires CanAdd(global, name, BytesValue(chars))
    modifies global
    ensures global == null ==> r == Ok(())
    ensures global != null ==> global.Valid()
    ensures global != null ==>
      var s := AddMetricSpec(old(global.buffers), global.defaultSize, name, BytesValue(chars), now);
      && (s.Ok? ==> global.buffers == s.value && r == Ok(()))
      && (s.Err? ==> global.buffers == old(global.buffers) && r == Err(s.error))
  {
    r := SetMetric(global, name, BytesValue(chars), now);
  }

  // ----- spits_get_metrics_list -----

  /** One row of `metrics_list()`: name, capacity and type code. */
  type ListRow = (Key, int, int)

  /** The rows `metrics_list()` returns, in map (sorted-name) order. */
  function ListRows(buffers: seq<Entry<BufferState>>): (rows: seq<ListRow>)
    ensures |rows| == |buffers|
  {
    seq(|buffers|, i requires 0 <= i < |buffers| =>
      (buffers[i].key, buffers[i].value.size as int, TypeCode(buffers[i].value.mtype)))
  }

  /** A row as the list export writes it: the name as a `std::string`, then `(int64_t)` capacity and type code. */
  function ListEntry(row: ListRow): seq<byte>
  {
    CStr(row.0) + I64(Int64Cast(row.1)) + I64(Int64Cast(row.2))
  }

  /** The list export of a store: the number of buffers, then every row; just the count for an empty store. */
  function ListExport(buffers: seq<Entry<BufferState>>): seq<byte>
  {
    I64(Int64Cast(|buffers|)) + Concat(ListRows(buffers), ListEntry)
  }

  /** `spits_get_metrics_list`: NULL without a store. */
  method SpitsGetMetricsList(global: Metrics?) returns (r: Option<seq<byte>>)
    requires global != null ==> global.Valid()
    ensures global == null ==> r == None
    ensures global != null ==> r == Some(ListExport(global.buffers))
  {
    if global == null {
      return None;
    }
    var list := global.MetricsList();
    assert list == ListRows(global.buffers);
    var stream := I64(Int64Cast(|list|));
    stream := AppendAll(stream, list, ListEntry);
    r := Some(stream);
  }

  /**
   * How a reader takes the list export apart: the count, then per row the name up to
   * its NUL and two 8-byte big-endian integers read as two's complement. `None` where a
   * read would run past the data.
   */
  function DecodeRows(data: seq<byte>, count: nat): Option<seq<ListRow>>
    decreases count
  {
    if count == 0 then Some([])
    else
      Pow256Widths();
      var name := UntilNul(data);
      var at := |name| + 1;
      if at + 16 > |data| then None
      else
        var capacity := ToSigned64(Unsigned(data[at..at + 8]));
        var typeCode := ToSigned64(Unsigned(data[at + 8..at + 16]));
        match DecodeRows(data[at + 16..], count - 1)
        case None => None
        case Some(rest) => Some([(name, capacity, typeCode)] + rest)
  }

  /** Reading one 8-byte field back gives the integer written. */
  lemma ReadI64(x: i64, rest: seq<byte>)
    ensures |I64(x) + rest| >= 8 && ToSigned64(Unsigned((I64(x) + rest)[..8])) == x
  {
    Pow256Widths();
    assert (I64(x) + rest)[..8] == I64(x);
    UnsignedOfBigEndian(ToUnsigned64(x), 8);
    SignedUnsignedInverse(x, ToUnsigned64(x));
  }

  /** Reading one row back gives the row, and the reader goes on right after it. */
  lemma DecodeListEntry(row: ListRow, after: seq<byte>, n: nat)
    requires 0 !in row.0 && 0 <= row.1 < TWO_63 && 0 <= row.2 < TWO_63
    ensures DecodeRows(ListEntry(row) + after, n + 1) ==
      match DecodeRows(after, n)
      case None => None
      case Some(rows) => Some([row] + rows)
  {
    var capBytes, typeBytes := I64(row.1), I64(row.2);
    var data := ListEntry(row) + after;
    assert data == CStr(row.0) + (capBytes + typeBytes + after);
    UntilNulOfCStr(row.0, capBytes + typeBytes + after);
    var at := |row.0| + 1;
    assert data[at..] == capBytes + (typeBytes + after);
    assert data[at + 8..] == typeBytes + after;
    assert data[at + 16..] == after;
    ReadI64(row.1, typeBytes + after);
    assert data[at..at + 8] == (capBytes + (typeBytes + after))[..8];
    ReadI64(row.2, after);
    assert data[at + 8..at + 16] == (typeBytes + after)[..8];
  }

  predicate RowsFit(rows: seq<ListRow>)
  {
    forall i :: 0 <= i < |rows| ==> 0 !in rows[i].0 && 0 <= rows[i].1 < TWO_63 && 0 <= rows[i].2 < TWO_63
  }

  lemma {:induction false} DecodeRowsOfEntries(rows: seq<ListRow>)
    requires RowsFit(rows)
    ensures DecodeRows(Concat(rows, ListEntry), |rows|) == Some(rows)
    decreases |rows|
  {
    if rows != [] {
      var after := Concat(rows[1..], ListEntry);
      assert Concat(rows, ListEntry) == ListEntry(rows[0]) + after;
      assert RowsFit(rows[1..]);
      DecodeRowsOfEntries(rows[1..]);
      DecodeListEntry(rows[0], after, |rows| - 1);
      assert [rows[0]] + rows[1..] == rows;
    }
  }

  /**
   * The list export can be read back: after the count, the name, capacity and type code
   * of every buffer in name order (names are C strings, so they hold no NUL).
   */
  lemma ListExportRoundTrip(buffers: seq<Entry<BufferState>>)
    requires AllWellFormed(buffers) && |buffers| < TWO_63
    requires forall i :: 0 <= i < |buffers| ==> 0 !in buffers[i].key
    ensures var data := ListExport(buffers);
      |data| >= 8 && ToSigned64(Unsigned(data[..8])) == |buffers| &&
      DecodeRows(data[8..], |buffers|) == Some(ListRows(buffers))
  {
    var rows := ListRows(buffers);
    assert RowsFit(rows) by {
      forall i | 0 <= i < |rows|
        ensures 0 !in rows[i].0 && 0 <= rows[i].1 < TWO_63 && 0 <= rows[i].2 < TWO_63
      {
        assert WellFormed(buffers[i].value);
      }
    }
    var data := ListExport(buffers);
    ReadI64(|buffers|, Concat(rows, ListEntry));
    assert data[8..] == Concat(rows, ListEntry);
    DecodeRowsOfEntries(rows);
  }

  // ----- spits_get_metrics_last_values and spits_get_metrics_history -----

  /** `_spits_metrics_last_values`: builds the request list and runs `metrics_last_values`. */
  method SpitsMetricsLastValues(m: Metrics, names: seq<Key>, sizes: Option<seq<Int32>>, lasts: bool)
    returns (r: ValuesMap)
    requires m.Valid()
    requires sizes.Some? ==> |sizes.value| >= |names|
    modifies m
    ensures m.Valid()
    ensures (r, m.buffers) == LastValuesSpec(old(m.buffers), Requests(names, sizes), lasts)
  {
    var list: seq<(Key, int)> := [];
    for i := 0 to |names|
      invariant list == Requests(names, sizes)[..i]
    {
      list := list + [(names[i], if sizes.Some? then sizes.value[i] as int else 1)];
    }
    assert list == Requests(names, sizes);
    r := m.MetricsLastValues(list, lasts);
  }

  /**
   * The serialising loop the two exports share: per requested name, the vector the map
   * holds for it is written sample by sample; an empty vector abandons the output.
   */
  method WriteBlocks(valuesMap: ValuesMap, names: seq<Key>, history: bool) returns (r: Option<seq<byte>>)
    ensures r == Body(Vectors(valuesMap, names), history)
  {
    ghost var vs := Vectors(valuesMap, names);
    var stream: seq<byte> := [];
    for i := 0 to |names|
      invariant Body(vs[..i], history) == Some(stream)
    {
      var elements := Entries(valuesMap, names[i]);
      BodyStep(vs, i, history);
      if |elements| == 0 {
        BodyNoneExtends(vs, i + 1, history);
        return None;
      }
      stream := WriteBlock(stream, elements, history);
    }
    assert vs[..|names|] == vs;
    r := Some(stream);
  }

  /** One name's block: the history header, then the records of its samples. */
  method WriteBlock(stream: seq<byte>, elements: seq<Element>, history: bool) returns (out: seq<byte>)
    requires elements != []
    ensures out == stream + Block(elements, history)
  {
    out := stream;
    if history {
      out := out + I64(SeqNo32(elements[0])) + I64(Int64Cast(|elements|));
    }
    out := AppendAll(out, elements, RecordOf(history));
  }

  lemma BodyStep(vs: seq<seq<Element>>, i: nat, history: bool)
    requires i < |vs|
    ensures Body(vs[..i + 1], history) ==
      match Body(vs[..i], history)
      case None => None
      case Some(prefix) => if vs[i] == [] then None else Some(prefix + Block(vs[i], history))
  {
    assert vs[..i + 1][..i] == vs[..i];
  }

  /** Once a prefix of the vectors gives NULL, so do all of them. */
  lemma {:induction false} BodyNoneExtends(vs: seq<seq<Element>>, k: nat, history: bool)
    requires k <= |vs| && Body(vs[..k], history).None?
    ensures Body(vs, history).None?
    decreases |vs| - k
  {
    if k < |vs| {
      assert vs[..k + 1][..k] == vs[..k];
      BodyNoneExtends(vs, k + 1, history);
    } else {
      assert vs[..k] == vs;
    }
  }

  /** `spits_get_metrics_last_values(names)`: one sample per name, newest first; NULL without a store. */
  method SpitsGetMetricsLastValues(global: Metrics?, names: seq<Key>) returns (r: Option<seq<byte>>)
    requires global != null ==> global.Valid()
    modifies global
    ensures global == null ==> r == None
    ensures global != null ==> global.Valid() && (r, global.buffers) == Export(old(global.buffers), names, None, false)
  {
    if global == null {
      return None;
    }
    var valuesMap := SpitsMetricsLastValues(global, names, None, true);
    if valuesMap == [] {
      return None;
    }
    r := WriteBlocks(valuesMap, names, false);
  }

  /** `spits_get_metrics_history(names, sizes)`: `sizes[i]` samples of each name (1 when sizes is NULL), oldest first. */
  method SpitsGetMetricsHistory(global: Metrics?, names: seq<Key>, sizes: Option<seq<Int32>>) returns (r: Option<seq<byte>>)
    requires global != null ==> global.Valid()
    requires sizes.Some? ==> |sizes.value| >= |names|
    modifies global
    ensures global == null ==> r == None
    ensures global != null ==> global.Valid() && (r, global.buffers) == Export(old(global.buffers), names, sizes, true)
  {
    if global == null {
      return None;
    }
    var valuesMap := SpitsMetricsLastValues(global, names, sizes, false);
    if valuesMap == [] {
      return None;
    }
    r := WriteBlocks(valuesMap, names, true);
  }

  // ----- what the last-values and history exports contain -----

  /** The blocks of the non-empty vectors, one after the other. */
  function Blocks(vs: seq<seq<Element>>, history: bool): seq<byte>
  {
    if vs == [] then []
    else
      var es := vs[|vs| - 1];
      Blocks(vs[..|vs| - 1], history) + (if es == [] then [] else Block(es, history))
  }

  /** With no empty vector the export loop writes every block. */
  lemma {:induction false} BodyOfNonEmpty(vs: seq<seq<Element>>, history: bool)
    requires forall i :: 0 <= i < |vs| ==> vs[i] != []
    ensures Body(vs, history) == Some(Blocks(vs, history))
    decreases |vs|
  {
    if vs != [] {
      var init := vs[..|vs| - 1];
      assert forall i :: 0 <= i < |init| ==> init[i] == vs[i];
      BodyOfNonEmpty(init, history);
    }
  }

  /** An empty vector anywhere makes the export loop give NULL. */
  lemma {:induction false} BodyOfEmpty(vs: seq<seq<Element>>, history: bool, i: nat)
    requires i < |vs| && vs[i] == []
    ensures Body(vs, history).None?
    decreases |vs|
  {
    var init := vs[..|vs| - 1];
    if i < |init| {
      assert init[i] == vs[i];
      BodyOfEmpty(init, history, i);
    }
    BodyNoneStep(vs, history);
  }

  /** The loop gives NULL once it has, and at an empty vector. */
  lemma BodyNoneStep(vs: seq<seq<Element>>, history: bool)
    requires vs != [] && (Body(vs[..|vs| - 1], history).None? || vs[|vs| - 1] == [])
    ensures Body(vs, history).None?
  {
  }

  /** No name repeats. */
  predicate Distinct(names: seq<Key>)
  {
    forall i, j :: 0 <= i < j < |names| ==> names[i] != names[j]
  }

  lemma {:induction false} RequestForAt(reqs: seq<(Key, int)>, i: nat)
    requires DistinctNames(reqs) && i < |reqs|
    ensures RequestFor(reqs, reqs[i].0) == Some(reqs[i].1)
    decreases i
  {
    if i > 0 {
      assert reqs[0].0 != reqs[i].0;
      assert reqs[1..][i - 1] == reqs[i];
      assert DistinctNames(reqs[1..]) by {
        forall a, b | 0 <= a < b < |reqs| - 1
          ensures reqs[1..][a].0 != reqs[1..][b].0
        {
          assert reqs[1..][a] == reqs[a + 1] && reqs[1..][b] == reqs[b + 1];
        }
      }
      RequestForAt(reqs[1..], i - 1);
    }
  }

  /** The samples one request takes from a known buffer, and what the buffer keeps. */
  function Window(buffers: seq<Entry<BufferState>>, name: Key, n: int, lasts: bool): (r: (seq<Element>, BufferState))
    requires AllWellFormed(buffers) && name in KeySet(buffers)
  {
    GetWellFormed(buffers, name);
    DrainedFor(Get(buffers, name).value, n, lasts)
  }

  /** The windows the requests select, in request order. */
  function Windows(buffers: seq<Entry<BufferState>>, reqs: seq<(Key, int)>, lasts: bool): (ws: seq<seq<Element>>)
    requires AllWellFormed(buffers)
    requires forall i :: 0 <= i < |reqs| ==> reqs[i].0 in KeySet(buffers)
    ensures |ws| == |reqs|
  {
    seq(|reqs|, i requires 0 <= i < |reqs| => Window(buffers, reqs[i].0, reqs[i].1, lasts).0)
  }

  /**
   * An export stops at its first unknown name and gives NULL, but the samples the
   * requests before it took stay taken.
   */
  lemma ExportUnknownName(buffers: seq<Entry<BufferState>>, names: seq<Key>, sizes: Option<seq<Int32>>, history: bool, i: nat)
    requires AllWellFormed(buffers)
    requires sizes.Some? ==> |sizes.value| >= |names|
    requires i < |names| && names[i] !in KeySet(buffers)
    requires forall j :: 0 <= j < i ==> names[j] in KeySet(buffers)
    ensures var e := Export(buffers, names, sizes, history);
      e.0 == None && e.1 == LastValuesSpec(buffers, Requests(names, sizes)[..i], !history).1
  {
    var reqs := Requests(names, sizes);
    LastValuesAllOrNothing(buffers, reqs, [], !history, i);
    LastValuesStopKeepsReads(buffers, reqs, [], !history, i);
  }

  /** With no buffers, or no names, an export gives NULL and reads nothing. */
  lemma ExportOfNothing(buffers: seq<Entry<BufferState>>, names: seq<Key>, sizes: Option<seq<Int32>>, history: bool)
    requires AllWellFormed(buffers)
    requires sizes.Some? ==> |sizes.value| >= |names|
    requires buffers == [] || names == []
    ensures Export(buffers, names, sizes, history) == (None, buffers)
  {
    if names != [] {
      ExportUnknownName(buffers, names, sizes, history, 0);
      var reqs := Requests(names, sizes);
      assert reqs[..0] == [];
    }
  }

  /**
   * With distinct, known names, an export runs its loop over the windows of the
   * requests, and every requested buffer keeps what its window leaves.
   */
  lemma ExportOfDistinctNames(buffers: seq<Entry<BufferState>>, names: seq<Key>, sizes: Option<seq<Int32>>, history: bool)
    requires AllWellFormed(buffers)
    requires sizes.Some? ==> |sizes.value| >= |names|
    requires names != [] && Distinct(names) && forall i :: 0 <= i < |names| ==> names[i] in KeySet(buffers)
    ensures var reqs := Requests(names, sizes);
      Export(buffers, names, sizes, history).0 == Body(Windows(buffers, reqs, !history), history)
  {
    var reqs := Requests(names, sizes);
    var m := LastValuesSpec(buffers, reqs, !history);
    var ws := Windows(buffers, reqs, !history);
    assert DistinctNames(reqs);
    forall i | 0 <= i < |names|
      ensures Vectors(m.0, names)[i] == ws[i]
    {
      RequestForAt(reqs, i);
      LastValuesDistinct(buffers, reqs, [], !history, names[i]);
    }
    assert Vectors(m.0, names) == ws;
    RequestForAt(reqs, 0);
    LastValuesDistinct(buffers, reqs, [], !history, names[0]);
    assert m.0 != [];
  }

  /** With distinct, known names, request i's buffer keeps what its window leaves. */
  lemma ExportTakesWindow(buffers: seq<Entry<BufferState>>, names: seq<Key>, sizes: Option<seq<Int32>>, history: bool, i: nat)
    requires AllWellFormed(buffers)
    requires sizes.Some? ==> |sizes.value| >= |names|
    requires Distinct(names) && forall j :: 0 <= j < |names| ==> names[j] in KeySet(buffers)
    requires i < |names|
    ensures var reqs := Requests(names, sizes);
      Get(Export(buffers, names, sizes, history).1, names[i]) == Some(Window(buffers, names[i], reqs[i].1, !history).1)
  {
    var reqs := Requests(names, sizes);
    assert DistinctNames(reqs);
    RequestForAt(reqs, i);
    LastValuesDistinct(buffers, reqs, [], !history, names[i]);
  }

  /** An export leaves every buffer it was not asked for as it was. */
  lemma ExportKeepsOthers(buffers: seq<Entry<BufferState>>, names: seq<Key>, sizes: Option<seq<Int32>>, history: bool, k: Key)
    requires AllWellFormed(buffers)
    requires sizes.Some? ==> |sizes.value| >= |names|
    requires Distinct(names) && forall j :: 0 <= j < |names| ==> names[j] in KeySet(buffers)
    requires k !in names
    ensures Get(Export(buffers, names, sizes, history).1, k) == Get(buffers, k)
  {
    var reqs := Requests(names, sizes);
    assert DistinctNames(reqs);
    RequestForMissing(reqs, k);
    LastValuesDistinct(buffers, reqs, [], !history, k);
  }

  /**
   * The outcome of an export over distinct, known names: NULL exactly when some window
   * is empty, and otherwise the blocks of all windows in request order.
   */
  lemma ExportContents(buffers: seq<Entry<BufferState>>, names: seq<Key>, sizes: Option<seq<Int32>>, history: bool)
    requires AllWellFormed(buffers)
    requires sizes.Some? ==> |sizes.value| >= |names|
    requires names != [] && Distinct(names) && forall i :: 0 <= i < |names| ==> names[i] in KeySet(buffers)
    ensures var ws := Windows(buffers, Requests(names, sizes), !history);
      && ((forall i :: 0 <= i < |ws| ==> ws[i] != []) ==> Export(buffers, names, sizes, history).0 == Some(Blocks(ws, history)))
      && ((exists i :: 0 <= i < |ws| && ws[i] == []) ==> Export(buffers, names, sizes, history).0 == None)
  {
    var ws := Windows(buffers, Requests(names, sizes), !history);
    ExportOfDistinctNames(buffers, names, sizes, history);
    if i :| 0 <= i < |ws| && ws[i] == [] {
      BodyOfEmpty(ws, history, i);
    } else {
      BodyOfNonEmpty(ws, history);
    }
  }

  /**
   * The last-values export asks for one sample per name: the window of a known name is
   * its buffer's newest sample, which leaves the buffer, or nothing for an empty buffer.
   */
  lemma NewestWindow(buffers: seq<Entry<BufferState>>, name: Key)
    requires AllWellFormed(buffers) && name in KeySet(buffers)
    ensures var b := Get(buffers, name).value;
      var w := Window(buffers, name, 1, true);
      && (b.samples == [] ==> w.0 == [] && w.1 == b)
      && (b.samples != [] ==> w.0 == [b.samples[|b.samples| - 1]] && w.1 == b.(samples := b.samples[..|b.samples| - 1]))
  {
    GetWellFormed(buffers, name);
    var b := Get(buffers, name).value;
    var w := Window(buffers, name, 1, true);
    if b.samples != [] {
      var n := |b.samples|;
      assert w.1.samples + Reversed(w.0) == b.samples;
      assert w.1.samples == b.samples[..n - 1];
    } else {
      assert w.1.samples == [];
    }
  }

  /**
   * The history export asks for n samples of a name: its window is the oldest
   * min(n, length) samples in order (none for n <= 0), and the buffer keeps the rest.
   */
  lemma HistoryWindow(buffers: seq<Entry<BufferState>>, name: Key, n: int)
    requires AllWellFormed(buffers) && name in KeySet(buffers)
    ensures var b := Get(buffers, name).value;
      var k := if n <= 0 then 0 else if n < |b.samples| then n else |b.samples|;
      var w := Window(buffers, name, n, false);
      w.0 == b.samples[..k] && w.1 == b.(samples := b.samples[k..])
  {
    GetWellFormed(buffers, name);
    var b := Get(buffers, name).value;
    var w := Window(buffers, name, n, false);
    var k := Requested(b, n);
    assert w.0 + w.1.samples == b.samples && |w.0| == k;
    assert w.0 == (w.0 + w.1.samples)[..k];
    assert w.1.samples == (w.0 + w.1.samples)[k..];
  }
}

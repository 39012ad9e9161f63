/**
 * The C exports of the development store (dev/include/metrics.hpp): the list of
 * buffers, the newest sample of each named buffer and the history windows, each
 * serialised into a byte buffer, or NULL (`None`). The NULL-terminated `const char**`
 * name array is a sequence of names (`None` for a NULL array) and the optional `int*`
 * sizes array a sequence of counts.
 */
module DevExports {
  import opened Wrappers
  import opened Bytes
  import opened OrderedMap
  import opened RingSpec
  import opened DevMetrics
  import TestUtils

  /**
   * How a sample's value is written: an int as a sign-extended `int64_t`, a float as
   * its 4-byte and a double as its 8-byte bit pattern, a byte payload as its `int64_t`
   * size followed by the bytes themselves.
   */
  function EncodeValue(v: Value): (r: seq<byte>)
    ensures v.IntValue? || v.DoubleValue? ==> |r| == 8
    ensures v.FloatValue? ==> |r| == 4
    ensures v.BytesValue? ==> |r| == 8 + |v.bytes| && r[8..] == v.bytes
  {
    Pow256Widths();
    match v
    case IntValue(i) => I64(i)
    case FloatValue(bits) => BigEndian(bits, 4)
    case DoubleValue(bits) => U64(bits)
    case BytesValue(bs) => I64(|bs|) + bs
  }

  /** `get_element_sequence`: the sequence number as the `unsigned int` the element keeps. */
  function SeqNo32(e: Element): (s: u32)
    ensures e.seqNo < TWO_32 ==> s == e.seqNo
  {
    e.seqNo % TWO_32
  }

  /** One sample of the last-values export: value, seconds, nanoseconds, sequence number. */
  function LastRecord(e: Element): seq<byte>
  {
    EncodeValue(e.value) + I64(e.time.sec) + I64(e.time.nsec) + I64(SeqNo32(e))
  }

  /** One sample of the history export: value, seconds, nanoseconds. */
  function HistoryRecord(e: Element): seq<byte>
  {
    EncodeValue(e.value) + I64(e.time.sec) + I64(e.time.nsec)
  }

  function RecordOf(history: bool): Element -> seq<byte>
  {
    if history then HistoryRecord else LastRecord
  }

  /**
   * What one requested name contributes: the records of its samples, headed in the
   * history export by the first sample's sequence number and the number of samples.
   */
  function Block(es: seq<Element>, history: bool): seq<byte>
    requires es != []
  {
    if history then I64(SeqNo32(es[0])) + I64(Int64Cast(|es|)) + Concat(es, HistoryRecord)
    else Concat(es, LastRecord)
  }

  /** `metrics_map[name]`: the vector stored under the name, or a new empty one. */
  function Entries(m: ValuesMap, k: Key): seq<Element>
  {
    match Get(m, k)
    case Some(es) => es
    case None => []
  }

  /** The vectors a map holds for the requested names, in request order. */
  function Vectors(m: ValuesMap, names: seq<Key>): (vs: seq<seq<Element>>)
    ensures |vs| == |names|
  {
    seq(|names|, i requires 0 <= i < |names| => Entries(m, names[i]))
  }

  /**
   * The loop of an export over the requested names' vectors: each one's block in turn,
   * and NULL as soon as a vector is empty.
   */
  function Body(vs: seq<seq<Element>>, history: bool): Option<seq<byte>>
  {
    if vs == [] then Some([])
    else match Body(vs[..|vs| - 1], history)
      case None => None
      case Some(prefix) =>
        var es := vs[|vs| - 1];
        if es == [] then None else Some(prefix + Block(es, history))
  }

  /** The request list `_spits_metrics_last_values` builds: each name with `sizes[i]`, or 1 when sizes is NULL. */
  function Requests(names: seq<Key>, sizes: Option<seq<int>>): (reqs: seq<(Key, int)>)
    requires sizes.Some? ==> |sizes.value| >= |names|
  {
    seq(|names|, i requires 0 <= i < |names| => (names[i], if sizes.Some? then sizes.value[i] else 1))
  }

  /**
   * `spits_get_metrics_last_values` (history false, sizes NULL) and
   * `spits_get_metrics_history` (history true): NULL for an empty store or a NULL name
   * array, or when `last_values` returns an empty map; otherwise the blocks of the
   * requested names.
   */
  ghost function Export(buffers: seq<Entry<BufferState>>, names: Option<seq<Key>>, sizes: Option<seq<int>>, history: bool)
    : Option<seq<byte>>
    requires AllWellFormed(buffers)
    requires names.Some? && sizes.Some? ==> |sizes.value| >= |names.value|
  {
    if |buffers| == 0 || names.None? then None
    else
      var m := LastValuesSpec(buffers, Requests(names.value, sizes), false);
      if m == [] then None else Body(Vectors(m, names.value), history)
  }

  /** `_spits_metrics_last_values`: builds the request list and calls `last_values`. */
  method SpitsMetricsLastValues(m: Metrics, names: seq<Key>, sizes: Option<seq<int>>, fromLast: bool)
    returns (r: ValuesMap)
    requires m.Valid()
    requires sizes.Some? ==> |sizes.value| >= |names|
    ensures r == LastValuesSpec(m.buffers, Requests(names, sizes), fromLast)
  {
    var list: seq<(Key, int)> := [];
    var i := 0;
    while i < |names|
      invariant 0 <= i <= |names| && list == Requests(names, sizes)[..i]
    {
      list := list + [(names[i], if sizes.Some? then sizes.value[i] else 1)];
      i := i + 1;
    }
    assert list == Requests(names, sizes);
    r := m.LastValues(list, fromLast);
  }

  /**
   * The serialising loop the two exports share: per requested name, the vector the map
   * holds for it is written sample by sample; an empty vector abandons the output.
   */
  method WriteBlocks(valuesMap: ValuesMap, names: seq<Key>, history: bool) returns (r: Option<seq<byte>>)
    ensures r == Body(Vectors(valuesMap, names), history)
  {
    ghost var vs := Vectors(valuesMap, names);
    var stream: seq<byte> := [];
    var i := 0;
    while i < |names|
      invariant 0 <= i <= |names|
      invariant Body(vs[..i], history) == Some(stream)
    {
      var elements := Entries(valuesMap, names[i]);
      BodyStep(vs, i, history);
      if |elements| == 0 {
        BodyNoneExtends(vs, i + 1, history);
        return None;
      }
      stream := WriteBlock(stream, elements, history);
      i := i + 1;
    }
    assert vs[..i] == vs;
    r := Some(stream);
  }

  /** One name's block: the history header, then the records of its samples. */
  method WriteBlock(stream: seq<byte>, elements: seq<Element>, history: bool) returns (out: seq<byte>)
    requires elements != []
    ensures out == stream + Block(elements, history)
  {
    out := stream;
    if history {
      out := out + I64(SeqNo32(elements[0])) + I64(Int64Cast(|elements|));
    }
    out := AppendAll(out, elements, RecordOf(history));
  }

  /** Once a prefix of the names gives NULL, so do all the names. */
  lemma BodyStep(vs: seq<seq<Element>>, i: nat, history: bool)
    requires i < |vs|
    ensures Body(vs[..i + 1], history) ==
      match Body(vs[..i], history)
      case None => None
      case Some(prefix) => if vs[i] == [] then None else Some(prefix + Block(vs[i], history))
  {
    assert vs[..i + 1][..i] == vs[..i];
  }

  lemma {:induction false} BodyNoneExtends(vs: seq<seq<Element>>, k: nat, history: bool)
    requires k <= |vs| && Body(vs[..k], history).None?
    ensures Body(vs, history).None?
    decreases |vs| - k
  {
    if k < |vs| {
      assert vs[..k + 1][..k] == vs[..k];
      BodyNoneExtends(vs, k + 1, history);
    } else {
      assert vs[..k] == vs;
    }
  }

  /** `spits_get_metrics_last_values`. */
  method GetMetricsLastValues(m: Metrics, names: Option<seq<Key>>) returns (r: Option<seq<byte>>)
    requires m.Valid()
    ensures r == Export(m.buffers, names, None, false)
  {
    var count := m.GetNumMetricBuffers();
    KeySetSize(m.buffers);
    if count == 0 || names.None? {
      return None;
    }
    var valuesMap := SpitsMetricsLastValues(m, names.value, None, false);
    if valuesMap == [] {
      return None;
    }
    r := WriteBlocks(valuesMap, names.value, false);
  }

  /** `spits_get_metrics_history`; a non-NULL sizes array holds a count for every name. */
  method GetMetricsHistory(m: Metrics, names: Option<seq<Key>>, sizes: Option<seq<int>>) returns (r: Option<seq<byte>>)
    requires m.Valid()
    requires names.Some? && sizes.Some? ==> |sizes.value| >= |names.value|
    ensures r == Export(m.buffers, names, sizes, true)
  {
    var count := m.GetNumMetricBuffers();
    KeySetSize(m.buffers);
    if count == 0 || names.None? {
      return None;
    }
    var valuesMap := SpitsMetricsLastValues(m, names.value, sizes, false);
    if valuesMap == [] {
      return None;
    }
    r := WriteBlocks(valuesMap, names.value, true);
  }

  /** A request list names every requested name, with the count of its last occurrence. */
  lemma {:induction false} LastCountPresent(reqs: seq<(Key, int)>, i: nat)
    requires i < |reqs|
    ensures LastCount(reqs, reqs[i].0).Some?
    ensures (forall j :: 0 <= j < |reqs| ==> reqs[j].1 == 1) ==> LastCount(reqs, reqs[i].0) == Some(1)
    decreases |reqs|
  {
    if i > 0 {
      LastCountPresent(reqs[1..], i - 1);
    } else if LastCount(reqs[1..], reqs[0].0).Some? {
      var j :| 0 <= j < |reqs[1..]| && reqs[1..][j].0 == reqs[0].0 && true by {
        LastCountWitness(reqs[1..], reqs[0].0);
      }
      LastCountPresent(reqs[1..], j);
    }
  }

  lemma {:induction false} LastCountWitness(reqs: seq<(Key, int)>, k: Key)
    requires LastCount(reqs, k).Some?
    ensures exists j :: 0 <= j < |reqs| && reqs[j].0 == k && LastCount(reqs, k) == Some(reqs[j].1)
    decreases |reqs|
  {
    if LastCount(reqs[1..], k).Some? {
      LastCountWitness(reqs[1..], k);
      var j :| 0 <= j < |reqs[1..]| && reqs[1..][j].0 == k && LastCount(reqs[1..], k) == Some(reqs[1..][j].1);
      assert reqs[j + 1].0 == k;
    }
  }

  // ----- spits_get_metrics_list -----

  /** One row of `list()`: name, capacity and type code. */
  type ListRow = (Key, int, int)

  /** The rows `list()` returns, in map (sorted-name) order. */
  function ListRows(buffers: seq<Entry<BufferState>>): (rows: seq<ListRow>)
  {
    seq(|buffers|, i requires 0 <= i < |buffers| =>
      (buffers[i].key, buffers[i].value.capacity, TypeCode(buffers[i].value.bufferType)))
  }

  /** A row as the list export writes it: the name, then `(int64_t)` capacity and type. */
  function ListEntry(row: ListRow): seq<byte>
  {
    CStr(row.0) + I64(Int64Cast(row.1)) + I64(Int64Cast(row.2))
  }

  /** `spits_get_metrics_list`: NULL for an empty store, else the count and every row. */
  function ListExport(buffers: seq<Entry<BufferState>>): Option<seq<byte>>
  {
    if |buffers| == 0 then None
    else Some(I64(Int64Cast(|buffers|)) + Concat(ListRows(buffers), ListEntry))
  }

  method GetMetricsList(m: Metrics) returns (r: Option<seq<byte>>)
    requires m.Valid()
    ensures r == ListExport(m.buffers)
  {
    var count := m.GetNumMetricBuffers();
    KeySetSize(m.buffers);
    if count == 0 {
      return None;
    }
    var list := m.List();
    assert list == ListRows(m.buffers);
    var stream := I64(Int64Cast(|list|));
    stream := AppendAll(stream, list, ListEntry);
    r := Some(stream);
  }

  /**
   * How the unit test reads the list export back (API/unit-tests/test_c_interface.cpp):
   * per entry, `read_string`, then skip the name and its NUL, then two `read_longlong`s.
   * `None` where the reads would run past the data.
   */
  function DecodeList(data: seq<byte>, count: nat, bigEndianHost: bool): Option<seq<ListRow>>
    decreases count
  {
    if count == 0 then Some([])
    else
      var name := UntilNul(data);
      var at := |name| + 1;
      if at + 16 > |data| then None
      else
        var capacity := TestUtils.ReadLongLong(data[at..], bigEndianHost);
        var typeCode := TestUtils.ReadLongLong(data[at + 8..], bigEndianHost);
        match DecodeList(data[at + 16..], count - 1, bigEndianHost)
        case None => None
        case Some(rest) => Some([(name, capacity, typeCode)] + rest)
  }

  /** The count and then the entries. */
  function DecodeListExport(data: seq<byte>, bigEndianHost: bool): Option<seq<ListRow>>
  {
    if |data| < 8 then None
    else
      var count := TestUtils.ReadLongLong(data, bigEndianHost);
      if count < 0 then None else DecodeList(data[8..], count, bigEndianHost)
  }

  predicate RowsFit(rows: seq<ListRow>)
  {
    forall i :: 0 <= i < |rows| ==>
      0 !in rows[i].0 && 0 <= rows[i].1 < TWO_63 && 0 <= rows[i].2 < TWO_63
  }

  /** Reading one entry back gives its row, and the reader continues right after it. */
  lemma DecodeListEntry(row: ListRow, after: seq<byte>, n: nat, bigEndianHost: bool)
    requires 0 !in row.0 && 0 <= row.1 < TWO_63 && 0 <= row.2 < TWO_63
    ensures DecodeList(ListEntry(row) + after, n + 1, bigEndianHost) ==
      match DecodeList(after, n, bigEndianHost)
      case None => None
      case Some(rows) => Some([row] + rows)
  {
    var capBytes, typeBytes := I64(row.1), I64(row.2);
    var data := ListEntry(row) + after;
    assert data == CStr(row.0) + (capBytes + typeBytes + after);
    UntilNulOfCStr(row.0, capBytes + typeBytes + after);
    var at := |row.0| + 1;
    assert data[at..] == capBytes + (typeBytes + after);
    assert data[at + 8..] == typeBytes + after;
    assert data[at + 16..] == after;
    TestUtils.ReadLongLongOfI64(row.1, typeBytes + after, bigEndianHost);
    TestUtils.ReadLongLongOfI64(row.2, after, bigEndianHost);
  }

  lemma {:induction false} DecodeListOfEntries(rows: seq<ListRow>, rest: seq<byte>, bigEndianHost: bool)
    requires RowsFit(rows)
    ensures DecodeList(Concat(rows, ListEntry) + rest, |rows|, bigEndianHost) == Some(rows)
    decreases |rows|
  {
    if rows != [] {
      var after := Concat(rows[1..], ListEntry) + rest;
      ConcatFront(rows, rest, ListEntry);
      assert RowsFit(rows[1..]);
      DecodeListOfEntries(rows[1..], rest, bigEndianHost);
      DecodeListEntry(rows[0], after, |rows| - 1, bigEndianHost);
      assert [rows[0]] + rows[1..] == rows;
    }
  }

  /**
   * The unit test's reader recovers, in order, the name, capacity and type code of every
   * buffer from the list export (names are C strings, so they hold no NUL).
   */
  lemma ListExportRoundTrip(buffers: seq<Entry<BufferState>>, bigEndianHost: bool)
    requires AllWellFormed(buffers) && 0 < |buffers| < TWO_63
    requires forall i :: 0 <= i < |buffers| ==> 0 !in buffers[i].key
    ensures ListExport(buffers).Some?
    ensures DecodeListExport(ListExport(buffers).value, bigEndianHost) == Some(ListRows(buffers))
  {
    var rows := ListRows(buffers);
    assert RowsFit(rows) by {
      forall i | 0 <= i < |rows|
        ensures 0 !in rows[i].0 && 0 <= rows[i].1 < TWO_63 && 0 <= rows[i].2 < TWO_63
      {
        assert WellFormed(buffers[i].value);
      }
    }
    var data := ListExport(buffers).value;
    TestUtils.ReadLongLongOfI64(|buffers|, Concat(rows, ListEntry), bigEndianHost);
    assert data[8..] == Concat(rows, ListEntry) + [];
    DecodeListOfEntries(rows, [], bigEndianHost);
  }

  // ----- what the last-values and history exports contain -----

  /** The window a requested name's last request selects, read straight off its buffer. */
  ghost function WindowFor(buffers: seq<Entry<BufferState>>, reqs: seq<(Key, int)>, k: Key): seq<Element>
    requires AllWellFormed(buffers)
  {
    match Lookup(buffers, k)
    case None => []
    case Some(b) =>
      match LastCount(reqs, k)
      case None => []
      case Some(n) => Window(b, n, false)
  }

  /** The windows the requested names select, in request order. */
  ghost function Windows(buffers: seq<Entry<BufferState>>, reqs: seq<(Key, int)>, names: seq<Key>): (ws: seq<seq<Element>>)
    requires AllWellFormed(buffers)
    ensures |ws| == |names|
  {
    seq(|names|, i requires 0 <= i < |names| => WindowFor(buffers, reqs, names[i]))
  }

  /** The blocks of the non-empty vectors, one after the other. */
  function Blocks(vs: seq<seq<Element>>, history: bool): seq<byte>
  {
    if vs == [] then []
    else
      var es := vs[|vs| - 1];
      Blocks(vs[..|vs| - 1], history) + (if es == [] then [] else Block(es, history))
  }

  /** With no empty vector the export loop writes every block. */
  lemma {:induction false} BodyOfNonEmpty(vs: seq<seq<Element>>, history: bool)
    requires forall i :: 0 <= i < |vs| ==> vs[i] != []
    ensures Body(vs, history) == Some(Blocks(vs, history))
    decreases |vs|
  {
    if vs != [] {
      var init := vs[..|vs| - 1];
      assert forall i :: 0 <= i < |init| ==> init[i] == vs[i];
      BodyOfNonEmpty(init, history);
    }
  }

  /** An empty vector anywhere makes the export loop give NULL. */
  lemma {:induction false} BodyOfEmpty(vs: seq<seq<Element>>, history: bool, i: nat)
    requires i < |vs| && vs[i] == []
    ensures Body(vs, history).None?
    decreases |vs|
  {
    var init := vs[..|vs| - 1];
    if i < |init| {
      assert init[i] == vs[i];
      BodyOfEmpty(init, history, i);
    }
    BodyNoneStep(vs, history);
  }

  /** The loop gives NULL once it has, and at an empty vector. */
  lemma BodyNoneStep(vs: seq<seq<Element>>, history: bool)
    requires vs != [] && (Body(vs[..|vs| - 1], history).None? || vs[|vs| - 1] == [])
    ensures Body(vs, history).None?
  {
  }

  /** The export loop gives NULL exactly when some vector is empty, and otherwise every block. */
  lemma BodyAllOrNothing(vs: seq<seq<Element>>, history: bool)
    ensures (forall i :: 0 <= i < |vs| ==> vs[i] != []) ==> Body(vs, history) == Some(Blocks(vs, history))
    ensures (exists i :: 0 <= i < |vs| && vs[i] == []) ==> Body(vs, history) == None
  {
    if exists i :: 0 <= i < |vs| && vs[i] == [] {
      var i :| 0 <= i < |vs| && vs[i] == [];
      BodyOfEmpty(vs, history, i);
    } else {
      BodyOfNonEmpty(vs, history);
    }
  }

  /** An unknown name makes the last-values and history exports NULL. */
  lemma ExportUnknownName(buffers: seq<Entry<BufferState>>, ns: seq<Key>, sizes: Option<seq<int>>, history: bool, i: nat)
    requires AllWellFormed(buffers)
    requires sizes.Some? ==> |sizes.value| >= |ns|
    requires i < |ns| && ns[i] !in KeySet(buffers)
    ensures Export(buffers, Some(ns), sizes, history) == None
  {
    LastValuesAllOrNothing(buffers, Requests(ns, sizes), [], false, i);
  }

  /** A requested name holds its window in the map `last_values` returns. */
  lemma EntriesAreWindow(buffers: seq<Entry<BufferState>>, reqs: seq<(Key, int)>, k: Key)
    requires AllWellFormed(buffers)
    requires forall i :: 0 <= i < |reqs| ==> reqs[i].0 in KeySet(buffers)
    requires LastCount(reqs, k).Some?
    ensures Get(LastValuesSpec(buffers, reqs, false), k).Some?
    ensures Entries(LastValuesSpec(buffers, reqs, false), k) == WindowFor(buffers, reqs, k)
  {
    LastValuesWindows(buffers, reqs, [], false, k);
  }

  /** With every name known, the loop's vectors are the names' windows, and there is at least one. */
  lemma KnownNamesVectors(buffers: seq<Entry<BufferState>>, ns: seq<Key>, sizes: Option<seq<int>>)
    requires AllWellFormed(buffers)
    requires sizes.Some? ==> |sizes.value| >= |ns|
    requires ns != [] && forall i :: 0 <= i < |ns| ==> ns[i] in KeySet(buffers)
    ensures LastValuesSpec(buffers, Requests(ns, sizes), false) != []
    ensures Vectors(LastValuesSpec(buffers, Requests(ns, sizes), false), ns) == Windows(buffers, Requests(ns, sizes), ns)
  {
    var reqs := Requests(ns, sizes);
    var m := LastValuesSpec(buffers, reqs, false);
    var vs, ws := Vectors(m, ns), Windows(buffers, reqs, ns);
    assert forall i :: 0 <= i < |reqs| ==> reqs[i].0 in KeySet(buffers) by {
      forall i | 0 <= i < |reqs| ensures reqs[i].0 in KeySet(buffers) {
        assert reqs[i].0 == ns[i];
      }
    }
    forall i | 0 <= i < |ns|
      ensures vs[i] == ws[i]
    {
      LastCountPresent(reqs, i);
      assert reqs[i].0 == ns[i];
      EntriesAreWindow(buffers, reqs, ns[i]);
    }
    assert vs == ws;
    LastCountPresent(reqs, 0);
    EntriesAreWindow(buffers, reqs, reqs[0].0);
  }

  /** With every name known, the exports run their loop over the names' windows. */
  lemma ExportOfKnownNames(buffers: seq<Entry<BufferState>>, ns: seq<Key>, sizes: Option<seq<int>>, history: bool)
    requires AllWellFormed(buffers)
    requires sizes.Some? ==> |sizes.value| >= |ns|
    requires |buffers| > 0 && ns != [] && forall i :: 0 <= i < |ns| ==> ns[i] in KeySet(buffers)
    ensures Export(buffers, Some(ns), sizes, history) == Body(Windows(buffers, Requests(ns, sizes), ns), history)
  {
    KnownNamesVectors(buffers, ns, sizes);
  }

  /**
   * The last-values and history exports are all or nothing: NULL unless the store has
   * buffers, the name array is neither NULL nor empty, every name is known and every
   * name's window holds a sample; then, per name in request order, the block of the
   * window its last request selects.
   */
  lemma ExportContents(buffers: seq<Entry<BufferState>>, ns: seq<Key>, sizes: Option<seq<int>>, history: bool)
    requires AllWellFormed(buffers)
    requires sizes.Some? ==> |sizes.value| >= |ns|
    ensures Export(buffers, None, sizes, history) == None
    ensures var r := Export(buffers, Some(ns), sizes, history);
      var ws := Windows(buffers, Requests(ns, sizes), ns);
      r.Some? ==>
        |buffers| > 0 && ns != [] &&
        (forall i :: 0 <= i < |ns| ==> ns[i] in KeySet(buffers) && ws[i] != []) &&
        r.value == Blocks(ws, history)
    ensures var ws := Windows(buffers, Requests(ns, sizes), ns);
      |buffers| > 0 && ns != [] &&
      (forall i :: 0 <= i < |ns| ==> ns[i] in KeySet(buffers) && ws[i] != []) ==>
        Export(buffers, Some(ns), sizes, history) == Some(Blocks(ws, history))
  {
    var ws := Windows(buffers, Requests(ns, sizes), ns);
    if |buffers| > 0 && ns != [] {
      if i :| 0 <= i < |ns| && ns[i] !in KeySet(buffers) {
        ExportUnknownName(buffers, ns, sizes, history, i);
      } else {
        ExportOfKnownNames(buffers, ns, sizes, history);
        BodyAllOrNothing(ws, history);
      }
    }
  }

  /**
   * The last-values export asks for one sample per name: the window of a known name is
   * its buffer's newest sample, or nothing when the buffer holds none.
   */
  lemma LastValuesWindowIsNewest(buffers: seq<Entry<BufferState>>, ns: seq<Key>, i: nat)
    requires AllWellFormed(buffers)
    requires i < |ns| && ns[i] in KeySet(buffers)
    ensures var s := Lookup(buffers, ns[i]).value.samples;
      Windows(buffers, Requests(ns, None), ns)[i] == if s == [] then [] else [s[|s| - 1]]
  {
    var reqs := Requests(ns, None);
    var b := Lookup(buffers, ns[i]).value;
    LastCountPresent(reqs, i);
    assert LastCount(reqs, ns[i]) == Some(1);
    assert Windows(buffers, reqs, ns)[i] == WindowFor(buffers, reqs, ns[i]);
    assert WindowFor(buffers, reqs, ns[i]) == Window(b, 1, false);
    WindowOfOne(b);
  }

  /** A window of one sample is the newest sample, if there is one. */
  lemma WindowOfOne(b: BufferState)
    requires WellFormed(b)
    ensures Window(b, 1, false) == if b.samples == [] then [] else [b.samples[|b.samples| - 1]]
  {
  }
}

/**
 * The metrics decoders of the Python job binding (`JobBinary`): `read_uint64`,
 * `read_string`, and the loops of `spits_get_metrics_list` and
 * `spits_get_metrics_last_values` that walk the byte strings the C++ store exports.
 *
 * The bytes a native export returns are a parameter. The decoders read through a raw
 * pointer and check no bounds, so every read they make must fall inside the export:
 * that is what the methods require. `read_string` turns each byte into the character
 * with that code, one for one, so a decoded string is kept here as its bytes.
 */
module JobBinary {
  import opened Wrappers
  import opened Bytes
  import opened OrderedMap
  import opened CcppMetrics

  /** `read_uint64`: the 8 bytes at `initial`, read as a big-endian unsigned number. */
  function ReadUint64(values: seq<byte>, initial: nat): u64
    requires initial + 8 <= |values|
  {
    Pow256Widths();
    Unsigned(values[initial..initial + 8])
  }

  /** The parts of a concatenation are its windows. */
  lemma Parts2<T>(a: seq<T>, b: seq<T>)
    ensures (a + b)[0..|a|] == a && (a + b)[|a|..|a| + |b|] == b
  {
  }

  lemma Parts3<T>(a: seq<T>, b: seq<T>, c: seq<T>)
    ensures (a + b + c)[0..|a|] == a
    ensures (a + b + c)[|a|..|a| + |b|] == b
    ensures (a + b + c)[|a| + |b|..|a| + |b| + |c|] == c
  {
    assert a + b + c == a + (b + c);
  }

  /** The bytes `chunk` sit at `at`: then any window of the chunk sits at the same offset past `at`. */
  lemma Window(values: seq<byte>, at: nat, chunk: seq<byte>, k: nat, len: nat, from: nat)
    requires at + |chunk| <= |values| && values[at..at + |chunk|] == chunk
    requires k + len <= |chunk| && from == at + k
    ensures values[from..from + len] == chunk[k..k + len]
  {
    var u, v := values[from..from + len], chunk[k..k + len];
    forall j | 0 <= j < len
      ensures u[j] == v[j]
    {
      assert v[j] == chunk[k + j];
    }
    assert u == v;
  }

  /** An 8-byte field written as x reads back as x. */
  lemma ReadUint64At(values: seq<byte>, at: nat, x: u64)
    requires at + 8 <= |values| && values[at..at + 8] == U64(x)
    ensures ReadUint64(values, at) == x
  {
    Pow256Widths();
    UnsignedOfBigEndian(x, 8);
  }

  /** Conversely, the number read determines the 8 bytes it was read from. */
  lemma ReadUint64Determines(values: seq<byte>, initial: nat)
    requires initial + 8 <= |values|
    ensures U64(ReadUint64(values, initial)) == values[initial..initial + 8]
  {
    Pow256Widths();
    BigEndianOfUnsigned(values[initial..initial + 8]);
  }

  /** Some byte at or after `initial` is a NUL, so `read_string` stops inside the data. */
  predicate NulFrom(values: seq<byte>, initial: nat)
    decreases |values| - initial
  {
    initial < |values| && (values[initial] == 0 || NulFrom(values, initial + 1))
  }

  /** The position of the first NUL at or after `initial`. */
  function NulEnd(values: seq<byte>, initial: nat): (k: nat)
    requires NulFrom(values, initial)
    ensures initial <= k < |values| && values[k] == 0
    decreases |values| - initial
  {
    if values[initial] == 0 then initial else NulEnd(values, initial + 1)
  }

  /** What `read_string` returns: the bytes from `initial` up to and including the first NUL. */
  function StringAt(values: seq<byte>, initial: nat): seq<byte>
    requires NulFrom(values, initial)
  {
    values[initial..NulEnd(values, initial) + 1]
  }

  /** No byte before the end NulEnd finds is a NUL. */
  lemma {:induction false} NulEndIsFirst(values: seq<byte>, initial: nat, j: nat)
    requires NulFrom(values, initial) && initial <= j < NulEnd(values, initial)
    ensures values[j] != 0
    decreases |values| - initial
  {
    if j > initial {
      NulEndIsFirst(values, initial + 1, j);
    }
  }

  /** A NUL at initial + k with none before it is where the scan ends. */
  lemma {:induction false} NulEndAt(values: seq<byte>, initial: nat, k: nat)
    requires initial + k < |values| && values[initial + k] == 0
    requires forall j :: initial <= j < initial + k ==> values[j] != 0
    ensures NulFrom(values, initial) && NulEnd(values, initial) == initial + k
    decreases k
  {
    if k > 0 {
      NulEndAt(values, initial + 1, k - 1);
    }
  }

  /** `read_string` reads the bytes of a C string written at `at`, and its NUL. */
  lemma StringAtCStr(values: seq<byte>, at: nat, s: seq<byte>)
    requires 0 !in s
    requires at + |CStr(s)| <= |values| && values[at..at + |CStr(s)|] == CStr(s)
    ensures NulFrom(values, at)
    ensures StringAt(values, at) == CStr(s)
  {
    var w := values[at..at + |CStr(s)|];
    forall j | at <= j < at + |s|
      ensures values[j] != 0
    {
      assert values[j] == w[j - at] == s[j - at];
    }
    assert values[at + |s|] == w[|s|];
    NulEndAt(values, at, |s|);
  }

  /**
   * `read_string`: scan from `initial` to the first NUL and return everything read,
   * the NUL included. The result is never empty, ends in the only NUL it holds, and
   * its length is how far the caller's cursor moves.
   */
  method ReadString(values: seq<byte>, initial: nat) returns (s: seq<byte>)
    requires NulFrom(values, initial)
    ensures s == StringAt(values, initial)
    ensures 0 < |s| && initial + |s| <= |values| && s == values[initial..initial + |s|]
    ensures s[|s| - 1] == 0 && forall j :: 0 <= j < |s| - 1 ==> s[j] != 0
  {
    var cursorFinal := initial;
    while values[cursorFinal] != 0
      invariant initial <= cursorFinal && NulFrom(values, cursorFinal)
      invariant NulEnd(values, cursorFinal) == NulEnd(values, initial)
      decreases |values| - cursorFinal
    {
      cursorFinal := cursorFinal + 1;
    }
    cursorFinal := cursorFinal + 1;
    s := values[initial..cursorFinal];
    forall j | 0 <= j < |s| - 1
      ensures s[j] != 0
    {
      NulEndIsFirst(values, initial, initial + j);
    }
  }

  /** One row of the decoded list: the name and the type name keep their NUL. */
  datatype ListRow = ListRow(name: seq<byte>, size: u64, typeName: seq<byte>)

  /**
   * One row at `cursor`: a name, an 8-byte size and a type name, with the cursor just
   * past them. None when a read would run past the data.
   */
  function RowAt(values: seq<byte>, cursor: nat): Option<(ListRow, nat)>
  {
    if !NulFrom(values, cursor) then None
    else
      var name := StringAt(values, cursor);
      var sizeAt := cursor + |name|;
      if sizeAt + 8 > |values| || !NulFrom(values, sizeAt + 8) then None
      else
        var typeName := StringAt(values, sizeAt + 8);
        Some((ListRow(name, ReadUint64(values, sizeAt), typeName), sizeAt + 8 + |typeName|))
  }

  /** RowAt, unfolded at positions named by the caller. */
  lemma RowAtIs(values: seq<byte>, cursor: nat, name: seq<byte>, sizeAt: nat, typeAt: nat, typeName: seq<byte>, next: nat)
    requires NulFrom(values, cursor) && StringAt(values, cursor) == name
    requires sizeAt == cursor + |name| && typeAt == sizeAt + 8
    requires NulFrom(values, typeAt) && StringAt(values, typeAt) == typeName && next == typeAt + |typeName|
    ensures RowAt(values, cursor) == Some((ListRow(name, ReadUint64(values, sizeAt), typeName), next))
  {
  }

  /** Decoding `count` rows from `cursor`; None when a read would run past the data. */
  function ListFrom(values: seq<byte>, cursor: nat, count: nat): Option<seq<ListRow>>
    decreases count
  {
    if count == 0 then Some([])
    else
      match RowAt(values, cursor)
      case None => None
      case Some((row, next)) =>
        match ListFrom(values, next, count - 1)
        case None => None
        case Some(rows) => Some([row] + rows)
  }

  /** The list a whole export decodes to: an 8-byte count, then that many rows. */
  function DecodedList(values: seq<byte>): Option<seq<ListRow>>
  {
    if |values| < 8 then None else ListFrom(values, 8, ReadUint64(values, 0))
  }

  /** A row followed by the rows after it. */
  lemma ListFromCons(values: seq<byte>, cursor: nat, count: nat, row: ListRow, next: nat, rest: nat, rows: seq<ListRow>)
    requires count == rest + 1 && RowAt(values, cursor) == Some((row, next))
    requires ListFrom(values, next, rest) == Some(rows)
    ensures ListFrom(values, cursor, count) == Some([row] + rows)
  {
  }

  /** The whole export decodes from the count it starts with. */
  lemma DecodedListIs(values: seq<byte>, count: nat)
    requires 8 <= |values| && ReadUint64(values, 0) == count
    ensures DecodedList(values) == ListFrom(values, 8, count)
  {
  }

  /** Rows that decode from `cursor` start with a row RowAt finds there... */
  lemma ListFromFirst(values: seq<byte>, cursor: nat, count: nat, rows: seq<ListRow>)
    requires 0 < count && ListFrom(values, cursor, count) == Some(rows)
    ensures RowAt(values, cursor).Some?
  {
  }

  /** ... and the other rows decode from just past that row. */
  lemma ListFromNext(values: seq<byte>, cursor: nat, count: nat, rows: seq<ListRow>, row: ListRow, next: nat, rest: nat)
    requires count == rest + 1 && ListFrom(values, cursor, count) == Some(rows)
    requires RowAt(values, cursor) == Some((row, next))
    ensures rows != [] && rows[0] == row && ListFrom(values, next, rest) == Some(rows[1..])
  {
  }

  /** No rows are left to decode once the count is used up. */
  lemma ListFromDone(values: seq<byte>, cursor: nat, count: nat, rows: seq<ListRow>)
    requires count == 0 && ListFrom(values, cursor, count) == Some(rows)
    ensures rows == []
  {
  }

  /** A row RowAt finds: its name, size and type name, read one after the other. */
  lemma RowAtParts(values: seq<byte>, cursor: nat, row: ListRow, next: nat)
    requires RowAt(values, cursor) == Some((row, next))
    ensures NulFrom(values, cursor) && row.name == StringAt(values, cursor)
    ensures cursor + |row.name| + 8 <= |values| && NulFrom(values, cursor + |row.name| + 8)
    ensures row.size == ReadUint64(values, cursor + |row.name|)
    ensures row.typeName == StringAt(values, cursor + |row.name| + 8)
    ensures next == cursor + |row.name| + 8 + |row.typeName|
  {
  }

  /**
   * The body of the loop in `spits_get_metrics_list`: a name, an 8-byte size and a type
   * name, read in turn from `cursor`; `next` is the cursor just past them.
   */
  method ReadRow(values: seq<byte>, cursor: nat) returns (row: ListRow, next: nat)
    requires RowAt(values, cursor).Some?
    ensures RowAt(values, cursor) == Some((row, next))
  {
    ghost var (expected, after) := RowAt(values, cursor).value;
    RowAtParts(values, cursor, expected, after);
    var metricName := ReadString(values, cursor);
    assert metricName == expected.name;
    next := cursor + |metricName|;
    var metricSize := ReadUint64(values, next);
    assert metricSize == expected.size;
    next := next + 8;
    var metricType := ReadString(values, next);
    assert metricType == expected.typeName;
    next := next + |metricType|;
    row := ListRow(metricName, metricSize, metricType);
    assert row == expected && next == after;
  }

  /** Moving the first remaining row to the end of the rows read keeps the whole. */
  lemma ShiftRow<T>(done: seq<T>, remaining: seq<T>)
    requires remaining != []
    ensures done + remaining == (done + [remaining[0]]) + remaining[1..]
  {
    assert remaining == [remaining[0]] + remaining[1..];
  }

  /**
   * `spits_get_metrics_list`: None when the module does not export the list;
   * otherwise the rows the export holds, in the order they were written.
   */
  method SpitsGetMetricsList(hasExport: bool, values: seq<byte>) returns (metrics: Option<seq<ListRow>>)
    requires hasExport ==> DecodedList(values).Some?
    ensures !hasExport ==> metrics == None
    ensures hasExport ==> metrics == DecodedList(values)
  {
    if !hasExport {
      return None;
    }
    var rows: seq<ListRow> := [];
    var numMetrics := ReadUint64(values, 0);
    var cursor: nat := 8;
    DecodedListIs(values, numMetrics);
    ghost var whole := DecodedList(values).value;
    ghost var remaining := whole;
    for i := 0 to numMetrics
      invariant ListFrom(values, cursor, numMetrics - i) == Some(remaining)
      invariant whole == rows + remaining
    {
      ListFromFirst(values, cursor, numMetrics - i, remaining);
      var row, next := ReadRow(values, cursor);
      ListFromNext(values, cursor, numMetrics - i, remaining, row, next, numMetrics - (i + 1));
      ShiftRow(rows, remaining);
      rows := rows + [row];
      remaining := remaining[1..];
      cursor := next;
    }
    ListFromDone(values, cursor, numMetrics - numMetrics, remaining);
    assert rows == whole;
    metrics := Some(rows);
  }

  /** The three fields of a list record, its strings without their NUL. */
  datatype Field = Field(key: seq<byte>, size: u64, typeName: seq<byte>)

  /** A record as the list export writes it: two C strings around an 8-byte size. */
  function FieldBytes(f: Field): seq<byte>
  {
    CStr(f.key) + U64(f.size) + CStr(f.typeName)
  }

  /** The row the reader makes of a record: its strings keep their NUL. */
  function FieldRow(f: Field): ListRow
  {
    ListRow(CStr(f.key), f.size, CStr(f.typeName))
  }

  function FieldRows(fs: seq<Field>): seq<ListRow>
  {
    if fs == [] then [] else [FieldRow(fs[0])] + FieldRows(fs[1..])
  }

  /** No string of any record holds a NUL, stated one record at a time. */
  predicate CFields(fs: seq<Field>)
  {
    fs == [] || (0 !in fs[0].key && 0 !in fs[0].typeName && CFields(fs[1..]))
  }

  /** A name, a size and a type name written one after the other at `at` decode to their row. */
  lemma RowAtFields(values: seq<byte>, at: nat, f: Field, sizeAt: nat, typeAt: nat, next: nat)
    requires 0 !in f.key && 0 !in f.typeName
    requires sizeAt == at + |CStr(f.key)| && typeAt == sizeAt + 8 && next == typeAt + |CStr(f.typeName)| && next <= |values|
    requires values[at..sizeAt] == CStr(f.key)
    requires values[sizeAt..typeAt] == U64(f.size)
    requires values[typeAt..next] == CStr(f.typeName)
    ensures RowAt(values, at) == Some((FieldRow(f), next))
  {
    StringAtCStr(values, at, f.key);
    StringAtCStr(values, typeAt, f.typeName);
    ReadUint64At(values, sizeAt, f.size);
    RowAtIs(values, at, CStr(f.key), sizeAt, typeAt, CStr(f.typeName), next);
  }

  /** The three fields of a record written at `at`, each at its own position. */
  lemma RecordWindows(values: seq<byte>, at: nat, f: Field, sizeAt: nat, typeAt: nat, next: nat)
    requires at + |FieldBytes(f)| <= |values| && values[at..at + |FieldBytes(f)|] == FieldBytes(f)
    requires sizeAt == at + |CStr(f.key)| && typeAt == sizeAt + 8 && next == typeAt + |CStr(f.typeName)|
    ensures next == at + |FieldBytes(f)| && next <= |values|
    ensures values[at..sizeAt] == CStr(f.key)
    ensures values[sizeAt..typeAt] == U64(f.size)
    ensures values[typeAt..next] == CStr(f.typeName)
  {
    var name, size, typeName := CStr(f.key), U64(f.size), CStr(f.typeName);
    var record := FieldBytes(f);
    Parts3(name, size, typeName);
    Window(values, at, record, 0, |name|, at);
    Window(values, at, record, |name|, |size|, sizeAt);
    Window(values, at, record, |name| + |size|, |typeName|, typeAt);
  }

  /** One record written at `at` decodes to its row, and the cursor moves past it. */
  lemma RowAtRecord(values: seq<byte>, at: nat, f: Field)
    requires 0 !in f.key && 0 !in f.typeName
    requires at + |FieldBytes(f)| <= |values| && values[at..at + |FieldBytes(f)|] == FieldBytes(f)
    ensures RowAt(values, at) == Some((FieldRow(f), at + |FieldBytes(f)|))
  {
    var sizeAt := at + |CStr(f.key)|;
    var typeAt := sizeAt + 8;
    var next := typeAt + |CStr(f.typeName)|;
    RecordWindows(values, at, f, sizeAt, typeAt, next);
    RowAtFields(values, at, f, sizeAt, typeAt, next);
  }

  /** A record at `at` followed by rows that decode: the record's row comes first. */
  lemma RecordThenRows(values: seq<byte>, at: nat, f: Field, next: nat, rest: seq<Field>, count: nat)
    requires 0 !in f.key && 0 !in f.typeName
    requires next == at + |FieldBytes(f)| && next <= |values| && values[at..next] == FieldBytes(f)
    requires count == |rest| + 1 && ListFrom(values, next, |rest|) == Some(FieldRows(rest))
    ensures ListFrom(values, at, count) == Some([FieldRow(f)] + FieldRows(rest))
  {
    RowAtRecord(values, at, f);
    ListFromCons(values, at, count, FieldRow(f), next, |rest|, FieldRows(rest));
  }

  /** Records written one after the other at `at` decode to their rows: the reader inverts the writer. */
  lemma {:induction false} ListFromRecords(values: seq<byte>, at: nat, fs: seq<Field>)
    requires CFields(fs)
    requires at + |Concat(fs, FieldBytes)| <= |values|
    requires values[at..at + |Concat(fs, FieldBytes)|] == Concat(fs, FieldBytes)
    ensures ListFrom(values, at, |fs|) == Some(FieldRows(fs))
    decreases |fs|
  {
    if fs != [] {
      var f, rest := fs[0], fs[1..];
      var record := FieldBytes(f);
      var tail := Concat(rest, FieldBytes);
      var all := Concat(fs, FieldBytes);
      assert all == record + tail;
      Parts2(record, tail);
      var next := at + |record|;
      Window(values, at, all, 0, |record|, at);
      Window(values, at, all, |record|, |tail|, next);
      ListFromRecords(values, next, rest);
      RecordThenRows(values, at, f, next, rest, |fs|);
    }
  }

  /** How a buffer of the C++ store reads back from the list export. */
  function ExpectedRow(e: Entry<BufferState>): ListRow
  {
    ListRow(CStr(e.key), e.value.size, CStr(TypeName(e.value.mtype)))
  }

  /** One row per buffer, in the buffers' order. */
  function ExpectedRows(es: seq<Entry<BufferState>>): seq<ListRow>
  {
    if es == [] then [] else [ExpectedRow(es[0])] + ExpectedRows(es[1..])
  }

  function FieldOf(e: Entry<BufferState>): Field
  {
    Field(e.key, e.value.size, TypeName(e.value.mtype))
  }

  function FieldsOf(es: seq<Entry<BufferState>>): seq<Field>
  {
    if es == [] then [] else [FieldOf(es[0])] + FieldsOf(es[1..])
  }

  /** The store's list records are field records, with the rows the reader expects. */
  lemma {:induction false} FieldsOfList(buffers: seq<Entry<BufferState>>, k: nat)
    requires CNames(buffers) && k <= |buffers|
    ensures Concat(buffers[k..], ListRecord) == Concat(FieldsOf(buffers[k..]), FieldBytes)
    ensures FieldRows(FieldsOf(buffers[k..])) == ExpectedRows(buffers[k..])
    ensures CFields(FieldsOf(buffers[k..]))
    decreases |buffers| - k
  {
    if k < |buffers| {
      var es := buffers[k..];
      assert es[1..] == buffers[k + 1..];
      assert buffers[k].key in KeySet(buffers);
      FieldsOfList(buffers, k + 1);
      assert ListRecord(es[0]) == FieldBytes(FieldOf(es[0]));
    }
  }

  /** The list export starts with the number of buffers, then holds their records. */
  lemma ListExportLayout(buffers: seq<Entry<BufferState>>)
    requires |buffers| < TWO_63
    ensures 8 <= |ListExport(buffers)| && ReadUint64(ListExport(buffers), 0) == |buffers|
    ensures 8 + |Concat(buffers, ListRecord)| <= |ListExport(buffers)|
    ensures ListExport(buffers)[8..8 + |Concat(buffers, ListRecord)|] == Concat(buffers, ListRecord)
  {
    var n := Int64Cast(|buffers|);
    var m: u64 := |buffers|;
    assert n == m;
    var head := I64(n);
    assert head == U64(m);
    var data := ListExport(buffers);
    var all := Concat(buffers, ListRecord);
    assert data == head + all;
    Parts2(head, all);
    ReadUint64At(data, 0, m);
  }

  /** The layout of a list export: the number of records, then the records one after the other. */
  predicate ListLayout(data: seq<byte>, fs: seq<Field>)
  {
    8 <= |data| && ReadUint64(data, 0) == |fs| &&
    8 + |Concat(fs, FieldBytes)| <= |data| &&
    data[8..8 + |Concat(fs, FieldBytes)|] == Concat(fs, FieldBytes)
  }

  /** Bytes laid out as a count followed by that many records decode to the records' rows. */
  lemma ListDecodes(data: seq<byte>, fs: seq<Field>, rows: seq<ListRow>)
    requires CFields(fs) && FieldRows(fs) == rows && ListLayout(data, fs)
    ensures DecodedList(data) == Some(rows)
  {
    ListFromRecords(data, 8, fs);
    DecodedListIs(data, |fs|);
  }

  /** The list export is a count followed by the field records of the buffers. */
  lemma ListExportFields(buffers: seq<Entry<BufferState>>)
    requires CNames(buffers) && |buffers| < TWO_63
    ensures CFields(FieldsOf(buffers)) && FieldRows(FieldsOf(buffers)) == ExpectedRows(buffers)
    ensures ListLayout(ListExport(buffers), FieldsOf(buffers))
  {
    ListExportLayout(buffers);
    FieldsOfList(buffers, 0);
    assert buffers[0..] == buffers;
    FieldsOfLength(buffers);
  }

  /**
   * The list export of the C++ store reads back as one row per buffer, in name order:
   * its name and its type name (each with the NUL the reader keeps) and its size.
   */
  lemma ListRoundTrip(buffers: seq<Entry<BufferState>>)
    requires CNames(buffers) && |buffers| < TWO_63
    ensures DecodedList(ListExport(buffers)) == Some(ExpectedRows(buffers))
  {
    ListExportFields(buffers);
    ListDecodes(ListExport(buffers), FieldsOf(buffers), ExpectedRows(buffers));
  }

  lemma {:induction false} FieldsOfLength(es: seq<Entry<BufferState>>)
    ensures |FieldsOf(es)| == |es|
  {
    if es != [] {
      FieldsOfLength(es[1..]);
    }
  }

  /** One decoded last value: the name asked for and the four 8-byte fields read for it. */
  datatype LastValueRow = LastValueRow(name: Key, value: u64, sec: u64, nsec: u64, seqNo: u64)

  /** The four fields at `at`, read for `name`. */
  function LastValueAt(name: Key, values: seq<byte>, at: nat): LastValueRow
    requires at + 32 <= |values|
  {
    LastValueRow(name, ReadUint64(values, at), ReadUint64(values, at + 8),
                 ReadUint64(values, at + 16), ReadUint64(values, at + 24))
  }

  /**
   * `spits_get_metrics_last_values`: one row per requested name, in request order,
   * the i-th read from the 32 bytes at offset 32 * i.
   */
  method SpitsGetMetricsLastValues(names: seq<Key>, values: seq<byte>) returns (lastValues: seq<LastValueRow>)
    requires 32 * |names| <= |values|
    ensures |lastValues| == |names|
    ensures forall i :: 0 <= i < |names| ==> lastValues[i] == LastValueAt(names[i], values, 32 * i)
  {
    var cursor := 0;
    lastValues := [];
    for i := 0 to |names|
      invariant cursor == 32 * i && |lastValues| == i
      invariant forall j :: 0 <= j < i ==> lastValues[j] == LastValueAt(names[j], values, 32 * j)
    {
      var value := ReadUint64(values, cursor);
      cursor := cursor + 8;
      var tvSec := ReadUint64(values, cursor);
      cursor := cursor + 8;
      var tvNsec := ReadUint64(values, cursor);
      cursor := cursor + 8;
      var sequenceNo := ReadUint64(values, cursor);
      cursor := cursor + 8;
      lastValues := lastValues + [LastValueRow(names[i], value, tvSec, tvNsec, sequenceNo)];
    }
  }

  lemma {:induction false} ConcatWidth<T>(xs: seq<T>, f: T -> seq<byte>, w: nat)
    requires forall j :: 0 <= j < |xs| ==> |f(xs[j])| == w
    ensures w * |xs| == |Concat(xs, f)|
    decreases |xs|
  {
    if xs != [] {
      ConcatWidth(xs[1..], f, w);
      assert w * |xs| == w + w * (|xs| - 1);
    }
  }

  /** Chunks of one width w: the i-th chunk sits at offset w * i. */
  lemma {:induction false} ConcatChunk<T>(xs: seq<T>, f: T -> seq<byte>, w: nat, i: nat)
    requires forall j :: 0 <= j < |xs| ==> |f(xs[j])| == w
    requires i < |xs|
    ensures w * i + w <= |Concat(xs, f)|
    ensures Concat(xs, f)[w * i..w * i + w] == f(xs[i])
    decreases |xs|
  {
    var a, b := f(xs[0]), Concat(xs[1..], f);
    assert Concat(xs, f) == a + b;
    if i == 0 {
      assert (a + b)[0..w] == a;
    } else {
      ConcatChunk(xs[1..], f, w, i - 1);
      var m := w * (i - 1);
      assert w * i == m + w;
      assert (a + b)[w + m..w + m + w] == b[m..m + w];
    }
  }

  /** The newest element of a readable integer buffer holds an integer. */
  lemma NewestIsInt(buffers: seq<Entry<BufferState>>, name: Key)
    requires AllWellFormed(buffers) && Readable(buffers, name) && Get(buffers, name).value.mtype == TypeInt
    ensures NewestElement(buffers, name).value.IntValue?
  {
    GetWellFormed(buffers, name);
    var s := Get(buffers, name).value.samples;
    assert TypeOf(s[|s| - 1].value) == TypeInt;
  }

  /** A signed field written at `at` reads back as its two's-complement bit pattern. */
  lemma ReadI64At(values: seq<byte>, at: nat, chunk: seq<byte>, k: nat, x: i64)
    requires at + |chunk| <= |values| && values[at..at + |chunk|] == chunk
    requires k + 8 <= |chunk| && chunk[k..k + 8] == I64(x)
    ensures ReadUint64(values, at + k) == ToUnsigned64(x)
  {
    Window(values, at, chunk, k, 8, at + k);
    assert I64(x) == U64(ToUnsigned64(x));
    ReadUint64At(values, at + k, ToUnsigned64(x));
  }

  /** The 32-byte record of an integer element reads back field by field. */
  lemma LastRecordReadsBack(name: Key, e: Element, values: seq<byte>, at: nat)
    requires e.value.IntValue?
    requires at + 32 <= |values| && values[at..at + 32] == LastRecord(e)
    ensures LastValueAt(name, values, at) ==
      LastValueRow(name, ToUnsigned64(e.value.i), ToUnsigned64(e.time.sec), ToUnsigned64(e.time.nsec), Stamp(e.seqNo))
  {
    var a, b, c, d := I64(e.value.i), I64(e.time.sec), I64(e.time.nsec), I64(Stamp(e.seqNo));
    var r := LastRecord(e);
    assert r == a + b + c + d;
    assert r[0..8] == a && r[8..16] == b && r[16..24] == c && r[24..32] == d;
    ReadI64At(values, at, r, 0, e.value.i);
    ReadI64At(values, at, r, 8, e.time.sec);
    ReadI64At(values, at, r, 16, e.time.nsec);
    ReadI64At(values, at, r, 24, Stamp(e.seqNo));
  }

  /**
   * The last-values export of integer metrics reads back, name by name, as the newest
   * element's value, seconds, nanoseconds and sequence number. The reader takes every
   * field as unsigned, so a negative value comes back as its 64-bit two's-complement
   * pattern.
   */
  lemma LastValuesRoundTrip(buffers: seq<Entry<BufferState>>, names: seq<Key>)
    requires AllWellFormed(buffers)
    requires forall i :: 0 <= i < |names| ==> Readable(buffers, names[i]) && Get(buffers, names[i]).value.mtype == TypeInt
    ensures LastValuesExport(buffers, names).Ok?
    ensures 32 * |names| <= |LastValuesExport(buffers, names).value|
    ensures forall i :: 0 <= i < |names| ==>
      NewestElement(buffers, names[i]).value.IntValue? &&
      LastValueAt(names[i], LastValuesExport(buffers, names).value, 32 * i) ==
        var e := NewestElement(buffers, names[i]);
        LastValueRow(names[i], ToUnsigned64(e.value.i), ToUnsigned64(e.time.sec), ToUnsigned64(e.time.nsec), Stamp(e.seqNo))
  {
    LastValuesSucceed(buffers, names);
    var g := NewestRecordOf(buffers);
    var data := Concat(names, g);
    forall j | 0 <= j < |names|
      ensures |g(names[j])| == 32 && NewestElement(buffers, names[j]).value.IntValue?
    {
      NewestIsInt(buffers, names[j]);
    }
    ConcatWidth(names, g, 32);
    forall i | 0 <= i < |names|
      ensures NewestElement(buffers, names[i]).value.IntValue? &&
        var e := NewestElement(buffers, names[i]);
        LastValueAt(names[i], data, 32 * i) ==
          LastValueRow(names[i], ToUnsigned64(e.value.i), ToUnsigned64(e.time.sec), ToUnsigned64(e.time.nsec), Stamp(e.seqNo))
    {
      ConcatChunk(names, g, 32, i);
      NewestIsInt(buffers, names[i]);
      LastRecordReadsBack(names[i], NewestElement(buffers, names[i]), data, 32 * i);
    }
  }

  /**
   * The export the C++ code writes, which reads each ring through `peek_front` as
   * written, reads back the same way whenever no requested name has its head back at
   * slot 0; the record read back at head 0 is not the newest one (`LastValueAsWrittenAtZero`).
   */
  lemma LastValuesAsWrittenRoundTrip(buffers: seq<Entry<BufferState>>, names: seq<Key>)
    requires AllWellFormed(buffers)
    requires forall i :: 0 <= i < |names| ==> Readable(buffers, names[i]) && Get(buffers, names[i]).value.mtype == TypeInt
    requires forall i :: 0 <= i < |names| ==> !HeadAtZero(buffers, names[i])
    ensures LastValuesExportAsWritten(buffers, names).Ok?
    ensures 32 * |names| <= |LastValuesExportAsWritten(buffers, names).value|
    ensures forall i :: 0 <= i < |names| ==>
      NewestElement(buffers, names[i]).value.IntValue? &&
      LastValueAt(names[i], LastValuesExportAsWritten(buffers, names).value, 32 * i) ==
        var e := NewestElement(buffers, names[i]);
        LastValueRow(names[i], ToUnsigned64(e.value.i), ToUnsigned64(e.time.sec), ToUnsigned64(e.time.nsec), Stamp(e.seqNo))
  {
    LastValuesAsWrittenAgree(buffers, names);
    LastValuesRoundTrip(buffers, names);
  }
}

# SPITS metrics store and its readers, in Dafny

SPITS (Scalable Partitioned Integration of Task Systems) gives each job process a small
metrics store. A process records int, float, double, string, date-time and byte samples
under named channels. Each channel is a fixed-capacity ring that drops its oldest sample
when full and stamps every sample with a per-channel sequence number. The store
serialises its channel list, the last values and the history windows into a flat byte
buffer, and an external reader decodes it.

This project models the five variants of that store, each against its own header. It
also models the readers and the small tools around them.

- **dev store** (`dev/include/metrics.hpp`), in `dev_ring.dfy`, `dev_metrics.dfy` and
  `dev_exports.dfy`:
  - the size/head/tail `ring<T>`;
  - the sequence-counting buffers;
  - the name-to-buffer map with lazy creation;
  - `last_values`, with its count clamp and its all-or-nothing lookup;
  - the list, last-values and history exports.
- **API store** (`API/include/metrics.hpp`), in `api_metrics.dfy` and `api_exports.dfy`:
  - the deque `Ring`;
  - `MetricBuffer`, with its 32-bit wrapping counter and `retrieve_multiple`;
  - `MetricManager::_add_metric`;
  - the C exports that fill `buffer_infos` and `buffer_metrics`.
- **ccpp store** (`spitz-include/ccpp/metrics.hpp`), in `ccpp_ring.dfy` and
  `ccpp_metrics.dfy`: the head/tail/full-flag `RingBuffer`, `MetricBuffer`,
  `spitz::metrics` with its three serialisers, and the C wrappers. The ring's
  `peek_front` and `at` read the slots the code computes, and the last-values and
  history serialisers read through them as written. The reads the code evidently
  intends (the newest element; the i-th oldest) are modelled beside them, with lemmas
  saying when the two agree and inputs where they differ (see "## Findings").
- **spitz store** (`spitz-include/ccpp/spitz/metrics.hpp`), in `spitz_ring.dfy`,
  `spitz_metrics.dfy` and `spitz_exports.dfy`. Its reads are destructive: `pop` and
  `pop_front` move samples out of the ring.
- **legacy store** (`API/include/utils.hpp`), in `legacy_ring.dfy` and
  `legacy_metrics.dfy`:
  - `CircularBuffer` and its iterator;
  - the `Metrics` class, with its nineteen pre-registered names;
  - `_set_metric`, whose checks are modelled; it then returns before storing anything;
  - `serializate`.
- **Python decoder** (`spitz-python/libspitz/JobBinary.py`), in `job_binary.dfy`:
  `read_uint64`, `read_string`, and the list and last-values decoding loops.
  `ListRoundTrip` and `LastValuesRoundTrip` prove that the decoder inverts the ccpp
  encoder.
- **Test decoders** (`dev/unit-tests/utils.cpp`), in `test_utils.dfy`: `ntohll`, `get_8`,
  `read_longlong`, `read_string` and `generate_random_string`.
- **Node list** of the job manager (`runtime/pypits/jm.py`), in `node_list.dfy`:
  `parse_proxy`, `parse_node` and the comprehensions of `load_tm_list_from_file`.
- **Log accounting** of `tools/perf-pits.py`:
  - `processTasks`, in `perf_pits.dfy`, over an array of jobs updated in place;
  - the task-number extraction of `loadFiles`, in `perf_log.dfy`.
- **Script helpers** `make_uid` and `str2bool`, in `job_scripts.dfy`.

Shared pieces:

- `wrappers.dfy`: `Option` and `Result`.
- `bytes.dfy`: bytes, big-endian integers, two's complement, and C's truncating `%`.
- `ordered_map.dfy`: `std::map` as a key-sorted sequence.
- `ring_spec.dfy`: the abstract bounded FIFO that every ring is proved against.
- `slots.dfy`: how a ring's elements sit in its slot array.
- `py_text.dfy`: the Python string operations the scripts use.

How the model is built:

- Every ring is a class over an `array` of slots. Its methods are proved to act on the
  elements, oldest first, as `RingSpec.Evicting` and popping do.
- Every store is a class whose map field holds each buffer's state as a value. The
  buffer classes are proved against the same state functions that the stores use.
- Exports return the bytes they serialise, or `None` for NULL.
- A C++ exception or a Python raise is an `Err`.
- The clock, the host byte order, `rand()`, `os.getpid()` and `datetime.now()` are
  parameters.

Where the code and its documentation or tests disagree, the model follows the code. Where
the code is evidently wrong, it is modelled as written, with the intended behaviour beside
it (see "## Findings"). Inputs on which the code has undefined behaviour are excluded by
preconditions, each listed under "## Left out". The disagreements followed:

- The unit tests (`API/unit-tests/test_c_interface.cpp:87`, `:183`) read a type tag in
  front of each exported value. The dev encoder writes none (`dev/include/metrics.hpp:768-799`,
  `:828-862`), and the model writes none.
- Listings come in `std::map` order, which is name order, not creation order.
- In the dev store, `from_last = true` selects the oldest retained samples.
- In the API store, `retrieve_multiple(n)` gives the oldest n samples.
- The spitz `BytesElement` takes the buffer's sequence as its size argument. It is
  modelled as written: such a sample has sequence number 0.
- The Python decoder reads the layout of the ccpp exports: type names as strings and
  8-byte values. The spitz exports write an integer type code instead. The round-trip
  lemmas are therefore stated against the ccpp encoder.

## Model

| member | source | states |
|---|---|---|
| TestUtils.NtohllReverses | dev/unit-tests/utils.cpp:26-35 | on a little-endian host `ntohll` reverses the eight bytes of its argument (the 32-bit halves swap and each is byte-swapped) |
| TestUtils.Get8IsBigEndian | dev/unit-tests/utils.cpp:43-47 | on either host byte order `get_8` reads the first eight bytes most significant first |
| TestUtils.ReadLongLongOfI64 | dev/unit-tests/utils.cpp:49-53 | `read_longlong` gives back any int64 written as eight big-endian two's-complement bytes, on either host |
| TestUtils.ReadString | dev/unit-tests/utils.cpp:68-75 | the loop returns the bytes before the first NUL, the NUL excluded |
| TestUtils.GenerateRandomString | dev/unit-tests/utils.cpp:6-23 | the result has exactly `len` characters, the i-th being `alphanum[draws[i] % 62]`, so each is a digit or an ASCII letter |
| Bytes.UntilNulOfCStr | dev/unit-tests/utils.cpp:68-75 | reading up to the first NUL what a writer emitted as a NUL-terminated string gives the string back |
| Bytes.SignedUnsignedInverse | dev/unit-tests/utils.cpp:49-53 | reading a 64-bit pattern as int64 undoes two's complement: the two views are a bijection |
| Bytes.UnsignedOfBigEndian | dev/unit-tests/utils.cpp:43-53 | decoding a w-byte big-endian encoding gives back the encoded number |
| Bytes.BigEndianOfUnsigned | dev/unit-tests/utils.cpp:43-53 | encoding the number a byte string denotes gives the byte string back |
| Bytes.CRem | spitz-include/ccpp/spitz/metrics.hpp:49-51 | C's `%`: the remainder has the magnitude of |a| mod |b| and the sign of a |
| Bytes.AppendAll | dev/include/metrics.hpp:727-736 | a writer's loop over a sequence appends each item's bytes to the stream, in order |
| RingSpec.Evicting | dev/include/metrics.hpp:177-185 | pushing onto a ring holding at most `capacity` elements keeps at most `capacity`: the newest of the old contents followed by the new element |
| RingSpec.PushAllKeepsNewest | dev/include/metrics.hpp:177-185 | after any sequence of pushes the ring holds exactly the `capacity` most recent of all elements it held and was given, oldest first |
| RingSpec.PushAllFromEmpty | dev/include/metrics.hpp:177-185 | from an empty ring, N pushes leave min(N, capacity) elements, the last ones pushed, in push order |
| Slots.HoldsPush | dev/include/metrics.hpp:182-184 | writing the slot after the newest element and moving head on appends the element to the ring's contents |
| Slots.HoldsPop | dev/include/metrics.hpp:187-196 | the tail slot holds the oldest element, and advancing tail leaves the remaining contents in place |
| DevRing.Ring.constructor | dev/include/metrics.hpp:160-164 | a new ring of the given capacity holds no element |
| DevRing.Ring.Push | dev/include/metrics.hpp:177-185 | the contents become Evicting(old contents, capacity, x): on a full ring the oldest element is popped first, then x is stored as the newest |
| DevRing.Ring.Store | dev/include/metrics.hpp:182-184 | on a ring that is not full, x is appended after the newest element |
| DevRing.Ring.Pop | dev/include/metrics.hpp:187-196 | an empty ring yields null and stays empty; otherwise the oldest element is returned and removed, the others stay in order |
| DevRing.Ring.GetFrontElement | dev/include/metrics.hpp:198-205 | the newest element (the slot before head, wrapping to capacity - 1), null on an empty ring |
| DevRing.Ring.GetBackElement | dev/include/metrics.hpp:207-211 | the oldest element, null on an empty ring |
| DevRing.Ring.GetElement | dev/include/metrics.hpp:213-219 | the index-th oldest element for 0 <= index < length, null for a negative or too large index and on an empty ring |
| DevRing.Ring.Full | dev/include/metrics.hpp:221-224 | true exactly when the ring holds `capacity` elements |
| DevRing.Ring.Empty | dev/include/metrics.hpp:226-229 | true exactly when the ring holds no element |
| DevRing.Ring.Length | dev/include/metrics.hpp:231-234 | the number of elements held |
| DevMetrics.TypeCode | dev/include/metrics.hpp:26-31 | the type written to the wire is one of the codes 0..3 |
| DevMetrics.TypeCodeInjective | dev/include/metrics.hpp:26-31 | distinct element types have distinct codes |
| DevMetrics.StringValue | dev/include/metrics.hpp:609-622 | a string is stored as its characters plus the terminating NUL (strlen + 1 bytes), and reading up to the NUL gives the string back |
| DevMetrics.NewBuffer | dev/include/metrics.hpp:260-265 | a capacity of 0 throws `runtime_error`; a capacity above INT_MAX fails the ring's array allocation; otherwise the buffer is empty, with counter 0 and the requested type and capacity |
| DevMetrics.Appended | dev/include/metrics.hpp:304-307 | an add pushes a sample stamped with the current counter, then increments the counter; type and capacity stay and the buffer stays well formed |
| DevMetrics.PushKeepsWellFormed | dev/include/metrics.hpp:304-307 | the retained samples keep consecutive sequence numbers ending at counter - 1 and the buffer's type, after every add |
| DevMetrics.AppendedAllCounter | dev/include/metrics.hpp:304-307 | after k adds the counter has moved on by exactly k |
| DevMetrics.AppendedAllPushes | dev/include/metrics.hpp:304-307 | k adds push onto the ring the k samples stamped with the successive counter values |
| DevMetrics.AddsToNewBuffer | dev/include/metrics.hpp:260-307 | k adds to a new buffer of capacity C (0 < C <= INT_MAX) leave counter k and the newest min(k, C) stamped samples |
| DevMetrics.AddsRetain | dev/include/metrics.hpp:304-307 | after k adds a buffer of capacity C holds min(k, C) samples, the i-th carrying the value, time and sequence number k - min(k, C) + i of that add |
| DevMetrics.Window | dev/include/metrics.hpp:489-538 | the samples taken from one buffer for a request of n: none for n <= 0, otherwise min(n, retained); the oldest ones with `from_last`, else the newest, oldest to newest |
| DevMetrics.WindowSequenceNumbers | dev/include/metrics.hpp:489-538 | the gathered samples carry consecutive sequence numbers, starting at the oldest retained one with `from_last` and ending at counter - 1 otherwise |
| DevMetrics.WindowClamped | dev/include/metrics.hpp:489-493 | the request clamped to capacity and then to the counter never exceeds `last`, the number of retained samples, and fixes the window |
| DevMetrics.Gather | dev/include/metrics.hpp:489-538 | the per-buffer loop of `last_values` gathers exactly Window(b, n, from_last) |
| DevMetrics.GatherFrom | dev/include/metrics.hpp:500-538 | appending the i-th oldest, or inserting the (last - i - 1)-th in front, requested times, yields the oldest or the newest `requested` samples in order |
| DevMetrics.LastValuesStop | dev/include/metrics.hpp:476-484 | a request for an unknown name makes `last_values` return the empty map, whatever was gathered before |
| DevMetrics.LastValuesStep | dev/include/metrics.hpp:486-546 | a request for a known name puts that buffer's window into the result map under its name and goes on with the next request |
| DevMetrics.LastValuesAllOrNothing | dev/include/metrics.hpp:476-484 | an unknown name anywhere among the requests makes the whole result empty |
| DevMetrics.LastValuesWindows | dev/include/metrics.hpp:466-550 | with every name known, each requested name maps to the window of its last request (a later duplicate overwrites an earlier one) and no other name is added |
| DevMetrics.MetricBuffer.constructor | dev/include/metrics.hpp:293-295 | a new typed buffer is empty, with counter 0 |
| DevMetrics.MetricBuffer.Create | dev/include/metrics.hpp:260-265 | construction fails exactly as NewBuffer says (capacity 0 throws) and otherwise yields a buffer in the NewBuffer state |
| DevMetrics.MetricBuffer.AddElement | dev/include/metrics.hpp:304-307 | the buffer's state becomes Appended(old state, v, now) |
| DevMetrics.MetricBuffer.GetElement | dev/include/metrics.hpp:309-315 | a copy of the index-th oldest retained sample, null outside the retained range |
| DevMetrics.MetricBuffer.GetFrontElement | dev/include/metrics.hpp:317-322 | a copy of the newest sample, null on an empty buffer |
| DevMetrics.MetricBuffer.GetBackElement | dev/include/metrics.hpp:324-329 | a copy of the oldest retained sample, null on an empty buffer |
| DevMetrics.GetOrCreate | dev/include/metrics.hpp:646-679 | a known name yields its buffer and no change; an unknown one throws when creation is not allowed, fails when the new buffer throws, and otherwise adds an empty buffer of the default capacity under it, leaving every other name as it was |
| DevMetrics.AddMetricSpec | dev/include/metrics.hpp:579-634 | every buffer of the store stays well formed after an add |
| DevMetrics.AddMetricEffect | dev/include/metrics.hpp:579-634 | an add fails exactly when the name is new and its buffer cannot be built; otherwise the name's buffer (new, of the default capacity, for a new name) gains the sample stamped with its counter, and every other name keeps its buffer |
| DevMetrics.AddMetricSpecSteps | dev/include/metrics.hpp:579-581 | `add_metric` is `get_or_create_buffer(name, true, type)` followed by `add_element` on the buffer it returns |
| DevMetrics.Metrics.constructor | dev/include/metrics.hpp:397-399 | a new store has no buffer and the given default capacity |
| DevMetrics.Metrics.Reset | dev/include/metrics.hpp:409-419 | every buffer is removed and the default capacity is untouched |
| DevMetrics.Metrics.GetDefaultCapacity | dev/include/metrics.hpp:424-427 | returns the default capacity |
| DevMetrics.Metrics.SetDefaultCapacity | dev/include/metrics.hpp:433-436 | changes only the default capacity, no existing buffer |
| DevMetrics.Metrics.GetNumMetricBuffers | dev/include/metrics.hpp:441-444 | the number of distinct names in the store |
| DevMetrics.Metrics.List | dev/include/metrics.hpp:450-457 | one (name, capacity, type code) triple per buffer, in strictly increasing name order, naming exactly the store's names |
| DevMetrics.Metrics.LastValues | dev/include/metrics.hpp:466-550 | the result is LastValuesSpec of the store and the requests, whose all-or-nothing and per-name windows are proved above |
| DevMetrics.Metrics.GetOrCreateBuffer | dev/include/metrics.hpp:646-679 | the store and the result follow GetOrCreate of the old store; on failure nothing changes |
| DevMetrics.Metrics.AddMetric | dev/include/metrics.hpp:579-634 | the store becomes AddMetricSpec of the old store, or stays as it was with the error when creating the buffer throws |
| DevExports.EncodeValue | dev/include/metrics.hpp:768-790 | an int or a double takes 8 bytes and a float 4; a byte payload is its int64 size followed by the bytes themselves |
| DevExports.SeqNo32 | dev/include/metrics.hpp:69-72 | the sequence number is kept as an `unsigned int`, so it is the counter whenever that is below 2^32 |
| DevExports.SpitsMetricsLastValues | dev/include/metrics.hpp:739-748 | the result is `last_values` of the store for the requests built from the names, each with its count from sizes or 1 when sizes is NULL |
| DevExports.WriteBlocks | dev/include/metrics.hpp:819-863 | the serialising loop gives Body of the vectors the map holds for the names: NULL at the first empty vector, else every name's block in order |
| DevExports.WriteBlock | dev/include/metrics.hpp:828-862 | one name's block appended to the stream: with history the first sequence number and the count, then each sample's record |
| DevExports.BodyNoneExtends | dev/include/metrics.hpp:759-766 | once the names read so far give NULL, the whole loop gives NULL |
| DevExports.GetMetricsLastValues | dev/include/metrics.hpp:750-808 | the result is Export of the store with no sizes and no history: NULL for an empty store or a NULL name array, else the loop's output |
| DevExports.GetMetricsHistory | dev/include/metrics.hpp:810-870 | the result is Export of the store with the sizes and the history header |
| DevExports.LastCountPresent | dev/include/metrics.hpp:744-745 | every requested name has a count in the request list, and it is 1 when sizes is NULL |
| DevExports.GetMetricsList | dev/include/metrics.hpp:721-737 | NULL for an empty store; otherwise the int64 count followed by, per buffer in sorted name order, its NUL-terminated name, int64 capacity and int64 type code |
| DevExports.DecodeListEntry | dev/unit-tests/utils.cpp:49-75 | the test decoder reads one list entry back as its (name, capacity, type) and continues right after it |
| DevExports.DecodeListOfEntries | dev/unit-tests/utils.cpp:49-75 | the test decoder reads a run of list entries back as the same rows, in order |
| DevExports.ListExportRoundTrip | dev/include/metrics.hpp:721-737 | decoding the list export with the test helpers recovers, in order, the name, capacity and type code of every buffer |
| DevExports.BodyOfNonEmpty | dev/include/metrics.hpp:819-863 | with no empty vector the loop writes every name's block |
| DevExports.BodyOfEmpty | dev/include/metrics.hpp:822-826 | an empty vector for any name makes the loop give NULL |
| DevExports.BodyAllOrNothing | dev/include/metrics.hpp:819-863 | the loop gives NULL exactly when some vector is empty, and otherwise all the blocks |
| DevExports.ExportUnknownName | dev/include/metrics.hpp:754-757 | an unknown name makes the last-values and the history export NULL |
| DevExports.EntriesAreWindow | dev/include/metrics.hpp:761 | with every name known, the vector the map holds for a requested name is the window of its last request |
| DevExports.KnownNamesVectors | dev/include/metrics.hpp:756-761 | with every name known, the map is not empty and the vectors read in the loop are the names' windows |
| DevExports.ExportOfKnownNames | dev/include/metrics.hpp:750-870 | with a non-empty store and every name known, each export is its loop over the names' windows |
| DevExports.ExportContents | dev/include/metrics.hpp:750-870 | NULL for a NULL name array; a non-NULL result means a non-empty store, at least one name, every name known and every window non-empty, and then it is exactly the blocks of the windows; and the converse |
| DevExports.LastValuesWindowIsNewest | dev/include/metrics.hpp:745 | the last-values export asks for one sample, so a known name's window is its newest sample, or nothing for an empty buffer |
| DevExports.WindowOfOne | dev/include/metrics.hpp:489-538 | a window of one sample is the newest sample, if any |
| ApiMetrics.TypeCode | API/include/metrics.h:9-14 | the data type stored in the C structs is one of the codes 0..3 |
| ApiMetrics.NextMod | API/include/metrics.hpp:119 | incrementing the 32-bit `_sequence` counts modulo 2^32 |
| ApiMetrics.NewBuffer | API/include/metrics.hpp:109-114 | a capacity of 0 throws `length_error` and only then; otherwise the buffer is empty, with `_sequence` 0, the requested type and capacity |
| ApiMetrics.Added | API/include/metrics.hpp:116-120 | `add` pushes the sample stamped with `_sequence`, then increments it modulo 2^32; the ring keeps the newest `capacity` samples |
| ApiMetrics.ConsecutiveSnoc | API/include/metrics.hpp:116-120 | a sample stamped with the counter extends the run of consecutive sequence numbers, and the counter moves past it |
| ApiMetrics.ConsecutiveTail | API/include/metrics.hpp:60-65 | dropping the front of the deque keeps the remaining sequence numbers consecutive |
| ApiMetrics.AddedAllSequence | API/include/metrics.hpp:116-120 | k adds move a counter at `from` (mod 2^32) to from + k (mod 2^32) |
| ApiMetrics.AddedAllPushes | API/include/metrics.hpp:116-120 | k adds push the k samples stamped with the successive counter values |
| ApiMetrics.AddsToNewBuffer | API/include/metrics.hpp:109-120 | k adds to a new buffer of capacity C > 0 leave `_sequence` k mod 2^32 and the newest min(k, C) stamped samples |
| ApiMetrics.AddsRetain | API/include/metrics.hpp:116-120 | after k adds a buffer of capacity C holds min(k, C) samples, the i-th carrying the value, time and number (mod 2^32) of add k - min(k, C) + i |
| ApiMetrics.Retrieved | API/include/metrics.hpp:122-134 | `retrieve_multiple(n)` throws `out_of_range` exactly when n exceeds the size, and otherwise returns the n OLDEST retained samples |
| ApiMetrics.RetrievedAfterAdds | API/include/metrics.hpp:122-134 | after k adds to a new buffer, `retrieve_multiple(n)` returns adds k - min(k, C) .. k - min(k, C) + n - 1, the oldest retained, not the newest |
| ApiMetrics.Ring.constructor | API/include/metrics.hpp:59 | a new deque ring is empty, with the given capacity |
| ApiMetrics.Ring.PushBack | API/include/metrics.hpp:60-65 | the contents become Evicting(old contents, capacity, x): the front is popped when the size equals the capacity |
| ApiMetrics.Ring.Size | API/include/metrics.hpp:136-139 | the number of elements held |
| ApiMetrics.Ring.At | API/include/metrics.hpp:130 | `operator[]`: the i-th oldest element |
| ApiMetrics.Ring.Clear | API/include/metrics.hpp:141-144 | the deque becomes empty |
| ApiMetrics.MetricBuffer.constructor | API/include/metrics.hpp:109-114 | a new buffer has the NewBuffer state: empty, `_sequence` 0 |
| ApiMetrics.MetricBuffer.Create | API/include/metrics.hpp:109-114 | construction throws `length_error` exactly when NewBuffer does, and otherwise yields a buffer in that state |
| ApiMetrics.MetricBuffer.Add | API/include/metrics.hpp:116-120 | the buffer's state becomes Added(old state, value, now) |
| ApiMetrics.MetricBuffer.RetrieveMultiple | API/include/metrics.hpp:122-134 | the result is Retrieved(state, n) |
| ApiMetrics.MetricBuffer.Size | API/include/metrics.hpp:136-139 | the number of retained samples |
| ApiMetrics.MetricBuffer.Reset | API/include/metrics.hpp:141-144 | the samples are dropped and `_sequence` keeps its value |
| ApiMetrics.At | API/include/metrics.hpp:185 | `_metric_map.at(name)` finds the buffer exactly for a known name and throws `out_of_range` otherwise |
| ApiMetrics.PutWellFormed | API/include/metrics.hpp:241 | storing a well-formed buffer under a name keeps every buffer well formed and changes no other name |
| ApiMetrics.AddMetricSpec | API/include/metrics.hpp:234-250 | every buffer stays well formed after `_add_metric` |
| ApiMetrics.AddMetricEffect | API/include/metrics.hpp:234-250 | `_add_metric` fails exactly for an empty name (`invalid_argument`), a known name of another type (`invalid_argument`) or a new buffer of capacity 0 (`length_error`), and then nothing changes; otherwise the named buffer, new with the default capacity for an unknown name, gains the sample and no other name changes |
| ApiMetrics.AddMetricToNew | API/include/metrics.hpp:239-242 | a non-empty unknown name with a non-zero default capacity gets a new buffer of the value's type that then gains the sample |
| ApiMetrics.AddMetricToKnown | API/include/metrics.hpp:243-249 | a known name of the value's type gains the sample in its existing buffer |
| ApiMetrics.MetricManager.constructor | API/include/metrics.hpp:165-166 | a new manager has no buffer and the given default capacity |
| ApiMetrics.MetricManager.GetDefaultCapacity | API/include/metrics.hpp:172-174 | returns the default capacity |
| ApiMetrics.MetricManager.SetDefaultCapacity | API/include/metrics.hpp:176-178 | changes only the default capacity |
| ApiMetrics.MetricManager.GetNumBuffers | API/include/metrics.hpp:180-182 | the number of distinct names, as an `unsigned int` |
| ApiMetrics.MetricManager.GetBufferCapacity | API/include/metrics.hpp:184-186 | the named buffer's capacity; `out_of_range` for an unknown name |
| ApiMetrics.MetricManager.GetBufferDtype | API/include/metrics.hpp:188-190 | the named buffer's type; `out_of_range` for an unknown name |
| ApiMetrics.MetricManager.GetBufferSize | API/include/metrics.hpp:198-201 | the named buffer's number of retained samples; `out_of_range` for an unknown name |
| ApiMetrics.MetricManager.GetBufferNames | API/include/metrics.hpp:192-196 | every name exactly once, in strictly increasing (map) order |
| ApiMetrics.MetricManager.AddMetric | API/include/metrics.hpp:203-217 | the store follows AddMetricSpec of the old store on success, and is unchanged with the error on failure |
| ApiMetrics.MetricManager.Target | API/include/metrics.hpp:236-248 | the buffer `_add_metric` adds to: the error AddMetricSpec reports, or a well-formed buffer of the value's type whose Added form is what AddMetricSpec stores |
| ApiMetrics.MetricManager.GetElements | API/include/metrics.hpp:219-227 | `get_element_*`: `out_of_range` for an unknown name, else Retrieved of the named buffer |
| ApiExports.CopiedName | API/include/metrics.hpp:344-346 | a name copied with `strcpy` reads as its bytes up to the first NUL: the name itself when it has no NUL |
| ApiExports.SpitsSetMetricInt | API/include/metrics.hpp:278-282 | the store follows AddMetricSpec for the int value, or is unchanged with the error |
| ApiExports.SpitsSetMetricFloat | API/include/metrics.hpp:284-288 | the store follows AddMetricSpec for the float's bit pattern, or is unchanged with the error |
| ApiExports.SpitsSetMetricString | API/include/metrics.hpp:290-294 | the store follows AddMetricSpec for the C string's characters, or is unchanged with the error |
| ApiExports.SpitsSetMetricBytes | API/include/metrics.hpp:296-301 | records nothing: the store is unchanged |
| ApiExports.SpitsGetNumBuffers | API/include/metrics.hpp:303-306 | the number of distinct names, as an `unsigned int` |
| ApiExports.ListInfosNamesKeys | API/include/metrics.hpp:317-320 | with NUL-free names, entry i names the i-th buffer of the map |
| ApiExports.ListInfosNames | API/include/metrics.hpp:313-328 | `quantity` equals `get_num_buffers`, and the entries name every buffer exactly once, in sorted name order |
| ApiExports.ListInfosAttributes | API/include/metrics.hpp:321-322 | each entry carries the type and the capacity the store holds under its name |
| ApiExports.AtSorted | API/include/metrics.hpp:321-322 | the i-th key of the map is known and `at` finds the i-th buffer under it |
| ApiExports.SpitsGetMetricsList | API/include/metrics.hpp:313-328 | the result is ListInfos of the store: one entry per buffer, in map order |
| ApiExports.WholeSeconds | API/include/metrics.hpp:358-361 | the whole seconds of a time point, truncated toward zero: seconds * 10^9 plus the C remainder is the time point |
| ApiExports.TimeSplit | API/include/metrics.hpp:358-361 | seconds and nanoseconds, read back as int64, recompose the time point; the nanoseconds lie within one second and share its sign |
| ApiExports.MetricOfRoundTrip | API/include/metrics.hpp:350-411 | each copied sample reads back, with its buffer's type, as the value (a string up to its first NUL); `data_size` is the payload size, a string's length + 1; the sequence number is kept |
| ApiExports.HistoryEntry | API/include/metrics.hpp:342-349 | an entry fails exactly for an unknown name, with `out_of_range` |
| ApiExports.HistoryEntryContents | API/include/metrics.hpp:342-414 | a known name's entry holds the copied name, the type code, and copies of the min(size, request) OLDEST samples, oldest first |
| ApiExports.SpitsGetMetricsHistory | API/include/metrics.hpp:338-417 | the result is History of the store: `out_of_range` if any name is unknown, else one entry per name in order |
| ApiExports.CopyEntry | API/include/metrics.hpp:343-414 | one loop iteration gives HistoryEntry of the name, failing only for an unknown name |
| ApiExports.CopyMetrics | API/include/metrics.hpp:353-362 | the copy loop gives MetricsOf the retrieved samples, one per sample in order |
| CcppRing.PeekFrontSlotAsWritten | spitz-include/ccpp/metrics.hpp:177-179 | the slot `peek_front` reads as written, `(head - 1) % size` in 32-bit unsigned arithmetic, is always a slot of the ring |
| CcppRing.PeekFrontSlot | spitz-include/ccpp/metrics.hpp:177-179 | the slot just before the head, wrapping from slot 0 to the last slot, where the newest element lies |
| CcppRing.PeekFrontAgreesAwayFromZero | spitz-include/ccpp/metrics.hpp:177-179 | for any head other than 0 the as-written and the intended `peek_front` slots coincide |
| CcppRing.PeekFrontAsWrittenReadsOldest | spitz-include/ccpp/metrics.hpp:146-179 | on a full 3-slot ring whose head is back at 0, the as-written `peek_front` reads the oldest element, the intended one the newest |
| CcppRing.AtSlotAsWritten | spitz-include/ccpp/metrics.hpp:189-195 | the slot `at(index)` reads as written, counted from the head, is always a slot of the ring |
| CcppRing.AtSlot | spitz-include/ccpp/metrics.hpp:189-191 | the slot of the index-th oldest element, counted from the tail |
| CcppRing.AtAgreesWhenFull | spitz-include/ccpp/metrics.hpp:189-191 | when head and tail coincide (a full ring) the as-written `at` reads the intended slot |
| CcppRing.SlotAtInjective | spitz-include/ccpp/metrics.hpp:189-191 | within one turn of the ring, different offsets from the tail are different slots |
| CcppRing.AtAsWrittenReadsPastNewest | spitz-include/ccpp/metrics.hpp:189-191 | on a ring neither empty nor full, the as-written `at(i)` reads a slot that holds none of the ring's elements |
| CcppRing.AtAsWrittenMissesOnlyElement | spitz-include/ccpp/metrics.hpp:189-191 | on a 3-slot ring holding one element, the as-written `at(0)` reads slot 1 while the element is in slot 0 |
| CcppRing.PushKeepsInv | spitz-include/ccpp/metrics.hpp:146-151 | `push`'s updates of head, tail and `full` keep the ring invariant, the contents evicting their oldest element when full |
| CcppRing.PopKeepsInv | spitz-include/ccpp/metrics.hpp:157-163 | on a non-empty ring the tail slot holds the oldest element and `pop`'s updates keep the invariant with that element gone |
| CcppRing.RingBuffer.constructor | spitz-include/ccpp/metrics.hpp:87-88 | a new ring of the given size is empty and valid |
| CcppRing.RingBuffer.Reset | spitz-include/ccpp/metrics.hpp:95-99 | `reset` leaves a fresh slot array and an empty ring |
| CcppRing.RingBuffer.Clear | spitz-include/ccpp/metrics.hpp:104-106 | `clear` empties the ring while the slot array stays |
| CcppRing.RingBuffer.Full | spitz-include/ccpp/metrics.hpp:112 | `full` holds exactly when the ring holds as many elements as it has slots |
| CcppRing.RingBuffer.Empty | spitz-include/ccpp/metrics.hpp:118 | `empty` holds exactly when the ring holds no element |
| CcppRing.RingBuffer.Length | spitz-include/ccpp/metrics.hpp:124-134 | `length`, computed from head, tail and `full`, is the number of elements held |
| CcppRing.RingBuffer.Capacity | spitz-include/ccpp/metrics.hpp:140 | `capacity` is the ring's size |
| CcppRing.RingBuffer.Push | spitz-include/ccpp/metrics.hpp:146-151 | after `push(x)` the ring holds its newest elements followed by x, at most `size` of them, and stays valid |
| CcppRing.RingBuffer.Pop | spitz-include/ccpp/metrics.hpp:157-163 | `pop` on an empty ring throws; otherwise it returns the oldest element and removes it |
| CcppRing.RingBuffer.Peek | spitz-include/ccpp/metrics.hpp:169-171 | `peek` of a non-empty ring returns its oldest element |
| CcppRing.RingBuffer.PeekFront | spitz-include/ccpp/metrics.hpp:177-179 | as written: away from a head of 0, `peek_front` of a non-empty ring returns its newest element; on a full ring whose head is back at 0 it returns the element (2^32 - 1) % size places after the oldest |
| CcppRing.RingBuffer.At | spitz-include/ccpp/metrics.hpp:189-191 | as written, counting from the head: on a full ring `at(i)` returns the i-th oldest element for i below the length; on a ring that is not full it returns the slot |contents| + i places after the tail, past the newest element, while that stays within one turn (head + i below 2^32 in both cases) |
| CcppMetrics.Stamp | spitz-include/ccpp/metrics.hpp:259 | `get_sequence_no` returns the counter unchanged while it fits in an `unsigned int` |
| CcppMetrics.NewBuffer | spitz-include/ccpp/metrics.hpp:273-293 | a buffer made by `create_buffer` is empty, has a counter of 0, and keeps the numbering invariant |
| CcppMetrics.Pushed | spitz-include/ccpp/metrics.hpp:251 | `MetricBuffer::set_metric` keeps type and size, moves the counter on by one, and leaves the newest `size` elements of the old ones plus the new one |
| CcppMetrics.PushedNewest | spitz-include/ccpp/metrics.hpp:251 | after `set_metric(e)` the newest element of the buffer is e |
| CcppMetrics.PushKeepsNumbered | spitz-include/ccpp/metrics.hpp:329-347 | pushing an element of the buffer's type stamped with the counter keeps the elements numbered by the last stamps handed out |
| CcppMetrics.Appended | spitz-include/ccpp/metrics.hpp:329-347 | the element `set_metric` pushes carries the value, the call's time and the counter before the push, and the buffer stays well formed |
| CcppMetrics.Target | spitz-include/ccpp/metrics.hpp:326-327 | the buffer written is the one under the name, or a new one, and it keeps the numbering invariant |
| CcppMetrics.Created | spitz-include/ccpp/metrics.hpp:326-327 | the find-or-create step leaves every other buffer well formed, and the whole map well formed for a byte-array request |
| CcppMetrics.CreatedGet | spitz-include/ccpp/metrics.hpp:326-327 | after the find-or-create step the name maps to the target buffer and every other name is unchanged |
| CcppMetrics.SetMetricSpec | spitz-include/ccpp/metrics.hpp:322-353 | `set_metric` keeps every buffer of the map well formed |
| CcppMetrics.SetMetricKeepsNames | spitz-include/ccpp/metrics.hpp:322-327 | `set_metric` adds no name but the one written, so no name holds a NUL |
| CcppMetrics.SetMetricKeepsOthers | spitz-include/ccpp/metrics.hpp:322-353 | `set_metric` throws exactly for the byte-array type and never changes a buffer under another name |
| CcppMetrics.SetByteArrayCreates | spitz-include/ccpp/metrics.hpp:326-352 | a byte-array write throws after creating a missing buffer of the default size, empty; an existing map is left as it was |
| CcppMetrics.SetMetricAppends | spitz-include/ccpp/metrics.hpp:322-347 | any other write pushes onto the named buffer (a new one of default size if missing) the value, the time and the counter before the push |
| CcppMetrics.TypeName | spitz-include/ccpp/metrics.hpp:295-309 | each type's name is non-empty and holds no NUL, so the list export's strings end where they should |
| CcppMetrics.EncodeValue | spitz-include/ccpp/metrics.hpp:379-399 | an int value takes 8 bytes, a float 4, a time 16 |
| CcppMetrics.SerializeAllSucceeds | spitz-include/ccpp/metrics.hpp:370-406 | an export whose requests all succeed is their byte blocks one after another, in request order |
| CcppMetrics.SerializeAllFails | spitz-include/ccpp/metrics.hpp:370-376 | an export throws the error of the first request that fails |
| CcppMetrics.LastValuesOutcome | spitz-include/ccpp/metrics.hpp:367-407 | intended reads: the last-values export succeeds iff every requested name exists and is not a byte array; then it holds each name's newest-element record in request order, otherwise it throws |
| CcppMetrics.LastValuesSucceed | spitz-include/ccpp/metrics.hpp:367-407 | intended reads: when every name is readable the export is the newest-element records in request order |
| CcppMetrics.LastValuesFail | spitz-include/ccpp/metrics.hpp:370-376 | when some name is missing or a byte array the export throws a `runtime_error` |
| CcppMetrics.SetMetricNewest | spitz-include/ccpp/metrics.hpp:322-347 | after a write of v the buffer is readable and its newest element is v, its time and the counter before the write |
| CcppMetrics.SetThenLastValue | spitz-include/ccpp/metrics.hpp:322-385 | intended reads: a write of v followed by a last-values request of the name reports v, the time and the stamp of that write |
| CcppMetrics.HistoryCount | spitz-include/ccpp/metrics.hpp:421-422 | the number of history elements returned is the request when the buffer holds that many, else the buffer's length |
| CcppMetrics.Requests | spitz-include/ccpp/metrics.hpp:476-485 | the history export pairs each name with its size, one request per name |
| CcppMetrics.HistoryWindow | spitz-include/ccpp/metrics.hpp:409-441 | intended reads: a positive history request throws iff the name is missing or not INT; otherwise it returns the min(n, length) newest elements oldest first, with consecutive sequence numbers ending at the last handed out |
| CcppMetrics.BufferWindow | spitz-include/ccpp/metrics.hpp:419-433 | intended reads: for one INT buffer, a positive request yields its min(n, length) newest elements under the first one's sequence number and the count |
| CcppMetrics.NewestNumbered | spitz-include/ccpp/metrics.hpp:332-333 | the n newest elements carry the n last sequence numbers handed out, oldest first |
| CcppMetrics.HistoryOfNothingWhenFull | spitz-include/ccpp/metrics.hpp:421-426 | a request for zero or fewer elements of a full INT buffer writes no element, only a header whose sequence number comes from the wrapped index and whose count is the request |
| CcppMetrics.MetricBuffer.constructor | spitz-include/ccpp/metrics.hpp:248 | a new buffer is empty with a counter of 0 |
| CcppMetrics.MetricBuffer.SetMetric | spitz-include/ccpp/metrics.hpp:251 | `set_metric` pushes onto the ring and moves the counter on |
| CcppMetrics.MetricBuffer.GetMetric | spitz-include/ccpp/metrics.hpp:252 | `get_metric(i)` is `at(i)` as written: the i-th oldest element of a full buffer, and on a buffer that is not full the slot |samples| + i places after the tail, past the newest element |
| CcppMetrics.MetricBuffer.GetLastMetric | spitz-include/ccpp/metrics.hpp:253 | `get_last_metric` is `peek_front` as written: the newest element of a non-empty buffer away from a head of 0; on a full buffer with head 0 the element (2^32 - 1) % size places after the oldest |
| CcppMetrics.MetricBuffer.PopMetric | spitz-include/ccpp/metrics.hpp:254 | `pop_metric` throws on an empty buffer, else returns and removes the oldest element; the counter stays |
| CcppMetrics.MetricBuffer.Clear | spitz-include/ccpp/metrics.hpp:255 | `clear` empties the buffer and keeps its type, size and counter |
| CcppMetrics.MetricBuffer.Capacity | spitz-include/ccpp/metrics.hpp:257 | `capacity` is the buffer's size |
| CcppMetrics.MetricBuffer.Length | spitz-include/ccpp/metrics.hpp:258 | `length` is the number of elements held, never more than the size |
| CcppMetrics.MetricBuffer.GetSequenceNo | spitz-include/ccpp/metrics.hpp:259 | `get_sequence_no` is the write count cut to an `unsigned int` |
| CcppMetrics.Metrics.constructor | spitz-include/ccpp/metrics.hpp:312 | a new store has the given default size and no buffers |
| CcppMetrics.Metrics.CreateBuffer | spitz-include/ccpp/metrics.hpp:273-293 | `create_buffer` puts a new empty buffer of that size and type under the name |
| CcppMetrics.Metrics.SetMetric | spitz-include/ccpp/metrics.hpp:322-353 | `set_metric` returns and leaves exactly what SetMetricSpec gives, keeping the store valid |
| CcppMetrics.Metrics.GetMetricsList | spitz-include/ccpp/metrics.hpp:358-365 | the list export is the buffer count, then each buffer's name, size and type name in name order |
| CcppMetrics.Metrics.GetMetricsLastValues | spitz-include/ccpp/metrics.hpp:367-407 | the loop's result is the last-values export as written, LastValuesExportAsWritten (see LastValuesAsWrittenOutcome, LastValuesAsWrittenAgree, ThreeWritesLastValueAsWritten) |
| CcppMetrics.Metrics.LastValueBlock | spitz-include/ccpp/metrics.hpp:371-403 | one turn of the loop throws for a missing name or a byte-array buffer, else gives the record of the element `get_last_metric` returns as written, an error if that slot was never written |
| CcppMetrics.Metrics.GetMetricsHistory | spitz-include/ccpp/metrics.hpp:409-441 | the loop's result is the history export as written, HistoryExportAsWritten (see HistoryAsWrittenWhenFull, HistoryAsWrittenPastNewest, OneWriteHistoryAsWritten) |
| CcppMetrics.Metrics.HistoryBlock | spitz-include/ccpp/metrics.hpp:414-416 | one turn of the loop throws for a missing name, else gives its buffer's history block as written |
| CcppMetrics.BufferHistory | spitz-include/ccpp/metrics.hpp:418-437 | a buffer's history block, with the clamp and the head-based `get_metric` reads, is HistoryOfBufferAsWritten: a throw for a non-INT buffer, an error when the header read lands on a slot never written, else the header and the records of the loop's reads up to the first that fails |
| CcppMetrics.SpitsMetricNew | spitz-include/ccpp/metrics.hpp:449-453 | the global store is kept when there is one, else created empty with the `int` size read as `unsigned int` |
| CcppMetrics.SpitsGetMetricsList | spitz-include/ccpp/metrics.hpp:460-463 | NULL without a store, else the list export |
| CcppMetrics.SpitsGetMetricsLastValues | spitz-include/ccpp/metrics.hpp:465-474 | NULL without a store, else the last-values export as written, its exception passed on |
| CcppMetrics.SpitsGetMetricsHistory | spitz-include/ccpp/metrics.hpp:476-488 | NULL without a store, else the history export as written of each name with its size |
| CcppMetrics.SpitsSetMetric | spitz-include/ccpp/metrics.hpp:491-503 | with a store, an INT write of the value as SetMetricSpec gives it; without one, nothing |
| CcppRing.AtSlotWithinTurn | spitz-include/ccpp/metrics.hpp:189-191 | an index that keeps the head within one turn of the ring reads the slot that many places after the head |
| CcppMetrics.HeadAfter | spitz-include/ccpp/metrics.hpp:146-151 | the head after any number of pushes from slot 0 is a slot of the ring |
| CcppMetrics.HeadAfterBelow | spitz-include/ccpp/metrics.hpp:146-151 | until the ring first fills, the head is the number of pushes |
| CcppMetrics.HeadOf | spitz-include/ccpp/metrics.hpp:146-151 | a buffer's head, from its write count, is a slot of its ring |
| CcppMetrics.PushedWritesHead | spitz-include/ccpp/metrics.hpp:146-151 | a write stores the element in the head slot, moves the head on by one modulo the size and leaves every other slot as it was |
| CcppMetrics.PushFillsRing | spitz-include/ccpp/metrics.hpp:146-151 | the write that fills the ring stores the element in the last slot and changes no other |
| CcppMetrics.PushFullRing | spitz-include/ccpp/metrics.hpp:146-151 | a write into a full ring overwrites the head slot, the oldest element, and changes no other |
| CcppMetrics.LastValueAsWrittenAwayFromZero | spitz-include/ccpp/metrics.hpp:367-407 | unless the name's head is at slot 0, the as-written last value of a name is the intended one |
| CcppMetrics.LastElementAwayFromZero | spitz-include/ccpp/metrics.hpp:177-179 | away from a head of 0, `peek_front` as written reads a readable buffer's newest element |
| CcppMetrics.LastValueAsWrittenAtZero | spitz-include/ccpp/metrics.hpp:367-407 | when the name's head is at slot 0 its buffer is full and the as-written last value is the record of the element (2^32 - 1) % size places after the oldest |
| CcppMetrics.LastValuesAsWrittenAgree | spitz-include/ccpp/metrics.hpp:367-407 | when no requested name has its head at slot 0, the last-values export as written equals the intended one |
| CcppMetrics.LastValuesAsWrittenOutcome | spitz-include/ccpp/metrics.hpp:367-407 | the last-values export as written succeeds iff every requested name exists and is not a byte array, and its failure is a `runtime_error` |
| CcppMetrics.SetThenLastValueAsWritten | spitz-include/ccpp/metrics.hpp:322-407 | a write of v followed by a last-values request of the name reports v, the time and the stamp of that write, unless the write brought the head back to slot 0 |
| CcppMetrics.AppendedBelowSize | spitz-include/ccpp/metrics.hpp:329-347 | a write into a buffer that is not full appends the element stamped with the counter |
| CcppMetrics.ThreeWrites | spitz-include/ccpp/metrics.hpp:322-347 | three INT writes into a new buffer of size 3 leave it full with the three elements numbered 0 to 2 |
| CcppMetrics.ThreeWritesLastValueAsWritten | spitz-include/ccpp/metrics.hpp:367-407 | after three writes into a buffer of size 3, the last-values export as written reports the first write, where the intended read reports the third |
| CcppMetrics.ThreeWritesPeekFront | spitz-include/ccpp/metrics.hpp:177-179 | on a full 3-slot buffer with head 0, `get_last_metric` as written returns the oldest element |
| CcppMetrics.ElementAtAsWrittenWhenFull | spitz-include/ccpp/metrics.hpp:189-191 | on a full buffer of at most 2^31 slots `get_metric(i)` as written is the i-th oldest element |
| CcppMetrics.HistoryAsWrittenWhenFull | spitz-include/ccpp/metrics.hpp:409-441 | on a full buffer of at most 2^31 slots a positive history request as written gives the intended block |
| CcppMetrics.WindowReadsWhenFull | spitz-include/ccpp/metrics.hpp:426-430 | on a full buffer the history loop's reads as written give the records of the window's elements, in order |
| CcppMetrics.WindowReadAt | spitz-include/ccpp/metrics.hpp:426-430 | on a full buffer the loop's j-th read as written is the record of the j-th element of the window |
| CcppMetrics.HistoryReadWhenFull | spitz-include/ccpp/metrics.hpp:427-429 | on a full buffer the loop's read of index i as written is the record of the i-th oldest element |
| CcppMetrics.HistoryAsWrittenPastNewest | spitz-include/ccpp/metrics.hpp:421-430 | on an INT buffer that is not full, a positive request whose header read lands past the newest element (2 * length - a below the size) fails: the header reads a slot never written |
| CcppMetrics.HeaderPastNewest | spitz-include/ccpp/metrics.hpp:421-424 | on a buffer that is not full, `get_metric(length - a)` as written reads slot 2 * length - a, never written when that is below the size |
| CcppMetrics.OneWriteHistoryAsWritten | spitz-include/ccpp/metrics.hpp:409-441 | after one INT write into a buffer of size 3, a history request for 1 element as written fails on an unwritten slot, where the intended block holds the write |
| CcppMetrics.HistoryOfNothingAsWritten | spitz-include/ccpp/metrics.hpp:421-430 | a request for zero or fewer elements of a full INT buffer as written succeeds with only a header: the sequence number of one of the buffer's elements and the request |
| CcppMetrics.HistoryRecords | spitz-include/ccpp/metrics.hpp:426-430 | the history loop writes the header, then the record of each index it reads, and stops with the error of the first read that fails |
| SpitzRing.Ring.constructor | spitz-include/ccpp/spitz/metrics.hpp:28-30 | a new ring of positive capacity is empty, every slot null |
| SpitzRing.Ring.Push | spitz-include/ccpp/spitz/metrics.hpp:38-44 | after `push(x)` the ring holds its newest elements followed by x, at most `capacity` of them (a full ring pops its oldest first) |
| SpitzRing.Ring.Store | spitz-include/ccpp/spitz/metrics.hpp:41-43 | writing into the head slot of a ring with room appends the element to its contents |
| SpitzRing.Ring.Pop | spitz-include/ccpp/spitz/metrics.hpp:57-64 | `pop` gives null on an empty ring; otherwise it moves out and returns the oldest element, the rest staying in order |
| SpitzRing.Ring.PopFront | spitz-include/ccpp/spitz/metrics.hpp:46-55 | `pop_front` gives null on an empty ring; otherwise it moves out and returns the newest element, the rest staying in order |
| SpitzRing.Ring.StepBack | spitz-include/ccpp/spitz/metrics.hpp:49-51 | C's `(head - 1) % capacity` followed by the fix-up of -1 lands on the slot of the newest element |
| SpitzRing.Ring.Full | spitz-include/ccpp/spitz/metrics.hpp:66-69 | `full` holds exactly when the ring holds `capacity` elements |
| SpitzRing.Ring.Empty | spitz-include/ccpp/spitz/metrics.hpp:71-74 | `empty` holds exactly when the ring holds no element |
| SpitzRing.Ring.Length | spitz-include/ccpp/spitz/metrics.hpp:76-79 | `length` is the number of elements held |
| SpitzMetrics.TypeCode | spitz-include/ccpp/spitz/metrics.hpp:19-23 | each type's enumerator is one of 0, 1, 2 |
| SpitzMetrics.NewBuffer | spitz-include/ccpp/spitz/metrics.hpp:199-200 | a new buffer of a negative capacity throws `bad_array_new_length`; of a positive one it is empty, of the requested type and capacity, with sequence 0 |
| SpitzMetrics.SeqNoOf | spitz-include/ccpp/spitz/metrics.hpp:107-108 | an int or float element is numbered with the buffer's sequence; a bytes element gets 0, its constructor taking the sequence as its size |
| SpitzMetrics.Added | spitz-include/ccpp/spitz/metrics.hpp:208-211 | `add_element` keeps type and capacity, moves the sequence on by one, leaves the newest `size` of the old samples plus the new one, and keeps the buffer well formed |
| SpitzMetrics.TakeOldest | spitz-include/ccpp/spitz/metrics.hpp:213-218 | `get_element` gives null on an empty buffer, else the oldest sample, which leaves the buffer |
| SpitzMetrics.TakeNewest | spitz-include/ccpp/spitz/metrics.hpp:220-225 | `get_front_element` gives null on an empty buffer, else the newest sample, which leaves the buffer |
| SpitzMetrics.Requested | spitz-include/ccpp/spitz/metrics.hpp:276-277 | a request for n takes none for n <= 0, else min(n, length), the capacity bound never binding |
| SpitzMetrics.Drained | spitz-include/ccpp/spitz/metrics.hpp:280-299 | k turns of the read loop take the k oldest samples in order, or with `lasts` the k newest samples newest first; the buffer keeps exactly the rest |
| SpitzMetrics.DrainedStep | spitz-include/ccpp/spitz/metrics.hpp:280-295 | each further turn of the read loop takes one more sample from what the earlier turns left |
| SpitzMetrics.Drain | spitz-include/ccpp/spitz/metrics.hpp:280-299 | the read loop over one buffer gives what Drained specifies |
| SpitzMetrics.GetOrCreate | spitz-include/ccpp/spitz/metrics.hpp:346-368 | a known name gives its buffer with the map unchanged; a new buffer has the requested type; the map stays well formed |
| SpitzMetrics.GetOrCreateEffect | spitz-include/ccpp/spitz/metrics.hpp:346-368 | a missing name throws `runtime_error` unless `exists_ok`, throws for a negative default capacity, and otherwise gets a new empty buffer, every other name keeping its own |
| SpitzMetrics.AddMetricSpec | spitz-include/ccpp/spitz/metrics.hpp:315-328 | an `add_metric` that succeeds leaves every buffer well formed |
| SpitzMetrics.AddMetricFails | spitz-include/ccpp/spitz/metrics.hpp:315-328 | `add_metric` throws exactly when it must create the buffer and the default capacity is negative |
| SpitzMetrics.AddMetricAppends | spitz-include/ccpp/spitz/metrics.hpp:315-328 | for a known name, `add_metric` adds the sample to that name's buffer |
| SpitzMetrics.AddMetricCreates | spitz-include/ccpp/spitz/metrics.hpp:315-328 | for a new name and a positive default capacity, `add_metric` creates a buffer holding only the sample, numbered 0, with sequence 1 |
| SpitzMetrics.AddMetricKeepsOthers | spitz-include/ccpp/spitz/metrics.hpp:315-328 | `add_metric` adds no name but its own and leaves every other buffer unchanged |
| SpitzMetrics.GetMetricSpec | spitz-include/ccpp/spitz/metrics.hpp:330-343 | a `get_metric` that succeeds leaves every buffer well formed |
| SpitzMetrics.GetMetricEffect | spitz-include/ccpp/spitz/metrics.hpp:330-343 | `get_metric` throws exactly for an unknown name; otherwise it returns the buffer's type code and its oldest sample (null if empty), which leaves the buffer; other buffers are unchanged |
| SpitzMetrics.DrainedFor | spitz-include/ccpp/spitz/metrics.hpp:276-299 | the buffer one request leaves behind is well formed |
| SpitzMetrics.Taken | spitz-include/ccpp/spitz/metrics.hpp:274-301 | a request for a known name leaves every buffer well formed |
| SpitzMetrics.TakenEffect | spitz-include/ccpp/spitz/metrics.hpp:274-301 | a request changes only its own buffer, and the set of names stays the same |
| SpitzMetrics.LastValuesFrom | spitz-include/ccpp/spitz/metrics.hpp:265-304 | the remaining requests leave a sorted result map and well-formed buffers |
| SpitzMetrics.LastValuesKeepsNames | spitz-include/ccpp/spitz/metrics.hpp:261-305 | `metrics_last_values` never adds or drops a buffer name |
| SpitzMetrics.LastValuesAllOrNothing | spitz-include/ccpp/spitz/metrics.hpp:268-272 | any unknown requested name makes `metrics_last_values` return an empty map |
| SpitzMetrics.LastValuesStopKeepsReads | spitz-include/ccpp/spitz/metrics.hpp:268-272 | at the first unknown name the loop stops, but the samples the earlier requests took stay taken |
| SpitzMetrics.LastValuesDistinct | spitz-include/ccpp/spitz/metrics.hpp:265-304 | with distinct known names, each requested name maps to what its request takes from its buffer and the buffer keeps the rest; other names keep their buffers |
| SpitzMetrics.MetricBuffer.constructor | spitz-include/ccpp/spitz/metrics.hpp:199-200 | a new buffer is empty with sequence 0 |
| SpitzMetrics.MetricBuffer.AddElement | spitz-include/ccpp/spitz/metrics.hpp:208-211 | `add_element` leaves the state Added gives |
| SpitzMetrics.MetricBuffer.GetElement | spitz-include/ccpp/spitz/metrics.hpp:213-218 | `get_element` returns and leaves what TakeOldest gives |
| SpitzMetrics.MetricBuffer.GetFrontElement | spitz-include/ccpp/spitz/metrics.hpp:220-225 | `get_front_element` returns and leaves what TakeNewest gives |
| SpitzMetrics.MetricBuffer.Length | spitz-include/ccpp/spitz/metrics.hpp:227-229 | `length` is the number of samples held |
| SpitzMetrics.Metrics.constructor | spitz-include/ccpp/spitz/metrics.hpp:241-242 | a new store has the given default size and no buffers |
| SpitzMetrics.Metrics.MetricsList | spitz-include/ccpp/spitz/metrics.hpp:253-259 | one (name, capacity, type code) row per buffer, in strictly increasing name order |
| SpitzMetrics.Metrics.MetricsLastValues | spitz-include/ccpp/spitz/metrics.hpp:261-305 | the loop returns the map and leaves the buffers as LastValuesSpec gives them |
| SpitzMetrics.Metrics.GetOrCreateBuffer | spitz-include/ccpp/spitz/metrics.hpp:346-368 | the method returns and leaves what GetOrCreate gives; on an error the map is unchanged |
| SpitzMetrics.Metrics.AddMetric | spitz-include/ccpp/spitz/metrics.hpp:315-328 | `add_metric` leaves what AddMetricSpec gives; on an error the map is unchanged |
| SpitzMetrics.Metrics.GetMetric | spitz-include/ccpp/spitz/metrics.hpp:330-343 | `get_metric` returns and leaves what GetMetricSpec gives; on an error the map is unchanged |
| SpitzExports.EncodeValue | spitz-include/ccpp/spitz/metrics.hpp:448-460 | an int takes 8 bytes, a float 4, and a byte string is written with its NUL, so reading up to the NUL gives the string back |
| SpitzExports.SeqNo32 | spitz-include/ccpp/spitz/metrics.hpp:449 | the exported sequence number equals the element's number while that fits in an `unsigned int` |
| SpitzExports.Vectors | spitz-include/ccpp/spitz/metrics.hpp:440-441 | one vector per requested name, in request order |
| SpitzExports.Requests | spitz-include/ccpp/spitz/metrics.hpp:420-428 | the request list pairs each name, in order, with `sizes[i]`, or with 1 when sizes is NULL |
| SpitzExports.Export | spitz-include/ccpp/spitz/metrics.hpp:430-516 | after either export every buffer is still well formed |
| SpitzExports.SpitsMetricsNew | spitz-include/ccpp/spitz/metrics.hpp:381-387 | a new empty store with the given default size replaces the old one |
| SpitzExports.SetMetric | spitz-include/ccpp/spitz/metrics.hpp:389-402 | without a store nothing happens; otherwise the store changes as AddMetricSpec gives, and not at all on an error |
| SpitzExports.SpitsSetMetricInt | spitz-include/ccpp/spitz/metrics.hpp:389-392 | as SetMetric, for an `int` value |
| SpitzExports.SpitsSetMetricFloat | spitz-include/ccpp/spitz/metrics.hpp:394-397 | as SetMetric, for a `float` value |
| SpitzExports.SpitsSetMetricBytes | spitz-include/ccpp/spitz/metrics.hpp:399-402 | as SetMetric, for a byte string |
| SpitzExports.ListRows | spitz-include/ccpp/spitz/metrics.hpp:253-259 | one row per buffer |
| SpitzExports.SpitsGetMetricsList | spitz-include/ccpp/spitz/metrics.hpp:404-418 | NULL without a store, else the count followed by every row |
| SpitzExports.ReadI64 | spitz-include/ccpp/spitz/metrics.hpp:411-413 | an `int64_t` field read back as big-endian two's complement gives the number written |
| SpitzExports.DecodeListEntry | spitz-include/ccpp/spitz/metrics.hpp:412-413 | reading a written row back gives the row, and reading goes on right after it |
| SpitzExports.ListExportRoundTrip | spitz-include/ccpp/spitz/metrics.hpp:404-418 | reading the list export back gives the buffer count, then each buffer's name, capacity and type code in name order |
| SpitzExports.SpitsMetricsLastValues | spitz-include/ccpp/spitz/metrics.hpp:420-428 | `_spits_metrics_last_values` runs `metrics_last_values` over the request list Requests builds |
| SpitzExports.WriteBlocks | spitz-include/ccpp/spitz/metrics.hpp:440-511 | the serialising loop gives the specified body: each name's block in turn, NULL once a vector is empty |
| SpitzExports.WriteBlock | spitz-include/ccpp/spitz/metrics.hpp:488-510 | one name's block, with the history header when exporting history, is appended to the stream |
| SpitzExports.BodyNoneExtends | spitz-include/ccpp/spitz/metrics.hpp:442-443 | once a prefix of the vectors gives NULL, the whole export does |
| SpitzExports.SpitsGetMetricsLastValues | spitz-include/ccpp/spitz/metrics.hpp:430-472 | NULL without a store; else the output and the buffers Export gives, reading one newest sample per name |
| SpitzExports.SpitsGetMetricsHistory | spitz-include/ccpp/spitz/metrics.hpp:474-516 | NULL without a store; else the output and the buffers Export gives, reading the oldest samples in order |
| SpitzExports.BodyOfNonEmpty | spitz-include/ccpp/spitz/metrics.hpp:440-467 | with no empty vector the export writes every block in order |
| SpitzExports.BodyOfEmpty | spitz-include/ccpp/spitz/metrics.hpp:442-443 | an empty vector anywhere makes the export NULL |
| SpitzExports.Windows | spitz-include/ccpp/spitz/metrics.hpp:276-301 | one window per request |
| SpitzExports.ExportUnknownName | spitz-include/ccpp/spitz/metrics.hpp:434-436 | an unknown name makes the export NULL, yet the buffers read before it keep the reads |
| SpitzExports.ExportOfNothing | spitz-include/ccpp/spitz/metrics.hpp:434-436 | with no buffers or no names the export is NULL and the buffers are unchanged |
| SpitzExports.ExportOfDistinctNames | spitz-include/ccpp/spitz/metrics.hpp:430-516 | with distinct known names the export serialises exactly the windows of the requests, in order |
| SpitzExports.ExportTakesWindow | spitz-include/ccpp/spitz/metrics.hpp:430-516 | with distinct known names each requested buffer keeps what its window leaves |
| SpitzExports.ExportKeepsOthers | spitz-include/ccpp/spitz/metrics.hpp:430-516 | an export leaves every buffer not named in it unchanged |
| SpitzExports.ExportContents | spitz-include/ccpp/spitz/metrics.hpp:430-516 | with distinct known names the export is NULL exactly when some window is empty, and otherwise is all the windows' blocks in request order |
| SpitzExports.NewestWindow | spitz-include/ccpp/spitz/metrics.hpp:430-434 | the last-values window of a name is its newest sample, which leaves the buffer, or nothing for an empty buffer |
| SpitzExports.HistoryWindow | spitz-include/ccpp/spitz/metrics.hpp:474-478 | the history window of a request for n is the oldest min(n, length) samples in order, none for n <= 0, and the buffer keeps the rest |
| LegacyRing.AdvanceAfterWrite | API/include/utils.hpp:51-57 | writing the head slot and then advancing keeps the ring invariant, the contents evicting their oldest element when full |
| LegacyRing.WrapNext | API/include/utils.hpp:166 | the iterator's step `(i + 1) % buffer_size` from the slot i places after the tail reaches the slot i + 1 places after it |
| LegacyRing.CircularBuffer.constructor | API/include/utils.hpp:28-30 | a new buffer of any size is empty, every slot null |
| LegacyRing.CircularBuffer.Advance | API/include/utils.hpp:51-57 | `advance` moves the tail on only when full, the head always, and sets `full` when they meet |
| LegacyRing.CircularBuffer.Retreat | API/include/utils.hpp:62-65 | `retreat` clears `full` and moves the tail one slot on |
| LegacyRing.CircularBuffer.Reset | API/include/utils.hpp:77-79 | `reset` empties the buffer; the slot array stays |
| LegacyRing.CircularBuffer.Full | API/include/utils.hpp:85-87 | `full()` holds exactly when the buffer holds `buffer_size` elements and the size is positive |
| LegacyRing.CircularBuffer.Empty | API/include/utils.hpp:93-95 | `empty()` holds exactly when the buffer holds no element |
| LegacyRing.CircularBuffer.Size | API/include/utils.hpp:101-111 | `size()`, computed from head, tail and `full`, is the number of elements held |
| LegacyRing.CircularBuffer.Capacity | API/include/utils.hpp:117-119 | `capacity()` is `buffer_size` |
| LegacyRing.CircularBuffer.Push | API/include/utils.hpp:125-130 | after `push(x)` the buffer holds its newest elements followed by x, at most `buffer_size` of them |
| LegacyRing.CircularBuffer.Pop | API/include/utils.hpp:136-143 | `pop` gives a default (null) element on an empty buffer; otherwise it returns and removes the oldest element |
| LegacyRing.CircularBuffer.Index | API/include/utils.hpp:153-155 | on a full buffer `operator[](i)` is the i-th oldest element |
| LegacyRing.CircularBuffer.Items | API/include/utils.hpp:158-179 | iterating from `begin()` to `end()` visits exactly the elements held, oldest first |
| LegacyMetrics.NamesDistinct | API/include/utils.hpp:292-311 | the constructor's nineteen names are pairwise different |
| LegacyMetrics.RegisterFromListed | API/include/utils.hpp:292-311 | each registered name ends up with an empty buffer of capacity N and its registered type |
| LegacyMetrics.RegisterFromOthers | API/include/utils.hpp:292-311 | registering other names leaves a name's entry unchanged |
| LegacyMetrics.RegisterFromSize | API/include/utils.hpp:292-311 | registering distinct new names adds one entry per name |
| LegacyMetrics.RegisteredContents | API/include/utils.hpp:291-312 | `Metrics(N)` holds exactly the registered names, one entry each, with its registered type, capacity N and no samples |
| LegacyMetrics.RegisteredUniform | API/include/utils.hpp:291-312 | every buffer `Metrics(N)` creates is empty and has capacity N |
| LegacyMetrics.RegisteredListing | API/include/utils.hpp:291-312 | the map's keys in map order are the registered names, each once, in sorted order |
| LegacyMetrics.BlockStartsWithSize | API/include/utils.hpp:370 | each serialised block starts with its number of samples as a `uint64_t` |
| LegacyMetrics.FailureSticks | API/include/utils.hpp:359-364 | once a name has thrown, the names after it write nothing |
| LegacyMetrics.SerializedKnownStep | API/include/utils.hpp:359-411 | a known name appends its block to what the earlier names wrote |
| LegacyMetrics.SerializedStopsAtUnknown | API/include/utils.hpp:361-364 | the first unknown name throws "Metric not recognized", and the stream keeps the blocks of the names before it |
| LegacyMetrics.BlockOfEmpty | API/include/utils.hpp:368-411 | a buffer with no samples writes eight zero bytes, its size of 0 |
| LegacyMetrics.SerializedEmptyBuffers | API/include/utils.hpp:358-417 | over names of empty buffers, the stream is eight zero bytes per name and nothing throws |
| LegacyMetrics.Metrics.constructor | API/include/utils.hpp:291-312 | the constructor's map is the registered map with default size N |
| LegacyMetrics.Metrics.MetricsList | API/include/utils.hpp:319-326 | `get_metrics_list` returns the registered names, each once, in strictly increasing order |
| LegacyMetrics.Metrics.MetricSize | API/include/utils.hpp:328-330 | `get_metric_size` returns the default size whatever the name, which is every registered buffer's capacity |
| LegacyMetrics.Metrics.SetMetric | API/include/utils.hpp:231-243 | `_set_metric` throws for an unknown name, throws for a type mismatch, and otherwise succeeds without storing anything |
| LegacyMetrics.Metrics.SetMetricInt | API/include/utils.hpp:333-335 | an int write succeeds exactly for a registered INT name |
| LegacyMetrics.Metrics.SetMetricFloat | API/include/utils.hpp:337-339 | a float write succeeds exactly for a registered FLOAT name |
| LegacyMetrics.Metrics.SetMetricDateTime | API/include/utils.hpp:341-343 | a date-time write succeeds exactly for a registered DATE_TIME name |
| LegacyMetrics.Metrics.SetMetricByteArray | API/include/utils.hpp:345-347 | a byte-array write succeeds exactly for a registered BYTE_ARRAY name |
| LegacyMetrics.Metrics.WriteBlock | API/include/utils.hpp:368-411 | the inner loop writes the buffer's block: its size, then each sample oldest first |
| LegacyMetrics.Metrics.Serialize | API/include/utils.hpp:358-419 | `serializate(stream, names)` appends the blocks Serialized gives and reports its error |
| LegacyMetrics.Metrics.SerializeAll | API/include/utils.hpp:349-356 | `serializate(stream)` over a fresh store appends eight zero bytes per registered name and never throws |
| JobBinary.ReadUint64At | spitz-python/libspitz/JobBinary.py:466-467 | an 8-byte big-endian field written as x reads back as x |
| JobBinary.ReadUint64Determines | spitz-python/libspitz/JobBinary.py:466-467 | the number `read_uint64` returns determines the 8 bytes it read |
| JobBinary.NulEnd | spitz-python/libspitz/JobBinary.py:458-459 | the scan stops at a NUL at or after `initial` |
| JobBinary.NulEndIsFirst | spitz-python/libspitz/JobBinary.py:458-459 | no byte the scan passes over is a NUL |
| JobBinary.NulEndAt | spitz-python/libspitz/JobBinary.py:458-459 | a NUL with none before it is where the scan stops |
| JobBinary.StringAtCStr | spitz-python/libspitz/JobBinary.py:454-464 | `read_string` at a NUL-terminated string gives the string and its NUL |
| JobBinary.ReadString | spitz-python/libspitz/JobBinary.py:454-464 | the result is never empty, ends in the only NUL it holds, and its length is how far the caller's cursor moves |
| JobBinary.ReadRow | spitz-python/libspitz/JobBinary.py:406-412 | one turn of the list loop reads the row found at the cursor and moves the cursor just past it |
| JobBinary.SpitsGetMetricsList | spitz-python/libspitz/JobBinary.py:396-414 | None without the native export; otherwise the rows the export holds, in the order written |
| JobBinary.RowAtRecord | spitz-python/libspitz/JobBinary.py:406-412 | a name, a size and a type name written at a position decode to their row, the cursor moving past them |
| JobBinary.ListFromRecords | spitz-python/libspitz/JobBinary.py:405-412 | records written one after another decode to their rows in order: the reader inverts the writer |
| JobBinary.ListRoundTrip | spitz-python/libspitz/JobBinary.py:396-414 | the C++ list export reads back as one row per buffer in name order: its name and type name, each with its NUL, and its size |
| JobBinary.SpitsGetMetricsLastValues | spitz-python/libspitz/JobBinary.py:416-443 | one row per requested name, in request order, the i-th made of the four 8-byte fields at offset 32 i |
| JobBinary.LastRecordReadsBack | spitz-python/libspitz/JobBinary.py:430-437 | the 32-byte record of an integer element reads back as its value, seconds, nanoseconds and sequence number |
| JobBinary.LastValuesRoundTrip | spitz-python/libspitz/JobBinary.py:416-443 | the C++ last-values export of integer metrics reads back, name by name, as each newest element's value, time and sequence number, negative numbers as their 64-bit two's-complement pattern |
| JobBinary.LastValuesAsWrittenRoundTrip | spitz-python/libspitz/JobBinary.py:416-443 | the last-values export as the C++ code writes it, through `peek_front` as written, reads back as each newest element's value, time and sequence number whenever no requested ring has its head back at slot 0 |
| NodeList.ProxyRoundTrip | runtime/pypits/jm.py:172-182 | a printed proxy line `proxy <name> <protocol>:<address>:<port>` parses back to the same four fields |
| NodeList.ParseProxyOf | runtime/pypits/jm.py:172-182 | with three tokens, a gateway of three fields and an integer port, `parse_proxy` gives the name, protocol, address and port read from them |
| NodeList.ProxyNeedsThreeTokens | runtime/pypits/jm.py:173-174 | a line that does not split into exactly three tokens raises, whatever it holds |
| NodeList.ProxyFields | runtime/pypits/jm.py:172-182 | a successful parse had three tokens, takes its name from the second and its port from the third field of the gateway |
| NodeList.NodeRoundTrip | runtime/pypits/jm.py:198-209 | `node <host>:<port>` parses back to the name `host:port` and an endpoint at that host and port, whatever the proxies |
| NodeList.NodeOutcomes | runtime/pypits/jm.py:198-225 | fewer than two tokens raises; only two tokens succeed, naming the second token; four tokens raise for a wrong keyword, an unknown proxy or an unsupported one; three or five and more raise |
| NodeList.NodeEndpoint | runtime/pypits/jm.py:203-205 | the endpoint's address is the name's text before its first colon |
| NodeList.ThroughLineRaises | runtime/pypits/jm.py:212-222 | a well-formed `through` line raises "unknown proxy" when no proxy has the name, and "not supported" when one does |
| NodeList.ProxiedNodeMisreported | runtime/pypits/jm.py:216-222 | as written, the `next` call on a list raises a TypeError for every `through` line, known proxy or not; the intended lookup reports the unknown and the unsupported proxy apart |
| NodeList.ErrorStops | runtime/pypits/jm.py:321-322 | one selected line that raises makes the whole comprehension raise |
| NodeList.LoadErrorIsEmpty | runtime/pypits/jm.py:317-328 | when a `proxy` or `node` line raises, the loaded dictionary is empty |
| NodeList.LineInCollect | runtime/pypits/jm.py:321-322 | every selected line's result is in the comprehension |
| NodeList.CollectFromLine | runtime/pypits/jm.py:321-322 | every result in the comprehension comes from a selected line |
| NodeList.ToMapKeys | runtime/pypits/jm.py:323 | a name is a key of the dictionary exactly when some pair carries it |
| NodeList.ToMapLastWins | runtime/pypits/jm.py:323 | for each name, the dictionary holds the endpoint of the last pair with that name |
| NodeList.LoadTmListKeys | runtime/pypits/jm.py:317-328 | when no line raises, a name is loaded exactly when some `node` line gives it |
| NodeList.LoadTmListLastWins | runtime/pypits/jm.py:317-328 | when no line raises, each loaded name holds the endpoint of the last `node` line naming it |
| PerfLog.Find | tools/perf-pits.py:34 | `str.index`: a found position leaves room for the pattern |
| PerfLog.FindIsFirst | tools/perf-pits.py:34 | the position found is the first occurrence, and nothing is found only when the pattern does not occur |
| PerfLog.NoMarkerRaises | tools/perf-pits.py:34 | a message without the opening marker raises a ValueError |
| PerfLog.ProcessingRoundTrip | tools/perf-pits.py:33-34 | the task number of `Processing task <n> from job <m>...` reads back as n |
| PerfLog.ProcessedRoundTrip | tools/perf-pits.py:36-37 | the task number of `Task <n> processed.` reads back as n |
| PerfPits.TimeTasks | tools/perf-pits.py:60-69 | the loop over one thread's tasks times each task, lowers the earliest start and records each finished task's earliest end |
| PerfPits.TimeThreads | tools/perf-pits.py:59-69 | the loop over one job's threads does the same over all their tasks, in order |
| PerfPits.TimeJob | tools/perf-pits.py:58-70 | the first pass over one job, with its "End Init. Time" |
| PerfPits.FirstPass | tools/perf-pits.py:56-70 | every job is replaced by its first-pass form in place, and the returned end times are those of all jobs' tasks in order |
| PerfPits.TallyTasks | tools/perf-pits.py:98-108 | each task is classified, and the three sums are the durations of the successful, repeated and unfinished tasks |
| PerfPits.TallyThread | tools/perf-pits.py:86-108 | one thread tallied, its total the time from its start to the kill |
| PerfPits.TallyThreads | tools/perf-pits.py:84-112 | the loop over a job's threads tallies each and adds their times into the job's |
| PerfPits.TallyJob | tools/perf-pits.py:73-114 | the second pass over one job, with the initialisation overhead set only when it has threads |
| PerfPits.SecondPass | tools/perf-pits.py:72-114 | every job is replaced by its tallied form in place |
| PerfPits.ProcessTasks | tools/perf-pits.py:55-114 | the jobs after `processTasks` are the two passes applied to the jobs before |
| PerfPits.EndsKeys | tools/perf-pits.py:64-68 | an id has an earliest end exactly when it had one or a task with it finished |
| PerfPits.EndsBelow | tools/perf-pits.py:68 | the recorded end is no later than the previous one (or `now`) nor than any end of a task with that id |
| PerfPits.EndsAttained | tools/perf-pits.py:68 | the recorded end is the previous one (or `now`) or the end of some task with that id |
| PerfPits.FirstPassReady | tools/perf-pits.py:56-103 | after the first pass every finished task's id has an end time, so the lookup at line 103 cannot fail |
| PerfPits.SumPartition | tools/perf-pits.py:100-108 | every classified task's duration is counted once: as successful, repeated or unfinished |
| PerfPits.FirstStartBounds | tools/perf-pits.py:58-63 | "End Init. Time" is no later than `now` nor any task's start, and it is `now` or some task's start |
| PerfPits.GlobalEndIsEarliest | tools/perf-pits.py:56-69 | an id has a global end time exactly when a task with it finished in some job; that time is the earliest such end, capped at `now` |
| PerfPits.TaskOutcome | tools/perf-pits.py:55-108 | a task that never ended is unfinished and ran until the kill; one that ended ran until its end and is successful exactly when it ended at its id's global end time, repeated otherwise |
| PerfPits.ThreadOutcome | tools/perf-pits.py:84-108 | a thread's total is the time from its start to the kill, and its successful, repeated and unfinished times add up to the time all its tasks took |
| PerfPits.JobOutcome | tools/perf-pits.py:55-114 | a job's "End Init. Time" is its tasks' earliest start (or `now`), its total is the sum of its threads' totals, and its three times add up to the time all its tasks took |
| JobScripts.FilterOnlyKept | runtime/pypits/spits-job-manager.py:22-25 | the filtered hostname holds only spaces, dashes, ASCII letters and digits |
| JobScripts.FilterCounts | runtime/pypits/spits-job-manager.py:22-25 | each kept character stays as often as it occurs, every other character is dropped |
| JobScripts.FilterAppend | runtime/pypits/spits-job-manager.py:22-25 | filtering works piece by piece, so kept characters keep their order |
| JobScripts.FilterKeepsPlain | runtime/pypits/spits-job-manager.py:22-25 | a hostname of kept characters only is left unchanged |
| JobScripts.FilterIdempotent | runtime/pypits/spits-job-manager.py:22-25 | filtering twice is filtering once |
| JobScripts.UidPlain | runtime/pypits/spits-job-manager.py:18-26 | a uid holds only characters a hostname may keep |
| JobScripts.UidRoundTrip | runtime/pypits/spits-job-manager.py:18-26 | for a non-negative pid, the uid splits at its last dash into the filtered hostname and the pid |
| JobScripts.UidInjective | runtime/pypits/spits-job-manager.py:18-26 | two non-negative pids give one uid only for the same pid and the same filtered hostname |
| JobScripts.PidFallback | runtime/pypits/spits-job-manager.py:19-20 | a missing or zero pid is replaced by the current process's, any other pid is kept |
| JobScripts.WordsDisjoint | runtime/pypits/spits-create-job.py:63-66 | no word is both a true word and a false word |
| JobScripts.Str2BoolFalse | runtime/pypits/spits-create-job.py:60-68 | the result is false exactly for False or a false word in any case; every other string reads as true |
| JobScripts.Str2BoolIgnoresCase | runtime/pypits/spits-create-job.py:63-66 | the reading of a string does not depend on its case |
| JobScripts.Str2BoolExamples | runtime/pypits/spits-create-job.py:60-68 | `Yes` and `1` read true, `FALSE`, `n` and the bool False read false, and `maybe` reads true |
| PyText.Words | runtime/pypits/jm.py:172 | `str.split()`: no word is empty or holds whitespace |
| PyText.WordsOfJoin | runtime/pypits/jm.py:172 | words joined by single spaces split back into the same words |
| PyText.Split | runtime/pypits/jm.py:178 | `str.split(sep)`: at least one piece, none holds the separator, and joining them gives the string back |
| PyText.SplitOfJoin | runtime/pypits/jm.py:178 | pieces without the separator, joined by it, split back into the same pieces |
| PyText.Strip | runtime/pypits/jm.py:321-322 | `str.strip()`: the result neither starts nor ends with whitespace and is a slice of the input |
| PyText.LowerIdempotent | runtime/pypits/spits-create-job.py:63 | lowering twice is lowering once |
| PyText.ParseShowInt | tools/perf-pits.py:34 | `int(str(n)) == n` |

## Left out

- Concurrency: the API store's `shared_mutex` locking is left out; every operation is modelled as it runs alone.
- The wall clock (`clock_gettime`, `datetime.now()`) is a parameter; a timestamp is an opaque pair of integers.
- Floating point: float and double values are opaque bit patterns of their encoded width, so nothing is stated about their arithmetic.
- `stream.hpp` is not part of this model: its output stream is modelled as appending big-endian 8-byte integers, NUL-terminated strings and raw bytes, the layout the test decoders read.
- Memory ownership: `new`/`delete`, `malloc`/`free`, `spits_free_ptr`, `spits_free_metric_list`, `spits_free_metrics_history`, the `spits_metrics_delete` exports and the destructors are left out, and so are pointer-lifetime faults (a popped pointer still owned by its slot, the leaks on the destructive-read paths).
- Aliasing: a store's map holds each buffer's state as a value, so two handles onto one buffer object are not modelled.
- DevMetrics and CcppMetrics keep the sequence counter unbounded; the exports apply the cut to `unsigned int` that the source's counter type implies, so a counter past 2^32 or 2^64 is not followed through the buffers themselves.
- SpitzMetrics keeps the `int sequence` counter unbounded: its signed overflow after 2^31 adds is undefined behaviour in C++ and is not modelled.
- The dev C wrappers `spits_metrics_new`, `spits_set_metric_*`, `spits_get_num_buffers` and `spits_metrics_reset` are one-line forwards to `DevMetrics.Metrics.constructor`, `AddMetric`, `GetNumMetricBuffers` and `Reset`; `spits_metrics_debug_dump` only prints.
- ApiMetrics: `MetricManager::reset` is private and only called by the destructor, so it is left out.
- Invalid enumeration values and the `default:` branches that throw for them cannot arise, because Dafny datatypes are exhaustive.
- The legacy `serializate` also logs to `std::cout`; the logging is left out.
- The legacy `CircularBuffer` copy constructor (API/include/utils.hpp:32-42), `clear` and destructor only manage memory and are left out.
- LegacyRing.CircularBuffer.Index: states its result only for a full buffer; on a partly filled one the head-based index reads past the newest element, as `CcppRing.AtAsWrittenReadsPastNewest` shows for the same computation.
- JobBinary: `spits_metric_new`, `spits_metric_finish` and `spits_set_metric_int` are forwards to the native module and are left out, as is the `print` at JobBinary.py:439; the native exports' bytes are a parameter.
- JobBinary.LastValuesRoundTrip: states the round trip for integer metrics only; a float or date-time value is decoded as the 8 bytes that happen to sit there.
- runtime/pypits/libspits/JobBinary.py repeats the decoder and is not modelled separately.
- TestUtils: `read_float` and `read_double` decode floating point and are left out.
- NodeList: the file read of `load_tm_list_from_file` is left out (its lines are a parameter), and so are the filesystem helpers and the networking of jm.py.
- PyText: `str.lower` and `str.split`'s whitespace are ASCII only; every string the modelled scripts compare is ASCII.
- PerfPits: the file reading and `datetime` parsing of `loadFiles`, and `jobStatistics`/`printStatistics`, are left out; `datetime.now()` is one parameter `now`, read once, where the source reads the clock at each call.
- PerfPits: a Python dict iterates in insertion order; threads and tasks are sequences in that order.
- JobScripts.UidRoundTrip: stated for non-negative pids, the only ones `os.getpid()` returns; a negative pid prints a second dash.
- JobScripts: the copies of `make_uid` and `str2bool` in the other runtime scripts are the same logic and are modelled once; `socket.gethostname()` and `os.getpid()` are parameters.
- CcppMetrics.Metrics.SetMetric: requires, through `CanSet`, that a write other than a byte array carries a value of the requested type, and that the buffer it lands in (found, or created with the default size) has a positive size and the same type. The source does neither check: `set_metric` reinterpret_casts whatever buffer it finds (spitz-include/ccpp/metrics.hpp:329-346) and `push` computes `% _buffer_size` (:148-149). A mismatched type or a size of 0 is undefined behaviour there, so those inputs are excluded rather than modelled. `SetMetricSpec`, `SetMetricAppends`, `SetMetricNewest` and `SetThenLastValue` carry the same requirement.
- CcppMetrics.SpitsSetMetric: carries the `CanSet` requirement of `Metrics.SetMetric` for its INT write, for the same reason.
- SpitzMetrics.Metrics.AddMetric: requires a value of the existing buffer's type and, for a new name, a default capacity other than 0. `add_metric` reinterpret_casts the buffer unchecked (spitz-include/ccpp/spitz/metrics.hpp:315-328), and a ring of capacity 0 takes `% 0` in `push` (:42); both are undefined behaviour, so those inputs are excluded. `AddMetricSpec`, `AddMetricFails` and `AddMetricKeepsOthers` carry the same requirement.
- SpitzExports.SetMetric: carries the requirement of `SpitzMetrics.Metrics.AddMetric` through `CanAdd` (a value of the existing buffer's type, a default capacity other than 0 for a new name), for the same reason; so do `SpitsSetMetricInt`, `SpitsSetMetricFloat` and `SpitsSetMetricBytes`.
- DevMetrics.Metrics.AddMetric: requires the value's type to match an existing buffer's. The dev `add_metric` reinterpret_casts the buffer `get_or_create_buffer` returns without checking its type (dev/include/metrics.hpp:579-612); a mismatch is undefined behaviour and is excluded. `AddMetricSpec` and `AddMetricEffect` carry the same requirement.
- CcppRing.RingBuffer.PeekFront: says nothing for a ring that is neither full nor empty with its head at 0 (after pops), where the as-written slot (2^32 - 1) % size need not hold the newest element; `PeekFrontSlotAsWritten` still gives the slot read.
- CcppRing.RingBuffer.At: says nothing when head + index reaches 2^32, or when a ring that is not full is read more than one turn past its newest element; `AtSlotAsWritten` still gives the slot read.
- CcppMetrics.MetricBuffer.GetMetric: inherits the cases `RingBuffer.At` leaves unstated.
- CcppMetrics.MetricBuffer.GetLastMetric: inherits the case `RingBuffer.PeekFront` leaves unstated. The store never pops, so a buffer it holds with its head at 0 is full (`LastValueAsWrittenAtZero`).
- CcppMetrics.LastValuesOutcome: states the intended read, the newest element. The export as written is `LastValuesExportAsWritten`. It agrees whenever no requested name has its head back at slot 0 (`LastValuesAsWrittenAgree`), and its own outcome is `LastValuesAsWrittenOutcome`. At head 0 it reads the element (2^32 - 1) % size places after the oldest (`LastValueAsWrittenAtZero`, `ThreeWritesLastValueAsWritten`).
- CcppMetrics.LastValuesSucceed: states the intended read; the as-written export agrees away from a head at slot 0 (`LastValuesAsWrittenAgree`).
- CcppMetrics.SetThenLastValue: states the intended read; as written it holds unless the write brought the head back to slot 0 (`SetThenLastValueAsWritten`), and `ThreeWritesLastValueAsWritten` shows a write where it fails.
- CcppMetrics.HistoryWindow: states the intended reads, counted from the tail. The export as written is `HistoryExportAsWritten`. It agrees on full buffers of at most 2^31 slots (`HistoryAsWrittenWhenFull`). It fails on a buffer that is not full whenever the header's head-based read lands past the newest element (`HistoryAsWrittenPastNewest`, `OneWriteHistoryAsWritten`).
- CcppMetrics.BufferWindow: states the intended block of one buffer; the block as written is `HistoryOfBufferAsWritten`, with the same agreement (`HistoryAsWrittenWhenFull`) and the same failures (`HistoryAsWrittenPastNewest`).

## Findings

| source | as written | input that shows it | evidently intended | confidence | as-written member | corrected member |
|---|---|---|---|---|---|---|
| spitz-include/ccpp/metrics.hpp:177-179 | `peek_front` reads slot `(_head - 1) % _buffer_size` in `unsigned int`, so a head of 0 wraps to 2^32 - 1 first; `get_last_metric` and `get_metrics_last_values` (:253, :367-407) read through it | a full ring of 3 slots whose head is back at 0: (2^32 - 1) % 3 = 0, the slot of the oldest element; in the store, three writes into a buffer of size 3 make the last-values export report the first write | the slot before the head, wrapping to the last slot: slot 2, the newest element, so the export reports the third write | not executed | CcppRing.PeekFrontAsWrittenReadsOldest, CcppMetrics.ThreeWritesLastValueAsWritten | CcppRing.PeekFrontSlot, CcppMetrics.LastValuesOutcome |
| spitz-include/ccpp/metrics.hpp:189-191 | `at(index)` reads slot `(_head + index) % _buffer_size`, counting from the head; `get_metric` and `get_metrics_history` (:252, :419-430) read through it | a ring of 3 slots holding one element at slot 0 (tail 0, head 1): `at(0)` reads slot 1, which is empty; in the store, one write into a buffer of size 3 and a history request for 1 element dereference that empty slot | count from the tail: slot `(_tail + index) % _buffer_size`, the index-th oldest element, so the history holds the one write | not executed | CcppRing.AtAsWrittenMissesOnlyElement, CcppMetrics.OneWriteHistoryAsWritten | CcppRing.AtSlot, CcppMetrics.HistoryWindow |
| runtime/pypits/jm.py:216-222 | the proxy is looked up with `next([...], None)`; `next` on a list raises a TypeError | the line `node h:1 through p`, with or without a proxy named `p` | raise "Unknown proxy" when no proxy has the name, and "not supported yet" when one does | not executed | NodeList.ProxiedNodeMisreported | NodeList.ParseNode |

# IronPython conversion wrappers, modelled in Dafny

This project models `Src/IronPython/Runtime/ConversionWrappers.cs`, the layer
through which statically typed .NET code sees IronPython's untyped objects:

- `ListGenericWrapper<T>`, `DictionaryGenericWrapper<K, V>`,
  `IEnumeratorOfTWrapper<T>` and `IEnumerableOfTWrapper<T>` borrow an untyped
  list, dictionary, cursor or iterable and present a typed view of it. Every read
  is a checked cast; every write passes straight through.
- `MemoryBufferProtocolWrapper.GetBuffer` hands out `MemoryBufferWrapper` views
  of a byte region under the Python buffer protocol (PEP 3118), and refuses a
  writable view of read-only memory.

Files and modules:

- `conversion.dfy` (`Conversion`): runtime values (`Value`), the type arguments
  `T`/`K`/`V` (`TypeTag`), "castable to T" (`HasType`), the checked cast
  (`Cast`), `default(T)`, the exception kinds (`Error`), and the shared
  specification of the "cast every element in order" loops (`CastAll`,
  `ConvertAll`) and of the `CopyTo` loops (`CopyCount`, `CopyOutcome`).
- `untyped_collections.dfy` (`UntypedCollections`): the borrowed stores. They
  are collaborators, not part of the file being modelled. Each is a class with
  the behaviour of the .NET collection contract: `List<object>` for the list,
  an insertion-ordered dictionary for the dictionary, and a standard
  `IEnumerator` cursor.
- `list_wrapper.dfy`, `dictionary_wrapper.dfy`, `enumerator_wrappers.dfy`: the
  four collection wrappers. Each is a class that holds its store by reference,
  as the source does. Mutating members are methods with `modifies store`, and
  they state the store's new state exactly. Reads are functions.
- `buffer_wrappers.dfy` (`BufferWrappers`): the two buffer types as values,
  since all their fields are read-only. The region is an `array<byte>` and the
  flag `hasMemory` mirrors `_memory.HasValue`.

Each wrapper operation returns `Result`/`Outcome`, so that a raised exception
is a value: `Err(InvalidCast(T, actual))`, `Err(ArgumentOutOfRange)`, and so on.
`Keys` and `Values` return a `seq`. It is a value, so a later change to the
backing dictionary cannot reach a list already returned, just as the source
returns a newly built `List`.

Two behaviours one might expect differently follow the code:

- A mutable region always yields a writable view, for any flags
  (`ConversionWrappers.cs:332-334`). The buffer protocol would allow a
  read-only view when Writable is not requested, but the code never narrows.
- `Reset` is forwarded to the wrapped cursor (`ConversionWrappers.cs:239-241`).
  The wrapper does not reject it itself. A cursor that cannot restart (its
  `canReset` is false, as for a compiler-generated iterator) raises
  NotSupported, and the wrapper passes that error through.

Evaluation order of `array[arrayIndex + i] = (T)_value[i]`: the cast on the
right-hand side runs before the store checks the array bound. So when element
`i` is not a `T` and its slot is also outside the array, the error is the cast
error. `CopyCount`/`CopyOutcome` encode this order.

## Model

| member | source | states |
|---|---|---|
| `Conversion.Cast` | Src/IronPython/Runtime/ConversionWrappers.cs:213-215 | `(T)o` never changes the value; it fails exactly when the value is not a T; the error names T and the value's runtime type (unboxing null to a value type raises NullReference instead) |
| `Conversion.Default` | Src/IronPython/Runtime/ConversionWrappers.cs:124 | `default(V)` is a V, and is null exactly for reference types |
| `Conversion.CastAll` | Src/IronPython/Runtime/ConversionWrappers.cs:107-111 | the list built by casting every element succeeds exactly when all elements have the type, and then equals the source in order; otherwise it fails with the error of the first misfit, all earlier elements being castable |
| `Conversion.ConvertAll` | Src/IronPython/Runtime/ConversionWrappers.cs:130-134 | the `foreach ... res.Add((V)o)` loop computes `CastAll` |
| `Conversion.CopyCount` | Src/IronPython/Runtime/ConversionWrappers.cs:52-54 | the CopyTo loop fills a prefix of the elements: all of them converted and their slots are inside the array; it stops at the first failed conversion or out-of-range slot |
| `Conversion.CopyOutcome` | Src/IronPython/Runtime/ConversionWrappers.cs:51-55 | CopyTo returns exactly when the whole prefix is written; otherwise it raises the stopping element's cast error, or IndexOutOfRange when that element converted but its slot is outside |
| `Conversion.CopySucceedsIff` | Src/IronPython/Runtime/ConversionWrappers.cs:51-55 | CopyTo returns normally if and only if every element converts and `[arrayIndex, arrayIndex + Count)` lies inside the array |
| `Conversion.CopyStopsAtFirstFailure` | Src/IronPython/Runtime/ConversionWrappers.cs:52-54 | no rollback: when element k is the first misfit and the slots before it fit, exactly k slots were written and the error is element k's; at k = 0 this holds for any `arrayIndex`, even one outside the array, because the cast comes first |
| `ListWrapper.ListGenericWrapper.constructor` | Src/IronPython/Runtime/ConversionWrappers.cs:14 | the wrapper borrows the given list and does not copy it |
| `ListWrapper.ListGenericWrapper.IndexOf` | Src/IronPython/Runtime/ConversionWrappers.cs:18-20 | -1 exactly when the item is absent; otherwise the first position holding it |
| `ListWrapper.ListGenericWrapper.Insert` | Src/IronPython/Runtime/ConversionWrappers.cs:22-24 | forwarded: the item goes in at `index` unchecked; a bad index or a read-only list raises and changes nothing |
| `ListWrapper.ListGenericWrapper.RemoveAt` | Src/IronPython/Runtime/ConversionWrappers.cs:26-28 | forwarded: slot `index` is removed, or the backing error is raised with nothing changed |
| `ListWrapper.ListGenericWrapper.Get` | Src/IronPython/Runtime/ConversionWrappers.cs:31 | `this[i]` returns the element at i exactly when it is a T; a misfit raises the cast error naming T; an index outside the list raises ArgumentOutOfRange |
| `ListWrapper.ListGenericWrapper.Set` | Src/IronPython/Runtime/ConversionWrappers.cs:32 | the value is stored unchecked and only slot i changes; reading it back casts it |
| `ListWrapper.ListGenericWrapper.Add` | Src/IronPython/Runtime/ConversionWrappers.cs:39-41 | forwarded: appends, so Count grows by one; a read-only list raises NotSupported |
| `ListWrapper.ListGenericWrapper.Clear` | Src/IronPython/Runtime/ConversionWrappers.cs:43-45 | forwarded: the backing list becomes empty |
| `ListWrapper.ListGenericWrapper.Contains` | Src/IronPython/Runtime/ConversionWrappers.cs:47-49 | true exactly when IndexOf finds the item |
| `ListWrapper.ListGenericWrapper.CopyTo` | Src/IronPython/Runtime/ConversionWrappers.cs:51-55 | slot `arrayIndex + i` receives element i for every i before the stopping point; no other slot changes; the outcome is `CopyOutcome` |
| `ListWrapper.ListGenericWrapper.Count` | Src/IronPython/Runtime/ConversionWrappers.cs:57-59 | the backing list's length |
| `ListWrapper.ListGenericWrapper.IsReadOnly` | Src/IronPython/Runtime/ConversionWrappers.cs:61-63 | the backing list's flag |
| `ListWrapper.ListGenericWrapper.Remove` | Src/IronPython/Runtime/ConversionWrappers.cs:65-67 | forwarded: the first occurrence is dropped, and the result says whether there was one |
| `ListWrapper.ListGenericWrapper.GetEnumerator` | Src/IronPython/Runtime/ConversionWrappers.cs:73-75 | a new typed enumerator over a new cursor of the backing list, before its first element |
| `ListWrapper.MixedListScenario` | Src/IronPython/Runtime/ConversionWrappers.cs:31 | over `[1, "x", 3]` as a list of int, slots 0 and 2 read back and slot 1 raises InvalidCast(int, string) |
| `ListWrapper.AddThenRemoveRestores` | Src/IronPython/Runtime/ConversionWrappers.cs:65-67 | `Add(x)` then `Remove(x)` restores the list when x was absent |
| `ListWrapper.InsertThenRemoveAtRestores` | Src/IronPython/Runtime/ConversionWrappers.cs:22-28 | `Insert(i, x)` then `RemoveAt(i)` restores the list |
| `DictionaryWrapper.PairResult` | Src/IronPython/Runtime/ConversionWrappers.cs:187 | a yielded pair is `(key, value)` exactly when the key is a K and the value a V; the key's cast error takes precedence |
| `DictionaryWrapper.DictionaryGenericWrapper.constructor` | Src/IronPython/Runtime/ConversionWrappers.cs:91-93 | the wrapper borrows the given dictionary and does not copy it |
| `DictionaryWrapper.DictionaryGenericWrapper.Add` | Src/IronPython/Runtime/ConversionWrappers.cs:97-99 | forwarded: a new key is appended to the key order; an existing key raises DuplicateKey and changes nothing |
| `DictionaryWrapper.DictionaryGenericWrapper.ContainsKey` | Src/IronPython/Runtime/ConversionWrappers.cs:101-103 | true exactly when the key is in the backing key order |
| `DictionaryWrapper.DictionaryGenericWrapper.Keys` | Src/IronPython/Runtime/ConversionWrappers.cs:105-113 | a list of the backing keys in order, of length Count, when all are K; otherwise the first misfit's cast error |
| `DictionaryWrapper.DictionaryGenericWrapper.Remove` | Src/IronPython/Runtime/ConversionWrappers.cs:115-117 | forwarded: the key leaves both the order and the map, and the result says whether it was there |
| `DictionaryWrapper.DictionaryGenericWrapper.TryGetValue` | Src/IronPython/Runtime/ConversionWrappers.cs:119-126 | a missing key gives `(false, default(V))`; a present key gives `(true, value)` or raises the cast error, and is never reported missing |
| `DictionaryWrapper.DictionaryGenericWrapper.Values` | Src/IronPython/Runtime/ConversionWrappers.cs:128-136 | a list of the values in key order, of length Count, when all are V; otherwise the first misfit's cast error |
| `DictionaryWrapper.DictionaryGenericWrapper.Get` | Src/IronPython/Runtime/ConversionWrappers.cs:139-141 | a missing key raises KeyNotFound; a present key's value is returned cast to V |
| `DictionaryWrapper.DictionaryGenericWrapper.Set` | Src/IronPython/Runtime/ConversionWrappers.cs:142-144 | unchecked write: an existing key keeps its place and a new key is appended; reading it back casts it |
| `DictionaryWrapper.DictionaryGenericWrapper.AddPair` | Src/IronPython/Runtime/ConversionWrappers.cs:151-153 | `Add(KeyValuePair)` behaves as `Add(key, value)` on the backing store |
| `DictionaryWrapper.DictionaryGenericWrapper.Clear` | Src/IronPython/Runtime/ConversionWrappers.cs:155-157 | forwarded: the backing dictionary becomes empty |
| `DictionaryWrapper.DictionaryGenericWrapper.Contains` | Src/IronPython/Runtime/ConversionWrappers.cs:159-161 | true exactly when the key is present with that value |
| `DictionaryWrapper.DictionaryGenericWrapper.CopyTo` | Src/IronPython/Runtime/ConversionWrappers.cs:163-167 | the enumerated pairs go to consecutive slots from `arrayIndex` up to the stopping point; no other slot changes; the outcome is `CopyOutcome` of the enumeration |
| `DictionaryWrapper.CopyDelivered` | Src/IronPython/Runtime/ConversionWrappers.cs:164-166 | the `foreach ... array[arrayIndex++] = kvp` loop: delivered pair i lands at slot `arrayIndex + i` up to the stopping point, no other slot changes, and it ends as `CopyOutcome` says |
| `DictionaryWrapper.DictionaryGenericWrapper.Count` | Src/IronPython/Runtime/ConversionWrappers.cs:169-171 | the backing dictionary's number of keys |
| `DictionaryWrapper.DictionaryGenericWrapper.IsReadOnly` | Src/IronPython/Runtime/ConversionWrappers.cs:173-175 | the backing dictionary's flag |
| `DictionaryWrapper.DictionaryGenericWrapper.RemovePair` | Src/IronPython/Runtime/ConversionWrappers.cs:177-179 | forwarded: the key is removed only when it maps to that value |
| `DictionaryWrapper.DictionaryGenericWrapper.Enumeration` | Src/IronPython/Runtime/ConversionWrappers.cs:185-189 | the typed pairs in backing order, each converted as `PairResult`; only the last delivered pair can be a failure, and the enumeration ends early only right after one, since an iterator that has thrown delivers nothing more |
| `Conversion.Delivered` | Src/IronPython/Runtime/ConversionWrappers.cs:185-189 | an iterator block delivers a prefix of its results: every one before the first failure, then that failure, then nothing; all of them when none fails |
| `Conversion.CopyOfDeliveredAgrees` | Src/IronPython/Runtime/ConversionWrappers.cs:163-167 | copying what the iterator delivers stops at the same slot with the same outcome as copying every entry's result |
| `DictionaryWrapper.TryGetValueAgreesWithIndexer` | Src/IronPython/Runtime/ConversionWrappers.cs:119-126 | TryGetValue and the indexer agree on present keys and on cast failures; "absent" matches KeyNotFound |
| `EnumeratorWrappers.IEnumeratorOfTWrapper.constructor` | Src/IronPython/Runtime/ConversionWrappers.cs:205-207 | the wrapper holds the given cursor |
| `EnumeratorWrappers.IEnumeratorOfTWrapper.Current` | Src/IronPython/Runtime/ConversionWrappers.cs:210-218 | the cursor's element when it is a T; a misfit raises the cast error naming T and the element's runtime type; with no current element the cursor's own error passes through |
| `EnumeratorWrappers.IEnumeratorOfTWrapper.MoveNext` | Src/IronPython/Runtime/ConversionWrappers.cs:235-237 | forwarded: the cursor advances by one until it passes the end, and the result says whether an element is current |
| `EnumeratorWrappers.IEnumeratorOfTWrapper.Reset` | Src/IronPython/Runtime/ConversionWrappers.cs:239-241 | forwarded: a cursor that can restart returns before its first element; one that cannot raises NotSupported, which passes through with the position unchanged |
| `EnumeratorWrappers.IEnumerableOfTWrapper.constructor` | Src/IronPython/Runtime/ConversionWrappers.cs:250-252 | the wrapper holds the given source |
| `EnumeratorWrappers.IEnumerableOfTWrapper.GetEnumerator` | Src/IronPython/Runtime/ConversionWrappers.cs:256-258 | every call returns a new typed enumerator over a new cursor, before the first element |
| `EnumeratorWrappers.IndependentEnumerators` | Src/IronPython/Runtime/ConversionWrappers.cs:256-258 | two enumerators from one source do not share a position: advancing one leaves the other where it was |
| `EnumeratorWrappers.ResetThenReplay` | Src/IronPython/Runtime/ConversionWrappers.cs:239-241 | after one step and a `Reset`, the next element read is the first again when the cursor can restart; otherwise Reset raises NotSupported and reading continues with the second |
| `BufferWrappers.MemoryBufferWrapper.AsReadOnlySpan` | Src/IronPython/Runtime/ConversionWrappers.cs:296 | every view reads the whole region, `ItemCount` bytes; for a writable view these are the bytes of the array `AsSpan` hands out |
| `BufferWrappers.MemoryBufferWrapper.AsSpan` | Src/IronPython/Runtime/ConversionWrappers.cs:298 | the writable region exactly when the view is not read-only; otherwise InvalidOperation |
| `BufferWrappers.MemoryBufferProtocolWrapper.GetBuffer` | Src/IronPython/Runtime/ConversionWrappers.cs:331-341 | a mutable region always yields a writable view; a read-only region raises BufferError for Writable and otherwise yields a read-only view; every view covers the region with ItemCount = length, ItemSize 1, NumOfDims 1, Offset 0, no Shape, Strides or SubOffsets, and Format "B" exactly when Format was requested |
| `BufferWrappers.ReadOnlyRegionNeverWritable` | Src/IronPython/Runtime/ConversionWrappers.cs:336-340 | no view of a read-only region yields a writable span, whatever the flags |
| `BufferWrappers.WriteThroughThenReadBack` | Src/IronPython/Runtime/ConversionWrappers.cs:296-298 | bytes written through a writable view's span are what a view acquired later from the same source reads |

The view's metadata properties (`IsReadOnly`, `Offset`, `Format`, `ItemCount`,
`ItemSize`, `NumOfDims`, `Shape`, `Strides`, `SubOffsets`, lines 294-314) are
plain functions. Their values are stated in `GetBuffer`'s contract.

## Left out

- The non-generic `IEnumerable.GetEnumerator` members (lines 81-83, 195-197, 264-266) and the untyped `IEnumerator.Current` (lines 231-233). They return the backing store's own uncast values and add nothing to it.
- `Dispose` (lines 224-225, 290), the `Object` property (line 292) and the `[PythonType]` attribute. They are host-object plumbing with no behaviour.
- The text of exception messages (line 215, line 337). Only the error kind and, for casts, the two type names are modelled. `PythonOps.BufferError` is a call into the Python runtime and becomes the error kind `BufferError`.
- The CLR's cast rules are reduced to `HasType` over four runtime types (object, int, string, bool) plus null. Boxing, user-defined conversions and generic variance are not modelled.
- Equality behind `IndexOf`, `Contains` and `Remove` is equality of `Value`, not CLR `Equals`/`GetHashCode`.
- The concrete backing stores are not part of this model. The list follows `List<object>` (an index outside the list raises ArgumentOutOfRange), not Python-list indexing with negative indices. The dictionary enumerates in insertion order and gives null keys no special treatment.
- `DictionaryWrapper.DictionaryGenericWrapper.Enumeration`: the compiler-generated `yield` state machine is represented by the sequence of what its successive `MoveNext` calls deliver, up to and including the first failed pair (after it, `MoveNext` returns false). A backing dictionary changed during an enumeration (InvalidOperationException) is not modelled.
- `EnumeratorWrappers.IEnumerableOfTWrapper.GetEnumerator`: the untyped source is modelled as one that starts a new cursor on every call. A source that hands back the same cursor each time (a one-shot iterator whose `GetEnumerator` returns itself) would give typed enumerators that share one position; the model does not capture that sharing.
- `EnumeratorWrappers.IndependentEnumerators`: holds for sources that start a new cursor on every call, as above. It is a property of the source, not of the wrapper, which only forwards `GetEnumerator`.
- `EnumeratorWrappers.IEnumeratorOfTWrapper.Current`: a cursor with no current element (before the first `MoveNext` or after the end) raises InvalidOperation, as `List<T>.Enumerator` does. Cursors that return a default or stale value there instead, as compiler-generated iterators do, are not modelled; over such a cursor the wrapper would cast that value.
- An untyped cursor works over a snapshot of its source taken when it is created. The "collection was modified" failure of .NET enumerators is not modelled.
- `Span`/`Memory` representation, pinning and lifetime. A region is a whole `array<byte>`, not a slice of a larger array.
- A null destination array for `CopyTo`: Dafny arrays are never null.
- 32-bit arithmetic: `arrayIndex + i` is unbounded. Overflow would wrap to a negative index, which is out of range too, so the outcome (IndexOutOfRange at the same element) is the same.
- Buffer flags other than Writable and Format: they do not affect the view, as in the source.
- Thread safety: the layer has none, and concurrent mutation of a backing store is out of scope.

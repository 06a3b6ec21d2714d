# mmtk-openjdk binding core, modelled in Dafny

This project models the core of the MMTk binding for OpenJDK: the Rust
side (`mmtk/src`) and the C++ side (`openjdk/`).

The centre of the model is Java reference discovery and processing.

- **Lists.** There is one intrusive singly linked *discovered list* per
  reference kind (Soft, Weak, Final, Phantom) and per GC worker. The link
  is the reference object's `discovered` field, and the last node links
  to itself.
- **Insertion.** `DiscoveredList::add` inserts with a compare-and-swap on
  that field.
- **Gate.** An `allow_discover` gate is closed when reference processing
  starts and reopened by `resume_mutators`.
- **Processing.** `process_lists` and `resurrect_final_refs` take the list
  heads and turn them into work packets.
- **Walking.** `iterate_list` walks one list, nulls every link, and
  rebuilds a new list out of the nodes a visitor enqueues.
- **Discovery decision.** On the scanning side, `InstanceRefKlass::oop_iterate`
  decides whether a `java.lang.ref.Reference` is discovered or has its
  referent and discovered slots traced as strong edges.

Around that centre sit the sequential parts of the binding:

- compressed oops and the bit-63 edge tag (`lib.rs`);
- the edge-range and chunk iterators (`lib.rs`);
- the root-buffer closures with flush-on-full (`mmtkRootsClosure.hpp`);
- nmethod root bookkeeping and array-copy ranges (`api.rs`);
- the code-cache root batching (`gc_work.rs`);
- the bump-pointer fast paths of the two `MMTkMutatorContext::alloc`
  variants (`mmtkMutator.cpp`, `mmtkMutator.inline.hpp`);
- the field-barrier metadata bit test and its C1/C2 forms
  (`mmtkFieldBarrier.cpp`);
- the semispace is-alive test, forwarding closure and mutator iterator
  (`mmtkUpcalls.cpp`);
- the version string (`build_info.rs`).

The heap is a map from object ids to a `(referent, discovered)` record
(`ReferenceGlue.Heap`) or from addresses to 64-bit words (`Edges.Memory`).

The following are parameters of the model, never computed by it:

- forwarding, reachability and tracing;
- the plan's `should_process_reference`;
- mmtk-core's allocator and `is_live`;
- the current worker's ordinal.

Where the source updates state in place, the model is a class whose methods
change fields and say exactly what the new state is. Where the source
computes values, the model is a function with lemmas about it.

Modules, one file each:

| module | file | models |
|---|---|---|
| `Wrappers` | wrappers.dfy | `Option`, `Result` (`Ok` / `Panic`), `Flatten` |
| `Edges` | edges.dfy | `mmtk/src/lib.rs` |
| `ReferenceGlue` | reference_glue.dfy | `mmtk/src/reference_glue.rs` |
| `ObjectScanning` | object_scanning.dfy | `mmtk/src/object_scanning.rs` |
| `Collection` | collection.dfy | `mmtk/src/collection.rs` |
| `RootsClosure` | roots_closure.dfy | `openjdk/mmtkRootsClosure.hpp` |
| `Api` | api.dfy | `mmtk/src/api.rs` |
| `GcWork` | gc_work.dfy | `mmtk/src/gc_work.rs` |
| `Mutator` | mutator.dfy | `openjdk/mmtkMutator.cpp`, `openjdk/mmtkMutator.inline.hpp` |
| `FieldBarrier` | field_barrier.dfy | `openjdk/barriers/mmtkFieldBarrier.cpp` |
| `Upcalls` | upcalls.dfy | `openjdk/mmtkUpcalls.cpp` |
| `BuildInfo` | build_info.dfy | `mmtk/src/build_info.rs` |

A Rust `panic!`, `unimplemented!()`, `unreachable!()`, failed `assert!`,
`unwrap()` on `None` or a C++ `guarantee` failure is the `Panic` case of
`Result`.

## Model

| member | source | states |
|---|---|---|
| ReferenceGlue.Heap.constructor | mmtk/src/reference_glue.rs:17-46 | the reference fields start as the given map |
| ReferenceGlue.Heap.SetNextReference | mmtk/src/reference_glue.rs:40-46 | writes only the `discovered` field of `o`; every other field and object is unchanged |
| ReferenceGlue.Heap.SetReferent | mmtk/src/reference_glue.rs:17-22 | writes only the `referent` field of `o` |
| ReferenceGlue.Heap.CompareExchangeDiscovered | mmtk/src/reference_glue.rs:97-105 | succeeds iff `discovered` was null, and only then sets it; on failure the heap is unchanged |
| ReferenceGlue.ListShapeFrame | mmtk/src/reference_glue.rs:77-111 | an object whose `discovered` is null is on no list, and writing it keeps every list well formed (the invariant `add` relies on) |
| ReferenceGlue.PacketsStep | mmtk/src/reference_glue.rs:183-197 | one more list adds exactly one packet (index and head) when its head is non-null, and none when it is null; earlier packets are kept |
| ReferenceGlue.PacketsSound | mmtk/src/reference_glue.rs:183-197 | every packet carries the kind, an index below the bound and that list's actual head |
| ReferenceGlue.PacketsOrdered | mmtk/src/reference_glue.rs:183-197 | packets come in strictly increasing list index |
| ReferenceGlue.PacketsComplete | mmtk/src/reference_glue.rs:183-197 | every non-empty list has a packet |
| ReferenceGlue.PacketsEmptyIff | mmtk/src/reference_glue.rs:188-190 | no packet is built iff every list is empty |
| ReferenceGlue.PacketsForSpec | mmtk/src/reference_glue.rs:183-197 | one packet per non-empty list, in index order, carrying its index and head, and none for empty lists |
| ReferenceGlue.ClearedShaped | mmtk/src/reference_glue.rs:185-187 | nulling all heads of one kind keeps every list well formed |
| ReferenceGlue.AddShaped | mmtk/src/reference_glue.rs:91-108 | pushing an undiscovered reference (link to the old head or to itself) keeps every list well formed and sized |
| ReferenceGlue.TakeHeads | mmtk/src/reference_glue.rs:183-197 | the packets are `PacketsFor` of the old heads; the heads are nulled iff `clear` |
| ReferenceGlue.DiscoveredLists.constructor | mmtk/src/reference_glue.rs:125-146 | one empty list per kind and worker, with the gate open (line 144) |
| ReferenceGlue.DiscoveredLists.EnableDiscover | mmtk/src/reference_glue.rs:148-150 | opens the gate and leaves every list unchanged |
| ReferenceGlue.DiscoveredLists.GetByRtAndIndex | mmtk/src/reference_glue.rs:160-168 | on a well-formed registry: Ok iff the kind has lists and the index is in range, and then it is that list; otherwise it panics (`unimplemented!`) |
| ReferenceGlue.DiscoveredLists.Get | mmtk/src/reference_glue.rs:170-173 | panics without a worker ordinal; otherwise it is `GetByRtAndIndex` at that ordinal |
| ReferenceGlue.DiscoveredLists.Add | mmtk/src/reference_glue.rs:77-111 | on an empty list the reference links to itself; otherwise it links to the old head. Either way it becomes the head. If `discovered` was already set, nothing changes (idempotent insert). Afterwards `discovered` is non-null, and all lists stay well formed |
| ReferenceGlue.DiscoveredLists.ProcessLists | mmtk/src/reference_glue.rs:175-201 | the packets are one per non-empty list of that kind; its heads are nulled iff `clear`, and other kinds and the gate are unchanged |
| ReferenceGlue.DiscoveredLists.ProcessSoftWeakFinalRefs | mmtk/src/reference_glue.rs:205-217 | closes the gate. Returns the soft and weak packets (unless reference types are off) then the final ones (unless finalizers are off). Soft and weak heads are nulled and their node lists emptied; final heads and nodes are kept |
| ReferenceGlue.DiscoveredLists.ResurrectFinalRefs | mmtk/src/reference_glue.rs:219-241 | panics when finalizers are off. Otherwise it returns one Resurrect packet per non-empty final list, nulls every final head and empties the final node lists. On the panic path the lists and nodes are unchanged; the gate is always unchanged |
| ReferenceGlue.DiscoveredLists.ProcessPhantomRefs | mmtk/src/reference_glue.rs:243-249 | panics when reference types are off. Otherwise it returns the phantom packets, nulls the phantom heads and empties their node lists. On the panic path the lists and nodes are unchanged; the gate is always unchanged |
| ReferenceGlue.WalkStep | mmtk/src/reference_glue.rs:397-431 | one step of the walk: the node is enqueued iff the visitor says so. It is then linked to the previously enqueued node (null if it is the first), and its referent is the visitor's |
| ReferenceGlue.WalkedFrame | mmtk/src/reference_glue.rs:397-431 | the walk writes only the visited nodes |
| ReferenceGlue.EnqueuedWithin | mmtk/src/reference_glue.rs:414-424 | only visited nodes are enqueued |
| ReferenceGlue.EnqueuedSpec | mmtk/src/reference_glue.rs:414-424 | a node is enqueued iff its visit returns Enqueue, each node at most once; none is enqueued iff no visit returns Enqueue |
| ReferenceGlue.WalkedSlots | mmtk/src/reference_glue.rs:406-424 | every visited node gets the visitor's referent, and a node that is not enqueued ends with a null `discovered` |
| ReferenceGlue.WalkedChain | mmtk/src/reference_glue.rs:414-424 | the first enqueued node (the tail) has a null `discovered`, and each later one links to the one enqueued before it |
| ReferenceGlue.ClearForwardedNext | mmtk/src/reference_glue.rs:408-411 | nulls the `discovered` field of the forwarded copy, if there is one, and changes nothing else |
| ReferenceGlue.VisitNode | mmtk/src/reference_glue.rs:408-424 | the visitor sees the node with its link already null. The node gets the visitor's referent, and it links to the new head only when enqueued after one |
| ReferenceGlue.IterateList | mmtk/src/reference_glue.rs:376-438 | visits every node once, in link order, each with a null link. The heap becomes `Walked`. Returns None iff nothing was enqueued, otherwise `(last enqueued, first enqueued)` |
| ReferenceGlue.ClassifiedOutcome | mmtk/src/reference_glue.rs:269-326 | the commented-out classifier (dead code). A null referent is removed. A reachable referent, or a soft one outside an emergency, is kept and traced. Otherwise the node is enqueued with its referent cleared, except for Final |
| ReferenceGlue.ResurrectOutcome | mmtk/src/reference_glue.rs:341-367 | the commented-out resurrect visitor (dead code) enqueues every node and traces every referent |
| ReferenceGlue.ResurrectEnqueuesAll | mmtk/src/reference_glue.rs:341-367 | that visitor enqueues exactly the list, in order |
| ReferenceGlue.ListShapeWalks | mmtk/src/reference_glue.rs:397-431 | a list in the shape `add` builds (lines 70-111) can be walked by `iterate_list` when nothing moved |
| ObjectScanning.EdgeRecorder.constructor | mmtk/src/object_scanning.rs:109-113 | the visitor starts with no edges and the given flags |
| ObjectScanning.EdgeRecorder.VisitEdge | mmtk/src/object_scanning.rs:18-24 | appends exactly the visited edge |
| ObjectScanning.SlotsSpec | mmtk/src/object_scanning.rs:18-24 | `count` slots at `start + i * 8`, in increasing order |
| ObjectScanning.MapsEdgesLength | mmtk/src/object_scanning.rs:29-37 | the oop maps report one slot per described field |
| ObjectScanning.MapsEdgesMembers | mmtk/src/object_scanning.rs:29-37 | a slot is reported iff it is field `i` of some oop map `j` |
| ObjectScanning.PlainEdgesCases | mmtk/src/object_scanning.rs:197-236 | TypeArray and unrecognised klass ids report no edge; an object array without following CLDs reports exactly its elements |
| ObjectScanning.ShouldDiscoverRefs | mmtk/src/object_scanning.rs:134-148 | false if discovery is disabled, if the kind is Final and `no_finalizer` is set, or if the kind is non-Final and `no_reference_types` is set; true otherwise |
| ObjectScanning.OtherDiscoveredAsWeak | mmtk/src/object_scanning.rs:140-146 | kind Other is discovered exactly when Weak is |
| ObjectScanning.ListKind | mmtk/src/object_scanning.rs:120-121 | corrected list choice: every kind but None maps to a kind that has lists, and the four list kinds map to themselves |
| ObjectScanning.DiscoveredKindsAreProcessed | mmtk/src/object_scanning.rs:120-124 | a discovered reference lands in a list that the processing phase for its option will read (`process_*_refs` in reference_glue.rs) |
| ObjectScanning.OtherKindPanicsAsWritten | mmtk/src/object_scanning.rs:120-121 | as written, a Reference of kind Other passes `should_discover_refs`, but looking up its list panics (`get_by_rt_and_index` in reference_glue.rs) |
| ObjectScanning.ListKindFindsList | mmtk/src/object_scanning.rs:120-124 | with the corrected choice, every discovered kind finds a list on a worker thread |
| ObjectScanning.DiscoverReference | mmtk/src/object_scanning.rs:157-179 | returns false with nothing changed when the gate is closed, the referent is null or reachable, or the plan declines. Otherwise it panics iff there is no list. Failing that it returns true and `is_discovered` holds. The heap, lists and nodes are then exactly what `add` leaves (`AddEffect`): an unlinked reference links to the old head, or to itself on an empty list, and becomes the head of the worker's list; no other object changes. A reference already linked changes nothing |
| ObjectScanning.VisitSlots | mmtk/src/object_scanning.rs:18-24 | appends exactly `Slots(start, n)` |
| ObjectScanning.VisitCld | mmtk/src/object_scanning.rs:238-250 | reports the CLD's slots iff the visitor follows CLDs |
| ObjectScanning.InstanceOopIterate | mmtk/src/object_scanning.rs:29-37 | the klass's CLD, then every oop map's slots |
| ObjectScanning.MirrorOopIterate | mmtk/src/object_scanning.rs:42-67 | the instance slots, the mirrored klass's CLD, then the static fields |
| ObjectScanning.LoaderOopIterate | mmtk/src/object_scanning.rs:72-83 | the instance slots, then the loader's CLD |
| ObjectScanning.ArrayOopIterate | mmtk/src/object_scanning.rs:88-96 | the klass's CLD, then every element slot |
| ObjectScanning.ProcessRefAsStrong | mmtk/src/object_scanning.rs:150-155 | the referent slot, then the discovered slot |
| ObjectScanning.RefStepSpec | mmtk/src/object_scanning.rs:109-129 | the two reference slots are traced as strong iff discovery is not attempted or `discover_reference` returned false. Kind None panics iff discovery is attempted. A closed gate never discovers, and a visitor that does not discover always traces |
| ObjectScanning.DiscoverOrStrong | mmtk/src/object_scanning.rs:114-128 | panics iff the step is Aborted. Traces the strong edges iff the step is TreatStrong. When the step is Discovered, adds no edge, leaves `is_discovered` holding, and the new heap, lists and nodes are `AddEffect` on the worker's list of that kind. Otherwise nothing in the heap, lists or nodes changes; the gate never changes |
| ObjectScanning.ScanReference | mmtk/src/object_scanning.rs:109-129 | the instance slots, then the outcome of `DiscoverOrStrong`, with its full heap, lists and nodes effect |
| ObjectScanning.InstanceRefOopIterateAsWritten | mmtk/src/object_scanning.rs:109-129 | as written, a discoverable Reference of kind Other panics |
| ObjectScanning.InstanceRefOopIterate | mmtk/src/object_scanning.rs:109-129 | corrected: never panics on a worker thread for a kind other than None; otherwise as `ScanReference` with the corrected list kind |
| ObjectScanning.OopIterate | mmtk/src/object_scanning.rs:197-236 | non-reference klasses report exactly `PlainEdges` and touch no list. InstanceRef is `InstanceRefOopIterate`: the same edges, panic condition, `AddEffect` on discovery, unchanged heap, lists and nodes otherwise, and an unchanged gate |
| Collection.Globals.constructor | mmtk/src/collection.rs:109-111 | marking starts inactive (0), with no upcall made |
| Collection.ResumeMutators | mmtk/src/collection.rs:34-41 | reopens the discovery gate, then makes the resume upcall; the lists are unchanged |
| Collection.MarkingFlag | mmtk/src/collection.rs:109-111 | 1 iff active, 0 iff not |
| Collection.SetConcurrentMarkingState | mmtk/src/collection.rs:109-111 | stores 1 iff `active`, otherwise 0 |
| Collection.ScheduleFinalization | mmtk/src/collection.rs:71-73 | always panics (`unreachable!`) |
| Collection.ProcessWeakRefs | mmtk/src/collection.rs:75-79 | delegates to `process_soft_weak_final_refs`: the gate is closed, and the packets are the soft, weak and final ones. Unless reference types are off, the soft and weak lists are cleared and their node lists emptied; final and phantom lists are kept |
| Collection.ProcessFinalRefs | mmtk/src/collection.rs:81-85 | delegates to `resurrect_final_refs`: panics with lists and nodes unchanged when finalizers are off, otherwise returns the Resurrect packets and clears the final lists and nodes; the gate is unchanged |
| Collection.ProcessPhantomRefs | mmtk/src/collection.rs:87-91 | delegates to `process_phantom_refs`: panics with lists and nodes unchanged when reference types are off, otherwise returns the phantom packets and clears the phantom lists and nodes; the gate is unchanged |
| Edges.CompressNull | mmtk/src/lib.rs:211-225 | `compress(null) == 0` and `decompress(0) == null` |
| Edges.DecompressCompress | mmtk/src/lib.rs:211-225 | for a non-null `o >= BASE` with `o - BASE` a multiple of `1 << SHIFT` that fits in 32 bits once shifted: `compress(o) != 0` and `decompress(compress(o)) == o` |
| Edges.CompressDecompress | mmtk/src/lib.rs:211-225 | `compress(decompress(v)) == v` when `BASE + (v << SHIFT)` does not wrap |
| Edges.DecompressNoWrap | mmtk/src/lib.rs:219-225 | without wrap-around, `decompress(v) == BASE + (v << SHIFT)` |
| Edges.CompressAbove | mmtk/src/lib.rs:211-217 | above BASE, `compress(o)` is `(o - BASE) >> SHIFT` truncated to 32 bits |
| Edges.EncodingCoversHeap | mmtk/src/lib.rs:227-245 | every suitably aligned heap object below the 32 GiB span is encodable with the chosen BASE and SHIFT |
| Edges.CompressedOops.constructor | mmtk/src/lib.rs:181-209 | BASE 0, SHIFT 0, no compressed oops, and 8-byte fields |
| Edges.CompressedOops.InitCompressedOopConstants | mmtk/src/lib.rs:185-191 | turns compressed oops on with 4-byte fields (log 2) |
| Edges.CompressedOops.InitializeCompressedOops | mmtk/src/lib.rs:227-245 | heap end ≤ 4 GiB gives (0, 0); ≤ 32 GiB gives (0, 3); otherwise (heap start − 4096, 3) |
| Edges.IsCompressed | mmtk/src/lib.rs:258-260 | holds iff bit 63 is clear |
| Edges.UntaggedAddress | mmtk/src/lib.rs:262-264 | clears bit 63 and keeps the other 63 bits |
| Edges.Tagged | mmtk/src/lib.rs:256-264 | setting bit 63 gives an uncompressed edge whose untagged address is the original |
| Edges.UntagCompressed | mmtk/src/lib.rs:256-264 | untagging a compressed edge is the identity |
| Edges.Memory.constructor | mmtk/src/lib.rs:270-296 | memory starts as the given cells |
| Edges.StoreLoad | mmtk/src/lib.rs:270-296 | `store(o)` then `load()` on the same edge gives `o` when `o` is representable, for tagged and untagged edges and with or without compression |
| Edges.Store | mmtk/src/lib.rs:284-296 | writes only the edge's slot, with the compressed or full value; a representable object loads back |
| Edges.Len | mmtk/src/lib.rs:426-433 | `len() == bytes() >> log_bytes_in_field()`, stated as `len * 2^k <= bytes < (len + 1) * 2^k` |
| Edges.RangeEdgesSpec | mmtk/src/lib.rs:358-366 | the edges of a range are `cursor + i * width`, all below `limit`; there are none iff `cursor >= limit`, and they are exactly the number that fit |
| Edges.IterEdgesLen | mmtk/src/lib.rs:402-433 | for a field-aligned range, `iter_edges` yields exactly `len()` edges |
| Edges.AddressRangeIterator.constructor | mmtk/src/lib.rs:402-409 | the iterator starts at the range start with the field width |
| Edges.AddressRangeIterator.Next | mmtk/src/lib.rs:358-366 | None with nothing changed once `cursor >= limit` (then None forever); otherwise yields the cursor and advances it by `width` |
| Edges.ChunksSpec | mmtk/src/lib.rs:379-394 | the chunks are contiguous, non-overlapping and non-empty, start at `start`, are each `step` bytes except the last (clipped to `limit`), and there are none iff the range is empty |
| Edges.ChunkIterator.constructor | mmtk/src/lib.rs:411-418 | `step == chunk_size << log_bytes_in_field()` |
| Edges.ChunkIterator.Next | mmtk/src/lib.rs:379-394 | None once `cursor >= limit`; otherwise yields `[cursor, min(cursor + step, limit))` and moves the cursor to its end |
| RootsClosure.SlotEntry | openjdk/mmtkRootsClosure.hpp:21-25 | with compressed oops, a full-width slot is recorded with bit 63 set, and a slot whose bit 63 was already set fails the guarantee; narrow slots and uncompressed mode record the slot unchanged |
| RootsClosure.SlotEntryIsEdge | openjdk/mmtkRootsClosure.hpp:21-25 | the recorded entry, read as an `OpenJDKEdge`, is an edge whose slot is `p`, and it is compressed iff the slot is narrow |
| RootsClosure.RootEntries | openjdk/mmtkRootsClosure.hpp:17-30 | null slots are never recorded; the run fails iff a non-null full-width slot fails the guarantee |
| RootsClosure.TracedEntries | openjdk/mmtkRootsClosure.hpp:127-133 | with no null filter, every slot is traced, with the same bit-63 tagging |
| RootsClosure.TracedUncompressed | openjdk/mmtkRootsClosure.hpp:127-133 | without compressed oops, exactly the slots are traced |
| RootsClosure.CollectsTheObject | openjdk/mmtkRootsClosure.hpp:66-69 | `MMTkCollectRootObjects` records the decoded object that was stored in the slot, not the slot address |
| RootsClosure.RootBuffer.constructor | openjdk/mmtkRootsClosure.hpp:42-46 | starts with an empty buffer of the given capacity at cursor 0 |
| RootsClosure.RootBuffer.Flush | openjdk/mmtkRootsClosure.hpp:32-39 | a no-op at cursor 0; otherwise hands over exactly the `_cursor` entries, installs a new buffer and resets the cursor to 0 |
| RootsClosure.RootBuffer.Push | openjdk/mmtkRootsClosure.hpp:25-28 | stores the entry; the buffer is flushed as soon as it is full, so `_cursor < _cap` afterwards |
| RootsClosure.RootBuffer.Close | openjdk/mmtkRootsClosure.hpp:48-53 | flushes the remaining entries and releases the buffer: everything pushed has been handed over, in order |
| RootsClosure.RootsClosure2.constructor | openjdk/mmtkRootsClosure.hpp:42-46 | an empty buffer |
| RootsClosure.RootsClosure2.DoOop | openjdk/mmtkRootsClosure.hpp:17-30 | records `RootEntries` of the slot, or fails the guarantee |
| RootsClosure.RootsClosure2.OopsDo | openjdk/mmtkRootsClosure.hpp:17-56 | a run over a CLD's handles records `RootEntries` of them, and fails iff one fails |
| RootsClosure.CollectRootObjects.constructor | openjdk/mmtkRootsClosure.hpp:87-91 | an empty buffer |
| RootsClosure.CollectRootObjects.DoOop | openjdk/mmtkRootsClosure.hpp:66-74 | a null slot records nothing; otherwise records the decoded object |
| RootsClosure.Cld.constructor | openjdk/mmtkRootsClosure.hpp:111-118 | a CLD with its modified flag and handles, not yet claimed |
| RootsClosure.ScansCldCases | openjdk/mmtkRootsClosure.hpp:111-118 | MODIFIED_ONLY scans iff modified; otherwise it scans iff modified or not WEAK |
| RootsClosure.ScanCldClosure.constructor | openjdk/mmtkRootsClosure.hpp:110 | keeps the flags and the oop closure |
| RootsClosure.ScanCldClosure.DoCld | openjdk/mmtkRootsClosure.hpp:111-118 | when it scans, it records the CLD's roots and clears its modified flag; otherwise nothing changes |
| RootsClosure.RootEntriesPanicSticks | openjdk/mmtkRootsClosure.hpp:21-22 | once a guarantee fails on a prefix of the slots, the whole run fails |
| RootsClosure.ScanObjectClosure.constructor | openjdk/mmtkRootsClosure.hpp:136 | keeps `follow_clds` and `claim_clds`, and starts with nothing traced |
| RootsClosure.ScanObjectClosure.DoOop | openjdk/mmtkRootsClosure.hpp:127-133 | traces every slot (no null filter) with the bit-63 tag, or fails the guarantee |
| RootsClosure.ScanObjectClosure.DoCld | openjdk/mmtkRootsClosure.hpp:145-153 | does nothing unless following CLDs, and skips a CLD that is already claimed when claiming; otherwise claims it and traces its handles |
| Api.Initial | mmtk/src/lib.rs:510-514 | an empty map with size 0 is exact |
| Api.WithOop | mmtk/src/api.rs:479-481 | `mmtk_add_nmethod_oop` appends the address to the thread buffer; the map and counter are unchanged |
| Api.RegisterAsWritten | mmtk/src/api.rs:487-505 | as written: an empty buffer changes nothing. Otherwise the buffer is drained, `nm` maps to its slots (overwriting) and the counter grows by their number |
| Api.RegisterAsWrittenOverCounts | mmtk/src/api.rs:487-505 | as written, the counter never falls below the true total |
| Api.RegisterAsWrittenDrifts | mmtk/src/api.rs:498-504 | re-registering an nmethod leaves a counter of 2 over a map that holds 1 slot |
| Api.Registered | mmtk/src/api.rs:487-505 | corrected: the same map update, with the counter kept exact |
| Api.Unregistered | mmtk/src/api.rs:509-518 | subtracts exactly the removed entry's length; an unknown `nm` changes nothing; exactness is kept |
| Api.CodeCacheRoots.constructor | mmtk/src/lib.rs:510-514 | starts at `Initial` |
| Api.CodeCacheRoots.AddNMethodOop | mmtk/src/api.rs:479-481 | the state becomes `WithOop` |
| Api.CodeCacheRoots.RegisterNMethod | mmtk/src/api.rs:487-505 | the state becomes `Registered` (the corrected counter) |
| Api.CodeCacheRoots.UnregisterNMethod | mmtk/src/api.rs:509-518 | the state becomes `Unregistered` |
| Api.FieldBytes | mmtk/src/api.rs:393-398 | 4 bytes with compressed oops, 8 otherwise |
| Api.CopyRangeCovers | mmtk/src/api.rs:387-409 | `[src, src + bytes)` holds exactly `count` fields, at `src + i * width` |
| Api.ArrayCopyRangesCover | mmtk/src/api.rs:387-435 | both the source and the destination range hold exactly `count` fields, at the expected addresses |
| Api.IsLive | mmtk/src/api.rs:454-461 | 0 for null; otherwise 1 iff mmtk-core says the object is live |
| Api.GetForwardedRef | mmtk/src/api.rs:465-470 | null for null; the object itself when it is not forwarded; otherwise the forwarded copy |
| Api.GetForwardedRefSettles | mmtk/src/api.rs:465-470 | when no copy is itself forwarded, applying it twice equals applying it once |
| GcWork.RootsCounter.constructor | mmtk/src/gc_work.rs:16-18 | the counter starts at 0 |
| GcWork.RootsCounter.RecordRoots | mmtk/src/gc_work.rs:20-25 | adds `len` to the counter (modulo 2^64) |
| GcWork.RootsCounter.ReportRoots | mmtk/src/gc_work.rs:27-33 | reports the counter under `name` and resets it to 0 |
| GcWork.ReportName | mmtk/src/gc_work.rs:56-59 | strips the 4-character prefix and the 5-character suffix; a name shorter than 9 characters panics (a slice out of range) |
| GcWork.ReportNameStrips | mmtk/src/gc_work.rs:56-59 | `Scan<X>Roots` reports as `X` |
| GcWork.ScanRootsNames | mmtk/src/gc_work.rs:65-72 | the eight root-scanning work items report as Universe, JNIHandles, ObjectSynchronizer, Management, JvmtiExport, AOTLoader, SystemDictionary and VMThread |
| GcWork.EdgesOf | mmtk/src/gc_work.rs:249-252 | the edges of each packet, in order |
| GcWork.PushRoots | mmtk/src/gc_work.rs:243-255 | pushing roots one by one, and handing over a full batch as soon as it reaches `BUFFER_SIZE`, leaves the batches plus the buffer equal to the old ones plus the roots |
| GcWork.PushAll | mmtk/src/gc_work.rs:240-257 | the same over every entry of a map, in iteration order |
| GcWork.MovedSpec | mmtk/src/gc_work.rs:273 | inserting the nursery entries one by one gives the mature map overridden by those entries |
| GcWork.MovedAll | mmtk/src/gc_work.rs:259-274 | after all entries, mature is `old mature + nursery` |
| GcWork.PushAndMove | mmtk/src/gc_work.rs:259-274 | the nursery loop: pushes every nursery root and moves every entry to mature |
| GcWork.YoungPackets | mmtk/src/gc_work.rs:249-269 | one packet per batch, all Young, carrying that batch |
| GcWork.FinalPackets | mmtk/src/gc_work.rs:275-281 | the final non-empty batch is added; every packet is Young and non-empty, and all but the last hold exactly `BUFFER_SIZE` edges |
| GcWork.CodeCacheRootMaps.constructor | mmtk/src/gc_work.rs:236-237 | the two maps |
| GcWork.CodeCacheRootMaps.ScanCodeCacheRoots | mmtk/src/gc_work.rs:230-285 | the packets' edges are the mature roots (only when scanning all roots) followed by the nursery roots, each once, all Young. No packet is empty, and all but the last are full. Afterwards the nursery is empty and mature holds every former nursery entry |
| Mutator.Bump | openjdk/mmtkMutator.cpp:38-43 | fits iff `cursor + bytes` (64-bit) ≤ `limit`; then it returns the old cursor, and the new cursor never passes the limit and advances by exactly `bytes` |
| Mutator.BumpsAreDisjoint | openjdk/mmtkMutator.cpp:38-43 | two consecutive bumps hand out adjacent, non-overlapping cells |
| Mutator.SlowAllocator | openjdk/mmtkMutator.cpp:32-33 | `bytes >= max_non_los_default_alloc_bytes` forces `AllocatorLos` |
| Mutator.Decide | openjdk/mmtkMutator.cpp:28-55 | LOS-sized requests go to the slow path with `AllocatorLos`. The fast path is taken iff the request is small, the selector is immix, fast allocation is allowed and the bump fits; it then returns the old cursor within the limit |
| Mutator.DecideInline | openjdk/mmtkMutator.inline.hpp:11-45 | the same LOS threshold and main bump. A large-cursor bump happens iff the main region is full, `bytes > 256` and the large bump fits, staying within `large_limit` |
| Mutator.InlineAgrees | openjdk/mmtkMutator.inline.hpp:11-45 | the inline variant decides like the out-of-line one (mmtkMutator.cpp) with fast allocation enabled whenever the large region is not used |
| Mutator.SlowCalls | openjdk/mmtkMutator.cpp:48-53 | the slow path calls `alloc`, then `post_alloc` iff the result is non-null and the allocator is not Default |
| Mutator.PostAllocOnlyForObjects | openjdk/mmtkMutator.cpp:48-53 | `post_alloc` is only ever called for a non-null object and a non-Default allocator, and for LOS-sized requests with `AllocatorLos` |
| Mutator.ImmixAllocator.constructor | openjdk/mmtkMutator.inline.hpp:20-28 | the two bump regions |
| Mutator.MutatorContext.constructor | openjdk/mmtkMutator.cpp:37 | the immix allocators, with no call made |
| Mutator.MutatorContext.Alloc | openjdk/mmtkMutator.cpp:28-55 | follows `Decide`: the fast path advances the selected cursor and returns the old one; otherwise it returns the slow path's result after the calls of `SlowCalls` |
| Mutator.MutatorContext.AllocInline | openjdk/mmtkMutator.inline.hpp:11-45 | follows `DecideInline`: it bumps the main or the large cursor, or takes the slow path |
| FieldBarrier.SideMetadataBaseAddress | openjdk/barriers/mmtkFieldBarrier.cpp:8-10 | the compressed constant iff `UseCompressedOops` |
| FieldBarrier.ArithmeticShiftRight | openjdk/barriers/mmtkFieldBarrier.cpp:22-23 | `intptr_t >>` on a non-negative address is division |
| FieldBarrier.BitIndex | openjdk/barriers/mmtkFieldBarrier.cpp:23 | the bit index is in 0..7 |
| FieldBarrier.SplitGranule | openjdk/barriers/mmtkFieldBarrier.cpp:22-23 | the granule splits into a metadata byte and a bit |
| FieldBarrier.ByteAndBitSpellGranule | openjdk/barriers/mmtkFieldBarrier.cpp:22-23 | `(addr >> 6) * 8 + ((addr >> 3) & 7) == addr >> 3`, and likewise for shifts 5 and 2 |
| FieldBarrier.LogBitUnique | openjdk/barriers/mmtkFieldBarrier.cpp:21-25 | two addresses share the (metadata byte, bit) pair iff they are in the same granule |
| FieldBarrier.RuntimeWritePreSlow | openjdk/barriers/mmtkFieldBarrier.cpp:19-32 | the slow path is taken iff the granule's log bit is 1 |
| FieldBarrier.SignExtendByte | openjdk/barriers/mmtkFieldBarrier.cpp:248-249 | a `T_BYTE` load keeps the byte's eight bits |
| FieldBarrier.SignExtendKeepsBits | openjdk/barriers/mmtkFieldBarrier.cpp:256-258 | shifting the sign-extended byte right by less than 8 leaves the same low bit as the raw byte |
| FieldBarrier.LowWordBitIndex4 | openjdk/barriers/mmtkFieldBarrier.cpp:283-284 | truncating to 32 bits before or after `>> 2` leaves the low three bits alone |
| FieldBarrier.LowWordBitIndex8 | openjdk/barriers/mmtkFieldBarrier.cpp:283-284 | the same for `>> 3` |
| FieldBarrier.CompiledByteAddress | openjdk/barriers/mmtkFieldBarrier.cpp:243-246 | the unsigned shift used by C1 (and C2 at line 281) addresses the same metadata byte |
| FieldBarrier.CompiledBitIndex | openjdk/barriers/mmtkFieldBarrier.cpp:252-254 | the C1 bit index, and the C2 one (lines 283-284), equal the runtime one |
| FieldBarrier.WritePrePathsAgree | openjdk/barriers/mmtkFieldBarrier.cpp:239-287 | the C1 path (`== 1`, lines 239-260) and the C2 path (`!= 0`, lines 281-287) take the slow path exactly when the runtime path (lines 21-28) does |
| FieldBarrier.LoadReferenceSlow | openjdk/barriers/mmtkFieldBarrier.cpp:13-16 | the slow call happens iff `CONCURRENT_MARKING_ACTIVE == 1` and the value is non-null |
| FieldBarrier.AsmLoadAgrees | openjdk/barriers/mmtkFieldBarrier.cpp:36-64 | the assembler path tests the same condition for weak or phantom oop loads, and never calls otherwise |
| Upcalls.Forwarded | openjdk/mmtkUpcalls.cpp:73 | `status & (3 << 56) != 0`; never for a header below 2^56 |
| Upcalls.ForwardingPointer | openjdk/mmtkUpcalls.cpp:93 | `status << 8 >> 8` is the low 56 bits of the header |
| Upcalls.ShiftDropsTopByte | openjdk/mmtkUpcalls.cpp:93 | the 64-bit shift left and right by 8 keeps exactly the low 56 bits |
| Upcalls.SemiSpaces | openjdk/mmtkUpcalls.cpp:50-63 | each semispace is 0x20000000000 bytes; the two are disjoint, lie below the LOS, and are SS0 and SS1 in some order |
| Upcalls.SSIsAliveClosure.constructor | openjdk/mmtkUpcalls.cpp:58-63 | the spaces picked by `high` |
| Upcalls.SSIsAliveClosure.DoObjectB | openjdk/mmtkUpcalls.cpp:64-82 | null is dead. Without `INLINE_IS_ALIVE` it asks `mmtk_is_live`. With it: to-space is alive; from-space is alive iff header bits 56-57 are set; the LOS asks `mmtk_is_live`; anything else is dead |
| Upcalls.ForwardedSlot | openjdk/mmtkUpcalls.cpp:87-96 | null slots and unforwarded objects are left alone; a forwarded object is replaced by the low 56 bits of its header |
| Upcalls.ForwardedSlotIsForwardedRef | openjdk/mmtkUpcalls.cpp:88-95 | the inline decoding agrees with the commented-out `mmtk_get_forwarded_ref` call (api.rs) |
| Upcalls.ForwardClosure.DoOop | openjdk/mmtkUpcalls.cpp:87-96 | writes only the slot, with `ForwardedSlot` |
| Upcalls.MutatorIterator.constructor | openjdk/mmtkUpcalls.cpp:214-215 | the start flag begins set |
| Upcalls.MutatorIterator.GetNextMutator | openjdk/mmtkUpcalls.cpp:217-228 | a set start flag takes a fresh snapshot of the threads. Each call returns the next thread's (non-null) mutator, or returns NULL at the end and re-arms the flag |
| Upcalls.MutatorIterator.ResetMutatorIterator | openjdk/mmtkUpcalls.cpp:230-232 | re-arms the start flag |
| BuildInfo.BindingVersionString | mmtk/src/build_info.rs:16-20 | starts with `MMTk OpenJDK <ver>`, and panics iff the hash is shorter than 7 characters (`split_at(7)`) |
| BuildInfo.DirtySuffixParses | mmtk/src/build_info.rs:17-18 | the ` (<7 chars><suffix>)` suffix, with `-dirty`, nothing or `-?`, reads back to the hash and the dirty flag |
| BuildInfo.VersionStringRoundTrip | mmtk/src/build_info.rs:16-20 | the version string parses back to the first 7 hash characters and the dirty flag, or to "no hash" when there is none |
| BuildInfo.VersionStringInjective | mmtk/src/build_info.rs:16-20 | equal version strings (both with a hash) have equal 7-character hashes and dirty flags |
| BuildInfo.FullVersionString | mmtk/src/build_info.rs:22 | the binding string, then `, using `, then the core build info |

## Left out

- I/O: the `eprintln!` of `report_roots` and of the code-cache count, the
  `roots_breakdown` counter `c`, and the `object_size_distribution` dump in
  `resume_mutators`. `ReportRoots` records the report as a value.
- Concurrency: the compare-and-swap in `add`, the `AtomicBool` gate, the
  `Relaxed` loads and stores of `COUNT` and `CODE_CACHE_ROOTS_SIZE`, and
  the locks around the code-cache maps are sequential steps.
  `record_slot_for_validation` (an lxr debugging hook) is not modelled.
- Oracles:
  - Forwarding, reachability and tracing are function parameters.
  - So are the plan's `should_process_reference`, mmtk-core's `alloc`,
    `post_alloc` and `is_live`, and `current_worker_ordinal`.
  - The slow path's result is an input of `Mutator.MutatorContext.Alloc`;
    `SlowCalls` records the calls made.
  - The `high` flag of the semispace closure and the
    `MATURE_CODE_CACHE_ROOTS` / `NURSERY_CODE_CACHE_ROOTS` maps are not
    defined in the visible sources, so they are parameters or fields.
  - The `INLINE_IS_ALIVE` macro is the `inlineIsAlive` parameter.
  - `current_gc_should_scan_all_classloader_strong_roots() ||
    current_gc_should_perform_class_unloading()` is the `scanAllRoots`
    parameter.
- Dead code. `process_lists` and `resurrect_final_refs` end in
  `unimplemented!()`: the model returns the packets that the commented-out
  `bulk_add` would schedule. The `do_work` bodies of
  `ProcessDiscoveredList` and `ResurrectFinalizables` are also
  `unimplemented!()`. Their commented-out intent is modelled as two
  visitors (`ClassifyReference`, `ResurrectReference`). The merge of the rebuilt
  list into a pending list (also commented out) is not modelled.
- Work-packet scheduling: `BUFFER_SIZE` is a parameter greater than 0. The
  packets are returned as values, and the buffer hand-off across the FFI
  (`report_edges_and_renew_buffer*`, `NewBuffer`, `release_buffer`) is a
  fresh array.
- `HashMap` iteration order: it is a parameter (`matureOrder`,
  `nurseryOrder`) that must list each key once.
- GcWork.RootsCounter.RecordRoots: the counter wraps at 2^64, which the
  source would overflow-check in a debug build.
- Api.CodeCacheRoots.RegisterNMethod: it keeps the counter exact; the
  source's counter as written is `Api.RegisterAsWritten`, under Findings.
  The counter is unbounded.
- FieldBarrier.ArithmeticShiftRight: it is exact only for addresses below
  2^63, which every user-space address is; the barrier lemmas assume that
  bound.
- ReferenceGlue.IterateList: proved only for visitors that satisfy
  `EnqueuesVisited` (a visitor that enqueues, enqueues the node it was
  handed), and a `Visitor` can rewrite only that node's referent. So
  `ClassifyReference` and `ResurrectReference` leave out the
  `trace.trace_object(reference)` with which the commented-out visitors
  start (mmtk/src/reference_glue.rs:280 and 344). This is sound for the
  nodes `iterate_list` hands over: its debug assertions
  (mmtk/src/reference_glue.rs:392-395) say the node is already
  unforwarded and reachable, so tracing it again yields the node itself.
- ReferenceGlue.DiscoveredLists.Add: the call to the plan's
  `discover_reference(reference, referent)` hook, which keeps both objects
  alive during SATB marking (mmtk/src/reference_glue.rs:82-85), is an
  effect of mmtk-core's plan and is not modelled.
- Mutator.Bump: the "advances by exactly `bytes`" part assumes
  `cursor + bytes` does not wrap; with a wrap the model, like the C++,
  still keeps the cursor within the limit.
- Upcalls.ForwardClosure: the `do_oop(narrowOop*)` overload is an empty
  body and is not modelled.
- Upcalls.MutatorIterator: `JavaThreadIteratorWithHandle` is a snapshot
  sequence of mutator addresses, taken when the iterator is recreated.
- Mutator allocator selection: the `Allocator` and `AllocatorSelector`
  types come from `mmtk.h`, which is not part of this model. Only the
  immix tag and the Default and LOS allocators are distinguished.
- Edges: compare-and-exchange on edges (`lib.rs:298` on) is not used by the
  modelled core and is not modelled.
- Object scanning:
  - the static-field loop of `InstanceMirrorKlass` and the array element
    loops are runs of consecutive slots;
  - `obj_array_data` and `is_obj_array` are fields of the scanned object;
  - `scan_object_fn` and the thread-local `CLOSURE` are not modelled.
- Build info: the `built` crate's constants are parameters (the package
  version, the hash and the dirty flag), and the core's build info string
  is an input.
- The VM companion thread and VM operations (cross-thread handshakes), JIT
  code emission other than the predicate it emits, `scanning.rs`, and the
  thin `extern "C"` wrappers of `api.rs` are outside the modelled core.

## Findings

| source | as written | input that shows it | evidently intended | confidence | as-written member | corrected member |
|---|---|---|---|---|---|---|
| mmtk/src/object_scanning.rs:120-121 | any reference kind other than None, including `Other`, is passed to `discover_reference`, whose `get` → `get_by_rt_and_index` has no list for `Other` and hits `unimplemented!()` (mmtk/src/reference_glue.rs:160-168) | a Reference of kind `Other` with a non-null unreachable referent, discovery enabled and no options set: `should_discover_refs` treats it as Weak and lets it through | discover `Other` into the Weak lists, as `should_discover_refs` already treats it | medium, not executed | ObjectScanning.OtherKindPanicsAsWritten | ObjectScanning.ListKindFindsList |
| mmtk/src/api.rs:498-504 | `mmtk_register_nmethod` adds `slots.len()` to `CODE_CACHE_ROOTS_SIZE` and then `insert`s, overwriting any earlier entry for `nm` without subtracting its length | register `nm` with one slot, then register `nm` again with one slot: the map holds 1 slot, the counter says 2 | subtract the replaced entry's length, so the counter equals the total number of slots in the map | medium, not executed | Api.RegisterAsWrittenDrifts | Api.Registered |

/** Scanning the reference slots of one object, and the discovery decision
    for java.lang.ref.Reference instances (mmtk/src/object_scanning.rs).

    An edge visitor is handed the address of every slot that may hold a
    reference.  The model records the addresses in order.  What the scanner
    reads of an object (its klass id, oop maps, class loader data, static
    fields, array elements, reference kind) is given as an `Oop` value; the
    class-loader-data walk `oops_do` is abstracted to the slot list it
    reports. */
module ObjectScanning {
  import opened Wrappers
  import opened ReferenceGlue

  type Address = nat

  /** 1 << LOG_BYTES_IN_ADDRESS on a 64-bit target: slots are 8 bytes apart,
      so `i << LOG_BYTES_IN_ADDRESS` is `i * BytesInAddress`. */
  const BytesInAddress: nat := 8

  /** `n` consecutive slots from `start`. */
  function Slots(start: Address, n: nat): seq<Address> {
    seq(n, i => start + i * BytesInAddress)
  }

  /** The edge visitor (EdgeVisitor): its two flags, and the slots visited so far. */
  class EdgeRecorder {
    var edges: seq<Address>
    const followClds: bool
    const discoverReferences: bool

    constructor (followClds: bool, discoverReferences: bool)
      ensures edges == [] && this.followClds == followClds && this.discoverReferences == discoverReferences
    {
      edges := [];
      this.followClds := followClds;
      this.discoverReferences := discoverReferences;
    }

    method VisitEdge(e: Address)
      modifies this
      ensures edges == old(edges) + [e]
    {
      edges := edges + [e];
    }
  }

  /** The klass ids `oop_iterate` dispatches on; `Unrecognised` is any other id. */
  datatype KlassId = Instance | InstanceClassLoader | InstanceMirror | ObjArray | TypeArray | InstanceRef
                   | Unrecognised(raw: int)

  /** A run of `count` reference fields at `offset` bytes into the object. */
  datatype OopMapBlock = OopMapBlock(offset: nat, count: nat)

  /** What the scanner reads of one object at `start`:
      - `klassCld`: the slots of the class loader data of the object's klass;
      - `oopMaps`: the klass's non-static oop maps;
      - `mirroredCld`: for a java.lang.Class mirror, null or the class loader
        data slots of the mirrored klass;
      - `staticFields`, `staticCount`: a mirror's static reference fields;
      - `loaderCld`: for a class loader, null or its class loader data slots;
      - `arrayData`, `arrayLength`: an object array's elements;
      - `referenceType`: for a Reference, the kind of its klass. */
  datatype Oop = Oop(
    start: Address,
    id: KlassId,
    klassCld: seq<Address>,
    oopMaps: seq<OopMapBlock>,
    mirroredCld: Option<seq<Address>>,
    staticFields: Address,
    staticCount: nat,
    loaderCld: Option<seq<Address>>,
    arrayData: Address,
    arrayLength: nat,
    referenceType: ReferenceType)

  /** VM facts the scanner consults: the options, the byte offsets of the
      `referent` and `discovered` fields of java.lang.ref.Reference, the
      reachability oracle, the plan's `should_process_reference`, and the
      ordinal of the calling worker (None off a collector thread). */
  datatype Env = Env(
    options: Options,
    referentOffset: nat,
    discoveredOffset: nat,
    reachable: ObjId -> bool,
    shouldProcess: (ObjId, ObjId) -> bool,
    ordinal: Option<nat>)

  // ---------------------------------------------------------------------
  // The slots each klass reports

  /** do_klass: the klass's class loader data, only when following CLDs. */
  function KlassEdges(obj: Oop, follow: bool): seq<Address> {
    if follow then obj.klassCld else []
  }

  /** The slots of the first `n` oop maps, map by map. */
  function MapsEdges(start: Address, maps: seq<OopMapBlock>, n: nat): seq<Address>
    requires n <= |maps|
  {
    if n == 0 then []
    else MapsEdges(start, maps, n - 1) + Slots(start + maps[n - 1].offset, maps[n - 1].count)
  }

  /** The number of fields the first `n` oop maps describe. */
  function FieldCount(maps: seq<OopMapBlock>, n: nat): nat
    requires n <= |maps|
  {
    if n == 0 then 0 else FieldCount(maps, n - 1) + maps[n - 1].count
  }

  /** InstanceKlass: the klass, then every non-static oop map. */
  function InstanceEdges(obj: Oop, follow: bool): seq<Address> {
    KlassEdges(obj, follow) + MapsEdges(obj.start, obj.oopMaps, |obj.oopMaps|)
  }

  /** InstanceMirrorKlass: the instance slots, the mirrored klass's class
      loader data when following CLDs and the klass is non-null, then the
      static fields. */
  function MirrorEdges(obj: Oop, follow: bool): seq<Address> {
    InstanceEdges(obj, follow)
    + (if follow && obj.mirroredCld.Some? then obj.mirroredCld.value else [])
    + Slots(obj.staticFields, obj.staticCount)
  }

  /** InstanceClassLoaderKlass: the instance slots, then the loader's class
      loader data when following CLDs and it is non-null. */
  function LoaderEdges(obj: Oop, follow: bool): seq<Address> {
    InstanceEdges(obj, follow) + (if follow && obj.loaderCld.Some? then obj.loaderCld.value else [])
  }

  /** ObjArrayKlass: the klass, then every element. */
  function ArrayEdges(obj: Oop, follow: bool): seq<Address> {
    KlassEdges(obj, follow) + Slots(obj.arrayData, obj.arrayLength)
  }

  /** process_ref_as_strong: the referent slot, then the discovered slot. */
  function StrongEdges(obj: Oop, env: Env): seq<Address> {
    [obj.start + env.referentOffset, obj.start + env.discoveredOffset]
  }

  /** The slots the dispatch reports for every klass id but InstanceRef. */
  function PlainEdges(obj: Oop, follow: bool): seq<Address>
    requires obj.id != InstanceRef
  {
    match obj.id
    case Instance => InstanceEdges(obj, follow)
    case InstanceClassLoader => LoaderEdges(obj, follow)
    case InstanceMirror => MirrorEdges(obj, follow)
    case ObjArray => ArrayEdges(obj, follow)
    case TypeArray => []
    case Unrecognised(_) => []
  }

  /** OopMapBlock::oop_iterate reports exactly `count` slots, `start +
      (i << 3)` for increasing `i`. */
  lemma SlotsSpec(start: Address, n: nat)
    ensures |Slots(start, n)| == n
    ensures forall i | 0 <= i < n :: Slots(start, n)[i] == start + i * BytesInAddress
    ensures forall i, j | 0 <= i < j < n :: Slots(start, n)[i] < Slots(start, n)[j]
  {
  }

  /** The oop maps report one slot per field they describe. */
  lemma {:induction false} MapsEdgesLength(start: Address, maps: seq<OopMapBlock>, n: nat)
    requires n <= |maps|
    ensures |MapsEdges(start, maps, n)| == FieldCount(maps, n)
  {
    if n > 0 {
      MapsEdgesLength(start, maps, n - 1);
    }
  }

  /** The address of field `i` of oop map `b` in the object at `start`. */
  function FieldAddress(start: Address, b: OopMapBlock, i: nat): Address {
    start + b.offset + i * BytesInAddress
  }

  /** A slot is reported by the oop maps iff it is field `i` of some map `j`. */
  lemma {:induction false} MapsEdgesMembers(start: Address, maps: seq<OopMapBlock>, n: nat, e: Address)
    requires n <= |maps|
    ensures e in MapsEdges(start, maps, n) <==>
      exists j: nat, i: nat | j < n && i < maps[j].count :: e == FieldAddress(start, maps[j], i)
  {
    if n > 0 {
      MapsEdgesMembers(start, maps, n - 1, e);
      var b := maps[n - 1];
      var s := Slots(start + b.offset, b.count);
      if e in s {
        var i :| 0 <= i < |s| && s[i] == e;
        assert e == FieldAddress(start, maps[n - 1], i);
      }
      assert forall i {:trigger FieldAddress(start, b, i)} | 0 <= i < b.count :: s[i] == FieldAddress(start, b, i);
    }
  }

  /** TypeArray and unrecognised klass ids report no slot; without following
      CLDs an object array reports exactly its elements. */
  lemma PlainEdgesCases(obj: Oop)
    requires obj.id != InstanceRef
    ensures obj.id.TypeArray? || obj.id.Unrecognised? ==> PlainEdges(obj, true) == [] && PlainEdges(obj, false) == []
    ensures obj.id.ObjArray? ==> PlainEdges(obj, false) == Slots(obj.arrayData, obj.arrayLength)
  {
  }

  // ---------------------------------------------------------------------
  // The discovery decision

  /** The kind should_discover_refs reasons about: Other counts as Weak. */
  function EffectiveKind(rt: ReferenceType): ReferenceType {
    if rt == Other then Weak else rt
  }

  /** InstanceRefKlass::should_discover_refs. */
  function ShouldDiscoverRefs(rt: ReferenceType, disableDiscovery: bool, options: Options): (r: bool)
    ensures r <==>
      && !disableDiscovery
      && (EffectiveKind(rt) == Final ==> !options.noFinalizer)
      && (EffectiveKind(rt) != Final ==> !options.noReferenceTypes)
  {
    var rt := EffectiveKind(rt);
    if disableDiscovery then false
    else if options.noFinalizer && rt == Final then false
    else if options.noReferenceTypes && rt != Final then false
    else true
  }

  /** A Reference of kind Other is discovered exactly when a Weak one is. */
  lemma OtherDiscoveredAsWeak(disableDiscovery: bool, options: Options)
    ensures ShouldDiscoverRefs(Other, disableDiscovery, options) == ShouldDiscoverRefs(Weak, disableDiscovery, options)
  {
  }

  /** The list a discovered reference joins once Other is read as Weak:
      the corrected argument of the call at object_scanning.rs:121. */
  function ListKind(rt: ReferenceType): (k: ReferenceType)
    ensures rt != RefNone <==> k in Kinds
    ensures rt in Kinds ==> k == rt
  {
    EffectiveKind(rt)
  }

  /** The list kind as the call at object_scanning.rs:121 is written: the
      klass's own kind, Other included. */
  function ListKindAsWritten(rt: ReferenceType): ReferenceType {
    rt
  }

  /** A kind that is discovered lands in a list that the processing phase
      with the same options drains: Final lists when finalizers are enabled,
      the others when reference types are enabled. */
  lemma DiscoveredKindsAreProcessed(rt: ReferenceType, disableDiscovery: bool, options: Options)
    requires rt != RefNone && ShouldDiscoverRefs(rt, disableDiscovery, options)
    ensures ListKind(rt) in Kinds
    ensures ListKind(rt) == Final ==> !options.noFinalizer
    ensures ListKind(rt) != Final ==> !options.noReferenceTypes
  {
  }

  /** As written, a Reference of kind Other passes should_discover_refs, but
      the list lookup for Other hits `unimplemented!()`. */
  lemma OtherKindPanicsAsWritten(lists: DiscoveredLists, ordinal: Option<nat>)
    ensures ShouldDiscoverRefs(Other, false, Options(false, false))
    ensures lists.Get(ListKindAsWritten(Other), ordinal).Panic?
  {
  }

  /** Corrected: on a worker thread, every reference that passes
      should_discover_refs (and is no RefNone) finds its list. */
  lemma ListKindFindsList(lists: DiscoveredLists, rt: ReferenceType, disableDiscovery: bool, options: Options, index: nat)
    requires lists.WellFormed() && index < lists.workers
    requires rt != RefNone && ShouldDiscoverRefs(rt, disableDiscovery, options)
    ensures lists.Get(ListKind(rt), Some(index)).Ok?
  {
  }

  /** The three checks of discover_reference before it adds: the gate is
      open, the referent is non-null and not reachable, and the plan wants
      the reference processed. */
  predicate Candidate(allow: bool, reference: ObjId, referent: Option<ObjId>, env: Env) {
    && allow
    && referent.Some?
    && !env.reachable(referent.value)
    && env.shouldProcess(reference, referent.value)
  }

  /** InstanceRefKlass::discover_reference for the reference at `reference`,
      into the calling worker's list of kind `rt`.  It answers false, and
      changes nothing, unless the reference is a candidate; a candidate is
      added and the answer is true even when the compare-and-swap inside
      `add` found the reference already linked.  A failed list lookup
      panics. */
  method DiscoverReference(reference: ObjId, rt: ReferenceType, lists: DiscoveredLists, heap: Heap, env: Env)
    returns (r: Result<bool>)
    requires reference in heap.fields && lists.Valid(heap.fields)
    modifies lists, heap
    ensures lists.Valid(heap.fields)
    ensures heap.fields.Keys == old(heap.fields.Keys)
    ensures lists.allowDiscover == old(lists.allowDiscover)
    ensures !Candidate(old(lists.allowDiscover), reference, old(heap.fields[reference].referent), env) ==>
      r == Ok(false)
    ensures Candidate(old(lists.allowDiscover), reference, old(heap.fields[reference].referent), env) ==>
      (r.Panic? <==> old(lists.Get(rt, env.ordinal)).Panic?) && (r.Ok? ==> r.value)
    ensures r != Ok(true) ==>
      heap.fields == old(heap.fields) && lists.lists == old(lists.lists) && lists.nodes == old(lists.nodes)
    ensures r == Ok(true) ==>
      && lists.IsDiscovered(heap, reference)
      && env.ordinal.Some?
      && AddEffect(old(heap.fields), old(lists.lists), old(lists.nodes), heap.fields, lists.lists, lists.nodes,
                   rt, env.ordinal.value, reference)
  {
    if !lists.AllowDiscover() {
      return Ok(false);
    }
    var referent := heap.fields[reference].referent;
    if referent == None || env.reachable(referent.value) {
      return Ok(false);
    }
    if !env.shouldProcess(reference, referent.value) {
      return Ok(false);
    }
    var list := lists.Get(rt, env.ordinal);
    if list.Panic? {
      return Panic(list.message);
    }
    lists.Add(heap, rt, env.ordinal.value, reference, referent.value);
    r := Ok(true);
  }

  // ---------------------------------------------------------------------
  // The scanning loops

  /** Report `n` consecutive slots from `start` (the loop of
      OopMapBlock::oop_iterate, and the element loops of mirrors and object
      arrays). */
  method VisitSlots(closure: EdgeRecorder, start: Address, n: nat)
    modifies closure
    ensures closure.edges == old(closure.edges) + Slots(start, n)
  {
    var i := 0;
    while i < n
      invariant 0 <= i <= n
      invariant closure.edges == old(closure.edges) + Slots(start, i)
    {
      closure.VisitEdge(start + i * BytesInAddress);
      assert Slots(start, i + 1) == Slots(start, i) + [start + i * BytesInAddress];
      i := i + 1;
    }
  }

  /** do_klass / do_cld: report a class loader data's slots when following CLDs. */
  method VisitCld(closure: EdgeRecorder, cld: seq<Address>)
    modifies closure
    ensures closure.edges == old(closure.edges) + (if closure.followClds then cld else [])
  {
    if closure.followClds {
      var i := 0;
      while i < |cld|
        invariant 0 <= i <= |cld|
        invariant closure.edges == old(closure.edges) + cld[..i]
      {
        closure.VisitEdge(cld[i]);
        assert cld[..i + 1] == cld[..i] + [cld[i]];
        i := i + 1;
      }
      assert cld[..|cld|] == cld;
    }
  }

  /** InstanceKlass::oop_iterate. */
  method InstanceOopIterate(obj: Oop, closure: EdgeRecorder)
    modifies closure
    ensures closure.edges == old(closure.edges) + InstanceEdges(obj, closure.followClds)
  {
    VisitCld(closure, obj.klassCld);
    var j := 0;
    while j < |obj.oopMaps|
      invariant 0 <= j <= |obj.oopMaps|
      invariant closure.edges == old(closure.edges) + KlassEdges(obj, closure.followClds) + MapsEdges(obj.start, obj.oopMaps, j)
    {
      var block := obj.oopMaps[j];
      VisitSlots(closure, obj.start + block.offset, block.count);
      j := j + 1;
    }
  }

  /** InstanceMirrorKlass::oop_iterate. */
  method MirrorOopIterate(obj: Oop, closure: EdgeRecorder)
    modifies closure
    ensures closure.edges == old(closure.edges) + MirrorEdges(obj, closure.followClds)
  {
    InstanceOopIterate(obj, closure);
    if obj.mirroredCld.Some? {
      VisitCld(closure, obj.mirroredCld.value);
    }
    VisitSlots(closure, obj.staticFields, obj.staticCount);
  }

  /** InstanceClassLoaderKlass::oop_iterate. */
  method LoaderOopIterate(obj: Oop, closure: EdgeRecorder)
    modifies closure
    ensures closure.edges == old(closure.edges) + LoaderEdges(obj, closure.followClds)
  {
    InstanceOopIterate(obj, closure);
    if obj.loaderCld.Some? {
      VisitCld(closure, obj.loaderCld.value);
    }
  }

  /** ObjArrayKlass::oop_iterate. */
  method ArrayOopIterate(obj: Oop, closure: EdgeRecorder)
    modifies closure
    ensures closure.edges == old(closure.edges) + ArrayEdges(obj, closure.followClds)
  {
    VisitCld(closure, obj.klassCld);
    VisitSlots(closure, obj.arrayData, obj.arrayLength);
  }

  /** process_ref_as_strong. */
  method ProcessRefAsStrong(obj: Oop, closure: EdgeRecorder, env: Env)
    modifies closure
    ensures closure.edges == old(closure.edges) + StrongEdges(obj, env)
  {
    closure.VisitEdge(obj.start + env.referentOffset);
    closure.VisitEdge(obj.start + env.discoveredOffset);
  }

  /** What InstanceRefKlass::oop_iterate does after the instance slots, given
      the gate, the referent and the lookup of list kind `kind` as they are
      when it starts. */
  datatype RefStep = TreatStrong | Discovered | Aborted

  function RefStepOf(obj: Oop, kind: ReferenceType, discoverReferences: bool, allow: bool,
                     referent: Option<ObjId>, lookup: Result<DiscoveredList>, env: Env): RefStep {
    if !ShouldDiscoverRefs(obj.referenceType, !discoverReferences, env.options) then TreatStrong
    else if obj.referenceType == RefNone then Aborted
    else if !Candidate(allow, obj.start, referent, env) then TreatStrong
    else if lookup.Panic? then Aborted
    else Discovered
  }

  /** The reference slots are visited as strong edges exactly when
      discovery is not attempted or the reference is no candidate; a
      Reference whose klass has kind RefNone aborts when discovery is
      attempted; a closed gate never discovers. */
  lemma RefStepSpec(obj: Oop, kind: ReferenceType, discoverReferences: bool, allow: bool,
                    referent: Option<ObjId>, lookup: Result<DiscoveredList>, env: Env)
    ensures var tries := ShouldDiscoverRefs(obj.referenceType, !discoverReferences, env.options);
      && (RefStepOf(obj, kind, discoverReferences, allow, referent, lookup, env) == TreatStrong <==>
           !tries || (obj.referenceType != RefNone && !Candidate(allow, obj.start, referent, env)))
      && (obj.referenceType == RefNone ==>
           (RefStepOf(obj, kind, discoverReferences, allow, referent, lookup, env) == Aborted <==> tries))
      && (!allow ==> RefStepOf(obj, kind, discoverReferences, allow, referent, lookup, env) != Discovered)
      && (!discoverReferences ==> RefStepOf(obj, kind, discoverReferences, allow, referent, lookup, env) == TreatStrong)
  {
  }

  /** The part of InstanceRefKlass::oop_iterate after the instance slots:
      discover into the list of kind `kind`, or report the reference slots
      as strong edges. */
  method DiscoverOrStrong(obj: Oop, kind: ReferenceType, closure: EdgeRecorder, lists: DiscoveredLists, heap: Heap, env: Env)
    returns (r: Result<()>)
    requires obj.start in heap.fields && lists.Valid(heap.fields)
    modifies closure, lists, heap
    ensures lists.Valid(heap.fields)
    ensures heap.fields.Keys == old(heap.fields.Keys)
    ensures lists.allowDiscover == old(lists.allowDiscover)
    ensures var step := RefStepOf(obj, kind, closure.discoverReferences, old(lists.allowDiscover),
                                  old(heap.fields[obj.start].referent), old(lists.Get(kind, env.ordinal)), env);
      && (r.Panic? <==> step == Aborted)
      && (step == TreatStrong ==> closure.edges == old(closure.edges) + StrongEdges(obj, env))
      && (step == Discovered ==> closure.edges == old(closure.edges))
      && (step != Discovered ==>
           heap.fields == old(heap.fields) && lists.lists == old(lists.lists) && lists.nodes == old(lists.nodes))
      && (step == Discovered ==>
           && lists.IsDiscovered(heap, obj.start)
           && env.ordinal.Some?
           && AddEffect(old(heap.fields), old(lists.lists), old(lists.nodes), heap.fields, lists.lists, lists.nodes,
                        kind, env.ordinal.value, obj.start))
  {
    if ShouldDiscoverRefs(obj.referenceType, !closure.discoverReferences, env.options) {
      if obj.referenceType == RefNone {
        return Panic("oop_iterate on InstanceRefKlass with reference_type as None");
      }
      var found := DiscoverReference(obj.start, kind, lists, heap, env);
      if found.Panic? {
        return Panic(found.message);
      }
      if !found.value {
        ProcessRefAsStrong(obj, closure, env);
      }
    } else {
      ProcessRefAsStrong(obj, closure, env);
    }
    r := Ok(());
  }

  /** InstanceRefKlass::oop_iterate, discovering into the list of kind `kind`. */
  method ScanReference(obj: Oop, kind: ReferenceType, closure: EdgeRecorder, lists: DiscoveredLists, heap: Heap, env: Env)
    returns (r: Result<()>)
    requires obj.start in heap.fields && lists.Valid(heap.fields)
    modifies closure, lists, heap
    ensures lists.Valid(heap.fields)
    ensures heap.fields.Keys == old(heap.fields.Keys)
    ensures lists.allowDiscover == old(lists.allowDiscover)
    ensures var step := RefStepOf(obj, kind, closure.discoverReferences, old(lists.allowDiscover),
                                  old(heap.fields[obj.start].referent), old(lists.Get(kind, env.ordinal)), env);
      && (r.Panic? <==> step == Aborted)
      && (step == TreatStrong ==> closure.edges == old(closure.edges) + InstanceEdges(obj, closure.followClds) + StrongEdges(obj, env))
      && (step == Discovered ==> closure.edges == old(closure.edges) + InstanceEdges(obj, closure.followClds))
      && (step != Discovered ==>
           heap.fields == old(heap.fields) && lists.lists == old(lists.lists) && lists.nodes == old(lists.nodes))
      && (step == Discovered ==>
           && lists.IsDiscovered(heap, obj.start)
           && env.ordinal.Some?
           && AddEffect(old(heap.fields), old(lists.lists), old(lists.nodes), heap.fields, lists.lists, lists.nodes,
                        kind, env.ordinal.value, obj.start))
  {
    InstanceOopIterate(obj, closure);
    r := DiscoverOrStrong(obj, kind, closure, lists, heap, env);
  }

  /** InstanceRefKlass::oop_iterate as written: discover_reference is handed
      the klass's own kind, so Other is looked up as Other. */
  method InstanceRefOopIterateAsWritten(obj: Oop, closure: EdgeRecorder, lists: DiscoveredLists, heap: Heap, env: Env)
    returns (r: Result<()>)
    requires obj.start in heap.fields && lists.Valid(heap.fields)
    modifies closure, lists, heap
    ensures lists.Valid(heap.fields)
    ensures (&& obj.referenceType == Other && closure.discoverReferences && !env.options.noReferenceTypes
             && Candidate(old(lists.allowDiscover), obj.start, old(heap.fields[obj.start].referent), env))
            ==> r.Panic?
  {
    OtherKindPanicsAsWritten(lists, env.ordinal);
    r := ScanReference(obj, ListKindAsWritten(obj.referenceType), closure, lists, heap, env);
  }

  /** InstanceRefKlass::oop_iterate, with Other discovered into the Weak
      lists.  On a worker thread it aborts only for kind RefNone. */
  method InstanceRefOopIterate(obj: Oop, closure: EdgeRecorder, lists: DiscoveredLists, heap: Heap, env: Env)
    returns (r: Result<()>)
    requires obj.start in heap.fields && lists.Valid(heap.fields)
    modifies closure, lists, heap
    ensures lists.Valid(heap.fields)
    ensures heap.fields.Keys == old(heap.fields.Keys)
    ensures lists.allowDiscover == old(lists.allowDiscover)
    ensures env.ordinal.Some? && env.ordinal.value < lists.workers && obj.referenceType != RefNone ==> r.Ok?
    ensures var step := RefStepOf(obj, ListKind(obj.referenceType), closure.discoverReferences, old(lists.allowDiscover),
                                  old(heap.fields[obj.start].referent), old(lists.Get(ListKind(obj.referenceType), env.ordinal)), env);
      && (r.Panic? <==> step == Aborted)
      && (step == TreatStrong ==> closure.edges == old(closure.edges) + InstanceEdges(obj, closure.followClds) + StrongEdges(obj, env))
      && (step == Discovered ==> closure.edges == old(closure.edges) + InstanceEdges(obj, closure.followClds))
      && (step != Discovered ==>
           heap.fields == old(heap.fields) && lists.lists == old(lists.lists) && lists.nodes == old(lists.nodes))
      && (step == Discovered ==>
           && lists.IsDiscovered(heap, obj.start)
           && env.ordinal.Some?
           && AddEffect(old(heap.fields), old(lists.lists), old(lists.nodes), heap.fields, lists.lists, lists.nodes,
                        ListKind(obj.referenceType), env.ordinal.value, obj.start))
  {
    if env.ordinal.Some? && env.ordinal.value < lists.workers && obj.referenceType != RefNone
       && ShouldDiscoverRefs(obj.referenceType, !closure.discoverReferences, env.options) {
      ListKindFindsList(lists, obj.referenceType, !closure.discoverReferences, env.options, env.ordinal.value);
    }
    r := ScanReference(obj, ListKind(obj.referenceType), closure, lists, heap, env);
  }

  /** oop_iterate: dispatch on the klass id.  TypeArray and unrecognised ids
      report nothing. */
  method OopIterate(obj: Oop, closure: EdgeRecorder, lists: DiscoveredLists, heap: Heap, env: Env)
    returns (r: Result<()>)
    requires obj.id == InstanceRef ==> obj.start in heap.fields && lists.Valid(heap.fields)
    modifies closure, lists, heap
    ensures obj.id != InstanceRef ==>
      && r.Ok?
      && closure.edges == old(closure.edges) + PlainEdges(obj, closure.followClds)
      && heap.fields == old(heap.fields) && lists.lists == old(lists.lists) && lists.nodes == old(lists.nodes)
      && lists.allowDiscover == old(lists.allowDiscover)
    ensures obj.id == InstanceRef ==>
      && lists.Valid(heap.fields)
      && heap.fields.Keys == old(heap.fields.Keys)
      && lists.allowDiscover == old(lists.allowDiscover)
      && (env.ordinal.Some? && env.ordinal.value < lists.workers && obj.referenceType != RefNone ==> r.Ok?)
      && var step := RefStepOf(obj, ListKind(obj.referenceType), closure.discoverReferences, old(lists.allowDiscover),
                               old(heap.fields[obj.start].referent), old(lists.Get(ListKind(obj.referenceType), env.ordinal)), env);
         && (r.Panic? <==> step == Aborted)
         && (step == TreatStrong ==> closure.edges == old(closure.edges) + InstanceEdges(obj, closure.followClds) + StrongEdges(obj, env))
         && (step == Discovered ==> closure.edges == old(closure.edges) + InstanceEdges(obj, closure.followClds))
         && (step != Discovered ==>
              heap.fields == old(heap.fields) && lists.lists == old(lists.lists) && lists.nodes == old(lists.nodes))
         && (step == Discovered ==>
              && lists.IsDiscovered(heap, obj.start)
              && env.ordinal.Some?
              && AddEffect(old(heap.fields), old(lists.lists), old(lists.nodes), heap.fields, lists.lists, lists.nodes,
                           ListKind(obj.referenceType), env.ordinal.value, obj.start))
  {
    r := Ok(());
    match obj.id {
      case Instance => InstanceOopIterate(obj, closure);
      case InstanceClassLoader => LoaderOopIterate(obj, closure);
      case InstanceMirror => MirrorOopIterate(obj, closure);
      case ObjArray => ArrayOopIterate(obj, closure);
      case InstanceRef => r := InstanceRefOopIterate(obj, closure, lists, heap, env);
      case TypeArray =>
      case Unrecognised(_) =>
    }
  }
}

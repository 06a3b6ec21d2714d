/** Discovery and processing of java.lang.ref.Reference objects
    (mmtk/src/reference_glue.rs).

    A reference object owns two slots the collector cares about: `referent`
    and `discovered`.  The `discovered` slot doubles as the link of an
    intrusive, singly linked list: one such list exists per (kind, worker)
    pair, an empty list is a null head, the last node links to itself, and
    "in no list" is `discovered == null`.  The heap is modelled as a map from
    object ids to those two slots.  Forwarding, reachability and tracing are
    oracles passed in as functions. */
module ReferenceGlue {
  import opened Wrappers

  type ObjId = nat

  /** HotSpot's ReferenceType, in HotSpot's order. */
  datatype ReferenceType = RefNone | Other | Soft | Weak | Final | Phantom

  /** The two slots of a reference object that this subsystem reads and writes. */
  datatype RefFields = RefFields(referent: Option<ObjId>, discovered: Option<ObjId>)

  /** The reference objects of the heap. */
  class Heap {
    var fields: map<ObjId, RefFields>

    constructor (initial: map<ObjId, RefFields>)
      ensures fields == initial
    {
      fields := initial;
    }

    /** get_next_reference: load the `discovered` slot. */
    function GetNextReference(o: ObjId): Option<ObjId>
      reads this
      requires o in fields
    {
      fields[o].discovered
    }

    /** set_next_reference: store into the `discovered` slot. */
    method SetNextReference(o: ObjId, next: Option<ObjId>)
      requires o in fields
      modifies this
      ensures fields == old(fields)[o := old(fields)[o].(discovered := next)]
    {
      fields := fields[o := fields[o].(discovered := next)];
    }

    /** set_referent: store into the `referent` slot. */
    method SetReferent(o: ObjId, referent: Option<ObjId>)
      requires o in fields
      modifies this
      ensures fields == old(fields)[o := old(fields)[o].(referent := referent)]
    {
      fields := fields[o := fields[o].(referent := referent)];
    }

    /** The compare-and-swap of the `discovered` slot from null to `next`,
        as one sequential step. */
    method CompareExchangeDiscovered(o: ObjId, next: ObjId) returns (ok: bool)
      requires o in fields
      modifies this
      ensures ok <==> old(fields)[o].discovered == None
      ensures fields == if ok then old(fields)[o := old(fields)[o].(discovered := Some(next))]
                        else old(fields)
    {
      ok := fields[o].discovered == None;
      if ok {
        fields := fields[o := fields[o].(discovered := Some(next))];
      }
    }
  }

  // ---------------------------------------------------------------------
  // One discovered list

  /** DiscoveredList: the head of one intrusive list.  Its kind tag `_rt`
      is never read and is not modelled. */
  datatype DiscoveredList = DiscoveredList(head: Option<ObjId>)

  /** The node after `nodes[i]`; the last node is its own successor. */
  function Successor(nodes: seq<ObjId>, i: nat): ObjId
    requires i < |nodes|
  {
    if i + 1 < |nodes| then nodes[i + 1] else nodes[i]
  }

  /** `head` and the `discovered` links in `h` spell out exactly the
      distinct objects `nodes`, the last of which links to itself. */
  ghost predicate ListShape(h: map<ObjId, RefFields>, head: Option<ObjId>, nodes: seq<ObjId>) {
    && (head == None <==> nodes == [])
    && (head != None ==> head.value == nodes[0])
    && Distinct(nodes)
    && (forall i | 0 <= i < |nodes| :: nodes[i] in h && h[nodes[i]].discovered == Some(Successor(nodes, i)))
  }

  /** A list whose every node has a non-null `discovered` slot is unaffected
      by writes to an object whose `discovered` slot is null. */
  lemma ListShapeFrame(h: map<ObjId, RefFields>, head: Option<ObjId>, nodes: seq<ObjId>, o: ObjId, v: RefFields)
    requires ListShape(h, head, nodes)
    requires o in h && h[o].discovered == None
    ensures o !in nodes
    ensures ListShape(h[o := v], head, nodes)
  {
  }

  // ---------------------------------------------------------------------
  // The registry of all lists

  /** The two policy switches the registry consults. */
  datatype Options = Options(noReferenceTypes: bool, noFinalizer: bool)

  /** ProcessDiscoveredList { list_index, head, rt } or
      ResurrectFinalizables { list_index, head }. */
  datatype PacketKind = Process(rt: ReferenceType) | Resurrect
  datatype Packet = Packet(kind: PacketKind, listIndex: nat, head: ObjId)

  /** The heads of `lists`, in order. */
  function HeadsOf(lists: seq<DiscoveredList>): seq<Option<ObjId>> {
    seq(|lists|, i requires 0 <= i < |lists| => lists[i].head)
  }

  /** One packet per non-null head among the first `n`, carrying that
      head's index. */
  function PacketsUpTo(kind: PacketKind, heads: seq<Option<ObjId>>, n: nat): seq<Packet>
    requires n <= |heads|
  {
    if n == 0 then []
    else
      PacketsUpTo(kind, heads, n - 1)
      + (if heads[n - 1] != None then [Packet(kind, n - 1, heads[n - 1].value)] else [])
  }

  /** One packet per non-empty list. */
  function PacketsFor(kind: PacketKind, heads: seq<Option<ObjId>>): seq<Packet> {
    PacketsUpTo(kind, heads, |heads|)
  }

  /** One step of PacketsUpTo: the earlier packets are kept, and at most
      one packet is added, for list `n - 1`. */
  lemma PacketsStep(kind: PacketKind, heads: seq<Option<ObjId>>, n: nat)
    requires 0 < n <= |heads|
    ensures var ps0 := PacketsUpTo(kind, heads, n - 1); var ps := PacketsUpTo(kind, heads, n);
      && (heads[n - 1] == None ==> ps == ps0)
      && (heads[n - 1] != None ==> |ps| == |ps0| + 1 && ps[|ps0|] == Packet(kind, n - 1, heads[n - 1].value))
      && (forall k | 0 <= k < |ps0| :: ps[k] == ps0[k])
  {
  }

  /** Every packet names a non-empty list by its index and carries its head. */
  lemma {:induction false} PacketsSound(kind: PacketKind, heads: seq<Option<ObjId>>, n: nat)
    requires n <= |heads|
    ensures var ps := PacketsUpTo(kind, heads, n);
      forall k | 0 <= k < |ps| ::
        ps[k].kind == kind && ps[k].listIndex < n && heads[ps[k].listIndex] == Some(ps[k].head)
  {
    if n > 0 {
      PacketsSound(kind, heads, n - 1);
      PacketsStep(kind, heads, n);
    }
  }

  /** List indices increase strictly along the packets, so no list is named twice. */
  lemma {:induction false} PacketsOrdered(kind: PacketKind, heads: seq<Option<ObjId>>, n: nat)
    requires n <= |heads|
    ensures var ps := PacketsUpTo(kind, heads, n);
      forall k, m | 0 <= k < m < |ps| :: ps[k].listIndex < ps[m].listIndex
  {
    if n > 0 {
      PacketsOrdered(kind, heads, n - 1);
      PacketsSound(kind, heads, n - 1);
      PacketsStep(kind, heads, n);
    }
  }

  /** Every non-empty list is named by some packet. */
  lemma {:induction false} PacketsComplete(kind: PacketKind, heads: seq<Option<ObjId>>, n: nat)
    requires n <= |heads|
    ensures var ps := PacketsUpTo(kind, heads, n);
      forall i | 0 <= i < n && heads[i] != None :: exists k :: 0 <= k < |ps| && ps[k].listIndex == i
  {
    if n > 0 {
      PacketsComplete(kind, heads, n - 1);
      PacketsStep(kind, heads, n);
      var ps0 := PacketsUpTo(kind, heads, n - 1);
      var ps := PacketsUpTo(kind, heads, n);
      forall i | 0 <= i < n && heads[i] != None
        ensures exists k :: 0 <= k < |ps| && ps[k].listIndex == i
      {
        if i < n - 1 {
          var k :| 0 <= k < |ps0| && ps0[k].listIndex == i;
          assert ps[k] == ps0[k];
        } else {
          assert ps[|ps| - 1].listIndex == i;
        }
      }
    }
  }

  /** There are no packets exactly when every list is empty. */
  lemma {:induction false} PacketsEmptyIff(kind: PacketKind, heads: seq<Option<ObjId>>, n: nat)
    requires n <= |heads|
    ensures PacketsUpTo(kind, heads, n) == [] <==> forall i | 0 <= i < n :: heads[i] == None
  {
    if n > 0 {
      PacketsEmptyIff(kind, heads, n - 1);
    }
  }

  /** The packets of a whole vector of lists: each names a non-empty list
      by its index and carries its head, no list is named twice, every
      non-empty list is named, and there are none exactly when every list
      is empty. */
  lemma PacketsForSpec(kind: PacketKind, heads: seq<Option<ObjId>>)
    ensures var ps := PacketsFor(kind, heads);
      && (forall k | 0 <= k < |ps| ::
            ps[k].kind == kind && ps[k].listIndex < |heads| && heads[ps[k].listIndex] == Some(ps[k].head))
      && (forall k, m | 0 <= k < m < |ps| :: ps[k].listIndex < ps[m].listIndex)
      && (forall i | 0 <= i < |heads| && heads[i] != None :: exists k :: 0 <= k < |ps| && ps[k].listIndex == i)
      && (ps == [] <==> forall i | 0 <= i < |heads| :: heads[i] == None)
  {
    PacketsSound(kind, heads, |heads|);
    PacketsOrdered(kind, heads, |heads|);
    PacketsComplete(kind, heads, |heads|);
    PacketsEmptyIff(kind, heads, |heads|);
  }

  /** The four kinds that have lists. */
  const Kinds: set<ReferenceType> := {Soft, Weak, Final, Phantom}

  /** `lists` with every head nulled. */
  function Cleared(lists: seq<DiscoveredList>): seq<DiscoveredList> {
    seq(|lists|, i requires 0 <= i < |lists| => lists[i].(head := None))
  }

  /** `n` empty abstract lists. */
  function NoNodes(n: nat): seq<seq<ObjId>> {
    seq(n, _ => [])
  }

  /** One list per worker and kind. */
  ghost predicate Sized(lists: map<ReferenceType, seq<DiscoveredList>>, nodes: map<ReferenceType, seq<seq<ObjId>>>, workers: nat) {
    && lists.Keys == Kinds && nodes.Keys == Kinds
    && (forall rt | rt in Kinds :: |lists[rt]| == workers && |nodes[rt]| == workers)
  }

  /** Each of the `workers` lists of each kind is well shaped in `h`. */
  ghost predicate AllShaped(h: map<ObjId, RefFields>, lists: map<ReferenceType, seq<DiscoveredList>>,
                            nodes: map<ReferenceType, seq<seq<ObjId>>>, workers: nat)
  {
    forall rt, i | rt in Kinds && rt in lists && rt in nodes && 0 <= i < workers && i < |lists[rt]| && i < |nodes[rt]| ::
      ListShape(h, lists[rt][i].head, nodes[rt][i])
  }

  /** Emptying every list of one kind keeps all lists well shaped. */
  lemma ClearedShaped(h: map<ObjId, RefFields>, lists: map<ReferenceType, seq<DiscoveredList>>,
                      nodes: map<ReferenceType, seq<seq<ObjId>>>, workers: nat, rt: ReferenceType)
    requires AllShaped(h, lists, nodes, workers) && rt in lists
    ensures AllShaped(h, lists[rt := Cleared(lists[rt])], nodes[rt := NoNodes(workers)], workers)
  {
  }

  /** Pushing an object whose `discovered` slot is null onto one list, and
      linking it to that list's old head (or to itself), keeps every list
      well shaped. */
  lemma AddShaped(h: map<ObjId, RefFields>, lists: map<ReferenceType, seq<DiscoveredList>>,
                  nodes: map<ReferenceType, seq<seq<ObjId>>>, workers: nat,
                  rt: ReferenceType, index: nat, reference: ObjId)
    requires Sized(lists, nodes, workers) && AllShaped(h, lists, nodes, workers)
    requires rt in Kinds && index < workers
    requires reference in h && h[reference].discovered == None
    ensures Sized(lists[rt := lists[rt][index := DiscoveredList(Some(reference))]],
                  nodes[rt := nodes[rt][index := [reference] + nodes[rt][index]]], workers)
    ensures var oldHead := lists[rt][index].head;
      AllShaped(h[reference := h[reference].(discovered := Some(if oldHead == None then reference else oldHead.value))],
                lists[rt := lists[rt][index := DiscoveredList(Some(reference))]],
                nodes[rt := nodes[rt][index := [reference] + nodes[rt][index]]], workers)
  {
    var oldHead := lists[rt][index].head;
    var v := h[reference].(discovered := Some(if oldHead == None then reference else oldHead.value));
    var lists': map<ReferenceType, seq<DiscoveredList>> := lists[rt := lists[rt][index := DiscoveredList(Some(reference))]];
    var nodes': map<ReferenceType, seq<seq<ObjId>>> := nodes[rt := nodes[rt][index := [reference] + nodes[rt][index]]];
    forall other, i | other in Kinds && other in lists' && other in nodes' && 0 <= i < workers && i < |lists'[other]| && i < |nodes'[other]|
      ensures ListShape(h[reference := v], lists'[other][i].head, nodes'[other][i])
    {
      var body := nodes[other][i];
      ListShapeFrame(h, lists[other][i].head, body, reference, v);
      if other == rt && i == index {
        assert forall k | 1 <= k < |nodes'[rt][index]| :: Successor(nodes'[rt][index], k) == Successor(body, k - 1);
      }
    }
  }

  /** The state change of DiscoveredList::add on list `index` of kind `rt`,
      from (h0, lists0, nodes0) to (h1, lists1, nodes1): an unlinked
      `reference` is linked to the old head (or to itself on an empty list)
      and becomes the head, and nothing else changes; an already linked one
      changes nothing. */
  ghost predicate AddEffect(h0: map<ObjId, RefFields>, lists0: map<ReferenceType, seq<DiscoveredList>>,
                            nodes0: map<ReferenceType, seq<seq<ObjId>>>,
                            h1: map<ObjId, RefFields>, lists1: map<ReferenceType, seq<DiscoveredList>>,
                            nodes1: map<ReferenceType, seq<seq<ObjId>>>,
                            rt: ReferenceType, index: nat, reference: ObjId)
  {
    && reference in h0 && rt in lists0 && rt in nodes0
    && index < |lists0[rt]| && index < |nodes0[rt]|
    && if h0[reference].discovered == None then
         var oldHead := lists0[rt][index].head;
         && h1 == h0[reference := h0[reference].(discovered := Some(if oldHead == None then reference else oldHead.value))]
         && lists1 == lists0[rt := lists0[rt][index := DiscoveredList(Some(reference))]]
         && nodes1 == nodes0[rt := nodes0[rt][index := [reference] + nodes0[rt][index]]]
       else
         h1 == h0 && lists1 == lists0 && nodes1 == nodes0
  }

  /** The loop of process_lists over one vector: read each head, null it
      when `clear`, and collect one packet per non-null head. */
  method TakeHeads(kind: PacketKind, lists: seq<DiscoveredList>, clear: bool)
    returns (packets: seq<Packet>, after: seq<DiscoveredList>)
    ensures packets == PacketsFor(kind, HeadsOf(lists))
    ensures after == if clear then Cleared(lists) else lists
  {
    ghost var heads := HeadsOf(lists);
    after := lists;
    packets := [];
    var i := 0;
    while i < |after|
      invariant 0 <= i <= |after| && |after| == |lists|
      invariant packets == PacketsUpTo(kind, heads, i)
      invariant forall j | 0 <= j < |after| ::
        after[j] == (if clear && j < i then DiscoveredList(None) else lists[j])
    {
      var head := after[i].head;
      assert head == heads[i];
      PacketsStep(kind, heads, i + 1);
      if clear {
        after := after[i := DiscoveredList(None)];
      }
      if head == None {
        i := i + 1;
        continue;
      }
      packets := packets + [Packet(kind, i, head.value)];
      i := i + 1;
    }
    if clear {
      assert after == Cleared(lists);
    }
  }

  /** DiscoveredLists: per worker, one soft, weak, final and phantom list,
      owned by value as the source's four vectors are (`lists[rt]` is the
      vector of kind `rt`), and the discovery gate.  `nodes[rt][i]` is the
      abstract content of list `i` of kind `rt`. */
  class DiscoveredLists {
    var lists: map<ReferenceType, seq<DiscoveredList>>
    const workers: nat
    var allowDiscover: bool
    ghost var nodes: map<ReferenceType, seq<seq<ObjId>>>

    /** One list per worker and kind. */
    ghost predicate WellFormed()
      reads this
    {
      Sized(lists, nodes, workers)
    }

    /** Every list is well shaped in `h`. */
    ghost predicate Valid(h: map<ObjId, RefFields>)
      reads this
    {
      WellFormed() && AllShaped(h, lists, nodes, workers)
    }

    /** DiscoveredLists::new: four vectors of `workers` empty lists
        (DiscoveredList::new), and the discovery gate open. */
    constructor (workers: nat)
      ensures this.workers == workers && allowDiscover
      ensures lists == map rt | rt in Kinds :: seq(workers, _ => DiscoveredList(None))
      ensures nodes == map rt | rt in Kinds :: NoNodes(workers)
      ensures forall h :: Valid(h)
    {
      this.workers := workers;
      lists := map rt | rt in Kinds :: seq(workers, _ => DiscoveredList(None));
      allowDiscover := true;
      nodes := map rt | rt in Kinds :: NoNodes(workers);
    }

    /** enable_discover: reopen the discovery gate. */
    method EnableDiscover()
      modifies this
      ensures allowDiscover
      ensures lists == old(lists) && nodes == old(nodes)
    {
      allowDiscover := true;
    }

    function AllowDiscover(): bool
      reads this
    {
      allowDiscover
    }

    /** is_discovered: the `discovered` slot is non-null. */
    function IsDiscovered(heap: Heap, reference: ObjId): bool
      reads heap
      requires reference in heap.fields
    {
      heap.fields[reference].discovered != None
    }

    /** get_by_rt_and_index: the list of kind `rt` of worker `index`.  Kinds
        other than Soft, Weak, Final and Phantom hit `unimplemented!()`; an
        index past the end panics as a Rust index does. */
    function GetByRtAndIndex(rt: ReferenceType, index: nat): (r: Result<DiscoveredList>)
      reads this
      ensures WellFormed() ==> (r.Ok? <==> rt in Kinds && index < workers)
      ensures r.Ok? ==> rt in lists && index < |lists[rt]| && r.value == lists[rt][index]
    {
      if rt !in Kinds then Panic("not implemented")
      else if rt in lists && index < |lists[rt]| then Ok(lists[rt][index])
      else Panic("index out of bounds")
    }

    /** get: the list of kind `rt` of the calling worker; a thread that is no
        collector worker has no ordinal and panics. */
    function Get(rt: ReferenceType, ordinal: Option<nat>): (r: Result<DiscoveredList>)
      reads this
      ensures ordinal == None ==> r.Panic?
      ensures ordinal != None ==> r == GetByRtAndIndex(rt, ordinal.value)
    {
      if ordinal == None then Panic("called `Option::unwrap()` on a `None` value")
      else GetByRtAndIndex(rt, ordinal.value)
    }

    /** DiscoveredList::add on list `index` of kind `rt`.  The
        compare-and-swap links `reference` to the old head (or to itself when
        the list is empty) only if its `discovered` slot is null; only then
        does `reference` become the head.  A second add of the same
        reference changes nothing.  The plan's keep-alive hook on
        (reference, referent) is not modelled. */
    method Add(heap: Heap, rt: ReferenceType, index: nat, reference: ObjId, referent: ObjId)
      requires rt in Kinds && index < workers
      requires reference in heap.fields
      requires Valid(heap.fields)
      modifies this, heap
      ensures Valid(heap.fields)
      ensures heap.fields.Keys == old(heap.fields.Keys)
      ensures heap.fields[reference].discovered != None
      ensures allowDiscover == old(allowDiscover)
      ensures old(heap.fields[reference].discovered) == None ==>
        var oldHead := old(lists[rt][index].head);
        && heap.fields == old(heap.fields)[reference := old(heap.fields[reference]).(
             discovered := Some(if oldHead == None then reference else oldHead.value))]
        && lists == old(lists)[rt := old(lists[rt])[index := DiscoveredList(Some(reference))]]
        && nodes == old(nodes)[rt := old(nodes[rt])[index := [reference] + old(nodes[rt][index])]]
      ensures old(heap.fields[reference].discovered) != None ==>
        heap.fields == old(heap.fields) && lists == old(lists) && nodes == old(nodes)
    {
      ghost var h0 := heap.fields;
      var h := lists[rt][index].head;
      var nextDiscovered := if h == None then reference else h.value;
      var ok := heap.CompareExchangeDiscovered(reference, nextDiscovered);
      if ok {
        AddShaped(h0, lists, nodes, workers, rt, index, reference);
        lists := lists[rt := lists[rt][index := DiscoveredList(Some(reference))]];
        nodes := nodes[rt := nodes[rt][index := [reference] + nodes[rt][index]]];
      }
    }

    /** process_lists (of kind `rt`) and the loop of resurrect_final_refs:
        read every head of kind `rt`, null it when `clear`, and build one
        packet of kind `kind` per non-empty list.  The source then stops at
        `unimplemented!()`; the model returns the packets that the
        commented-out `bulk_add` would schedule. */
    method ProcessLists(kind: PacketKind, rt: ReferenceType, clear: bool, ghost h: map<ObjId, RefFields>)
      returns (packets: seq<Packet>)
      requires rt in Kinds && Valid(h)
      modifies this
      ensures Valid(h)
      ensures packets == PacketsFor(kind, HeadsOf(old(lists[rt])))
      ensures lists == if clear then old(lists)[rt := Cleared(old(lists[rt]))] else old(lists)
      ensures nodes == if clear then old(nodes)[rt := NoNodes(workers)] else old(nodes)
      ensures allowDiscover == old(allowDiscover)
    {
      var v;
      packets, v := TakeHeads(kind, lists[rt], clear);
      if clear {
        lists := lists[rt := v];
        nodes := nodes[rt := NoNodes(workers)];
        ClearedShaped(h, old(lists), old(nodes), workers, rt);
      }
    }

    /** process_soft_weak_final_refs: close the gate, then build the packets
        of the soft and weak lists (clearing their heads) unless reference
        types are disabled, and of the final lists (keeping their heads)
        unless finalizers are disabled. */
    method ProcessSoftWeakFinalRefs(options: Options, ghost h: map<ObjId, RefFields>)
      returns (packets: seq<Packet>)
      requires Valid(h)
      modifies this
      ensures !allowDiscover
      ensures Valid(h)
      ensures packets ==
        (if options.noReferenceTypes then []
         else PacketsFor(Process(Soft), HeadsOf(old(lists[Soft]))) + PacketsFor(Process(Weak), HeadsOf(old(lists[Weak]))))
        + (if options.noFinalizer then [] else PacketsFor(Process(Final), HeadsOf(old(lists[Final]))))
      ensures lists == if options.noReferenceTypes then old(lists)
                       else old(lists)[Soft := Cleared(old(lists[Soft]))][Weak := Cleared(old(lists[Weak]))]
      ensures nodes == if options.noReferenceTypes then old(nodes)
                       else old(nodes)[Soft := NoNodes(workers)][Weak := NoNodes(workers)]
    {
      allowDiscover := false;
      packets := [];
      if !options.noReferenceTypes {
        var ps := ProcessLists(Process(Soft), Soft, true, h);
        var pw := ProcessLists(Process(Weak), Weak, true, h);
        packets := ps + pw;
      }
      if !options.noFinalizer {
        var pf := ProcessLists(Process(Final), Final, false, h);
        packets := packets + pf;
      }
    }

    /** resurrect_final_refs: asserts that finalizers are enabled, then
        nulls every final head and builds one ResurrectFinalizables packet per
        non-empty final list.  As in process_lists, the source then stops at
        `unimplemented!()` and the model returns the packets. */
    method ResurrectFinalRefs(options: Options, ghost h: map<ObjId, RefFields>)
      returns (r: Result<seq<Packet>>)
      requires Valid(h)
      modifies this
      ensures Valid(h)
      ensures options.noFinalizer ==> r.Panic? && lists == old(lists) && nodes == old(nodes)
      ensures !options.noFinalizer ==>
        && r == Ok(PacketsFor(Resurrect, HeadsOf(old(lists[Final]))))
        && lists == old(lists)[Final := Cleared(old(lists[Final]))]
        && nodes == old(nodes)[Final := NoNodes(workers)]
      ensures allowDiscover == old(allowDiscover)
    {
      if options.noFinalizer {
        return Panic("assertion failed: !*worker.mmtk.get_options().no_finalizer");
      }
      var packets := ProcessLists(Resurrect, Final, true, h);
      r := Ok(packets);
    }

    /** process_phantom_refs: asserts that reference types are enabled, then
        processes the phantom lists, clearing their heads. */
    method ProcessPhantomRefs(options: Options, ghost h: map<ObjId, RefFields>)
      returns (r: Result<seq<Packet>>)
      requires Valid(h)
      modifies this
      ensures Valid(h)
      ensures options.noReferenceTypes ==> r.Panic? && lists == old(lists) && nodes == old(nodes)
      ensures !options.noReferenceTypes ==>
        && r == Ok(PacketsFor(Process(Phantom), HeadsOf(old(lists[Phantom]))))
        && lists == old(lists)[Phantom := Cleared(old(lists[Phantom]))]
        && nodes == old(nodes)[Phantom := NoNodes(workers)]
      ensures allowDiscover == old(allowDiscover)
    {
      if options.noReferenceTypes {
        return Panic("assertion failed: !*worker.mmtk.get_options().no_reference_types");
      }
      var packets := ProcessLists(Process(Phantom), Phantom, true, h);
      r := Ok(packets);
    }
  }

  // ---------------------------------------------------------------------
  // Walking one list (iterate_list)

  /** What a visitor decides for one reference. */
  datatype IterationResult = Remove | Enqueue(reference: ObjId)

  /** A visitor's decision, and the value it leaves in the `referent` slot. */
  datatype Visit = Visit(result: IterationResult, referent: Option<ObjId>)

  /** The visitor sees a reference and its two slots. */
  type Visitor = (ObjId, RefFields) -> Visit

  /** A forwarding oracle: the new copy of a moved object, if it moved. */
  type Forwarding = ObjId -> Option<ObjId>

  /** Where `o` lives after forwarding. */
  function Forward(fwd: Forwarding, o: ObjId): ObjId {
    if fwd(o) != None then fwd(o).value else o
  }

  /** The successor read from a `discovered` slot, resolved through forwarding:
      a moved successor is replaced by its copy. */
  function ForwardNext(fwd: Forwarding, next: Option<ObjId>): Option<ObjId> {
    match next
    case None => None
    case Some(x) => if fwd(x) != None then fwd(x) else next
  }

  /** Starting from `head` (or its copy), the `discovered` links resolved
      through forwarding visit exactly the distinct, unmoved objects `nodes`,
      and the last one links to itself or to nothing. */
  ghost predicate WalkShape(h: map<ObjId, RefFields>, fwd: Forwarding, head: ObjId, nodes: seq<ObjId>) {
    && |nodes| > 0
    && Forward(fwd, head) == nodes[0]
    && Distinct(nodes)
    && (forall i | 0 <= i < |nodes| :: nodes[i] in h && fwd(nodes[i]) == None)
    && (forall i | 0 <= i < |nodes| - 1 :: ForwardNext(fwd, h[nodes[i]].discovered) == Some(nodes[i + 1]))
    && ForwardNext(fwd, h[Last(nodes)].discovered) in {None, Some(Last(nodes))}
  }

  /** A visitor that enqueues only the reference it was given. */
  ghost predicate EnqueuesVisited(visit: Visitor) {
    forall o, f :: visit(o, f).result.Enqueue? ==> visit(o, f).result.reference == o
  }

  /** The nodes of a list all lie in `h`. */
  ghost predicate InHeap(h: map<ObjId, RefFields>, nodes: seq<ObjId>) {
    forall i | 0 <= i < |nodes| :: nodes[i] in h
  }

  /** What the visitor decides for `n`: it runs after `n`'s link is nulled. */
  function Decision(h: map<ObjId, RefFields>, visit: Visitor, n: ObjId): Visit
    requires n in h
  {
    visit(n, RefFields(h[n].referent, None))
  }

  /** The nodes the visitor enqueues, in list order. */
  ghost function Enqueued(h: map<ObjId, RefFields>, visit: Visitor, nodes: seq<ObjId>): seq<ObjId>
    requires InHeap(h, nodes)
  {
    if nodes == [] then []
    else
      var init := nodes[..|nodes| - 1];
      Enqueued(h, visit, init) + (if Decision(h, visit, Last(nodes)).result.Enqueue? then [Last(nodes)] else [])
  }

  /** The slots after walking `nodes`: each visited node gets the visitor's
      referent, and its `discovered` slot is nulled unless it is enqueued
      after an earlier enqueued node, to which it is then linked. */
  ghost function Walked(h: map<ObjId, RefFields>, visit: Visitor, nodes: seq<ObjId>): map<ObjId, RefFields>
    requires InHeap(h, nodes)
  {
    if nodes == [] then h
    else
      var init := nodes[..|nodes| - 1];
      var n := Last(nodes);
      var d := Decision(h, visit, n);
      var before := Enqueued(h, visit, init);
      Walked(h, visit, init)[n := RefFields(d.referent,
        if d.result.Enqueue? && before != [] then Some(Last(before)) else None)]
  }

  /** One more node: the enqueued nodes and the slots after walking
      `nodes[..i + 1]`, from those after walking `nodes[..i]`. */
  lemma WalkStep(h: map<ObjId, RefFields>, visit: Visitor, nodes: seq<ObjId>, i: nat)
    requires InHeap(h, nodes) && i < |nodes|
    ensures InHeap(h, nodes[..i]) && InHeap(h, nodes[..i + 1])
    ensures var d := Decision(h, visit, nodes[i]); var e := Enqueued(h, visit, nodes[..i]);
      && Enqueued(h, visit, nodes[..i + 1]) == e + (if d.result.Enqueue? then [nodes[i]] else [])
      && Walked(h, visit, nodes[..i + 1]) == Walked(h, visit, nodes[..i])[nodes[i] := RefFields(d.referent,
           if d.result.Enqueue? && e != [] then Some(Last(e)) else None)]
  {
    assert nodes[..i + 1][..i] == nodes[..i];
  }

  /** Walking only touches the slots of the walked nodes. */
  lemma {:induction false} WalkedFrame(h: map<ObjId, RefFields>, visit: Visitor, nodes: seq<ObjId>, o: ObjId)
    requires InHeap(h, nodes)
    ensures Walked(h, visit, nodes).Keys == h.Keys
    ensures o !in nodes && o in h ==> Walked(h, visit, nodes)[o] == h[o]
  {
    if nodes != [] {
      var init := nodes[..|nodes| - 1];
      assert InHeap(h, init);
      WalkedFrame(h, visit, init, o);
      assert o !in nodes ==> o !in init;
    }
  }

  /** Only walked nodes are enqueued. */
  lemma {:induction false} EnqueuedWithin(h: map<ObjId, RefFields>, visit: Visitor, nodes: seq<ObjId>)
    requires InHeap(h, nodes)
    ensures var e := Enqueued(h, visit, nodes); forall k | 0 <= k < |e| :: e[k] in nodes
  {
    if nodes != [] {
      var init := nodes[..|nodes| - 1];
      assert InHeap(h, init);
      EnqueuedWithin(h, visit, init);
      assert forall k | 0 <= k < |Enqueued(h, visit, init)| :: Enqueued(h, visit, init)[k] in init;
      assert forall x | x in init :: x in nodes;
    }
  }

  /** The enqueued nodes are exactly the walked nodes the visitor enqueues,
      in list order, each once. */
  lemma {:induction false} EnqueuedSpec(h: map<ObjId, RefFields>, visit: Visitor, nodes: seq<ObjId>)
    requires InHeap(h, nodes)
    ensures var e := Enqueued(h, visit, nodes);
      && (forall k | 0 <= k < |e| :: e[k] in nodes)
      && (forall i | 0 <= i < |nodes| :: nodes[i] in e <==> Decision(h, visit, nodes[i]).result.Enqueue?)
      && (Distinct(nodes) ==> Distinct(e))
      && (e == [] <==> forall i | 0 <= i < |nodes| :: !Decision(h, visit, nodes[i]).result.Enqueue?)
  {
    if nodes != [] {
      var init := nodes[..|nodes| - 1];
      assert InHeap(h, init);
      EnqueuedSpec(h, visit, init);
      var e0 := Enqueued(h, visit, init);
      var e := Enqueued(h, visit, nodes);
      var n := Last(nodes);
      assert forall i | 0 <= i < |init| :: init[i] == nodes[i];
      assert nodes == init + [n];
      forall i | 0 <= i < |nodes|
        ensures nodes[i] in e <==> Decision(h, visit, nodes[i]).result.Enqueue?
      {
        if nodes[i] == n {
        } else {
          assert nodes[i] in init;
          var j :| 0 <= j < |init| && init[j] == nodes[i];
          assert nodes[i] in e0 <==> Decision(h, visit, init[j]).result.Enqueue?;
        }
      }
      if Distinct(nodes) {
        assert n !in init;
        assert forall k | 0 <= k < |e0| :: e0[k] in init;
      }
    }
  }

  /** After the walk every visited node carries the visitor's referent,
      and a node the visitor removes is unlinked. */
  lemma {:induction false} WalkedSlots(h: map<ObjId, RefFields>, visit: Visitor, nodes: seq<ObjId>)
    requires InHeap(h, nodes) && Distinct(nodes)
    ensures var w := Walked(h, visit, nodes);
      forall i | 0 <= i < |nodes| ::
        && nodes[i] in w
        && w[nodes[i]].referent == Decision(h, visit, nodes[i]).referent
        && (!Decision(h, visit, nodes[i]).result.Enqueue? ==> w[nodes[i]].discovered == None)
  {
    if nodes != [] {
      var init := nodes[..|nodes| - 1];
      assert InHeap(h, init);
      assert forall i | 0 <= i < |init| :: init[i] == nodes[i] && init[i] != Last(nodes);
      WalkedSlots(h, visit, init);
      WalkedFrame(h, visit, init, Last(nodes));
    }
  }

  /** After the walk the enqueued nodes form a list from the last enqueued
      to the first: the first one has no link and each later one links to
      the one enqueued before it. */
  lemma {:induction false} WalkedChain(h: map<ObjId, RefFields>, visit: Visitor, nodes: seq<ObjId>)
    requires InHeap(h, nodes) && Distinct(nodes)
    ensures var w := Walked(h, visit, nodes); var e := Enqueued(h, visit, nodes);
      && (e != [] ==> e[0] in w && w[e[0]].discovered == None)
      && (forall k | 0 < k < |e| :: e[k] in w && w[e[k]].discovered == Some(e[k - 1]))
  {
    if nodes != [] {
      var init := nodes[..|nodes| - 1];
      var n := Last(nodes);
      assert InHeap(h, init);
      assert n !in init;
      WalkedChain(h, visit, init);
      WalkedFrame(h, visit, init, n);
      EnqueuedWithin(h, visit, init);
      var e0 := Enqueued(h, visit, init);
      var e := Enqueued(h, visit, nodes);
      assert forall k | 0 <= k < |e0| :: e[k] == e0[k] && e0[k] != n;
    }
  }

  /** Null the `discovered` slot of the forwarded copy of `reference`, if
      it has one. */
  method ClearForwardedNext(heap: Heap, fwd: Forwarding, reference: ObjId)
    modifies heap
    ensures heap.fields == if fwd(reference) != None && fwd(reference).value in old(heap.fields)
                           then old(heap.fields)[fwd(reference).value := old(heap.fields)[fwd(reference).value].(discovered := None)]
                           else old(heap.fields)
  {
    var forwarded := fwd(reference);
    if forwarded != None && forwarded.value in heap.fields {
      heap.SetNextReference(forwarded.value, None);
    }
  }

  /** One node of iterate_list: null its link (and its copy's), hand it
      to the visitor, store the visitor's referent and, when the visitor
      enqueues it, link it to the current new head. */
  method VisitNode(heap: Heap, fwd: Forwarding, visit: Visitor, reference: ObjId, newHead: Option<ObjId>)
    returns (result: IterationResult, ghost seen: RefFields)
    requires reference in heap.fields && fwd(reference) == None
    requires EnqueuesVisited(visit)
    modifies heap
    ensures seen == RefFields(old(heap.fields)[reference].referent, None)
    ensures result == visit(reference, seen).result
    ensures heap.fields == old(heap.fields)[reference := RefFields(visit(reference, seen).referent,
      if result.Enqueue? && newHead != None then newHead else None)]
  {
    heap.SetNextReference(reference, None);
    ClearForwardedNext(heap, fwd, reference);
    seen := heap.fields[reference];
    var v := visit(reference, heap.fields[reference]);
    heap.SetReferent(reference, v.referent);
    result := v.result;
    match result {
      case Remove =>
      case Enqueue(enqueued) =>
        if newHead != None {
          heap.SetNextReference(enqueued, newHead);
        }
    }
  }

  /** iterate_list: walk the list starting at `head`, resolving each node
      and each successor through forwarding; null each node's link (and its
      copy's), hand it to the visitor, store the visitor's referent, and
      chain the enqueued nodes into a new list, newest first.  The result is
      None when nothing was enqueued, else (new head, new tail): the last
      and the first enqueued node. */
  method IterateList(heap: Heap, head: ObjId, fwd: Forwarding, visit: Visitor, ghost nodes: seq<ObjId>)
    returns (r: Option<(ObjId, ObjId)>, ghost visited: seq<(ObjId, RefFields)>)
    requires WalkShape(heap.fields, fwd, head, nodes)
    requires EnqueuesVisited(visit)
    modifies heap
    ensures heap.fields == Walked(old(heap.fields), visit, nodes)
    ensures var e := Enqueued(old(heap.fields), visit, nodes);
      r == if e == [] then None else Some((Last(e), e[0]))
    ensures |visited| == |nodes|
    ensures forall i | 0 <= i < |nodes| ::
      visited[i] == (nodes[i], RefFields(old(heap.fields)[nodes[i]].referent, None))
  {
    ghost var h0 := heap.fields;
    var newHead: Option<ObjId> := None;
    var newTail: Option<ObjId> := None;
    var reference := head;
    ghost var i := 0;
    visited := [];
    assert nodes[..0] == [];
    while true
      invariant 0 <= i < |nodes|
      invariant Forward(fwd, reference) == nodes[i]
      invariant heap.fields == Walked(h0, visit, nodes[..i])
      invariant var e := Enqueued(h0, visit, nodes[..i]);
        newHead == (if e == [] then None else Some(Last(e))) && newTail == (if e == [] then None else Some(e[0]))
      invariant |visited| == i
      invariant forall k | 0 <= k < i :: visited[k] == (nodes[k], RefFields(h0[nodes[k]].referent, None))
      decreases |nodes| - i
    {
      ghost var n := nodes[i];
      WalkStep(h0, visit, nodes, i);
      assert n !in nodes[..i];
      WalkedFrame(h0, visit, nodes[..i], n);
      if fwd(reference) != None {
        reference := fwd(reference).value;
      }
      var nextRef := ForwardNext(fwd, heap.GetNextReference(reference));
      assert nextRef == ForwardNext(fwd, h0[n].discovered);
      var endOfList := nextRef == Some(reference) || nextRef == None;
      assert i < |nodes| - 1 ==> nextRef == Some(nodes[i + 1]) && nodes[i + 1] != n;
      assert reference == n;
      var result, seen := VisitNode(heap, fwd, visit, reference, newHead);
      assert seen == RefFields(h0[n].referent, None);
      assert visit(n, seen) == Decision(h0, visit, n);
      visited := visited + [(reference, seen)];
      if result.Enqueue? {
        if newHead == None {
          newTail := Some(result.reference);
        }
        newHead := Some(result.reference);
      }
      if endOfList {
        assert nodes[..i + 1] == nodes;
        break;
      }
      reference := nextRef.value;
      i := i + 1;
    }
    if newHead == None {
      r := None;
    } else {
      r := Some((newHead.value, newTail.value));
    }
  }

  // ---------------------------------------------------------------------
  // The visitors of the processing packets (commented out in the source)

  /** The decision of ProcessDiscoveredList for a list of kind `rt`: a
      reference with no referent is dropped; a reachable referent, or any
      soft referent outside an emergency collection, is kept alive (the
      referent slot is set to its traced copy) and the reference dropped;
      otherwise the referent is cleared (kept for final references) and the
      reference enqueued. */
  function ClassifyReference(rt: ReferenceType, emergency: bool, reachable: ObjId -> bool, trace: ObjId -> ObjId): Visitor {
    (reference: ObjId, f: RefFields) =>
      match f.referent
      case None => Visit(Remove, None)
      case Some(referent) =>
        if reachable(referent) || (rt == Soft && !emergency) then Visit(Remove, Some(trace(referent)))
        else Visit(Enqueue(reference), if rt != Final then None else f.referent)
  }

  /** The decision of ResurrectFinalizables: the referent (if any) is traced
      and kept, and every reference is enqueued. */
  function ResurrectReference(trace: ObjId -> ObjId): Visitor {
    (reference: ObjId, f: RefFields) =>
      Visit(Enqueue(reference), match f.referent case None => None case Some(o) => Some(trace(o)))
  }

  /** The outcome of walking a list with the ProcessDiscoveredList visitor:
      for each node, its referent and whether it is on the new list. */
  lemma ClassifiedOutcome(h: map<ObjId, RefFields>, nodes: seq<ObjId>, rt: ReferenceType, emergency: bool,
                          reachable: ObjId -> bool, trace: ObjId -> ObjId, i: nat)
    requires InHeap(h, nodes) && Distinct(nodes) && i < |nodes|
    ensures var visit := ClassifyReference(rt, emergency, reachable, trace);
      var w := Walked(h, visit, nodes); var e := Enqueued(h, visit, nodes); var n := nodes[i];
      && EnqueuesVisited(visit)
      && n in w
      && match h[n].referent
         case None => w[n].referent == None && n !in e && w[n].discovered == None
         case Some(o) =>
           if reachable(o) || (rt == Soft && !emergency) then
             w[n].referent == Some(trace(o)) && n !in e && w[n].discovered == None
           else
             n in e && w[n].referent == (if rt == Final then Some(o) else None)
  {
    var visit := ClassifyReference(rt, emergency, reachable, trace);
    WalkedSlots(h, visit, nodes);
    EnqueuedSpec(h, visit, nodes);
  }

  /** Walking a final list with the ResurrectFinalizables visitor enqueues
      every node, in list order, and keeps each referent alive. */
  lemma ResurrectOutcome(h: map<ObjId, RefFields>, nodes: seq<ObjId>, trace: ObjId -> ObjId)
    requires InHeap(h, nodes) && Distinct(nodes)
    ensures var visit := ResurrectReference(trace); var w := Walked(h, visit, nodes);
      && EnqueuesVisited(visit)
      && Enqueued(h, visit, nodes) == nodes
      && forall i | 0 <= i < |nodes| :: nodes[i] in w &&
           w[nodes[i]].referent == (match h[nodes[i]].referent case None => None case Some(o) => Some(trace(o)))
  {
    var visit := ResurrectReference(trace);
    WalkedSlots(h, visit, nodes);
    ResurrectEnqueuesAll(h, trace, nodes);
  }

  lemma {:induction false} ResurrectEnqueuesAll(h: map<ObjId, RefFields>, trace: ObjId -> ObjId, nodes: seq<ObjId>)
    requires InHeap(h, nodes)
    ensures Enqueued(h, ResurrectReference(trace), nodes) == nodes
  {
    if nodes != [] {
      var init := nodes[..|nodes| - 1];
      assert InHeap(h, init);
      ResurrectEnqueuesAll(h, trace, init);
      assert init + [Last(nodes)] == nodes;
    }
  }

  /** A well shaped discovered list is walkable when nothing has moved. */
  lemma ListShapeWalks(h: map<ObjId, RefFields>, head: ObjId, nodes: seq<ObjId>)
    requires ListShape(h, Some(head), nodes)
    ensures WalkShape(h, _ => None, head, nodes)
  {
  }
}

/** The collector's calls into the binding that touch reference discovery
    and the concurrent-marking flag (mmtk/src/collection.rs).

    The binding's globals are the discovered-list registry and the byte
    CONCURRENT_MARKING_ACTIVE (mmtk/src/lib.rs:173).  Upcalls into the VM
    are recorded, in order, with the state of the discovery gate they
    observe. */
module Collection {
  import opened Wrappers
  import opened ReferenceGlue

  /** An upcall into the VM, with the discovery gate as it stands when the
      upcall is made. */
  datatype Upcall = ResumeMutators(gateOpen: bool)

  /** The globals these calls read and write. */
  class Globals {
    const discoveredLists: DiscoveredLists
    var concurrentMarkingActive: int
    var upcalls: seq<Upcall>

    constructor (discoveredLists: DiscoveredLists)
      ensures this.discoveredLists == discoveredLists
      ensures concurrentMarkingActive == 0 && upcalls == []
    {
      this.discoveredLists := discoveredLists;
      concurrentMarkingActive := 0;
      upcalls := [];
    }
  }

  /** resume_mutators: reopen the discovery gate, then ask the VM to resume
      its threads.  The object-size dump behind a cargo feature is not
      modelled. */
  method ResumeMutators(g: Globals)
    modifies g, g.discoveredLists
    ensures g.discoveredLists.allowDiscover
    ensures g.upcalls == old(g.upcalls) + [Upcall.ResumeMutators(true)]
    ensures g.discoveredLists.lists == old(g.discoveredLists.lists)
    ensures g.discoveredLists.nodes == old(g.discoveredLists.nodes)
    ensures g.concurrentMarkingActive == old(g.concurrentMarkingActive)
  {
    g.discoveredLists.EnableDiscover();
    g.upcalls := g.upcalls + [Upcall.ResumeMutators(g.discoveredLists.AllowDiscover())];
  }

  /** The value set_concurrent_marking_state stores. */
  function MarkingFlag(active: bool): (b: int)
    ensures b == 1 <==> active
    ensures b == 0 <==> !active
  {
    if active then 1 else 0
  }

  /** set_concurrent_marking_state: store 1 when marking is active, 0 otherwise. */
  method SetConcurrentMarkingState(g: Globals, active: bool)
    modifies g
    ensures g.concurrentMarkingActive == MarkingFlag(active)
    ensures g.upcalls == old(g.upcalls)
  {
    g.concurrentMarkingActive := MarkingFlag(active);
  }

  /** schedule_finalization is `unreachable!()`. */
  method ScheduleFinalization() returns (r: Result<()>)
    ensures r.Panic?
  {
    r := Panic("internal error: entered unreachable code");
  }

  /** process_weak_refs: process_soft_weak_final_refs on the registry, which
      closes the discovery gate first. */
  method ProcessWeakRefs(g: Globals, options: Options, ghost h: map<ObjId, RefFields>)
    returns (packets: seq<Packet>)
    requires g.discoveredLists.Valid(h)
    modifies g.discoveredLists
    ensures !g.discoveredLists.allowDiscover
    ensures g.discoveredLists.Valid(h)
    ensures var old_lists := old(g.discoveredLists.lists);
      packets ==
        (if options.noReferenceTypes then []
         else PacketsFor(Process(Soft), HeadsOf(old_lists[Soft])) + PacketsFor(Process(Weak), HeadsOf(old_lists[Weak])))
        + (if options.noFinalizer then [] else PacketsFor(Process(Final), HeadsOf(old_lists[Final])))
    ensures var old_lists := old(g.discoveredLists.lists);
      g.discoveredLists.lists ==
        if options.noReferenceTypes then old_lists
        else old_lists[Soft := Cleared(old_lists[Soft])][Weak := Cleared(old_lists[Weak])]
    ensures var old_nodes := old(g.discoveredLists.nodes);
      g.discoveredLists.nodes ==
        if options.noReferenceTypes then old_nodes
        else old_nodes[Soft := NoNodes(g.discoveredLists.workers)][Weak := NoNodes(g.discoveredLists.workers)]
  {
    packets := g.discoveredLists.ProcessSoftWeakFinalRefs(options, h);
  }

  /** process_final_refs: resurrect_final_refs on the registry. */
  method ProcessFinalRefs(g: Globals, options: Options, ghost h: map<ObjId, RefFields>)
    returns (r: Result<seq<Packet>>)
    requires g.discoveredLists.Valid(h)
    modifies g.discoveredLists
    ensures g.discoveredLists.Valid(h)
    ensures g.discoveredLists.allowDiscover == old(g.discoveredLists.allowDiscover)
    ensures options.noFinalizer ==>
      && r.Panic?
      && g.discoveredLists.lists == old(g.discoveredLists.lists)
      && g.discoveredLists.nodes == old(g.discoveredLists.nodes)
    ensures !options.noFinalizer ==>
      && r == Ok(PacketsFor(Resurrect, HeadsOf(old(g.discoveredLists.lists[Final]))))
      && g.discoveredLists.lists == old(g.discoveredLists.lists)[Final := Cleared(old(g.discoveredLists.lists[Final]))]
      && g.discoveredLists.nodes == old(g.discoveredLists.nodes)[Final := NoNodes(g.discoveredLists.workers)]
  {
    r := g.discoveredLists.ResurrectFinalRefs(options, h);
  }

  /** process_phantom_refs: process_phantom_refs on the registry. */
  method ProcessPhantomRefs(g: Globals, options: Options, ghost h: map<ObjId, RefFields>)
    returns (r: Result<seq<Packet>>)
    requires g.discoveredLists.Valid(h)
    modifies g.discoveredLists
    ensures g.discoveredLists.Valid(h)
    ensures g.discoveredLists.allowDiscover == old(g.discoveredLists.allowDiscover)
    ensures options.noReferenceTypes ==>
      && r.Panic?
      && g.discoveredLists.lists == old(g.discoveredLists.lists)
      && g.discoveredLists.nodes == old(g.discoveredLists.nodes)
    ensures !options.noReferenceTypes ==>
      && r == Ok(PacketsFor(Process(Phantom), HeadsOf(old(g.discoveredLists.lists[Phantom]))))
      && g.discoveredLists.lists == old(g.discoveredLists.lists)[Phantom := Cleared(old(g.discoveredLists.lists[Phantom]))]
      && g.discoveredLists.nodes == old(g.discoveredLists.nodes)[Phantom := NoNodes(g.discoveredLists.workers)]
  {
    r := g.discoveredLists.ProcessPhantomRefs(options, h);
  }
}

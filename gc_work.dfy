/** Root-scanning work packets (mmtk/src/gc_work.rs): the per-thread roots
    counter of the `roots_breakdown` feature, the names the root packets
    report under, and the code-cache root packet, which batches the cached
    nmethod slots into work packets and moves the nursery entries into the
    mature map.

    The two maps MATURE_CODE_CACHE_ROOTS and NURSERY_CODE_CACHE_ROOTS are
    fields of a class; the order in which a Rust HashMap yields its entries
    is not specified, so each walk takes its key order as a parameter. */
module GcWork {
  import opened Wrappers
  import opened Edges

  // ---------------------------------------------------------------------
  // The roots counter

  /** A line printed by report_roots: " - <name> roots count: <count>". */
  datatype Report = Report(name: string, count: Word)

  /** The sum of the lengths recorded, modulo 2^64. */
  function SumMod(lens: seq<Word>): Word {
    if lens == [] then 0 else (SumMod(lens[..|lens| - 1]) + Last(lens)) % Word64
  }

  /** The thread-local COUNT and the lines printed to stderr. */
  class RootsCounter {
    var count: Word
    var reports: seq<Report>
    /** The lengths recorded since the last report. */
    ghost var recorded: seq<Word>

    /** The counter holds the (wrapping) sum of what was recorded since the
        last report. */
    ghost predicate Valid()
      reads this
    {
      count == SumMod(recorded)
    }

    constructor ()
      ensures Valid() && count == 0 && reports == [] && recorded == []
    {
      count := 0;
      reports := [];
      recorded := [];
    }

    /** record_roots: a relaxed load, then a store of the sum. */
    method RecordRoots(len: Word)
      requires Valid()
      modifies this
      ensures Valid()
      ensures count == (old(count) + len) % Word64
      ensures recorded == old(recorded) + [len] && reports == old(reports)
    {
      var c := count;
      count := (c + len) % Word64;
      recorded := recorded + [len];
      assert recorded[..|recorded| - 1] == old(recorded);
    }

    /** report_roots: prints the count under `name`, then resets it to 0. */
    method ReportRoots(name: string)
      requires Valid()
      modifies this
      ensures Valid()
      ensures reports == old(reports) + [Report(name, SumMod(old(recorded)))]
      ensures count == 0 && recorded == []
    {
      var c := count;
      reports := reports + [Report(name, c)];
      count := 0;
      recorded := [];
    }
  }

  // ---------------------------------------------------------------------
  // Report names

  /** `&name[4..name.len() - 5]`: panics when the name is shorter than the
      nine characters that slice needs. */
  function ReportName(structName: string): (r: Result<string>)
    ensures r.Panic? <==> |structName| < 9
    ensures r.Ok? ==> |r.value| == |structName| - 9
    ensures r.Ok? ==> forall i | 0 <= i < |r.value| :: r.value[i] == structName[i + 4]
  {
    if |structName| < 9 then Panic("slice index out of range")
    else Ok(structName[4..|structName| - 5])
  }

  /** The name a `Scan<X>Roots` packet reports under is `<X>`. */
  lemma ReportNameStrips(x: string)
    ensures ReportName("Scan" + x + "Roots") == Ok(x)
  {
    var n := "Scan" + x + "Roots";
    assert n[4..|n| - 5] == x;
  }

  /** The root sets scan_roots_work! is instantiated for. */
  const RootSetNames: seq<string> := [
    "Universe", "JNIHandles", "ObjectSynchronizer",
    "Management", "JvmtiExport", "AOTLoader",
    "SystemDictionary", "VMThread"]

  /** The struct names of those instantiations, `ScanUniverseRoots` and so on. */
  const ScanRootsStructs: seq<string> :=
    seq(|RootSetNames|, i requires 0 <= i < |RootSetNames| => "Scan" + RootSetNames[i] + "Roots")

  /** Every instantiated packet reports under its root set's own name. */
  lemma ScanRootsNames()
    ensures |ScanRootsStructs| == |RootSetNames|
    ensures forall i | 0 <= i < |ScanRootsStructs| :: ReportName(ScanRootsStructs[i]) == Ok(RootSetNames[i])
  {
    forall i | 0 <= i < |ScanRootsStructs|
      ensures ReportName(ScanRootsStructs[i]) == Ok(RootSetNames[i])
    {
      ReportNameStrips(RootSetNames[i]);
    }
  }

  // ---------------------------------------------------------------------
  // Code-cache roots

  /** RootKind as far as the code-cache packet uses it. */
  datatype RootKind = Young | Weak

  /** A create_process_edge_roots_work call: the edges and their kind. */
  datatype Packet = Packet(kind: RootKind, edges: seq<Word>)

  /** Every batch holds exactly `bufferSize` edges. */
  ghost predicate AllFull(batches: seq<seq<Word>>, bufferSize: nat) {
    forall i | 0 <= i < |batches| :: |batches[i]| == bufferSize
  }

  /** The edges of the packets, batch by batch. */
  function EdgesOf(packets: seq<Packet>): (es: seq<seq<Word>>)
    ensures |es| == |packets| && forall i | 0 <= i < |packets| :: es[i] == packets[i].edges
  {
    if packets == [] then [] else EdgesOf(packets[..|packets| - 1]) + [Last(packets).edges]
  }

  /** The key order lists each key of `m` exactly once. */
  ghost predicate IsOrderOf(order: seq<Word>, m: map<Word, seq<Word>>) {
    Distinct(order) && (forall i | 0 <= i < |order| :: order[i] in m) && (forall k | k in m :: k in order)
  }

  /** The values of `m` concatenated in the order `order`. */
  function Concat(m: map<Word, seq<Word>>, order: seq<Word>): seq<Word>
    requires forall i | 0 <= i < |order| :: order[i] in m
  {
    if order == [] then [] else Concat(m, order[..|order| - 1]) + m[Last(order)]
  }

  /** Pushing `roots` one by one onto the pending edges, handing over a
      batch as soon as it reaches `bufferSize` (the inner loops of
      ScanCodeCacheRoots::do_work).  Every batch handed over is full and the
      pending edges stay below `bufferSize`. */
  method PushRoots(edges: seq<Word>, batches: seq<seq<Word>>, roots: seq<Word>, bufferSize: nat)
    returns (edges': seq<Word>, batches': seq<seq<Word>>)
    requires bufferSize > 0 && |edges| < bufferSize
    ensures Flatten(batches') + edges' == Flatten(batches) + edges + roots
    ensures |edges'| < bufferSize
    ensures |batches'| >= |batches| && batches'[..|batches|] == batches
    ensures AllFull(batches'[|batches|..], bufferSize)
  {
    edges', batches' := edges, batches;
    var i := 0;
    while i < |roots|
      invariant 0 <= i <= |roots|
      invariant Flatten(batches') + edges' == Flatten(batches) + edges + roots[..i]
      invariant |edges'| < bufferSize
      invariant |batches'| >= |batches| && batches'[..|batches|] == batches
      invariant AllFull(batches'[|batches|..], bufferSize)
    {
      assert roots[..i + 1] == roots[..i] + [roots[i]];
      calc {
        Flatten(batches') + (edges' + [roots[i]]);
        (Flatten(batches') + edges') + [roots[i]];
        (Flatten(batches) + edges + roots[..i]) + [roots[i]];
        Flatten(batches) + edges + (roots[..i] + [roots[i]]);
      }
      edges' := edges' + [roots[i]];
      if |edges'| >= bufferSize {
        FlattenAppend(batches', edges');
        assert batches' + [edges'] == (batches' + [edges'])[..|batches|] + (batches' + [edges'])[|batches|..];
        batches' := batches' + [edges'];
        edges' := [];
      }
      i := i + 1;
    }
    assert roots[..i] == roots;
  }

  /** Pushing the values of `m` in the order `order` (the mature loop of
      ScanCodeCacheRoots::do_work). */
  method PushAll(edges: seq<Word>, batches: seq<seq<Word>>, m: map<Word, seq<Word>>, order: seq<Word>, bufferSize: nat)
    returns (edges': seq<Word>, batches': seq<seq<Word>>)
    requires bufferSize > 0 && |edges| < bufferSize && AllFull(batches, bufferSize)
    requires forall i | 0 <= i < |order| :: order[i] in m
    ensures Flatten(batches') + edges' == Flatten(batches) + edges + Concat(m, order)
    ensures |edges'| < bufferSize && AllFull(batches', bufferSize)
  {
    edges', batches' := edges, batches;
    var i := 0;
    while i < |order|
      invariant 0 <= i <= |order|
      invariant Flatten(batches') + edges' == Flatten(batches) + edges + Concat(m, order[..i])
      invariant |edges'| < bufferSize && AllFull(batches', bufferSize)
    {
      assert order[..i + 1][..i] == order[..i];
      var before := batches';
      edges', batches' := PushRoots(edges', batches', m[order[i]], bufferSize);
      assert batches' == before + batches'[|before|..];
      i := i + 1;
    }
    assert order[..i] == order;
  }

  /** `base` after `insert(key, young[key])` for each key of `order` in turn. */
  function Moved(base: map<Word, seq<Word>>, young: map<Word, seq<Word>>, order: seq<Word>): map<Word, seq<Word>>
    requires forall i | 0 <= i < |order| :: order[i] in young
  {
    if order == [] then base else Moved(base, young, order[..|order| - 1])[Last(order) := young[Last(order)]]
  }

  /** The inserts add the entries of `young` named in `order` to `base`,
      replacing any entry `base` already had under that key. */
  lemma {:induction false} MovedSpec(base: map<Word, seq<Word>>, young: map<Word, seq<Word>>, order: seq<Word>)
    requires forall i | 0 <= i < |order| :: order[i] in young
    ensures Moved(base, young, order) == base + map k | k in order :: young[k]
  {
    if order != [] {
      var pre := order[..|order| - 1];
      MovedSpec(base, young, pre);
      assert forall k :: k in order <==> k in pre || k == Last(order);
    }
  }

  /** Inserting every entry of `young` merges it into `base`. */
  lemma MovedAll(base: map<Word, seq<Word>>, young: map<Word, seq<Word>>, order: seq<Word>)
    requires IsOrderOf(order, young)
    ensures Moved(base, young, order) == base + young
  {
    MovedSpec(base, young, order);
    assert (map k | k in order :: young[k]) == young;
  }

  /** The nursery loop of ScanCodeCacheRoots::do_work: each entry's roots
      are pushed and the entry is inserted into the mature map. */
  method PushAndMove(edges: seq<Word>, batches: seq<seq<Word>>, young: map<Word, seq<Word>>, order: seq<Word>,
                     mature: map<Word, seq<Word>>, bufferSize: nat)
    returns (edges': seq<Word>, batches': seq<seq<Word>>, mature': map<Word, seq<Word>>)
    requires bufferSize > 0 && |edges| < bufferSize && AllFull(batches, bufferSize)
    requires forall i | 0 <= i < |order| :: order[i] in young
    ensures Flatten(batches') + edges' == Flatten(batches) + edges + Concat(young, order)
    ensures |edges'| < bufferSize && AllFull(batches', bufferSize)
    ensures mature' == Moved(mature, young, order)
  {
    edges', batches', mature' := edges, batches, mature;
    var j := 0;
    while j < |order|
      invariant 0 <= j <= |order|
      invariant Flatten(batches') + edges' == Flatten(batches) + edges + Concat(young, order[..j])
      invariant |edges'| < bufferSize && AllFull(batches', bufferSize)
      invariant mature' == Moved(mature, young, order[..j])
    {
      assert order[..j + 1][..j] == order[..j];
      var key := order[j];
      var before := batches';
      edges', batches' := PushRoots(edges', batches', young[key], bufferSize);
      assert batches' == before + batches'[|before|..];
      mature' := mature'[key := young[key]];
      j := j + 1;
    }
    assert order[..j] == order;
  }

  /** One Young packet per batch, in order. */
  function YoungPackets(batches: seq<seq<Word>>): (packets: seq<Packet>)
    ensures |packets| == |batches|
    ensures forall i | 0 <= i < |packets| :: packets[i].kind == Young
    ensures EdgesOf(packets) == batches
  {
    if batches == [] then [] else YoungPackets(batches[..|batches| - 1]) + [Packet(Young, Last(batches))]
  }

  /** The final flush of ScanCodeCacheRoots::do_work: the full batches and,
      when edges are still pending, one last shorter batch, as Young packets. */
  function FinalPackets(edges: seq<Word>, batches: seq<seq<Word>>, bufferSize: nat): (packets: seq<Packet>)
    requires |edges| < bufferSize && AllFull(batches, bufferSize)
    ensures forall i | 0 <= i < |packets| :: packets[i].kind == Young && 0 < |packets[i].edges| <= bufferSize
    ensures forall i | 0 <= i < |packets| - 1 :: |packets[i].edges| == bufferSize
    ensures Flatten(EdgesOf(packets)) == Flatten(batches) + edges
  {
    var all := if edges == [] then batches else batches + [edges];
    FlattenAppend(batches, edges);
    var packets := YoungPackets(all);
    assert forall i | 0 <= i < |packets| :: packets[i].edges == all[i];
    packets
  }

  /** MATURE_CODE_CACHE_ROOTS and NURSERY_CODE_CACHE_ROOTS. */
  class CodeCacheRootMaps {
    var mature: map<Word, seq<Word>>
    var nursery: map<Word, seq<Word>>

    constructor (mature: map<Word, seq<Word>>, nursery: map<Word, seq<Word>>)
      ensures this.mature == mature && this.nursery == nursery
    {
      this.mature := mature;
      this.nursery := nursery;
    }

    /** ScanCodeCacheRoots::do_work.  The mature roots are emitted only when
        the plan scans all class-loader strong roots or unloads classes;
        the nursery map is taken, its roots are emitted and each entry is
        moved into the mature map.  Every packet is of kind Young, none is
        empty, all but the last hold exactly `bufferSize` edges, and the
        edges are the mature roots (if scanned) followed by the nursery
        roots, each once, in the walk orders. */
    method ScanCodeCacheRoots(scanAllRoots: bool, bufferSize: nat, matureOrder: seq<Word>, nurseryOrder: seq<Word>)
      returns (packets: seq<Packet>)
      requires bufferSize > 0
      requires IsOrderOf(matureOrder, mature) && IsOrderOf(nurseryOrder, nursery)
      modifies this
      ensures forall i | 0 <= i < |packets| :: packets[i].kind == Young && 0 < |packets[i].edges| <= bufferSize
      ensures forall i | 0 <= i < |packets| - 1 :: |packets[i].edges| == bufferSize
      ensures Flatten(EdgesOf(packets)) ==
        (if scanAllRoots then Concat(old(mature), matureOrder) else []) + Concat(old(nursery), nurseryOrder)
      ensures nursery == map[]
      ensures mature == old(mature) + old(nursery)
    {
      ghost var matureRoots := if scanAllRoots then Concat(mature, matureOrder) else [];
      var edges: seq<Word> := [];
      var batches: seq<seq<Word>> := [];
      if scanAllRoots {
        edges, batches := PushAll(edges, batches, mature, matureOrder, bufferSize);
      }
      assert Flatten(batches) + edges == matureRoots;
      var young := nursery;
      var old_mature := mature;
      nursery := map[];
      edges, batches, mature := PushAndMove(edges, batches, young, nurseryOrder, mature, bufferSize);
      assert Flatten(batches) + edges == matureRoots + Concat(young, nurseryOrder);
      MovedAll(old_mature, young, nurseryOrder);
      packets := FinalPackets(edges, batches, bufferSize);
    }
  }
}

/** The HotSpot-side root closures (openjdk/mmtkRootsClosure.hpp).

    MMTkRootsClosure2 and MMTkCollectRootObjects collect non-null roots
    into a buffer obtained from an edges closure: `invoke(buf, len, cap)`
    hands the first `len` entries to MMTk, which turns them into a work
    packet, and returns a fresh buffer.  The model records every batch
    handed over in `reported` and gives every fresh buffer the capacity
    `bufferSize`.  MMTkScanCLDClosure decides which class-loader data
    (CLDs) to scan, and MMTkScanObjectClosure forwards every slot of an
    object to a trace callback, here the sequence `traced`. */
module RootsClosure {
  import opened Wrappers
  import opened Edges

  /** The value `RawAccess<>::oop_load(p)` reads from a slot: the low 32
      bits for a narrow slot, the whole word otherwise.  0 is null. */
  function LoadedOop(cells: map<Word, Word>, p: Word, narrow: bool): Word
    requires p in cells
  {
    if narrow then cells[p] % Word32 else cells[p]
  }

  /** What the root closures record for a slot `p`: with compressed oops a
      full-width slot is tagged with bit 63, after a `guarantee` that the
      bit was clear; otherwise the slot address itself. */
  function SlotEntry(compressedOops: bool, narrow: bool, p: Word): (r: Result<Word>)
    ensures r.Panic? <==> compressedOops && !narrow && !IsCompressed(p)
    ensures r.Ok? && compressedOops && !narrow ==> !IsCompressed(r.value) && UntaggedAddress(r.value) == p
    ensures r.Ok? && !(compressedOops && !narrow) ==> r.value == p
  {
    if compressedOops && !narrow then
      if p >= TagBit then Panic("guarantee(bit 63 of the slot is clear)") else Ok(Tagged(p))
    else Ok(p)
  }

  /** A recorded entry is an edge that reads and writes the slot it came
      from, and under compressed oops it is narrow exactly when the slot is. */
  lemma SlotEntryIsEdge(compressedOops: bool, narrow: bool, p: Word)
    requires p < TagBit
    ensures SlotEntry(compressedOops, narrow, p).Ok?
    ensures SlotOf(compressedOops, SlotEntry(compressedOops, narrow, p).value) == p
    ensures compressedOops ==> IsCompressed(SlotEntry(compressedOops, narrow, p).value) == narrow
  {
    if compressedOops && narrow {
      UntagCompressed(p);
    }
  }

  /** The entries MMTkRootsClosure2 records for the slots `ps` in order:
      null slots are skipped, the others are tagged as by SlotEntry; a
      failed guarantee aborts. */
  function RootEntries(cells: map<Word, Word>, compressedOops: bool, narrow: bool, ps: seq<Word>): (r: Result<seq<Word>>)
    requires forall i | 0 <= i < |ps| :: ps[i] in cells
    ensures r.Ok? ==> |r.value| <= |ps|
    ensures r.Ok? <==> forall i | 0 <= i < |ps| :: LoadedOop(cells, ps[i], narrow) != 0 ==> SlotEntry(compressedOops, narrow, ps[i]).Ok?
  {
    if ps == [] then Ok([])
    else
      var p := Last(ps);
      match RootEntries(cells, compressedOops, narrow, ps[..|ps| - 1])
      case Panic(m) => Panic(m)
      case Ok(es) =>
        if LoadedOop(cells, p, narrow) == 0 then Ok(es)
        else
          match SlotEntry(compressedOops, narrow, p)
          case Panic(m) => Panic(m)
          case Ok(e) => Ok(es + [e])
  }

  /** The entries MMTkScanObjectClosure traces for the slots `ps`: every
      slot, with no null filter, tagged as by SlotEntry. */
  function TracedEntries(compressedOops: bool, narrow: bool, ps: seq<Word>): (r: Result<seq<Word>>)
    ensures r.Ok? ==> |r.value| == |ps|
    ensures r.Ok? <==> forall i | 0 <= i < |ps| :: SlotEntry(compressedOops, narrow, ps[i]).Ok?
    ensures r.Ok? ==> forall i | 0 <= i < |ps| :: r.value[i] == SlotEntry(compressedOops, narrow, ps[i]).value
  {
    if ps == [] then Ok([])
    else
      match TracedEntries(compressedOops, narrow, ps[..|ps| - 1])
      case Panic(m) => Panic(m)
      case Ok(es) =>
        match SlotEntry(compressedOops, narrow, Last(ps))
        case Panic(m) => Panic(m)
        case Ok(e) => Ok(es + [e])
  }

  /** Without compressed oops nothing is tagged: the traced entries are the
      slots themselves. */
  lemma {:induction false} TracedUncompressed(narrow: bool, ps: seq<Word>)
    ensures TracedEntries(false, narrow, ps) == Ok(ps)
  {
    if ps != [] {
      TracedUncompressed(narrow, ps[..|ps| - 1]);
      assert ps[..|ps| - 1] + [Last(ps)] == ps;
    }
  }

  /** The decoded object MMTkCollectRootObjects records for a non-null slot:
      `CompressedOops::decode` of a narrow value, the reference itself
      otherwise. */
  function DecodedOop(cells: map<Word, Word>, enc: CompressedOops, p: Word, narrow: bool): Word
    reads enc
    requires p in cells
  {
    var v := LoadedOop(cells, p, narrow);
    if narrow then Decompress(enc.base, enc.shift, v) else v
  }

  /** A slot holding a compressed reference `o` makes
      MMTkCollectRootObjects record `o` itself; a full slot holding `o`
      records `o` too. */
  lemma CollectsTheObject(cells: map<Word, Word>, enc: CompressedOops, p: Word, narrow: bool, o: Word)
    requires narrow ==> Encodable(enc.base, enc.shift, o)
    ensures DecodedOop(cells[p := if narrow then Compress(enc.base, enc.shift, o) else o], enc, p, narrow) == o
  {
    if narrow {
      DecompressCompress(enc.base, enc.shift, o);
    }
  }

  /** The `_buffer`, `_cap` and `_cursor` fields the two buffering closures
      share, with the batches handed to the edges closure so far. */
  class RootBuffer {
    var buffer: array<Word>
    var cap: nat
    var cursor: nat
    /** The batches passed to `_edges_closure.invoke`, in order. */
    var reported: seq<seq<Word>>
    /** Set once the destructor has released the buffer. */
    var released: bool
    /** The capacity of every buffer the edges closure hands back. */
    const bufferSize: nat

    /** The buffer is live, `_cap` is its length, and the cursor is below it. */
    ghost predicate Valid()
      reads this
    {
      && buffer.Length == cap == bufferSize
      && cursor < cap
      && !released
    }

    /** Every root recorded so far: the batches handed over, then the
        entries still in the buffer. */
    ghost function Recorded(): seq<Word>
      reads this, buffer
      requires cursor <= buffer.Length
    {
      Flatten(reported) + buffer[..cursor]
    }

    /** The constructor: `invoke(NULL, 0, 0)` hands nothing over and
        returns the first buffer; the cursor starts at 0. */
    constructor (bufferSize: nat)
      requires bufferSize > 0
      ensures this.bufferSize == bufferSize
      ensures Valid() && fresh(buffer)
      ensures cursor == 0 && reported == [] && Recorded() == []
    {
      this.bufferSize := bufferSize;
      buffer := new Word[bufferSize];
      cap := bufferSize;
      cursor := 0;
      reported := [];
      released := false;
    }

    /** flush: at cursor 0 nothing happens; otherwise exactly the `_cursor`
        buffered entries are handed over, the returned buffer and capacity
        are installed and the cursor is reset. */
    method Flush()
      requires buffer.Length == cap && cursor <= cap && cap == bufferSize > 0 && !released
      modifies this
      ensures Valid()
      ensures old(cursor) == 0 ==> buffer == old(buffer) && reported == old(reported) && cursor == 0
      ensures old(cursor) > 0 ==> reported == old(reported) + [old(buffer[..cursor])] && cursor == 0 && fresh(buffer)
      ensures Recorded() == old(Recorded())
      ensures released == old(released)
    {
      if cursor > 0 {
        FlattenAppend(reported, buffer[..cursor]);
        reported := reported + [buffer[..cursor]];
        buffer := new Word[bufferSize];
        cap := bufferSize;
        cursor := 0;
      }
    }

    /** `_buffer[_cursor++] = e`, then a flush as soon as the buffer is full,
        so that the cursor stays below the capacity. */
    method Push(e: Word)
      requires Valid()
      modifies this, buffer
      ensures Valid()
      ensures Recorded() == old(Recorded()) + [e]
      ensures old(cursor) + 1 < cap ==> cursor == old(cursor) + 1 && reported == old(reported) && buffer == old(buffer)
      ensures old(cursor) + 1 == old(cap) ==> cursor == 0 && reported == old(reported) + [old(buffer[..cursor]) + [e]] && fresh(buffer)
    {
      buffer[cursor] := e;
      cursor := cursor + 1;
      assert buffer[..cursor] == old(buffer[..cursor]) + [e];
      if cursor >= cap {
        Flush();
      }
    }

    /** The destructor: remaining entries are flushed, then the buffer is
        released; every recorded root has then been handed over. */
    method Close()
      requires Valid()
      modifies this
      ensures released && cursor == 0
      ensures old(cursor) > 0 ==> reported == old(reported) + [old(buffer[..cursor])]
      ensures old(cursor) == 0 ==> reported == old(reported)
      ensures Flatten(reported) == old(Recorded())
    {
      if cursor > 0 {
        Flush();
      }
      released := true;
    }
  }

  /** MMTkRootsClosure2: buffers the (tagged) slot addresses of non-null roots. */
  class RootsClosure2 {
    const buf: RootBuffer
    const compressedOops: bool

    constructor (bufferSize: nat, compressedOops: bool)
      requires bufferSize > 0
      ensures this.compressedOops == compressedOops
      ensures fresh(buf) && fresh(buf.buffer) && buf.Valid() && buf.Recorded() == [] && buf.reported == []
    {
      buf := new RootBuffer(bufferSize);
      this.compressedOops := compressedOops;
    }

    /** do_oop_work: a null slot is skipped; otherwise the slot's entry is
        buffered (or the guarantee fails). */
    method DoOop(mem: Memory, p: Word, narrow: bool) returns (r: Result<()>)
      requires buf.Valid() && p in mem.cells
      modifies buf, buf.buffer
      ensures buf.Valid()
      ensures buf.buffer == old(buf.buffer) || fresh(buf.buffer)
      ensures r.Panic? <==> RootEntries(mem.cells, compressedOops, narrow, [p]).Panic?
      ensures r.Ok? ==> buf.Recorded() == old(buf.Recorded()) + RootEntries(mem.cells, compressedOops, narrow, [p]).value
      ensures r.Panic? ==> buf.Recorded() == old(buf.Recorded())
    {
      assert [p][..0] == [];
      if LoadedOop(mem.cells, p, narrow) != 0 {
        var e := SlotEntry(compressedOops, narrow, p);
        if e.Panic? {
          return Panic(e.message);
        }
        buf.Push(e.value);
      }
      return Ok(());
    }

    /** `oops_do` over the full-width slots `hs`: each goes through
        do_oop_work in order, stopping at a failed guarantee. */
    method OopsDo(mem: Memory, hs: seq<Word>) returns (r: Result<()>)
      requires buf.Valid()
      requires forall i | 0 <= i < |hs| :: hs[i] in mem.cells
      modifies buf, buf.buffer
      ensures buf.Valid()
      ensures buf.buffer == old(buf.buffer) || fresh(buf.buffer)
      ensures r.Ok? <==> RootEntries(mem.cells, compressedOops, false, hs).Ok?
      ensures r.Ok? ==> buf.Recorded() == old(buf.Recorded()) + RootEntries(mem.cells, compressedOops, false, hs).value
    {
      var i := 0;
      while i < |hs|
        invariant 0 <= i <= |hs|
        invariant buf.Valid()
        invariant buf.buffer == old(buf.buffer) || fresh(buf.buffer)
        invariant RootEntries(mem.cells, compressedOops, false, hs[..i]).Ok?
        invariant buf.Recorded() == old(buf.Recorded()) + RootEntries(mem.cells, compressedOops, false, hs[..i]).value
      {
        assert hs[..i + 1][..i] == hs[..i];
        var step := DoOop(mem, hs[i], false);
        assert [hs[i]][..0] == [];
        if step.Panic? {
          assert RootEntries(mem.cells, compressedOops, false, hs[..i + 1]).Panic?;
          RootEntriesPanicSticks(mem.cells, compressedOops, hs, i + 1);
          return step;
        }
        i := i + 1;
      }
      assert hs[..i] == hs;
      return Ok(());
    }
  }

  /** MMTkCollectRootObjects: buffers the decoded objects of non-null roots. */
  class CollectRootObjects {
    const buf: RootBuffer

    constructor (bufferSize: nat)
      requires bufferSize > 0
      ensures fresh(buf) && fresh(buf.buffer) && buf.Valid() && buf.Recorded() == [] && buf.reported == []
    {
      buf := new RootBuffer(bufferSize);
    }

    /** do_oop_work: a null slot is skipped; otherwise the decoded object is
        buffered, never the slot address. */
    method DoOop(mem: Memory, enc: CompressedOops, p: Word, narrow: bool)
      requires buf.Valid() && p in mem.cells
      modifies buf, buf.buffer
      ensures buf.Valid()
      ensures buf.buffer == old(buf.buffer) || fresh(buf.buffer)
      ensures LoadedOop(mem.cells, p, narrow) == 0 ==> buf.Recorded() == old(buf.Recorded())
      ensures LoadedOop(mem.cells, p, narrow) != 0 ==> buf.Recorded() == old(buf.Recorded()) + [DecodedOop(mem.cells, enc, p, narrow)]
    {
      if LoadedOop(mem.cells, p, narrow) != 0 {
        buf.Push(DecodedOop(mem.cells, enc, p, narrow));
      }
    }
  }

  /** The slice of ClassLoaderData the closures use: the modified-oops
      flag, the claim flag and the CLD's oop handles (full-width slots). */
  class Cld {
    var hasModifiedOops: bool
    var claimed: bool
    const handles: seq<Word>

    constructor (hasModifiedOops: bool, handles: seq<Word>)
      ensures this.hasModifiedOops == hasModifiedOops && this.handles == handles && !claimed
    {
      this.hasModifiedOops := hasModifiedOops;
      this.handles := handles;
      claimed := false;
    }
  }

  /** Whether MMTkScanCLDClosure<MODIFIED_ONLY, WEAK>::do_cld scans a CLD. */
  function ScansCld(modifiedOnly: bool, weak: bool, modified: bool): bool {
    if modifiedOnly then modified else modified || !weak
  }

  /** A MODIFIED_ONLY closure scans exactly the modified CLDs; a strong
      (non-WEAK) closure that is not MODIFIED_ONLY scans every CLD; a WEAK
      one scans exactly the modified ones. */
  lemma ScansCldCases(modifiedOnly: bool, weak: bool, modified: bool)
    ensures modifiedOnly ==> (ScansCld(modifiedOnly, weak, modified) <==> modified)
    ensures !modifiedOnly && !weak ==> ScansCld(modifiedOnly, weak, modified)
    ensures !modifiedOnly && weak ==> (ScansCld(modifiedOnly, weak, modified) <==> modified)
  {
  }

  /** MMTkScanCLDClosure: applies a roots closure to the CLDs it selects. */
  class ScanCldClosure {
    const modifiedOnly: bool
    const weak: bool
    const oopClosure: RootsClosure2

    constructor (modifiedOnly: bool, weak: bool, oopClosure: RootsClosure2)
      ensures this.modifiedOnly == modifiedOnly && this.weak == weak && this.oopClosure == oopClosure
    {
      this.modifiedOnly := modifiedOnly;
      this.weak := weak;
      this.oopClosure := oopClosure;
    }

    /** do_cld: a selected CLD has its modified flag cleared and its handles
        passed through the roots closure (`oops_do(closure, false, true)`,
        no claim); any other CLD is left alone. */
    method DoCld(mem: Memory, cld: Cld) returns (r: Result<()>)
      requires oopClosure.buf.Valid()
      requires forall i | 0 <= i < |cld.handles| :: cld.handles[i] in mem.cells
      modifies cld, oopClosure.buf, oopClosure.buf.buffer
      ensures oopClosure.buf.Valid()
      ensures cld.claimed == old(cld.claimed)
      ensures !ScansCld(modifiedOnly, weak, old(cld.hasModifiedOops)) ==>
        r.Ok? && cld.hasModifiedOops == old(cld.hasModifiedOops) && oopClosure.buf.Recorded() == old(oopClosure.buf.Recorded())
      ensures ScansCld(modifiedOnly, weak, old(cld.hasModifiedOops)) ==>
        && !cld.hasModifiedOops
        && (r.Ok? <==> RootEntries(mem.cells, oopClosure.compressedOops, false, cld.handles).Ok?)
        && (r.Ok? ==> oopClosure.buf.Recorded() == old(oopClosure.buf.Recorded()) + RootEntries(mem.cells, oopClosure.compressedOops, false, cld.handles).value)
    {
      if !ScansCld(modifiedOnly, weak, cld.hasModifiedOops) {
        return Ok(());
      }
      cld.hasModifiedOops := false;
      r := oopClosure.OopsDo(mem, cld.handles);
    }
  }

  /** Once a prefix of the slots makes the guarantee fail, so does the
      whole sequence. */
  lemma {:induction false} RootEntriesPanicSticks(cells: map<Word, Word>, compressedOops: bool, ps: seq<Word>, n: nat)
    requires n <= |ps|
    requires forall i | 0 <= i < |ps| :: ps[i] in cells
    requires RootEntries(cells, compressedOops, false, ps[..n]).Panic?
    ensures RootEntries(cells, compressedOops, false, ps).Panic?
    decreases |ps| - n
  {
    if n < |ps| {
      assert ps[..n + 1][..n] == ps[..n];
      RootEntriesPanicSticks(cells, compressedOops, ps, n + 1);
    } else {
      assert ps[..n] == ps;
    }
  }

  /** MMTkScanObjectClosure: passes every slot of an object to the trace
      callback, tagged like the roots, without looking at its contents. */
  class ScanObjectClosure {
    /** The slots passed to `_trace`, in order. */
    var traced: seq<Word>
    const compressedOops: bool
    const followClds: bool
    const claimClds: bool

    constructor (compressedOops: bool, followClds: bool, claimClds: bool)
      ensures traced == [] && this.compressedOops == compressedOops
      ensures this.followClds == followClds && this.claimClds == claimClds
    {
      traced := [];
      this.compressedOops := compressedOops;
      this.followClds := followClds;
      this.claimClds := claimClds;
    }

    /** do_oop_work: the slot is traced, tagged, whatever it holds. */
    method DoOop(p: Word, narrow: bool) returns (r: Result<()>)
      modifies this
      ensures r.Ok? <==> SlotEntry(compressedOops, narrow, p).Ok?
      ensures r.Ok? ==> traced == old(traced) + [SlotEntry(compressedOops, narrow, p).value]
      ensures r.Panic? ==> traced == old(traced)
    {
      var e := SlotEntry(compressedOops, narrow, p);
      if e.Panic? {
        return Panic(e.message);
      }
      traced := traced + [e.value];
      return Ok(());
    }

    /** do_metadata. */
    function DoMetadata(): bool
      reads this
    {
      followClds
    }

    /** do_cld (and do_klass on the klass's CLD): nothing unless CLDs are
        followed; a claiming closure skips a CLD that is already claimed
        and claims it otherwise; then every handle is traced. */
    method DoCld(cld: Cld) returns (r: Result<()>)
      modifies this, cld
      ensures cld.hasModifiedOops == old(cld.hasModifiedOops)
      ensures !followClds || (claimClds && old(cld.claimed)) ==> r.Ok? && traced == old(traced) && cld.claimed == old(cld.claimed)
      ensures followClds && !(claimClds && old(cld.claimed)) ==>
        && cld.claimed == (old(cld.claimed) || claimClds)
        && (r.Ok? <==> TracedEntries(compressedOops, false, cld.handles).Ok?)
        && (r.Ok? ==> traced == old(traced) + TracedEntries(compressedOops, false, cld.handles).value)
    {
      if !followClds {
        return Ok(());
      }
      if claimClds {
        if cld.claimed {
          return Ok(());
        }
        cld.claimed := true;
      }
      var hs := cld.handles;
      var i := 0;
      while i < |hs|
        invariant 0 <= i <= |hs|
        invariant cld.hasModifiedOops == old(cld.hasModifiedOops)
        invariant cld.claimed == (old(cld.claimed) || claimClds)
        invariant TracedEntries(compressedOops, false, hs[..i]).Ok?
        invariant traced == old(traced) + TracedEntries(compressedOops, false, hs[..i]).value
      {
        assert hs[..i + 1][..i] == hs[..i];
        var step := DoOop(hs[i], false);
        if step.Panic? {
          assert !SlotEntry(compressedOops, false, hs[i]).Ok?;
          return step;
        }
        i := i + 1;
      }
      assert hs[..i] == hs;
      return Ok(());
    }
  }
}

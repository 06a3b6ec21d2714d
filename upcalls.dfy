/** Upcalls from mmtk-core into the VM (openjdk/mmtkUpcalls.cpp): the
    semispace is-alive test, the forwarding closure and the mutator
    iterator.

    The object header is the first 64-bit word of the object; with the
    semispace plan its bits 56-57 say whether the object was forwarded,
    and its low 56 bits then hold the forwarding pointer. */
module Upcalls {
  import opened Wrappers
  import opened Edges
  import Api

  /** The start of the two semispaces and of the large object space. */
  const SS0Start: nat := 0x200_0000_0000
  const SS1Start: nat := 0x400_0000_0000
  const LosStart: nat := 0x800_0000_0000
  /** The size of each of these spaces. */
  const SpaceBytes: nat := 0x200_0000_0000

  /** 2^56: the forwarding bits start here. */
  const Bit56: nat := 0x100_0000_0000_0000

  /** `status & (3ull << 56) != 0`: bit 56 or bit 57 of the header is set. */
  function Forwarded(status: Word): (b: bool)
    ensures b <==> (status / Bit56) % 4 != 0
    ensures status < Bit56 ==> !b
  {
    status / Bit56 % 4 != 0
  }

  /** `status << 8 >> 8` on a `size_t`: the header shifted left by a byte
      (dropping its top byte) and back, which is the low 56 bits. */
  function ForwardingPointer(status: Word): (ptr: Word)
    ensures ptr == status % Bit56 && ptr < Bit56
  {
    var shifted := (status * 256) % Word64;
    ShiftDropsTopByte(status);
    shifted / 256
  }

  /** Shifting left by 8 in 64 bits and back right by 8 keeps the low 56 bits. */
  lemma ShiftDropsTopByte(status: Word)
    ensures (status * 256) % Word64 / 256 == status % Bit56
  {
    var lo := status % Bit56;
    var hi := status / Bit56;
    assert status == hi * Bit56 + lo;
    assert status * 256 == hi * Word64 + lo * 256;
    assert (status * 256) % Word64 == lo * 256;
  }

  /** A half-open address range. */
  predicate InRange(x: Word, start: nat, limit: nat) {
    start <= x < limit
  }

  /** The from-space and to-space of MMTkSSIsAliveClosure: with `high` the
      objects are being copied from SS0 to SS1, otherwise from SS1 to SS0.
      Each is 0x20000000000 bytes, they are disjoint, and neither meets the
      large object space. */
  function SemiSpaces(high: bool): (r: (nat, nat, nat, nat))
    ensures r.1 == r.0 + SpaceBytes && r.3 == r.2 + SpaceBytes
    ensures r.1 <= r.2 || r.3 <= r.0
    ensures r.1 <= LosStart && r.3 <= LosStart
    ensures {r.0, r.2} == {SS0Start, SS1Start}
  {
    var fromStart := if high then SS0Start else SS1Start;
    var toStart := if high then SS1Start else SS0Start;
    (fromStart, fromStart + SpaceBytes, toStart, toStart + SpaceBytes)
  }

  /** MMTkSSIsAliveClosure. */
  class SSIsAliveClosure {
    const fromStart: nat
    const fromLimit: nat
    const toStart: nat
    const toLimit: nat

    /** The constructor picks the spaces from the current direction `high`. */
    constructor (high: bool)
      ensures (fromStart, fromLimit, toStart, toLimit) == SemiSpaces(high)
      ensures Valid()
    {
      var (fs, fl, ts, tl) := SemiSpaces(high);
      fromStart, fromLimit, toStart, toLimit := fs, fl, ts, tl;
    }

    /** The two semispaces are disjoint and lie below the large object space. */
    predicate Valid() {
      (fromLimit <= toStart || toLimit <= fromStart) && fromLimit <= LosStart && toLimit <= LosStart
    }

    /** do_object_b.  With INLINE_IS_ALIVE (`inlineIsAlive`): a to-space
        object is alive, a from-space object is alive iff its header says
        it was forwarded, a large object is asked of mmtk_is_live, and
        anything else is dead.  Without it every non-null object is asked
        of mmtk_is_live.  `header` reads an object's first word and
        `isLive` is mmtk-core's liveness answer. */
    function DoObjectB(p: Word, inlineIsAlive: bool, header: Word -> Word, isLive: Word -> bool): (r: bool)
      requires Valid()
      ensures p == 0 ==> !r
      ensures p != 0 && !inlineIsAlive ==> (r <==> isLive(p))
      ensures p != 0 && inlineIsAlive && InRange(p, toStart, toLimit) ==> r
      ensures p != 0 && inlineIsAlive && InRange(p, fromStart, fromLimit) ==> (r <==> Forwarded(header(p)))
      ensures p != 0 && inlineIsAlive && InRange(p, LosStart, LosStart + SpaceBytes) ==> (r <==> isLive(p))
      ensures (inlineIsAlive && !InRange(p, toStart, toLimit) && !InRange(p, fromStart, fromLimit) &&
               !InRange(p, LosStart, LosStart + SpaceBytes)) ==> !r
    {
      if p == 0 then false
      else if inlineIsAlive then
        if InRange(p, toStart, toLimit) then true
        else if InRange(p, fromStart, fromLimit) then Forwarded(header(p))
        else if InRange(p, LosStart, LosStart + SpaceBytes) then Api.IsLive(p, isLive) != 0
        else false
      else Api.IsLive(p, isLive) != 0
    }
  }

  /** The slot value MMTkForwardClosure::do_oop leaves behind: null and
      unforwarded objects stay, a forwarded object is replaced by the
      pointer in its header. */
  function ForwardedSlot(cells: map<Word, Word>, slot: Word): (v: Word)
    requires slot in cells && (cells[slot] != 0 ==> cells[slot] in cells)
    ensures cells[slot] == 0 ==> v == 0
    ensures cells[slot] != 0 && !Forwarded(cells[cells[slot]]) ==> v == cells[slot]
    ensures cells[slot] != 0 && Forwarded(cells[cells[slot]]) ==> v == cells[cells[slot]] % Bit56
  {
    var o := cells[slot];
    if o == 0 then 0
    else if Forwarded(cells[o]) then ForwardingPointer(cells[o])
    else o
  }

  /** The forwarding the headers describe, as mmtk_get_forwarded_ref would
      report it. */
  function HeaderForwarding(cells: map<Word, Word>): Word -> Option<Word> {
    o => if o in cells && Forwarded(cells[o]) then Some(ForwardingPointer(cells[o])) else None
  }

  /** do_oop decodes the header inline, and agrees with the
      mmtk_get_forwarded_ref call left commented out beside it. */
  lemma ForwardedSlotIsForwardedRef(cells: map<Word, Word>, slot: Word)
    requires slot in cells && (cells[slot] != 0 ==> cells[slot] in cells)
    ensures ForwardedSlot(cells, slot) == Api.GetForwardedRef(cells[slot], HeaderForwarding(cells))
  {
  }

  /** MMTkForwardClosure. */
  class ForwardClosure {
    constructor ()
    {
    }

    /** do_oop(oop*): rewrite `slot` to the forwarded copy of the object
        it refers to, if that object was forwarded. */
    method DoOop(mem: Memory, slot: Word)
      requires slot in mem.cells && (mem.cells[slot] != 0 ==> mem.cells[slot] in mem.cells)
      modifies mem
      ensures mem.cells == old(mem.cells)[slot := ForwardedSlot(old(mem.cells), slot)]
    {
      var o := mem.cells[slot];
      if o == 0 {
        return;
      }
      var status := mem.cells[o];
      if Forwarded(status) {
        var ptr := ForwardingPointer(status);
        mem.cells := mem.cells[slot := ptr];
      }
    }
  }

  /** mmtk_get_next_mutator / mmtk_reset_mutator_iterator: a Java thread
      iterator that is recreated on the first call after a reset and after
      the end was reached.  `threads` is the snapshot the current iterator
      walks (the thread list when it was created), `next` its position. */
  class MutatorIterator {
    var start: bool
    var threads: seq<Word>
    var next: nat

    /** `mutator_iteration_start` starts out true. */
    constructor ()
      ensures start && threads == [] && next == 0
    {
      start := true;
      threads := [];
      next := 0;
    }

    /** mmtk_get_next_mutator.  `current` holds the addresses of the
        mutators of the live Java threads, none of them null.  The result
        is the next thread's mutator, or null at the end, which re-arms the
        start flag so that the following call begins again. */
    method GetNextMutator(current: seq<Word>) returns (m: Word)
      requires forall i | 0 <= i < |current| :: current[i] != 0
      requires !start ==> forall i | 0 <= i < |threads| :: threads[i] != 0
      modifies this
      ensures old(start) ==> threads == current
      ensures !old(start) ==> threads == old(threads)
      ensures var pos := if old(start) then 0 else old(next);
        if pos < |threads| then m == threads[pos] && m != 0 && next == pos + 1 && !start
        else m == 0 && start
      ensures !start ==> forall i | 0 <= i < |threads| :: threads[i] != 0
    {
      if start {
        threads := current;
        next := 0;
        start := false;
      }
      if next >= |threads| {
        start := true;
        return 0;
      }
      m := threads[next];
      next := next + 1;
    }

    /** mmtk_reset_mutator_iterator: the next call starts over. */
    method ResetMutatorIterator()
      modifies this
      ensures start && threads == old(threads) && next == old(next)
    {
      start := true;
    }
  }
}

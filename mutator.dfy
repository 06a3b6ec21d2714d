/** The allocation fast paths of MMTkMutatorContext::alloc
    (openjdk/mmtkMutator.cpp and its inline variant
    openjdk/mmtkMutator.inline.hpp).

    An immix allocator owns a bump region [cursor, limit) and, in the
    inline variant, a second region [large_cursor, large_limit) for
    medium objects.  Pointers are 64-bit words; `cursor + bytes` is a
    `uintptr_t` sum and wraps.  The slow-path allocation (`::alloc`) and
    `::post_alloc` are calls into mmtk-core: the model records them in
    order, and the address `::alloc` returns is a parameter (0 for
    nullptr). */
module Mutator {
  import opened Wrappers
  import opened Edges

  /** The allocation semantics the VM passes in; only Default and Los
      are told apart by the fast paths. */
  datatype Allocator = AllocatorDefault | AllocatorLos | AllocatorOther(semantics: nat)

  /** The tag of the plan's default allocator selector. */
  datatype SelectorTag = TagImmix | TagOther(tag: nat)

  /** default_allocator_selector: which kind of allocator, and which one of that kind. */
  datatype AllocatorSelector = AllocatorSelector(tag: SelectorTag, index: nat)

  /** A call into mmtk-core made by alloc. */
  datatype Call =
    | SlowAlloc(bytes: Word, allocator: Allocator)
    | PostAlloc(obj: Word, bytes: Word, allocator: Allocator)

  /** The four words of an immix allocator the fast paths use. */
  datatype Bounds = Bounds(cursor: Word, limit: Word, largeCursor: Word, largeLimit: Word)

  /** The medium-object threshold of the inline fast path. */
  const LargeCursorMinBytes: nat := 256

  /** One bump in [cursor, limit): when `cursor + bytes` (wrapping) is at
      most `limit`, the object is at the old cursor and the cursor moves to
      that sum.  Without wrap-around the object occupies exactly
      [cursor, cursor + bytes), inside the region. */
  function Bump(cursor: Word, limit: Word, bytes: Word): (r: Option<(Word, Word)>)
    ensures r.Some? <==> (cursor + bytes) % Word64 <= limit
    ensures r.Some? ==> r.value.0 == cursor && r.value.1 <= limit
    ensures r.Some? && cursor + bytes < Word64 ==>
      r.value.1 == cursor + bytes && cursor <= r.value.1 && r.value.1 - r.value.0 == bytes
  {
    var end := (cursor + bytes) % Word64;
    if end <= limit then Some((cursor, end)) else None
  }

  /** Two bumps in a row that do not wrap hand out adjacent, disjoint
      objects, the second starting where the first ends. */
  lemma BumpsAreDisjoint(cursor: Word, limit: Word, b1: Word, b2: Word)
    requires cursor + b1 < Word64 && Bump(cursor, limit, b1).Some?
    requires Bump(cursor, limit, b1).value.1 + b2 < Word64
    requires Bump(Bump(cursor, limit, b1).value.1, limit, b2).Some?
    ensures var first := Bump(cursor, limit, b1).value;
      var second := Bump(first.1, limit, b2).value;
      first.0 + b1 == second.0 && second.0 + b2 == second.1 && second.1 <= limit
  {
  }

  /** Where an allocation goes: a bump of the main region, a bump of the
      large region, or the slow path with the given allocator. */
  datatype Decision =
    | Fast(obj: Word, newCursor: Word)
    | LargeFast(obj: Word, newLargeCursor: Word)
    | Slow(allocator: Allocator)

  /** The allocator the slow path is called with: requests of at least
      max_non_los_default_alloc_bytes go to the large object space. */
  function SlowAllocator(bytes: Word, allocator: Allocator, maxNonLos: Word): (a: Allocator)
    ensures bytes >= maxNonLos ==> a == AllocatorLos
    ensures bytes < maxNonLos ==> a == allocator
  {
    if bytes >= maxNonLos then AllocatorLos else allocator
  }

  /** MMTkMutatorContext::alloc (mmtkMutator.cpp).  Below the LOS threshold,
      with an immix selector and the fast path enabled, a bump of the main
      region that fits is taken; everything else goes to the slow path. */
  function Decide(bytes: Word, allocator: Allocator, maxNonLos: Word, immixSelected: bool,
                  fastAllowed: bool, region: Bounds): (d: Decision)
    ensures bytes >= maxNonLos ==> d == Slow(AllocatorLos)
    ensures d.Fast? <==>
      bytes < maxNonLos && immixSelected && fastAllowed && Bump(region.cursor, region.limit, bytes).Some?
    ensures d.Fast? ==> d.obj == region.cursor && d.newCursor <= region.limit
    ensures !d.LargeFast?
    ensures d.Slow? ==> d.allocator == SlowAllocator(bytes, allocator, maxNonLos)
  {
    if bytes >= maxNonLos then Slow(AllocatorLos)
    else if immixSelected && fastAllowed && Bump(region.cursor, region.limit, bytes).Some? then
      var (obj, next) := Bump(region.cursor, region.limit, bytes).value;
      Fast(obj, next)
    else Slow(allocator)
  }

  /** The inline MMTkMutatorContext::alloc (mmtkMutator.inline.hpp).  As
      above without the disable_fast_alloc test; when the main region is
      full and the request is over 256 bytes, a bump of the large region
      that fits is taken instead. */
  function DecideInline(bytes: Word, allocator: Allocator, maxNonLos: Word, immixSelected: bool,
                        region: Bounds): (d: Decision)
    ensures bytes >= maxNonLos ==> d == Slow(AllocatorLos)
    ensures d.Fast? <==> bytes < maxNonLos && immixSelected && Bump(region.cursor, region.limit, bytes).Some?
    ensures d.Fast? ==> d.obj == region.cursor && d.newCursor <= region.limit
    ensures d.LargeFast? <==>
      && bytes < maxNonLos && immixSelected
      && Bump(region.cursor, region.limit, bytes).None?
      && bytes > LargeCursorMinBytes
      && Bump(region.largeCursor, region.largeLimit, bytes).Some?
    ensures d.LargeFast? ==> d.obj == region.largeCursor && d.newLargeCursor <= region.largeLimit
    ensures d.Slow? ==> d.allocator == SlowAllocator(bytes, allocator, maxNonLos)
  {
    if bytes >= maxNonLos then Slow(AllocatorLos)
    else if immixSelected then
      match Bump(region.cursor, region.limit, bytes)
      case Some((obj, next)) => Fast(obj, next)
      case None =>
        if bytes > LargeCursorMinBytes && Bump(region.largeCursor, region.largeLimit, bytes).Some? then
          var (obj, next) := Bump(region.largeCursor, region.largeLimit, bytes).value;
          LargeFast(obj, next)
        else Slow(allocator)
    else Slow(allocator)
  }

  /** The two variants agree whenever the large region is not used: with
      the fast path enabled, on requests of at most 256 bytes, or when the
      main region has room. */
  lemma InlineAgrees(bytes: Word, allocator: Allocator, maxNonLos: Word, immixSelected: bool, region: Bounds)
    requires bytes <= LargeCursorMinBytes || Bump(region.cursor, region.limit, bytes).Some?
             || Bump(region.largeCursor, region.largeLimit, bytes).None?
    ensures DecideInline(bytes, allocator, maxNonLos, immixSelected, region)
         == Decide(bytes, allocator, maxNonLos, immixSelected, true, region)
  {
  }

  /** The calls made after the fast paths fail: the slow-path allocation,
      then post_alloc only for a real object from a non-Default allocator. */
  function SlowCalls(bytes: Word, allocator: Allocator, o: Word): (cs: seq<Call>)
    ensures 1 <= |cs| <= 2 && cs[0] == SlowAlloc(bytes, allocator)
    ensures |cs| == 2 <==> o != 0 && allocator != AllocatorDefault
    ensures |cs| == 2 ==> cs[1] == PostAlloc(o, bytes, allocator)
  {
    [SlowAlloc(bytes, allocator)] + (if o != 0 && allocator != AllocatorDefault then [PostAlloc(o, bytes, allocator)] else [])
  }

  /** post_alloc never sees nullptr, and never runs for the Default allocator
      or after a fast-path allocation. */
  lemma PostAllocOnlyForObjects(bytes: Word, allocator: Allocator, maxNonLos: Word, immixSelected: bool,
                                fastAllowed: bool, region: Bounds, o: Word, c: Call)
    requires var d := Decide(bytes, allocator, maxNonLos, immixSelected, fastAllowed, region);
      d.Slow? && c in SlowCalls(bytes, d.allocator, o) && c.PostAlloc?
    ensures c.obj == o && o != 0 && c.allocator != AllocatorDefault
    ensures bytes >= maxNonLos ==> c.allocator == AllocatorLos
  {
  }

  /** An immix allocator's bump regions, updated in place by the fast paths. */
  class ImmixAllocator {
    var cursor: Word
    var limit: Word
    var largeCursor: Word
    var largeLimit: Word

    constructor (cursor: Word, limit: Word, largeCursor: Word, largeLimit: Word)
      ensures this.cursor == cursor && this.limit == limit
      ensures this.largeCursor == largeCursor && this.largeLimit == largeLimit
    {
      this.cursor := cursor;
      this.limit := limit;
      this.largeCursor := largeCursor;
      this.largeLimit := largeLimit;
    }

    function Region(): Bounds
      reads this
    {
      Bounds(cursor, limit, largeCursor, largeLimit)
    }
  }

  /** MMTkMutatorContext: the immix allocators of one mutator, and the
      calls it has made into mmtk-core. */
  class MutatorContext {
    const immix: seq<ImmixAllocator>
    var calls: seq<Call>

    constructor (immix: seq<ImmixAllocator>)
      ensures this.immix == immix && calls == []
    {
      this.immix := immix;
      calls := [];
    }

    /** The immix allocator a selector names, if it names one. */
    function Selected(selector: AllocatorSelector): set<ImmixAllocator>
      requires selector.tag == TagImmix ==> selector.index < |immix|
    {
      if selector.tag == TagImmix then {immix[selector.index]} else {}
    }

    /** The bounds of the selected allocator (all zero for a non-immix selector). */
    function SelectedRegion(selector: AllocatorSelector): Bounds
      requires selector.tag == TagImmix ==> selector.index < |immix|
      reads Selected(selector)
    {
      if selector.tag == TagImmix then immix[selector.index].Region() else Bounds(0, 0, 0, 0)
    }

    /** MMTkMutatorContext::alloc in mmtkMutator.cpp.  `slowResult` is what
        mmtk-core's alloc returns.  A fast allocation returns the old cursor
        and moves the cursor past the object, calling nothing; otherwise
        the slow path is called (with the LOS allocator at or above the
        threshold) and its result returned, with post_alloc for a real
        object from a non-Default allocator. */
    method Alloc(bytes: Word, allocator: Allocator, maxNonLos: Word, selector: AllocatorSelector,
                 disableFastAlloc: bool, slowResult: Word) returns (o: Word)
      requires maxNonLos != 0
      requires selector.tag == TagImmix ==> selector.index < |immix|
      modifies this, Selected(selector)
      ensures var r := old(SelectedRegion(selector));
        var d := Decide(bytes, allocator, maxNonLos, selector.tag == TagImmix, !disableFastAlloc, r);
        && SelectedRegion(selector) == (if d.Fast? then r.(cursor := d.newCursor) else r)
        && o == (if d.Fast? then d.obj else slowResult)
        && calls == old(calls) + (if d.Slow? then SlowCalls(bytes, d.allocator, slowResult) else [])
    {
      var alloc := allocator;
      if bytes >= maxNonLos {
        alloc := AllocatorLos;
      } else if selector.tag == TagImmix && !disableFastAlloc {
        var a := immix[selector.index];
        var cursor := a.cursor;
        var limit := a.limit;
        if (cursor + bytes) % Word64 <= limit {
          a.cursor := (cursor + bytes) % Word64;
          return cursor;
        }
      }
      o := slowResult;
      calls := calls + [SlowAlloc(bytes, alloc)];
      if o != 0 && alloc != AllocatorDefault {
        calls := calls + [PostAlloc(o, bytes, alloc)];
      }
    }

    /** The inline MMTkMutatorContext::alloc in mmtkMutator.inline.hpp: as
        Alloc without the disable_fast_alloc test, and with the large
        region tried for requests over 256 bytes when the main region is
        full. */
    method AllocInline(bytes: Word, allocator: Allocator, maxNonLos: Word, selector: AllocatorSelector,
                       slowResult: Word) returns (o: Word)
      requires maxNonLos != 0
      requires selector.tag == TagImmix ==> selector.index < |immix|
      modifies this, Selected(selector)
      ensures var r := old(SelectedRegion(selector));
        var d := DecideInline(bytes, allocator, maxNonLos, selector.tag == TagImmix, r);
        && SelectedRegion(selector) == (match d
             case Fast(_, next) => r.(cursor := next)
             case LargeFast(_, next) => r.(largeCursor := next)
             case Slow(_) => r)
        && o == (if d.Slow? then slowResult else d.obj)
        && calls == old(calls) + (if d.Slow? then SlowCalls(bytes, d.allocator, slowResult) else [])
    {
      var alloc := allocator;
      if bytes >= maxNonLos {
        alloc := AllocatorLos;
      } else if selector.tag == TagImmix {
        var a := immix[selector.index];
        var cursor := a.cursor;
        var limit := a.limit;
        if (cursor + bytes) % Word64 <= limit {
          a.cursor := (cursor + bytes) % Word64;
          return cursor;
        } else if bytes > LargeCursorMinBytes {
          var largeCursor := a.largeCursor;
          var largeLimit := a.largeLimit;
          if (largeCursor + bytes) % Word64 <= largeLimit {
            a.largeCursor := (largeCursor + bytes) % Word64;
            return largeCursor;
          }
        }
      }
      o := slowResult;
      calls := calls + [SlowAlloc(bytes, alloc)];
      if o != 0 && alloc != AllocatorDefault {
        calls := calls + [PostAlloc(o, bytes, alloc)];
      }
    }
  }
}

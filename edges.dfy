/** Compressed pointers, edges and edge ranges (mmtk/src/lib.rs).

    Addresses and object references are 64-bit words; a null reference is
    the word 0.  Rust's `usize` arithmetic in release builds wraps, and the
    model writes the wrap-around out where the source can reach it.
    Memory is a map from slot addresses to the value last stored there. */
module Edges {
  import opened Wrappers

  const Word64: nat := 0x1_0000_0000_0000_0000
  const Word32: nat := 0x1_0000_0000
  /** The edge tag: bit 63 (OpenJDKEdge::MASK). */
  const TagBit: nat := 0x8000_0000_0000_0000

  /** A `usize`, an `Address` or an `ObjectReference`. */
  type Word = x: int | 0 <= x < 0x1_0000_0000_0000_0000
  /** A `u32` narrow oop. */
  type Narrow = x: int | 0 <= x < 0x1_0000_0000

  /** 1 << k. */
  function Pow2(k: nat): (p: nat)
    ensures p >= 1
  {
    if k == 0 then 1 else 2 * Pow2(k - 1)
  }

  /** Multiplying by a positive `p` and dividing by it again gives `v` back. */
  lemma MulDiv(v: nat, p: nat)
    requires p >= 1
    ensures (v * p) / p == v && (v * p) % p == 0
  {
    var q := (v * p) / p;
    var r := (v * p) % p;
    assert v * p == q * p + r;
    assert (v - q) * p == r;
    MulCancel(0, v - q, p);
    MulCancel(v - q, 1, p);
  }

  /** For a positive `w`, `a * w <= b * w` means `a <= b`, and `a * w <
      b * w` means `a < b`. */
  lemma MulCancel(a: int, b: int, w: nat)
    requires w >= 1
    ensures a * w <= b * w ==> a <= b
    ensures a * w < b * w ==> a < b
  {
    assert (a - b) * w == a * w - b * w;
  }

  /** The quotient of `b` by a positive `p` lies between the multiples of `p` around `b`. */
  lemma DivBounds(b: nat, p: nat)
    requires p >= 1
    ensures 0 <= b / p && (b / p) * p <= b < (b / p) * p + p
  {
  }

  // ---------------------------------------------------------------------
  // Compressed oops

  /** compress: 0 for null, otherwise `(o - BASE) >> SHIFT` truncated to 32 bits. */
  function Compress(base: Word, shift: nat, o: Word): Narrow {
    if o == 0 then 0 else ((o - base) % Word64 / Pow2(shift)) % Word32
  }

  /** decompress: null for 0, otherwise `BASE + (v << SHIFT)`. */
  function Decompress(base: Word, shift: nat, v: Narrow): Word {
    if v == 0 then 0 else (base + (v * Pow2(shift)) % Word64) % Word64
  }

  /** Null is 0 both ways. */
  lemma CompressNull(base: Word, shift: nat)
    ensures Compress(base, shift, 0) == 0 && Decompress(base, shift, 0) == 0
  {
  }

  /** The references the encoding represents exactly: above BASE, a multiple
      of 1 << SHIFT away from it, and at most 2^32 - 1 steps away. */
  predicate Encodable(base: Word, shift: nat, o: Word) {
    o > base && (o - base) % Pow2(shift) == 0 && (o - base) / Pow2(shift) < Word32
  }

  /** decompress(compress(o)) == o for every encodable reference. */
  lemma DecompressCompress(base: Word, shift: nat, o: Word)
    requires Encodable(base, shift, o)
    ensures Compress(base, shift, o) != 0
    ensures Decompress(base, shift, Compress(base, shift, o)) == o
  {
    var p := Pow2(shift);
    var d := o - base;
    assert d % Word64 == d;
    var c := d / p;
    assert c * p == d;
    assert c != 0;
    assert Compress(base, shift, o) == c;
    assert (c * p) % Word64 == d;
  }

  /** compress(decompress(v)) == v whenever `BASE + (v << SHIFT)` does not wrap. */
  lemma CompressDecompress(base: Word, shift: nat, v: Narrow)
    requires base + v * Pow2(shift) < Word64
    ensures Compress(base, shift, Decompress(base, shift, v)) == v
  {
    if v != 0 {
      var p := Pow2(shift);
      var q := v * p;
      MulDiv(v, p);
      MulAtLeast(v, p);
      DecompressNoWrap(base, shift, v);
      var o := base + q;
      CompressAbove(base, shift, o);
      assert (o - base) / p == v;
    }
  }

  /** A positive multiple of a positive number is at least that number. */
  lemma MulAtLeast(v: nat, p: nat)
    requires p >= 1
    ensures v * p >= v
  {
    assert v * p == v * (p - 1) + v;
  }

  /** Without wrap-around, decompress is `BASE + (v << SHIFT)`. */
  lemma DecompressNoWrap(base: Word, shift: nat, v: Narrow)
    requires v != 0 && base + v * Pow2(shift) < Word64
    ensures Decompress(base, shift, v) == base + v * Pow2(shift)
  {
    var q := v * Pow2(shift);
    assert q % Word64 == q;
  }

  /** Above BASE, compress is the distance from BASE shifted down, truncated to 32 bits. */
  lemma CompressAbove(base: Word, shift: nat, o: Word)
    requires o > base
    ensures Compress(base, shift, o) == ((o - base) / Pow2(shift)) % Word32
  {
    assert (o - base) % Word64 == o - base;
  }

  /** 4 GiB and 32 GiB. */
  const G4: nat := 0x1_0000_0000
  const G32: nat := 0x8_0000_0000

  /** The (BASE, SHIFT) initialize_compressed_oops chooses for a heap
      ending at `heapEnd`: zero-based and unscaled up to 4 GiB, zero-based
      and scaled by 8 up to 32 GiB, otherwise based one page below the
      heap start.  `heap_start - 4096` wraps as `usize` does. */
  function EncodingBase(heapStart: Word, heapEnd: Word): Word {
    if heapEnd <= G32 then 0 else (heapStart - 4096) % Word64
  }

  function EncodingShift(heapEnd: Word): nat {
    if heapEnd <= G4 then 0 else 3
  }

  /** Every non-null, 8-byte-aligned address in the heap is encodable with
      the chosen parameters, as long as the heap (plus the page below it)
      spans at most 32 GiB; up to 4 GiB every non-null address is. */
  lemma EncodingCoversHeap(heapStart: Word, heapEnd: Word, o: Word)
    requires 4096 <= heapStart <= o < heapEnd && heapEnd - heapStart + 4096 <= G32
    requires heapEnd <= G4 || (o % 8 == 0 && heapStart % 8 == 0)
    ensures Encodable(EncodingBase(heapStart, heapEnd), EncodingShift(heapEnd), o)
  {
    assert Pow2(3) == 8 by {
      assert Pow2(1) == 2;
      assert Pow2(2) == 4;
    }
    var base := EncodingBase(heapStart, heapEnd);
    if heapEnd > G32 {
      assert base == heapStart - 4096;
      assert (o - base) % 8 == 0 by {
        assert o - base == (o - heapStart) + 4096;
      }
    }
  }

  /** The statics BASE and SHIFT, and the field-width statics
      USE_COMPRESSED_OOPS, LOG_BYTES_IN_FIELD and BYTES_IN_FIELD. */
  class CompressedOops {
    var base: Word
    var shift: nat
    var useCompressedOops: bool
    var logBytesInField: nat
    var bytesInField: nat

    /** The statics' initial values: no compression, 8-byte fields. */
    constructor ()
      ensures base == 0 && shift == 0 && !useCompressedOops
      ensures logBytesInField == 3 && bytesInField == 8
    {
      base := 0;
      shift := 0;
      useCompressedOops := false;
      logBytesInField := 3;
      bytesInField := 8;
    }

    /** init_compressed_oop_constants: compressed oops, 4-byte fields. */
    method InitCompressedOopConstants()
      modifies this
      ensures useCompressedOops && logBytesInField == 2 && bytesInField == 4
      ensures base == old(base) && shift == old(shift)
    {
      useCompressedOops := true;
      logBytesInField := 2;
      bytesInField := 4;
    }

    /** initialize_compressed_oops. */
    method InitializeCompressedOops(heapStart: Word, heapEnd: Word)
      modifies this
      ensures heapEnd <= G4 ==> base == 0 && shift == 0
      ensures G4 < heapEnd <= G32 ==> base == 0 && shift == 3
      ensures G32 < heapEnd ==> base == (heapStart - 4096) % Word64 && shift == 3
      ensures base == EncodingBase(heapStart, heapEnd) && shift == EncodingShift(heapEnd)
      ensures useCompressedOops == old(useCompressedOops)
      ensures logBytesInField == old(logBytesInField) && bytesInField == old(bytesInField)
    {
      if heapEnd <= G4 {
        base, shift := 0, 0;
      } else if heapEnd <= G32 {
        base, shift := 0, 3;
      } else {
        base, shift := (heapStart - 4096) % Word64, 3;
      }
    }
  }

  // ---------------------------------------------------------------------
  // Edges

  /** OpenJDKEdge::is_compressed: bit 63 is clear. */
  function IsCompressed(e: Word): (b: bool)
    ensures b <==> (e / TagBit) % 2 == 0
  {
    e < TagBit
  }

  /** OpenJDKEdge::untagged_address: `e << 1 >> 1` on a 64-bit word. */
  function UntaggedAddress(e: Word): (a: Word)
    ensures a < TagBit
    ensures a == e % TagBit
  {
    assert e * 2 % Word64 == 2 * (e % TagBit) by {
      if e >= TagBit {
        assert e * 2 == Word64 + 2 * (e - TagBit);
      }
    }
    (e * 2 % Word64) / 2
  }

  /** `a | (1 << 63)` for an address whose bit 63 is clear: how the root
      closures tag a full-width slot. */
  function Tagged(a: Word): (e: Word)
    requires a < TagBit
    ensures !IsCompressed(e)
    ensures UntaggedAddress(e) == a
  {
    a + TagBit
  }

  /** Untagging an untagged slot changes nothing. */
  lemma UntagCompressed(e: Word)
    requires IsCompressed(e)
    ensures UntaggedAddress(e) == e
  {
  }

  /** The memory the edges point into. */
  class Memory {
    var cells: map<Word, Word>

    constructor (cells: map<Word, Word>)
      ensures this.cells == cells
    {
      this.cells := cells;
    }
  }

  /** The slot an edge reads and writes: with compressed oops the tag is
      stripped first. */
  function SlotOf(compressed: bool, e: Word): Word {
    if compressed then UntaggedAddress(e) else e
  }

  /** The value OpenJDKEdge::store writes for `o`. */
  function StoredValue(enc: CompressedOops, compressed: bool, e: Word, o: Word): Word
    reads enc
  {
    if compressed && IsCompressed(e) then Compress(enc.base, enc.shift, o) else o
  }

  /** OpenJDKEdge::load on memory `cells`: with compressed oops an untagged
      edge holds a narrow oop (the low 32 bits of the cell) and is
      decompressed, a tagged one holds a full reference. */
  function LoadFrom(cells: map<Word, Word>, enc: CompressedOops, compressed: bool, e: Word): Word
    reads enc
    requires SlotOf(compressed, e) in cells
  {
    var v := cells[SlotOf(compressed, e)];
    if compressed && IsCompressed(e) then Decompress(enc.base, enc.shift, v % Word32) else v
  }

  /** A reference an edge can hold: anything in a full-width slot; null or
      an encodable reference in a narrow one. */
  predicate Representable(enc: CompressedOops, compressed: bool, e: Word, o: Word)
    reads enc
  {
    compressed && IsCompressed(e) ==> o == 0 || Encodable(enc.base, enc.shift, o)
  }

  /** A store followed by a load of the same edge gives the stored reference
      back, tagged or not, with or without compressed oops. */
  lemma StoreLoad(cells: map<Word, Word>, enc: CompressedOops, compressed: bool, e: Word, o: Word)
    requires Representable(enc, compressed, e, o)
    ensures LoadFrom(cells[SlotOf(compressed, e) := StoredValue(enc, compressed, e, o)], enc, compressed, e) == o
  {
    if compressed && IsCompressed(e) && o != 0 {
      var c := Compress(enc.base, enc.shift, o);
      assert c % Word32 == c;
      DecompressCompress(enc.base, enc.shift, o);
    }
  }

  /** OpenJDKEdge::load. */
  function Load(mem: Memory, enc: CompressedOops, compressed: bool, e: Word): Word
    reads mem, enc
    requires SlotOf(compressed, e) in mem.cells
  {
    LoadFrom(mem.cells, enc, compressed, e)
  }

  /** OpenJDKEdge::store. */
  method Store(mem: Memory, enc: CompressedOops, compressed: bool, e: Word, o: Word)
    modifies mem
    ensures mem.cells == old(mem.cells)[SlotOf(compressed, e) := StoredValue(enc, compressed, e, o)]
    ensures Representable(enc, compressed, e, o) ==> Load(mem, enc, compressed, e) == o
  {
    mem.cells := mem.cells[SlotOf(compressed, e) := StoredValue(enc, compressed, e, o)];
    if Representable(enc, compressed, e, o) {
      StoreLoad(old(mem.cells), enc, compressed, e, o);
    }
  }

  // ---------------------------------------------------------------------
  // Edge ranges and their iterators

  /** OpenJDKEdgeRange: the slots in [start, end). */
  datatype EdgeRange = EdgeRange(start: Word, end: Word)

  /** OpenJDKEdgeRange::bytes: `end - start`, wrapping. */
  function Bytes(r: EdgeRange): Word {
    (r.end - r.start) % Word64
  }

  /** OpenJDKEdgeRange::len: the range's bytes shifted down by
      LOG_BYTES_IN_FIELD, that is the number of whole fields it holds. */
  function Len(r: EdgeRange, logBytesInField: nat): (n: nat)
    ensures n * Pow2(logBytesInField) <= Bytes(r) < n * Pow2(logBytesInField) + Pow2(logBytesInField)
  {
    var b, p := Bytes(r), Pow2(logBytesInField);
    DivBounds(b, p);
    b / p
  }

  /** The slots from `cursor` below `limit`, `width` apart. */
  function RangeEdges(cursor: int, limit: int, width: nat): seq<int>
    requires width > 0
    decreases limit - cursor
  {
    if cursor >= limit then [] else [cursor] + RangeEdges(cursor + width, limit, width)
  }

  /** The iteration yields `cursor + i * width` for increasing `i`, all
      below `limit`, and just enough of them to cover [cursor, limit). */
  lemma {:induction false} RangeEdgesSpec(cursor: int, limit: int, width: nat)
    requires width > 0
    ensures var s := RangeEdges(cursor, limit, width);
      && (forall i | 0 <= i < |s| :: s[i] == cursor + i * width && s[i] < limit)
      && (cursor >= limit <==> s == [])
      && (cursor < limit ==> (|s| - 1) * width < limit - cursor <= |s| * width)
    decreases limit - cursor
  {
    if cursor < limit {
      RangeEdgesSpec(cursor + width, limit, width);
      var s := RangeEdges(cursor, limit, width);
      var t := RangeEdges(cursor + width, limit, width);
      assert s == [cursor] + t;
      forall i | 0 < i < |s|
        ensures s[i] == cursor + i * width
      {
        assert s[i] == t[i - 1];
        MulSucc(i - 1, width);
      }
      MulSucc(|t|, width);
    }
  }

  /** A multiple of `w` is its quotient times `w`. */
  lemma DivExact(b: nat, w: nat)
    requires w >= 1 && b % w == 0
    ensures (b / w) * w == b
  {
  }

  /** (a + 1) * w == a * w + w. */
  lemma MulSucc(a: int, w: int)
    ensures (a + 1) * w == a * w + w
  {
  }

  /** For a range of whole fields, iter_edges yields exactly len() slots. */
  lemma IterEdgesLen(r: EdgeRange, logBytesInField: nat)
    requires r.start <= r.end && Bytes(r) % Pow2(logBytesInField) == 0
    ensures |RangeEdges(r.start, r.end, Pow2(logBytesInField))| == Len(r, logBytesInField)
  {
    var w := Pow2(logBytesInField);
    var b := r.end - r.start;
    assert Bytes(r) == b;
    var n := Len(r, logBytesInField);
    assert n == b / w;
    DivExact(b, w);
    RangeEdgesSpec(r.start, r.end, w);
    var k := |RangeEdges(r.start, r.end, w)|;
    if b > 0 {
      assert n * w <= k * w;
      assert (k - 1) * w < n * w;
      MulCancel(n, k, w);
      MulCancel(k - 1, n, w);
    } else {
      assert n * w == 0;
      MulCancel(n, 0, w);
    }
  }

  /** AddressRangeIterator: the slots of a range, one field apart. */
  class AddressRangeIterator {
    var cursor: Word
    const limit: Word
    const width: Word
    ghost const start: Word
    ghost var yielded: seq<int>

    /** What is yielded so far and what is left make up the whole range,
        and the cursor cannot wrap past the top of the address space. */
    ghost predicate Valid()
      reads this
    {
      && width > 0 && limit + width <= Word64
      && yielded + RangeEdges(cursor, limit, width) == RangeEdges(start, limit, width)
    }

    /** OpenJDKEdgeRange::iter_edges: from the range's start to its end, one
        field (BYTES_IN_FIELD) at a time. */
    constructor (r: EdgeRange, bytesInField: Word)
      ensures cursor == r.start && limit == r.end && width == bytesInField && start == r.start
      ensures yielded == []
      ensures bytesInField > 0 && r.end + bytesInField <= Word64 ==> Valid()
    {
      cursor := r.start;
      limit := r.end;
      width := bytesInField;
      start := r.start;
      yielded := [];
    }

    /** next: the cursor while it is below the limit, then None forever. */
    method Next() returns (r: Option<Word>)
      modifies this
      ensures old(cursor) >= limit ==> r == None && cursor == old(cursor)
      ensures old(cursor) < limit ==> r == Some(old(cursor)) && cursor == (old(cursor) + width) % Word64
      ensures yielded == old(yielded) + (if r.Some? then [r.value as int] else [])
      ensures old(Valid()) ==> Valid()
    {
      if cursor >= limit {
        r := None;
      } else {
        var edge := cursor;
        if width > 0 && limit + width <= Word64 {
          assert RangeEdges(edge, limit, width) == [edge as int] + RangeEdges(edge + width, limit, width);
        }
        cursor := (cursor + width) % Word64;
        yielded := yielded + [edge as int];
        r := Some(edge);
      }
    }
  }

  /** The chunks from `cursor` up to `limit`, each `step` bytes but the last,
      which is clipped to `limit`. */
  function Chunks(cursor: int, limit: int, step: nat): seq<(int, int)>
    requires step > 0
    decreases limit - cursor
  {
    if cursor >= limit then []
    else
      var end := if cursor + step > limit then limit else cursor + step;
      [(cursor, end)] + Chunks(end, limit, step)
  }

  /** The chunks are non-empty, at most `step` long, contiguous, and cover
      [cursor, limit) exactly, all but the last being `step` long. */
  lemma {:induction false} ChunksSpec(cursor: int, limit: int, step: nat)
    requires step > 0
    ensures var c := Chunks(cursor, limit, step);
      && (cursor >= limit <==> c == [])
      && (c != [] ==> c[0].0 == cursor && Last(c).1 == limit)
      && (forall i | 0 <= i < |c| :: c[i].0 < c[i].1 <= c[i].0 + step)
      && (forall i | 0 <= i < |c| - 1 :: c[i].1 == c[i + 1].0 && c[i].1 == c[i].0 + step)
    decreases limit - cursor
  {
    if cursor < limit {
      var end := if cursor + step > limit then limit else cursor + step;
      ChunksSpec(end, limit, step);
      var c := Chunks(cursor, limit, step);
      var t := Chunks(end, limit, step);
      assert c == [(cursor, end)] + t;
      forall i | 0 < i < |c|
        ensures c[i] == t[i - 1]
      {
      }
      if t != [] {
        assert Last(c) == Last(t);
      }
    }
  }

  /** ChunkIterator: a range cut into chunks of `step` bytes. */
  class ChunkIterator {
    var cursor: Word
    const limit: Word
    const step: Word
    ghost const start: Word
    ghost var yielded: seq<(int, int)>

    /** What is yielded so far and what is left make up all the chunks of the
        range, and `cursor + step` cannot wrap. */
    ghost predicate Valid()
      reads this
    {
      && step > 0 && limit + step <= Word64
      && yielded + Chunks(cursor, limit, step) == Chunks(start, limit, step)
    }

    /** OpenJDKEdgeRange::chunks: `chunk_size << LOG_BYTES_IN_FIELD` bytes per chunk. */
    constructor (r: EdgeRange, chunkSize: Word, logBytesInField: nat)
      ensures cursor == r.start && limit == r.end && step == (chunkSize * Pow2(logBytesInField)) % Word64
      ensures start == r.start && yielded == []
      ensures step > 0 && r.end + step <= Word64 ==> Valid()
    {
      cursor := r.start;
      limit := r.end;
      step := (chunkSize * Pow2(logBytesInField)) % Word64;
      start := r.start;
      yielded := [];
    }

    /** next: the chunk from the cursor, `step` bytes long but clipped to the
        limit, until the limit is reached, then None forever. */
    method Next() returns (r: Option<(Word, Word)>)
      modifies this
      ensures old(cursor) >= limit ==> r == None && cursor == old(cursor)
      ensures old(cursor) < limit ==>
        var end := (old(cursor) + step) % Word64;
        && r == Some((old(cursor), if end > limit then limit else end))
        && cursor == r.value.1
      ensures yielded == old(yielded) + (if r.Some? then [(r.value.0 as int, r.value.1 as int)] else [])
      ensures old(Valid()) ==> Valid()
    {
      if cursor >= limit {
        r := None;
      } else {
        var s := cursor;
        var end := (s + step) % Word64;
        if end > limit {
          end := limit;
        }
        if step > 0 && limit + step <= Word64 {
          assert Chunks(s, limit, step) == [(s as int, end as int)] + Chunks(end, limit, step);
        }
        cursor := end;
        yielded := yielded + [(s as int, end as int)];
        r := Some((s, end));
      }
    }
  }
}

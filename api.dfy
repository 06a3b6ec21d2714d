/** The parts of the binding's C interface (mmtk/src/api.rs) that hold
    logic of their own: the code-cache root bookkeeping for compiled methods
    (nmethods), the address ranges of the array-copy barriers, and the null
    cases of the liveness and forwarding queries.

    The code-cache roots are the map CODE_CACHE_ROOTS from an nmethod's
    address to the slots it reported, with the counter
    CODE_CACHE_ROOTS_SIZE that is meant to track the map's total size
    (mmtk/src/lib.rs).  The thread-local NMETHOD_SLOTS buffer of the calling
    thread is the field `pending`. */
module Api {
  import opened Wrappers
  import opened Edges

  // ---------------------------------------------------------------------
  // Code-cache roots

  /** The state the nmethod functions share. */
  datatype NMethodRoots = NMethodRoots(pending: seq<Word>, roots: map<Word, seq<Word>>, size: nat)

  /** The number of slots the map holds, over all nmethods. */
  ghost function Total(m: map<Word, seq<Word>>): nat
    decreases |m|
  {
    if m == map[] then 0
    else
      var k :| k in m;
      assert |m - {k}| < |m| by {
        assert (m - {k}).Keys == m.Keys - {k};
      }
      |m[k]| + Total(m - {k})
  }

  /** Total is the size of any one entry plus the total of the rest. */
  lemma TotalRemove(m: map<Word, seq<Word>>, k: Word)
    requires k in m
    ensures Total(m) == |m[k]| + Total(m - {k})
    decreases |m|
  {
    var j :| j in m && Total(m) == |m[j]| + Total(m - {j});
    if j != k {
      assert (m - {j}).Keys == m.Keys - {j};
      assert (m - {k}).Keys == m.Keys - {k};
      TotalRemove(m - {j}, k);
      TotalRemove(m - {k}, j);
      assert m - {j} - {k} == m - {k} - {j};
    }
  }

  /** Installing an entry replaces whatever the key held before. */
  lemma TotalInsert(m: map<Word, seq<Word>>, k: Word, v: seq<Word>)
    ensures Total(m[k := v]) == Total(m - {k}) + |v|
    ensures k in m ==> Total(m[k := v]) == Total(m) - |m[k]| + |v| && |m[k]| <= Total(m)
    ensures k !in m ==> Total(m[k := v]) == Total(m) + |v|
  {
    TotalRemove(m[k := v], k);
    assert m[k := v] - {k} == m - {k};
    if k in m {
      TotalRemove(m, k);
    } else {
      assert m - {k} == m;
    }
  }

  /** The counter agrees with the map. */
  ghost predicate Exact(s: NMethodRoots) {
    s.size == Total(s.roots)
  }

  /** The counter is at least the map's total. */
  ghost predicate OverCounts(s: NMethodRoots) {
    s.size >= Total(s.roots)
  }

  /** The state before any nmethod is registered. */
  function Initial(): (s: NMethodRoots)
    ensures Exact(s) && s.pending == []
  {
    NMethodRoots([], map[], 0)
  }

  /** mmtk_add_nmethod_oop: the slot is appended to the thread's buffer. */
  function WithOop(s: NMethodRoots, addr: Word): (t: NMethodRoots)
    ensures t.pending == s.pending + [addr] && t.roots == s.roots && t.size == s.size
  {
    s.(pending := s.pending + [addr])
  }

  /** mmtk_register_nmethod as written: with an empty buffer nothing
      happens; otherwise the buffer is drained, its length is added to the
      counter, and `nm` is mapped to it, replacing any previous entry. */
  function RegisterAsWritten(s: NMethodRoots, nm: Word): (t: NMethodRoots)
    ensures s.pending == [] ==> t == s
    ensures s.pending != [] ==> t.pending == [] && t.roots == s.roots[nm := s.pending] && t.size == s.size + |s.pending|
  {
    if |s.pending| == 0 then s
    else NMethodRoots([], s.roots[nm := s.pending], s.size + |s.pending|)
  }

  /** The counter as written never falls below the map's total ... */
  lemma RegisterAsWrittenOverCounts(s: NMethodRoots, nm: Word)
    requires OverCounts(s)
    ensures OverCounts(RegisterAsWritten(s, nm))
  {
    if s.pending != [] {
      TotalInsert(s.roots, nm, s.pending);
    }
  }

  /** ... but registering an nmethod a second time counts its old slots
      twice: from an exact state with `nm` holding one slot, a new report
      of one slot leaves a counter of 2 for a map holding 1. */
  lemma RegisterAsWrittenDrifts(nm: Word, a: Word, b: Word)
    ensures var s := NMethodRoots([b], map[nm := [a]], 1);
      && Exact(s)
      && RegisterAsWritten(s, nm).size == 2
      && Total(RegisterAsWritten(s, nm).roots) == 1
      && !Exact(RegisterAsWritten(s, nm))
  {
    var m := map[nm := [a]];
    TotalRemove(m, nm);
    assert m - {nm} == map[];
    var m2 := map[nm := [b]];
    assert m[nm := [b]] == m2;
    TotalRemove(m2, nm);
    assert m2 - {nm} == map[];
  }

  /** mmtk_register_nmethod with the counter kept in step with the map: the
      replaced entry's slots are subtracted before the new ones are added. */
  function Registered(s: NMethodRoots, nm: Word): (t: NMethodRoots)
    requires OverCounts(s)
    ensures s.pending == [] ==> t == s
    ensures s.pending != [] ==> t.pending == [] && t.roots == s.roots[nm := s.pending]
    ensures Exact(s) ==> Exact(t)
    ensures OverCounts(t)
  {
    if |s.pending| == 0 then s
    else
      var old_ := if nm in s.roots then |s.roots[nm]| else 0;
      TotalInsert(s.roots, nm, s.pending);
      NMethodRoots([], s.roots[nm := s.pending], s.size - old_ + |s.pending|)
  }

  /** mmtk_unregister_nmethod: an unknown nmethod changes nothing; a known
      one is removed and exactly its slot count is subtracted. */
  function Unregistered(s: NMethodRoots, nm: Word): (t: NMethodRoots)
    requires OverCounts(s)
    ensures nm !in s.roots ==> t == s
    ensures nm in s.roots ==> t.roots == s.roots - {nm} && t.size == s.size - |s.roots[nm]| && t.pending == s.pending
    ensures Exact(s) ==> Exact(t)
    ensures OverCounts(t)
  {
    if nm in s.roots then
      TotalRemove(s.roots, nm);
      NMethodRoots(s.pending, s.roots - {nm}, s.size - |s.roots[nm]|)
    else s
  }

  /** CODE_CACHE_ROOTS, CODE_CACHE_ROOTS_SIZE and the calling thread's
      NMETHOD_SLOTS. */
  class CodeCacheRoots {
    var pending: seq<Word>
    var roots: map<Word, seq<Word>>
    var size: nat

    function State(): NMethodRoots
      reads this
    {
      NMethodRoots(pending, roots, size)
    }

    /** The counter tracks the total size of the map. */
    ghost predicate Valid()
      reads this
    {
      Exact(State())
    }

    constructor ()
      ensures Valid() && State() == Initial()
    {
      pending := [];
      roots := map[];
      size := 0;
    }

    /** mmtk_add_nmethod_oop. */
    method AddNMethodOop(addr: Word)
      requires Valid()
      modifies this
      ensures Valid()
      ensures State() == WithOop(old(State()), addr)
    {
      pending := pending + [addr];
    }

    /** mmtk_register_nmethod, keeping the counter exact. */
    method RegisterNMethod(nm: Word)
      requires Valid()
      modifies this
      ensures Valid()
      ensures State() == Registered(old(State()), nm)
    {
      if |pending| == 0 {
        return;
      }
      var slots := pending;
      pending := [];
      var replaced := if nm in roots then |roots[nm]| else 0;
      TotalInsert(roots, nm, slots);
      size := size - replaced + |slots|;
      roots := roots[nm := slots];
    }

    /** mmtk_unregister_nmethod. */
    method UnregisterNMethod(nm: Word)
      requires Valid()
      modifies this
      ensures Valid()
      ensures State() == Unregistered(old(State()), nm)
    {
      if nm in roots {
        TotalRemove(roots, nm);
        size := size - |roots[nm]|;
        roots := roots - {nm};
      }
    }
  }

  // ---------------------------------------------------------------------
  // Array-copy barriers

  /** `count << LOG_BYTES_IN_INT` with compressed oops, `count <<
      LOG_BYTES_IN_ADDRESS` otherwise, on a usize (bits shifted out are lost). */
  function CopyBytes(count: Word, compressedOops: bool): Word {
    (count * FieldBytes(compressedOops)) % Word64
  }

  /** The field width as a power of two: 2 with compressed oops, 3 otherwise. */
  function LogFieldBytes(compressedOops: bool): nat {
    if compressedOops then 2 else 3
  }

  /** The source and destination edge ranges mmtk_array_copy_pre and
      mmtk_array_copy_post hand to the barrier: [src, src + bytes) and
      [dst, dst + bytes), the additions wrapping. */
  function ArrayCopyRanges(src: Word, dst: Word, count: Word, compressedOops: bool): (EdgeRange, EdgeRange) {
    var bytes := CopyBytes(count, compressedOops);
    (EdgeRange(src, (src + bytes) % Word64), EdgeRange(dst, (dst + bytes) % Word64))
  }

  /** The bytes of one field. */
  function FieldBytes(compressedOops: bool): (w: nat)
    ensures w == Pow2(LogFieldBytes(compressedOops))
  {
    assert Pow2(2) == 4 && Pow2(3) == 8;
    if compressedOops then 4 else 8
  }

  /** A copy range that does not wrap holds exactly `count` fields, and its
      edges are `start + i * width` for i < count. */
  lemma CopyRangeCovers(start: Word, count: Word, compressedOops: bool)
    requires start + count * FieldBytes(compressedOops) < Word64
    ensures var r := EdgeRange(start, (start + CopyBytes(count, compressedOops)) % Word64);
      var es := RangeEdges(r.start, r.end, FieldBytes(compressedOops));
      && Len(r, LogFieldBytes(compressedOops)) == count
      && |es| == count
      && (forall i | 0 <= i < count :: es[i] == start + i * FieldBytes(compressedOops))
  {
    var w := FieldBytes(compressedOops);
    var r := EdgeRange(start, (start + CopyBytes(count, compressedOops)) % Word64);
    assert CopyBytes(count, compressedOops) == count * w;
    assert Bytes(r) == count * w;
    MulDiv(count, w);
    IterEdgesLen(r, LogFieldBytes(compressedOops));
    RangeEdgesSpec(r.start, r.end, w);
  }

  /** When neither range wraps, each holds exactly `count` fields and the
      ranges' edges are `src + i * width` and `dst + i * width` for i < count. */
  lemma ArrayCopyRangesCover(src: Word, dst: Word, count: Word, compressedOops: bool)
    requires src + count * FieldBytes(compressedOops) < Word64
    requires dst + count * FieldBytes(compressedOops) < Word64
    ensures var (s, d) := ArrayCopyRanges(src, dst, count, compressedOops);
      && Len(s, LogFieldBytes(compressedOops)) == count
      && Len(d, LogFieldBytes(compressedOops)) == count
      && |RangeEdges(s.start, s.end, FieldBytes(compressedOops))| == count
      && |RangeEdges(d.start, d.end, FieldBytes(compressedOops))| == count
      && (forall i | 0 <= i < count :: RangeEdges(s.start, s.end, FieldBytes(compressedOops))[i] == src + i * FieldBytes(compressedOops))
      && (forall i | 0 <= i < count :: RangeEdges(d.start, d.end, FieldBytes(compressedOops))[i] == dst + i * FieldBytes(compressedOops))
  {
    CopyRangeCovers(src, count, compressedOops);
    CopyRangeCovers(dst, count, compressedOops);
  }

  // ---------------------------------------------------------------------
  // Liveness and forwarding queries

  /** mmtk_is_live: 0 for a null object; otherwise the core's liveness answer as 0 or 1. */
  function IsLive(obj: Word, isLive: Word -> bool): (r: Word)
    ensures obj == 0 ==> r == 0
    ensures obj != 0 ==> (r == 1 <==> isLive(obj)) && r <= 1
  {
    if obj == 0 then 0 else if isLive(obj) then 1 else 0
  }

  /** mmtk_get_forwarded_ref: null stays null; otherwise the forwarded
      object if the core reports one, and the object itself if not. */
  function GetForwardedRef(obj: Word, forwarded: Word -> Option<Word>): (r: Word)
    ensures obj == 0 ==> r == 0
    ensures obj != 0 && forwarded(obj).None? ==> r == obj
    ensures obj != 0 && forwarded(obj).Some? ==> r == forwarded(obj).value
  {
    if obj == 0 then obj
    else match forwarded(obj)
      case Some(o) => o
      case None => obj
  }

  /** When forwarding targets are not forwarded again, asking twice gives
      the same answer as asking once. */
  lemma GetForwardedRefSettles(obj: Word, forwarded: Word -> Option<Word>)
    requires forall o: Word | forwarded(o).Some? :: forwarded(forwarded(o).value).None?
    ensures GetForwardedRef(GetForwardedRef(obj, forwarded), forwarded) == GetForwardedRef(obj, forwarded)
  {
  }
}

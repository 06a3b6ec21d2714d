/** The field-logging write barrier's fast-path test and the reference
    load barrier's condition (openjdk/barriers/mmtkFieldBarrier.cpp).

    Every field granule (8 bytes, or 4 with compressed oops) has one "log"
    bit in a side-metadata table: byte `base + (addr >> 6)` (`>> 5`), bit
    `(addr >> 3) & 7` (`(addr >> 2) & 7`).  The runtime, C1 and C2 paths
    each decide whether that bit is 1 (the field is not yet logged and the
    slow path must run).  Addresses are 64-bit words held as integers;
    metadata bytes and the 32-bit registers the compilers use are
    bit-vectors.  The metadata table is a function from byte addresses to
    byte values. */
module FieldBarrier {

  const Word64: int := 0x1_0000_0000_0000_0000
  const Word32: int := 0x1_0000_0000
  /** The smallest address whose intptr_t is negative. */
  const SignBit: int := 0x8000_0000_0000_0000

  /** A 64-bit machine word. */
  type Word = x: int | 0 <= x < 0x1_0000_0000_0000_0000

  /** The side-metadata table, byte by byte. */
  type Metadata = Word -> bv8

  /** kUnloggedValue: a log bit of 1 means the field is not yet logged. */
  const UnloggedValue: bv8 := 1

  /** SIDE_METADATA_BASE_ADDRESS and SIDE_METADATA_BASE_ADDRESS_COMPRESSED. */
  datatype Bases = Bases(uncompressed: Word, compressed: Word)

  /** side_metadata_base_address. */
  function SideMetadataBaseAddress(bases: Bases, compressedOops: bool): (b: Word)
    ensures compressedOops ==> b == bases.compressed
    ensures !compressedOops ==> b == bases.uncompressed
  {
    if compressedOops then bases.compressed else bases.uncompressed
  }

  /** A word read as an intptr_t. */
  function Signed(x: Word): int {
    if x < SignBit then x else x - Word64
  }

  /** `x >> k` on an intptr_t, for the divisor d == 2^k: an arithmetic shift
      (floor division of the signed value), read back as a word. */
  function ArithmeticShiftRight(x: Word, d: int): (r: Word)
    requires d == 4 || d == 8 || d == 32 || d == 64
    ensures x < SignBit ==> r == x / d
  {
    (Signed(x) / d) % Word64
  }

  /** The index of a slot's field granule: addr >>> 3, or addr >>> 2. */
  function Granule(compressedOops: bool, addr: Word): int {
    if compressedOops then addr / 4 else addr / 8
  }

  /** The metadata byte of a slot as the runtime computes it:
      base + (addr >> 6), or >> 5 with compressed oops. */
  function MetaByteAddress(bases: Bases, compressedOops: bool, addr: Word): Word {
    (SideMetadataBaseAddress(bases, compressedOops)
      + ArithmeticShiftRight(addr, if compressedOops then 32 else 64)) % Word64
  }

  /** The bit of a slot within its metadata byte as the runtime computes it:
      (addr >> 3) & 7, or (addr >> 2) & 7. */
  function BitIndex(compressedOops: bool, addr: Word): (s: int)
    ensures 0 <= s < 8
  {
    ArithmeticShiftRight(addr, if compressedOops then 4 else 8) % 8
  }

  /** x / (8d) == (x / d) / 8, and x / d == 8 * (x / (8d)) + (x / d) % 8. */
  lemma SplitGranule(x: nat, d: int)
    requires d == 4 || d == 8
    ensures x / d == 8 * (x / (8 * d)) + (x / d) % 8
  {
    var g := x / d;
    var q := g / 8;
    assert g == 8 * q + g % 8;
    assert x == d * g + x % d;
    assert x == (8 * d) * q + (d * (g % 8) + x % d);
    assert 0 <= d * (g % 8) + x % d < 8 * d;
    assert x / (8 * d) == q;
  }

  /** For a non-negative address the metadata byte offset and the bit index
      spell out the granule index: offset * 8 + bit == granule. */
  lemma ByteAndBitSpellGranule(bases: Bases, compressedOops: bool, addr: Word)
    requires addr < SignBit
    ensures ArithmeticShiftRight(addr, if compressedOops then 32 else 64) * 8 + BitIndex(compressedOops, addr)
            == Granule(compressedOops, addr)
  {
    SplitGranule(addr, if compressedOops then 4 else 8);
  }

  /** Adding the base modulo 2^64 is one-to-one. */
  lemma AddBaseInjective(base: Word, o1: Word, o2: Word)
    requires (base + o1) % Word64 == (base + o2) % Word64
    ensures o1 == o2
  {
    var s1 := base + o1;
    var s2 := base + o2;
    assert s1 == Word64 * (s1 / Word64) + s1 % Word64;
    assert s2 == Word64 * (s2 / Word64) + s2 % Word64;
    assert 0 <= s1 / Word64 <= 1 && 0 <= s2 / Word64 <= 1;
  }

  /** Two non-negative slot addresses share a log bit exactly when they lie
      in the same field granule. */
  lemma LogBitUnique(bases: Bases, compressedOops: bool, a1: Word, a2: Word)
    requires a1 < SignBit && a2 < SignBit
    ensures (&& MetaByteAddress(bases, compressedOops, a1) == MetaByteAddress(bases, compressedOops, a2)
             && BitIndex(compressedOops, a1) == BitIndex(compressedOops, a2))
            <==> Granule(compressedOops, a1) == Granule(compressedOops, a2)
  {
    ByteAndBitSpellGranule(bases, compressedOops, a1);
    ByteAndBitSpellGranule(bases, compressedOops, a2);
    var d := if compressedOops then 32 else 64;
    if MetaByteAddress(bases, compressedOops, a1) == MetaByteAddress(bases, compressedOops, a2) {
      AddBaseInjective(SideMetadataBaseAddress(bases, compressedOops),
        ArithmeticShiftRight(a1, d), ArithmeticShiftRight(a2, d));
    }
  }

  /** The log bit `bit` of a metadata byte. */
  function BitOf(byteVal: bv8, bit: int): bv8
    requires 0 <= bit < 8
  {
    (byteVal >> (bit as bv8)) & 1
  }

  /** The log bit of the slot's granule. */
  function LogBit(meta: Metadata, bases: Bases, compressedOops: bool, addr: Word): bv8 {
    BitOf(meta(MetaByteAddress(bases, compressedOops, addr)), BitIndex(compressedOops, addr))
  }

  /** MMTkFieldBarrierSetRuntime::object_reference_write_pre with the fast
      path compiled in: read the metadata byte, shift it right by the bit
      index, mask with 1, and take the slow call when that is kUnloggedValue. */
  function RuntimeWritePreSlow(meta: Metadata, bases: Bases, compressedOops: bool, addr: Word): (slow: bool)
    ensures slow <==> LogBit(meta, bases, compressedOops, addr) == 1
  {
    var byteVal := meta(MetaByteAddress(bases, compressedOops, addr));
    var shift := BitIndex(compressedOops, addr);
    (byteVal >> (shift as bv8)) & 1 == UnloggedValue
  }

  /** A T_BYTE load into a 32-bit register: the byte is sign-extended. */
  function SignExtendByte(b: bv8): (r: bv32)
    ensures r & 0xFF == b as bv32
  {
    if b < 0x80 then b as bv32 else (b as bv32) | 0xFFFF_FF00
  }

  /** Sign extension keeps the byte's own eight bits. */
  lemma SignExtendKeepsBits(b: bv8, s: bv8)
    requires s < 8
    ensures (SignExtendByte(b) >> s) & 1 == ((b >> s) & 1) as bv32
  {
  }

  /** The C1 path: offset = addr >>> 6 (5); the byte at base + offset is
      loaded sign-extended; shift = (addr >>> 3 (2)) & 7 in an int register
      holding the address's low 32 bits; the byte is shifted right
      logically by shift, masked with 1 and compared with 1. */
  function C1WritePreSlow(meta: Metadata, bases: Bases, compressedOops: bool, addr: Word): bool {
    var offset := addr / (if compressedOops then 32 else 64);
    var byteVal := SignExtendByte(meta((SideMetadataBaseAddress(bases, compressedOops) + offset) % Word64));
    var shift := (addr % Word32) / (if compressedOops then 4 else 8) % 8;
    (byteVal >> (shift as bv8)) & 1 == 1
  }

  /** The C2 path: meta_addr = base + (addr >>> 6 (5)); the byte is loaded
      sign-extended; shift = ConvL2I(addr >>> 3 (2)) & 7; the slow call is
      taken when ((byte >>> shift) & 1) != 0. */
  function C2WritePreSlow(meta: Metadata, bases: Bases, compressedOops: bool, addr: Word): bool {
    var metaAddr := (SideMetadataBaseAddress(bases, compressedOops) + addr / (if compressedOops then 32 else 64)) % Word64;
    var byteVal := SignExtendByte(meta(metaAddr));
    var shift := (addr / (if compressedOops then 4 else 8)) % Word32 % 8;
    (byteVal >> (shift as bv8)) & 1 != 0
  }

  /** With compressed oops (addr >>> 2): the low 32 bits of the address,
      or of the shifted address, give the same bit index. */
  lemma LowWordBitIndex4(addr: nat)
    ensures (addr % Word32) / 4 % 8 == (addr / 4) % 8
    ensures (addr / 4) % Word32 % 8 == (addr / 4) % 8
  {
    var q := addr / Word32;
    var r := addr % Word32;
    assert addr == 4 * (0x4000_0000 * q + r / 4) + r % 4;
    assert addr / 4 == 8 * (0x800_0000 * q) + r / 4;
    var g := addr / 4;
    assert g == 8 * (0x2000_0000 * (g / Word32)) + g % Word32;
  }

  /** Without compressed oops (addr >>> 3): the same for the 8-byte granule. */
  lemma LowWordBitIndex8(addr: nat)
    ensures (addr % Word32) / 8 % 8 == (addr / 8) % 8
    ensures (addr / 8) % Word32 % 8 == (addr / 8) % 8
  {
    var q := addr / Word32;
    var r := addr % Word32;
    assert addr == 8 * (0x2000_0000 * q + r / 8) + r % 8;
    assert addr / 8 == 8 * (0x400_0000 * q) + r / 8;
    var g := addr / 8;
    assert g == 8 * (0x2000_0000 * (g / Word32)) + g % Word32;
  }

  /** The compilers address the same metadata byte as the runtime. */
  lemma CompiledByteAddress(bases: Bases, compressedOops: bool, addr: Word)
    requires addr < SignBit
    ensures (SideMetadataBaseAddress(bases, compressedOops) + addr / (if compressedOops then 32 else 64)) % Word64
            == MetaByteAddress(bases, compressedOops, addr)
  {
    assert ArithmeticShiftRight(addr, if compressedOops then 32 else 64) == addr / (if compressedOops then 32 else 64);
  }

  /** The compilers compute the same bit index as the runtime. */
  lemma CompiledBitIndex(compressedOops: bool, addr: Word)
    requires addr < SignBit
    ensures (addr % Word32) / (if compressedOops then 4 else 8) % 8 == BitIndex(compressedOops, addr)
    ensures (addr / (if compressedOops then 4 else 8)) % Word32 % 8 == BitIndex(compressedOops, addr)
  {
    if compressedOops { LowWordBitIndex4(addr); } else { LowWordBitIndex8(addr); }
  }

  /** For every non-negative slot address, the C1 and C2 paths take the
      slow call exactly when the runtime path does. */
  lemma WritePrePathsAgree(meta: Metadata, bases: Bases, compressedOops: bool, addr: Word)
    requires addr < SignBit
    ensures C1WritePreSlow(meta, bases, compressedOops, addr) == RuntimeWritePreSlow(meta, bases, compressedOops, addr)
    ensures C2WritePreSlow(meta, bases, compressedOops, addr) == RuntimeWritePreSlow(meta, bases, compressedOops, addr)
  {
    var b := meta(MetaByteAddress(bases, compressedOops, addr));
    var s := BitIndex(compressedOops, addr);
    CompiledByteAddress(bases, compressedOops, addr);
    CompiledBitIndex(compressedOops, addr);
    SignExtendKeepsBits(b, s as bv8);
  }

  // ---------------------------------------------------------------------
  // The load barrier on reference loads

  /** MMTkFieldBarrierSetRuntime::load_reference: the slow call is made iff
      concurrent marking is active (the flag byte is 1) and the loaded value
      is not null. */
  function LoadReferenceSlow(concurrentMarkingActive: bv8, value: Word): (slow: bool)
    ensures slow <==> concurrentMarkingActive == 1 && value != 0
  {
    concurrentMarkingActive == 1 && value != 0
  }

  /** The assembler's load_at: only loads of oops through weak or phantom
      references get the barrier; it zeroes a register, moves the flag byte
      into its low byte, skips unless it equals 1, then skips when the
      loaded value is 0, and otherwise calls the slow path. */
  function AsmLoadAtSlow(onOop: bool, onWeak: bool, onPhantom: bool, concurrentMarkingActive: bv8, dst: Word): bool {
    if !(onOop && (onWeak || onPhantom)) then false
    else
      var tmp2: Word := concurrentMarkingActive as int;
      if tmp2 != 1 then false
      else if dst == 0 then false
      else true
  }

  /** On weak and phantom reference loads the assembler path calls the slow
      path exactly when the runtime path would; on other loads it never does. */
  lemma AsmLoadAgrees(onOop: bool, onWeak: bool, onPhantom: bool, concurrentMarkingActive: bv8, dst: Word)
    ensures onOop && (onWeak || onPhantom) ==>
      AsmLoadAtSlow(onOop, onWeak, onPhantom, concurrentMarkingActive, dst) == LoadReferenceSlow(concurrentMarkingActive, dst)
    ensures !(onOop && (onWeak || onPhantom)) ==> !AsmLoadAtSlow(onOop, onWeak, onPhantom, concurrentMarkingActive, dst)
  {
  }
}

/**
 * Block address translation (BAT) of the PowerPC software MMU: decoding a
 * BAT register pair into the entry the emulator keeps, the first-hit lookup
 * over the four entries of an array, the physical address of a hit and the
 * protection checks of instruction and data accesses (chapter 7.4 of the
 * PowerPC 32-bit programming environments manual).
 */
module PpcBat {
  import opened Wrappers

  /** A decoded BAT pair. */
  datatype BatEntry = BatEntry(access: bv32, prot: bv32, hiMask: bv32, physHi: bv32, bepi: bv32)

  /** The zero entry the emulator's static arrays start with. */
  const ZeroBat := BatEntry(0, 0, 0, 0, 0)

  /** The block-length field BL of an upper BAT register: bits 12..2. */
  function BlockLength(upper: bv32): bv32 {
    (upper >> 2) & 0x7FF
  }

  /**
   * The mask of the block-number bits: everything above bit 16 that BL does
   * not mark as offset.
   */
  function HiMask(upper: bv32): (m: bv32)
    ensures m & 0x1_FFFF == 0
    ensures m & 0xF000_0000 == 0xF000_0000
    ensures (m >> 17) & 0x7FF == !BlockLength(upper) & 0x7FF
  {
    !((BlockLength(upper) << 17) | 0x1_FFFF)
  }

  /** A BAT pair is used when its upper register has Vs or Vp set. */
  predicate PairValid(upper: bv32) {
    upper & 3 != 0
  }

  /** The entry decoded from an upper and a lower BAT register. */
  function DecodeBat(upper: bv32, lower: bv32): BatEntry {
    var m := HiMask(upper);
    BatEntry(upper & 3, lower & 3, m, lower & m, upper & m)
  }

  /** What every decoded entry satisfies: two-bit fields, and BEPI and the physical block inside the mask. */
  predicate WellFormed(e: BatEntry) {
    e.access < 4 && e.prot < 4 && e.hiMask & 0x1_FFFF == 0 &&
    e.bepi & !e.hiMask == 0 && e.physHi & !e.hiMask == 0
  }

  /** A decoded entry is well formed, and its access bits are zero exactly when the pair is unused. */
  lemma DecodeWellFormed(upper: bv32, lower: bv32)
    ensures WellFormed(DecodeBat(upper, lower))
    ensures PairValid(upper) <==> DecodeBat(upper, lower).access != 0
  {
    var m := HiMask(upper);
    TwoBits(upper);
    TwoBits(lower);
    InsideMask(upper, m);
    InsideMask(lower, m);
  }

  lemma TwoBits(x: bv32)
    ensures x & 3 < 4
  {
  }

  lemma InsideMask(x: bv32, m: bv32)
    ensures (x & m) & !m == 0
  {
  }

  /**
   * The entry array after an update of BAT pair `index`: the pair is decoded
   * into its entry when valid, and nothing changes otherwise.
   */
  function UpdatedBats(bats: seq<BatEntry>, index: nat, upper: bv32, lower: bv32): (r: seq<BatEntry>)
    requires index < |bats|
    ensures |r| == |bats|
    ensures forall k :: 0 <= k < |bats| && k != index ==> r[k] == bats[k]
    ensures r[index] == if PairValid(upper) then DecodeBat(upper, lower) else bats[index]
  {
    if PairValid(upper) then bats[index := DecodeBat(upper, lower)] else bats
  }

  /** The access bits of the current privilege: Vs (2) in supervisor mode, Vp (1) in user mode. */
  function AccessBits(msr: bv32): (ab: bv32)
    ensures ab == if msr & 0x4000 != 0 then 1 else 2
  {
    var pr: bv32 := if msr & 0x4000 != 0 then 1 else 0;
    ((pr ^ 1) << 1) | pr
  }

  /** Entry `e` translates `la` for an access with access bits `ab`. */
  predicate Hits(e: BatEntry, la: bv32, ab: bv32) {
    e.access & ab != 0 && la & e.hiMask == e.bepi
  }

  /** The first entry, in index order from `from`, that translates `la`. */
  function FirstHit(bats: seq<BatEntry>, la: bv32, ab: bv32, from: nat): (r: Option<nat>)
    requires from <= |bats|
    ensures r.Some? ==> from <= r.value < |bats| && Hits(bats[r.value], la, ab)
    ensures r.Some? ==> forall k :: from <= k < r.value ==> !Hits(bats[k], la, ab)
    ensures r.None? ==> forall k :: from <= k < |bats| ==> !Hits(bats[k], la, ab)
    decreases |bats| - from
  {
    if from == |bats| then None
    else if Hits(bats[from], la, ab) then Some(from)
    else FirstHit(bats, la, ab, from + 1)
  }

  /** The physical address of a hit: the physical block number and the offset bits of `la`. */
  function BatPhys(e: BatEntry, la: bv32): bv32 {
    e.physHi | (la & !e.hiMask)
  }

  /**
   * For a well-formed entry, the physical address keeps every offset bit of
   * `la`, among them the low 17.
   */
  lemma BatPhysOffset(e: BatEntry, la: bv32)
    requires WellFormed(e)
    ensures BatPhys(e, la) & !e.hiMask == la & !e.hiMask
    ensures BatPhys(e, la) & 0x1_FFFF == la & 0x1_FFFF
  {
  }

  /** For a well-formed entry, the block bits of the physical address are the entry's physical block number. */
  lemma BatPhysBlock(e: BatEntry, la: bv32)
    requires WellFormed(e)
    ensures BatPhys(e, la) & e.hiMask == e.physHi
  {
  }

  /** The outcome of block translation: no entry hit, or the protection and physical address of the hit. */
  datatype BatResult = BatMiss | BatHit(prot: bv32, pa: bv32)

  /** Block translation over an array of entries, as a function of the array. */
  function BlockTranslation(bats: seq<BatEntry>, la: bv32, ab: bv32): BatResult {
    match FirstHit(bats, la, ab, 0)
    case None => BatMiss
    case Some(i) => BatHit(bats[i].prot, BatPhys(bats[i], la))
  }

  /** An instruction fetch through a BAT hit faults when the block has no access (PP = 0). */
  predicate InstrBatFault(prot: bv32) {
    prot == 0
  }

  /** A data access through a BAT hit faults when PP = 0 or when PP is read-only (odd) and it writes. */
  predicate DataBatFault(prot: bv32, isWrite: bool) {
    prot == 0 || (prot & 1 != 0 && isWrite)
  }

  /**
   * The data BAT protection as the manual's table reads: reading needs PP
   * other than 0, writing needs PP = 2 (read/write).
   */
  lemma DataBatProtection(prot: bv32)
    requires prot < 4
    ensures !DataBatFault(prot, false) <==> prot != 0
    ensures !DataBatFault(prot, true) <==> prot == 2
    ensures !DataBatFault(prot, true) ==> !DataBatFault(prot, false) && !InstrBatFault(prot)
  {
  }
}

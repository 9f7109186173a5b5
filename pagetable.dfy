/**
 * Hashed page-table translation of the PowerPC software MMU (chapter 7.6 of
 * the PowerPC 32-bit programming environments manual): the PTEG address of a
 * hash, the PTE compare word, the first matching PTE of a group, the key and
 * PP protection check, the physical address of a page hit and the update of
 * the referenced and changed bits.
 */
module PpcPageTable {
  import opened Wrappers
  import opened PpcExceptions

  // ---------------------------------------------------------------------------
  // PTEG addressing.

  /**
   * The physical address of the PTEG of a hash: HTABORG's upper seven bits,
   * its next nine bits ORed with the hash bits that HTABMASK selects, and the
   * low ten hash bits above a 64-byte group offset.
   */
  function PtegAddr(sdr1: bv32, hash: bv32): (a: bv32)
    ensures a & 0x3F == 0
  {
    var a := sdr1 & 0xFE00_0000;
    var a := a | (sdr1 & 0x01FF_0000) | (((sdr1 & 0x1FF) << 16) & ((hash & 0x7_FC00) << 6));
    a | ((hash & 0x3FF) << 6)
  }

  /** Bits 6..15 of the PTEG address are the low ten bits of the hash; bits 25..31 are HTABORG's. */
  lemma PtegAddrLowBits(sdr1: bv32, hash: bv32)
    ensures (PtegAddr(sdr1, hash) >> 6) & 0x3FF == hash & 0x3FF
    ensures PtegAddr(sdr1, hash) & 0xFE00_0000 == sdr1 & 0xFE00_0000
  {
  }

  /** Bits 16..24 of the PTEG address: HTABORG's bits there, ORed with the hash bits 10..18 that HTABMASK lets through. */
  lemma PtegAddrMaskedBits(sdr1: bv32, hash: bv32)
    ensures (PtegAddr(sdr1, hash) >> 16) & 0x1FF == ((sdr1 >> 16) & 0x1FF) | (sdr1 & 0x1FF & (hash >> 10))
  {
  }

  // ---------------------------------------------------------------------------
  // PTEs and the group search.

  /** A page-table entry: its physical address and its two 32-bit words. */
  datatype Pte = Pte(addr: bv32, word0: bv32, word1: bv32)

  /** The word0 a matching PTE must hold: V set, the VSID, the hash-function bit H and the API. */
  function PteCheck(vsid: bv32, secondary: bool, pageIndex: bv32): bv32 {
    0x8000_0000 | (vsid << 7) | ((if secondary then 1 else 0) << 6) | (pageIndex >> 10)
  }

  /** The compare word has V set, and its API is the top six bits of the 16-bit page index. */
  lemma PteCheckValidApi(vsid: bv32, secondary: bool, pageIndex: bv32)
    requires vsid < 0x100_0000 && pageIndex < 0x1_0000
    ensures PteCheck(vsid, secondary, pageIndex) & 0x8000_0000 != 0
    ensures PteCheck(vsid, secondary, pageIndex) & 0x3F == pageIndex >> 10
  {
  }

  /** The VSID of the compare word, bits 7..30. */
  lemma PteCheckVsid(vsid: bv32, secondary: bool, pageIndex: bv32)
    requires vsid < 0x100_0000 && pageIndex < 0x1_0000
    ensures (PteCheck(vsid, secondary, pageIndex) >> 7) & 0xFF_FFFF == vsid
  {
  }

  /** The H bit of the compare word, bit 6. */
  lemma PteCheckHash(vsid: bv32, secondary: bool, pageIndex: bv32)
    requires vsid < 0x100_0000 && pageIndex < 0x1_0000
    ensures (PteCheck(vsid, secondary, pageIndex) >> 6) & 1 == if secondary then 1 else 0
  {
  }

  /** Among the PTEs of a group, the index of the first whose word0 is `check`. */
  function FirstMatch(pteg: seq<Pte>, check: bv32): (r: Option<nat>)
    ensures r.Some? ==> r.value < |pteg| && pteg[r.value].word0 == check
    ensures r.Some? ==> forall k :: 0 <= k < r.value ==> pteg[k].word0 != check
    ensures r.None? ==> forall k :: 0 <= k < |pteg| ==> pteg[k].word0 != check
  {
    if |pteg| == 0 then None
    else if pteg[0].word0 == check then Some(0)
    else match FirstMatch(pteg[1..], check)
      case None => None
      case Some(i) => Some(i + 1)
  }

  /** Physical memory, read as the big-endian 32-bit word at each byte address. */
  type PhysMem = bv32 -> bv32

  /** Word1 of the PTE at byte address `a`: RPN, R, C, WIMG and PP. */
  function Word1(mem: PhysMem, a: bv32): bv32 {
    mem(a + 4)
  }

  /** The PP bits of a PTE's word1. */
  function PpOf(word1: bv32): bv32 {
    word1 & 3
  }

  /** The PTE at byte address `a`. */
  function PteAt(mem: PhysMem, a: bv32): Pte {
    Pte(a, mem(a), Word1(mem, a))
  }

  /** The `n` PTEs from address `a` on, eight bytes apart. */
  function PtesFrom(mem: PhysMem, a: bv32, n: nat): (g: seq<Pte>)
    ensures |g| == n
    decreases n
  {
    if n == 0 then [] else [PteAt(mem, a)] + PtesFrom(mem, a + 8, n - 1)
  }

  /** The first of the PTEs from `a` is the one at `a`; the others start eight bytes on. */
  lemma PtesFromStep(mem: PhysMem, a: bv32, n: nat)
    requires n > 0
    ensures PtesFrom(mem, a, n)[0] == PteAt(mem, a)
    ensures PtesFrom(mem, a, n)[1..] == PtesFrom(mem, a + 8, n - 1)
  {
  }

  /**
   * The search of `n` PTEs from address `a` on, as the emulator walks them:
   * the address of the first whose word0 is `check`.
   */
  function SearchFrom(mem: PhysMem, a: bv32, check: bv32, n: nat): (r: Option<bv32>)
    ensures r.Some? ==> mem(r.value) == check
    decreases n
  {
    if n == 0 then None
    else if mem(a) == check then Some(a)
    else SearchFrom(mem, a + 8, check, n - 1)
  }

  /** The walk finds exactly the first matching PTE of the group: the one `FirstMatch` picks. */
  lemma {:induction false} SearchFromFirst(mem: PhysMem, a: bv32, check: bv32, n: nat)
    ensures var g := PtesFrom(mem, a, n);
      SearchFrom(mem, a, check, n) == match FirstMatch(g, check) case None => None case Some(i) => Some(g[i].addr)
    decreases n
  {
    if n > 0 {
      PtesFromStep(mem, a, n);
      SearchFromFirst(mem, a + 8, check, n - 1);
    }
  }

  /** The eight PTEs of the group at `base`. */
  function PtegAt(mem: PhysMem, base: bv32): (g: seq<Pte>)
    ensures |g| == 8
  {
    PtesFrom(mem, base, 8)
  }

  // ---------------------------------------------------------------------------
  // Protection.

  /** The key of an access: Kp (segment-register bit 29) in user mode, Ks (bit 30) in supervisor mode. */
  function Key(srVal: bv32, msrPr: bool): (key: bool)
    ensures key == if msrPr then (srVal >> 29) & 1 == 1 else (srVal >> 30) & 1 == 1
  {
    var pr: bv32 := if msrPr then 1 else 0;
    (((srVal >> 29) & 1) & pr) | (((srVal >> 30) & 1) & (pr ^ 1)) != 0
  }

  /** The page check: any access with key 1 and PP 0, a write with key 1 and PP 1, and any write with PP 3 fault. */
  predicate PageProtectionFault(key: bool, pp: bv32, isWrite: bool) {
    (key && (pp == 0 || (pp == 1 && isWrite))) || (pp == 3 && isWrite)
  }

  /**
   * The manual's access table: PP 2 is read/write for either key; a read is
   * refused only with key 1 and PP 0; a write is allowed with PP 2, or with
   * key 0 and PP 0 or 1.
   */
  lemma PageProtectionTable(key: bool, pp: bv32, isWrite: bool)
    requires pp < 4
    ensures pp == 2 ==> !PageProtectionFault(key, pp, isWrite)
    ensures !PageProtectionFault(key, pp, false) <==> !(key && pp == 0)
    ensures !PageProtectionFault(key, pp, true) <==> (pp == 2 || (!key && pp < 2))
  {
  }

  /** The physical address of a page hit: the page frame of word1 and the page offset of `la`. */
  function PagePhys(word1: bv32, la: bv32): bv32 {
    (word1 & 0xFFFF_F000) | (la & 0xFFF)
  }

  /** The page offset of the physical address is that of `la`, and its frame is word1's RPN. */
  lemma PagePhysSplit(word1: bv32, la: bv32)
    ensures PagePhys(word1, la) & 0xFFF == la & 0xFFF
    ensures PagePhys(word1, la) & 0xFFFF_F000 == word1 & 0xFFFF_F000
  {
  }

  /** word1 after an access: R (0x100) always set, C (0x80) set on a write. */
  function RcUpdate(word1: bv32, isWrite: bool): bv32 {
    word1 | 0x100 | (if isWrite then 0x80 else 0)
  }

  /** After an access R is set, and C is set exactly when it was already or the access writes. */
  lemma RcUpdateBits(word1: bv32, isWrite: bool)
    ensures RcUpdate(word1, isWrite) & 0x100 != 0
    ensures RcUpdate(word1, isWrite) & 0x80 != 0 <==> (word1 & 0x80 != 0 || isWrite)
  {
  }

  /** Bits other than R and C are kept, and a second identical access changes nothing more. */
  lemma RcUpdateKeeps(word1: bv32, isWrite: bool)
    ensures RcUpdate(word1, isWrite) & !0x180 == word1 & !0x180
    ensures RcUpdate(RcUpdate(word1, isWrite), isWrite) == RcUpdate(word1, isWrite)
  {
  }

  // ---------------------------------------------------------------------------
  // Page address translation.

  /** The segment register that maps `la`: the one numbered by its top four bits. */
  function SegmentOf(sr: seq<bv32>, la: bv32): bv32
    requires |sr| == 16
  {
    sr[((la >> 28) & 0xF) as int]
  }

  /** The 16-bit page index of an effective address. */
  function PageIndex(la: bv32): bv32 {
    (la >> 12) & 0xFFFF
  }

  /** The primary hash: the low 19 VSID bits XOR the page index. */
  function PrimaryHash(srVal: bv32, la: bv32): bv32 {
    (srVal & 0x7_FFFF) ^ PageIndex(la)
  }

  /** The 24-bit VSID of a segment register. */
  function Vsid(srVal: bv32): bv32 {
    srVal & 0xFF_FFFF
  }

  /** A PTE search: the address of the matching PTE, no match, or a PTEG outside RAM and ROM. */
  datatype PteSearch = Found(addr: bv32) | NotFound | Unmapped

  /**
   * The search of one PTEG. `mapped` says whether an address lies in a RAM or
   * ROM region of the memory map; a PTEG elsewhere ends emulation, as the
   * emulator has no page table there.
   */
  function SearchGroup(sdr1: bv32, mem: PhysMem, mapped: bv32 -> bool,
                       hash: bv32, check: bv32): (r: PteSearch)
    ensures r.Unmapped? <==> !mapped(PtegAddr(sdr1, hash))
    ensures r.Found? ==> mem(r.addr) == check
  {
    var base := PtegAddr(sdr1, hash);
    if !mapped(base) then Unmapped
    else match SearchFrom(mem, base, check, 8)
      case None => NotFound
      case Some(a) => Found(a)
  }

  /**
   * The search of the primary PTEG (H = 0, the primary hash) or of the
   * secondary one (H = 1, the complemented hash) for the page of `la`.
   */
  function GroupSearch(sdr1: bv32, mem: PhysMem, mapped: bv32 -> bool, srVal: bv32, la: bv32,
                       secondary: bool): PteSearch {
    SearchGroup(sdr1, mem, mapped, GroupHash(srVal, la, secondary),
                PteCheck(Vsid(srVal), secondary, PageIndex(la)))
  }

  /** The hash of the primary PTEG, or its complement for the secondary one. */
  function GroupHash(srVal: bv32, la: bv32, secondary: bool): bv32 {
    var hash := PrimaryHash(srVal, la);
    if secondary then !hash else hash
  }

  /** The primary PTEG is searched first; the secondary one only if it has no match. */
  function FindPte(sdr1: bv32, mem: PhysMem, mapped: bv32 -> bool, srVal: bv32, la: bv32): PteSearch {
    match GroupSearch(sdr1, mem, mapped, srVal, la, false)
    case NotFound => GroupSearch(sdr1, mem, mapped, srVal, la, true)
    case r => r
  }

  /** The outcome of page address translation: a physical address and the PTE used, a fault, or the end of emulation. */
  datatype PageOutcome = PageHit(pa: bv32, pteAddr: bv32) | PageFault(fault: Fault) | PageHalt

  /** The exception of an access with cause `cause`: an ISI for a fetch, a DSI recording the address otherwise. */
  function AccessFault(cause: bv32, la: bv32, isInstr: bool, isWrite: bool): Fault {
    if isInstr then Isi(cause) else Dsi(DsisrBits(cause, isWrite), la)
  }

  /**
   * Page address translation of `la`: the segment register, direct-store
   * and no-execute segments, the two PTEG searches, the key and PP check,
   * and the physical address.
   */
  function PageTranslation(sr: seq<bv32>, sdr1: bv32, mem: PhysMem, mapped: bv32 -> bool,
                           la: bv32, isInstr: bool, msrPr: bool, isWrite: bool): PageOutcome
    requires |sr| == 16
  {
    var srVal := SegmentOf(sr, la);
    if srVal & 0x8000_0000 != 0 then PageHalt
    else if srVal & NoExecute != 0 && isInstr then PageFault(Isi(NoExecute))
    else PageAccess(FindPte(sdr1, mem, mapped, srVal, la), Key(srVal, msrPr), mem, la, isInstr, isWrite)
  }

  /** The second half of page translation: from the PTE search and the key to the outcome. */
  function PageAccess(r: PteSearch, key: bool, mem: PhysMem, la: bv32, isInstr: bool, isWrite: bool): PageOutcome {
    match r
    case Unmapped => PageHalt
    case NotFound => PageFault(AccessFault(NoTranslation, la, isInstr, isWrite))
    case Found(a) =>
      var word1 := Word1(mem, a);
      if PageProtectionFault(key, PpOf(word1), isWrite) then
        PageFault(AccessFault(ProtectionViolation, la, isInstr, isWrite))
      else PageHit(PagePhys(word1, la), a)
  }

  /** Memory after the word at `a` is overwritten with `v`. */
  function WriteWord(mem: PhysMem, a: bv32, v: bv32): PhysMem {
    x => if x == a then v else mem(x)
  }

  /** Memory after an access: a hit updates R and C in word1 of its PTE; any other outcome changes nothing. */
  function AfterAccess(mem: PhysMem, o: PageOutcome, isWrite: bool): PhysMem {
    match o
    case PageHit(_, a) => WriteWord(mem, a + 4, RcUpdate(Word1(mem, a), isWrite))
    case _ => mem
  }

  /**
   * The PTE a translation finds matches the segment's VSID and the page
   * index, with H = 0 in the primary PTEG, or with H = 1 when the primary
   * PTEG has no match.
   */
  lemma FindPteMatches(sdr1: bv32, mem: PhysMem, mapped: bv32 -> bool, srVal: bv32, la: bv32)
    ensures FindPte(sdr1, mem, mapped, srVal, la).Found? ==>
      var a := FindPte(sdr1, mem, mapped, srVal, la).addr;
      mem(a) == PteCheck(Vsid(srVal), false, PageIndex(la)) ||
      (GroupSearch(sdr1, mem, mapped, srVal, la, false) == NotFound &&
       mem(a) == PteCheck(Vsid(srVal), true, PageIndex(la)))
  {
  }

  /**
   * A page hit comes from a segment that is not direct-store and from the
   * PTE the search found; its PP bits allow the access under the segment's
   * key, and the physical address is built from that PTE's word1.
   */
  lemma PageHitAllowed(sr: seq<bv32>, sdr1: bv32, mem: PhysMem, mapped: bv32 -> bool,
                       la: bv32, isInstr: bool, msrPr: bool, isWrite: bool)
    requires |sr| == 16
    ensures PageTranslation(sr, sdr1, mem, mapped, la, isInstr, msrPr, isWrite).PageHit? ==>
      var srVal := SegmentOf(sr, la);
      var o := PageTranslation(sr, sdr1, mem, mapped, la, isInstr, msrPr, isWrite);
      srVal & 0x8000_0000 == 0 && FindPte(sdr1, mem, mapped, srVal, la) == Found(o.pteAddr) &&
      !PageProtectionFault(Key(srVal, msrPr), PpOf(Word1(mem, o.pteAddr)), isWrite) &&
      o.pa == PagePhys(Word1(mem, o.pteAddr), la)
  {
  }

  /**
   * Given the PTE search, an access ends emulation exactly when a searched
   * PTEG is unmapped, raises the no-translation fault exactly when neither
   * PTEG matches, and otherwise hits exactly when the PP bits allow it.
   */
  lemma PageOutcomeBySearch(r: PteSearch, key: bool, mem: PhysMem, la: bv32, isInstr: bool, isWrite: bool)
    ensures
      var o := PageAccess(r, key, mem, la, isInstr, isWrite);
      (o == PageHalt <==> r == Unmapped) &&
      (o == PageFault(AccessFault(NoTranslation, la, isInstr, isWrite)) <==> r == NotFound) &&
      (r.Found? ==> (o.PageHit? <==> !PageProtectionFault(key, PpOf(Word1(mem, r.addr)), isWrite)))
  {
    if r.Found? && PageProtectionFault(key, PpOf(Word1(mem, r.addr)), isWrite) {
      ProtectionCauseDiffers(la, isInstr, isWrite);
    }
  }

  /** The two DSISR causes stay apart once the store bit is added. */
  lemma ProtectionCauseDiffers(la: bv32, isInstr: bool, isWrite: bool)
    ensures AccessFault(ProtectionViolation, la, isInstr, isWrite) != AccessFault(NoTranslation, la, isInstr, isWrite)
  {
    if !isInstr {
      assert DsisrBits(ProtectionViolation, isWrite) & NoTranslation == 0;
      assert DsisrBits(NoTranslation, isWrite) & NoTranslation != 0;
    }
  }

  /**
   * A fault is an ISI exactly for instruction fetches; a DSI records `la`
   * in DAR and sets DSISR bit 25 exactly for stores.
   */
  lemma PageFaultKind(sr: seq<bv32>, sdr1: bv32, mem: PhysMem, mapped: bv32 -> bool,
                      la: bv32, isInstr: bool, msrPr: bool, isWrite: bool)
    requires |sr| == 16
    ensures
      var o := PageTranslation(sr, sdr1, mem, mapped, la, isInstr, msrPr, isWrite);
      o.PageFault? ==> (o.fault.Isi? <==> isInstr) && (o.fault.Dsi? ==> o.fault.dar == la)
    ensures
      var o := PageTranslation(sr, sdr1, mem, mapped, la, isInstr, msrPr, isWrite);
      o.PageFault? && o.fault.Dsi? ==> (o.fault.dsisr & 0x0200_0000 != 0 <==> isWrite)
  {
  }

  /** A PTE with PP = 2 serves every access: its translation never faults on protection. */
  lemma ReadWritePageHits(sr: seq<bv32>, sdr1: bv32, mem: PhysMem, mapped: bv32 -> bool,
                          la: bv32, isInstr: bool, msrPr: bool, isWrite: bool)
    requires |sr| == 16
    requires SegmentOf(sr, la) & 0x8000_0000 == 0
    requires !(SegmentOf(sr, la) & NoExecute != 0 && isInstr)
    requires FindPte(sdr1, mem, mapped, SegmentOf(sr, la), la).Found?
    requires PpOf(Word1(mem, FindPte(sdr1, mem, mapped, SegmentOf(sr, la), la).addr)) == 2
    ensures PageTranslation(sr, sdr1, mem, mapped, la, isInstr, msrPr, isWrite).PageHit?
  {
    var srVal := SegmentOf(sr, la);
    PageProtectionTable(Key(srVal, msrPr), 2, isWrite);
  }

  /**
   * After an access only word1 of the PTE a hit used may change: R is set
   * in it, and C is set exactly when it was already or the access writes.
   */
  lemma AfterAccessFrame(mem: PhysMem, o: PageOutcome, isWrite: bool, addr: bv32)
    ensures !(o.PageHit? && addr == o.pteAddr + 4) ==> AfterAccess(mem, o, isWrite)(addr) == mem(addr)
    ensures o.PageHit? ==> AfterAccess(mem, o, isWrite)(o.pteAddr + 4) == RcUpdate(Word1(mem, o.pteAddr), isWrite)
  {
  }
}

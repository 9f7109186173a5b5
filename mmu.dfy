/**
 * The software MMU of the emulated PowerPC as a stateful object: the BAT
 * arrays, the special-purpose and segment registers, the MSR, the physical
 * memory holding the page table, the six software TLBs and the MMU mode
 * with the TLB bank it selects. Its methods update that state in place as
 * the emulator does, and are proved against the value-level definitions of
 * the other modules.
 */
module PpcMmu {
  import opened Wrappers
  import opened PpcExceptions
  import opened PpcBat
  import opened PpcPageTable
  import opened PpcTlb

  // ---------------------------------------------------------------------------
  // Whole translations, as functions of the state.

  /** The outcome of an instruction or data translation. */
  datatype Translation = Translated(pa: bv32) | Faulted(fault: Fault) | Halted

  /** A page-table outcome as a translation. */
  function FromPage(o: PageOutcome): Translation {
    match o
    case PageHit(pa, _) => Translated(pa)
    case PageFault(f) => Faulted(f)
    case PageHalt => Halted
  }

  /** Whether the MSR is in user (problem-state) mode. */
  predicate UserMode(msr: bv32) {
    msr & MsrPr != 0
  }

  /**
   * Translation of an instruction fetch: the instruction BATs first, where a
   * block with PP = 0 raises an ISI; page translation otherwise.
   */
  function InstrTranslation(ibats: seq<BatEntry>, sr: seq<bv32>, sdr1: bv32, mem: PhysMem, mapped: bv32 -> bool,
                            msr: bv32, la: bv32): Translation
    requires |sr| == 16
  {
    match BlockTranslation(ibats, la, AccessBits(msr))
    case BatHit(prot, pa) => if InstrBatFault(prot) then Faulted(Isi(ProtectionViolation)) else Translated(pa)
    case BatMiss => FromPage(PageTranslation(sr, sdr1, mem, mapped, la, true, UserMode(msr), false))
  }

  /**
   * Translation of a data access: the data BATs first, where a block with
   * PP = 0, or a read-only block on a store, raises a DSI; page translation
   * otherwise.
   */
  function DataTranslation(dbats: seq<BatEntry>, sr: seq<bv32>, sdr1: bv32, mem: PhysMem, mapped: bv32 -> bool,
                           msr: bv32, la: bv32, isWrite: bool): Translation
    requires |sr| == 16
  {
    match BlockTranslation(dbats, la, AccessBits(msr))
    case BatHit(prot, pa) =>
      if DataBatFault(prot, isWrite) then Faulted(Dsi(DsisrBits(ProtectionViolation, isWrite), la)) else Translated(pa)
    case BatMiss => FromPage(PageTranslation(sr, sdr1, mem, mapped, la, false, UserMode(msr), isWrite))
  }

  /** Memory after a translation: only a page-table hit writes, to the R and C bits of its PTE. */
  function MemAfter(bats: seq<BatEntry>, sr: seq<bv32>, sdr1: bv32, mem: PhysMem, mapped: bv32 -> bool,
                    msr: bv32, la: bv32, isInstr: bool, isWrite: bool): PhysMem
    requires |sr| == 16
  {
    match BlockTranslation(bats, la, AccessBits(msr))
    case BatHit(_, _) => mem
    case BatMiss => AfterAccess(mem, PageTranslation(sr, sdr1, mem, mapped, la, isInstr, UserMode(msr), isWrite), isWrite)
  }

  /** The SPRs after an access: a DSI stores its DSISR and DAR values; nothing else writes them. */
  function SprAfter(spr: seq<bv32>, t: Translation): seq<bv32>
    requires |spr| == 1024
  {
    if t.Faulted? && t.fault.Dsi? then spr[DSISR := t.fault.dsisr][DAR := t.fault.dar] else spr
  }

  /**
   * A BAT hit takes precedence over the page table: the translation of an
   * address some BAT maps does not depend on the segment registers, SDR1 or
   * memory, and writes no PTE.
   */
  lemma BatHitIgnoresPageTable(bats: seq<BatEntry>, sr: seq<bv32>, sr': seq<bv32>, sdr1: bv32, sdr1': bv32,
                               mem: PhysMem, mem': PhysMem, mapped: bv32 -> bool, msr: bv32, la: bv32, isWrite: bool)
    requires |sr| == 16 && |sr'| == 16
    requires BlockTranslation(bats, la, AccessBits(msr)).BatHit?
    ensures InstrTranslation(bats, sr, sdr1, mem, mapped, msr, la) == InstrTranslation(bats, sr', sdr1', mem', mapped, msr, la)
    ensures DataTranslation(bats, sr, sdr1, mem, mapped, msr, la, isWrite) == DataTranslation(bats, sr', sdr1', mem', mapped, msr, la, isWrite)
    ensures MemAfter(bats, sr, sdr1, mem, mapped, msr, la, false, isWrite) == mem
  {
  }

  /** An instruction fetch raises only ISIs. */
  lemma InstrFaultsAreIsi(ibats: seq<BatEntry>, sr: seq<bv32>, sdr1: bv32, mem: PhysMem,
                          mapped: bv32 -> bool, msr: bv32, la: bv32)
    requires |sr| == 16
    ensures InstrTranslation(ibats, sr, sdr1, mem, mapped, msr, la).Faulted? ==>
      InstrTranslation(ibats, sr, sdr1, mem, mapped, msr, la).fault.Isi?
  {
    if BlockTranslation(ibats, la, AccessBits(msr)).BatMiss? {
      PageFaultKind(sr, sdr1, mem, mapped, la, true, UserMode(msr), false);
    }
  }

  /** A data access raises only DSIs, and each records `la` in DAR. */
  lemma DataFaultsAreDsi(dbats: seq<BatEntry>, sr: seq<bv32>, sdr1: bv32, mem: PhysMem,
                         mapped: bv32 -> bool, msr: bv32, la: bv32, isWrite: bool)
    requires |sr| == 16
    ensures DataTranslation(dbats, sr, sdr1, mem, mapped, msr, la, isWrite).Faulted? ==>
      DataTranslation(dbats, sr, sdr1, mem, mapped, msr, la, isWrite).fault.Dsi? &&
      DataTranslation(dbats, sr, sdr1, mem, mapped, msr, la, isWrite).fault.dar == la
  {
    if BlockTranslation(dbats, la, AccessBits(msr)).BatMiss? {
      PageFaultKind(sr, sdr1, mem, mapped, la, false, UserMode(msr), isWrite);
    }
  }

  /**
   * Through a data BAT, a read-only block (PP odd) serves loads and faults
   * on stores, and a read/write block (PP = 2) serves both with the block's
   * physical address.
   */
  lemma DataBatAccess(dbats: seq<BatEntry>, sr: seq<bv32>, sdr1: bv32, mem: PhysMem, mapped: bv32 -> bool,
                      msr: bv32, la: bv32)
    requires |sr| == 16
    requires BlockTranslation(dbats, la, AccessBits(msr)).BatHit?
    ensures var b := BlockTranslation(dbats, la, AccessBits(msr));
      b.prot & 1 != 0 ==>
        DataTranslation(dbats, sr, sdr1, mem, mapped, msr, la, false) == Translated(b.pa) &&
        DataTranslation(dbats, sr, sdr1, mem, mapped, msr, la, true) == Faulted(Dsi(DsisrBits(ProtectionViolation, true), la))
    ensures var b := BlockTranslation(dbats, la, AccessBits(msr));
      b.prot == 2 ==>
        DataTranslation(dbats, sr, sdr1, mem, mapped, msr, la, false) == Translated(b.pa) &&
        DataTranslation(dbats, sr, sdr1, mem, mapped, msr, la, true) == Translated(b.pa)
  {
    var b := BlockTranslation(dbats, la, AccessBits(msr));
    if b.prot & 1 != 0 {
      assert b.prot != 0;
    }
  }

  /** The four-way set of a secondary TLB that `va` maps to. */
  function SetAt(t: array<TlbEntry>, va: u32): (s: seq<TlbEntry>)
    reads t
    requires t.Length == Tlb2Size
    ensures |s| == Ways
  {
    SetOf(t[..], va)
  }

  /** Nothing in `t` changed but entry `i`. */
  twostate predicate OnlyEntryChanged(t: array<TlbEntry>, i: nat)
    reads t
  {
    forall k :: 0 <= k < t.Length && k != i ==> t[k] == old(t[k])
  }

  /** Nothing in `t` changed but the four entries of the set starting at `base`. */
  twostate predicate OnlySetChanged(t: array<TlbEntry>, base: nat)
    reads t
  {
    forall k :: 0 <= k < t.Length && !(base <= k < base + Ways) ==> t[k] == old(t[k])
  }

  // ---------------------------------------------------------------------------
  // The MMU state.

  class Mmu {
    /** The decoded instruction and data BATs. */
    const ibat: array<BatEntry>
    const dbat: array<BatEntry>
    /** The special-purpose registers, the segment registers and the MSR. */
    const spr: array<bv32>
    const sr: array<bv32>
    var msr: bv32
    /** Guest physical memory, where the page table lives. */
    var mem: PhysMem
    /** Primary and secondary TLBs of the three TLB banks. */
    const mode1Tlb1: array<TlbEntry>
    const mode2Tlb1: array<TlbEntry>
    const mode3Tlb1: array<TlbEntry>
    const mode1Tlb2: array<TlbEntry>
    const mode2Tlb2: array<TlbEntry>
    const mode3Tlb2: array<TlbEntry>
    /** The MMU mode last selected (0xFF before the first selection) and the bank of the current TLBs. */
    var mmuMode: bv8
    var bank: Bank

    /** Array sizes, and distinct arrays for distinct tables. */
    ghost predicate Valid() {
      ibat.Length == 4 && dbat.Length == 4 && ibat != dbat &&
      spr.Length == 1024 && sr.Length == 16 &&
      mode1Tlb1.Length == TlbSize && mode2Tlb1.Length == TlbSize && mode3Tlb1.Length == TlbSize &&
      mode1Tlb2.Length == Tlb2Size && mode2Tlb2.Length == Tlb2Size && mode3Tlb2.Length == Tlb2Size &&
      mode1Tlb1 != mode2Tlb1 && mode1Tlb1 != mode3Tlb1 && mode2Tlb1 != mode3Tlb1 &&
      mode1Tlb2 != mode2Tlb2 && mode1Tlb2 != mode3Tlb2 && mode2Tlb2 != mode3Tlb2
    }

    /** The emulator's static state: zeroed BATs, registers and TLBs, and no MMU mode selected yet. */
    constructor (msr0: bv32, mem0: PhysMem)
      ensures Valid()
      ensures fresh(ibat) && fresh(dbat) && fresh(spr) && fresh(sr)
      ensures fresh(mode1Tlb1) && fresh(mode2Tlb1) && fresh(mode3Tlb1)
      ensures fresh(mode1Tlb2) && fresh(mode2Tlb2) && fresh(mode3Tlb2)
      ensures ibat[..] == [ZeroBat, ZeroBat, ZeroBat, ZeroBat] && dbat[..] == ibat[..]
      ensures forall k :: 0 <= k < 1024 ==> spr[k] == 0
      ensures forall k :: 0 <= k < 16 ==> sr[k] == 0
      ensures msr == msr0 && mem == mem0 && mmuMode == 0xFF && bank == NoBank
    {
      mode1Tlb1 := new TlbEntry[TlbSize](_ => TlbEntry(0, 0, 0, 0));
      mode2Tlb1 := new TlbEntry[TlbSize](_ => TlbEntry(0, 0, 0, 0));
      mode3Tlb1 := new TlbEntry[TlbSize](_ => TlbEntry(0, 0, 0, 0));
      mode1Tlb2 := new TlbEntry[Tlb2Size](_ => TlbEntry(0, 0, 0, 0));
      mode2Tlb2 := new TlbEntry[Tlb2Size](_ => TlbEntry(0, 0, 0, 0));
      mode3Tlb2 := new TlbEntry[Tlb2Size](_ => TlbEntry(0, 0, 0, 0));
      ibat := new BatEntry[4](_ => ZeroBat);
      dbat := new BatEntry[4](_ => ZeroBat);
      spr := new bv32[1024](_ => 0);
      sr := new bv32[16](_ => 0);
      msr := msr0;
      mem := mem0;
      mmuMode := 0xFF;
      bank := NoBank;
    }

    // -------------------------------------------------------------------------
    // BATs.

    /**
     * A write to IBAT register `batReg` (SPR 528..535): the pair it belongs
     * to is decoded into its entry when valid.
     */
    method IbatUpdate(batReg: nat)
      requires Valid() && 528 <= batReg < 536
      modifies ibat
      ensures ibat[..] == UpdatedBats(old(ibat[..]), (batReg - 528) / 2, spr[batReg - batReg % 2], spr[batReg - batReg % 2 + 1])
    {
      BatUpdate(ibat, 528, batReg);
    }

    /** A write to DBAT register `batReg` (SPR 536..543). */
    method DbatUpdate(batReg: nat)
      requires Valid() && 536 <= batReg < 544
      modifies dbat
      ensures dbat[..] == UpdatedBats(old(dbat[..]), (batReg - 536) / 2, spr[batReg - batReg % 2], spr[batReg - batReg % 2 + 1])
    {
      BatUpdate(dbat, 536, batReg);
    }

    /** The update shared by both BAT arrays, whose registers start at SPR `first`. */
    method BatUpdate(bats: array<BatEntry>, first: nat, batReg: nat)
      requires Valid() && (bats == ibat || bats == dbat) && first % 2 == 0 && first <= batReg < first + 8 && first + 8 <= 1024
      modifies bats
      ensures bats[..] == UpdatedBats(old(bats[..]), (batReg - first) / 2, spr[batReg - batReg % 2], spr[batReg - batReg % 2 + 1])
    {
      var upper := batReg - batReg % 2;
      var upperVal, lowerVal := spr[upper], spr[upper + 1];
      if PairValid(upperVal) {
        bats[(batReg - first) / 2] := DecodeBat(upperVal, lowerVal);
      }
    }

    /** Block address translation over the instruction or the data BATs, first hit in index order. */
    method BlockAddressTranslation(isData: bool, la: bv32) returns (r: BatResult)
      requires Valid()
      ensures r == BlockTranslation((if isData then dbat else ibat)[..], la, AccessBits(msr))
    {
      var bats := if isData then dbat else ibat;
      var accessBits := AccessBits(msr);
      var i := 0;
      while i < 4
        invariant 0 <= i <= 4
        invariant FirstHit(bats[..], la, accessBits, i) == FirstHit(bats[..], la, accessBits, 0)
      {
        var e := bats[i];
        if Hits(e, la, accessBits) {
          return BatHit(e.prot, BatPhys(e, la));
        }
        i := i + 1;
      }
      return BatMiss;
    }

    // -------------------------------------------------------------------------
    // Page address translation.

    /**
     * The search of the PTEG at `base`: the first of its eight PTEs, eight
     * bytes apart, whose word0 is the compare word of `vsid`, the hash
     * function and the page index.
     */
    method SearchPteg(base: bv32, vsid: bv32, pageIndex: bv32, secondary: bool) returns (found: bool, pteAddr: bv32)
      ensures var r := SearchFrom(mem, base, PteCheck(vsid, secondary, pageIndex), 8);
        found == r.Some? && (found ==> pteAddr == r.value)
    {
      var check := PteCheck(vsid, secondary, pageIndex);
      var a := base;
      var i := 0;
      while i < 8
        invariant 0 <= i <= 8
        invariant SearchFrom(mem, a, check, 8 - i) == SearchFrom(mem, base, check, 8)
      {
        if mem(a) == check {
          return true, a;
        }
        a := a + 8;
        i := i + 1;
      }
      return false, 0;
    }

    /**
     * The two PTEG searches of page translation: the primary PTEG, then the
     * secondary one at the complemented hash. A PTEG outside RAM and ROM
     * ends the search as `Unmapped`.
     */
    method LocatePte(srVal: bv32, la: bv32, mapped: bv32 -> bool) returns (r: PteSearch)
      requires spr.Length == 1024
      ensures r == FindPte(spr[SDR1], mem, mapped, srVal, la)
    {
      r := SearchGroupAt(srVal, la, false, mapped);
      if r.NotFound? {
        r := SearchGroupAt(srVal, la, true, mapped);
      }
    }

    /**
     * One PTEG search: the hash, its PTEG address from SDR1 and the search
     * of its eight PTEs for the compare word.
     */
    method SearchGroupAt(srVal: bv32, la: bv32, secondary: bool, mapped: bv32 -> bool)
      returns (r: PteSearch)
      requires spr.Length == 1024
      ensures r == GroupSearch(spr[SDR1], mem, mapped, srVal, la, secondary)
    {
      var base := PtegAddr(spr[SDR1], GroupHash(srVal, la, secondary));
      if !mapped(base) {
        return Unmapped;
      }
      var found, pteAddr := SearchPteg(base, Vsid(srVal), PageIndex(la), secondary);
      if found {
        return Found(pteAddr);
      }
      return NotFound;
    }

    /**
     * Page address translation of `la`. A DSI stores its DSISR and DAR
     * values in the SPRs; a hit sets R, and C for a store, in its PTE.
     * `mapped` says whether a PTEG address lies in RAM or ROM.
     */
    method PageAddressTranslate(la: bv32, isInstr: bool, msrPr: bool, isWrite: bool, mapped: bv32 -> bool)
      returns (o: PageOutcome)
      requires Valid()
      modifies this`mem, spr
      ensures o == PageTranslation(sr[..], old(spr[SDR1]), old(mem), mapped, la, isInstr, msrPr, isWrite)
      ensures mem == AfterAccess(old(mem), o, isWrite)
      ensures spr[..] == SprAfter(old(spr[..]), FromPage(o))
    {
      var srVal := sr[((la >> 28) & 0xF) as int];
      if srVal & 0x8000_0000 != 0 {
        return PageHalt;
      }
      if srVal & NoExecute != 0 && isInstr {
        return PageFault(Isi(NoExecute));
      }
      var r := LocatePte(srVal, la, mapped);
      o := AccessPte(r, Key(srVal, msrPr), la, isInstr, isWrite);
    }

    /**
     * The end of page translation once the PTE search is done: no PTE is a
     * no-translation fault, a PTE whose PP bits refuse the access under
     * `key` a protection fault, and any other PTE a hit that sets R, and C
     * for a store. A DSI stores its DSISR and DAR values in the SPRs.
     */
    method AccessPte(r: PteSearch, key: bool, la: bv32, isInstr: bool, isWrite: bool)
      returns (o: PageOutcome)
      requires spr.Length == 1024
      modifies this`mem, spr
      ensures o == PageAccess(r, key, old(mem), la, isInstr, isWrite)
      ensures mem == AfterAccess(old(mem), o, isWrite)
      ensures spr[..] == SprAfter(old(spr[..]), FromPage(o))
    {
      match r
      case Unmapped =>
        return PageHalt;
      case NotFound =>
        o := RaiseAccessFault(NoTranslation, la, isInstr, isWrite);
      case Found(pteAddr) =>
        var word1 := Word1(mem, pteAddr);
        if PageProtectionFault(key, PpOf(word1), isWrite) {
          o := RaiseAccessFault(ProtectionViolation, la, isInstr, isWrite);
        } else {
          mem := WriteWord(mem, pteAddr + 4, RcUpdate(word1, isWrite));
          o := PageHit(PagePhys(word1, la), pteAddr);
        }
    }

    /** The fault of an access with cause `cause`; for a data access DSISR and DAR record it. */
    method RaiseAccessFault(cause: bv32, la: bv32, isInstr: bool, isWrite: bool) returns (o: PageOutcome)
      requires spr.Length == 1024
      modifies spr
      ensures o == PageFault(AccessFault(cause, la, isInstr, isWrite))
      ensures spr[..] == SprAfter(old(spr[..]), FromPage(o))
    {
      o := PageFault(AccessFault(cause, la, isInstr, isWrite));
      RecordFault(o.fault);
    }

    /** Stores the DSISR and DAR values of a DSI in the SPRs; an ISI writes neither. */
    method RecordFault(f: Fault)
      requires spr.Length == 1024
      modifies spr
      ensures spr[..] == SprAfter(old(spr[..]), Faulted(f))
    {
      if f.Dsi? {
        spr[DSISR] := f.dsisr;
        spr[DAR] := f.dar;
      }
    }

    /** Translation of an instruction fetch from `la`. */
    method InstrTranslate(la: bv32, mapped: bv32 -> bool) returns (t: Translation)
      requires Valid()
      modifies this`mem, spr
      ensures t == InstrTranslation(ibat[..], sr[..], old(spr[SDR1]), old(mem), mapped, msr, la)
      ensures mem == MemAfter(ibat[..], sr[..], old(spr[SDR1]), old(mem), mapped, msr, la, true, false)
      ensures spr[..] == old(spr[..])
    {
      var b := BlockAddressTranslation(false, la);
      match b
      case BatHit(prot, pa) =>
        if InstrBatFault(prot) {
          return Faulted(Isi(ProtectionViolation));
        }
        return Translated(pa);
      case BatMiss =>
        var o := PageAddressTranslate(la, true, UserMode(msr), false, mapped);
        PageFaultKind(sr[..], old(spr[SDR1]), old(mem), mapped, la, true, UserMode(msr), false);
        return FromPage(o);
    }

    /** Translation of a load (`isWrite` false) or store from `la`. */
    method DataTranslate(la: bv32, isWrite: bool, mapped: bv32 -> bool) returns (t: Translation)
      requires Valid()
      modifies this`mem, spr
      ensures t == DataTranslation(dbat[..], sr[..], old(spr[SDR1]), old(mem), mapped, msr, la, isWrite)
      ensures mem == MemAfter(dbat[..], sr[..], old(spr[SDR1]), old(mem), mapped, msr, la, false, isWrite)
      ensures spr[..] == SprAfter(old(spr[..]), t)
    {
      var b := BlockAddressTranslation(true, la);
      match b
      case BatHit(prot, pa) =>
        if DataBatFault(prot, isWrite) {
          t := Faulted(Dsi(DsisrBits(ProtectionViolation, isWrite), la));
          RecordFault(t.fault);
          return;
        }
        return Translated(pa);
      case BatMiss =>
        var o := PageAddressTranslate(la, false, UserMode(msr), isWrite, mapped);
        return FromPage(o);
    }

    // -------------------------------------------------------------------------
    // MMU mode.

    /** Selects the TLB bank of the MSR's mode, when the mode has changed. */
    method ChangeMode()
      modifies this`mmuMode, this`bank
      ensures (mmuMode, bank) == ModeChange(old(mmuMode), old(bank), msr)
    {
      var mode := ((((msr >> 3) & 2) | ((msr >> 14) & 1)) as bv8);
      if mmuMode != mode {
        if mode == 0 {
          bank := Bank1;
        } else if mode == 2 {
          bank := Bank2;
        } else if mode == 3 {
          bank := Bank3;
        }
        mmuMode := mode;
      }
    }

    // -------------------------------------------------------------------------
    // The software TLB.

    /** The primary TLB of a bank. */
    function Tlb1Of(b: Bank): (t: array<TlbEntry>)
      requires Valid() && b != NoBank
      ensures t.Length == TlbSize
    {
      match b
      case Bank1 => mode1Tlb1
      case Bank2 => mode2Tlb1
      case Bank3 => mode3Tlb1
    }

    /** The secondary TLB of a bank. */
    function Tlb2Of(b: Bank): (t: array<TlbEntry>)
      requires Valid() && b != NoBank
      ensures t.Length == Tlb2Size
    {
      match b
      case Bank1 => mode1Tlb2
      case Bank2 => mode2Tlb2
      case Bank3 => mode3Tlb2
    }

    /**
     * The block of four hLRU writes through the pointer `base` for a use of
     * way `way`: 3 for entry `base + way`, 2 for its partner, bit 0 kept for
     * the other pair. Through the start of a set this is the hLRU update of
     * that set.
     */
    method UpdateLru(t: array<TlbEntry>, base: nat, way: nat)
      requires base + Ways <= t.Length && way < Ways
      modifies t
      ensures t[..] == LruWrites(old(t[..]), base, way)
      ensures OnlySetChanged(t, base)
    {
      var e0, e1, e2, e3 := t[base], t[base + 1], t[base + 2], t[base + 3];
      if way == 0 {
        t[base], t[base + 1], t[base + 2], t[base + 3] :=
          e0.(lruBits := 3), e1.(lruBits := 2), e2.(lruBits := Aged(e2.lruBits)), e3.(lruBits := Aged(e3.lruBits));
      } else if way == 1 {
        t[base], t[base + 1], t[base + 2], t[base + 3] :=
          e0.(lruBits := 2), e1.(lruBits := 3), e2.(lruBits := Aged(e2.lruBits)), e3.(lruBits := Aged(e3.lruBits));
      } else if way == 2 {
        t[base], t[base + 1], t[base + 2], t[base + 3] :=
          e0.(lruBits := Aged(e0.lruBits)), e1.(lruBits := Aged(e1.lruBits)), e2.(lruBits := 3), e3.(lruBits := 2);
      } else {
        t[base], t[base + 1], t[base + 2], t[base + 3] :=
          e0.(lruBits := Aged(e0.lruBits)), e1.(lruBits := Aged(e1.lruBits)), e2.(lruBits := 2), e3.(lruBits := 3);
      }
      assert forall i :: 0 <= i < t.Length ==> t[i] == LruWrites(old(t[..]), base, way)[i];
    }

    /**
     * The way of the current secondary TLB a refill of `va` replaces: the
     * first invalid way, else the first of ways 0..2 with LRU bits 0, else
     * way 3. The chosen way is marked used.
     */
    method Tlb2TargetEntry(va: u32) returns (way: nat)
      requires Valid() && bank != NoBank
      modifies Tlb2Of(bank)
      ensures way == Victim(old(SetAt(Tlb2Of(bank), va)))
      ensures SetAt(Tlb2Of(bank), va) == Touch(old(SetAt(Tlb2Of(bank), va)), way)
      ensures OnlySetChanged(Tlb2Of(bank), TlbIndex(va) * Ways)
    {
      var t := Tlb2Of(bank);
      var base := TlbIndex(va) * Ways;
      VictimCases(SetAt(t, va));
      if t[base].tag == InvalidTag {
        way := 0;
      } else if t[base + 1].tag == InvalidTag {
        way := 1;
      } else if t[base + 2].tag == InvalidTag {
        way := 2;
      } else if t[base + 3].tag == InvalidTag {
        way := 3;
      } else if t[base].lruBits == 0 {
        way := 0;
      } else if t[base + 1].lruBits == 0 {
        way := 1;
      } else if t[base + 2].lruBits == 0 {
        way := 2;
      } else {
        way := 3;
      }
      UpdateLru(t, base, way);
      LruWritesAtBase(old(t[..]), va, way);
    }

    /**
     * A lookup of `tag` in the set of `va` of the current secondary TLB: the
     * first way holding it. A hit moves the pointer to that way before the
     * four hLRU writes, so they start at the hit way; where that would run
     * past the end of the table, nothing is written. On a miss nothing
     * changes.
     */
    method LookupSecondaryTlb(va: u32, tag: u32) returns (way: Option<nat>)
      requires Valid() && bank != NoBank
      modifies Tlb2Of(bank)
      ensures way == LookupWay(old(SetAt(Tlb2Of(bank), va)), tag, 0)
      ensures way.Some? && !Overruns(va, way.value) ==>
        Tlb2Of(bank)[..] == LruWrites(old(Tlb2Of(bank)[..]), TlbIndex(va) * Ways + way.value, way.value)
      ensures way.None? || Overruns(va, way.value) ==> Tlb2Of(bank)[..] == old(Tlb2Of(bank)[..])
    {
      var t := Tlb2Of(bank);
      var base := TlbIndex(va) * Ways;
      LookupWayCases(SetAt(t, va), tag);
      assert forall k :: 0 <= k < Ways ==> SetAt(t, va)[k] == t[base + k];
      if t[base].tag == tag {
        way := Some(0);
      } else if t[base + 1].tag == tag {
        way := Some(1);
      } else if t[base + 2].tag == tag {
        way := Some(2);
      } else if t[base + 3].tag == tag {
        way := Some(3);
      } else {
        return None;
      }
      if base + way.value + Ways > t.Length {
        return;
      }
      UpdateLru(t, base + way.value, way.value);
    }

    /**
     * The TLB part of a translation of `va`: a primary hit gives the host
     * address; otherwise a secondary hit, with its hLRU writes made from the
     * hit way on, which for host memory also refills the primary entry. A
     * miss in both levels is returned as such.
     */
    method TlbTranslate(va: u32) returns (r: TlbResult)
      requires Valid() && bank != NoBank
      modifies Tlb1Of(bank), Tlb2Of(bank)
      ensures var l := TlbLookup(old(Tlb1Of(bank)[TlbIndex(va)]), old(Tlb2Of(bank)[..]), va);
        r == l.0 && Tlb1Of(bank)[TlbIndex(va)] == l.1 && Tlb2Of(bank)[..] == l.2
      ensures OnlyEntryChanged(Tlb1Of(bank), TlbIndex(va))
    {
      var tag := PageTag(va);
      var t1 := Tlb1Of(bank);
      var idx := TlbIndex(va);
      if t1[idx].tag == tag {
        return HostAccess(t1[idx].offset + va as int);
      }
      ghost var t2 := Tlb2Of(bank)[..];
      ghost var e1 := t1[idx];
      assert t1 != Tlb2Of(bank) by { assert t1.Length != Tlb2Of(bank).Length; }
      var way := LookupSecondaryTlb(va, tag);
      assert t1[idx] == e1;
      match way
      case None =>
        return SecondaryMiss;
      case Some(w) =>
        if Overruns(va, w) {
          return LruOverrun;
        }
        var e2 := Tlb2Of(bank)[idx * Ways + w];
        assert e2.flags == t2[idx * Ways + w].flags && e2.offset == t2[idx * Ways + w].offset;
        assert TlbLookup(e1, t2, va) == HitResult(e1, t2[idx * Ways + w], va, Tlb2Of(bank)[..]);
        if HostBacked(e2) {
          t1[idx] := t1[idx].(tag := tag, flags := 1, offset := e2.offset);
          return HostAccess(t1[idx].offset + va as int);
        }
        return DeviceAccess(e2.offset);
    }

    /**
     * The invalidation of the page of `ea` in the primary and secondary TLB
     * of bank 1, done once for each of the three modes.
     */
    method FlushTlbEntry(ea: u32)
      requires Valid()
      modifies mode1Tlb1, mode1Tlb2
      ensures mode1Tlb1[TlbIndex(ea)] == FlushEntry(old(mode1Tlb1[TlbIndex(ea)]), PageTag(ea))
      ensures OnlyEntryChanged(mode1Tlb1, TlbIndex(ea))
      ensures SetAt(mode1Tlb2, ea) == FlushSet(old(SetAt(mode1Tlb2, ea)), PageTag(ea))
      ensures OnlySetChanged(mode1Tlb2, TlbIndex(ea) * Ways)
    {
      var tag := PageTag(ea);
      var idx := TlbIndex(ea);
      var base := idx * Ways;
      ghost var e1 := mode1Tlb1[idx];
      ghost var s2 := mode1Tlb2[..];
      var m := 0;
      while m < 3
        invariant 0 <= m <= 3
        invariant mode1Tlb1[idx] == if m == 0 then e1 else FlushEntry(e1, tag)
        invariant OnlyEntryChanged(mode1Tlb1, idx)
        invariant forall k :: base <= k < base + Ways ==>
          mode1Tlb2[k] == if m == 0 then s2[k] else FlushEntry(s2[k], tag)
        invariant OnlySetChanged(mode1Tlb2, base)
      {
        var tlb1, tlb2 := mode1Tlb1, mode1Tlb2;
        if tlb1[idx].tag == tag {
          tlb1[idx] := tlb1[idx].(tag := InvalidTag);
        }
        FlushWays(tlb2, base, tag);
        m := m + 1;
      }
      assert forall j :: 0 <= j < Ways ==> old(SetAt(mode1Tlb2, ea))[j] == s2[base + j];
      assert forall j :: 0 <= j < Ways ==> SetAt(mode1Tlb2, ea)[j] == mode1Tlb2[base + j];
    }

    /** The secondary-TLB part of a flush: every way of the set at `base` holding `tag` made invalid. */
    method FlushWays(t: array<TlbEntry>, base: nat, tag: u32)
      requires base + Ways <= t.Length
      modifies t
      ensures forall k :: base <= k < base + Ways ==> t[k] == FlushEntry(old(t[k]), tag)
      ensures OnlySetChanged(t, base)
    {
      var i := 0;
      while i < Ways
        invariant 0 <= i <= Ways
        invariant forall k :: base <= k < base + i ==> t[k] == FlushEntry(old(t[k]), tag)
        invariant forall k :: 0 <= k < t.Length && !(base <= k < base + i) ==> t[k] == old(t[k])
      {
        if t[base + i].tag == tag {
          t[base + i] := t[base + i].(tag := InvalidTag);
        }
        i := i + 1;
      }
    }

    /** Every entry of `t` made invalid. */
    method InvalidateAll(t: array<TlbEntry>)
      modifies t
      ensures forall k :: 0 <= k < t.Length ==> t[k] == InvalidEntry
    {
      var i := 0;
      while i < t.Length
        invariant 0 <= i <= t.Length
        invariant forall k :: 0 <= k < i ==> t[k] == InvalidEntry
      {
        t[i] := InvalidEntry;
        i := i + 1;
      }
    }

    /** MMU initialisation: every TLB entry invalid, then the bank of the MSR's mode. */
    method Init()
      requires Valid()
      modifies mode1Tlb1, mode2Tlb1, mode3Tlb1, mode1Tlb2, mode2Tlb2, mode3Tlb2, this`mmuMode, this`bank
      ensures forall k :: 0 <= k < TlbSize ==>
        mode1Tlb1[k] == InvalidEntry && mode2Tlb1[k] == InvalidEntry && mode3Tlb1[k] == InvalidEntry
      ensures forall k :: 0 <= k < Tlb2Size ==>
        mode1Tlb2[k] == InvalidEntry && mode2Tlb2[k] == InvalidEntry && mode3Tlb2[k] == InvalidEntry
      ensures (mmuMode, bank) == ModeChange(old(mmuMode), old(bank), msr)
    {
      InvalidateAll(mode1Tlb1);
      InvalidateAll(mode2Tlb1);
      InvalidateAll(mode3Tlb1);
      InvalidateAll(mode1Tlb2);
      InvalidateAll(mode2Tlb2);
      InvalidateAll(mode3Tlb2);
      ChangeMode();
    }
  }
}

/**
 * The emulator's two-level software TLB, as values: the entry, the tag and
 * set index of an address, the four-way sets of the secondary TLB with their
 * pseudo-LRU ("hLRU") bits, the victim choice, the lookup, the flush, and
 * the selection of the TLB bank of the current MMU mode.
 */
module PpcTlb {
  import opened Wrappers

  /** Unsigned 16- and 32-bit integers, the widths of the entry's fields and of a guest address. */
  newtype u16 = x: int | 0 <= x < 0x1_0000
  newtype u32 = x: int | 0 <= x < 0x1_0000_0000

  /** A TLB entry. `offset` stands for the host-address offset or region descriptor of the entry. */
  datatype TlbEntry = TlbEntry(tag: u32, flags: u16, lruBits: u16, offset: int)

  /** The tag of an unused entry. */
  const InvalidTag: u32 := 0xFFFF_FFFF

  /** An entry as initialisation leaves it. */
  const InvalidEntry := TlbEntry(InvalidTag, 0, 0, 0)

  /** Entries in a primary TLB, and ways in a set of a secondary TLB. */
  const TlbSize: nat := 4096
  const Ways: nat := 4

  /** Entries in a secondary TLB: `TlbSize` sets of `Ways` ways. */
  const Tlb2Size: nat := 16384

  /** The page size, 2 to the 12th. */
  const PageSize: int := 0x1000

  // ---------------------------------------------------------------------------
  // Tags and indices.

  /** The tag of an address: its page, with the 12 offset bits cleared. */
  function PageTag(va: u32): u32 {
    va - va % PageSize as u32
  }

  /** A computed tag has its low 12 bits clear, so it never equals the invalid tag. */
  lemma PageTagNeverInvalid(va: u32)
    ensures PageTag(va) as int % PageSize == 0
    ensures PageTag(va) != InvalidTag
  {
    assert InvalidTag as int % PageSize == 0xFFF;
  }

  /** The primary-TLB slot and secondary-TLB set of an address: bits 12..23. */
  function TlbIndex(va: u32): (i: nat)
    ensures i < TlbSize
  {
    (va as int / PageSize) % TlbSize
  }

  /** Two addresses in the same page use the same slot and set. */
  lemma SamePageSameIndex(va: u32, vb: u32)
    requires PageTag(va) == PageTag(vb)
    ensures TlbIndex(va) == TlbIndex(vb)
  {
    PageOfTag(va);
    PageOfTag(vb);
  }

  /** The tag is the page number times the page size. */
  lemma PageOfTag(va: u32)
    ensures PageTag(va) as int == va as int / PageSize * PageSize
  {
  }

  // ---------------------------------------------------------------------------
  // The hLRU bits of a four-way set.

  /** The other way of the pair (0 and 1, 2 and 3) a way belongs to. */
  function Partner(w: nat): (p: nat)
    requires w < Ways
    ensures p < Ways && p != w && p / 2 == w / 2
  {
    if w % 2 == 0 then w + 1 else w - 1
  }

  /** The LRU bits `lru` of way `k` after way `w` is used: 3 for `w`, 2 for its partner, bit 0 kept for the other pair. */
  function TouchedLru(lru: u16, w: nat, k: nat): u16
    requires w < Ways && k < Ways
  {
    if k == w then 3 else if k == Partner(w) then 2 else Aged(lru)
  }

  /** The LRU bits of a way of the pair not used: bit 1 cleared, bit 0 kept. */
  function Aged(lru: u16): u16 {
    lru % 2
  }

  /** A set after way `w` is used: only the LRU bits change. */
  function Touch(s: seq<TlbEntry>, w: nat): (t: seq<TlbEntry>)
    requires |s| == Ways && w < Ways
    ensures |t| == Ways
  {
    seq(Ways, k requires 0 <= k < Ways => s[k].(lruBits := TouchedLru(s[k].lruBits, w, k)))
  }

  /**
   * Using way `w` changes no tag, flags or offset, marks `w` most recently
   * used (3) and its partner 2, and leaves the other pair at most 1.
   */
  lemma TouchEffect(s: seq<TlbEntry>, w: nat)
    requires |s| == Ways && w < Ways
    ensures forall k :: 0 <= k < Ways ==>
      Touch(s, w)[k].tag == s[k].tag && Touch(s, w)[k].flags == s[k].flags && Touch(s, w)[k].offset == s[k].offset
    ensures Touch(s, w)[w].lruBits == 3 && Touch(s, w)[Partner(w)].lruBits == 2
    ensures forall k :: 0 <= k < Ways && k / 2 != w / 2 ==> Touch(s, w)[k].lruBits == Aged(s[k].lruBits)
  {
  }

  /** A pair whose bit 1 is clear: at most one of its ways has bit 0. */
  predicate OldPair(a: u16, b: u16) {
    (a == 0 && b == 0) || (a == 0 && b == 1) || (a == 1 && b == 0)
  }

  /** The pair used last: one way at 3, its partner at 2. */
  predicate RecentPair(a: u16, b: u16) {
    (a == 3 && b == 2) || (a == 2 && b == 3)
  }

  /**
   * The hLRU invariant of a set: each pair is either old or the recent one,
   * and at most one pair is recent.
   */
  predicate HLruOk(s: seq<TlbEntry>)
    requires |s| == Ways
  {
    (OldPair(s[0].lruBits, s[1].lruBits) && (OldPair(s[2].lruBits, s[3].lruBits) || RecentPair(s[2].lruBits, s[3].lruBits))) ||
    (RecentPair(s[0].lruBits, s[1].lruBits) && OldPair(s[2].lruBits, s[3].lruBits))
  }

  /** Clearing bit 1 of a pair that is old or recent leaves an old pair. */
  lemma AgePair(a: u16, b: u16)
    requires OldPair(a, b) || RecentPair(a, b)
    ensures OldPair(Aged(a), Aged(b))
  {
  }

  /** Using a way keeps the hLRU invariant, and makes its pair the recent one. */
  lemma TouchKeepsHLru(s: seq<TlbEntry>, w: nat)
    requires |s| == Ways && w < Ways && HLruOk(s)
    ensures HLruOk(Touch(s, w))
    ensures RecentPair(Touch(s, w)[w / 2 * 2].lruBits, Touch(s, w)[w / 2 * 2 + 1].lruBits)
  {
    var t := Touch(s, w);
    if w < 2 {
      AgePair(s[2].lruBits, s[3].lruBits);
      assert t[2].lruBits == Aged(s[2].lruBits) && t[3].lruBits == Aged(s[3].lruBits);
    } else {
      AgePair(s[0].lruBits, s[1].lruBits);
      assert t[0].lruBits == Aged(s[0].lruBits) && t[1].lruBits == Aged(s[1].lruBits);
    }
  }

  // ---------------------------------------------------------------------------
  // Victim choice, lookup and flush.

  /** The first way from `from` on whose tag is invalid. */
  function FirstInvalid(s: seq<TlbEntry>, from: nat): (r: Option<nat>)
    requires |s| == Ways && from <= Ways
    ensures r.Some? ==> from <= r.value < Ways && s[r.value].tag == InvalidTag
    ensures r.Some? ==> forall k :: from <= k < r.value ==> s[k].tag != InvalidTag
    ensures r.None? ==> forall k :: from <= k < Ways ==> s[k].tag != InvalidTag
    decreases Ways - from
  {
    if from == Ways then None
    else if s[from].tag == InvalidTag then Some(from)
    else FirstInvalid(s, from + 1)
  }

  /** The first of ways `from`..2 whose LRU bits are 0, and way 3 when there is none. */
  function FirstOldest(s: seq<TlbEntry>, from: nat): (v: nat)
    requires |s| == Ways && from < Ways
    ensures from <= v < Ways
    ensures v < Ways - 1 ==> s[v].lruBits == 0
    ensures forall k :: from <= k < v ==> s[k].lruBits != 0
    decreases Ways - from
  {
    if from == Ways - 1 then Ways - 1
    else if s[from].lruBits == 0 then from
    else FirstOldest(s, from + 1)
  }

  /** The way a refill replaces: the first invalid way, else the hLRU choice. */
  function Victim(s: seq<TlbEntry>): (v: nat)
    requires |s| == Ways
    ensures v < Ways
  {
    match FirstInvalid(s, 0)
    case Some(k) => k
    case None => FirstOldest(s, 0)
  }

  /**
   * The victim is the first invalid way when there is one; in a full set,
   * it is the first of ways 0..2 with LRU bits 0, and way 3 when none of
   * them has.
   */
  lemma VictimChoice(s: seq<TlbEntry>)
    requires |s| == Ways
    ensures (exists k :: 0 <= k < Ways && s[k].tag == InvalidTag) ==>
      s[Victim(s)].tag == InvalidTag && forall k :: 0 <= k < Victim(s) ==> s[k].tag != InvalidTag
    ensures (forall k :: 0 <= k < Ways ==> s[k].tag != InvalidTag) ==>
      (Victim(s) < Ways - 1 ==> s[Victim(s)].lruBits == 0) && forall k :: 0 <= k < Victim(s) ==> s[k].lruBits != 0
  {
  }

  /**
   * In a full set that keeps the hLRU invariant, a way just used is
   * never the next victim, and neither is its partner: the victim has LRU
   * bits 0 and lies in the other pair.
   */
  lemma VictimAvoidsRecent(s: seq<TlbEntry>, w: nat)
    requires |s| == Ways && w < Ways && HLruOk(s)
    requires forall k :: 0 <= k < Ways ==> s[k].tag != InvalidTag
    ensures Victim(Touch(s, w)) / 2 != w / 2
    ensures Touch(s, w)[Victim(Touch(s, w))].lruBits == 0
  {
    var t := Touch(s, w);
    TouchKeepsHLru(s, w);
    assert forall k :: 0 <= k < Ways ==> t[k].tag != InvalidTag;
    assert FirstInvalid(t, 0).None?;
    assert t[w].lruBits != 0 && t[Partner(w)].lruBits != 0;
  }

  /** The victim choice as the chain of tests the emulator makes: invalid tags of ways 0..3, then zero LRU bits of ways 0..2. */
  lemma {:induction false} VictimCases(s: seq<TlbEntry>)
    requires |s| == Ways
    ensures Victim(s) ==
      if s[0].tag == InvalidTag then 0 else if s[1].tag == InvalidTag then 1
      else if s[2].tag == InvalidTag then 2 else if s[3].tag == InvalidTag then 3
      else if s[0].lruBits == 0 then 0 else if s[1].lruBits == 0 then 1
      else if s[2].lruBits == 0 then 2 else 3
  {
    assert FirstInvalid(s, 4) == None;
    assert FirstOldest(s, 3) == 3;
  }

  /** The way of a set whose tag is `tag`, the first from `from` on. */
  function LookupWay(s: seq<TlbEntry>, tag: u32, from: nat): (r: Option<nat>)
    requires |s| == Ways && from <= Ways
    ensures r.Some? ==> from <= r.value < Ways && s[r.value].tag == tag
    ensures r.Some? ==> forall k :: from <= k < r.value ==> s[k].tag != tag
    ensures r.None? <==> forall k :: from <= k < Ways ==> s[k].tag != tag
    decreases Ways - from
  {
    if from == Ways then None
    else if s[from].tag == tag then Some(from)
    else LookupWay(s, tag, from + 1)
  }

  /** The lookup as the chain of tag tests of ways 0..3 the emulator makes. */
  lemma {:induction false} LookupWayCases(s: seq<TlbEntry>, tag: u32)
    requires |s| == Ways
    ensures LookupWay(s, tag, 0) ==
      if s[0].tag == tag then Some(0) else if s[1].tag == tag then Some(1)
      else if s[2].tag == tag then Some(2) else if s[3].tag == tag then Some(3) else None
  {
    assert LookupWay(s, tag, 4) == None;
  }

  /** A set after every way holding `tag` is invalidated. */
  function FlushSet(s: seq<TlbEntry>, tag: u32): (t: seq<TlbEntry>)
    requires |s| == Ways
    ensures |t| == Ways
  {
    seq(Ways, k requires 0 <= k < Ways => FlushEntry(s[k], tag))
  }

  /** An entry after a flush of `tag`. */
  function FlushEntry(e: TlbEntry, tag: u32): TlbEntry {
    if e.tag == tag then e.(tag := InvalidTag) else e
  }

  /**
   * After a flush of a page tag no way holds it, entries with other tags are
   * unchanged, a flushed entry differs only in its tag, and a second flush
   * changes nothing.
   */
  lemma FlushSetEffect(s: seq<TlbEntry>, tag: u32)
    requires |s| == Ways && tag != InvalidTag
    ensures LookupWay(FlushSet(s, tag), tag, 0).None?
    ensures forall k :: 0 <= k < Ways && s[k].tag != tag ==> FlushSet(s, tag)[k] == s[k]
    ensures forall k :: 0 <= k < Ways ==> FlushSet(s, tag)[k] == s[k].(tag := FlushSet(s, tag)[k].tag)
    ensures FlushSet(FlushSet(s, tag), tag) == FlushSet(s, tag)
  {
    var t := FlushSet(s, tag);
    assert forall k :: 0 <= k < Ways ==> t[k].tag != tag;
  }

  /** The same for one primary-TLB entry. */
  lemma FlushEntryEffect(e: TlbEntry, tag: u32)
    requires tag != InvalidTag
    ensures FlushEntry(e, tag).tag != tag
    ensures e.tag != tag ==> FlushEntry(e, tag) == e
    ensures FlushEntry(FlushEntry(e, tag), tag) == FlushEntry(e, tag)
  {
  }

  /** A set as initialisation leaves it. */
  const InvalidSet: seq<TlbEntry> := [InvalidEntry, InvalidEntry, InvalidEntry, InvalidEntry]

  /** After initialisation no address hits, neither in a primary entry nor in a set, and the set keeps the hLRU invariant. */
  lemma InitialMiss(va: u32)
    ensures InvalidEntry.tag != PageTag(va)
    ensures LookupWay(InvalidSet, PageTag(va), 0).None?
    ensures HLruOk(InvalidSet)
  {
    PageTagNeverInvalid(va);
  }

  // ---------------------------------------------------------------------------
  // The secondary TLB as a whole, and the LRU writes of a hit.

  /** The set of `va` in a secondary TLB: four consecutive entries from `TlbIndex(va) * Ways` on. */
  function SetOf(t2: seq<TlbEntry>, va: u32): (s: seq<TlbEntry>)
    requires |t2| == Tlb2Size
    ensures |s| == Ways
  {
    t2[TlbIndex(va) * Ways .. TlbIndex(va) * Ways + Ways]
  }

  /**
   * The block of four LRU writes the emulator makes through a pointer `p`
   * for a use of way `w`: entry `p + k` gets the bits that way `k` of a set
   * gets from a use of `w`.
   */
  function LruWrites(t: seq<TlbEntry>, p: nat, w: nat): (r: seq<TlbEntry>)
    requires p + Ways <= |t| && w < Ways
    ensures |r| == |t|
  {
    seq(|t|, i requires 0 <= i < |t| =>
      if p <= i < p + Ways then t[i].(lruBits := TouchedLru(t[i].lruBits, w, i - p)) else t[i])
  }

  /**
   * Writing through the start of the set of `va`, as the refill's victim
   * choice does, is `Touch` of that set and changes nothing outside it.
   */
  lemma LruWritesAtBase(t2: seq<TlbEntry>, va: u32, w: nat)
    requires |t2| == Tlb2Size && w < Ways
    ensures SetOf(LruWrites(t2, TlbIndex(va) * Ways, w), va) == Touch(SetOf(t2, va), w)
    ensures forall i :: 0 <= i < Tlb2Size && !(TlbIndex(va) * Ways <= i < TlbIndex(va) * Ways + Ways) ==>
      LruWrites(t2, TlbIndex(va) * Ways, w)[i] == t2[i]
  {
    var base := TlbIndex(va) * Ways;
    var r := LruWrites(t2, base, w);
    assert forall k :: 0 <= k < Ways ==> SetOf(r, va)[k] == r[base + k];
  }

  /**
   * Whether the LRU writes of a hit in way `w` of the set of `va`, made
   * through a pointer moved to that way, run past the end of the secondary
   * TLB: exactly in the last set, for ways 1 to 3.
   */
  predicate Overruns(va: u32, w: nat) {
    TlbIndex(va) * Ways + w + Ways > Tlb2Size
  }

  lemma OverrunsExactly(va: u32, w: nat)
    requires w < Ways
    ensures Overruns(va, w) <==> TlbIndex(va) == TlbSize - 1 && w >= 1
  {
  }

  // ---------------------------------------------------------------------------
  // Translation through the TLB.

  /** Flags bit 0: the entry maps memory backed by the host, not a device. */
  predicate HostBacked(e: TlbEntry) {
    e.flags % 2 == 1
  }

  /**
   * The result of a TLB lookup: a host address for memory backed by the
   * host, the region of a memory-mapped device, a miss in both levels, which
   * a refill of the secondary TLB must resolve, or a secondary hit whose LRU
   * writes would run past the end of the table.
   */
  datatype TlbResult = HostAccess(hostAddr: int) | DeviceAccess(region: int) | SecondaryMiss | LruOverrun

  /** What a secondary hit on entry `e2` returns, given the new secondary TLB `t2`. */
  function HitResult(e1: TlbEntry, e2: TlbEntry, va: u32, t2: seq<TlbEntry>): (TlbResult, TlbEntry, seq<TlbEntry>) {
    if HostBacked(e2) then (HostAccess(e2.offset + va as int), e1.(tag := PageTag(va), flags := 1, offset := e2.offset), t2)
    else (DeviceAccess(e2.offset), e1, t2)
  }

  /**
   * A lookup of `va`, as the emulator writes it, given its primary entry
   * `e1` and the whole secondary TLB `t2`: the result, the new primary entry
   * and the new secondary TLB. A primary hit changes nothing. A secondary hit
   * in way `w` first moves the pointer to that way, so its four LRU writes
   * land on entries `base + w` to `base + w + 3`; for host memory (flags bit
   * 0) it also copies the entry into the primary TLB.
   */
  function TlbLookup(e1: TlbEntry, t2: seq<TlbEntry>, va: u32): (TlbResult, TlbEntry, seq<TlbEntry>)
    requires |t2| == Tlb2Size
  {
    var tag := PageTag(va);
    var base := TlbIndex(va) * Ways;
    if e1.tag == tag then (HostAccess(e1.offset + va as int), e1, t2)
    else match LookupWay(SetOf(t2, va), tag, 0)
      case None => (SecondaryMiss, e1, t2)
      case Some(w) =>
        if Overruns(va, w) then (LruOverrun, e1, t2)
        else HitResult(e1, t2[base + w], va, LruWrites(t2, base + w, w))
  }

  /**
   * The lookup as evidently intended: the LRU writes of a hit start at the
   * set, as in the refill's victim choice, so they are `Touch` of the set.
   */
  function IntendedLookup(e1: TlbEntry, t2: seq<TlbEntry>, va: u32): (TlbResult, TlbEntry, seq<TlbEntry>)
    requires |t2| == Tlb2Size
  {
    var tag := PageTag(va);
    var base := TlbIndex(va) * Ways;
    if e1.tag == tag then (HostAccess(e1.offset + va as int), e1, t2)
    else match LookupWay(SetOf(t2, va), tag, 0)
      case None => (SecondaryMiss, e1, t2)
      case Some(w) => HitResult(e1, t2[base + w], va, LruWrites(t2, base, w))
  }

  /**
   * A secondary hit in way `w`, as written: the secondary TLB becomes the
   * four LRU writes of a use of `w` made from the hit way on, and the result
   * is that of the hit entry. The hit way itself is marked most recently
   * used (3) only when it is way 0.
   */
  lemma SecondaryHitWrites(e1: TlbEntry, t2: seq<TlbEntry>, va: u32, w: nat)
    requires |t2| == Tlb2Size && e1.tag != PageTag(va) && LookupWay(SetOf(t2, va), PageTag(va), 0) == Some(w)
    requires !Overruns(va, w)
    ensures TlbLookup(e1, t2, va).2 == LruWrites(t2, TlbIndex(va) * Ways + w, w)
    ensures TlbLookup(e1, t2, va).2[TlbIndex(va) * Ways + w].lruBits == 3 <==> w == 0
    ensures TlbLookup(e1, t2, va).0 == (if HostBacked(SetOf(t2, va)[w]) then HostAccess(SetOf(t2, va)[w].offset + va as int)
      else DeviceAccess(SetOf(t2, va)[w].offset))
  {
    var base := TlbIndex(va) * Ways;
    assert SetOf(t2, va)[w] == t2[base + w];
    var t2' := LruWrites(t2, base + w, w);
    assert TlbLookup(e1, t2, va) == HitResult(e1, t2[base + w], va, t2');
    assert t2'[base + w].lruBits == TouchedLru(t2[base + w].lruBits, w, 0);
  }

  /**
   * What the four writes through `p` do: entry `p + k` keeps its tag, flags
   * and offset and gets the LRU bits of way `k` after a use of `w`, so the
   * entry `w` places after `p` is marked most recently used; every other
   * entry is unchanged.
   */
  lemma LruWritesEffect(t: seq<TlbEntry>, p: nat, w: nat)
    requires p + Ways <= |t| && w < Ways
    ensures forall i :: p <= i < p + Ways ==>
      LruWrites(t, p, w)[i] == t[i].(lruBits := TouchedLru(t[i].lruBits, w, i - p))
    ensures forall i :: 0 <= i < |t| && !(p <= i < p + Ways) ==> LruWrites(t, p, w)[i] == t[i]
    ensures LruWrites(t, p, w)[p + w].lruBits == 3
  {
  }

  /**
   * A hit in way 1, 2 or 3 of the last set makes the emulator write past the
   * end of the table; the model stops there with `LruOverrun`.
   */
  lemma OverrunResult(e1: TlbEntry, t2: seq<TlbEntry>, va: u32)
    requires |t2| == Tlb2Size
    ensures TlbLookup(e1, t2, va).0 == LruOverrun <==>
      e1.tag != PageTag(va) && LookupWay(SetOf(t2, va), PageTag(va), 0).Some? &&
      TlbIndex(va) == TlbSize - 1 && LookupWay(SetOf(t2, va), PageTag(va), 0).value >= 1
  {
    var r := LookupWay(SetOf(t2, va), PageTag(va), 0);
    if r.Some? {
      OverrunsExactly(va, r.value);
    }
  }

  /**
   * A hit in the primary TLB returns the entry's host address and changes
   * nothing; a miss in both levels changes nothing either.
   */
  lemma TlbLookupUnchanged(e1: TlbEntry, t2: seq<TlbEntry>, va: u32)
    requires |t2| == Tlb2Size
    ensures e1.tag == PageTag(va) ==> TlbLookup(e1, t2, va) == (HostAccess(e1.offset + va as int), e1, t2)
    ensures TlbLookup(e1, t2, va).0 == SecondaryMiss <==> e1.tag != PageTag(va) && LookupWay(SetOf(t2, va), PageTag(va), 0).None?
    ensures TlbLookup(e1, t2, va).0 == SecondaryMiss ==> TlbLookup(e1, t2, va).1 == e1 && TlbLookup(e1, t2, va).2 == t2
  {
  }

  /**
   * After a secondary hit on host memory the primary entry holds the page,
   * so a second lookup of any address in the same page hits the primary TLB
   * with the same host offset.
   */
  lemma RefillMakesPrimaryHit(e1: TlbEntry, t2: seq<TlbEntry>, va: u32, vb: u32)
    requires |t2| == Tlb2Size && PageTag(va) == PageTag(vb)
    requires e1.tag != PageTag(va)
    requires TlbLookup(e1, t2, va).0.HostAccess?
    ensures var (r, e1', t2') := TlbLookup(e1, t2, va);
      |t2'| == Tlb2Size && TlbLookup(e1', t2', vb) == (HostAccess(r.hostAddr - va as int + vb as int), e1', t2')
  {
  }

  /**
   * The lookup as written agrees with the intended one exactly when it is
   * not a secondary hit in way 1, 2 or 3.
   */
  lemma AsWrittenMatchesIntended(e1: TlbEntry, t2: seq<TlbEntry>, va: u32)
    requires |t2| == Tlb2Size
    ensures TlbLookup(e1, t2, va) == IntendedLookup(e1, t2, va) <==>
      !(e1.tag != PageTag(va) && LookupWay(SetOf(t2, va), PageTag(va), 0).Some? &&
        LookupWay(SetOf(t2, va), PageTag(va), 0).value >= 1)
  {
    var base := TlbIndex(va) * Ways;
    var r := LookupWay(SetOf(t2, va), PageTag(va), 0);
    if e1.tag != PageTag(va) && r.Some? && r.value >= 1 {
      var w := r.value;
      if !Overruns(va, w) {
        SecondaryHitWrites(e1, t2, va, w);
        LruWritesAtBase(t2, va, w);
        TouchEffect(SetOf(t2, va), w);
        assert IntendedLookup(e1, t2, va).2[base + w] == Touch(SetOf(t2, va), w)[w];
      }
    }
  }

  /**
   * The intended lookup keeps the hLRU invariant of the set, marks the pair
   * of a hit way as the recent one, and changes no entry outside the set.
   */
  lemma IntendedLookupKeepsHLru(e1: TlbEntry, t2: seq<TlbEntry>, va: u32)
    requires |t2| == Tlb2Size && HLruOk(SetOf(t2, va))
    ensures var t2' := IntendedLookup(e1, t2, va).2;
      |t2'| == Tlb2Size && HLruOk(SetOf(t2', va)) &&
      forall i :: 0 <= i < Tlb2Size && !(TlbIndex(va) * Ways <= i < TlbIndex(va) * Ways + Ways) ==> t2'[i] == t2[i]
    ensures var r := LookupWay(SetOf(t2, va), PageTag(va), 0);
      e1.tag != PageTag(va) && r.Some? ==>
        var s' := SetOf(IntendedLookup(e1, t2, va).2, va);
        RecentPair(s'[r.value / 2 * 2].lruBits, s'[r.value / 2 * 2 + 1].lruBits)
  {
    var r := LookupWay(SetOf(t2, va), PageTag(va), 0);
    if e1.tag != PageTag(va) && r.Some? {
      LruWritesAtBase(t2, va, r.value);
      TouchKeepsHLru(SetOf(t2, va), r.value);
    }
  }

  /**
   * A secondary TLB whose first set is full with LRU bits [0, 0, 0, 0], way 1
   * holding page 0, and whose second set has LRU bits [2, 3, 0, 0].
   */
  const HitExampleTable: seq<TlbEntry> :=
    seq(Tlb2Size, i =>
      if i == 1 then TlbEntry(0, 1, 0, 0)
      else if i < 4 then TlbEntry(0x5000, 1, 0, 0)
      else if i == 4 then TlbEntry(0x6000, 1, 2, 0)
      else if i == 5 then TlbEntry(0x7000, 1, 3, 0)
      else InvalidEntry)

  /**
   * Looking up address 0 in that table, as written, hits way 1 and leaves
   * the first set with LRU bits [0, 2, 3, 0] and the second with
   * [0, 3, 0, 0]: both break the hLRU invariant they kept. The intended
   * lookup leaves [2, 3, 0, 0], which keeps it.
   */
  lemma HitInWayOneBreaksHLru()
    ensures HLruOk(SetOf(HitExampleTable, 0)) && HLruOk(SetOf(HitExampleTable, 0x1000))
    ensures LookupWay(SetOf(HitExampleTable, 0), PageTag(0), 0) == Some(1)
    ensures var t2' := TlbLookup(InvalidEntry, HitExampleTable, 0).2;
      |t2'| == Tlb2Size &&
      t2'[0].lruBits == 0 && t2'[1].lruBits == 2 && t2'[2].lruBits == 3 && t2'[3].lruBits == 0 && t2'[4].lruBits == 0 &&
      !HLruOk(SetOf(t2', 0)) && !HLruOk(SetOf(t2', 0x1000))
    ensures var t2' := IntendedLookup(InvalidEntry, HitExampleTable, 0).2;
      |t2'| == Tlb2Size && t2'[0].lruBits == 2 && t2'[1].lruBits == 3 && HLruOk(SetOf(t2', 0))
  {
    var t := HitExampleTable;
    FirstSets(t);
    LookupWayCases(SetOf(t, 0), 0);
    assert TlbLookup(InvalidEntry, t, 0).2 == LruWrites(t, 1, 1);
    FirstSets(LruWrites(t, 1, 1));
    assert IntendedLookup(InvalidEntry, t, 0).2 == LruWrites(t, 0, 1);
    FirstSets(LruWrites(t, 0, 1));
  }

  /** The sets of addresses 0 and 0x1000: entries 0 to 3 and 4 to 7. */
  lemma FirstSets(t: seq<TlbEntry>)
    requires |t| == Tlb2Size
    ensures SetOf(t, 0) == [t[0], t[1], t[2], t[3]]
    ensures SetOf(t, 0x1000) == [t[4], t[5], t[6], t[7]]
  {
    assert TlbIndex(0) == 0;
    assert TlbIndex(0x1000) == 1;
  }


  // ---------------------------------------------------------------------------
  // MMU mode and TLB bank.

  /** The TLB bank the current-TLB pointers select; `NoBank` before any mode was ever selected. */
  datatype Bank = NoBank | Bank1 | Bank2 | Bank3

  /** The MMU mode of an MSR: DR (bit 4) as bit 1 and PR (bit 14) as bit 0. */
  function ModeOf(msr: bv32): (m: bv8)
    ensures m < 4
  {
    (((msr >> 3) & 2) | ((msr >> 14) & 1)) as bv8
  }

  /** Mode 2 or 3 exactly when data relocation is on; an odd mode exactly in user mode. */
  lemma ModeBits(msr: bv32)
    ensures ModeOf(msr) & 2 != 0 <==> msr & 0x10 != 0
    ensures ModeOf(msr) & 1 != 0 <==> msr & 0x4000 != 0
  {
  }

  /** The mode register and bank after a mode change: mode 0, 2 or 3 selects bank 1, 2 or 3; mode 1 selects none. */
  function ModeChange(mmuMode: bv8, bank: Bank, msr: bv32): (bv8, Bank) {
    var m := ModeOf(msr);
    if mmuMode == m then (mmuMode, bank)
    else (m, if m == 0 then Bank1 else if m == 2 then Bank2 else if m == 3 then Bank3 else bank)
  }

  /**
   * A mode change records the MSR's mode; real mode, supervisor and user mode
   * with translation use banks 1, 2 and 3; mode 1 keeps the bank; a second
   * change with the same MSR changes nothing.
   */
  lemma ModeChangeEffect(mmuMode: bv8, bank: Bank, msr: bv32)
    ensures ModeChange(mmuMode, bank, msr).0 == ModeOf(msr)
    ensures mmuMode != ModeOf(msr) && ModeOf(msr) == 0 ==> ModeChange(mmuMode, bank, msr).1 == Bank1
    ensures mmuMode != ModeOf(msr) && ModeOf(msr) == 2 ==> ModeChange(mmuMode, bank, msr).1 == Bank2
    ensures mmuMode != ModeOf(msr) && ModeOf(msr) == 3 ==> ModeChange(mmuMode, bank, msr).1 == Bank3
    ensures ModeOf(msr) == 1 ==> ModeChange(mmuMode, bank, msr).1 == bank
    ensures var (m, b) := ModeChange(mmuMode, bank, msr); ModeChange(m, b, msr) == (m, b)
  {
  }
}

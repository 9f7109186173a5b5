# PowerPC test vectors and software MMU, in Dafny

This project models two parts of the dingusppc PowerPC emulator and proves
properties of them.

**The test-vector generator** (`cpu/ppc/test/genppctests.py`) reads an
instruction-test log one line at a time. For each line it:

- strips the line and takes the mnemonic from columns 0..7;
- finds the immediate operand with `find_imm`;
- encodes the mnemonic and immediate as a 32-bit instruction word with
  `gen_ppc_opcode`;
- scans the tagged operand fields that start at column 12.

It is modelled by three modules:

- `PpcOpcodes` (`opcodes.dfy`) models the encoder table. An independent
  descriptor table gives the XO-form and D-form layouts of the PowerPC
  32-bit programming environments manual, and the lemmas prove that the two
  tables agree.
- `LogScanner` (`scanner.dfy`) models Python's slicing, `startswith`,
  `strip`/`rstrip` and `int(s, 16)`. It also models `find_imm` and the field
  scan. Both are while-loop methods, each proved against a recursive function
  that reads the row through one table of tags, widths and token offsets.
  Lemmas relate both loops to a single walk over the row.
- `TestVectors` (`testvectors.dfy`) models the per-line body of the
  script's main loop.

**The software MMU** (`cpu/ppc/ppcmmu.cpp`) covers:

- BAT decoding and block translation (`bat.dfy`, module `PpcBat`);
- hashed page-table translation, protection and R/C update (`pagetable.dfy`,
  module `PpcPageTable`);
- the two-level software TLB and its hLRU pseudo-LRU policy, as values
  (`tlb.dfy`, module `PpcTlb`). A secondary hit is modelled as written, with
  its LRU writes counted from the hit way; the set-relative update the refill
  uses is modelled beside it (see "## Findings").

The faults it raises are values (`faults.dfy`, module `PpcExceptions`).

The state lives in the class `PpcMmu.Mmu` (`mmu.dfy`):

- the BAT arrays, the SPRs, the segment registers and the MSR;
- guest physical memory;
- the six TLB arrays;
- the MMU mode and the TLB bank it selects.

Its methods update that state in place, as the emulator does. Each method
is proved against the value-level functions of the other modules.

32-bit MMU arithmetic is `bv32`. TLB tags and indices are `u32` integers,
with the bit formulas (`& ~0xFFF`, `>> 12 & 0xFFF`) written as the
equivalent division and remainder. Encoder words are unbounded `nat`, as
Python integers are, and each is proved to be below 2^32.

`gen_ppc_opcode` is an if/elif chain of 23 mnemonics; there is no `ADDIC.`
entry, so that mnemonic has no word.

## Model

| member | source | states |
|---|---|---|
| PpcOpcodes.GenPpcOpcode | cpu/ppc/test/genppctests.py:1-47 | there is a word exactly for the 23 mnemonics of the chain; any other mnemonic falls off the end (None); every word is below 2^32 |
| PpcOpcodes.Low16 | cpu/ppc/test/genppctests.py:27-31 | `imm & 0xFFFF` is below 2^16 and congruent to `imm` modulo 2^16, negative `imm` included |
| PpcOpcodes.XoWord | cpu/ppc/test/genppctests.py:2-25 | the XO-form word of the manual is below 2^32; OE adds 0x400 and Rc adds 1 to the word with both clear |
| PpcOpcodes.DWord | cpu/ppc/test/genppctests.py:26-31 | the D-form word is below 2^32; its low 16 bits are the immediate and its upper half is OPCD, rD, rA |
| PpcOpcodes.Encode | cpu/ppc/test/genppctests.py:2-47 | the layout word of every well-formed descriptor is below 2^32 |
| PpcOpcodes.GenMatchesLayout | cpu/ppc/test/genppctests.py:1-47 | the chain and the descriptor table know the same mnemonics; each chain word is the XO-form or D-form word of its descriptor; other mnemonics have no word |
| PpcOpcodes.LayoutDomain | cpu/ppc/test/genppctests.py:1-47 | the descriptor table is defined exactly on the chain's mnemonics |
| PpcOpcodes.LayoutWords | cpu/ppc/test/genppctests.py:2-47 | for every table mnemonic, the chain's word is the layout word of its well-formed descriptor |
| PpcOpcodes.SuffixFlags | cpu/ppc/test/genppctests.py:2-47 | Rc is set exactly for a trailing "."; OE is set exactly for an "O" in the mnemonic; immediate forms set neither |
| PpcOpcodes.AddWord | cpu/ppc/test/genppctests.py:2-3 | "ADD" encodes to 0x7C632214 |
| PpcOpcodes.PrimaryOpcodes | cpu/ppc/test/genppctests.py:2-47 | every word is below 2^32; its top 6 bits are 0x0E, 0x0C, 0x0F for ADDI, ADDIC, ADDIS and 0x1F for every register form |
| PpcOpcodes.RcTwin | cpu/ppc/test/genppctests.py:2-47 | for each of the 10 register mnemonics, the "." twin is in the table and its word is the base word plus 1 |
| PpcOpcodes.RcBitSuffix | cpu/ppc/test/genppctests.py:2-47 | bit 0 of a register-form word is set exactly when the mnemonic ends in "." |
| PpcOpcodes.OeBitSuffix | cpu/ppc/test/genppctests.py:2-47 | bit 10 (OE) of a register-form word is set exactly when the mnemonic contains "O" |
| PpcOpcodes.OeVariant | cpu/ppc/test/genppctests.py:2-47 | each of the 10 O-variants, with and without ".", is its base word plus 0x400 |
| PpcOpcodes.ImmediateForms | cpu/ppc/test/genppctests.py:26-31 | ADDI, ADDIC and ADDIS are 0x38630000, 0x30630000 and 0x3C630000 plus `imm & 0xFFFF`; the immediate field of the word is `imm & 0xFFFF` |
| PpcOpcodes.ImmediateTruncation | cpu/ppc/test/genppctests.py:26-31 | two immediates with equal low 16 bits give the same result for every mnemonic: there is no range check |
| PpcOpcodes.RbFieldValues | cpu/ppc/test/genppctests.py:2-47 | the rB field (bits 11..15) is 0 for ADDME/ADDZE and their variants, and 4 for every other register form |
| PpcOpcodes.RbLayout | cpu/ppc/test/genppctests.py:2-47 | every register mnemonic has an XO-form descriptor, and it omits rB exactly for ADDME, ADDZE and their variants |
| PpcOpcodes.OperandRegisters | cpu/ppc/test/genppctests.py:2-47 | every word names r3 as rD and as rA |
| PpcOpcodes.UnknownMnemonic | cpu/ppc/test/genppctests.py:1-47 | a mnemonic outside the table has no word |
| LogScanner.Slice | cpu/ppc/test/genppctests.py:53 | `s[i:j]` has length `min(j, len(s)) - i` when that is positive, else 0: both bounds clamp at the end |
| LogScanner.RStrip | cpu/ppc/test/genppctests.py:70 | `rstrip()` is the longest prefix that does not end in whitespace; only whitespace was removed |
| LogScanner.LStrip | cpu/ppc/test/genppctests.py:69 | `lstrip()` is the longest suffix that does not start with whitespace; only whitespace was removed |
| LogScanner.Strip | cpu/ppc/test/genppctests.py:69 | `strip()` is a contiguous part of the string that neither starts nor ends with whitespace, and everything before and after it is whitespace |
| LogScanner.StripNoSpace | cpu/ppc/test/genppctests.py:69 | a string without whitespace at either end is its own `strip()` |
| LogScanner.RemoveUnderscores | cpu/ppc/test/genppctests.py:61 | no underscore is left; removing the underscores of a digit group leaves only hex digits, and changes nothing when there are none |
| LogScanner.RemoveUnderscoresKeeps | cpu/ppc/test/genppctests.py:61 | every character other than an underscore is kept as often as it occurs |
| LogScanner.RemoveUnderscoresAppend | cpu/ppc/test/genppctests.py:61 | removing underscores works piece by piece, so the kept characters stay in their order |
| LogScanner.ToAscii | cpu/ppc/test/genppctests.py:61 | `int()` first rewrites its text to ASCII: it raises exactly when a character is neither below 127 nor whitespace; the rewrite keeps the length and every non-whitespace character, and a character becomes `int()` whitespace exactly when it is `str.isspace()` whitespace other than 0x1C..0x1F |
| LogScanner.AsciiTextKept | cpu/ppc/test/genppctests.py:61 | ASCII text comes through that rewrite unchanged |
| LogScanner.ParseNumber | cpu/ppc/test/genppctests.py:61 | `int(t, 16)` succeeds exactly when the text after the sign and the 0x prefix is a digit group |
| LogScanner.ParseNumberValue | cpu/ppc/test/genppctests.py:61 | a digit group of either case, underscores included, after an optional `+`/`-` and an optional `0x`/`0X`, reads as the value of its digits, negated for `-` |
| LogScanner.FormatHex | cpu/ppc/test/genppctests.py:75 | `"{:X}"` writes a nonempty string of the digits 0-9 and A-F |
| LogScanner.HexValueOfFormat | cpu/ppc/test/genppctests.py:75 | the value of the digits `"{:X}"` writes is the number |
| LogScanner.ParseFormatRoundTrip | cpu/ppc/test/genppctests.py:75 | what `"{:X}"` and `"0x{:X}"` write reads back through `int(s, 16)` as the number |
| LogScanner.ParseUpperDigits | cpu/ppc/test/genppctests.py:61 | upper-case hex digits parse to their value, with or without the 0x prefix |
| LogScanner.Width | cpu/ppc/test/genppctests.py:54-59 | every known tag advances the cursor by at least 16 columns |
| LogScanner.Token | cpu/ppc/test/genppctests.py:82-94 | a value token has at most 10 characters, and exactly 10 when the line is long enough |
| LogScanner.WalkSteps | cpu/ppc/test/genppctests.py:79-100 | every step of the walk lies inside the line at or after its start, under a tag the table knows |
| LogScanner.WalkStride | cpu/ppc/test/genppctests.py:79-100 | the walk starts at its first column, and each step lies one field width past the previous one |
| LogScanner.WalkStopAt | cpu/ppc/test/genppctests.py:98-100 | an unknown-tag stop lies inside the line where no tag is known, and carries the four characters read there |
| LogScanner.WalkStopAfter | cpu/ppc/test/genppctests.py:79-100 | an unknown-tag stop lies one field width past the last step, or at the start when there is no step |
| LogScanner.WalkIncreasing | cpu/ppc/test/genppctests.py:79-100 | the cursor strictly increases, by at least 16 columns per field, so the scan ends |
| LogScanner.FindImmSkip | cpu/ppc/test/genppctests.py:54-59 | a register, XER or CR field is skipped by its width |
| LogScanner.FindImm | cpu/ppc/test/genppctests.py:50-62 | the cursor loop returns what the recursive reading of the row gives: the token at the first immediate read as hex, the ValueError, 0 at the end of the line, or the column where it loops forever |
| LogScanner.FirstImm | cpu/ppc/test/genppctests.py:60-61 | the first immediate step of a walk: an immediate, with no immediate before it |
| LogScanner.WalkImmSkip | cpu/ppc/test/genppctests.py:54-59 | a leading step that is not an immediate does not change what find_imm makes of a walk |
| LogScanner.FirstImmSkip | cpu/ppc/test/genppctests.py:54-61 | a leading non-immediate step shifts the first immediate's index by one |
| LogScanner.FindImmFollowsWalk | cpu/ppc/test/genppctests.py:50-62 | find_imm follows the scan's walk: it returns the first immediate of the walk; without one, 0 at the end of the line or a hang at the walk's unknown tag |
| LogScanner.FindImmStuckIff | cpu/ppc/test/genppctests.py:50-62 | find_imm hangs exactly when the walk meets an unknown tag before any immediate |
| LogScanner.FieldsOf | cpu/ppc/test/genppctests.py:79-100 | a walk gives at most one field per step |
| LogScanner.ScanFrom | cpu/ppc/test/genppctests.py:77-100 | every field is rD, rA, rB, XER or CR, with a token of at most 10 characters |
| LogScanner.ScanFollowsWalk | cpu/ppc/test/genppctests.py:77-100 | the scan writes, in walk order, one field per non-immediate step (the immediate is skipped), and stops where the walk stops |
| LogScanner.ScanAdvance | cpu/ppc/test/genppctests.py:79-97 | one turn of the loop at a known tag appends that field's token (nothing for an immediate), and the rest of the scan is unchanged |
| LogScanner.ScanFields | cpu/ppc/test/genppctests.py:77-100 | the field loop returns the recursive scan's fields and stop |
| LogScanner.StuckWhereScanStops | cpu/ppc/test/genppctests.py:50-100 | when find_imm hangs, the field scan stops at the same column with the same unknown tag |
| LogScanner.MnemonicOf | cpu/ppc/test/genppctests.py:70 | the mnemonic is a prefix of the stripped line, at most 8 characters long, that does not end in whitespace, and the rest of the first 8 characters is whitespace |
| TestVectors.ProcessLine | cpu/ppc/test/genppctests.py:68-100 | the per-line body produces the line's record: mnemonic, find_imm outcome, word, fields and stop |
| TestVectors.RecordWord | cpu/ppc/test/genppctests.py:69-75 | a word is written exactly when the mnemonic is in the table and find_imm neither raised nor hung; it is the table word for the immediate, or for 0 when there is none; its `"0x{:X}"` text reads back as the word |
| TestVectors.RecordShape | cpu/ppc/test/genppctests.py:69-100 | the mnemonic is a prefix of the stripped line, at most 8 characters long, without trailing whitespace, and the rest of the line's first 8 characters is whitespace; fields are operand names with tokens of at most 10 characters |
| PpcExceptions.DsisrBits | cpu/ppc/ppcmmu.cpp:465-466 | DSISR is the cause bits with bit 25 set exactly for a store |
| PpcBat.HiMask | cpu/ppc/ppcmmu.cpp:310-311 | hi_mask has its low 17 bits clear and its top 4 bits set; bits 17..27 are the complement of BL |
| PpcBat.DecodeWellFormed | cpu/ppc/ppcmmu.cpp:308-317 | a decoded entry has 2-bit access and prot fields, and BEPI and phys_hi inside hi_mask; its access bits are nonzero exactly when the pair is valid |
| PpcBat.UpdatedBats | cpu/ppc/ppcmmu.cpp:301-339 | a valid pair replaces its own entry with the decoded pair; an invalid pair changes nothing; other entries are kept |
| PpcBat.AccessBits | cpu/ppc/ppcmmu.cpp:350-357 | the access bits are 2 in supervisor mode and 1 in user mode |
| PpcBat.FirstHit | cpu/ppc/ppcmmu.cpp:359-373 | the first entry in index order whose access bits match and whose BEPI matches `la & hi_mask`; no entry before it matches; None when none does |
| PpcBat.BatPhysOffset | cpu/ppc/ppcmmu.cpp:369 | the BAT physical address keeps every offset bit of `la` outside hi_mask, and so its low 17 bits |
| PpcBat.BatPhysBlock | cpu/ppc/ppcmmu.cpp:369 | the block bits of the BAT physical address are phys_hi |
| PpcBat.DataBatProtection | cpu/ppc/ppcmmu.cpp:570 | a data BAT read needs PP other than 0, a write needs PP = 2, and an allowed write implies an allowed read and fetch |
| PpcPageTable.PtegAddr | cpu/ppc/ppcmmu.cpp:383-385 | the PTEG address is 64-byte aligned: its low 6 bits are zero |
| PpcPageTable.PtegAddrLowBits | cpu/ppc/ppcmmu.cpp:383-385 | bits 6..15 of the PTEG address are the low 10 hash bits; bits 25..31 are HTABORG's |
| PpcPageTable.PtegAddrMaskedBits | cpu/ppc/ppcmmu.cpp:384 | bits 16..24 are HTABORG's bits ORed with the hash bits 10..18 that HTABMASK selects |
| PpcPageTable.PteCheckValidApi | cpu/ppc/ppcmmu.cpp:406 | the compare word has V set, and its API is the top 6 bits of the page index |
| PpcPageTable.PteCheckVsid | cpu/ppc/ppcmmu.cpp:406 | bits 7..30 of the compare word are the VSID |
| PpcPageTable.PteCheckHash | cpu/ppc/ppcmmu.cpp:406 | bit 6 of the compare word is H: 1 exactly for the secondary PTEG |
| PpcPageTable.FirstMatch | cpu/ppc/ppcmmu.cpp:429-434 | the first PTE of a group whose word0 is the compare word; none before it matches; None when none does |
| PpcPageTable.PtesFrom | cpu/ppc/ppcmmu.cpp:429 | the PTEs from an address, 8 bytes apart, number exactly as many as asked |
| PpcPageTable.SearchFrom | cpu/ppc/ppcmmu.cpp:429-434 | an address the walk returns holds the compare word |
| PpcPageTable.SearchFromFirst | cpu/ppc/ppcmmu.cpp:429-437 | the walk over 8 PTEs, 8 bytes apart, returns the address of the group's first matching PTE, and nothing when none matches |
| PpcPageTable.PtegAt | cpu/ppc/ppcmmu.cpp:429 | a PTEG is 8 PTEs |
| PpcPageTable.Key | cpu/ppc/ppcmmu.cpp:474 | the key is Kp (SR bit 29) in user mode and Ks (SR bit 30) in supervisor mode |
| PpcPageTable.PageProtectionTable | cpu/ppc/ppcmmu.cpp:476-491 | PP = 2 never faults; a read faults only with key 1 and PP 0; a write is allowed exactly with PP 2, or with key 0 and PP 0 or 1 |
| PpcPageTable.PagePhysSplit | cpu/ppc/ppcmmu.cpp:501 | the physical address has the page offset of `la` and the page frame of word1 |
| PpcPageTable.RcUpdateBits | cpu/ppc/ppcmmu.cpp:495-498 | after an access R is set, and C is set exactly when it already was or the access writes |
| PpcPageTable.RcUpdateKeeps | cpu/ppc/ppcmmu.cpp:495-498 | bits other than R and C are kept, and repeating the same access changes nothing more |
| PpcPageTable.SearchGroup | cpu/ppc/ppcmmu.cpp:387-400 | a PTEG search ends emulation exactly when the PTEG lies outside RAM and ROM; a found PTE holds the compare word |
| PpcPageTable.FindPteMatches | cpu/ppc/ppcmmu.cpp:456-461 | a found PTE matches VSID and page index with H = 0, or with H = 1 when the primary PTEG had no match |
| PpcPageTable.PageHitAllowed | cpu/ppc/ppcmmu.cpp:445-501 | a page hit comes from a segment that is not direct-store and from the PTE the search found; its PP bits allow the access under the key; pa is built from its word1 |
| PpcPageTable.PageOutcomeBySearch | cpu/ppc/ppcmmu.cpp:460-501 | given the search: emulation ends exactly for an unmapped PTEG; the no-translation fault comes exactly when no PTE matches; a found PTE hits exactly when PP allows it |
| PpcPageTable.ProtectionCauseDiffers | cpu/ppc/ppcmmu.cpp:463-489 | the protection fault and the no-translation fault of the same access differ |
| PpcPageTable.PageFaultKind | cpu/ppc/ppcmmu.cpp:460-491 | the fault is an ISI exactly for fetches; a DSI records `la` in DAR and sets DSISR bit 25 exactly for stores |
| PpcPageTable.ReadWritePageHits | cpu/ppc/ppcmmu.cpp:477-483 | outside a direct-store segment, and unless it is a fetch from a no-execute segment, a translation that finds a PTE with PP = 2 hits for every key and access |
| PpcPageTable.AfterAccessFrame | cpu/ppc/ppcmmu.cpp:495-498 | an access changes at most word1 of the PTE a hit used, and that word becomes its R/C update |
| PpcTlb.PageTagNeverInvalid | cpu/ppc/ppcmmu.cpp:912 | a computed tag has its low 12 bits clear, so it never equals TLB_INVALID_TAG |
| PpcTlb.TlbIndex | cpu/ppc/ppcmmu.cpp:915 | the slot and set index is below 4096 |
| PpcTlb.SamePageSameIndex | cpu/ppc/ppcmmu.cpp:912-915 | addresses of the same page use the same slot and set |
| PpcTlb.PageOfTag | cpu/ppc/ppcmmu.cpp:912 | the tag is the page number times the page size |
| PpcTlb.Partner | cpu/ppc/ppcmmu.cpp:756-813 | the partner way is the other way of the same pair (0 and 1, 2 and 3) |
| PpcTlb.Touch | cpu/ppc/ppcmmu.cpp:756-813 | the LRU update of a set for a use of way w, written from the set's start, keeps a set of four ways |
| PpcTlb.TouchEffect | cpu/ppc/ppcmmu.cpp:756-813 | the victim choice's use of way w changes no tag, flags or offset; w gets LRU 3, its partner 2, and the other pair keeps only bit 0 |
| PpcTlb.AgePair | cpu/ppc/ppcmmu.cpp:760-761 | clearing bit 1 of an old or recent pair leaves an old pair |
| PpcTlb.TouchKeepsHLru | cpu/ppc/ppcmmu.cpp:749-815 | using a way keeps the hLRU invariant and makes its pair the recent one |
| PpcTlb.FirstInvalid | cpu/ppc/ppcmmu.cpp:755-783 | the first way whose tag is invalid; the ways before it are valid; None when all are |
| PpcTlb.FirstOldest | cpu/ppc/ppcmmu.cpp:784-813 | the first of ways 0..2 with LRU bits 0, else way 3 |
| PpcTlb.Victim | cpu/ppc/ppcmmu.cpp:749-815 | the victim is one of the four ways |
| PpcTlb.VictimChoice | cpu/ppc/ppcmmu.cpp:755-815 | the victim is the first invalid way when there is one; in a full set it is the first of ways 0..2 with LRU 0, else way 3 |
| PpcTlb.VictimAvoidsRecent | cpu/ppc/ppcmmu.cpp:784-813 | in a full set with the hLRU invariant, the next victim after a use has LRU 0 and lies in the other pair |
| PpcTlb.VictimCases | cpu/ppc/ppcmmu.cpp:756-813 | the victim is given by the emulator's chain of tests |
| PpcTlb.LookupWay | cpu/ppc/ppcmmu.cpp:1026-1055 | the first way holding the tag, with none before it; None exactly when no way holds it |
| PpcTlb.LookupWayCases | cpu/ppc/ppcmmu.cpp:1026-1055 | the lookup is given by the emulator's chain of tag tests |
| PpcTlb.FlushSet | cpu/ppc/ppcmmu.cpp:897-904 | a flushed set has four ways |
| PpcTlb.FlushSetEffect | cpu/ppc/ppcmmu.cpp:897-904 | after a flush no way holds the tag; ways with other tags are unchanged; a flushed way differs only in its tag; a second flush is a no-op |
| PpcTlb.FlushEntryEffect | cpu/ppc/ppcmmu.cpp:890-895 | a flushed primary entry no longer holds the tag; an entry with another tag is unchanged; a second flush is a no-op |
| PpcTlb.InitialMiss | cpu/ppc/ppcmmu.cpp:1283-1323 | after initialisation no address hits a primary entry or a set, and every set keeps the hLRU invariant |
| PpcTlb.TlbLookupUnchanged | cpu/ppc/ppcmmu.cpp:915-952 | a primary hit returns the host address and changes nothing; a miss in both levels happens exactly when neither level holds the tag, and changes nothing |
| PpcTlb.RefillMakesPrimaryHit | cpu/ppc/ppcmmu.cpp:954-961 | after a secondary hit on host memory, any address of the same page hits the primary TLB with the same offset |
| PpcTlb.SetOf | cpu/ppc/ppcmmu.cpp:920 | the set of an address is four entries |
| PpcTlb.LruWritesEffect | cpu/ppc/ppcmmu.cpp:1032-1052 | the four LRU writes through a pointer p for a use of way w: entry p+k keeps tag, flags and offset and gets way k's bits of a use of w (so entry p+w gets 3); every other entry is unchanged |
| PpcTlb.LruWritesAtBase | cpu/ppc/ppcmmu.cpp:756-813 | the writes through the set's own start, as the victim choice makes them, are `Touch` of the set and change nothing outside it |
| PpcTlb.OverrunsExactly | cpu/ppc/ppcmmu.cpp:1032-1052 | the writes after the pointer moves to way w run past the 16384-entry table exactly in the last set (4095) for ways 1 to 3 |
| PpcTlb.SecondaryHitWrites | cpu/ppc/ppcmmu.cpp:920-967 | after a primary miss and a hit in way w, as written: the secondary TLB becomes the four writes from entry base+w on; the hit way gets LRU 3 only when w is 0; host memory returns the host address, a device its region |
| PpcTlb.OverrunResult | cpu/ppc/ppcmmu.cpp:928-948 | the lookup stops with `LruOverrun` exactly after a primary miss and a hit in way 1, 2 or 3 of the last set |
| PpcTlb.AsWrittenMatchesIntended | cpu/ppc/ppcmmu.cpp:920-948 | the lookup as written equals the lookup with the set-relative LRU update exactly when it is not a secondary hit in way 1, 2 or 3 |
| PpcTlb.IntendedLookupKeepsHLru | cpu/ppc/ppcmmu.cpp:756-813 | with the set-relative update of the victim choice, a lookup keeps the hLRU invariant of the set, makes a hit way's pair the recent one, and changes no entry outside the set |
| PpcTlb.HitInWayOneBreaksHLru | cpu/ppc/ppcmmu.cpp:928-934 | a hit in way 1 of a full set with LRU [0,0,0,0] leaves [0,2,3,0] and ages way 0 of the next set ([2,3,0,0] becomes [0,3,0,0]): both sets lose the hLRU invariant; the set-relative update gives [2,3,0,0] |
| PpcTlb.ModeOf | cpu/ppc/ppcmmu.cpp:728 | the MMU mode is in 0..3 |
| PpcTlb.ModeBits | cpu/ppc/ppcmmu.cpp:728 | mode bit 1 is MSR.DR and mode bit 0 is MSR.PR |
| PpcTlb.ModeChangeEffect | cpu/ppc/ppcmmu.cpp:726-747 | the mode is recorded; modes 0, 2 and 3 select banks 1, 2 and 3 when the mode changed; mode 1 keeps the bank; a second call with the same MSR changes nothing |
| PpcMmu.BatHitIgnoresPageTable | cpu/ppc/ppcmmu.cpp:516-543 | on a BAT hit, translation depends on neither the segment registers, SDR1 nor memory, and writes no PTE |
| PpcMmu.InstrFaultsAreIsi | cpu/ppc/ppcmmu.cpp:505-546 | an instruction fetch raises only ISIs |
| PpcMmu.DataFaultsAreDsi | cpu/ppc/ppcmmu.cpp:549-592 | a data access raises only DSIs, each with DAR = `la` |
| PpcMmu.DataBatAccess | cpu/ppc/ppcmmu.cpp:570-577 | through a data BAT, a read-only block (PP odd) serves loads with the block's physical address and raises a protection DSI on stores; a read/write block (PP = 2) serves both |
| PpcMmu.SetAt | cpu/ppc/ppcmmu.cpp:921 | the set of an address is four consecutive secondary entries |
| PpcMmu.Mmu.constructor | cpu/ppc/ppcmmu.cpp:706-724 | the static state: the 4 IBATs and 4 DBATs zeroed, 1024 SPRs and 16 segment registers zeroed, six fresh TLB arrays of the sizes the TLB defines, MMUMode 0xFF and no current TLB |
| PpcMmu.Mmu.IbatUpdate | cpu/ppc/ppcmmu.cpp:301-319 | the IBAT array becomes the update of pair `(batReg - 528) >> 1` from the pair's SPRs |
| PpcMmu.Mmu.DbatUpdate | cpu/ppc/ppcmmu.cpp:321-339 | the DBAT array becomes the update of pair `(batReg - 536) >> 1` from the pair's SPRs |
| PpcMmu.Mmu.BatUpdate | cpu/ppc/ppcmmu.cpp:306-318 | the shared body of both updates |
| PpcMmu.Mmu.BlockAddressTranslation | cpu/ppc/ppcmmu.cpp:343-376 | the loop over the 4 BATs returns the first-hit translation of `la` for the MSR's access bits |
| PpcMmu.Mmu.SearchPteg | cpu/ppc/ppcmmu.cpp:403-438 | the loop over 8 PTEs returns the address of the first PTE holding the compare word, and false when none does |
| PpcMmu.Mmu.LocatePte | cpu/ppc/ppcmmu.cpp:456-461 | the primary PTEG is searched, then the secondary one only when the primary has no match |
| PpcMmu.Mmu.SearchGroupAt | cpu/ppc/ppcmmu.cpp:378-401 | one PTEG search from SDR1 and the hash, ending emulation outside RAM and ROM |
| PpcMmu.Mmu.PageAddressTranslate | cpu/ppc/ppcmmu.cpp:440-502 | returns the page translation of `la`; memory becomes its R/C update; the SPRs record DSISR and DAR of a DSI; nothing else changes |
| PpcMmu.Mmu.AccessPte | cpu/ppc/ppcmmu.cpp:462-501 | the no-translation fault, the protection check, the R/C write and the physical address after the search |
| PpcMmu.Mmu.RaiseAccessFault | cpu/ppc/ppcmmu.cpp:462-468 | returns the fault of the cause and records a DSI's DSISR and DAR |
| PpcMmu.Mmu.RecordFault | cpu/ppc/ppcmmu.cpp:465-466 | a DSI stores DSISR and DAR; an ISI writes no SPR |
| PpcMmu.Mmu.InstrTranslate | cpu/ppc/ppcmmu.cpp:505-546 | returns the instruction translation; memory changes only by a page hit's R/C update; no SPR changes |
| PpcMmu.Mmu.DataTranslate | cpu/ppc/ppcmmu.cpp:549-592 | returns the data translation; memory changes only by a page hit's R/C update; the SPRs record the DSI, if any |
| PpcMmu.Mmu.ChangeMode | cpu/ppc/ppcmmu.cpp:726-747 | mode and bank become the mode change of the MSR |
| PpcMmu.Mmu.Tlb1Of | cpu/ppc/ppcmmu.cpp:715 | a bank's primary TLB has 4096 entries |
| PpcMmu.Mmu.Tlb2Of | cpu/ppc/ppcmmu.cpp:716 | a bank's secondary TLB has 4096 sets of 4 ways |
| PpcMmu.Mmu.UpdateLru | cpu/ppc/ppcmmu.cpp:1026-1052 | the four LRU writes through a pointer for a use of way w: the whole table becomes `LruWrites` of the old one (entries p..p+3 get way k's bits of a use of w, nothing else changes) |
| PpcMmu.Mmu.Tlb2TargetEntry | cpu/ppc/ppcmmu.cpp:749-815 | returns the set's victim, marks it used, and changes nothing outside the set |
| PpcMmu.Mmu.LookupSecondaryTlb | cpu/ppc/ppcmmu.cpp:1022-1057 | returns the first way holding the tag; a hit in way w makes the four LRU writes from entry base+w on, as written, so for w of 1 to 3 they reach into the next set; where they would pass the table's end nothing is written; a miss changes nothing |
| PpcMmu.Mmu.TlbTranslate | cpu/ppc/ppcmmu.cpp:908-967 | result, primary entry and whole secondary TLB are those of the as-written lookup `TlbLookup`; no other primary entry changes |
| PpcMmu.Mmu.FlushTlbEntry | cpu/ppc/ppcmmu.cpp:868-906 | the bank-1 primary slot and set of `ea` become their flush by the tag; nothing else changes; the bank-2 and bank-3 TLBs are not touched |
| PpcMmu.Mmu.FlushWays | cpu/ppc/ppcmmu.cpp:898-904 | every way of the set holding the tag is made invalid; no other entry changes |
| PpcMmu.Mmu.InvalidateAll | cpu/ppc/ppcmmu.cpp:1283-1288 | every entry becomes the invalid entry |
| PpcMmu.Mmu.Init | cpu/ppc/ppcmmu.cpp:1279-1331 | every entry of the six TLBs is invalid (tag 0xFFFFFFFF, flags 0, LRU 0, offset 0); then the mode change of the MSR |

## Left out

- The script's driver: opening the log and the CSV file, writing each record
  as CSV text (`"0x{:X}"`, the "Unknown reg ID" diagnostic, the newline),
  and the 153-line cap. A line's record holds what these writes would
  output.
- Where the script aborts on a line, the end of the run is not modelled.
  This happens when `int()` raises, when `find_imm` hangs, and when
  `"0x{:X}".format(None)` raises for an unknown mnemonic. The line's record
  has no word but keeps its fields and stop, and later lines are modelled
  independently.
- `find_imm` on a row with an unknown tag before any immediate loops forever
  in the script. It is modelled as the outcome `Stuck(pos)`, so no fuel is
  needed.
- Python `str.isspace` is modelled on code points. `strip` has no Unicode
  normalisation to consider.
- LogScanner.ParseNumber: `int()` also reads non-ASCII decimal digits (such
  as U+FF11, a full-width 1) as their ASCII digit. The model's ASCII rewrite
  `ToAscii` makes `int()` raise on them instead: the model reads ASCII
  digits only.
- Host-memory access: reads, writes, DMA, instruction fetch, the
  unaligned helpers, `mmu_read_vmem` and `mem_read_dbg`. These are host
  pointer arithmetic and device callbacks.
- `PpcMmu.Mmu.TlbTranslate`: a miss in both TLB levels returns `SecondaryMiss`
  and does not model `tlb2_refill`, whose host-offset arithmetic and region
  lookup are host-side. The host offset and region descriptor of an entry are
  one opaque integer, `offset`. A device access returns that value in place
  of `guest_va - reg_desc->start`.
- The memory-map lookup `find_range` is the function parameter `mapped`. The
  `last_ptab_area` cache only speeds that lookup up, so it is not modelled.
- The direct-store segment exit and a PTEG outside RAM and ROM end emulation
  (`exit(-1)`). Both are the outcome `PageHalt` / `Halted`.
- Exceptions are `Fault` values returned to the caller. The
  exception handler's own effects (SRR0, SRR1, the jump to the vector) are
  not modelled.
- The `MMU_INTEGRITY_CHECKS` branch of `search_pteg`. Only the default
  branch is modelled.
- Profiling counters, logging, and the debug globals `MemAccessType`,
  `MemAddr`, `Device` and `DevOffset`.
- The R and C updates are modelled on word1 of the PTE as a 32-bit big-endian
  word: bytes 6 and 7 are its bits 8 and 7.
- `ppcemu.h` and `ppcmmu.h` are not part of this model beyond the register
  numbers and MSR bits copied into `PpcExceptions`.
- `mmu_change_mode` has no case for mode 1, so the current bank stays as it
  was. After initialisation with MSR mode 1 that is still no bank. The model
  keeps this behaviour, and the TLB methods require a selected bank.
- `PpcMmu.Mmu.TlbTranslate`: the host address is an unbounded integer, so
  the int64 wrap-around of `host_va_offset + guest_va` is not modelled.
- `PpcMmu.Mmu.LookupSecondaryTlb`, `PpcMmu.Mmu.TlbTranslate` and
  `PpcTlb.TlbLookup`: a hit in way 1, 2 or 3 of the last set makes the
  emulator write up to three entries past the end of the secondary TLB,
  which is undefined behaviour in C++. The model then writes nothing and the
  lookup returns `LruOverrun`; what the program does after it is not
  modelled.
- `PpcMmu.Mmu.LookupSecondaryTlb`, `PpcMmu.Mmu.TlbTranslate`: these do not
  promise that only the set of the address changes, nor that the set keeps
  the hLRU invariant, because as written neither holds (see "## Findings").

## Findings

| source | as written | input that shows it | evidently intended | confidence | as-written member | corrected member |
|---|---|---|---|---|---|---|
| cpu/ppc/ppcmmu.cpp:928-948 | after a primary miss, a hit (here and in `lookup_secondary_tlb`, 1032-1052) in way w of 1 to 3 moves the entry pointer to that way before the four LRU writes, so they land on ways w to w+3, reaching into the next set (and past the table's end in the last set) | a full set with LRU bits [0,0,0,0] whose way 1 holds the page, followed by a set with [2,3,0,0]: afterwards they read [0,2,3,0] and [0,3,0,0], both outside the hLRU invariant | the writes count from the set's start, as in `tlb2_target_entry` (756-813), leaving [2,3,0,0] with the hit way marked most recently used | high; not executed | `PpcTlb.TlbLookup`, shown by `PpcTlb.HitInWayOneBreaksHLru` | `PpcTlb.IntendedLookup`, proved by `PpcTlb.IntendedLookupKeepsHLru` and `PpcTlb.AsWrittenMatchesIntended` |

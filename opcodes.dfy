/**
 * The opcode encoder of the PowerPC test-vector generator: a closed table from
 * the 23 mnemonics of the ADD family to 32-bit instruction words, and an
 * independent description of those words through the XO-form and D-form field
 * layouts of the PowerPC 32-bit programming environments manual.
 *
 * Words are Python integers, so they are `nat` here; every table word is
 * proved to fit in 32 bits.
 */
module PpcOpcodes {
  import opened Wrappers

  /** The mnemonics the table knows. */
  const Mnemonics: set<string> := {
    "ADD", "ADD.", "ADDC", "ADDC.", "ADDCO", "ADDCO.", "ADDO", "ADDO.",
    "ADDE", "ADDE.", "ADDEO", "ADDEO.", "ADDI", "ADDIC", "ADDIS",
    "ADDME", "ADDME.", "ADDMEO", "ADDMEO.", "ADDZE", "ADDZE.", "ADDZEO", "ADDZEO."
  }

  /** The register-form mnemonics that have a "." twin (every one of them). */
  const RcBases: set<string> := {
    "ADD", "ADDC", "ADDCO", "ADDO", "ADDE", "ADDEO",
    "ADDME", "ADDMEO", "ADDZE", "ADDZEO"
  }

  /** The register forms with rB = r4: ADD, ADDC, ADDE and their variants. */
  const RbMnemonics: set<string> := {
    "ADD", "ADD.", "ADDC", "ADDC.", "ADDCO", "ADDCO.", "ADDO", "ADDO.",
    "ADDE", "ADDE.", "ADDEO", "ADDEO."
  }

  /** The register forms without an rB operand: ADDME, ADDZE and their variants. */
  const NoRbMnemonics: set<string> := {
    "ADDME", "ADDME.", "ADDMEO", "ADDMEO.", "ADDZE", "ADDZE.", "ADDZEO", "ADDZEO."
  }

  /** Pairs (base, O-variant) whose words differ only in the OE bit, with and without ".". */
  const OePairs: set<(string, string)> := {
    ("ADD", "ADDO"), ("ADD.", "ADDO."), ("ADDC", "ADDCO"), ("ADDC.", "ADDCO."),
    ("ADDE", "ADDEO"), ("ADDE.", "ADDEO."), ("ADDME", "ADDMEO"), ("ADDME.", "ADDMEO."),
    ("ADDZE", "ADDZEO"), ("ADDZE.", "ADDZEO.")
  }

  const TwoTo32: nat := 0x1_0000_0000

  /** Python's `imm & 0xFFFF`: two's-complement masking, also for negative `imm`. */
  function Low16(imm: int): (r: nat)
    ensures r < 0x1_0000
    ensures (imm - r) % 0x1_0000 == 0
  {
    imm % 0x1_0000
  }

  /**
   * gen_ppc_opcode: the if/elif chain of the script. A mnemonic outside the
   * table falls off the end of the chain, which Python reports as None.
   */
  function GenPpcOpcode(opc: string, imm: int): (r: Option<nat>)
    ensures r.Some? <==> opc in Mnemonics
    ensures r.Some? ==> r.value < TwoTo32
  {
    if opc == "ADD" then Some(0x1F * 0x400_0000 + 3 * 0x20_0000 + 3 * 0x1_0000 + 4 * 0x800 + 0x10A * 2)
    else if opc == "ADD." then Some(0x1F * 0x400_0000 + 3 * 0x20_0000 + 3 * 0x1_0000 + 4 * 0x800 + 0x10A * 2 + 1)
    else if opc == "ADDC" then Some(0x1F * 0x400_0000 + 3 * 0x20_0000 + 3 * 0x1_0000 + 4 * 0x800 + 0xA * 2)
    else if opc == "ADDC." then Some(0x1F * 0x400_0000 + 3 * 0x20_0000 + 3 * 0x1_0000 + 4 * 0x800 + 0xA * 2 + 1)
    else if opc == "ADDCO" then Some(0x1F * 0x400_0000 + 3 * 0x20_0000 + 3 * 0x1_0000 + 4 * 0x800 + 0x20A * 2)
    else if opc == "ADDCO." then Some(0x1F * 0x400_0000 + 3 * 0x20_0000 + 3 * 0x1_0000 + 4 * 0x800 + 0x20A * 2 + 1)
    else if opc == "ADDO" then Some(0x1F * 0x400_0000 + 3 * 0x20_0000 + 3 * 0x1_0000 + 4 * 0x800 + 0x30A * 2)
    else if opc == "ADDO." then Some(0x1F * 0x400_0000 + 3 * 0x20_0000 + 3 * 0x1_0000 + 4 * 0x800 + 0x30A * 2 + 1)
    else if opc == "ADDE" then Some(0x1F * 0x400_0000 + 3 * 0x20_0000 + 3 * 0x1_0000 + 4 * 0x800 + 0x8A * 2)
    else if opc == "ADDE." then Some(0x1F * 0x400_0000 + 3 * 0x20_0000 + 3 * 0x1_0000 + 4 * 0x800 + 0x8A * 2 + 1)
    else if opc == "ADDEO" then Some(0x1F * 0x400_0000 + 3 * 0x20_0000 + 3 * 0x1_0000 + 4 * 0x800 + 0x28A * 2)
    else if opc == "ADDEO." then Some(0x1F * 0x400_0000 + 3 * 0x20_0000 + 3 * 0x1_0000 + 4 * 0x800 + 0x28A * 2 + 1)
    else if opc == "ADDI" then Some(0x0E * 0x400_0000 + 3 * 0x20_0000 + 3 * 0x1_0000 + Low16(imm))
    else if opc == "ADDIC" then Some(0x0C * 0x400_0000 + 3 * 0x20_0000 + 3 * 0x1_0000 + Low16(imm))
    else if opc == "ADDIS" then Some(0x0F * 0x400_0000 + 3 * 0x20_0000 + 3 * 0x1_0000 + Low16(imm))
    else if opc == "ADDME" then Some(0x1F * 0x400_0000 + 3 * 0x20_0000 + 3 * 0x1_0000 + 0xEA * 2)
    else if opc == "ADDME." then Some(0x1F * 0x400_0000 + 3 * 0x20_0000 + 3 * 0x1_0000 + 0xEA * 2 + 1)
    else if opc == "ADDMEO" then Some(0x1F * 0x400_0000 + 3 * 0x20_0000 + 3 * 0x1_0000 + 0x2EA * 2)
    else if opc == "ADDMEO." then Some(0x1F * 0x400_0000 + 3 * 0x20_0000 + 3 * 0x1_0000 + 0x2EA * 2 + 1)
    else if opc == "ADDZE" then Some(0x1F * 0x400_0000 + 3 * 0x20_0000 + 3 * 0x1_0000 + 0xCA * 2)
    else if opc == "ADDZE." then Some(0x1F * 0x400_0000 + 3 * 0x20_0000 + 3 * 0x1_0000 + 0xCA * 2 + 1)
    else if opc == "ADDZEO" then Some(0x1F * 0x400_0000 + 3 * 0x20_0000 + 3 * 0x1_0000 + 0x2CA * 2)
    else if opc == "ADDZEO." then Some(0x1F * 0x400_0000 + 3 * 0x20_0000 + 3 * 0x1_0000 + 0x2CA * 2 + 1)
    else None
  }

  // ---------------------------------------------------------------------------
  // Field layout of an instruction word (bit 0 is the least significant bit).

  /** Primary opcode: the top 6 bits. */
  function Primary(w: nat): nat { w / 0x400_0000 }
  /** rD (or rS): bits 25..21. */
  function RdField(w: nat): nat { (w / 0x20_0000) % 32 }
  /** rA: bits 20..16. */
  function RaField(w: nat): nat { (w / 0x1_0000) % 32 }
  /** rB: bits 15..11. */
  function RbField(w: nat): nat { (w / 0x800) % 32 }
  /** OE: bit 10. */
  function OeBit(w: nat): bool { (w / 0x400) % 2 == 1 }
  /** The 9-bit extended opcode of the XO form: bits 9..1. */
  function XoField(w: nat): nat { (w / 2) % 0x200 }
  /** Rc: bit 0. */
  function RcBit(w: nat): bool { w % 2 == 1 }
  /** The 16-bit immediate of the D form: bits 15..0. */
  function ImmField(w: nat): nat { w % 0x1_0000 }

  function BitVal(b: bool): nat { if b then 1 else 0 }

  /** An XO-form word: OPCD | rD | rA | rB | OE | XO | Rc, from the top down. */
  function XoWord(primary: nat, rd: nat, ra: nat, rb: nat, oe: bool, xo: nat, rc: bool): (w: nat)
    requires primary < 64 && rd < 32 && ra < 32 && rb < 32 && xo < 0x200
    ensures w < TwoTo32
    ensures w == XoWord'(primary, rd, ra, rb, xo) + BitVal(oe) * 0x400 + BitVal(rc)
  {
    primary * 0x400_0000 + rd * 0x20_0000 + ra * 0x1_0000 + rb * 0x800 + BitVal(oe) * 0x400 + xo * 2 + BitVal(rc)
  }

  /** The XO-form word with OE and Rc clear. */
  function XoWord'(primary: nat, rd: nat, ra: nat, rb: nat, xo: nat): nat {
    primary * 0x400_0000 + rd * 0x20_0000 + ra * 0x1_0000 + rb * 0x800 + xo * 2
  }

  /** A D-form word: OPCD | rD | rA | 16-bit immediate, from the top down. */
  function DWord(primary: nat, rd: nat, ra: nat, imm16: nat): (w: nat)
    requires primary < 64 && rd < 32 && ra < 32 && imm16 < 0x1_0000
    ensures w < TwoTo32
    ensures w % 0x1_0000 == imm16 && w / 0x1_0000 == (primary * 32 + rd) * 32 + ra
  {
    ((primary * 32 + rd) * 32 + ra) * 0x1_0000 + imm16
  }

  /** The bits of `h * 2^10 + l` above bit 9 are `h`, when `l` fits in 10 bits. */
  lemma AboveBit10(w: nat, h: nat, l: nat)
    requires w == h * 0x400 + l && l < 0x400
    ensures w / 0x400 == h
  {
  }

  /** The bits of `h * 2^11 + l` above bit 10 are `h`, when `l` fits in 11 bits. */
  lemma AboveBit11(w: nat, h: nat, l: nat)
    requires w == h * 0x800 + l && l < 0x800
    ensures w / 0x800 == h
  {
  }

  /** The bits of `h * 2^16 + l` above bit 15 are `h`, when `l` fits in 16 bits. */
  lemma AboveBit16(w: nat, h: nat, l: nat)
    requires w == h * 0x1_0000 + l && l < 0x1_0000
    ensures w / 0x1_0000 == h
  {
  }

  /** The bits of `h * 2^21 + l` above bit 20 are `h`, when `l` fits in 21 bits. */
  lemma AboveBit21(w: nat, h: nat, l: nat)
    requires w == h * 0x20_0000 + l && l < 0x20_0000
    ensures w / 0x20_0000 == h
  {
  }

  // ---------------------------------------------------------------------------
  // Reference description of the table: a closed map from each mnemonic to its
  // form (extended opcode or primary opcode) and its OE and Rc flags.

  datatype Form =
    | XoForm(xo: nat, usesRb: bool)  // register forms: primary opcode 31
    | DForm(primary: nat)            // immediate forms

  datatype Descriptor = Descriptor(form: Form, oe: bool, rc: bool) {
    predicate WellFormed() {
      match form
      case XoForm(xo, _) => xo < 0x200
      case DForm(p) => p < 64 && !oe && !rc
    }
  }

  const Add := XoForm(0x10A, true)
  const AddC := XoForm(0xA, true)
  const AddE := XoForm(0x8A, true)
  const AddMe := XoForm(0xEA, false)
  const AddZe := XoForm(0xCA, false)

  /** The descriptor of each mnemonic of the table, in the order the script tests them. */
  function Layout(m: string): Option<Descriptor> {
    if m == "ADD" then Some(Descriptor(Add, false, false))
    else if m == "ADD." then Some(Descriptor(Add, false, true))
    else if m == "ADDC" then Some(Descriptor(AddC, false, false))
    else if m == "ADDC." then Some(Descriptor(AddC, false, true))
    else if m == "ADDCO" then Some(Descriptor(AddC, true, false))
    else if m == "ADDCO." then Some(Descriptor(AddC, true, true))
    else if m == "ADDO" then Some(Descriptor(Add, true, false))
    else if m == "ADDO." then Some(Descriptor(Add, true, true))
    else if m == "ADDE" then Some(Descriptor(AddE, false, false))
    else if m == "ADDE." then Some(Descriptor(AddE, false, true))
    else if m == "ADDEO" then Some(Descriptor(AddE, true, false))
    else if m == "ADDEO." then Some(Descriptor(AddE, true, true))
    else if m == "ADDI" then Some(Descriptor(DForm(0x0E), false, false))
    else if m == "ADDIC" then Some(Descriptor(DForm(0x0C), false, false))
    else if m == "ADDIS" then Some(Descriptor(DForm(0x0F), false, false))
    else if m == "ADDME" then Some(Descriptor(AddMe, false, false))
    else if m == "ADDME." then Some(Descriptor(AddMe, false, true))
    else if m == "ADDMEO" then Some(Descriptor(AddMe, true, false))
    else if m == "ADDMEO." then Some(Descriptor(AddMe, true, true))
    else if m == "ADDZE" then Some(Descriptor(AddZe, false, false))
    else if m == "ADDZE." then Some(Descriptor(AddZe, false, true))
    else if m == "ADDZEO" then Some(Descriptor(AddZe, true, false))
    else if m == "ADDZEO." then Some(Descriptor(AddZe, true, true))
    else None
  }

  /** The word the PEM layout gives for a descriptor, with rD = rA = 3 and rB = 4 where used. */
  function Encode(d: Descriptor, imm: int): (w: nat)
    requires d.WellFormed()
    ensures w < TwoTo32
  {
    match d.form
    case XoForm(xo, usesRb) => XoWord(0x1F, 3, 3, if usesRb then 4 else 0, d.oe, xo, d.rc)
    case DForm(p) => DWord(p, 3, 3, Low16(imm))
  }

  /**
   * The if/elif chain agrees with the layout table: the same mnemonics have a
   * word, and each word is the XO-form or D-form word of its descriptor.
   */
  lemma GenMatchesLayout(m: string, imm: int)
    ensures Layout(m).Some? <==> m in Mnemonics
    ensures Layout(m).Some? ==>
      Layout(m).value.WellFormed() && GenPpcOpcode(m, imm) == Some(Encode(Layout(m).value, imm))
    ensures Layout(m).None? ==> GenPpcOpcode(m, imm) == None
  {
    LayoutDomain(m);
    if m in Mnemonics {
      LayoutWords(m, imm);
    } else {
      UnknownMnemonic(m, imm);
    }
  }

  /** The layout table describes exactly the mnemonics of the chain. */
  lemma LayoutDomain(m: string)
    ensures Layout(m).Some? <==> m in Mnemonics
  {
  }

  /** Each word of the chain is the XO-form or D-form word of the mnemonic's descriptor. */
  lemma LayoutWords(m: string, imm: int)
    requires m in Mnemonics
    ensures Layout(m).Some? && Layout(m).value.WellFormed()
    ensures GenPpcOpcode(m, imm) == Some(Encode(Layout(m).value, imm))
  {
    if m in {"ADD", "ADD.", "ADDO", "ADDO."} {
      LayoutWordsGroupAdd(m, imm);
    } else if m in {"ADDC", "ADDC.", "ADDCO", "ADDCO."} {
      LayoutWordsGroupAddC(m, imm);
    } else if m in {"ADDE", "ADDE.", "ADDEO", "ADDEO."} {
      LayoutWordsGroupAddE(m, imm);
    } else if m in {"ADDI", "ADDIC", "ADDIS"} {
      LayoutWordsGroupImm(m, imm);
    } else if m in {"ADDME", "ADDME.", "ADDMEO", "ADDMEO."} {
      LayoutWordsGroupAddMe(m, imm);
    } else {
      LayoutWordsGroupAddZe(m, imm);
    }
  }

  // LayoutWords, one family of mnemonics at a time.

  lemma LayoutWordsGroupAdd(m: string, imm: int)
    requires m in {"ADD", "ADD.", "ADDO", "ADDO."}
    ensures Layout(m).Some? && Layout(m).value.WellFormed()
    ensures GenPpcOpcode(m, imm) == Some(Encode(Layout(m).value, imm))
  {
  }

  lemma LayoutWordsGroupAddC(m: string, imm: int)
    requires m in {"ADDC", "ADDC.", "ADDCO", "ADDCO."}
    ensures Layout(m).Some? && Layout(m).value.WellFormed()
    ensures GenPpcOpcode(m, imm) == Some(Encode(Layout(m).value, imm))
  {
  }

  lemma LayoutWordsGroupAddE(m: string, imm: int)
    requires m in {"ADDE", "ADDE.", "ADDEO", "ADDEO."}
    ensures Layout(m).Some? && Layout(m).value.WellFormed()
    ensures GenPpcOpcode(m, imm) == Some(Encode(Layout(m).value, imm))
  {
  }

  lemma LayoutWordsGroupImm(m: string, imm: int)
    requires m in {"ADDI", "ADDIC", "ADDIS"}
    ensures Layout(m).Some? && Layout(m).value.WellFormed()
    ensures GenPpcOpcode(m, imm) == Some(Encode(Layout(m).value, imm))
  {
  }

  lemma LayoutWordsGroupAddMe(m: string, imm: int)
    requires m in {"ADDME", "ADDME.", "ADDMEO", "ADDMEO."}
    ensures Layout(m).Some? && Layout(m).value.WellFormed()
    ensures GenPpcOpcode(m, imm) == Some(Encode(Layout(m).value, imm))
  {
  }

  lemma LayoutWordsGroupAddZe(m: string, imm: int)
    requires m in {"ADDZE", "ADDZE.", "ADDZEO", "ADDZEO."}
    ensures Layout(m).Some? && Layout(m).value.WellFormed()
    ensures GenPpcOpcode(m, imm) == Some(Encode(Layout(m).value, imm))
  {
  }

  /** In the table, "." marks Rc, "O" marks OE, and only register forms carry either. */
  lemma SuffixFlags(m: string)
    requires Layout(m).Some?
    ensures Layout(m).value.rc <==> m[|m| - 1] == '.'
    ensures Layout(m).value.oe <==> 'O' in m
    ensures Layout(m).value.form.DForm? ==> !Layout(m).value.oe && !Layout(m).value.rc
  {
  }

  // ---------------------------------------------------------------------------
  // Properties of the table.

  lemma AddWord(imm: int)
    ensures GenPpcOpcode("ADD", imm) == Some(0x7C63_2214)
  {
  }

  /** Every word is below 2^32 and its top 6 bits are the primary opcode of its form. */
  lemma PrimaryOpcodes(m: string, imm: int)
    requires m in Mnemonics
    ensures GenPpcOpcode(m, imm).value < TwoTo32
    ensures Primary(GenPpcOpcode(m, imm).value) ==
      if m == "ADDI" then 0x0E else if m == "ADDIC" then 0x0C else if m == "ADDIS" then 0x0F else 0x1F
  {
    LayoutWords(m, imm);
    var d := Layout(m).value;
    if d.form.DForm? {
      var w := Encode(d, imm);
      assert w / 0x1_0000 == (d.form.primary * 32 + 3) * 32 + 3;
      assert w / 0x400_0000 == (w / 0x1_0000) / 0x400;
    }
  }

  /** The "." twin of every register form is its base word plus 1. */
  lemma RcTwin(m: string, imm: int)
    requires m in RcBases
    ensures m + "." in Mnemonics && m in Mnemonics
    ensures GenPpcOpcode(m + ".", imm).value == GenPpcOpcode(m, imm).value + 1
  {
    if m == "ADD" {
      assert m + "." == "ADD.";
    } else if m == "ADDC" {
      assert m + "." == "ADDC.";
    } else if m == "ADDCO" {
      assert m + "." == "ADDCO.";
    } else if m == "ADDO" {
      assert m + "." == "ADDO.";
    } else if m == "ADDE" {
      assert m + "." == "ADDE.";
    } else if m == "ADDEO" {
      assert m + "." == "ADDEO.";
    } else if m == "ADDME" {
      assert m + "." == "ADDME.";
    } else if m == "ADDMEO" {
      assert m + "." == "ADDMEO.";
    } else if m == "ADDZE" {
      assert m + "." == "ADDZE.";
    } else if m == "ADDZEO" {
      assert m + "." == "ADDZEO.";
    }
  }

  /** Rc (bit 0) is set exactly in the words of the "."-suffixed mnemonics. */
  lemma RcBitSuffix(m: string, imm: int)
    requires m in Mnemonics && m != "ADDI" && m != "ADDIC" && m != "ADDIS"
    ensures RcBit(GenPpcOpcode(m, imm).value) <==> m[|m| - 1] == '.'
  {
    LayoutWords(m, imm);
    SuffixFlags(m);
    var d := Layout(m).value;
    var base := XoWord'(0x1F, 3, 3, if d.form.usesRb then 4 else 0, d.form.xo);
    assert base % 2 == 0;
    assert GenPpcOpcode(m, imm).value == base + BitVal(d.oe) * 0x400 + BitVal(d.rc);
  }

  /** OE (bit 10) is set exactly in the words of the mnemonics with an "O" variant letter. */
  lemma OeBitSuffix(m: string, imm: int)
    requires m in Mnemonics && m != "ADDI" && m != "ADDIC" && m != "ADDIS"
    ensures OeBit(GenPpcOpcode(m, imm).value) <==> 'O' in m
  {
    LayoutWords(m, imm);
    SuffixFlags(m);
    var d := Layout(m).value;
    var rb := if d.form.usesRb then 4 else 0;
    var high := 0x1F * 0x8000 + 3 * 0x400 + 3 * 0x20 + rb;
    var w := GenPpcOpcode(m, imm).value;
    AboveBit10(w, high * 2 + BitVal(d.oe), d.form.xo * 2 + BitVal(d.rc));
  }

  /** An O variant differs from its base only in the OE bit (0x400). */
  lemma OeVariant(m: string, mo: string, imm: int)
    requires (m, mo) in OePairs
    ensures m in Mnemonics && mo in Mnemonics
    ensures GenPpcOpcode(mo, imm).value == GenPpcOpcode(m, imm).value + 0x400
  {
    if (m, mo) == ("ADD", "ADDO") {
      assert m == "ADD" && mo == "ADDO";
    } else if (m, mo) == ("ADD.", "ADDO.") {
      assert m == "ADD." && mo == "ADDO.";
    } else if (m, mo) == ("ADDC", "ADDCO") {
      assert m == "ADDC" && mo == "ADDCO";
    } else if (m, mo) == ("ADDC.", "ADDCO.") {
      assert m == "ADDC." && mo == "ADDCO.";
    } else if (m, mo) == ("ADDE", "ADDEO") {
      assert m == "ADDE" && mo == "ADDEO";
    } else if (m, mo) == ("ADDE.", "ADDEO.") {
      assert m == "ADDE." && mo == "ADDEO.";
    } else if (m, mo) == ("ADDME", "ADDMEO") {
      assert m == "ADDME" && mo == "ADDMEO";
    } else if (m, mo) == ("ADDME.", "ADDMEO.") {
      assert m == "ADDME." && mo == "ADDMEO.";
    } else if (m, mo) == ("ADDZE", "ADDZEO") {
      assert m == "ADDZE" && mo == "ADDZEO";
    } else if (m, mo) == ("ADDZE.", "ADDZEO.") {
      assert m == "ADDZE." && mo == "ADDZEO.";
    }
  }

  /**
   * The immediate forms are a fixed upper half (rD = rA = 3) plus the low 16
   * bits of the immediate; no range check is made.
   */
  lemma ImmediateForms(imm: int)
    ensures GenPpcOpcode("ADDI", imm).value == 0x3863_0000 + Low16(imm)
    ensures GenPpcOpcode("ADDIC", imm).value == 0x3063_0000 + Low16(imm)
    ensures GenPpcOpcode("ADDIS", imm).value == 0x3C63_0000 + Low16(imm)
    ensures ImmField(GenPpcOpcode("ADDI", imm).value) == Low16(imm)
  {
  }

  /** Two immediates with the same low 16 bits give the same word, for every mnemonic. */
  lemma ImmediateTruncation(m: string, imm1: int, imm2: int)
    requires (imm1 - imm2) % 0x1_0000 == 0
    ensures GenPpcOpcode(m, imm1) == GenPpcOpcode(m, imm2)
  {
    assert Low16(imm1) == Low16(imm2) by {
      var d := (imm1 - imm2) / 0x1_0000;
      assert imm1 == imm2 + d * 0x1_0000;
    }
  }

  /** ADDME and ADDZE (and their variants) leave rB zero; the other register forms put 4 there. */
  lemma RbFieldValues(m: string, imm: int)
    requires m in Mnemonics && m != "ADDI" && m != "ADDIC" && m != "ADDIS"
    ensures RbField(GenPpcOpcode(m, imm).value) == if m in NoRbMnemonics then 0 else 4
  {
    LayoutWords(m, imm);
    RbLayout(m);
    var d := Layout(m).value;
    var rb := if d.form.usesRb then 4 else 0;
    var hi := ((0x1F * 32 + 3) * 32 + 3) * 32 + rb;
    AboveBit11(GenPpcOpcode(m, imm).value, hi, BitVal(d.oe) * 0x400 + d.form.xo * 2 + BitVal(d.rc));
    LowFiveOf(((0x1F * 32 + 3) * 32 + 3), rb);
  }

  /** The register forms without rB are exactly ADDME, ADDZE and their variants. */
  lemma RbLayout(m: string)
    requires m in Mnemonics && m != "ADDI" && m != "ADDIC" && m != "ADDIS"
    ensures Layout(m).Some? && Layout(m).value.form.XoForm?
    ensures Layout(m).value.form.usesRb <==> m !in NoRbMnemonics
  {
    if m in NoRbMnemonics {
      RbLayoutNone(m);
    } else {
      RbLayoutFour(m);
    }
  }

  lemma RbLayoutNone(m: string)
    requires m in NoRbMnemonics
    ensures Layout(m).Some? && Layout(m).value.form.XoForm? && !Layout(m).value.form.usesRb
  {
  }

  lemma RbLayoutFour(m: string)
    requires m in RbMnemonics
    ensures Layout(m).Some? && Layout(m).value.form.XoForm? && Layout(m).value.form.usesRb
  {
  }

  /** Every word of the table names r3 as both rD and rA. */
  lemma OperandRegisters(m: string, imm: int)
    requires m in Mnemonics
    ensures RdField(GenPpcOpcode(m, imm).value) == 3 && RaField(GenPpcOpcode(m, imm).value) == 3
  {
    LayoutWords(m, imm);
    var d := Layout(m).value;
    var w := GenPpcOpcode(m, imm).value;
    var top := if d.form.DForm? then d.form.primary else 0x1F;
    var low := if d.form.DForm? then Low16(imm) else (if d.form.usesRb then 4 else 0) * 0x800 + BitVal(d.oe) * 0x400 + d.form.xo * 2 + BitVal(d.rc);
    var mid := top * 32 + 3;
    AboveBit16(w, mid * 32 + 3, low);
    AboveBit21(w, mid, 3 * 0x1_0000 + low);
    LowFive(top);
    LowFive(mid);
  }

  /** The low five bits of `t * 32 + r` are `r`. */
  lemma LowFiveOf(t: nat, r: nat)
    requires r < 32
    ensures (t * 32 + r) % 32 == r
  {
  }

  /** The low five bits of `t * 32 + 3` are 3. */
  lemma LowFive(t: nat)
    ensures (t * 32 + 3) % 32 == 3
  {
  }

  /** A mnemonic outside the table has no word. */
  lemma UnknownMnemonic(m: string, imm: int)
    requires m !in Mnemonics
    ensures GenPpcOpcode(m, imm) == None
  {
  }
}

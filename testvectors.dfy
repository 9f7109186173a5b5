/**
 * One line of the instruction-test log, as the test-vector generator reads
 * it: the line is stripped, its mnemonic taken from the first eight columns,
 * its immediate found, its opcode word generated, and its operand fields
 * scanned.
 */
module TestVectors {
  import opened Wrappers
  import opened PpcOpcodes
  import opened LogScanner

  /** What the generator makes of one log line. */
  datatype Record = Record(
    mnemonic: string,
    imm: ImmScan,
    word: Option<nat>,   // None where the script raises or hangs before writing a word
    fields: seq<Field>,
    stop: Stop)

  /** The record of a raw log line (trailing newline included). */
  function LineRecord(raw: string): Record {
    var line := Strip(StrBlanks, raw);
    var m := MnemonicOf(line);
    var imm := FindImmFrom(line, FieldStart);
    var word := match ImmValue(imm)
      case Some(v) => GenPpcOpcode(m, v)
      case None => None;
    var scan := ScanFrom(line, FieldStart);
    Record(m, imm, word, scan.fields, scan.stop)
  }

  /** The body of the script's per-line loop: strip, mnemonic, find_imm, the opcode word, the field scan. */
  method ProcessLine(raw: string) returns (rec: Record)
    ensures rec == LineRecord(raw)
  {
    var line := Strip(StrBlanks, raw);
    var opcode := RStrip(StrBlanks, Slice(line, 0, 8));
    var imm := FindImm(line);
    var word: Option<nat> := None;
    var v := ImmValue(imm);
    if v.Some? {
      word := GenPpcOpcode(opcode, v.value);
    }
    var fields, stop := ScanFields(line);
    rec := Record(opcode, imm, word, fields, stop);
  }

  /**
   * A word is written exactly when the mnemonic is in the table and find_imm
   * neither raised nor hung; it is the table word for the immediate found
   * (0 when the line has none), and its "0x{:X}" text reads back as the word.
   */
  lemma RecordWord(raw: string)
    ensures var r := LineRecord(raw);
      (r.word.Some? <==> r.mnemonic in Mnemonics && (r.imm.Found? || r.imm.NotFound?)) &&
      (r.imm.NotFound? ==> r.word == GenPpcOpcode(r.mnemonic, 0)) &&
      (r.imm.Found? ==> r.word == GenPpcOpcode(r.mnemonic, r.imm.value)) &&
      (r.word.Some? ==> r.word.value < TwoTo32 && ParseInt16("0x" + FormatHex(r.word.value)) == Some(r.word.value))
  {
    var r := LineRecord(raw);
    if r.word.Some? {
      ParseFormatRoundTrip(r.word.value);
    }
  }

  /**
   * The mnemonic is at most eight characters, a prefix of the stripped line
   * that does not end in whitespace, and what it leaves of the first eight
   * characters is whitespace; the fields are operand names with tokens
   * of at most ten characters.
   */
  lemma RecordShape(raw: string)
    ensures var r := LineRecord(raw);
      |r.mnemonic| <= 8 && r.mnemonic == Strip(StrBlanks, raw)[..|r.mnemonic|] &&
      (r.mnemonic == [] || !IsSpace(r.mnemonic[|r.mnemonic| - 1])) &&
      (forall k :: |r.mnemonic| <= k < |Strip(StrBlanks, raw)| && k < 8 ==> IsSpace(Strip(StrBlanks, raw)[k])) &&
      forall k :: 0 <= k < |r.fields| ==>
        r.fields[k].name in {"rD", "rA", "rB", "XER", "CR"} && |r.fields[k].value| <= TokenLength
  {
  }
}

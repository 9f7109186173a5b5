/**
 * The exceptions the MMU raises, as values: an instruction storage
 * interrupt (ISI) with the cause bits passed to the exception handler, or a
 * data storage interrupt (DSI) with the DSISR and DAR values the MMU stores
 * before raising it. Also the register numbers and MSR bits the MMU uses.
 */
module PpcExceptions {

  /** The exception an access raises. */
  datatype Fault = Isi(cause: bv32) | Dsi(dsisr: bv32, dar: bv32)

  /** SPR numbers of the data-storage status register, the data address register and SDR1. */
  const DSISR: nat := 18
  const DAR: nat := 19
  const SDR1: nat := 25

  /** MSR bits: data relocation (DR), instruction relocation (IR) and problem state (PR). */
  const MsrDr: bv32 := 0x10
  const MsrIr: bv32 := 0x20
  const MsrPr: bv32 := 0x4000

  /** DSISR cause bits: no PTE found, and a protection violation. */
  const NoTranslation: bv32 := 0x4000_0000
  const ProtectionViolation: bv32 := 0x0800_0000
  /** ISI cause bit of a fetch from a no-execute segment. */
  const NoExecute: bv32 := 0x1000_0000

  /** The DSISR of a data exception: the cause bits, and bit 25 for a store. */
  function DsisrBits(cause: bv32, isWrite: bool): (d: bv32)
    ensures cause & 0x0200_0000 == 0 ==> (d & 0x0200_0000 != 0 <==> isWrite)
    ensures d & !0x0200_0000 == cause & !0x0200_0000
  {
    cause | ((if isWrite then 1 else 0) << 25)
  }
}

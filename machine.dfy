/**
 * The part of the device the driver touches, as a value: the flash
 * controller registers it writes, the option-byte registers it reads, the
 * two flash memories, the interrupt mask, and the ordered log of every
 * write the driver performs. NSSR is not stored: each read of it takes the
 * next value of a status oracle, and the machine counts the reads.
 */
module FlashMachine {
  import opened Uint32
  import opened Registers
  import opened Protection

  /** One write the driver performs, in program order. */
  datatype Access =
    | NsKey(key: bv32)                    // FLASH->NSKEYR
    | OptKey(key: bv32)                   // FLASH->OPTKEYR
    | NsCr(value: bv32)                   // FLASH->NSCR
    | OptCr(value: bv32)                  // FLASH->OPTCR
    | EdataPrg(bank: u32, value: bv32)    // FLASH->EDATAxR_PRG
    | StoreWord(address: u32, word: bv32) // 32-bit store into main flash
    | StoreHalf(address: u32, half: bv16) // 16-bit store into high-cyclic flash
    | DisableIrq                          // __disable_irq()
    | SetPrimask(masked: bool)            // __set_PRIMASK(saved)

  /**
   * The FLASH register block as the driver sees it: the two control
   * registers it writes, the EDATAxR words (CUR read, PRG written) and the
   * protection registers it only reads.
   */
  datatype FlashRegs = FlashRegs(
    nscr: bv32,
    optcr: bv32,
    edata1Cur: bv32,
    edata2Cur: bv32,
    edata1Prg: bv32,
    edata2Prg: bv32,
    prot: ProtectionRegs)

  /**
   * The driver-visible device state. srReads is the number of NSSR reads so
   * far: the next read returns status(srReads) for the status oracle of the
   * run. primask is true while interrupts are masked.
   */
  datatype Machine = Machine(
    srReads: nat,
    regs: FlashRegs,
    mainFlash: map<u32, bv32>,
    hcFlash: map<u32, bv16>,
    primask: bool,
    trace: seq<Access>)

  /** What successive NSSR reads return. */
  type Status = nat -> bv32

  /**
   * How an engine ends: it returns its boolean (true = error, as
   * RETURN_TRUE_IF_TRUE at src/flash.c:15 makes it), it never returns (the
   * for(;;) at src/flash.c:272-275), or it reaches a shift that C leaves
   * undefined.
   */
  datatype Outcome = Returned(error: bool) | Halted | Undefined

  /** An engine's outcome with the machine it leaves behind. */
  datatype Finish = Finish(outcome: Outcome, machine: Machine)

  /** The value the next NSSR read returns. */
  function NextStatus(status: Status, m: Machine): bv32
  {
    status(m.srReads)
  }

  /** One NSSR read: the oracle advances. */
  function ReadStatus(m: Machine): Machine
  {
    m.(srReads := m.srReads + 1)
  }

  /**
   * while (FLASH->NSSR & FLASH_SR_BSY) {}: one read after which BSY is
   * taken to be clear; the value read is not used.
   */
  function WaitNotBusy(m: Machine): Machine
  {
    ReadStatus(m)
  }

  /** FLASH->NSCR = value. */
  function WriteNscr(m: Machine, value: bv32): Machine
  {
    m.(regs := m.regs.(nscr := value), trace := m.trace + [NsCr(value)])
  }

  /** FLASH->OPTCR = value. */
  function WriteOptcr(m: Machine, value: bv32): Machine
  {
    m.(regs := m.regs.(optcr := value), trace := m.trace + [OptCr(value)])
  }

  /** *address = word in main flash. */
  function StoreWordAt(m: Machine, address: u32, word: bv32): Machine
  {
    m.(mainFlash := m.mainFlash[address := word], trace := m.trace + [StoreWord(address, word)])
  }

  /** *address = half in high-cyclic flash. */
  function StoreHalfAt(m: Machine, address: u32, half: bv16): Machine
  {
    m.(hcFlash := m.hcFlash[address := half], trace := m.trace + [StoreHalf(address, half)])
  }

  /** __disable_irq(). */
  function MaskInterrupts(m: Machine): Machine
  {
    m.(primask := true, trace := m.trace + [DisableIrq])
  }

  /** __set_PRIMASK(saved). */
  function RestorePrimask(m: Machine, saved: bool): Machine
  {
    m.(primask := saved, trace := m.trace + [SetPrimask(saved)])
  }

  /**
   * unlockFlash (src/flash.c:166-170): the two NSKEYR writes, KEY1 then
   * KEY2, and nothing else.
   */
  function UnlockFlash(m: Machine): Machine
  {
    m.(trace := m.trace + NsUnlock)
  }

  /** The two NSKEYR writes of unlockFlash. */
  const NsUnlock: seq<Access> := [NsKey(FLASH_KEY1), NsKey(FLASH_KEY2)]

  /**
   * unlockFlashOptionBytes (src/flash.c:175-179): the two OPTKEYR writes,
   * OPT_KEY1 then OPT_KEY2, and nothing else.
   */
  function UnlockFlashOptionBytes(m: Machine): Machine
  {
    m.(trace := m.trace + [OptKey(FLASH_OPT_KEY1), OptKey(FLASH_OPT_KEY2)])
  }

  /** The EDATAxR_CUR word of a bank (bank 1, otherwise bank 2). */
  function EdataCur(m: Machine, bank: u32): bv32
  {
    if bank == 1 then m.regs.edata1Cur else m.regs.edata2Cur
  }

  /** *eDataRegProg = value for bank 1 or 2. */
  function WriteEdataPrg(m: Machine, bank: u32, value: bv32): Machine
    requires bank == 1 || bank == 2
  {
    if bank == 1 then m.(regs := m.regs.(edata1Prg := value), trace := m.trace + [EdataPrg(1, value)])
    else m.(regs := m.regs.(edata2Prg := value), trace := m.trace + [EdataPrg(2, value)])
  }

  // ---------------------------------------------------------------------------
  // Trace algebra: a run appends one write at a time; its statement lists them.
  // ---------------------------------------------------------------------------

  lemma AppendTwo<T>(t: seq<T>, a: T, b: T)
    ensures t + [a] + [b] == t + [a, b]
  {
  }

  lemma AppendThree<T>(t: seq<T>, a: T, b: T, c: T)
    ensures t + [a] + [b] + [c] == t + [a, b, c]
  {
  }

  lemma AppendFour<T>(t: seq<T>, a: T, b: T, c: T, d: T)
    ensures t + [a] + [b] + [c] + [d] == t + [a, b, c, d]
  {
  }

  lemma AppendThreeAfterPair<T>(t: seq<T>, a: T, b: T, c: T, d: T, e: T)
    ensures t + [a, b] + [c] + [d] + [e] == t + [a, b, c, d, e]
  {
  }

  lemma AppendAssoc<T>(t: seq<T>, s: seq<T>, a: T)
    ensures t + s + [a] == t + (s + [a])
  {
  }

  lemma AppendFourAssoc<T>(t: seq<T>, s: seq<T>, a: T, b: T, c: T, d: T)
    ensures t + s + [a] + [b] + [c] + [d] == t + (s + [a] + [b] + [c] + [d])
  {
  }
}

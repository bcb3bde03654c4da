/**
 * The driver's operations as functions of the machine they start from and
 * of the status oracle: highCyclic_setArea(_internal), flashErase,
 * flashWrite128, highCyclic_write16 and the two exported entry points.
 * Each follows the C statement by statement; the methods of class
 * Driver.Flash are proved to compute exactly these.
 */
module Engines {
  import opened Uint32
  import opened Registers
  import opened FlashLayout
  import opened HighCyclicConfig
  import opened Protection
  import opened AddressResolver
  import opened FlashMachine

  // ---------------------------------------------------------------------------
  // highCyclic_setArea_internal / highCyclic_setArea (src/flash.c:187-241, 469-473)
  // ---------------------------------------------------------------------------

  /**
   * highCyclic_setArea_internal: nothing for a bank other than 1 or 2 or
   * when EDATAxR_CUR already holds the encoding; one NSSR read and nothing
   * else when that read shows an error or an unfinished operation;
   * otherwise the option-byte sequence that programs EDATAxR_PRG.
   */
  function SetAreaInternalRun(status: Status, m: Machine, bank: u32, sectorCount: u32): Machine
  {
    if !(bank == 1 || bank == 2) then m
    else
      var configuration := Configuration(sectorCount);
      if EdataCur(m, bank) == configuration then m
      else if StatusBlocksStart(NextStatus(status, m)) then ReadStatus(m)
      else
        var m1 := UnlockFlashOptionBytes(ReadStatus(m));
        var m2 := WriteEdataPrg(m1, bank, configuration);
        var m3 := WriteOptcr(m2, OptionStart(m2.regs.optcr));
        var m4 := WaitNotBusy(m3);
        WriteOptcr(m4, FLASH_OPTCR_OPTLOCK)
  }

  /** highCyclic_setArea: bank 1 first, then bank 2 from whatever bank 1 left. */
  function SetAreaRun(status: Status, m: Machine, sectorCountBank1: u32, sectorCountBank2: u32): Machine
  {
    SetAreaInternalRun(status, SetAreaInternalRun(status, m, 1, sectorCountBank1), 2, sectorCountBank2)
  }

  // ---------------------------------------------------------------------------
  // flashErase (src/flash.c:250-300)
  // ---------------------------------------------------------------------------

  /**
   * The NSCR value of src/flash.c:279: the interrupt-enable bits of the old
   * value, SNB = page, BKSEL = bank - 1, and SER.
   */
  function EraseSelect(nscr: bv32, bank: u32, page: u32): bv32
    requires bank == 1 || bank == 2
    requires page < FLASH_PAGES_PER_BANK
  {
    (nscr & NSCR_IE_MASK) | (SectorBits(page) << FLASH_CR_SNB_Pos)
    | ((if bank == 1 then 0 else 1) << FLASH_CR_BKSEL_Pos) | FLASH_CR_SER
  }

  /** flashErase: the pre-checks, the unlock, the fail-stop, the erase sequence and the post-check. */
  function EraseRun(status: Status, m: Machine, bank: u32, page: u32): Finish
  {
    if !(bank == 1 || bank == 2) then Finish(Returned(true), m)
    else if page >= FLASH_PAGES_PER_BANK then Finish(Returned(true), m)
    else if CheckHdp(page, page, bank, m.regs.prot) then Finish(Returned(true), m)
    else if CheckWrp(SectorBits(page), SectorBits(page), bank, m.regs.prot) then Finish(Returned(true), m)
    else if StatusBlocksStart(NextStatus(status, m)) then Finish(Returned(true), ReadStatus(m))
    else EraseSequence(status, ReadStatus(m), bank, page)
  }

  /**
   * What flashErase does once its checks pass (src/flash.c:270-299):
   * unlock, the fail-stop on WBNE or DBNE, the sector-erase sequence, LOCK
   * and the error check.
   */
  function EraseSequence(status: Status, m: Machine, bank: u32, page: u32): Finish
    requires bank == 1 || bank == 2
    requires page < FLASH_PAGES_PER_BANK
  {
    var m1 := UnlockFlash(m);
    if WriteBufferBusy(NextStatus(status, m1)) then Finish(Halted, ReadStatus(m1))
    else
      var m2 := ReadStatus(m1);
      if DataBufferBusy(NextStatus(status, m2)) then Finish(Halted, ReadStatus(m2))
      else
        var m3 := ReadStatus(m2);
        var m4 := WriteNscr(m3, EraseSelect(m3.regs.nscr, bank, page));
        var m5 := WaitNotBusy(m4);
        var m6 := WriteNscr(m5, EraseStart(m5.regs.nscr));
        var m7 := WaitNotBusy(m6);
        var m8 := WriteNscr(m7, EraseDisable(m7.regs.nscr));
        var m9 := WriteNscr(m8, FLASH_CR_LOCK);
        Finish(Returned(StatusHasError(NextStatus(status, m9))), ReadStatus(m9))
  }

  // ---------------------------------------------------------------------------
  // flashWrite128 (src/flash.c:314-385)
  // ---------------------------------------------------------------------------

  /** The word cursor after k increments from address: address + 4k in 32-bit address arithmetic. */
  function WordAddress(address: u32, k: nat): u32
  {
    (address + 4 * k) % TWO_32
  }

  /** Advancing the word cursor by one word. */
  lemma WordAddressStep(address: u32, k: nat)
    ensures Add(WordAddress(address, k), 4) == WordAddress(address, k + 1)
  {
  }

  /** One iteration of the copy loop: the four word stores k .. k + 3, then a BSY poll. */
  function StoreQuad(m: Machine, address: u32, data: nat -> bv32, k: nat): Machine
  {
    var m1 := StoreWordAt(m, WordAddress(address, k), data(k));
    var m2 := StoreWordAt(m1, WordAddress(address, k + 1), data(k + 1));
    var m3 := StoreWordAt(m2, WordAddress(address, k + 2), data(k + 2));
    var m4 := StoreWordAt(m3, WordAddress(address, k + 3), data(k + 3));
    WaitNotBusy(m4)
  }

  /** Memory after storing words k .. k + 3 of data, in order, each at its word address. */
  function StoreQuadWords(mem: map<u32, bv32>, address: u32, data: nat -> bv32, k: nat): map<u32, bv32>
  {
    mem[WordAddress(address, k) := data(k)][WordAddress(address, k + 1) := data(k + 1)]
       [WordAddress(address, k + 2) := data(k + 2)][WordAddress(address, k + 3) := data(k + 3)]
  }

  /** Memory after storing the first 4 * quads words of data, quad-word by quad-word. */
  function WriteQuads(mem: map<u32, bv32>, address: u32, data: nat -> bv32, quads: nat): map<u32, bv32>
  {
    if quads == 0 then mem
    else StoreQuadWords(WriteQuads(mem, address, data, quads - 1), address, data, 4 * (quads - 1))
  }

  /**
   * The first `quads` iterations of the copy loop of src/flash.c:353-363.
   * Main flash holds the first 4 * quads data words stored at consecutive
   * word addresses, NSSR was polled once per quad-word, and no register,
   * no high-cyclic cell and not the interrupt mask changed.
   */
  function QuadLoop(m: Machine, address: u32, data: nat -> bv32, quads: nat): (r: Machine)
    ensures r.mainFlash == WriteQuads(m.mainFlash, address, data, quads)
    ensures r.regs == m.regs && r.hcFlash == m.hcFlash && r.primask == m.primask
    ensures r.srReads == m.srReads + quads
    decreases quads
  {
    if quads == 0 then m
    else StoreQuad(QuadLoop(m, address, data, quads - 1), address, data, 4 * (quads - 1))
  }

  /** flashWrite128. */
  function Write128Run(status: Status, m: Machine, address: u32, data: nat -> bv32, size: u32): Finish
  {
    if address % 16 != 0 then Finish(Returned(true), m)
    else if size % 16 != 0 then Finish(Returned(true), m)
    else
      var bank := FlashGetBank(address, size);
      if !(bank == 1 || bank == 2) then Finish(Returned(true), m)
      else
        var bankStart := BankStart(bank);
        var startSector := MainSector(bankStart, address);
        var endSector := MainSector(bankStart, Add(address, Sub(size, 1)));
        if CheckHdp(startSector, endSector, bank, m.regs.prot) then Finish(Returned(true), m)
        else if startSector >= 128 || endSector >= 128 then Finish(Undefined, m)
        else if CheckWrp(SectorBits(startSector), SectorBits(endSector), bank, m.regs.prot) then Finish(Returned(true), m)
        else if StatusBlocksStart(NextStatus(status, m)) then Finish(Returned(true), ReadStatus(m))
        else Write128Sequence(status, ReadStatus(m), address, data, size)
  }

  /**
   * What flashWrite128 does once its checks pass (src/flash.c:341-384):
   * unlock, PG with the interrupt enables kept, the copy loop with
   * interrupts masked, the final poll, PG cleared, LOCK, and the error check.
   */
  function Write128Sequence(status: Status, m: Machine, address: u32, data: nat -> bv32, size: u32): Finish
  {
    var m1 := UnlockFlash(m);
    var m2 := WriteNscr(m1, ProgramEnable(m1.regs.nscr));
    var m3 := MaskInterrupts(m2);
    var m4 := QuadLoop(m3, address, data, size / 16);
    var m5 := RestorePrimask(m4, m2.primask);
    var m6 := WaitNotBusy(m5);
    var m7 := WriteNscr(m6, ProgramDisable(m6.regs.nscr));
    var m8 := WriteNscr(m7, FLASH_CR_LOCK);
    Finish(Returned(StatusHasError(NextStatus(status, m8))), ReadStatus(m8))
  }

  // ---------------------------------------------------------------------------
  // highCyclic_write16 (src/flash.c:399-461)
  // ---------------------------------------------------------------------------

  /** The half-word cursor after k increments from address: address + 2k in 32-bit address arithmetic. */
  function HalfAddress(address: u32, k: nat): u32
  {
    (address + 2 * k) % TWO_32
  }

  /** Advancing the half-word cursor by one half-word. */
  lemma HalfAddressStep(address: u32, k: nat)
    ensures Add(HalfAddress(address, k), 2) == HalfAddress(address, k + 1)
  {
  }

  /** High-cyclic memory after storing half-words 0 .. n - 1 of data, in order, each at its half-word address. */
  function WriteHalves(mem: map<u32, bv16>, address: u32, data: nat -> bv16, n: nat): map<u32, bv16>
  {
    if n == 0 then mem
    else WriteHalves(mem, address, data, n - 1)[HalfAddress(address, n - 1) := data(n - 1)]
  }

  /**
   * The first `halves` iterations of the copy loop of src/flash.c:438-441.
   * High-cyclic flash holds the first `halves` data half-words stored at
   * consecutive half-word addresses; NSSR is not read, and no register, no
   * main-flash cell and not the interrupt mask changed.
   */
  function HalfLoop(m: Machine, address: u32, data: nat -> bv16, halves: nat): (r: Machine)
    ensures r.hcFlash == WriteHalves(m.hcFlash, address, data, halves)
    ensures r.srReads == m.srReads && r.regs == m.regs && r.mainFlash == m.mainFlash && r.primask == m.primask
    decreases halves
  {
    if halves == 0 then m
    else
      var prev := HalfLoop(m, address, data, halves - 1);
      StoreHalfAt(prev, HalfAddress(address, halves - 1), data(halves - 1))
  }

  /** First byte of a bank's high-cyclic window, as src/flash.c:412 selects it. */
  function HighCyclicBankStart(bank: u32): u32
  {
    if bank == 1 then HIGH_CYCLIC_START_BANK1 else HIGH_CYCLIC_START_BANK2
  }

  /** highCyclic_write16. */
  function Write16Run(status: Status, m: Machine, address: u32, data: nat -> bv16, size: u32): Finish
  {
    if address % 2 != 0 then Finish(Returned(true), m)
    else if size % 2 != 0 then Finish(Returned(true), m)
    else
      var bank := HighCyclicGetBank(address, size, m.regs.edata1Cur, m.regs.edata2Cur);
      if !(bank == 1 || bank == 2) then Finish(Returned(true), m)
      else
        var windowStart := HighCyclicBankStart(bank);
        var startSector := HighCyclicSector(windowStart, address);
        var endSector := HighCyclicSector(windowStart, Add(address, Sub(size, 1)));
        if CheckHdp(startSector, endSector, bank, m.regs.prot) then Finish(Returned(true), m)
        else if startSector >= 128 || endSector >= 128 then Finish(Undefined, m)
        else if CheckWrp(SectorBits(startSector), SectorBits(endSector), bank, m.regs.prot) then Finish(Returned(true), m)
        else if StatusBlocksStart(NextStatus(status, m)) then Finish(Returned(true), ReadStatus(m))
        else Write16Sequence(status, ReadStatus(m), address, data, size)
  }

  /**
   * What highCyclic_write16 does once its checks pass (src/flash.c:426-460):
   * as for flashWrite128, with half-word stores and no poll inside the loop.
   */
  function Write16Sequence(status: Status, m: Machine, address: u32, data: nat -> bv16, size: u32): Finish
  {
    var m1 := UnlockFlash(m);
    var m2 := WriteNscr(m1, ProgramEnable(m1.regs.nscr));
    var m3 := MaskInterrupts(m2);
    var m4 := HalfLoop(m3, address, data, size / 2);
    var m5 := RestorePrimask(m4, m2.primask);
    var m6 := WaitNotBusy(m5);
    var m7 := WriteNscr(m6, ProgramDisable(m6.regs.nscr));
    var m8 := WriteNscr(m7, FLASH_CR_LOCK);
    Finish(Returned(StatusHasError(NextStatus(status, m8))), ReadStatus(m8))
  }

  // ---------------------------------------------------------------------------
  // flash_erase / flash_write16 (src/flash.c:484-514)
  // ---------------------------------------------------------------------------

  /** A uint8_t argument. */
  type u8 = x: int | 0 <= x < 256

  /** flash_erase: flashErase on the widened arguments; the C function drops its boolean. */
  function FlashEraseRun(status: Status, m: Machine, bank: u8, page: u8): Finish
  {
    EraseRun(status, m, bank, page)
  }

  /** Where flash_write16 sends a request. */
  datatype Route = ToHighCyclic | ToMainFlash | Dropped

  /**
   * src/flash.c:497-513: an address whose first byte highCyclic_getBank
   * accepts goes to highCyclic_write16 when the size is even; any other
   * address goes to flashWrite128 when the size is a multiple of 16.
   */
  function Write16Route(m: Machine, address: u32, size: u32): Route
  {
    var bank := HighCyclicGetBank(address, 1, m.regs.edata1Cur, m.regs.edata2Cur);
    if bank == 1 || bank == 2 then
      if size % 2 == 0 then ToHighCyclic else Dropped
    else
      if size % 16 == 0 then ToMainFlash else Dropped
  }

  /**
   * Half-word k of the memory an engine reads from &data: the half-word
   * argument, then whatever follows it on the caller's stack (`beyond`),
   * which the C code reads past the argument for sizes above 2.
   */
  function HalfAt(data: bv16, beyond: nat -> bv16, k: nat): bv16
  {
    if k == 0 then data else beyond(k - 1)
  }

  /** Word j of the same memory, read as a little-endian 32-bit word. */
  function WordAt(data: bv16, beyond: nat -> bv16, j: nat): bv32
  {
    (HalfAt(data, beyond, 2 * j) as bv32) | ((HalfAt(data, beyond, 2 * j + 1) as bv32) << 16)
  }

  function HalvesFrom(data: bv16, beyond: nat -> bv16): nat -> bv16
  {
    (k: nat) => HalfAt(data, beyond, k)
  }

  function WordsFrom(data: bv16, beyond: nat -> bv16): nat -> bv32
  {
    (j: nat) => WordAt(data, beyond, j)
  }

  /**
   * flash_write16: the engine the route selects, on the memory at &data.
   * Returned(e) means the C function returns (it drops e); a dropped
   * request is Returned(false) with nothing changed.
   */
  function FlashWrite16Run(status: Status, m: Machine, address: u32, data: bv16, beyond: nat -> bv16, size: u32): Finish
  {
    match Write16Route(m, address, size)
    case ToHighCyclic => Write16Run(status, m, address, HalvesFrom(data, beyond), size)
    case ToMainFlash => Write128Run(status, m, address, WordsFrom(data, beyond), size)
    case Dropped => Finish(Returned(false), m)
  }
}

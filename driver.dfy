/**
 * The driver as it runs: an object over the flash controller's registers
 * whose methods perform the C functions' register accesses in order. NSSR
 * reads come from the status oracle fixed at construction; the interrupt
 * mask and the write log are ghost. Every operation is proved to leave
 * exactly the outcome and state that its function in module Engines gives.
 */
module Driver {
  import opened Uint32
  import opened Registers
  import opened FlashLayout
  import opened HighCyclicConfig
  import opened Protection
  import opened AddressResolver
  import opened FlashMachine
  import opened Engines

  class Flash {
    /** What successive reads of FLASH->NSSR return. */
    const status: Status
    /** Reads of FLASH->NSSR so far. */
    var srReads: nat
    /** The FLASH register block. */
    var regs: FlashRegs
    var mainFlash: map<u32, bv32>
    var hcFlash: map<u32, bv16>
    ghost var primask: bool
    ghost var trace: seq<Access>

    /** The object's state as a machine value. */
    ghost function State(): Machine
      reads this
    {
      Machine(srReads, regs, mainFlash, hcFlash, primask, trace)
    }

    constructor (status: Status, initial: Machine)
      ensures this.status == status && State() == initial
    {
      this.status := status;
      srReads := initial.srReads;
      regs := initial.regs;
      mainFlash := initial.mainFlash;
      hcFlash := initial.hcFlash;
      primask := initial.primask;
      trace := initial.trace;
    }

    // -------------------------------------------------------------------------
    // Register accesses
    // -------------------------------------------------------------------------

    /** A read of FLASH->NSSR: the next oracle value. */
    method ReadNssr() returns (sr: bv32)
      modifies this`srReads
      ensures sr == NextStatus(status, old(State()))
      ensures State() == ReadStatus(old(State()))
    {
      sr := status(srReads);
      srReads := srReads + 1;
    }

    /** while (FLASH->NSSR & FLASH_SR_BSY) {}, as one read after which BSY is clear. */
    method WaitNotBusy()
      modifies this`srReads
      ensures State() == FlashMachine.WaitNotBusy(old(State()))
    {
      var sr := ReadNssr();
    }

    /** FLASH->NSCR = value. */
    method WriteNscr(value: bv32)
      modifies this`regs, this`trace
      ensures State() == FlashMachine.WriteNscr(old(State()), value)
    {
      regs := regs.(nscr := value);
      trace := trace + [NsCr(value)];
    }

    /** FLASH->OPTCR = value. */
    method WriteOptcr(value: bv32)
      modifies this`regs, this`trace
      ensures State() == FlashMachine.WriteOptcr(old(State()), value)
    {
      regs := regs.(optcr := value);
      trace := trace + [OptCr(value)];
    }

    /** *eDataRegProg = value, for bank 1 or 2. */
    method WriteEdataPrg(bank: u32, value: bv32)
      requires bank == 1 || bank == 2
      modifies this`regs, this`trace
      ensures State() == FlashMachine.WriteEdataPrg(old(State()), bank, value)
    {
      if bank == 1 {
        regs := regs.(edata1Prg := value);
      } else {
        regs := regs.(edata2Prg := value);
      }
      trace := trace + [EdataPrg(bank, value)];
    }

    /** A 32-bit store into main flash. */
    method Store32(address: u32, word: bv32)
      modifies this`mainFlash, this`trace
      ensures State() == StoreWordAt(old(State()), address, word)
    {
      mainFlash := mainFlash[address := word];
      trace := trace + [StoreWord(address, word)];
    }

    /** A 16-bit store into high-cyclic flash. */
    method Store16(address: u32, half: bv16)
      modifies this`hcFlash, this`trace
      ensures State() == StoreHalfAt(old(State()), address, half)
    {
      hcFlash := hcFlash[address := half];
      trace := trace + [StoreHalf(address, half)];
    }

    /** __disable_irq(). */
    method DisableInterrupts()
      modifies this`primask, this`trace
      ensures State() == MaskInterrupts(old(State()))
    {
      primask := true;
      trace := trace + [DisableIrq];
    }

    /** __set_PRIMASK(saved). */
    method SetPrimaskTo(ghost saved: bool)
      modifies this`primask, this`trace
      ensures State() == RestorePrimask(old(State()), saved)
    {
      primask := saved;
      trace := trace + [SetPrimask(saved)];
    }

    // -------------------------------------------------------------------------
    // unlockFlash / unlockFlashOptionBytes (src/flash.c:166-179)
    // -------------------------------------------------------------------------

    /** unlockFlash: NSKEYR := 0x45670123, then NSKEYR := 0xCDEF89AB; nothing else changes. */
    method UnlockFlash()
      modifies this`trace
      ensures trace == old(trace) + [NsKey(0x4567_0123), NsKey(0xCDEF_89AB)]
      ensures State() == FlashMachine.UnlockFlash(old(State()))
    {
      trace := trace + [NsKey(FLASH_KEY1)];
      trace := trace + [NsKey(FLASH_KEY2)];
    }

    /** unlockFlashOptionBytes: OPTKEYR := 0x08192A3B, then OPTKEYR := 0x4C5D6E7F; nothing else changes. */
    method UnlockFlashOptionBytes()
      modifies this`trace
      ensures trace == old(trace) + [OptKey(0x0819_2A3B), OptKey(0x4C5D_6E7F)]
      ensures State() == FlashMachine.UnlockFlashOptionBytes(old(State()))
    {
      trace := trace + [OptKey(FLASH_OPT_KEY1)];
      trace := trace + [OptKey(FLASH_OPT_KEY2)];
    }

    // -------------------------------------------------------------------------
    // highCyclic_setArea_internal / highCyclic_setArea
    // -------------------------------------------------------------------------

    /** highCyclic_setArea_internal (src/flash.c:187-241). */
    method HighCyclicSetAreaInternal(bank: u32, sectorCount: u32)
      modifies this
      ensures State() == SetAreaInternalRun(status, old(State()), bank, sectorCount)
    {
      if !(bank == 1 || bank == 2) {
        return;
      }
      var configuration := Configuration(sectorCount);
      var cur := if bank == 1 then regs.edata1Cur else regs.edata2Cur;
      if cur == configuration {
        return;
      }
      var sr := ReadNssr();
      if StatusBlocksStart(sr) {
        return;
      }
      UnlockFlashOptionBytes();
      WriteEdataPrg(bank, configuration);
      WriteOptcr(OptionStart(regs.optcr));
      WaitNotBusy();
      WriteOptcr(FLASH_OPTCR_OPTLOCK);
    }

    /** highCyclic_setArea (src/flash.c:469-473). */
    method HighCyclicSetArea(sectorCountBank1: u32, sectorCountBank2: u32)
      modifies this
      ensures State() == SetAreaRun(status, old(State()), sectorCountBank1, sectorCountBank2)
    {
      HighCyclicSetAreaInternal(1, sectorCountBank1);
      HighCyclicSetAreaInternal(2, sectorCountBank2);
    }

    // -------------------------------------------------------------------------
    // flashErase (src/flash.c:250-300)
    // -------------------------------------------------------------------------

    /** flashErase; Halted stands for the for(;;) it never leaves. */
    method FlashErase(bank: u32, page: u32) returns (outcome: Outcome)
      modifies this
      ensures Finish(outcome, State()) == EraseRun(status, old(State()), bank, page)
    {
      if !(bank == 1 || bank == 2) {
        return Returned(true);
      }
      if page >= FLASH_PAGES_PER_BANK {
        return Returned(true);
      }
      if CheckHdp(page, page, bank, regs.prot) {
        return Returned(true);
      }
      if CheckWrp(SectorBits(page), SectorBits(page), bank, regs.prot) {
        return Returned(true);
      }
      var sr := ReadNssr();
      if StatusBlocksStart(sr) {
        return Returned(true);
      }
      outcome := EraseAfterChecks(bank, page);
    }

    /** flashErase from the unlock on (src/flash.c:270-299). */
    method EraseAfterChecks(bank: u32, page: u32) returns (outcome: Outcome)
      requires bank == 1 || bank == 2
      requires page < FLASH_PAGES_PER_BANK
      modifies this
      ensures Finish(outcome, State()) == EraseSequence(status, old(State()), bank, page)
    {
      UnlockFlash();
      var sr := ReadNssr();
      if WriteBufferBusy(sr) {
        return Halted;
      }
      sr := ReadNssr();
      if DataBufferBusy(sr) {
        return Halted;
      }
      WriteNscr(EraseSelect(regs.nscr, bank, page));
      WaitNotBusy();
      WriteNscr(EraseStart(regs.nscr));
      WaitNotBusy();
      WriteNscr(EraseDisable(regs.nscr));
      WriteNscr(FLASH_CR_LOCK);
      sr := ReadNssr();
      return Returned(StatusHasError(sr));
    }

    // -------------------------------------------------------------------------
    // flashWrite128 (src/flash.c:314-385)
    // -------------------------------------------------------------------------

    /** *address++ = *data++ for word k of the copy loop of src/flash.c:353-363. */
    method CopyWord(address: u32, data: nat -> bv32, p: u32, k: nat) returns (next: u32)
      requires p == WordAddress(address, k)
      modifies this`mainFlash, this`trace
      ensures next == WordAddress(address, k + 1)
      ensures State() == StoreWordAt(old(State()), WordAddress(address, k), data(k))
    {
      Store32(p, data(k));
      WordAddressStep(address, k);
      next := Add(p, 4);
    }

    /** One pass of the copy loop of src/flash.c:353-363: four words, then the BSY poll. */
    method CopyQuad(address: u32, data: nat -> bv32, p: u32, k: nat) returns (next: u32)
      requires p == WordAddress(address, k)
      modifies this`mainFlash, this`trace, this`srReads
      ensures next == WordAddress(address, k + 4)
      ensures State() == StoreQuad(old(State()), address, data, k)
    {
      next := CopyWord(address, data, p, k);
      next := CopyWord(address, data, next, k + 1);
      next := CopyWord(address, data, next, k + 2);
      next := CopyWord(address, data, next, k + 3);
      WaitNotBusy();
    }

    /**
     * The copy loop of src/flash.c:353-363: size / 16 quad-words from data
     * to address. The counter i never exceeds size, so it stays within
     * uint32.
     */
    method CopyQuads(address: u32, data: nat -> bv32, size: u32)
      requires size % 16 == 0
      modifies this`mainFlash, this`trace, this`srReads
      ensures State() == QuadLoop(old(State()), address, data, size / 16)
    {
      ghost var start := State();
      ghost var quads: nat := size / 16;
      var i: nat := 0;
      var p: u32 := address;
      var k: nat := 0;
      ghost var q: nat := 0;
      while i < size
        invariant 16 * quads == size && q <= quads
        invariant i == 16 * q && k == 4 * q
        invariant p == WordAddress(address, k)
        invariant State() == QuadLoop(start, address, data, q)
        decreases quads - q
      {
        assert q < quads;
        p := CopyQuad(address, data, p, k);
        i, k, q := i + 16, k + 4, q + 1;
      }
      assert q == quads;
    }

    /** flashWrite128; Undefined stands for checkWRP's shift past 31. */
    method FlashWrite128(address: u32, data: nat -> bv32, size: u32) returns (outcome: Outcome)
      modifies this
      ensures Finish(outcome, State()) == Write128Run(status, old(State()), address, data, size)
    {
      if address % 16 != 0 {
        return Returned(true);
      }
      if size % 16 != 0 {
        return Returned(true);
      }
      var bank := FlashGetBank(address, size);
      if !(bank == 1 || bank == 2) {
        return Returned(true);
      }
      var bankStart := BankStart(bank);
      var startSector := MainSector(bankStart, address);
      var endSector := MainSector(bankStart, Add(address, Sub(size, 1)));
      if CheckHdp(startSector, endSector, bank, regs.prot) {
        return Returned(true);
      }
      if startSector >= 128 || endSector >= 128 {
        return Undefined;
      }
      if CheckWrp(SectorBits(startSector), SectorBits(endSector), bank, regs.prot) {
        return Returned(true);
      }
      var sr := ReadNssr();
      if StatusBlocksStart(sr) {
        return Returned(true);
      }
      outcome := Write128AfterChecks(address, data, size);
    }

    /** flashWrite128 from the unlock on (src/flash.c:341-384). */
    method Write128AfterChecks(address: u32, data: nat -> bv32, size: u32) returns (outcome: Outcome)
      requires size % 16 == 0
      modifies this
      ensures Finish(outcome, State()) == Write128Sequence(status, old(State()), address, data, size)
    {
      UnlockFlash();
      WriteNscr(ProgramEnable(regs.nscr));
      ghost var primaskBit := primask;
      DisableInterrupts();
      CopyQuads(address, data, size);
      SetPrimaskTo(primaskBit);
      WaitNotBusy();
      WriteNscr(ProgramDisable(regs.nscr));
      WriteNscr(FLASH_CR_LOCK);
      var sr := ReadNssr();
      return Returned(StatusHasError(sr));
    }

    // -------------------------------------------------------------------------
    // highCyclic_write16 (src/flash.c:399-461)
    // -------------------------------------------------------------------------

    /** *address++ = *data++ for half-word k of the copy loop of src/flash.c:438-441. */
    method CopyHalf(address: u32, data: nat -> bv16, p: u32, k: nat) returns (next: u32)
      requires p == HalfAddress(address, k)
      modifies this`hcFlash, this`trace
      ensures next == HalfAddress(address, k + 1)
      ensures State() == StoreHalfAt(old(State()), HalfAddress(address, k), data(k))
    {
      Store16(p, data(k));
      HalfAddressStep(address, k);
      next := Add(p, 2);
    }

    /**
     * The copy loop of src/flash.c:438-441: size / 2 half-words from data
     * to address. The counter i never exceeds size, so it stays within
     * uint32.
     */
    method CopyHalves(address: u32, data: nat -> bv16, size: u32)
      requires size % 2 == 0
      modifies this`hcFlash, this`trace
      ensures State() == HalfLoop(old(State()), address, data, size / 2)
    {
      ghost var start := State();
      ghost var halves: nat := size / 2;
      var i: nat := 0;
      var p: u32 := address;
      var k: nat := 0;
      while i < size
        invariant 2 * halves == size && k <= halves && i == 2 * k
        invariant p == HalfAddress(address, k)
        invariant State() == HalfLoop(start, address, data, k)
        decreases halves - k
      {
        assert k < halves;
        p := CopyHalf(address, data, p, k);
        i, k := i + 2, k + 1;
      }
      assert k == halves;
    }

    /** highCyclic_write16; Undefined stands for checkWRP's shift past 31. */
    method HighCyclicWrite16(address: u32, data: nat -> bv16, size: u32) returns (outcome: Outcome)
      modifies this
      ensures Finish(outcome, State()) == Write16Run(status, old(State()), address, data, size)
    {
      if address % 2 != 0 {
        return Returned(true);
      }
      if size % 2 != 0 {
        return Returned(true);
      }
      var bank := HighCyclicGetBank(address, size, regs.edata1Cur, regs.edata2Cur);
      if !(bank == 1 || bank == 2) {
        return Returned(true);
      }
      var windowStart := HighCyclicBankStart(bank);
      var startSector := HighCyclicSector(windowStart, address);
      var endSector := HighCyclicSector(windowStart, Add(address, Sub(size, 1)));
      if CheckHdp(startSector, endSector, bank, regs.prot) {
        return Returned(true);
      }
      if startSector >= 128 || endSector >= 128 {
        return Undefined;
      }
      if CheckWrp(SectorBits(startSector), SectorBits(endSector), bank, regs.prot) {
        return Returned(true);
      }
      var sr := ReadNssr();
      if StatusBlocksStart(sr) {
        return Returned(true);
      }
      outcome := Write16AfterChecks(address, data, size);
    }

    /** highCyclic_write16 from the unlock on (src/flash.c:426-460). */
    method Write16AfterChecks(address: u32, data: nat -> bv16, size: u32) returns (outcome: Outcome)
      requires size % 2 == 0
      modifies this
      ensures Finish(outcome, State()) == Write16Sequence(status, old(State()), address, data, size)
    {
      UnlockFlash();
      WriteNscr(ProgramEnable(regs.nscr));
      ghost var primaskBit := primask;
      DisableInterrupts();
      CopyHalves(address, data, size);
      SetPrimaskTo(primaskBit);
      WaitNotBusy();
      WriteNscr(ProgramDisable(regs.nscr));
      WriteNscr(FLASH_CR_LOCK);
      var sr := ReadNssr();
      return Returned(StatusHasError(sr));
    }

    // -------------------------------------------------------------------------
    // flash_erase / flash_write16 (src/flash.c:484-514)
    // -------------------------------------------------------------------------

    /** flash_erase: flashErase with its result dropped by the C caller. */
    method Erase(bank: u8, page: u8) returns (outcome: Outcome)
      modifies this
      ensures Finish(outcome, State()) == FlashEraseRun(status, old(State()), bank, page)
    {
      outcome := FlashErase(bank, page);
    }

    /** flash_write16, with `beyond` the memory that follows its data argument. */
    method Write16(address: u32, data: bv16, beyond: nat -> bv16, size: u32) returns (outcome: Outcome)
      modifies this
      ensures Finish(outcome, State()) == FlashWrite16Run(status, old(State()), address, data, beyond, size)
    {
      var bank := HighCyclicGetBank(address, 1, regs.edata1Cur, regs.edata2Cur);
      if bank == 1 || bank == 2 {
        if size % 2 == 0 {
          outcome := HighCyclicWrite16(address, HalvesFrom(data, beyond), size);
        } else {
          outcome := Returned(false);
        }
      } else {
        if size % 16 == 0 {
          outcome := FlashWrite128(address, WordsFrom(data, beyond), size);
        } else {
          outcome := Returned(false);
        }
      }
    }
  }
}

/**
 * What flashErase (src/flash.c:250-300) guarantees, stated about the
 * function Engines.EraseRun that the driver's method is proved to compute:
 * which requests reach the hardware, the exact register sequence of a
 * completed erase, when the fail-stop loop is entered, and the NSSR polls.
 */
module EraseProperties {
  import opened Uint32
  import opened Registers
  import opened FlashLayout
  import opened Protection
  import opened FlashMachine
  import opened Engines

  /** The checks flashErase makes before it first reads NSSR (src/flash.c:253-264). */
  predicate EraseAllowed(m: Machine, bank: u32, page: u32)
  {
    && (bank == 1 || bank == 2)
    && page < FLASH_PAGES_PER_BANK
    && !CheckHdp(page, page, bank, m.regs.prot)
    && !CheckWrp(SectorBits(page), SectorBits(page), bank, m.regs.prot)
  }

  /**
   * A refused request (bad bank, page 128 or above, a hidden or
   * write-protected sector) returns the error and leaves the device as it
   * was: no register read, no register written.
   */
  lemma EraseRefused(status: Status, m: Machine, bank: u32, page: u32)
    requires !EraseAllowed(m, bank, page)
    ensures EraseRun(status, m, bank, page) == Finish(Returned(true), m)
  {
  }

  /**
   * An allowed request whose first NSSR read shows an error or an
   * unfinished operation returns the error after that one read, before the
   * flash is unlocked.
   */
  lemma EraseBlockedByStatus(status: Status, m: Machine, bank: u32, page: u32)
    requires EraseAllowed(m, bank, page) && StatusBlocksStart(status(m.srReads))
    ensures EraseRun(status, m, bank, page) == Finish(Returned(true), m.(srReads := m.srReads + 1))
  {
  }

  /**
   * Nothing is written unless every check passed, and every run that
   * writes starts with the two unlock keys, KEY1 then KEY2.
   */
  lemma EraseWritesOnlyWhenAllowed(status: Status, m: Machine, bank: u32, page: u32)
    ensures var f := EraseRun(status, m, bank, page);
      f.machine.trace != m.trace ==>
        && EraseAllowed(m, bank, page)
        && !StatusBlocksStart(status(m.srReads))
        && |f.machine.trace| >= |m.trace| + 2
        && f.machine.trace[..|m.trace| + 2] == m.trace + NsUnlock
  {
    if EraseAllowed(m, bank, page) && !StatusBlocksStart(status(m.srReads)) {
      var f := EraseRun(status, m, bank, page);
      if WriteBufferBusy(status(m.srReads + 1)) || DataBufferBusy(status(m.srReads + 2)) {
        EraseHalts(status, m, bank, page);
        assert f.machine.trace == m.trace + NsUnlock + [];
      } else {
        EraseCompletes(status, m, bank, page);
      }
    }
  }

  /**
   * The fail-stop loop at src/flash.c:272-275 is entered exactly when an
   * allowed, startable request then reads WBNE or DBNE set; the flash is
   * then left unlocked and NSCR is never written. The page bound of
   * src/flash.c:254 makes checkWRP's shift defined, so an erase is never
   * undefined.
   */
  lemma EraseHalts(status: Status, m: Machine, bank: u32, page: u32)
    ensures EraseRun(status, m, bank, page).outcome != Undefined
    ensures EraseRun(status, m, bank, page).outcome == Halted <==>
              && EraseAllowed(m, bank, page)
              && !StatusBlocksStart(status(m.srReads))
              && (WriteBufferBusy(status(m.srReads + 1)) || DataBufferBusy(status(m.srReads + 2)))
    ensures EraseRun(status, m, bank, page).outcome == Halted ==>
              && EraseRun(status, m, bank, page).machine.trace == m.trace + NsUnlock
              && EraseRun(status, m, bank, page).machine.regs == m.regs
  {
  }

  /**
   * When NSSR does not change between the pre-check and the two buffer
   * reads, the pre-check has already seen WBNE and DBNE clear, so the
   * fail-stop loop cannot be reached.
   */
  lemma EraseSteadyStatusNeverHalts(status: Status, m: Machine, bank: u32, page: u32)
    requires status(m.srReads + 1) == status(m.srReads) && status(m.srReads + 2) == status(m.srReads)
    ensures EraseRun(status, m, bank, page).outcome != Halted
  {
    if !StatusBlocksStart(status(m.srReads)) {
      StartableHasEmptyBuffers(status(m.srReads));
    }
  }

  /**
   * A completed erase: unlock; NSCR set to the interrupt enables with SNB,
   * BKSEL and SER; START added; SER cleared; LOCK. The flash is locked
   * again, no other register and no memory cell is written, NSSR is read
   * six times, and the sixth read decides the result.
   */
  lemma EraseCompletes(status: Status, m: Machine, bank: u32, page: u32)
    requires EraseAllowed(m, bank, page) && !StatusBlocksStart(status(m.srReads))
    requires !WriteBufferBusy(status(m.srReads + 1)) && !DataBufferBusy(status(m.srReads + 2))
    ensures var f := EraseRun(status, m, bank, page);
      var select := EraseSelect(m.regs.nscr, bank, page);
      && f.outcome == Returned(StatusHasError(status(m.srReads + 5)))
      && f.machine.trace == m.trace + NsUnlock +
           [NsCr(select), NsCr(EraseStart(select)), NsCr(EraseDisable(EraseStart(select))), NsCr(FLASH_CR_LOCK)]
      && f.machine.regs == m.regs.(nscr := FLASH_CR_LOCK)
      && f.machine.srReads == m.srReads + 6
      && f.machine.mainFlash == m.mainFlash && f.machine.hcFlash == m.hcFlash
      && f.machine.primask == m.primask
  {
    EraseStarts(status, m, bank, page);
    EraseAfterRead(status, m, bank, page);
  }

  /** Once the checks pass and the first status read allows a start, flashErase runs its sequence after that read. */
  lemma EraseStarts(status: Status, m: Machine, bank: u32, page: u32)
    requires EraseAllowed(m, bank, page) && !StatusBlocksStart(status(m.srReads))
    ensures EraseRun(status, m, bank, page) == EraseSequence(status, ReadStatus(m), bank, page)
  {
  }

  /** The sequence run on the machine after the pre-check read, stated relative to the machine before it. */
  lemma EraseAfterRead(status: Status, m: Machine, bank: u32, page: u32)
    requires (bank == 1 || bank == 2) && page < FLASH_PAGES_PER_BANK
    requires !WriteBufferBusy(status(m.srReads + 1)) && !DataBufferBusy(status(m.srReads + 2))
    ensures var f := EraseSequence(status, ReadStatus(m), bank, page);
      var select := EraseSelect(m.regs.nscr, bank, page);
      && f.outcome == Returned(StatusHasError(status(m.srReads + 5)))
      && f.machine.trace == m.trace + NsUnlock +
           [NsCr(select), NsCr(EraseStart(select)), NsCr(EraseDisable(EraseStart(select))), NsCr(FLASH_CR_LOCK)]
      && f.machine.regs == m.regs.(nscr := FLASH_CR_LOCK)
      && f.machine.srReads == m.srReads + 6
      && f.machine.mainFlash == m.mainFlash && f.machine.hcFlash == m.hcFlash
      && f.machine.primask == m.primask
  {
    EraseSequenceCompletes(status, ReadStatus(m), bank, page);
    EraseSequenceTrace(status, ReadStatus(m), bank, page);
  }

  /** The same from the unlock on, for a machine whose next two NSSR reads show the buffers empty. */
  lemma EraseSequenceCompletes(status: Status, m: Machine, bank: u32, page: u32)
    requires (bank == 1 || bank == 2) && page < FLASH_PAGES_PER_BANK
    requires !WriteBufferBusy(status(m.srReads)) && !DataBufferBusy(status(m.srReads + 1))
    ensures var f := EraseSequence(status, m, bank, page);
      && f.outcome == Returned(StatusHasError(status(m.srReads + 4)))
      && f.machine.srReads == m.srReads + 5
      && f.machine.regs == m.regs.(nscr := FLASH_CR_LOCK)
      && f.machine.mainFlash == m.mainFlash && f.machine.hcFlash == m.hcFlash
      && f.machine.primask == m.primask
  {
  }

  /** The trace of the same sequence. */
  lemma EraseSequenceTrace(status: Status, m: Machine, bank: u32, page: u32)
    requires (bank == 1 || bank == 2) && page < FLASH_PAGES_PER_BANK
    requires !WriteBufferBusy(status(m.srReads)) && !DataBufferBusy(status(m.srReads + 1))
    ensures var select := EraseSelect(m.regs.nscr, bank, page);
      EraseSequence(status, m, bank, page).machine.trace == m.trace + NsUnlock +
        [NsCr(select), NsCr(EraseStart(select)), NsCr(EraseDisable(EraseStart(select))), NsCr(FLASH_CR_LOCK)]
  {
    var select := EraseSelect(m.regs.nscr, bank, page);
    var t := m.trace + NsUnlock;
    var m3 := ReadStatus(ReadStatus(UnlockFlash(m)));
    assert m3.trace == t && m3.regs == m.regs;
    var m4 := WriteNscr(m3, select);
    var m6 := WriteNscr(WaitNotBusy(m4), EraseStart(select));
    var m8 := WriteNscr(WaitNotBusy(m6), EraseDisable(EraseStart(select)));
    var m9 := WriteNscr(m8, FLASH_CR_LOCK);
    assert m9.trace == t + [NsCr(select)] + [NsCr(EraseStart(select))] + [NsCr(EraseDisable(EraseStart(select)))] + [NsCr(FLASH_CR_LOCK)];
    AppendFour(t, NsCr(select), NsCr(EraseStart(select)), NsCr(EraseDisable(EraseStart(select))), NsCr(FLASH_CR_LOCK));
  }

  /**
   * Locking with NSCR = LOCK (src/flash.c:294) overwrites the
   * interrupt-enable bits the erase kept at src/flash.c:279: when LOCK is
   * none of those bits, a completed erase leaves all of them clear.
   */
  lemma EraseLockWipesEnables(status: Status, m: Machine, bank: u32, page: u32)
    requires EraseAllowed(m, bank, page) && !StatusBlocksStart(status(m.srReads))
    requires !WriteBufferBusy(status(m.srReads + 1)) && !DataBufferBusy(status(m.srReads + 2))
    requires FLASH_CR_LOCK & NSCR_IE_MASK == 0
    ensures EraseRun(status, m, bank, page).machine.regs.nscr & NSCR_IE_MASK == 0
  {
    EraseCompletes(status, m, bank, page);
  }

  /** Every run that returns after unlocking has locked the flash again: its last write is NSCR = LOCK. */
  lemma EraseRelocks(status: Status, m: Machine, bank: u32, page: u32)
    ensures var f := EraseRun(status, m, bank, page);
      f.outcome.Returned? && f.machine.trace != m.trace ==>
        && f.machine.trace[|f.machine.trace| - 1] == NsCr(FLASH_CR_LOCK)
        && f.machine.regs.nscr == FLASH_CR_LOCK
  {
    var f := EraseRun(status, m, bank, page);
    if f.outcome.Returned? && f.machine.trace != m.trace {
      EraseHalts(status, m, bank, page);
      EraseCompletes(status, m, bank, page);
    }
  }

  /** flash_erase widens its uint8_t page: the pages 128..255 a caller can pass are all refused unchanged. */
  lemma FlashEraseRefusesHighPages(status: Status, m: Machine, bank: u8, page: u8)
    requires page >= 128
    ensures FlashEraseRun(status, m, bank, page) == Finish(Returned(true), m)
  {
  }
}

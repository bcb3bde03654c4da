/**
 * What highCyclic_write16 (src/flash.c:399-461) guarantees, stated about
 * Engines.Write16Run: which requests reach the hardware, the exact write
 * sequence of a completed program operation, what high-cyclic memory
 * reads back afterwards, and the NSSR polls.
 */
module HighCyclicWriteProperties {
  import opened Uint32
  import opened Registers
  import opened FlashLayout
  import opened HighCyclicConfig
  import opened Protection
  import opened AddressResolver
  import opened FlashMachine
  import opened Engines
  import opened WriteProperties

  // ---------------------------------------------------------------------------
  // High-cyclic flash after the half-word copy loop (src/flash.c:438-441)
  // ---------------------------------------------------------------------------

  /** a is none of the first n half-word addresses from address. */
  predicate NotHalfWritten(address: u32, n: nat, a: u32)
  {
    forall j :: 0 <= j < n ==> a != HalfAddress(address, j)
  }

  /** Below 2^32 bytes the half-word cursor has moved exactly 2k bytes, modulo 2^32. */
  lemma HalfOffset(address: u32, k: nat)
    requires 2 * k < TWO_32
    ensures Sub(HalfAddress(address, k), address) == 2 * k
  {
    if address + 2 * k < TWO_32 {
      assert HalfAddress(address, k) == address + 2 * k;
    } else {
      assert HalfAddress(address, k) == address + 2 * k - TWO_32;
    }
  }

  /** Two half-word cursors fewer than 2^32 bytes apart are different addresses. */
  lemma HalfAddressesDiffer(address: u32, i: nat, j: nat)
    requires i != j && 2 * i < TWO_32 && 2 * j < TWO_32
    ensures HalfAddress(address, i) != HalfAddress(address, j)
  {
    HalfOffset(address, i);
    HalfOffset(address, j);
  }

  /**
   * Half-word j of data reads back from the j-th half-word address once
   * the loop has run past it: fewer than 2^32 bytes never wrap onto
   * themselves.
   */
  lemma {:induction false} WriteHalvesReadback(mem: map<u32, bv16>, address: u32, data: nat -> bv16, n: nat, j: nat)
    requires 2 * n <= TWO_32 && j < n
    ensures HalfAddress(address, j) in WriteHalves(mem, address, data, n)
    ensures WriteHalves(mem, address, data, n)[HalfAddress(address, j)] == data(j)
  {
    if j < n - 1 {
      WriteHalvesReadback(mem, address, data, n - 1, j);
      HalfAddressesDiffer(address, j, n - 1);
    }
  }

  /** Every address that is not one of the stored half-words keeps its contents. */
  lemma {:induction false} WriteHalvesKeepsOthers(mem: map<u32, bv16>, address: u32, data: nat -> bv16, n: nat, a: u32)
    requires NotHalfWritten(address, n, a)
    ensures SameCell(WriteHalves(mem, address, data, n), mem, a)
  {
    if n > 0 {
      assert a != HalfAddress(address, n - 1);
      assert NotHalfWritten(address, n - 1, a);
      WriteHalvesKeepsOthers(mem, address, data, n - 1, a);
    }
  }

  // ---------------------------------------------------------------------------
  // The trace of the half-word copy loop
  // ---------------------------------------------------------------------------

  /** The log entries of the stores of half-words 0 .. n - 1, in order. */
  function HalfStores(address: u32, data: nat -> bv16, n: nat): (s: seq<Access>)
    ensures |s| == n
    ensures forall j :: 0 <= j < n ==> s[j] == StoreHalf(HalfAddress(address, j), data(j))
  {
    if n == 0 then []
    else HalfStores(address, data, n - 1) + [StoreHalf(HalfAddress(address, n - 1), data(n - 1))]
  }

  /** The copy loop logs exactly the half-word stores, in order. */
  lemma {:induction false} HalfLoopTrace(m: Machine, address: u32, data: nat -> bv16, halves: nat)
    ensures HalfLoop(m, address, data, halves).trace == m.trace + HalfStores(address, data, halves)
  {
    if halves > 0 {
      var prev := HalfLoop(m, address, data, halves - 1);
      var store := StoreHalf(HalfAddress(address, halves - 1), data(halves - 1));
      assert HalfLoop(m, address, data, halves).trace == prev.trace + [store];
      assert HalfStores(address, data, halves) == HalfStores(address, data, halves - 1) + [store];
      HalfLoopTrace(m, address, data, halves - 1);
      AppendAssoc(m.trace, HalfStores(address, data, halves - 1), store);
    }
  }

  // ---------------------------------------------------------------------------
  // highCyclic_write16
  // ---------------------------------------------------------------------------

  /** The checks highCyclic_write16 makes before it first reads NSSR (src/flash.c:402-419). */
  predicate Write16Allowed(m: Machine, address: u32, size: u32)
  {
    && address % 2 == 0
    && size % 2 == 0
    && var bank := HighCyclicGetBank(address, size, m.regs.edata1Cur, m.regs.edata2Cur);
       && (bank == 1 || bank == 2)
       && var windowStart := HighCyclicBankStart(bank);
          var startSector := HighCyclicSector(windowStart, address);
          var endSector := HighCyclicSector(windowStart, Add(address, Sub(size, 1)));
          && !CheckHdp(startSector, endSector, bank, m.regs.prot)
          && startSector < 128 && endSector < 128
          && !CheckWrp(SectorBits(startSector), SectorBits(endSector), bank, m.regs.prot)
  }

  /**
   * The request passes the alignment, size, bank and HDP checks but one of
   * its sector numbers is 128 or more, so the WRP check's shift is undefined.
   */
  predicate Write16ReachesShift(m: Machine, address: u32, size: u32)
  {
    && address % 2 == 0
    && size % 2 == 0
    && var bank := HighCyclicGetBank(address, size, m.regs.edata1Cur, m.regs.edata2Cur);
       && (bank == 1 || bank == 2)
       && var windowStart := HighCyclicBankStart(bank);
          var startSector := HighCyclicSector(windowStart, address);
          var endSector := HighCyclicSector(windowStart, Add(address, Sub(size, 1)));
          && !CheckHdp(startSector, endSector, bank, m.regs.prot)
          && (startSector >= 128 || endSector >= 128)
  }

  /** The write sequence highCyclic_write16 performs once its checks pass. */
  function Write16Trace(m: Machine, address: u32, data: nat -> bv16, size: u32): seq<Access>
  {
    var pg := ProgramEnable(m.regs.nscr);
    m.trace + NsUnlock + [NsCr(pg), DisableIrq] + HalfStores(address, data, size / 2)
    + [SetPrimask(m.primask), NsCr(ProgramDisable(pg)), NsCr(FLASH_CR_LOCK)]
  }

  /**
   * The sequence from the unlock on: PG set with the interrupt enables
   * kept, interrupts masked, the size / 2 half-word stores, PRIMASK
   * restored, one BSY poll, PG cleared, LOCK, the error read. High-cyclic
   * flash then holds the data half-words.
   */
  lemma Write16SequenceCompletes(status: Status, m: Machine, address: u32, data: nat -> bv16, size: u32)
    ensures var f := Write16Sequence(status, m, address, data, size);
      && f.outcome == Returned(StatusHasError(status(m.srReads + 1)))
      && f.machine.srReads == m.srReads + 2
      && f.machine.regs == m.regs.(nscr := FLASH_CR_LOCK)
      && f.machine.hcFlash == WriteHalves(m.hcFlash, address, data, size / 2)
      && f.machine.mainFlash == m.mainFlash && f.machine.primask == m.primask
  {
  }

  /** The trace of the same sequence. */
  lemma Write16SequenceTrace(status: Status, m: Machine, address: u32, data: nat -> bv16, size: u32)
    ensures Write16Sequence(status, m, address, data, size).machine.trace == Write16Trace(m, address, data, size)
  {
    var pg := ProgramEnable(m.regs.nscr);
    var m3 := MaskInterrupts(WriteNscr(UnlockFlash(m), pg));
    assert m3.trace == m.trace + NsUnlock + [NsCr(pg)] + [DisableIrq];
    AppendTwo(m.trace + NsUnlock, NsCr(pg), DisableIrq);
    HalfLoopTrace(m3, address, data, size / 2);
    var m4 := HalfLoop(m3, address, data, size / 2);
    AppendThree(m4.trace, SetPrimask(m.primask), NsCr(ProgramDisable(pg)), NsCr(FLASH_CR_LOCK));
  }

  /**
   * A completed highCyclic_write16: the pre-check read, then the sequence
   * above, three NSSR reads in all, the last of which decides the result.
   * The flash is locked again, high-cyclic flash holds the data half-words,
   * and main flash and the interrupt mask are as before.
   */
  lemma Write16Completes(status: Status, m: Machine, address: u32, data: nat -> bv16, size: u32)
    requires Write16Allowed(m, address, size) && !StatusBlocksStart(status(m.srReads))
    ensures var f := Write16Run(status, m, address, data, size);
      && f.outcome == Returned(StatusHasError(status(m.srReads + 2)))
      && f.machine.srReads == m.srReads + 3
      && f.machine.regs == m.regs.(nscr := FLASH_CR_LOCK)
      && f.machine.hcFlash == WriteHalves(m.hcFlash, address, data, size / 2)
      && f.machine.mainFlash == m.mainFlash && f.machine.primask == m.primask
      && f.machine.trace == Write16Trace(m, address, data, size)
  {
    Write16Starts(status, m, address, data, size);
    Write16AfterRead(status, m, address, data, size);
  }

  /** The sequence run on the machine after the pre-check read, stated relative to the machine before it. */
  lemma Write16AfterRead(status: Status, m: Machine, address: u32, data: nat -> bv16, size: u32)
    ensures var f := Write16Sequence(status, ReadStatus(m), address, data, size);
      && f.outcome == Returned(StatusHasError(status(m.srReads + 2)))
      && f.machine.srReads == m.srReads + 3
      && f.machine.regs == m.regs.(nscr := FLASH_CR_LOCK)
      && f.machine.hcFlash == WriteHalves(m.hcFlash, address, data, size / 2)
      && f.machine.mainFlash == m.mainFlash && f.machine.primask == m.primask
      && f.machine.trace == Write16Trace(m, address, data, size)
  {
    var m1 := ReadStatus(m);
    Write16SequenceCompletes(status, m1, address, data, size);
    Write16SequenceTrace(status, m1, address, data, size);
    assert Write16Trace(m1, address, data, size) == Write16Trace(m, address, data, size);
  }

  /** Once the checks pass and the first status read allows a start, highCyclic_write16 runs its sequence after that read. */
  lemma Write16Starts(status: Status, m: Machine, address: u32, data: nat -> bv16, size: u32)
    requires Write16Allowed(m, address, size) && !StatusBlocksStart(status(m.srReads))
    ensures Write16Run(status, m, address, data, size) == Write16Sequence(status, ReadStatus(m), address, data, size)
  {
  }

  /**
   * After a completed highCyclic_write16 half-word j of data reads back
   * from the j-th half-word address, for every j below size / 2, and every
   * other high-cyclic address holds what it held before.
   */
  lemma Write16ReadsBack(status: Status, m: Machine, address: u32, data: nat -> bv16, size: u32)
    requires Write16Allowed(m, address, size) && !StatusBlocksStart(status(m.srReads))
    ensures var flash := Write16Run(status, m, address, data, size).machine.hcFlash;
      && (forall j :: 0 <= j < size / 2 ==> HalfAddress(address, j) in flash && flash[HalfAddress(address, j)] == data(j))
      && (forall a: u32 :: NotHalfWritten(address, size / 2, a) ==> SameCell(flash, m.hcFlash, a))
  {
    Write16Completes(status, m, address, data, size);
    var flash := WriteHalves(m.hcFlash, address, data, size / 2);
    forall j | 0 <= j < size / 2
      ensures HalfAddress(address, j) in flash && flash[HalfAddress(address, j)] == data(j)
    {
      WriteHalvesReadback(m.hcFlash, address, data, size / 2, j);
    }
    forall a: u32 | NotHalfWritten(address, size / 2, a)
      ensures SameCell(flash, m.hcFlash, a)
    {
      WriteHalvesKeepsOthers(m.hcFlash, address, data, size / 2, a);
    }
  }

  /**
   * A request that fails the checks returns the error, or reaches the
   * undefined shift when a sector number is 128 or more, and in both cases
   * reads and writes nothing.
   */
  lemma Write16Refused(status: Status, m: Machine, address: u32, data: nat -> bv16, size: u32)
    requires !Write16Allowed(m, address, size)
    ensures Write16Run(status, m, address, data, size).machine == m
    ensures Write16Run(status, m, address, data, size).outcome ==
              if Write16ReachesShift(m, address, size) then Undefined else Returned(true)
  {
  }

  /** An allowed request blocked by the pre-check returns the error after that one read. */
  lemma Write16BlockedByStatus(status: Status, m: Machine, address: u32, data: nat -> bv16, size: u32)
    requires Write16Allowed(m, address, size) && StatusBlocksStart(status(m.srReads))
    ensures Write16Run(status, m, address, data, size) == Finish(Returned(true), m.(srReads := m.srReads + 1))
  {
  }

  /** Nothing is written unless every check passed, and every run that writes unlocks first. */
  lemma Write16WritesOnlyWhenAllowed(status: Status, m: Machine, address: u32, data: nat -> bv16, size: u32)
    ensures var f := Write16Run(status, m, address, data, size);
      f.machine.trace != m.trace ==>
        && Write16Allowed(m, address, size)
        && !StatusBlocksStart(status(m.srReads))
        && |f.machine.trace| >= |m.trace| + 2
        && f.machine.trace[..|m.trace| + 2] == m.trace + NsUnlock
  {
    if !Write16Allowed(m, address, size) {
      Write16Refused(status, m, address, data, size);
    } else if StatusBlocksStart(status(m.srReads)) {
      Write16BlockedByStatus(status, m, address, data, size);
    } else {
      Write16Completes(status, m, address, data, size);
      Write16TraceUnlocks(m, address, data, size);
    }
  }

  /** The write sequence starts with the two unlock keys. */
  lemma Write16TraceUnlocks(m: Machine, address: u32, data: nat -> bv16, size: u32)
    ensures |Write16Trace(m, address, data, size)| >= |m.trace| + 2
    ensures Write16Trace(m, address, data, size)[..|m.trace| + 2] == m.trace + NsUnlock
  {
    var t := Write16Trace(m, address, data, size);
    var rest := [NsCr(ProgramEnable(m.regs.nscr)), DisableIrq] + HalfStores(address, data, size / 2)
                + [SetPrimask(m.primask), NsCr(ProgramDisable(ProgramEnable(m.regs.nscr))), NsCr(FLASH_CR_LOCK)];
    assert t == m.trace + NsUnlock + rest;
    assert t[..|m.trace| + 2] == (m.trace + NsUnlock + rest)[..|m.trace + NsUnlock|];
  }

  /**
   * For a non-wrapping range, both bytes of every half-word the copy loop
   * stores lie in the configured area of the bank highCyclic_getBank
   * named: the bound one byte below the area admits only an odd address,
   * which the alignment check has already refused.
   */
  lemma Write16StoresStayInArea(m: Machine, address: u32, size: u32, j: nat)
    requires EdataLayoutOk()
    requires address % 2 == 0 && size % 2 == 0 && address + size <= TWO_32 && j < size / 2
    ensures HalfAddress(address, j) == address + 2 * j
    ensures var bank := HighCyclicGetBank(address, size, m.regs.edata1Cur, m.regs.edata2Cur);
      && (bank == 1 ==> InRange(address + 2 * j, WindowStart(HIGH_CYCLIC_END_BANK1, SectorCount(m.regs.edata1Cur)), HIGH_CYCLIC_END_BANK1 - 1))
      && (bank == 2 ==> InRange(address + 2 * j, WindowStart(HIGH_CYCLIC_END_BANK2, SectorCount(m.regs.edata2Cur)), HIGH_CYCLIC_END_BANK2 - 1))
  {
    var e1, e2 := m.regs.edata1Cur, m.regs.edata2Cur;
    HighCyclicGetBankSound(address, size, e1, e2, 0);
    HighCyclicGetBankSound(address, size, e1, e2, 2 * j + 1);
    WindowStartEven(HIGH_CYCLIC_END_BANK1, SectorCount(e1));
    WindowStartEven(HIGH_CYCLIC_END_BANK2, SectorCount(e2));
  }

  /** A configured area starts on an even address: the windows end one byte below an even address and sectors are 0x1800 bytes. */
  lemma WindowStartEven(windowEnd: u32, count: u32)
    requires windowEnd == HIGH_CYCLIC_END_BANK1 || windowEnd == HIGH_CYCLIC_END_BANK2
    ensures WindowStart(windowEnd, count) % 2 == 0
  {
    var k := (if windowEnd == HIGH_CYCLIC_END_BANK1 then 0x0480_6000 else 0x0480_C000) - 0xC00 * count;
    assert WindowStart(windowEnd, count) == 2 * k;
    DoubleIsEven(k);
  }

  lemma DoubleIsEven(k: int)
    ensures (2 * k) % 2 == 0
  {
  }

  /**
   * highCyclic_getBank does not see a range wrap past 2^32: a request from
   * the last half-word of an enabled bank-1 area whose last byte wraps to
   * address 1 is accepted as bank 1, and its end sector, counted from the
   * window start, reaches the undefined shift when hide protection is
   * inactive.
   */
  lemma Write16UndefinedOnWrap(status: Status, m: Machine, data: nat -> bv16)
    requires EdataLayoutOk() && SectorCount(m.regs.edata1Cur) >= 1 && !HdpActive(m.regs.prot)
    ensures LastByte(HIGH_CYCLIC_END_BANK1 - 1, TWO_32 - HIGH_CYCLIC_END_BANK1 + 3) == 1
    ensures HighCyclicGetBank(HIGH_CYCLIC_END_BANK1 - 1, TWO_32 - HIGH_CYCLIC_END_BANK1 + 3,
                              m.regs.edata1Cur, m.regs.edata2Cur) == 1
    ensures Write16Run(status, m, HIGH_CYCLIC_END_BANK1 - 1, data, TWO_32 - HIGH_CYCLIC_END_BANK1 + 3).outcome == Undefined
  {
  }
}

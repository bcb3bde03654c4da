/**
 * What flashWrite128 (src/flash.c:314-385) and highCyclic_write16
 * (src/flash.c:399-461) guarantee, stated about Engines.Write128Run and
 * Engines.Write16Run: which requests reach the hardware, the exact write
 * sequence of a completed program operation (unlock, PG, interrupts masked
 * around the stores, PRIMASK restored, PG cleared, LOCK), what memory reads
 * back afterwards, and the NSSR polls.
 */
module WriteProperties {
  import opened Uint32
  import opened Registers
  import opened FlashLayout
  import opened HighCyclicConfig
  import opened Protection
  import opened AddressResolver
  import opened FlashMachine
  import opened Engines

  /** Address a holds the same (or no) value in both memories. */
  predicate SameCell<V(==)>(x: map<u32, V>, y: map<u32, V>, a: u32)
  {
    (a in x <==> a in y) && (a in x ==> x[a] == y[a])
  }

  // ---------------------------------------------------------------------------
  // Main flash after the quad-word copy loop (src/flash.c:353-363)
  // ---------------------------------------------------------------------------

  /** a is none of the first n word addresses from address. */
  predicate NotWordWritten(address: u32, n: nat, a: u32)
  {
    forall j :: 0 <= j < n ==> a != WordAddress(address, j)
  }

  /** Below 2^32 bytes the word cursor has moved exactly 4k bytes, modulo 2^32. */
  lemma WordOffset(address: u32, k: nat)
    requires 4 * k < TWO_32
    ensures Sub(WordAddress(address, k), address) == 4 * k
  {
    if address + 4 * k < TWO_32 {
      assert WordAddress(address, k) == address + 4 * k;
    } else {
      assert WordAddress(address, k) == address + 4 * k - TWO_32;
    }
  }

  /** Two word cursors fewer than 2^32 bytes apart are different addresses. */
  lemma WordAddressesDiffer(address: u32, i: nat, j: nat)
    requires i != j && 4 * i < TWO_32 && 4 * j < TWO_32
    ensures WordAddress(address, i) != WordAddress(address, j)
  {
    WordOffset(address, i);
    WordOffset(address, j);
  }

  /** After one pass of the loop, each of its four words reads back as stored. */
  lemma StoreQuadWordsReads(mem: map<u32, bv32>, address: u32, data: nat -> bv32, k: nat, j: nat)
    requires k <= j < k + 4 && 4 * (k + 4) <= TWO_32
    ensures WordAddress(address, j) in StoreQuadWords(mem, address, data, k)
    ensures StoreQuadWords(mem, address, data, k)[WordAddress(address, j)] == data(j)
  {
    forall i | j < i < k + 4
      ensures WordAddress(address, i) != WordAddress(address, j)
    {
      WordAddressesDiffer(address, i, j);
    }
  }

  /** One pass of the loop leaves every address other than its four words as it was. */
  lemma StoreQuadWordsKeeps(mem: map<u32, bv32>, address: u32, data: nat -> bv32, k: nat, a: u32)
    requires a != WordAddress(address, k) && a != WordAddress(address, k + 1)
    requires a != WordAddress(address, k + 2) && a != WordAddress(address, k + 3)
    ensures SameCell(StoreQuadWords(mem, address, data, k), mem, a)
  {
  }

  /**
   * Word j of data reads back from the j-th word address once the loop has
   * run past it: fewer than 2^32 bytes never wrap onto themselves, so no
   * later store overwrites an earlier one.
   */
  lemma {:induction false} WriteQuadsReadback(mem: map<u32, bv32>, address: u32, data: nat -> bv32, quads: nat, j: nat)
    requires 16 * quads <= TWO_32 && j < 4 * quads
    ensures WordAddress(address, j) in WriteQuads(mem, address, data, quads)
    ensures WriteQuads(mem, address, data, quads)[WordAddress(address, j)] == data(j)
  {
    var k := 4 * (quads - 1);
    var before := WriteQuads(mem, address, data, quads - 1);
    if j >= k {
      StoreQuadWordsReads(before, address, data, k, j);
    } else {
      WriteQuadsReadback(mem, address, data, quads - 1, j);
      forall i | k <= i < k + 4
        ensures WordAddress(address, i) != WordAddress(address, j)
      {
        WordAddressesDiffer(address, i, j);
      }
      StoreQuadWordsKeeps(before, address, data, k, WordAddress(address, j));
    }
  }

  /** Every address that is not one of the stored words keeps its contents. */
  lemma {:induction false} WriteQuadsKeepsOthers(mem: map<u32, bv32>, address: u32, data: nat -> bv32, quads: nat, a: u32)
    requires NotWordWritten(address, 4 * quads, a)
    ensures SameCell(WriteQuads(mem, address, data, quads), mem, a)
  {
    if quads > 0 {
      var k := 4 * (quads - 1);
      assert NotWordWritten(address, k, a);
      assert a != WordAddress(address, k) && a != WordAddress(address, k + 1);
      assert a != WordAddress(address, k + 2) && a != WordAddress(address, k + 3);
      WriteQuadsKeepsOthers(mem, address, data, quads - 1, a);
      StoreQuadWordsKeeps(WriteQuads(mem, address, data, quads - 1), address, data, k, a);
    }
  }

  // ---------------------------------------------------------------------------
  // The trace of the quad-word copy loop
  // ---------------------------------------------------------------------------

  /** The log entries of the stores of words 0 .. n - 1, in order. */
  function WordStores(address: u32, data: nat -> bv32, n: nat): (s: seq<Access>)
    ensures |s| == n
    ensures forall j :: 0 <= j < n ==> s[j] == StoreWord(WordAddress(address, j), data(j))
  {
    if n == 0 then []
    else WordStores(address, data, n - 1) + [StoreWord(WordAddress(address, n - 1), data(n - 1))]
  }

  /** What one pass of the copy loop adds to the trace. */
  lemma StoreQuadTrace(m: Machine, address: u32, data: nat -> bv32, k: nat)
    ensures StoreQuad(m, address, data, k).trace ==
              m.trace + [StoreWord(WordAddress(address, k), data(k))]
                      + [StoreWord(WordAddress(address, k + 1), data(k + 1))]
                      + [StoreWord(WordAddress(address, k + 2), data(k + 2))]
                      + [StoreWord(WordAddress(address, k + 3), data(k + 3))]
  {
  }

  /** Four more words of log entries are the first k entries followed by those four. */
  lemma WordStoresQuad(address: u32, data: nat -> bv32, k: nat, n: nat)
    requires n == k + 4
    ensures WordStores(address, data, n) ==
              WordStores(address, data, k) + [StoreWord(WordAddress(address, k), data(k))]
                                           + [StoreWord(WordAddress(address, k + 1), data(k + 1))]
                                           + [StoreWord(WordAddress(address, k + 2), data(k + 2))]
                                           + [StoreWord(WordAddress(address, k + 3), data(k + 3))]
  {
    assert WordStores(address, data, n) == WordStores(address, data, k + 3) + [StoreWord(WordAddress(address, k + 3), data(k + 3))];
    assert WordStores(address, data, k + 3) == WordStores(address, data, k + 2) + [StoreWord(WordAddress(address, k + 2), data(k + 2))];
    assert WordStores(address, data, k + 2) == WordStores(address, data, k + 1) + [StoreWord(WordAddress(address, k + 1), data(k + 1))];
  }

  /** The copy loop logs exactly the word stores, in order. */
  lemma {:induction false} QuadLoopTrace(m: Machine, address: u32, data: nat -> bv32, quads: nat)
    ensures QuadLoop(m, address, data, quads).trace == m.trace + WordStores(address, data, 4 * quads)
  {
    if quads > 0 {
      var k := 4 * (quads - 1);
      QuadLoopTrace(m, address, data, quads - 1);
      StoreQuadTrace(QuadLoop(m, address, data, quads - 1), address, data, k);
      WordStoresQuad(address, data, k, 4 * quads);
      AppendFourAssoc(m.trace, WordStores(address, data, k),
        StoreWord(WordAddress(address, k), data(k)), StoreWord(WordAddress(address, k + 1), data(k + 1)),
        StoreWord(WordAddress(address, k + 2), data(k + 2)), StoreWord(WordAddress(address, k + 3), data(k + 3)));
    }
  }

  // ---------------------------------------------------------------------------
  // flashWrite128
  // ---------------------------------------------------------------------------

  /** The checks flashWrite128 makes before it first reads NSSR (src/flash.c:317-336). */
  predicate Write128Allowed(m: Machine, address: u32, size: u32)
  {
    && address % 16 == 0
    && size % 16 == 0
    && var bank := FlashGetBank(address, size);
       && (bank == 1 || bank == 2)
       && var startSector := MainSector(BankStart(bank), address);
          var endSector := MainSector(BankStart(bank), Add(address, Sub(size, 1)));
          && !CheckHdp(startSector, endSector, bank, m.regs.prot)
          && startSector < 128 && endSector < 128
          && !CheckWrp(SectorBits(startSector), SectorBits(endSector), bank, m.regs.prot)
  }

  /**
   * The request passes the alignment, size, bank and HDP checks but one of
   * its sector numbers is 128 or more, so the WRP check's shift is undefined.
   */
  predicate Write128ReachesShift(m: Machine, address: u32, size: u32)
  {
    && address % 16 == 0
    && size % 16 == 0
    && var bank := FlashGetBank(address, size);
       && (bank == 1 || bank == 2)
       && var startSector := MainSector(BankStart(bank), address);
          var endSector := MainSector(BankStart(bank), Add(address, Sub(size, 1)));
          && !CheckHdp(startSector, endSector, bank, m.regs.prot)
          && (startSector >= 128 || endSector >= 128)
  }

  /** The write sequence flashWrite128 performs once its checks pass. */
  function Write128Trace(m: Machine, address: u32, data: nat -> bv32, size: u32): seq<Access>
  {
    var pg := ProgramEnable(m.regs.nscr);
    m.trace + NsUnlock + [NsCr(pg), DisableIrq] + WordStores(address, data, size / 4)
    + [SetPrimask(m.primask), NsCr(ProgramDisable(pg)), NsCr(FLASH_CR_LOCK)]
  }

  /**
   * The sequence from the unlock on: PG set with the interrupt enables
   * kept, interrupts masked, the size / 4 word stores, PRIMASK restored to
   * its old value, PG cleared, LOCK; one poll per quad-word, the final poll
   * and the error read. Main flash then holds the data words.
   */
  lemma Write128SequenceCompletes(status: Status, m: Machine, address: u32, data: nat -> bv32, size: u32)
    requires size % 16 == 0
    ensures var f := Write128Sequence(status, m, address, data, size);
      && f.outcome == Returned(StatusHasError(status(m.srReads + size / 16 + 1)))
      && f.machine.srReads == m.srReads + size / 16 + 2
      && f.machine.regs == m.regs.(nscr := FLASH_CR_LOCK)
      && f.machine.mainFlash == WriteQuads(m.mainFlash, address, data, size / 16)
      && f.machine.hcFlash == m.hcFlash && f.machine.primask == m.primask
  {
  }

  /** The trace of the same sequence. */
  lemma Write128SequenceTrace(status: Status, m: Machine, address: u32, data: nat -> bv32, size: u32)
    requires size % 16 == 0
    ensures Write128Sequence(status, m, address, data, size).machine.trace == Write128Trace(m, address, data, size)
  {
    var pg := ProgramEnable(m.regs.nscr);
    var m3 := MaskInterrupts(WriteNscr(UnlockFlash(m), pg));
    assert m3.trace == m.trace + NsUnlock + [NsCr(pg)] + [DisableIrq];
    AppendTwo(m.trace + NsUnlock, NsCr(pg), DisableIrq);
    QuadWords(size);
    QuadLoopTrace(m3, address, data, size / 16);
    var m4 := QuadLoop(m3, address, data, size / 16);
    AppendThree(m4.trace, SetPrimask(m.primask), NsCr(ProgramDisable(pg)), NsCr(FLASH_CR_LOCK));
  }

  /** size / 16 quad-words are size / 4 words. */
  lemma QuadWords(size: u32)
    requires size % 16 == 0
    ensures size / 4 == 4 * (size / 16)
  {
  }

  /**
   * A completed flashWrite128: the pre-check read, then the sequence above,
   * size / 16 + 3 NSSR reads in all, the last of which decides the result.
   * The flash is locked again, main flash holds the data words, and
   * high-cyclic flash and the interrupt mask are as before.
   */
  lemma Write128Completes(status: Status, m: Machine, address: u32, data: nat -> bv32, size: u32)
    requires Write128Allowed(m, address, size) && !StatusBlocksStart(status(m.srReads))
    ensures var f := Write128Run(status, m, address, data, size);
      && f.outcome == Returned(StatusHasError(status(m.srReads + size / 16 + 2)))
      && f.machine.srReads == m.srReads + size / 16 + 3
      && f.machine.regs == m.regs.(nscr := FLASH_CR_LOCK)
      && f.machine.mainFlash == WriteQuads(m.mainFlash, address, data, size / 16)
      && f.machine.hcFlash == m.hcFlash && f.machine.primask == m.primask
      && f.machine.trace == Write128Trace(m, address, data, size)
  {
    Write128Starts(status, m, address, data, size);
    Write128AfterRead(status, m, address, data, size);
    Write128AfterReadTrace(status, m, address, data, size);
  }

  /** The sequence run on the machine after the pre-check read, stated relative to the machine before it. */
  lemma Write128AfterRead(status: Status, m: Machine, address: u32, data: nat -> bv32, size: u32)
    requires size % 16 == 0
    ensures var f := Write128Sequence(status, ReadStatus(m), address, data, size);
      && f.outcome == Returned(StatusHasError(status(m.srReads + size / 16 + 2)))
      && f.machine.srReads == m.srReads + size / 16 + 3
      && f.machine.regs == m.regs.(nscr := FLASH_CR_LOCK)
      && f.machine.mainFlash == WriteQuads(m.mainFlash, address, data, size / 16)
      && f.machine.hcFlash == m.hcFlash && f.machine.primask == m.primask
  {
    var m1 := ReadStatus(m);
    Write128SequenceCompletes(status, m1, address, data, size);
    assert m1.srReads + size / 16 + 1 == m.srReads + size / 16 + 2;
  }

  /** Its trace, stated relative to the machine before the pre-check read. */
  lemma Write128AfterReadTrace(status: Status, m: Machine, address: u32, data: nat -> bv32, size: u32)
    requires size % 16 == 0
    ensures Write128Sequence(status, ReadStatus(m), address, data, size).machine.trace == Write128Trace(m, address, data, size)
  {
    var m1 := ReadStatus(m);
    Write128SequenceTrace(status, m1, address, data, size);
    assert Write128Trace(m1, address, data, size) == Write128Trace(m, address, data, size);
  }

  /** Once the checks pass and the first status read allows a start, flashWrite128 runs its sequence after that read. */
  lemma Write128Starts(status: Status, m: Machine, address: u32, data: nat -> bv32, size: u32)
    requires Write128Allowed(m, address, size) && !StatusBlocksStart(status(m.srReads))
    ensures Write128Run(status, m, address, data, size) == Write128Sequence(status, ReadStatus(m), address, data, size)
  {
  }

  /**
   * After a completed flashWrite128 word j of data reads back from the
   * j-th word address, for every j below size / 4, and every other
   * main-flash address holds what it held before.
   */
  lemma Write128ReadsBack(status: Status, m: Machine, address: u32, data: nat -> bv32, size: u32)
    requires Write128Allowed(m, address, size) && !StatusBlocksStart(status(m.srReads))
    ensures var flash := Write128Run(status, m, address, data, size).machine.mainFlash;
      && (forall j :: 0 <= j < size / 4 ==> WordAddress(address, j) in flash && flash[WordAddress(address, j)] == data(j))
      && (forall a: u32 :: NotWordWritten(address, size / 4, a) ==> SameCell(flash, m.mainFlash, a))
  {
    Write128Completes(status, m, address, data, size);
    QuadWords(size);
    var flash := WriteQuads(m.mainFlash, address, data, size / 16);
    forall j | 0 <= j < size / 4
      ensures WordAddress(address, j) in flash && flash[WordAddress(address, j)] == data(j)
    {
      WriteQuadsReadback(m.mainFlash, address, data, size / 16, j);
    }
    forall a: u32 | NotWordWritten(address, size / 4, a)
      ensures SameCell(flash, m.mainFlash, a)
    {
      WriteQuadsKeepsOthers(m.mainFlash, address, data, size / 16, a);
    }
  }

  /**
   * A request that fails the checks returns the error, or reaches the
   * undefined shift when a sector number is 128 or more, and in both cases
   * reads and writes nothing.
   */
  lemma Write128Refused(status: Status, m: Machine, address: u32, data: nat -> bv32, size: u32)
    requires !Write128Allowed(m, address, size)
    ensures Write128Run(status, m, address, data, size).machine == m
    ensures Write128Run(status, m, address, data, size).outcome ==
              if Write128ReachesShift(m, address, size) then Undefined else Returned(true)
  {
  }

  /** An allowed request blocked by the pre-check returns the error after that one read. */
  lemma Write128BlockedByStatus(status: Status, m: Machine, address: u32, data: nat -> bv32, size: u32)
    requires Write128Allowed(m, address, size) && StatusBlocksStart(status(m.srReads))
    ensures Write128Run(status, m, address, data, size) == Finish(Returned(true), m.(srReads := m.srReads + 1))
  {
  }

  /** Nothing is written unless every check passed, and every run that writes unlocks first. */
  lemma Write128WritesOnlyWhenAllowed(status: Status, m: Machine, address: u32, data: nat -> bv32, size: u32)
    ensures var f := Write128Run(status, m, address, data, size);
      f.machine.trace != m.trace ==>
        && Write128Allowed(m, address, size)
        && !StatusBlocksStart(status(m.srReads))
        && |f.machine.trace| >= |m.trace| + 2
        && f.machine.trace[..|m.trace| + 2] == m.trace + NsUnlock
  {
    if !Write128Allowed(m, address, size) {
      Write128Refused(status, m, address, data, size);
    } else if StatusBlocksStart(status(m.srReads)) {
      Write128BlockedByStatus(status, m, address, data, size);
    } else {
      Write128Completes(status, m, address, data, size);
      Write128TraceUnlocks(m, address, data, size);
    }
  }

  /** The write sequence starts with the two unlock keys. */
  lemma Write128TraceUnlocks(m: Machine, address: u32, data: nat -> bv32, size: u32)
    ensures |Write128Trace(m, address, data, size)| >= |m.trace| + 2
    ensures Write128Trace(m, address, data, size)[..|m.trace| + 2] == m.trace + NsUnlock
  {
    var t := Write128Trace(m, address, data, size);
    var rest := [NsCr(ProgramEnable(m.regs.nscr)), DisableIrq] + WordStores(address, data, size / 4)
                + [SetPrimask(m.primask), NsCr(ProgramDisable(ProgramEnable(m.regs.nscr))), NsCr(FLASH_CR_LOCK)];
    assert t == m.trace + NsUnlock + rest;
    assert t[..|m.trace| + 2] == (m.trace + NsUnlock + rest)[..|m.trace + NsUnlock|];
  }

  /**
   * For a range that does not wrap past 2^32, all four bytes of every word
   * the copy loop stores lie in the bank flash_getBank named.
   */
  lemma Write128StoresStayInBank(address: u32, size: u32, j: nat)
    requires size % 16 == 0 && address + size <= TWO_32 && j < size / 4
    ensures WordAddress(address, j) == address + 4 * j
    ensures FlashGetBank(address, size) == 1 ==> InBank1(address + 4 * j) && InBank1(address + 4 * j + 3)
    ensures FlashGetBank(address, size) == 2 ==> InBank2(address + 4 * j) && InBank2(address + 4 * j + 3)
  {
    FlashGetBankSound(address, size, 4 * j);
    FlashGetBankSound(address, size, 4 * j + 3);
  }

  /**
   * Because sector numbers divide by 128 instead of the sector size, a
   * 16-byte write at the third 8 KiB sector of bank 1 reaches the
   * undefined shift when hide protection is inactive.
   */
  lemma Write128UndefinedPast16KiB(status: Status, m: Machine, data: nat -> bv32)
    requires !HdpActive(m.regs.prot)
    ensures Write128Run(status, m, FLASH_START_BANK1 + 0x4000, data, 16).outcome == Undefined
  {
    assert FlashGetBank(FLASH_START_BANK1 + 0x4000, 16) == 1;
  }

  /**
   * flash_getBank does not see a range wrap past 2^32: a size of
   * 2^32 - 16 at 16 bytes below the 16 KiB mark of bank 1 passes every
   * check once hide and write protection are off, and the copy loop then
   * covers the whole address space.
   */
  lemma Write128AcceptsWrappingRange(m: Machine)
    requires !HdpActive(m.regs.prot) && m.regs.prot.wrp1Cur == 0xFFFF_FFFF
    ensures Write128Allowed(m, FLASH_START_BANK1 + 0x3FF0, TWO_32 - 16)
    ensures LastByte(FLASH_START_BANK1 + 0x3FF0, TWO_32 - 16) == FLASH_START_BANK1 + 0x3FDF
  {
    assert FlashGetBank(FLASH_START_BANK1 + 0x3FF0, TWO_32 - 16) == 1;
  }
}

/**
 * What highCyclic_setArea_internal (src/flash.c:187-241) and
 * highCyclic_setArea (src/flash.c:469-473) guarantee, stated about
 * Engines.SetAreaInternalRun and Engines.SetAreaRun: when the option-byte
 * sequence runs, what it writes, where the written word decodes to, and
 * that the two banks are configured independently.
 */
module SetAreaProperties {
  import opened Uint32
  import opened Registers
  import opened HighCyclicConfig
  import opened FlashMachine
  import opened Engines

  /** The option-byte writes that program one bank's EDATAxR_PRG with the encoding of sectorCount. */
  function SetAreaTrace(m: Machine, bank: u32, sectorCount: u32): seq<Access>
  {
    m.trace + [OptKey(FLASH_OPT_KEY1), OptKey(FLASH_OPT_KEY2), EdataPrg(bank, Configuration(sectorCount)),
               OptCr(OptionStart(m.regs.optcr)), OptCr(FLASH_OPTCR_OPTLOCK)]
  }

  /** The configuration is not current in EDATAxR_CUR, so highCyclic_setArea_internal goes on to the status check. */
  predicate SetAreaNeeded(m: Machine, bank: u32, sectorCount: u32)
  {
    (bank == 1 || bank == 2) && EdataCur(m, bank) != Configuration(sectorCount)
  }

  /** A bank other than 1 or 2, or a configuration already current, changes nothing and reads nothing. */
  lemma SetAreaSkips(status: Status, m: Machine, bank: u32, sectorCount: u32)
    requires !SetAreaNeeded(m, bank, sectorCount)
    ensures SetAreaInternalRun(status, m, bank, sectorCount) == m
  {
  }

  /** A status read that shows an error or an unfinished operation stops before the unlock: one read, no write. */
  lemma SetAreaBlockedByStatus(status: Status, m: Machine, bank: u32, sectorCount: u32)
    requires SetAreaNeeded(m, bank, sectorCount) && StatusBlocksStart(status(m.srReads))
    ensures SetAreaInternalRun(status, m, bank, sectorCount) == m.(srReads := m.srReads + 1)
  {
  }

  /**
   * Otherwise: the two option-byte keys, the encoded word into the bank's
   * EDATAxR_PRG, OPTSTART added to OPTCR, a BSY poll, OPTLOCK; two NSSR
   * reads. The other bank's PRG word, NSCR, the CUR words, the protection
   * registers and both memories are untouched.
   */
  lemma SetAreaPrograms(status: Status, m: Machine, bank: u32, sectorCount: u32)
    requires SetAreaNeeded(m, bank, sectorCount) && !StatusBlocksStart(status(m.srReads))
    ensures var r := SetAreaInternalRun(status, m, bank, sectorCount);
      && r.trace == SetAreaTrace(m, bank, sectorCount)
      && r.srReads == m.srReads + 2
      && r.regs.optcr == FLASH_OPTCR_OPTLOCK
      && r.regs.edata1Prg == (if bank == 1 then Configuration(sectorCount) else m.regs.edata1Prg)
      && r.regs.edata2Prg == (if bank == 2 then Configuration(sectorCount) else m.regs.edata2Prg)
      && r.regs.nscr == m.regs.nscr && r.regs.prot == m.regs.prot
      && r.regs.edata1Cur == m.regs.edata1Cur && r.regs.edata2Cur == m.regs.edata2Cur
      && r.mainFlash == m.mainFlash && r.hcFlash == m.hcFlash && r.primask == m.primask
  {
    SetAreaProgramsTrace(status, m, bank, sectorCount);
  }

  /** The trace part of SetAreaPrograms. */
  lemma SetAreaProgramsTrace(status: Status, m: Machine, bank: u32, sectorCount: u32)
    requires SetAreaNeeded(m, bank, sectorCount) && !StatusBlocksStart(status(m.srReads))
    ensures SetAreaInternalRun(status, m, bank, sectorCount).trace == SetAreaTrace(m, bank, sectorCount)
  {
    var c := Configuration(sectorCount);
    var m1 := UnlockFlashOptionBytes(ReadStatus(m));
    var m2 := WriteEdataPrg(m1, bank, c);
    assert m2.trace == m1.trace + [EdataPrg(bank, c)];
    assert m2.regs.optcr == m.regs.optcr;
    AppendThreeAfterPair(m.trace, OptKey(FLASH_OPT_KEY1), OptKey(FLASH_OPT_KEY2), EdataPrg(bank, c),
                         OptCr(OptionStart(m.regs.optcr)), OptCr(FLASH_OPTCR_OPTLOCK));
  }

  /** Nothing is written unless the configuration differs from CUR and the status allows a start. */
  lemma SetAreaWritesOnlyWhenNeeded(status: Status, m: Machine, bank: u32, sectorCount: u32)
    ensures var r := SetAreaInternalRun(status, m, bank, sectorCount);
      r.trace != m.trace ==>
        && SetAreaNeeded(m, bank, sectorCount)
        && !StatusBlocksStart(status(m.srReads))
        && r.trace == SetAreaTrace(m, bank, sectorCount)
  {
    if SetAreaNeeded(m, bank, sectorCount) && !StatusBlocksStart(status(m.srReads)) {
      SetAreaPrograms(status, m, bank, sectorCount);
    }
  }

  /**
   * With the device's register layout, the word programmed for any count
   * from 0 to 8 decodes, as highCyclic_getBank reads EDATAxR_CUR, back to
   * that count, and a larger count decodes to ((count - 1) & 7) + 1.
   */
  lemma SetAreaProgramsRequestedCount(status: Status, m: Machine, bank: u32, sectorCount: u32)
    requires EdataLayoutOk()
    requires SetAreaNeeded(m, bank, sectorCount) && !StatusBlocksStart(status(m.srReads))
    ensures var r := SetAreaInternalRun(status, m, bank, sectorCount);
      var programmed := if bank == 1 then r.regs.edata1Prg else r.regs.edata2Prg;
      && (sectorCount <= 8 ==> SectorCount(programmed) == sectorCount)
      && (sectorCount > 8 ==> SectorCount(programmed) == (sectorCount - 1) % 8 + 1)
  {
    SetAreaPrograms(status, m, bank, sectorCount);
    if sectorCount <= 8 {
      ConfigurationRoundTrip(sectorCount);
    } else {
      ConfigurationDecodesModulo8(sectorCount);
    }
  }

  /**
   * highCyclic_setArea configures bank 2 whatever happened to bank 1:
   * whether bank 1 was skipped, blocked or programmed, bank 2's request is
   * handled by the same rules on the state bank 1 left, and bank 1's run
   * never changed the CUR word bank 2 is compared with.
   */
  lemma SetAreaBanksIndependent(status: Status, m: Machine, sectorCountBank1: u32, sectorCountBank2: u32)
    ensures var after1 := SetAreaInternalRun(status, m, 1, sectorCountBank1);
      && after1.regs.edata2Cur == m.regs.edata2Cur
      && after1.regs.edata2Prg == m.regs.edata2Prg
      && SetAreaRun(status, m, sectorCountBank1, sectorCountBank2) == SetAreaInternalRun(status, after1, 2, sectorCountBank2)
  {
    if SetAreaNeeded(m, 1, sectorCountBank1) && !StatusBlocksStart(status(m.srReads)) {
      SetAreaPrograms(status, m, 1, sectorCountBank1);
    }
  }

  /**
   * When both banks need a new configuration and every status read allows
   * a start, highCyclic_setArea programs bank 1 and then bank 2, each with
   * its own encoded word, in four NSSR reads.
   */
  lemma SetAreaProgramsBoth(status: Status, m: Machine, sectorCountBank1: u32, sectorCountBank2: u32)
    requires SetAreaNeeded(m, 1, sectorCountBank1) && SetAreaNeeded(m, 2, sectorCountBank2)
    requires !StatusBlocksStart(status(m.srReads)) && !StatusBlocksStart(status(m.srReads + 2))
    ensures var r := SetAreaRun(status, m, sectorCountBank1, sectorCountBank2);
      var after1 := SetAreaInternalRun(status, m, 1, sectorCountBank1);
      && r.trace == SetAreaTrace(after1, 2, sectorCountBank2)
      && after1.trace == SetAreaTrace(m, 1, sectorCountBank1)
      && r.regs.edata1Prg == Configuration(sectorCountBank1)
      && r.regs.edata2Prg == Configuration(sectorCountBank2)
      && r.regs.optcr == FLASH_OPTCR_OPTLOCK
      && r.srReads == m.srReads + 4
  {
    SetAreaPrograms(status, m, 1, sectorCountBank1);
    var after1 := SetAreaInternalRun(status, m, 1, sectorCountBank1);
    assert after1.srReads == m.srReads + 2;
    SetAreaPrograms(status, after1, 2, sectorCountBank2);
  }
}

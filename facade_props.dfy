/**
 * What the exported flash_write16 and flash_erase (src/flash.c:484-514)
 * guarantee, stated about Engines.FlashWrite16Run and Engines.FlashEraseRun:
 * which engine a request reaches, that main-flash addresses never reach
 * the high-cyclic engine, and how the half-words at &data land in memory.
 */
module FacadeProperties {
  import opened Uint32
  import opened Registers
  import opened FlashLayout
  import opened HighCyclicConfig
  import opened AddressResolver
  import opened FlashMachine
  import opened Engines
  import opened WriteProperties
  import opened HighCyclicWriteProperties

  /**
   * The byte highCyclic_getBank(address, 1) accepts: from one byte below a
   * bank's configured area up to the end of that bank's window.
   */
  predicate AcceptedAsHighCyclic(m: Machine, address: u32)
  {
    || InRange(address, WindowStart(HIGH_CYCLIC_END_BANK1, SectorCount(m.regs.edata1Cur)) - 1, HIGH_CYCLIC_END_BANK1)
    || InRange(address, WindowStart(HIGH_CYCLIC_END_BANK2, SectorCount(m.regs.edata2Cur)) - 1, HIGH_CYCLIC_END_BANK2)
  }

  /**
   * With the device's register layout, flash_write16 sends an accepted
   * address with an even size to the high-cyclic engine, any other address
   * with a size that is a multiple of 16 to the main-flash engine, and
   * drops everything else.
   */
  lemma Write16RouteCharacterised(m: Machine, address: u32, size: u32)
    requires EdataLayoutOk()
    ensures Write16Route(m, address, size) == ToHighCyclic <==> AcceptedAsHighCyclic(m, address) && size % 2 == 0
    ensures Write16Route(m, address, size) == ToMainFlash <==> !AcceptedAsHighCyclic(m, address) && size % 16 == 0
    ensures Write16Route(m, address, size) == Dropped <==>
              if AcceptedAsHighCyclic(m, address) then size % 2 != 0 else size % 16 != 0
  {
    var count1 := SectorCount(m.regs.edata1Cur);
    var count2 := SectorCount(m.regs.edata2Cur);
    assert WindowBound(HIGH_CYCLIC_END_BANK1, count1) == WindowStart(HIGH_CYCLIC_END_BANK1, count1) - 1;
    assert WindowBound(HIGH_CYCLIC_END_BANK2, count2) == WindowStart(HIGH_CYCLIC_END_BANK2, count2) - 1;
    assert LastByte(address, 1) == address;
  }

  /**
   * Every main-flash address (both banks, and up to 0x08FF_FFFE beyond
   * them) reaches flashWrite128 with the words at &data when the size is a
   * multiple of 16, and is dropped otherwise, whatever EDATAxR_CUR holds.
   */
  lemma MainFlashNeverHighCyclic(status: Status, m: Machine, address: u32, data: bv16, beyond: nat -> bv16, size: u32)
    requires EdataLayoutOk() && address < HIGH_CYCLIC_START_BANK1 - 1
    ensures FlashWrite16Run(status, m, address, data, beyond, size) ==
              if size % 16 == 0 then Write128Run(status, m, address, WordsFrom(data, beyond), size)
              else Finish(Returned(false), m)
  {
    Write16RouteCharacterised(m, address, size);
  }

  /**
   * An address inside a configured high-cyclic area reaches
   * highCyclic_write16 with the half-words at &data when the size is even,
   * and is dropped otherwise.
   */
  lemma HighCyclicAreaReachesWrite16(status: Status, m: Machine, address: u32, data: bv16, beyond: nat -> bv16, size: u32)
    requires EdataLayoutOk()
    requires || InRange(address, WindowStart(HIGH_CYCLIC_END_BANK1, SectorCount(m.regs.edata1Cur)), HIGH_CYCLIC_END_BANK1)
             || InRange(address, WindowStart(HIGH_CYCLIC_END_BANK2, SectorCount(m.regs.edata2Cur)), HIGH_CYCLIC_END_BANK2)
    ensures FlashWrite16Run(status, m, address, data, beyond, size) ==
              if size % 2 == 0 then Write16Run(status, m, address, HalvesFrom(data, beyond), size)
              else Finish(Returned(false), m)
  {
    Write16RouteCharacterised(m, address, size);
  }

  /**
   * flash_write16 writes nothing unless the engine it routed to accepted
   * the request and the first status read allowed a start; every run that
   * writes starts with the two unlock keys.
   */
  lemma FlashWrite16WritesOnlyWhenAllowed(status: Status, m: Machine, address: u32, data: bv16, beyond: nat -> bv16, size: u32)
    ensures var f := FlashWrite16Run(status, m, address, data, beyond, size);
      f.machine.trace != m.trace ==>
        && !StatusBlocksStart(status(m.srReads))
        && (match Write16Route(m, address, size)
            case ToHighCyclic => Write16Allowed(m, address, size)
            case ToMainFlash => Write128Allowed(m, address, size)
            case Dropped => false)
        && |f.machine.trace| >= |m.trace| + 2
        && f.machine.trace[..|m.trace| + 2] == m.trace + NsUnlock
  {
    match Write16Route(m, address, size)
    case ToHighCyclic => Write16WritesOnlyWhenAllowed(status, m, address, HalvesFrom(data, beyond), size);
    case ToMainFlash => Write128WritesOnlyWhenAllowed(status, m, address, WordsFrom(data, beyond), size);
    case Dropped =>
  }

  /** Two half-words joined low half first split back into the same two half-words. */
  lemma JoinSplits(lo: bv16, hi: bv16)
    ensures ((lo as bv32) | ((hi as bv32) << 16)) & 0xFFFF == lo as bv32
    ensures ((lo as bv32) | ((hi as bv32) << 16)) >> 16 == hi as bv32
  {
  }

  /**
   * A completed main-flash write through flash_write16 stores the
   * half-words at &data in little-endian order: the word at address + 4j
   * holds half-word 2j in its low half and half-word 2j + 1 in its high
   * half, so the argument itself is the low half of the first word and
   * every other half-word comes from past it.
   */
  lemma FlashWrite16MainFlashLittleEndian(status: Status, m: Machine, address: u32, data: bv16, beyond: nat -> bv16, size: u32)
    requires Write16Route(m, address, size) == ToMainFlash
    requires Write128Allowed(m, address, size) && !StatusBlocksStart(status(m.srReads))
    ensures var flash := FlashWrite16Run(status, m, address, data, beyond, size).machine.mainFlash;
      forall j :: 0 <= j < size / 4 ==>
        && WordAddress(address, j) in flash
        && flash[WordAddress(address, j)] & 0xFFFF == HalfAt(data, beyond, 2 * j) as bv32
        && flash[WordAddress(address, j)] >> 16 == HalfAt(data, beyond, 2 * j + 1) as bv32
  {
    assert FlashWrite16Run(status, m, address, data, beyond, size) == Write128Run(status, m, address, WordsFrom(data, beyond), size);
    WordsReadBack(status, m, address, data, beyond, size);
  }

  /** The same about flashWrite128 on the memory at &data. */
  lemma WordsReadBack(status: Status, m: Machine, address: u32, data: bv16, beyond: nat -> bv16, size: u32)
    requires Write128Allowed(m, address, size) && !StatusBlocksStart(status(m.srReads))
    ensures var flash := Write128Run(status, m, address, WordsFrom(data, beyond), size).machine.mainFlash;
      forall j :: 0 <= j < size / 4 ==>
        && WordAddress(address, j) in flash
        && flash[WordAddress(address, j)] & 0xFFFF == HalfAt(data, beyond, 2 * j) as bv32
        && flash[WordAddress(address, j)] >> 16 == HalfAt(data, beyond, 2 * j + 1) as bv32
  {
    var words := WordsFrom(data, beyond);
    Write128ReadsBack(status, m, address, words, size);
    forall j | 0 <= j < size / 4
      ensures words(j) & 0xFFFF == HalfAt(data, beyond, 2 * j) as bv32
      ensures words(j) >> 16 == HalfAt(data, beyond, 2 * j + 1) as bv32
    {
      JoinSplits(HalfAt(data, beyond, 2 * j), HalfAt(data, beyond, 2 * j + 1));
    }
  }

  /**
   * A completed high-cyclic write through flash_write16 stores half-word j
   * of the memory at &data at address + 2j: the argument at the address
   * itself, and past it whatever follows the argument.
   */
  lemma FlashWrite16HighCyclicStoresHalves(status: Status, m: Machine, address: u32, data: bv16, beyond: nat -> bv16, size: u32)
    requires Write16Route(m, address, size) == ToHighCyclic
    requires Write16Allowed(m, address, size) && !StatusBlocksStart(status(m.srReads))
    ensures var flash := FlashWrite16Run(status, m, address, data, beyond, size).machine.hcFlash;
      && (size >= 2 ==> address in flash && flash[address] == data)
      && (forall j :: 1 <= j < size / 2 ==> HalfAddress(address, j) in flash && flash[HalfAddress(address, j)] == beyond(j - 1))
  {
    var halves := HalvesFrom(data, beyond);
    assert FlashWrite16Run(status, m, address, data, beyond, size) == Write16Run(status, m, address, halves, size);
    HalvesReadBack(status, m, address, data, beyond, size);
  }

  /** The same about highCyclic_write16 on the memory at &data. */
  lemma HalvesReadBack(status: Status, m: Machine, address: u32, data: bv16, beyond: nat -> bv16, size: u32)
    requires Write16Allowed(m, address, size) && !StatusBlocksStart(status(m.srReads))
    ensures var flash := Write16Run(status, m, address, HalvesFrom(data, beyond), size).machine.hcFlash;
      && (size >= 2 ==> address in flash && flash[address] == data)
      && (forall j :: 1 <= j < size / 2 ==> HalfAddress(address, j) in flash && flash[HalfAddress(address, j)] == beyond(j - 1))
  {
    var halves := HalvesFrom(data, beyond);
    Write16ReadsBack(status, m, address, halves, size);
    HalvesFromPast(data, beyond);
    HalfAddressZero(address);
  }

  lemma HalfAddressZero(address: u32)
    ensures HalfAddress(address, 0) == address
  {
  }

  /** Past half-word 0, the memory at &data is what follows the argument. */
  lemma HalvesFromPast(data: bv16, beyond: nat -> bv16)
    ensures HalvesFrom(data, beyond)(0) == data
    ensures forall j: nat :: j >= 1 ==> HalvesFrom(data, beyond)(j) == beyond(j - 1)
  {
  }
}

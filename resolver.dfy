/**
 * Which bank an address range belongs to: flash_getBank for main flash
 * (src/flash.c:141-161) and highCyclic_getBank for the high-cyclic windows
 * (src/flash.c:105-132). Both are interval tests on uint32 values, so a
 * range end address + size - 1 wraps past 2^32 - 1.
 */
module AddressResolver {
  import opened Uint32
  import opened FlashLayout
  import opened Registers
  import opened HighCyclicConfig

  /** The last byte of a range as the driver computes it: address + size - 1 in uint32. */
  function LastByte(address: u32, size: u32): (r: u32)
    ensures 0 < size && address + size <= TWO_32 ==> r == address + size - 1
    ensures size == 0 ==> r == Sub(address, 1)
  {
    Sub(Add(address, size), 1)
  }

  predicate InBank1(x: u32)
  {
    InRange(x, FLASH_START_BANK1, FLASH_END_BANK1)
  }

  predicate InBank2(x: u32)
  {
    InRange(x, FLASH_START_BANK2, FLASH_END_BANK2)
  }

  /**
   * flash_getBank (src/flash.c:141-161): 1 when the first and the last byte
   * both lie in bank 1, else 2 when both lie in bank 2, else 0.
   */
  function FlashGetBank(address: u32, size: u32): (bank: u32)
    ensures bank <= 2
    ensures bank == 1 <==> InBank1(address) && InBank1(LastByte(address, size))
    ensures bank == 2 <==> InBank2(address) && InBank2(LastByte(address, size))
  {
    var last := LastByte(address, size);
    if address >= FLASH_START_BANK1 && address <= FLASH_END_BANK1 &&
       last >= FLASH_START_BANK1 && last <= FLASH_END_BANK1 then
      1
    else if address >= FLASH_START_BANK2 && address <= FLASH_END_BANK2 &&
            last >= FLASH_START_BANK2 && last <= FLASH_END_BANK2 then
      2
    else
      0
  }

  /** First byte of a bank, as the engines select it (src/flash.c:327). */
  function BankStart(bank: u32): (r: u32)
    ensures bank == 1 ==> r == FLASH_START_BANK1
    ensures bank != 1 ==> r == FLASH_START_BANK2
  {
    if bank == 1 then FLASH_START_BANK1 else FLASH_START_BANK2
  }

  /** Every byte of a non-empty, non-wrapping range that flash_getBank accepts lies in the bank it names. */
  lemma FlashGetBankSound(address: u32, size: u32, i: int)
    requires 0 < size && address + size <= TWO_32 && 0 <= i < size
    ensures FlashGetBank(address, size) == 1 ==> InBank1(address + i)
    ensures FlashGetBank(address, size) == 2 ==> InBank2(address + i)
  {
  }

  /** A non-empty, non-wrapping range inside one bank is given that bank. */
  lemma FlashGetBankComplete(address: u32, size: u32)
    requires 0 < size && address + size <= TWO_32
    ensures InBank1(address) && InBank1(address + size - 1) ==> FlashGetBank(address, size) == 1
    ensures InBank2(address) && InBank2(address + size - 1) ==> FlashGetBank(address, size) == 2
  {
  }

  /** A range that starts in bank 1 and ends in bank 2 belongs to neither. */
  lemma FlashGetBankStraddle(address: u32, size: u32)
    requires 0 < size && address + size <= TWO_32
    requires InBank1(address) && InBank2(address + size - 1)
    ensures FlashGetBank(address, size) == 0
  {
  }

  /**
   * The two-ends test does not see the range wrap: 0xFFF00020 bytes from
   * near the end of bank 1 end, modulo 2^32, at the start of bank 1.
   */
  lemma FlashGetBankWrapAccepted()
    ensures LastByte(0x080F_FFF0, 0xFFF0_0020) == 0x0800_000F
    ensures FlashGetBank(0x080F_FFF0, 0xFFF0_0020) == 1
  {
  }

  /**
   * An empty range has address - 1 as its last byte: it is accepted inside
   * a bank but refused at the first byte of either bank.
   */
  lemma FlashGetBankEmptyRange()
    ensures FlashGetBank(FLASH_START_BANK1 + 0x10, 0) == 1
    ensures FlashGetBank(FLASH_START_BANK1, 0) == 0
    ensures FlashGetBank(FLASH_START_BANK2, 0) == 0
  {
  }

  /**
   * The lower bound highCyclic_getBank tests against (src/flash.c:118, 123):
   * END - 0x1800 * count in uint32.
   */
  function WindowBound(windowEnd: u32, sectorCount: u32): (r: u32)
    ensures sectorCount <= 8 && 8 * HIGH_CYCLIC_SECTOR_SIZE <= windowEnd ==>
              r == windowEnd - HIGH_CYCLIC_SECTOR_SIZE * sectorCount
  {
    Sub(windowEnd, Mul(HIGH_CYCLIC_SECTOR_SIZE, sectorCount))
  }

  /**
   * The first byte of the configured high-cyclic area: the last count
   * sectors of the window.
   */
  function WindowStart(windowEnd: u32, sectorCount: u32): int
  {
    windowEnd + 1 - HIGH_CYCLIC_SECTOR_SIZE * sectorCount
  }

  /**
   * highCyclic_getBank (src/flash.c:105-132) with the two EDATAxR_CUR words:
   * 1 when address is at least the bank-1 bound and the last byte at most
   * the end of the bank-1 window, else 2 by the same test on bank 2, else 0.
   */
  function HighCyclicGetBank(address: u32, size: u32, edata1Cur: bv32, edata2Cur: bv32): (bank: u32)
    ensures bank <= 2
    ensures bank == 1 <==>
              address >= WindowBound(HIGH_CYCLIC_END_BANK1, SectorCount(edata1Cur)) &&
              LastByte(address, size) <= HIGH_CYCLIC_END_BANK1
    ensures bank == 2 <==>
              !(address >= WindowBound(HIGH_CYCLIC_END_BANK1, SectorCount(edata1Cur)) &&
                LastByte(address, size) <= HIGH_CYCLIC_END_BANK1) &&
              address >= WindowBound(HIGH_CYCLIC_END_BANK2, SectorCount(edata2Cur)) &&
              LastByte(address, size) <= HIGH_CYCLIC_END_BANK2
  {
    var count1 := SectorCount(edata1Cur);
    var count2 := SectorCount(edata2Cur);
    var last := LastByte(address, size);
    if address >= WindowBound(HIGH_CYCLIC_END_BANK1, count1) && last <= HIGH_CYCLIC_END_BANK1 then
      1
    else if address >= WindowBound(HIGH_CYCLIC_END_BANK2, count2) && last <= HIGH_CYCLIC_END_BANK2 then
      2
    else
      0
  }

  /**
   * With a device layout (count at most 8), a non-empty, non-wrapping range
   * that highCyclic_getBank accepts lies between one byte below the
   * configured area and the end of that bank's window.
   */
  lemma HighCyclicGetBankSound(address: u32, size: u32, edata1Cur: bv32, edata2Cur: bv32, i: int)
    requires EdataLayoutOk()
    requires 0 < size && address + size <= TWO_32 && 0 <= i < size
    ensures HighCyclicGetBank(address, size, edata1Cur, edata2Cur) == 1 ==>
              InRange(address + i, WindowStart(HIGH_CYCLIC_END_BANK1, SectorCount(edata1Cur)) - 1, HIGH_CYCLIC_END_BANK1)
    ensures HighCyclicGetBank(address, size, edata1Cur, edata2Cur) == 2 ==>
              InRange(address + i, WindowStart(HIGH_CYCLIC_END_BANK2, SectorCount(edata2Cur)) - 1, HIGH_CYCLIC_END_BANK2)
  {
  }

  /** A non-empty, non-wrapping range inside a configured area is given that area's bank. */
  lemma HighCyclicGetBankComplete(address: u32, size: u32, edata1Cur: bv32, edata2Cur: bv32)
    requires EdataLayoutOk()
    requires 0 < size && address + size <= TWO_32
    ensures InRange(address, WindowStart(HIGH_CYCLIC_END_BANK1, SectorCount(edata1Cur)), HIGH_CYCLIC_END_BANK1) &&
            address + size - 1 <= HIGH_CYCLIC_END_BANK1 ==>
              HighCyclicGetBank(address, size, edata1Cur, edata2Cur) == 1
    ensures InRange(address, WindowStart(HIGH_CYCLIC_END_BANK2, SectorCount(edata2Cur)), HIGH_CYCLIC_END_BANK2) &&
            address + size - 1 <= HIGH_CYCLIC_END_BANK2 ==>
              HighCyclicGetBank(address, size, edata1Cur, edata2Cur) == 2
  {
    HighCyclicWindows();
  }

  /**
   * The lower bound is one byte below the configured area
   * (src/flash.c:118): the byte just before the area is accepted as bank 1.
   */
  lemma HighCyclicBoundOffByOne(edata1Cur: bv32, edata2Cur: bv32)
    requires EdataLayoutOk()
    ensures HighCyclicGetBank(WindowStart(HIGH_CYCLIC_END_BANK1, SectorCount(edata1Cur)) - 1, 1, edata1Cur, edata2Cur) == 1
  {
  }

  /** With all eight sectors configured, the accepted byte lies below the whole bank-1 window. */
  lemma HighCyclicBoundBelowWindow(edata2Cur: bv32)
    requires EdataLayoutOk()
    ensures SectorCount(Configuration(8)) == 8
    ensures HighCyclicGetBank(HIGH_CYCLIC_START_BANK1 - 1, 1, Configuration(8), edata2Cur) == 1
  {
    ConfigurationRoundTrip(8);
  }

  /** With the area switched off (count 0), a 1-byte range at the last byte of a window is still accepted. */
  lemma HighCyclicDisabledLastByte(edata1Cur: bv32, edata2Cur: bv32)
    requires SectorCount(edata1Cur) == 0 && SectorCount(edata2Cur) == 0
    ensures HighCyclicGetBank(HIGH_CYCLIC_END_BANK1, 1, edata1Cur, edata2Cur) == 1
    ensures HighCyclicGetBank(HIGH_CYCLIC_END_BANK2, 1, edata1Cur, edata2Cur) == 2
    ensures HighCyclicGetBank(HIGH_CYCLIC_END_BANK1 - 1, 1, edata1Cur, edata2Cur) == 0
  {
  }
}

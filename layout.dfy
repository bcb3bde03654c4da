/**
 * Memory map of the two flash banks and of the two high-cyclic windows
 * (src/flash.h), and the sector numbers the engines derive from an address
 * (src/flash.c:327-329, 412-414).
 */
module FlashLayout {
  import opened Uint32

  /** Sector size of the STM32H563 (FLASH_SECTOR_SIZE of the device header): 8 KiB. */
  const FLASH_SECTOR_SIZE: u32 := 0x2000

  const FLASH_PAGE_SIZE: u32 := FLASH_SECTOR_SIZE
  const FLASH_PAGES_PER_BANK: u32 := 128
  const FLASH_BANK_SIZE_STATIC: u32 := FLASH_PAGES_PER_BANK * FLASH_PAGE_SIZE
  const FLASH_START_BANK1: u32 := 0x0800_0000
  const FLASH_END_BANK1: u32 := FLASH_START_BANK1 + FLASH_BANK_SIZE_STATIC - 1
  const FLASH_START_BANK2: u32 := 0x0810_0000
  const FLASH_END_BANK2: u32 := FLASH_START_BANK2 + FLASH_BANK_SIZE_STATIC - 1
  const FLASH_PAGE_OFFSET_BANK2: u32 := FLASH_PAGES_PER_BANK

  /** Sector number (in the protection numbering) of the first high-cyclic sector. */
  const HIGH_CYCLIC_PAGE_OFFSET: u32 := 120

  const HIGH_CYCLIC_START_BANK1: u32 := 0x0900_0000
  const HIGH_CYCLIC_START_BANK2: u32 := 0x0900_C000
  const HIGH_CYCLIC_SECTOR_SIZE: u32 := 0x1800
  const HIGH_CYCLIC_END_BANK1: u32 := HIGH_CYCLIC_START_BANK1 + 8 * HIGH_CYCLIC_SECTOR_SIZE - 1
  const HIGH_CYCLIC_END_BANK2: u32 := HIGH_CYCLIC_START_BANK2 + 8 * HIGH_CYCLIC_SECTOR_SIZE - 1

  /** Each bank is 128 sectors of 8 KiB, and bank 2 starts the byte after bank 1 ends. */
  lemma BankBounds()
    ensures FLASH_END_BANK1 == FLASH_START_BANK1 + 128 * FLASH_PAGE_SIZE - 1
    ensures FLASH_END_BANK2 == FLASH_START_BANK2 + 128 * FLASH_PAGE_SIZE - 1
    ensures FLASH_START_BANK1 < FLASH_END_BANK1 < FLASH_START_BANK2 < FLASH_END_BANK2
    ensures FLASH_END_BANK1 + 1 == FLASH_START_BANK2
  {
  }

  /** Each high-cyclic window is 8 sectors of 0x1800 bytes, and the bank-2 window follows the bank-1 window. */
  lemma HighCyclicWindows()
    ensures HIGH_CYCLIC_END_BANK1 == HIGH_CYCLIC_START_BANK1 + 0xC000 - 1
    ensures HIGH_CYCLIC_END_BANK2 == HIGH_CYCLIC_START_BANK2 + 0xC000 - 1
    ensures HIGH_CYCLIC_END_BANK1 + 1 == HIGH_CYCLIC_START_BANK2
    ensures FLASH_END_BANK2 < HIGH_CYCLIC_START_BANK1
  {
  }

  /** The eight high-cyclic sectors are the last eight sectors of a bank. */
  lemma HighCyclicPagesAreLastSectors()
    ensures HIGH_CYCLIC_PAGE_OFFSET + 8 == FLASH_PAGES_PER_BANK
  {
  }

  /**
   * Sector number of a main-flash address, as src/flash.c:328-329 computes
   * it: the uint32 bank offset divided by FLASH_PAGES_PER_BANK (128), not by
   * the sector size. Only the first 16 KiB of a bank get a number below 128.
   */
  function MainSector(bankStart: u32, address: u32): (r: u32)
    ensures r < FLASH_PAGES_PER_BANK <==> Sub(address, bankStart) < 0x4000
  {
    Sub(address, bankStart) / FLASH_PAGES_PER_BANK
  }

  /**
   * The start of the second 8 KiB sector of bank 1 is numbered 64, not 1,
   * and the numbering leaves 0..127 after the first 16 KiB of the bank.
   */
  lemma MainSectorDivisor()
    ensures MainSector(FLASH_START_BANK1, FLASH_START_BANK1 + FLASH_PAGE_SIZE) == 64
    ensures MainSector(FLASH_START_BANK2, FLASH_START_BANK2 + 0x3FFF) == 127
    ensures MainSector(FLASH_START_BANK2, FLASH_START_BANK2 + 0x4000) == 128
  {
  }

  /**
   * Sector number of a high-cyclic address (src/flash.c:413-414): every
   * address of a window gets one of the last eight sector numbers 120..127.
   */
  function HighCyclicSector(windowStart: u32, address: u32): (r: u32)
    ensures Sub(address, windowStart) < 8 * HIGH_CYCLIC_SECTOR_SIZE ==>
              HIGH_CYCLIC_PAGE_OFFSET <= r < FLASH_PAGES_PER_BANK
  {
    Add(HIGH_CYCLIC_PAGE_OFFSET, Sub(address, windowStart) / HIGH_CYCLIC_SECTOR_SIZE)
  }
}

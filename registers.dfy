/**
 * Register-level vocabulary of the STM32H5 flash controller as the driver
 * uses it: the bit masks and field positions of the vendor device header
 * (declared here without values, since that header is not part of this
 * model), and the constants the driver itself defines in src/flash.c.
 *
 * Register values and bit masks are bv32, so C's bitwise operators are
 * Dafny's bv32 operators; uint32 quantities (addresses, sizes, sector
 * numbers) are the u32 values of module Uint32.
 */
module Registers {

  /** A bit position inside a 32-bit register. */
  type BitPos = p: bv32 | p < 32

  /** Bit g of x is set. */
  predicate Bit(x: bv32, g: bv32)
    requires g < 32
  {
    (x >> g) & 1 == 1
  }

  // ---------------------------------------------------------------------------
  // Vendor bit layouts (stm32h563.h). Abstract: each is some fixed value.
  // ---------------------------------------------------------------------------

  // FLASH->NSSR
  const FLASH_SR_BSY: bv32
  const FLASH_SR_WBNE: bv32
  const FLASH_SR_DBNE: bv32
  const FLASH_SR_OPTCHANGEERR: bv32
  const FLASH_SR_INCERR: bv32
  const FLASH_SR_STRBERR: bv32
  const FLASH_SR_PGSERR: bv32
  const FLASH_SR_WRPERR: bv32

  // FLASH->NSCR
  const FLASH_CR_LOCK: bv32
  const FLASH_CR_PG: bv32
  const FLASH_CR_SER: bv32
  const FLASH_CR_SER_Msk: bv32
  const FLASH_CR_START: bv32
  const FLASH_CR_SNB_Pos: BitPos
  const FLASH_CR_BKSEL_Pos: BitPos
  const FLASH_CR_OPTCHANGEERRIE: bv32
  const FLASH_CR_INCERRIE: bv32
  const FLASH_CR_STRBERRIE: bv32
  const FLASH_CR_PGSERRIE: bv32
  const FLASH_CR_WRPERRIE: bv32
  const FLASH_CR_EOPIE: bv32

  // FLASH->OPTCR
  const FLASH_OPTCR_OPTSTART: bv32
  const FLASH_OPTCR_OPTLOCK: bv32

  // FLASH->EDATAxR_CUR / EDATAxR_PRG
  const FLASH_EDATAR_EDATA_EN: bv32
  const FLASH_EDATAR_EDATA_STRT_Msk: bv32
  const FLASH_EDATAR_EDATA_STRT_Pos: BitPos

  // FLASH->HDPxR_CUR and FLASH->HDPEXTR
  const FLASH_HDPR_HDP_STRT_Msk: bv32
  const FLASH_HDPR_HDP_END_Msk: bv32
  const FLASH_HDPR_HDP_END_Pos: BitPos
  const FLASH_HDPEXTR_HDP1_EXT_Msk: bv32
  const FLASH_HDPEXTR_HDP1_EXT_Pos: BitPos
  const FLASH_HDPEXTR_HDP2_EXT_Msk: bv32
  const FLASH_HDPEXTR_HDP2_EXT_Pos: BitPos

  // SBS->HDPLSR
  const SBS_HDPLSR_HDPL_Msk: bv32

  /**
   * The one layout fact the high-cyclic encoding relies on: the enable bit
   * is a separate bit outside the 3-bit EDATA_STRT field, and that field
   * fits in the register.
   */
  predicate EdataLayoutOk()
  {
    && FLASH_EDATAR_EDATA_EN != 0
    && FLASH_EDATAR_EDATA_STRT_Pos <= 29
    && FLASH_EDATAR_EDATA_STRT_Msk == 7 << FLASH_EDATAR_EDATA_STRT_Pos
    && FLASH_EDATAR_EDATA_EN & FLASH_EDATAR_EDATA_STRT_Msk == 0
  }

  // ---------------------------------------------------------------------------
  // Constants defined by the driver (src/flash.c:7-13, 39-42, 278)
  // ---------------------------------------------------------------------------

  const FLASH_KEY1: bv32 := 0x4567_0123
  const FLASH_KEY2: bv32 := 0xCDEF_89AB
  const FLASH_OPT_KEY1: bv32 := 0x0819_2A3B
  const FLASH_OPT_KEY2: bv32 := 0x4C5D_6E7F

  const FLASH_ERROR_FLAGS: bv32 :=
    FLASH_SR_OPTCHANGEERR | FLASH_SR_INCERR | FLASH_SR_STRBERR | FLASH_SR_PGSERR | FLASH_SR_WRPERR
  const FLASH_OP_INCOMPLETE: bv32 := FLASH_SR_BSY | FLASH_SR_DBNE | FLASH_SR_WBNE

  /** The interrupt-enable bits of NSCR that the engines keep when they set up an operation. */
  const NSCR_IE_MASK: bv32 :=
    FLASH_CR_OPTCHANGEERRIE | FLASH_CR_INCERRIE | FLASH_CR_STRBERRIE
    | FLASH_CR_PGSERRIE | FLASH_CR_WRPERRIE | FLASH_CR_EOPIE

  /** Hide-protection levels as read from SBS->HDPLSR. */
  const HDPL0: bv32 := 0xB4
  const HDPL1: bv32 := 0x51
  const HDPL2: bv32 := 0x8A
  const HDPL3: bv32 := 0x6F

  /** A status word that shows an error or an unfinished operation (the test at src/flash.c:223, 268, 339, 424). */
  predicate StatusBlocksStart(sr: bv32)
  {
    sr & (FLASH_ERROR_FLAGS | FLASH_OP_INCOMPLETE) != 0
  }

  /** A status word that shows an error flag (the test at src/flash.c:297, 382, 458). */
  predicate StatusHasError(sr: bv32)
  {
    sr & FLASH_ERROR_FLAGS != 0
  }

  /** WBNE set: the write buffer still holds data (src/flash.c:272). */
  predicate WriteBufferBusy(sr: bv32)
  {
    sr & FLASH_SR_WBNE != 0
  }

  /** DBNE set: the data buffer still holds data (src/flash.c:273). */
  predicate DataBufferBusy(sr: bv32)
  {
    sr & FLASH_SR_DBNE != 0
  }

  /** NSCR with its interrupt-enable bits kept and PG set (src/flash.c:344, 429). */
  function ProgramEnable(nscr: bv32): bv32
  {
    (nscr & NSCR_IE_MASK) | FLASH_CR_PG
  }

  /** NSCR with PG cleared (src/flash.c:376, 452). */
  function ProgramDisable(nscr: bv32): bv32
  {
    nscr & !FLASH_CR_PG
  }

  /** NSCR with START set (src/flash.c:285). */
  function EraseStart(nscr: bv32): bv32
  {
    nscr | FLASH_CR_START
  }

  /** NSCR with SER cleared (src/flash.c:291). */
  function EraseDisable(nscr: bv32): bv32
  {
    nscr & !FLASH_CR_SER_Msk
  }

  /** OPTCR with OPTSTART set (src/flash.c:233). */
  function OptionStart(optcr: bv32): bv32
  {
    optcr | FLASH_OPTCR_OPTSTART
  }

  /** A status word that may start an operation has WBNE and DBNE clear. */
  lemma StartableHasEmptyBuffers(sr: bv32)
    requires !StatusBlocksStart(sr)
    ensures !WriteBufferBusy(sr) && !DataBufferBusy(sr) && !StatusHasError(sr)
  {
    assert sr & FLASH_SR_WBNE == 0;
    assert sr & FLASH_SR_DBNE == 0;
  }
}

/**
 * The high-cyclic area configuration word of EDATAxR_CUR / EDATAxR_PRG:
 * how src/flash.c:109-116 decodes it into a sector count and how
 * src/flash.c:206-214 encodes a requested sector count into it.
 */
module HighCyclicConfig {
  import opened Uint32
  import opened Registers

  /** The 3-bit EDATA_STRT field of a configuration word. */
  function StrtField(edata: bv32): bv32
  {
    (edata & FLASH_EDATAR_EDATA_STRT_Msk) >> FLASH_EDATAR_EDATA_STRT_Pos
  }

  /**
   * Number of high-cyclic sectors a configuration word enables
   * (src/flash.c:107-116): 0 unless EDATA_EN is set, otherwise
   * 1 + EDATA_STRT, at most 8 for the device's layout.
   */
  function SectorCount(edata: bv32): (count: u32)
    ensures edata & FLASH_EDATAR_EDATA_EN == 0 ==> count == 0
    ensures EdataLayoutOk() ==> count <= 8
  {
    if edata & FLASH_EDATAR_EDATA_EN != 0 then
      StrtFieldBound(edata);
      Add(1, FieldValue(StrtField(edata)))
    else 0
  }

  lemma StrtFieldBound(edata: bv32)
    ensures EdataLayoutOk() ==> StrtField(edata) < 8
  {
  }

  /** The number a register field holds. */
  function FieldValue(f: bv32): (k: nat)
    ensures f < 8 ==> k < 8
  {
    if f == 0 then 0 else if f == 1 then 1 else if f == 2 then 2 else if f == 3 then 3
    else if f == 4 then 4 else if f == 5 then 5 else if f == 6 then 6 else if f == 7 then 7
    else f as int
  }

  /** A number 0..7 as the bit pattern of a 3-bit register field. */
  function Field3(k: int): (f: bv32)
    requires 0 <= k < 8
    ensures f < 8 && FieldValue(f) == k
  {
    if k == 0 then 0 else if k == 1 then 1 else if k == 2 then 2 else if k == 3 then 3
    else if k == 4 then 4 else if k == 5 then 5 else if k == 6 then 6 else 7
  }

  /** EDATA_EN with v in the EDATA_STRT field. */
  function Enabled(v: bv32): bv32
  {
    FLASH_EDATAR_EDATA_EN | (v << FLASH_EDATAR_EDATA_STRT_Pos)
  }

  /**
   * The configuration word highCyclic_setArea_internal writes for a
   * requested sector count (src/flash.c:206-214): EDATA_EN with
   * (count - 1) & 7 in EDATA_STRT, or 0 to switch the area off.
   */
  function Configuration(sectorCount: u32): (r: bv32)
    ensures sectorCount == 0 ==> r == 0
  {
    if sectorCount > 0 then Enabled(StrtValue(sectorCount)) else 0
  }

  /** The field value written for a non-zero count: (count - 1) & 7. */
  function StrtValue(sectorCount: u32): (f: bv32)
    requires sectorCount > 0
    ensures f < 8 && FieldValue(f) == (sectorCount - 1) % 8
  {
    Field3((sectorCount - 1) % 8)
  }

  /** Writing a field value below 8 next to EDATA_EN reads back as that value with EN set. */
  lemma FieldRoundTrip(v: bv32)
    requires EdataLayoutOk() && v < 8
    ensures Enabled(v) & FLASH_EDATAR_EDATA_EN != 0
    ensures StrtField(Enabled(v)) == v
  {
    FieldAt(FLASH_EDATAR_EDATA_EN, FLASH_EDATAR_EDATA_STRT_Msk, FLASH_EDATAR_EDATA_STRT_Pos, v);
  }

  /** The same fact for any enable bit e and any 3-bit field at position p outside it. */
  lemma FieldAt(e: bv32, mask: bv32, p: BitPos, v: bv32)
    requires e != 0 && p <= 29 && mask == 7 << p && e & mask == 0 && v < 8
    ensures (e | (v << p)) & e != 0
    ensures ((e | (v << p)) & mask) >> p == v
  {
  }

  /** An enabled word with field value v < 8 decodes as v + 1 sectors. */
  lemma DecodeEnabledField(v: bv32)
    requires EdataLayoutOk() && v < 8
    ensures SectorCount(Enabled(v)) == FieldValue(v) + 1
  {
    FieldRoundTrip(v);
  }

  /** With the device's layout every non-zero count turns EDATA_EN on. */
  lemma ConfigurationEnables(sectorCount: u32)
    requires EdataLayoutOk() && sectorCount > 0
    ensures Configuration(sectorCount) & FLASH_EDATAR_EDATA_EN != 0
  {
    FieldRoundTrip(StrtValue(sectorCount));
  }

  /**
   * Decoding the written word gives back ((count - 1) & 7) + 1 for every
   * non-zero count: counts above 8 alias to a smaller area.
   */
  lemma ConfigurationDecodesModulo8(sectorCount: u32)
    requires EdataLayoutOk() && sectorCount > 0
    ensures SectorCount(Configuration(sectorCount)) == (sectorCount - 1) % 8 + 1
  {
    DecodeEnabledField(StrtValue(sectorCount));
  }

  /** Every count 0..8 survives the encoding: the area the caller asked for is the area the driver reads back. */
  lemma ConfigurationRoundTrip(sectorCount: u32)
    requires EdataLayoutOk() && sectorCount <= 8
    ensures SectorCount(Configuration(sectorCount)) == sectorCount
  {
    if sectorCount > 0 {
      ConfigurationDecodesModulo8(sectorCount);
    }
  }

  /** A count of 9 or more is encoded exactly like ((count - 1) & 7) + 1. */
  lemma ConfigurationAliases(sectorCount: u32)
    requires sectorCount >= 9
    ensures Configuration(sectorCount) == Configuration((sectorCount - 1) % 8 + 1)
    ensures 1 <= (sectorCount - 1) % 8 + 1 <= 8
  {
    var alias := (sectorCount - 1) % 8 + 1;
    assert StrtValue(sectorCount) == StrtValue(alias);
  }
}

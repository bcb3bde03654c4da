/**
 * The two protection predicates of src/flash.c: the write-protection test
 * checkWRP (lines 27-35) and the hide-protection test checkHDP (lines
 * 53-95). Both are pure functions of a sector range, a bank and a snapshot
 * of the protection registers; both answer true when (part of) the range is
 * protected.
 */
module Protection {
  import opened Uint32
  import opened Registers

  /** Snapshot of the registers the two tests read. */
  datatype ProtectionRegs = ProtectionRegs(
    wrp1Cur: bv32,   // FLASH->WRP1R_CUR: bit g clear = sector group g of bank 1 write-protected
    wrp2Cur: bv32,   // FLASH->WRP2R_CUR
    hdp1Cur: bv32,   // FLASH->HDP1R_CUR: HDP_STRT and HDP_END fields of bank 1
    hdp2Cur: bv32,   // FLASH->HDP2R_CUR
    hdpExt: bv32,    // FLASH->HDPEXTR: HDP1_EXT and HDP2_EXT fields
    hdplsr: bv32     // SBS->HDPLSR: current hide-protection level
  )

  predicate KnownBank(bank: u32)
  {
    bank == 1 || bank == 2
  }

  // ---------------------------------------------------------------------------
  // Write protection
  // ---------------------------------------------------------------------------

  /** The inclusive bitmask of sector groups startGroup..endGroup (src/flash.c:31). */
  function GroupMask(startGroup: bv32, endGroup: bv32): (r: bv32)
    requires startGroup < 32 && endGroup < 32
    ensures endGroup < startGroup ==> r == 0
  {
    ((2 << endGroup) - 1) & !((1 << startGroup) - 1)
  }

  /** Bit g of the mask is set exactly for the groups startGroup..endGroup. */
  lemma GroupMaskBit(startGroup: bv32, endGroup: bv32, g: bv32)
    requires startGroup < 32 && endGroup < 32 && g < 32
    ensures Bit(GroupMask(startGroup, endGroup), g) <==> startGroup <= g <= endGroup
  {
  }

  /** The sector group of a sector below 128 (src/flash.c:29-30). */
  function Group(sector: bv32): (g: bv32)
    requires sector < 128
    ensures g < 32
  {
    sector >> 2
  }

  /** A uint32 sector number as the register-width value checkWRP shifts. */
  function SectorBits(sector: u32): (b: bv32)
    ensures sector < 128 ==> b < 128
  {
    sector as bv32
  }

  /** The WRPxR_CUR register of a known bank. */
  function WrpCur(p: ProtectionRegs, bank: u32): bv32
    requires KnownBank(bank)
  {
    if bank == 1 then p.wrp1Cur else p.wrp2Cur
  }

  /** Sector group g is write-protected in a WRP register value: its bit is 0. */
  predicate GroupProtected(wrp: bv32, g: bv32)
  {
    g < 32 && !Bit(wrp, g)
  }

  /**
   * checkWRP (src/flash.c:27-35). The shifts of the bitmask are only defined
   * in C for group numbers below 32, so both sectors must be below 128. The
   * sector numbers are the register-width words the bitmask is built from.
   */
  function CheckWrp(startSector: bv32, endSector: bv32, bank: u32, p: ProtectionRegs): (r: bool)
    requires startSector < 128 && endSector < 128
    ensures r ==> KnownBank(bank)
    ensures Group(endSector) < Group(startSector) ==> !r
  {
    var bitmap := GroupMask(Group(startSector), Group(endSector));
    (bank == 1 && (!p.wrp1Cur) & bitmap != 0) || (bank == 2 && (!p.wrp2Cur) & bitmap != 0)
  }

  lemma BitOfAnd(a: bv32, b: bv32, g: bv32)
    requires g < 32
    ensures Bit(a & b, g) <==> Bit(a, g) && Bit(b, g)
  {
  }

  lemma BitOfNot(a: bv32, g: bv32)
    requires g < 32
    ensures Bit(!a, g) <==> !Bit(a, g)
  {
  }

  lemma SetBitMakesNonzero(y: bv32, g: bv32)
    requires g < 32 && Bit(y, g)
    ensures y != 0
  {
  }

  lemma ShiftStep(y: bv32, k: bv32)
    requires k < 32 && y >> k != 0 && !Bit(y, k)
    ensures k < 31 && y >> (k + 1) != 0
  {
  }

  lemma ShiftByZero(y: bv32)
    ensures y >> 0 == y
  {
  }

  /** The lowest set bit at position k or above of a word whose bits from k upwards are not all 0. */
  function LowBit(y: bv32, k: bv32): (r: bv32)
    requires k < 32 && y >> k != 0
    ensures k <= r < 32 && Bit(y, r)
    decreases 32 - k as int
  {
    if Bit(y, k) then k
    else
      ShiftStep(y, k);
      LowBit(y, k + 1)
  }

  /** The lowest set bit of a non-zero word. */
  function LowestBit(y: bv32): (r: bv32)
    requires y != 0
    ensures r < 32 && Bit(y, r)
  {
    ShiftByZero(y);
    LowBit(y, 0)
  }

  /** A set bit of (!w) & mask is a protected group inside the mask. */
  lemma HitBitIsProtectedGroup(w: bv32, lo: bv32, hi: bv32, g: bv32)
    requires lo < 32 && hi < 32 && g < 32 && Bit((!w) & GroupMask(lo, hi), g)
    ensures lo <= g <= hi && GroupProtected(w, g)
  {
    GroupMaskBit(lo, hi, g);
    HitBitOfMask(w, GroupMask(lo, hi), lo, hi, g);
  }

  /** A set bit g of (!w) & mask, for a mask whose bit g is set exactly when lo <= g <= hi, is a protected group in lo..hi. */
  lemma HitBitOfMask(w: bv32, mask: bv32, lo: bv32, hi: bv32, g: bv32)
    requires g < 32 && Bit((!w) & mask, g) && (Bit(mask, g) <==> lo <= g <= hi)
    ensures lo <= g <= hi && GroupProtected(w, g)
  {
    BitOfAnd(!w, mask, g);
    BitOfNot(w, g);
  }

  /** A non-zero (!w) & mask names a protected group inside the mask. */
  lemma MaskHitIsProtectedGroup(w: bv32, lo: bv32, hi: bv32)
    requires lo < 32 && hi < 32 && (!w) & GroupMask(lo, hi) != 0
    ensures exists g :: lo <= g <= hi && GroupProtected(w, g)
  {
    HitBitIsProtectedGroup(w, lo, hi, LowestBit((!w) & GroupMask(lo, hi)));
  }

  /** A protected group inside the mask leaves a set bit in (!w) & mask. */
  lemma ProtectedGroupIsMaskHit(w: bv32, lo: bv32, hi: bv32, g: bv32)
    requires lo < 32 && hi < 32 && lo <= g <= hi && GroupProtected(w, g)
    ensures (!w) & GroupMask(lo, hi) != 0
  {
    GroupMaskBit(lo, hi, g);
    BitOfNot(w, g);
    BitOfAnd(!w, GroupMask(lo, hi), g);
    SetBitMakesNonzero((!w) & GroupMask(lo, hi), g);
  }

  /** The bitmask test of checkWRP finds a protected group exactly when one lies in the range. */
  lemma MaskMeansProtectedGroup(w: bv32, lo: bv32, hi: bv32)
    requires lo < 32 && hi < 32
    ensures (!w) & GroupMask(lo, hi) != 0 <==> exists g :: lo <= g <= hi && GroupProtected(w, g)
  {
    if (!w) & GroupMask(lo, hi) != 0 {
      MaskHitIsProtectedGroup(w, lo, hi);
    }
    if exists g :: lo <= g <= hi && GroupProtected(w, g) {
      var g :| lo <= g <= hi && GroupProtected(w, g);
      ProtectedGroupIsMaskHit(w, lo, hi, g);
    }
  }

  lemma CheckWrpHitsMask1(startSector: bv32, endSector: bv32, p: ProtectionRegs)
    requires startSector < 128 && endSector < 128 && CheckWrp(startSector, endSector, 1, p)
    ensures (!p.wrp1Cur) & GroupMask(Group(startSector), Group(endSector)) != 0
  {
  }

  lemma CheckWrpHitsMask2(startSector: bv32, endSector: bv32, p: ProtectionRegs)
    requires startSector < 128 && endSector < 128 && CheckWrp(startSector, endSector, 2, p)
    ensures (!p.wrp2Cur) & GroupMask(Group(startSector), Group(endSector)) != 0
  {
  }

  lemma MaskHitChecksWrp1(startSector: bv32, endSector: bv32, p: ProtectionRegs)
    requires startSector < 128 && endSector < 128
    requires (!p.wrp1Cur) & GroupMask(Group(startSector), Group(endSector)) != 0
    ensures CheckWrp(startSector, endSector, 1, p)
  {
  }

  lemma MaskHitChecksWrp2(startSector: bv32, endSector: bv32, p: ProtectionRegs)
    requires startSector < 128 && endSector < 128
    requires (!p.wrp2Cur) & GroupMask(Group(startSector), Group(endSector)) != 0
    ensures CheckWrp(startSector, endSector, 2, p)
  {
  }

  lemma CheckWrpFindsGroup1(startSector: bv32, endSector: bv32, p: ProtectionRegs)
    requires startSector < 128 && endSector < 128 && CheckWrp(startSector, endSector, 1, p)
    ensures exists g :: Group(startSector) <= g <= Group(endSector) && GroupProtected(p.wrp1Cur, g)
  {
    CheckWrpHitsMask1(startSector, endSector, p);
    MaskHitIsProtectedGroup(p.wrp1Cur, Group(startSector), Group(endSector));
  }

  lemma CheckWrpFindsGroup2(startSector: bv32, endSector: bv32, p: ProtectionRegs)
    requires startSector < 128 && endSector < 128 && CheckWrp(startSector, endSector, 2, p)
    ensures exists g :: Group(startSector) <= g <= Group(endSector) && GroupProtected(p.wrp2Cur, g)
  {
    CheckWrpHitsMask2(startSector, endSector, p);
    MaskHitIsProtectedGroup(p.wrp2Cur, Group(startSector), Group(endSector));
  }

  lemma GroupChecksWrp1(startSector: bv32, endSector: bv32, p: ProtectionRegs, g: bv32)
    requires startSector < 128 && endSector < 128
    requires Group(startSector) <= g <= Group(endSector) && GroupProtected(p.wrp1Cur, g)
    ensures CheckWrp(startSector, endSector, 1, p)
  {
    ProtectedGroupIsMaskHit(p.wrp1Cur, Group(startSector), Group(endSector), g);
  }

  lemma GroupChecksWrp2(startSector: bv32, endSector: bv32, p: ProtectionRegs, g: bv32)
    requires startSector < 128 && endSector < 128
    requires Group(startSector) <= g <= Group(endSector) && GroupProtected(p.wrp2Cur, g)
    ensures CheckWrp(startSector, endSector, 2, p)
  {
    ProtectedGroupIsMaskHit(p.wrp2Cur, Group(startSector), Group(endSector), g);
  }

  /**
   * When checkWRP reports protection, the bank is known and some sector
   * group between startSector >> 2 and endSector >> 2 has its WRP bit
   * cleared.
   */
  lemma CheckWrpFindsProtectedGroup(startSector: bv32, endSector: bv32, bank: u32, p: ProtectionRegs)
    requires startSector < 128 && endSector < 128 && CheckWrp(startSector, endSector, bank, p)
    ensures KnownBank(bank)
    ensures exists g :: Group(startSector) <= g <= Group(endSector) && GroupProtected(WrpCur(p, bank), g)
  {
    if bank == 1 {
      CheckWrpFindsGroup1(startSector, endSector, p);
      var g :| Group(startSector) <= g <= Group(endSector) && GroupProtected(p.wrp1Cur, g);
      assert GroupProtected(WrpCur(p, bank), g);
    } else {
      CheckWrpFindsGroup2(startSector, endSector, p);
      var g :| Group(startSector) <= g <= Group(endSector) && GroupProtected(p.wrp2Cur, g);
      assert GroupProtected(WrpCur(p, bank), g);
    }
  }

  /** Conversely, a protected group inside the range of a known bank makes checkWRP report protection. */
  lemma ProtectedGroupChecksWrp(startSector: bv32, endSector: bv32, bank: u32, p: ProtectionRegs, g: bv32)
    requires startSector < 128 && endSector < 128 && KnownBank(bank)
    requires Group(startSector) <= g <= Group(endSector) && GroupProtected(WrpCur(p, bank), g)
    ensures CheckWrp(startSector, endSector, bank, p)
  {
    if bank == 1 {
      GroupChecksWrp1(startSector, endSector, p, g);
    } else {
      GroupChecksWrp2(startSector, endSector, p, g);
    }
  }

  // ---------------------------------------------------------------------------
  // Hide protection
  // ---------------------------------------------------------------------------

  /** The current hide-protection level (src/flash.c:55). */
  function HdplLevel(p: ProtectionRegs): bv32
  {
    p.hdplsr & SBS_HDPLSR_HDPL_Msk
  }

  /** Hide protection is checked only above the two lowest levels (src/flash.c:61). */
  predicate HdpActive(p: ProtectionRegs)
  {
    HdplLevel(p) != HDPL0 && HdplLevel(p) != HDPL1
  }

  /** First sector of the bank's hide-protected window (src/flash.c:65, 72). */
  function HdpStart(p: ProtectionRegs, bank: u32): u32
    requires KnownBank(bank)
  {
    ((if bank == 1 then p.hdp1Cur else p.hdp2Cur) & FLASH_HDPR_HDP_STRT_Msk) as int
  }

  /** Last sector of the bank's hide-protected window (src/flash.c:66, 73). */
  function HdpEnd(p: ProtectionRegs, bank: u32): u32
    requires KnownBank(bank)
  {
    (((if bank == 1 then p.hdp1Cur else p.hdp2Cur) & FLASH_HDPR_HDP_END_Msk) >> FLASH_HDPR_HDP_END_Pos) as int
  }

  /** The bank's HDPx_EXT field of HDPEXTR (src/flash.c:67-68, 74-75). */
  function HdpExtField(p: ProtectionRegs, bank: u32): bv32
  {
    if bank == 1 then (p.hdpExt & FLASH_HDPEXTR_HDP1_EXT_Msk) >> FLASH_HDPEXTR_HDP1_EXT_Pos
    else (p.hdpExt & FLASH_HDPEXTR_HDP2_EXT_Msk) >> FLASH_HDPEXTR_HDP2_EXT_Pos
  }

  /** Extension of the bank's window in sectors (src/flash.c:67-68, 74-75, 86). */
  function HdpExt(p: ProtectionRegs, bank: u32): u32
    requires KnownBank(bank)
  {
    HdpExtField(p, bank) as int
  }

  /**
   * checkHDP (src/flash.c:53-95). At the two lowest levels nothing is
   * hidden; above them an unknown bank counts as protected.
   */
  function CheckHdp(startSector: u32, endSector: u32, bank: u32, p: ProtectionRegs): (r: bool)
    ensures !HdpActive(p) ==> !r
    ensures HdpActive(p) && !KnownBank(bank) ==> r
  {
    if HdpActive(p) then
      if !KnownBank(bank) then true
      else
        var hdpStart := HdpStart(p, bank);
        var hdpEnd := HdpEnd(p, bank);
        if hdpEnd >= hdpStart && endSector >= hdpStart && startSector <= hdpEnd then true
        else if HdplLevel(p) != HDPL2 then
          var hdpExt := HdpExt(p, bank);
          (hdpEnd >= hdpStart && endSector >= hdpStart && startSector <= Add(hdpEnd, hdpExt))
          || (hdpStart > hdpEnd && endSector >= hdpEnd && hdpStart <= Add(hdpEnd, hdpExt))
        else false
    else false
  }

  /** Two sector ranges have a sector in common. */
  ghost predicate SharesSector(s: int, e: int, lo: int, hi: int)
  {
    exists x :: InRange(x, s, e) && InRange(x, lo, hi)
  }

  /**
   * For non-empty ranges the two comparisons checkHDP makes
   * (end >= lo && start <= hi) are exactly "the ranges share a sector",
   * which covers the three overlap shapes named at src/flash.c:82.
   */
  lemma OverlapTestIsIntersection(s: int, e: int, lo: int, hi: int)
    requires s <= e && lo <= hi
    ensures (e >= lo && s <= hi) <==> SharesSector(s, e, lo, hi)
  {
    if e >= lo && s <= hi {
      var x := if s <= lo then lo else s;
      assert InRange(x, s, e) && InRange(x, lo, hi);
    }
  }

  /** At HDPL2 a well-formed window [start, end] is matched by the overlap test alone. */
  lemma HdpWindowAtHdpl2(startSector: u32, endSector: u32, bank: u32, p: ProtectionRegs)
    requires HdplLevel(p) == HDPL2 && KnownBank(bank) && HdpStart(p, bank) <= HdpEnd(p, bank)
    ensures CheckHdp(startSector, endSector, bank, p) ==
              (endSector >= HdpStart(p, bank) && startSector <= HdpEnd(p, bank))
  {
  }

  /**
   * Above HDPL2 a well-formed window is matched either as configured or
   * extended by HDPx_EXT sectors (the uint32 sum end + ext).
   */
  lemma HdpWindowExtended(startSector: u32, endSector: u32, bank: u32, p: ProtectionRegs)
    requires HdpActive(p) && HdplLevel(p) != HDPL2 && KnownBank(bank) && HdpStart(p, bank) <= HdpEnd(p, bank)
    ensures CheckHdp(startSector, endSector, bank, p) ==
              (endSector >= HdpStart(p, bank) &&
               (startSector <= HdpEnd(p, bank) || startSector <= Add(HdpEnd(p, bank), HdpExt(p, bank))))
  {
  }

  /**
   * When end + ext does not wrap, the extended window contains the
   * configured one, so above HDPL2 the test is the overlap with
   * [start, end + ext].
   */
  lemma HdpWindowExtendedNoWrap(startSector: u32, endSector: u32, bank: u32, p: ProtectionRegs)
    requires HdpActive(p) && HdplLevel(p) != HDPL2 && KnownBank(bank) && HdpStart(p, bank) <= HdpEnd(p, bank)
    requires HdpEnd(p, bank) + HdpExt(p, bank) < TWO_32
    ensures CheckHdp(startSector, endSector, bank, p) ==
              (endSector >= HdpStart(p, bank) && startSector <= HdpEnd(p, bank) + HdpExt(p, bank))
  {
    HdpWindowExtended(startSector, endSector, bank, p);
    var hdpEnd := HdpEnd(p, bank);
    var extended := HdpEnd(p, bank) + HdpExt(p, bank);
    assert Add(hdpEnd, HdpExt(p, bank)) == extended;
    WiderBoundSubsumes(startSector, endSector, HdpStart(p, bank), hdpEnd, extended);
  }

  /** Of two upper bounds hi <= hi', "at most hi or at most hi'" is "at most hi'". */
  lemma WiderBoundSubsumes(s: int, e: int, lo: int, hi: int, hi': int)
    requires hi <= hi'
    ensures (e >= lo && (s <= hi || s <= hi')) == (e >= lo && s <= hi')
  {
  }

  /**
   * A window with start > end hides nothing at HDPL2; above HDPL2 it hides
   * exactly when endSector >= end and start <= end + ext, whatever
   * startSector is (src/flash.c:90-91).
   */
  lemma HdpInvertedWindow(startSector: u32, endSector: u32, bank: u32, p: ProtectionRegs)
    requires HdpActive(p) && KnownBank(bank) && HdpStart(p, bank) > HdpEnd(p, bank)
    ensures HdplLevel(p) == HDPL2 ==> !CheckHdp(startSector, endSector, bank, p)
    ensures HdplLevel(p) != HDPL2 ==>
              CheckHdp(startSector, endSector, bank, p) ==
              (endSector >= HdpEnd(p, bank) && HdpStart(p, bank) <= Add(HdpEnd(p, bank), HdpExt(p, bank)))
  {
  }

  /**
   * At HDPL2 a well-formed, non-empty query range is hide-protected exactly
   * when it shares a sector with the configured window.
   */
  lemma HdpAtHdpl2IsIntersection(startSector: u32, endSector: u32, bank: u32, p: ProtectionRegs)
    requires HdplLevel(p) == HDPL2 && KnownBank(bank)
    requires startSector <= endSector && HdpStart(p, bank) <= HdpEnd(p, bank)
    ensures CheckHdp(startSector, endSector, bank, p) <==>
              SharesSector(startSector, endSector, HdpStart(p, bank), HdpEnd(p, bank))
  {
    HdpWindowAtHdpl2(startSector, endSector, bank, p);
    OverlapTestIsIntersection(startSector, endSector, HdpStart(p, bank), HdpEnd(p, bank));
  }

  /**
   * Above HDPL2, with no wrap of end + ext, a non-empty query range is
   * hide-protected exactly when it shares a sector with the extended window.
   */
  lemma HdpAboveHdpl2IsIntersection(startSector: u32, endSector: u32, bank: u32, p: ProtectionRegs)
    requires HdpActive(p) && HdplLevel(p) != HDPL2 && KnownBank(bank)
    requires startSector <= endSector && HdpStart(p, bank) <= HdpEnd(p, bank)
    requires HdpEnd(p, bank) + HdpExt(p, bank) < TWO_32
    ensures CheckHdp(startSector, endSector, bank, p) <==>
              SharesSector(startSector, endSector, HdpStart(p, bank), HdpEnd(p, bank) + HdpExt(p, bank))
  {
    var lo := HdpStart(p, bank);
    var hi := HdpEnd(p, bank) + HdpExt(p, bank);
    var test := CheckHdp(startSector, endSector, bank, p);
    HdpWindowExtendedNoWrap(startSector, endSector, bank, p);
    assert test == (endSector >= lo && startSector <= hi);
    OverlapDecides(test, startSector, endSector, lo, hi);
  }

  /** A test that is the overlap comparison answers "the ranges share a sector". */
  lemma OverlapDecides(test: bool, s: int, e: int, lo: int, hi: int)
    requires s <= e && lo <= hi && test == (e >= lo && s <= hi)
    ensures test <==> SharesSector(s, e, lo, hi)
  {
    OverlapTestIsIntersection(s, e, lo, hi);
  }

  /** checkWRP gives false for an unknown bank, checkHDP gives true for it at an active level. */
  lemma UnknownBankAsymmetry(startSector: u32, endSector: u32, bank: u32, p: ProtectionRegs)
    requires startSector < 128 && endSector < 128 && !KnownBank(bank) && HdpActive(p)
    ensures !CheckWrp(SectorBits(startSector), SectorBits(endSector), bank, p)
    ensures CheckHdp(startSector, endSector, bank, p)
  {
  }
}

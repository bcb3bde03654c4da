# STM32H5 flash driver: a verified model

This project models the flash driver of an STM32H563 firmware. The driver's
source is `src/flash.c` and its memory map is `src/flash.h`. The driver:

- erases one 8 KiB sector of main flash (`flashErase`, exported as `flash_erase`);
- programs main flash in 16-byte quad-words (`flashWrite128`);
- programs the "high-cyclic" flash windows in half-words (`highCyclic_write16`);
- configures how many sectors of each bank act as high-cyclic memory
  (`highCyclic_setArea`). It does this by programming the `EDATAxR` option bytes;
- routes an exported `flash_write16` call to one of the two write engines.

Before touching the controller, every engine checks the request. It checks
alignment and size units, and resolves the bank (`flash_getBank`,
`highCyclic_getBank`). It runs the hide-protection test (`checkHDP`) and the
write-protection test (`checkWRP`), then checks the status register `NSSR`
for errors or an unfinished operation.

Only then does an engine run its register sequence:

1. unlock `NSCR` with the two `NSKEYR` keys;
2. set the operation bits;
3. run the copy loop with interrupts masked;
4. poll `BSY`;
5. set `NSCR = LOCK`;
6. re-check the error flags.

As in the code, an engine's boolean result is `true` for an error
(`RETURN_TRUE_IF_TRUE`, `src/flash.c:15`). The doc comments of
`flashWrite128` and `highCyclic_write16` say the opposite; the model follows
the code.

## Structure

| Module | File | Contents |
|---|---|---|
| `Uint32` | `uint32.dfy` | C's `uint32_t` arithmetic with explicit wrap-around |
| `Registers` | `registers.dfy` | Register words and bit masks |
| `FlashLayout` | `layout.dfy` | The memory map of `src/flash.h` and the sector numbering |
| `HighCyclicConfig` | `edata.dfy` | The `EDATAxR` configuration word: how it is encoded and decoded |
| `Protection` | `protection.dfy` | `checkWRP` and `checkHDP` as pure functions of a register snapshot, with lemmas characterising both |
| `AddressResolver` | `resolver.dfy` | `flash_getBank` and `highCyclic_getBank`, with lemmas |
| `FlashMachine` | `machine.dfy` | The device as a value (see below) |
| `Engines` | `engines.dfy` | Every operation as a function from a starting machine and the status oracle to an outcome and a final machine |
| `Driver` | `driver.dfy` | Class `Flash` (see below) |
| `EraseProperties`, `WriteProperties`, `HighCyclicWriteProperties`, `SetAreaProperties`, `FacadeProperties` | the `*_props.dfy` files | What the source promises, proved about the specification functions |

`Registers` declares the vendor header's masks and bit positions as
abstract constants, and the driver's own keys, flag sets and protection
levels with their values.

The `FlashMachine` device value holds:

- the `NSCR`, `OPTCR` and `EDATAxR` registers and the protection registers;
- both flash memories;
- the interrupt mask;
- a log of every write in program order.

`NSSR` is a status oracle: read number `k` returns `status(k)`.

Class `Flash` in `Driver` holds those fields. Its methods perform the C
statements in order, with the `for` copy loops as `while` loops. Each method
is proved to leave exactly the outcome and state that its function in
`Engines` gives.

An outcome is one of three things:

- `Returned(error)`;
- `Halted`, for the `for(;;)` fail-stop of `flashErase`;
- `Undefined`, for a `checkWRP` shift by 32 or more, which C leaves undefined.

Where the code and its own doc comments disagree, the model follows the code:

- `checkWRP` and `checkHDP` document their result as "true if at least parts of the sector range" is protected (src/flash.c:24, src/flash.c:50). For a bank other than 1 or 2, `checkWRP` gives false and `checkHDP` gives true.
- `highCyclic_getBank` documents 1 or 2 only for a range "completely inside the configured high cyclic memory" (src/flash.c:103). The bounds at src/flash.c:118 and src/flash.c:123 start one byte below each window. As a result, a window of zero sectors still accepts its last byte.
- `flashWrite128` computes its sector numbers at src/flash.c:328-329 by dividing the bank offset by `FLASH_PAGES_PER_BANK` (128), not by the sector size.
- `flash_write16` passes the address of its single `uint16_t` argument as the source buffer (src/flash.c:503, src/flash.c:511). Any size larger than one half-word therefore reads the memory that follows the argument, and the model takes that memory as an explicit parameter, `beyond`.

The `for(;;)` fail-stop of `flashErase` (src/flash.c:272-275) is reachable only if `NSSR` changes between the pre-check at src/flash.c:268 and the buffer reads. The pre-check already refuses both buffer flags.

## Model

| member | source | states |
|---|---|---|
| Uint32.Add | src/flash.c:119 | uint32 addition: the sum when it fits, the sum minus 2^32 when it does not |
| Uint32.Sub | src/flash.c:118 | uint32 subtraction: the difference when b <= a, the difference plus 2^32 below zero |
| Uint32.Mul | src/flash.c:118 | uint32 multiplication: the product modulo 2^32, which is the product itself when it fits |
| Registers.StartableHasEmptyBuffers | src/flash.c:12-13 | a status word that passes the pre-check has WBNE, DBNE and every error flag clear |
| FlashLayout.BankBounds | src/flash.h:6-14 | each bank ends 128 sectors after its start; bank 2 starts the byte after bank 1 ends |
| FlashLayout.HighCyclicWindows | src/flash.h:21-25 | each window is 0xC000 bytes; the bank-2 window starts the byte after the bank-1 window; both lie above main flash |
| FlashLayout.HighCyclicPagesAreLastSectors | src/flash.h:7-19 | HIGH_CYCLIC_PAGE_OFFSET + 8 == FLASH_PAGES_PER_BANK |
| FlashLayout.MainSector | src/flash.c:328-329 | the computed sector is below 128 exactly when the bank offset is below 16 KiB |
| FlashLayout.MainSectorDivisor | src/flash.c:328-329 | the second 8 KiB sector is numbered 64; offset 0x3FFF gives 127 and 0x4000 gives 128 |
| FlashLayout.HighCyclicSector | src/flash.c:413-414 | every address inside a window gets a sector number in 120..127 |
| HighCyclicConfig.SectorCount | src/flash.c:107-116 | 0 when EDATA_EN is clear; at most 8 with the device's field layout |
| HighCyclicConfig.Configuration | src/flash.c:206-214 | a count of 0 encodes as the word 0 |
| HighCyclicConfig.StrtValue | src/flash.c:209 | the field value is (count - 1) & 7 |
| HighCyclicConfig.FieldRoundTrip | src/flash.c:108-110 | a field value below 8 written next to EDATA_EN reads back with EN set and the same field value |
| HighCyclicConfig.DecodeEnabledField | src/flash.c:108-110 | an enabled word with field value v decodes as v + 1 sectors |
| HighCyclicConfig.ConfigurationEnables | src/flash.c:209 | every non-zero count sets EDATA_EN |
| HighCyclicConfig.ConfigurationDecodesModulo8 | src/flash.c:206-214 | decoding the written word gives ((count - 1) & 7) + 1 for every non-zero count |
| HighCyclicConfig.ConfigurationRoundTrip | src/flash.c:206-214 | every count 0..8 decodes back to itself |
| HighCyclicConfig.ConfigurationAliases | src/flash.c:209 | a count of 9 or more is encoded exactly like ((count - 1) & 7) + 1, which lies in 1..8 |
| Protection.GroupMask | src/flash.c:31 | the mask is 0 when the end group is below the start group |
| Protection.GroupMaskBit | src/flash.c:31 | bit g of the mask is set exactly for startGroup <= g <= endGroup |
| Protection.Group | src/flash.c:29-30 | a sector below 128 has a group below 32 |
| Protection.CheckWrp | src/flash.c:27-35 | true only for bank 1 or 2; false when the end group is below the start group |
| Protection.MaskHitIsProtectedGroup | src/flash.c:31-34 | a non-zero (~WRP) & mask names a group inside the mask whose WRP bit is 0 |
| Protection.ProtectedGroupIsMaskHit | src/flash.c:31-34 | a protected group inside the mask makes (~WRP) & mask non-zero |
| Protection.MaskMeansProtectedGroup | src/flash.c:31-34 | (~WRP) & mask != 0 iff some group between the two bounds is write-protected |
| Protection.CheckWrpHitsMask1 | src/flash.c:33 | checkWRP true for bank 1 means (~WRP1R_CUR) & mask != 0 |
| Protection.CheckWrpHitsMask2 | src/flash.c:34 | checkWRP true for bank 2 means (~WRP2R_CUR) & mask != 0 |
| Protection.MaskHitChecksWrp1 | src/flash.c:33 | (~WRP1R_CUR) & mask != 0 makes checkWRP true for bank 1 |
| Protection.MaskHitChecksWrp2 | src/flash.c:34 | (~WRP2R_CUR) & mask != 0 makes checkWRP true for bank 2 |
| Protection.CheckWrpFindsGroup1 | src/flash.c:33 | checkWRP true for bank 1 names a protected group of bank 1 in the range |
| Protection.CheckWrpFindsGroup2 | src/flash.c:34 | the same for bank 2 |
| Protection.GroupChecksWrp1 | src/flash.c:33 | a protected group of bank 1 in the range makes checkWRP true |
| Protection.GroupChecksWrp2 | src/flash.c:34 | the same for bank 2 |
| Protection.CheckWrpFindsProtectedGroup | src/flash.c:27-35 | checkWRP true implies a known bank and a group between startSector >> 2 and endSector >> 2 whose WRP bit is 0 |
| Protection.ProtectedGroupChecksWrp | src/flash.c:27-35 | conversely, such a group of a known bank makes checkWRP true |
| Protection.CheckHdp | src/flash.c:53-95 | false at HDPL0 and HDPL1 for every bank and window; true for an unknown bank at every other level |
| Protection.OverlapTestIsIntersection | src/flash.c:82 | for non-empty ranges, end >= lo && start <= hi iff the two ranges share a sector |
| Protection.HdpWindowAtHdpl2 | src/flash.c:82-84 | at HDPL2 a well-formed window is matched by the overlap test with [start, end] alone |
| Protection.HdpWindowExtended | src/flash.c:84-88 | above HDPL2 a well-formed window is matched against end or against the uint32 sum end + ext |
| Protection.HdpWindowExtendedNoWrap | src/flash.c:86-88 | without wrap, above HDPL2 the test is the overlap with [start, end + ext] |
| Protection.HdpInvertedWindow | src/flash.c:82-91 | start > end: false at HDPL2; above it, exactly endSector >= end && start <= end + ext, whatever startSector is |
| Protection.HdpAtHdpl2IsIntersection | src/flash.c:82-84 | at HDPL2, checkHDP iff the query range shares a sector with [start, end] |
| Protection.HdpAboveHdpl2IsIntersection | src/flash.c:82-91 | above HDPL2, without wrap, checkHDP iff the query range shares a sector with [start, end + ext] |
| Protection.UnknownBankAsymmetry | src/flash.c:33-79 | for an unknown bank at an active level, checkWRP is false while checkHDP is true |
| AddressResolver.LastByte | src/flash.c:119 | address + size - 1 when that fits; address - 1 (with wrap) for size 0 |
| AddressResolver.FlashGetBank | src/flash.c:141-161 | result is at most 2; 1 iff both ends lie in bank 1; 2 iff both ends lie in bank 2 |
| AddressResolver.BankStart | src/flash.c:327 | bank 1 starts at 0x08000000; any other bank at 0x08100000 |
| AddressResolver.FlashGetBankSound | src/flash.c:141-161 | every byte of an accepted non-wrapping range lies in the named bank |
| AddressResolver.FlashGetBankComplete | src/flash.c:141-161 | a non-wrapping range inside one bank is given that bank |
| AddressResolver.FlashGetBankStraddle | src/flash.c:143-155 | a range from bank 1 into bank 2 gets 0 |
| AddressResolver.FlashGetBankWrapAccepted | src/flash.c:145-146 | a range that wraps past 2^32 back into bank 1 is accepted as bank 1 |
| AddressResolver.FlashGetBankEmptyRange | src/flash.c:143-146 | size 0 is accepted inside a bank but refused at the first byte of either bank |
| AddressResolver.WindowBound | src/flash.c:118 | for counts up to 8 the bound is END - 0x1800 * count without wrap |
| AddressResolver.HighCyclicGetBank | src/flash.c:105-132 | result is at most 2; 1 iff address >= the bank-1 bound and the last byte <= HIGH_CYCLIC_END_BANK1; 2 iff the bank-1 test fails and address >= the bank-2 bound and the last byte <= HIGH_CYCLIC_END_BANK2; 0 when both tests fail |
| AddressResolver.HighCyclicGetBankSound | src/flash.c:105-132 | every byte of an accepted non-wrapping range lies between one byte below the configured area and the end of its window |
| AddressResolver.HighCyclicGetBankComplete | src/flash.c:105-132 | a non-wrapping range inside a configured area is given that area's bank |
| AddressResolver.HighCyclicBoundOffByOne | src/flash.c:118 | the byte just below the bank-1 area is accepted as bank 1 |
| AddressResolver.HighCyclicBoundBelowWindow | src/flash.c:118-121 | with 8 sectors configured, the byte below the whole bank-1 window is accepted |
| AddressResolver.HighCyclicDisabledLastByte | src/flash.c:107-124 | with both areas off, the last byte of each window is still accepted and the byte before is not |
| Engines.WordAddressStep | src/flash.c:356-359 | one uint32 address increment advances the word cursor by one word |
| Engines.QuadLoop | src/flash.c:353-363 | after n passes, main flash holds the first 4n data words at consecutive word addresses, with one NSSR poll per pass; registers, high-cyclic flash and PRIMASK are unchanged |
| Engines.HalfAddressStep | src/flash.c:440 | one uint32 address increment advances the half-word cursor by one half-word |
| Engines.HalfLoop | src/flash.c:438-441 | after n passes, high-cyclic flash holds the first n half-words; no NSSR read; registers, main flash and PRIMASK are unchanged |
| Driver.Flash.ReadNssr | src/flash.c:268 | returns the next oracle value and advances the read count |
| Driver.Flash.WaitNotBusy | src/flash.c:282 | one NSSR read |
| Driver.Flash.WriteNscr | src/flash.c:294 | NSCR takes the value; the write is logged |
| Driver.Flash.WriteOptcr | src/flash.c:239 | OPTCR takes the value; the write is logged |
| Driver.Flash.WriteEdataPrg | src/flash.c:230 | the bank's EDATAxR_PRG takes the value; the write is logged |
| Driver.Flash.Store32 | src/flash.c:356 | a 32-bit main-flash cell takes the word; the store is logged |
| Driver.Flash.Store16 | src/flash.c:440 | a high-cyclic cell takes the half-word; the store is logged |
| Driver.Flash.DisableInterrupts | src/flash.c:350 | PRIMASK is set |
| Driver.Flash.SetPrimaskTo | src/flash.c:367 | PRIMASK takes the saved value |
| Driver.Flash.UnlockFlash | src/flash.c:166-170 | writes NSKEYR 0x45670123 then 0xCDEF89AB and changes nothing else |
| Driver.Flash.UnlockFlashOptionBytes | src/flash.c:175-179 | writes OPTKEYR 0x08192A3B then 0x4C5D6E7F and changes nothing else |
| Driver.Flash.HighCyclicSetAreaInternal | src/flash.c:187-241 | the new state is SetAreaInternalRun of the old one |
| Driver.Flash.HighCyclicSetArea | src/flash.c:469-473 | the new state is SetAreaRun of the old one |
| Driver.Flash.FlashErase | src/flash.c:250-300 | outcome and new state are EraseRun of the old state |
| Driver.Flash.EraseAfterChecks | src/flash.c:270-299 | outcome and new state are EraseSequence of the old state |
| Driver.Flash.CopyWord | src/flash.c:356 | stores data word k at the k-th word address and returns the advanced address |
| Driver.Flash.CopyQuad | src/flash.c:356-362 | one loop pass: four word stores, then a poll |
| Driver.Flash.CopyQuads | src/flash.c:353-363 | the loop leaves the state QuadLoop gives for size / 16 passes |
| Driver.Flash.FlashWrite128 | src/flash.c:314-385 | outcome and new state are Write128Run of the old state |
| Driver.Flash.Write128AfterChecks | src/flash.c:341-384 | outcome and new state are Write128Sequence of the old state |
| Driver.Flash.CopyHalf | src/flash.c:440 | stores half-word k at the k-th half-word address and returns the advanced address |
| Driver.Flash.CopyHalves | src/flash.c:438-441 | the loop leaves the state HalfLoop gives for size / 2 passes |
| Driver.Flash.HighCyclicWrite16 | src/flash.c:399-461 | outcome and new state are Write16Run of the old state |
| Driver.Flash.Write16AfterChecks | src/flash.c:426-460 | outcome and new state are Write16Sequence of the old state |
| Driver.Flash.Erase | src/flash.c:484-487 | outcome and new state are FlashEraseRun of the old state |
| Driver.Flash.Write16 | src/flash.c:495-514 | outcome and new state are FlashWrite16Run of the old state |
| EraseProperties.EraseRefused | src/flash.c:253-264 | a bad bank, a page of 128 or more, or a hidden or write-protected page returns the error with the device untouched |
| EraseProperties.EraseBlockedByStatus | src/flash.c:268 | an allowed request whose pre-check read shows an error or busy flag returns the error after that one read |
| EraseProperties.EraseWritesOnlyWhenAllowed | src/flash.c:250-275 | any write implies every check passed; every writing run starts with NSKEYR KEY1, KEY2 |
| EraseProperties.EraseHalts | src/flash.c:268-275 | never Undefined; Halted iff allowed, startable, and a following read shows WBNE or DBNE; a halt leaves the flash unlocked with NSCR unwritten |
| EraseProperties.EraseSteadyStatusNeverHalts | src/flash.c:268-275 | when NSSR does not change across the three reads, the erase never halts |
| EraseProperties.EraseCompletes | src/flash.c:270-299 | exact trace (unlock; NSCR = IE bits, SNB, BKSEL, SER; START; SER cleared; LOCK), NSCR = LOCK, memories and PRIMASK unchanged, six NSSR reads, the sixth deciding the result |
| EraseProperties.EraseSequenceCompletes | src/flash.c:270-299 | the sequence from the unlock on: its result, read count and final registers |
| EraseProperties.EraseSequenceTrace | src/flash.c:270-294 | the sequence from the unlock on: its exact trace |
| EraseProperties.EraseLockWipesEnables | src/flash.c:278-294 | when LOCK is none of the kept interrupt-enable bits, a completed erase leaves all of them clear |
| EraseProperties.EraseRelocks | src/flash.c:294 | every run that writes and returns ends with NSCR = LOCK |
| EraseProperties.FlashEraseRefusesHighPages | src/flash.c:484-487 | flash_erase refuses uint8_t pages 128..255 and changes nothing |
| WriteProperties.WordAddressesDiffer | src/flash.c:356-359 | two word cursors fewer than 2^32 bytes apart differ |
| WriteProperties.StoreQuadWordsReads | src/flash.c:356-359 | after one loop pass, each of its four words reads back |
| WriteProperties.StoreQuadWordsKeeps | src/flash.c:356-359 | one loop pass leaves every other address as it was |
| WriteProperties.WriteQuadsReadback | src/flash.c:353-363 | word j of data reads back from the j-th word address after the loop |
| WriteProperties.WriteQuadsKeepsOthers | src/flash.c:353-363 | an address that is not a stored word keeps its contents |
| WriteProperties.WordStores | src/flash.c:353-363 | entry j of the log is the store of data word j at the j-th word address |
| WriteProperties.StoreQuadTrace | src/flash.c:356-362 | one loop pass logs its four stores in order |
| WriteProperties.QuadLoopTrace | src/flash.c:353-363 | the loop logs exactly the word stores 0 .. size / 4 - 1, in order |
| WriteProperties.Write128SequenceCompletes | src/flash.c:341-384 | from the unlock on: the result comes from the last of size / 16 + 2 reads, NSCR = LOCK, main flash holds the data, the rest is unchanged |
| WriteProperties.Write128SequenceTrace | src/flash.c:341-379 | from the unlock on: unlock, PG with IE bits kept, IRQs off, the word stores, PRIMASK restored, PG cleared, LOCK |
| WriteProperties.Write128Completes | src/flash.c:314-385 | a completed flashWrite128: exact trace, size / 16 + 3 reads with the last deciding the result, NSCR = LOCK, main flash holds the data, high-cyclic flash and PRIMASK unchanged |
| WriteProperties.Write128ReadsBack | src/flash.c:353-363 | after a completed write every data word j < size / 4 reads back and every other address is unchanged |
| WriteProperties.Write128Refused | src/flash.c:317-336 | a request that fails a check leaves the device untouched; the outcome is Undefined exactly when alignment, size, bank and HDP pass and a sector number is 128 or more, and the error otherwise |
| WriteProperties.Write128BlockedByStatus | src/flash.c:339 | an allowed request blocked by the pre-check returns the error after one read |
| WriteProperties.Write128WritesOnlyWhenAllowed | src/flash.c:317-341 | any write implies every check passed; every writing run starts with the two NSKEYR keys |
| WriteProperties.Write128TraceUnlocks | src/flash.c:341 | the write sequence starts with the two NSKEYR keys |
| WriteProperties.Write128StoresStayInBank | src/flash.c:322-323 | without wrap, all four bytes of every stored word lie in the bank flash_getBank named |
| WriteProperties.Write128UndefinedPast16KiB | src/flash.c:328-334 | a 16-byte write at the third 8 KiB sector of bank 1 reaches the undefined checkWRP shift |
| WriteProperties.Write128AcceptsWrappingRange | src/flash.c:322-329 | a size of 2^32 - 16 that wraps back into bank 1 passes every check |
| HighCyclicWriteProperties.HalfAddressesDiffer | src/flash.c:440 | two half-word cursors fewer than 2^32 bytes apart differ |
| HighCyclicWriteProperties.WriteHalvesReadback | src/flash.c:438-441 | half-word j reads back from the j-th half-word address after the loop |
| HighCyclicWriteProperties.WriteHalvesKeepsOthers | src/flash.c:438-441 | an address that is not a stored half-word keeps its contents |
| HighCyclicWriteProperties.HalfStores | src/flash.c:438-441 | entry j of the log is the store of half-word j at the j-th half-word address |
| HighCyclicWriteProperties.HalfLoopTrace | src/flash.c:438-441 | the loop logs exactly the half-word stores, in order |
| HighCyclicWriteProperties.Write16SequenceCompletes | src/flash.c:426-460 | from the unlock on: the result comes from the second of two reads, NSCR = LOCK, high-cyclic flash holds the data, the rest is unchanged |
| HighCyclicWriteProperties.Write16SequenceTrace | src/flash.c:426-455 | from the unlock on: unlock, PG, IRQs off, the half-word stores, PRIMASK restored, PG cleared, LOCK |
| HighCyclicWriteProperties.Write16Completes | src/flash.c:399-461 | a completed highCyclic_write16: exact trace, three reads with the last deciding the result, NSCR = LOCK, high-cyclic flash holds the data, main flash and PRIMASK unchanged |
| HighCyclicWriteProperties.Write16ReadsBack | src/flash.c:438-441 | after a completed write every half-word j < size / 2 reads back and every other address is unchanged |
| HighCyclicWriteProperties.Write16Refused | src/flash.c:402-421 | a request that fails a check leaves the device untouched; the outcome is Undefined exactly when alignment, size, bank and HDP pass and a sector number is 128 or more, and the error otherwise |
| HighCyclicWriteProperties.Write16BlockedByStatus | src/flash.c:424 | an allowed request blocked by the pre-check returns the error after one read |
| HighCyclicWriteProperties.Write16WritesOnlyWhenAllowed | src/flash.c:402-426 | any write implies every check passed; every writing run starts with the two NSKEYR keys |
| HighCyclicWriteProperties.Write16TraceUnlocks | src/flash.c:426 | the write sequence starts with the two NSKEYR keys |
| HighCyclicWriteProperties.Write16StoresStayInArea | src/flash.c:402-408 | without wrap, every stored half-word lies inside the configured area: the off-by-one bound admits only an odd address, which the alignment check refuses |
| HighCyclicWriteProperties.WindowStartEven | src/flash.h:21-25 | every configured area starts on an even address |
| HighCyclicWriteProperties.Write16UndefinedOnWrap | src/flash.c:407-419 | a request from the last half-word of the bank-1 area that wraps to address 1 is accepted and reaches the undefined shift |
| SetAreaProperties.SetAreaSkips | src/flash.c:191-220 | a bank other than 1 or 2, or a configuration already current, changes and reads nothing |
| SetAreaProperties.SetAreaBlockedByStatus | src/flash.c:223 | a blocking status does one read and no write |
| SetAreaProperties.SetAreaPrograms | src/flash.c:223-239 | otherwise: OPTKEYR keys, EDATAxR_PRG = encoding, OPTSTART, OPTLOCK; two reads; only this bank's PRG word and OPTCR change |
| SetAreaProperties.SetAreaProgramsTrace | src/flash.c:226-239 | the exact write log of that sequence |
| SetAreaProperties.SetAreaWritesOnlyWhenNeeded | src/flash.c:187-241 | any write implies a new configuration and a startable status, and the log is the option-byte sequence |
| SetAreaProperties.SetAreaProgramsRequestedCount | src/flash.c:206-230 | the programmed word decodes to the requested count for 0..8 and to ((count - 1) & 7) + 1 above |
| SetAreaProperties.SetAreaBanksIndependent | src/flash.c:469-473 | bank 2 is handled by the same rules from whatever state bank 1 left, and bank 1 never touches bank 2's words |
| SetAreaProperties.SetAreaProgramsBoth | src/flash.c:469-473 | when both banks need it and both reads allow it, bank 1 then bank 2 are programmed in four reads |
| FacadeProperties.Write16RouteCharacterised | src/flash.c:495-514 | high-cyclic iff the first byte is accepted and the size is even; main flash iff not accepted and size % 16 == 0; dropped otherwise |
| FacadeProperties.MainFlashNeverHighCyclic | src/flash.c:497-512 | every address below the high-cyclic windows reaches flashWrite128 (size % 16 == 0) or is dropped |
| FacadeProperties.HighCyclicAreaReachesWrite16 | src/flash.c:497-504 | an address inside a configured area reaches highCyclic_write16 (even size) or is dropped |
| FacadeProperties.FlashWrite16WritesOnlyWhenAllowed | src/flash.c:495-514 | any write implies the selected engine's checks passed; a dropped request writes nothing |
| FacadeProperties.FlashWrite16MainFlashLittleEndian | src/flash.c:509-511 | a completed main-flash write stores half-words 2j and 2j + 1 as the low and high halves of word j |
| FacadeProperties.FlashWrite16HighCyclicStoresHalves | src/flash.c:501-503 | a completed high-cyclic write stores the argument at the address and what follows it at the later half-word addresses |
| FacadeProperties.HalvesFromPast | src/flash.c:503 | half-word 0 of the source is the argument; half-word j >= 1 is what follows it |

## Left out

- Busy-wait loops: each `while (FLASH->NSSR & FLASH_SR_BSY)` is one NSSR read after which BSY is taken as clear. Hardware progress is not modelled.
- Hardware effects: the model does not cover the controller's own protection enforcement, quad-word buffering or ECC. It does not model whether `EDATAxR_CUR` takes the `_PRG` value after `OPTSTART`, or that the erase or program physically changes the cells. Main flash holds what the driver stored; erasure leaves the memory map as it was.
- Register bit layouts of the vendor header (`stm32h563.h`): abstract constants. Where a lemma needs a layout fact, it is a stated precondition: `EdataLayoutOk`, or `FLASH_CR_LOCK & NSCR_IE_MASK == 0`.
- Register read-back: `NSCR` and `OPTCR` read back as the last value the driver wrote. On the device, the key sequences of `unlockFlash` and `unlockFlashOptionBytes` (src/flash.c:166-179) clear `LOCK` and `OPTLOCK`; in the model, `FlashMachine.UnlockFlash` and `FlashMachine.UnlockFlashOptionBytes` only log the key writes. So the read-modify-writes at src/flash.c:233, 279, 285, 291, 344, 376, 429 and 452 log values that keep whatever `LOCK`/`OPTLOCK` bit was last written. The device would not see those bits. For example, after an earlier `OPTCR := OPTLOCK`, the next `highCyclic_setArea` logs `OPTCR := OPTLOCK | OPTSTART`. The exact-value trace lemmas (`SetAreaProgramsTrace`, `EraseSequenceTrace`, `Write128SequenceTrace`, `Write16SequenceTrace` and the `Completes` lemmas built on them) describe these logged values.
- MMIO and `volatile` semantics: every write happens once, in program order, and is logged. Each `NSSR` read consumes the next oracle value. Every other register (`EDATAxR_CUR`, `WRPxR_CUR`, `HDPxR_CUR`, `HDPEXTR`, `SBS->HDPLSR`, and `NSCR`/`OPTCR` in the read-modify-writes) reads as one fixed value for the whole call, for example both reads of `EDATA1R_CUR` at src/flash.c:108 and src/flash.c:110. Reads are not logged.
- Memory map of stores: `FlashMachine.StoreWordAt` and `FlashMachine.StoreHalfAt` choose the memory by the width of the store, not by its address. Word stores go to the map `mainFlash` and half-word stores to the separate map `hcFlash`; neither store can reach RAM, the high-cyclic windows through a word store, or the FLASH register block. For a non-wrapping range this matches the device, since `Write128StoresStayInBank` and `Write16StoresStayInArea` keep the stores inside the checked memory. For the wrapping range that `Write128AcceptsWrappingRange` shows `flashWrite128` accepting, the loop of src/flash.c:353-363 sweeps the whole address space, including the windows 0x0900_0000-0x0901_7FFF, RAM and the register block. There the final state that `Write128Completes` and `Write128SequenceCompletes` give (`hcFlash` and `regs` apart from `NSCR` unchanged) is not the device's.
- Interrupt masking: a ghost flag that is saved, set and restored. There is no concurrency semantics.
- Memory past `flash_write16`'s argument: C reads it for sizes above 2, which is undefined behaviour. The model takes it as a caller-supplied function `beyond`, so nothing bounds its length.
- Protection.CheckWrp: stated only for sectors below 128, because larger sector numbers shift by 32 or more. The engines return `Undefined` before calling it with such a sector.
- Protection.HdpAboveHdpl2IsIntersection: stated only when `end + ext` does not wrap. `Protection.HdpWindowExtended` covers the wrapping case.
- The `return true;` inside the void `highCyclic_setArea_internal` (`src/flash.c:223`) is modelled as a plain return.
- `WRITE_CRITICAL_SECTION`, `CHECK_HDP` and `CHECK_WRP` are modelled as defined, as the source defines them. The configurations without them are not modelled.
- `src/main.c`, the demo caller, is not part of this model.

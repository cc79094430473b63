# dol-tools, modelled and proved in Dafny

`dol-run` runs GameCube and Wii programs natively on a PowerPC host and emulates only what user
mode cannot do: privileged instructions, the BAT address translation, and a few devices.
`dol-patch` edits one word of a DOL header. This project models four parts of the two programs
and proves what they promise. `dafny verify dfyconfig.toml` checks everything.

**The page map that stands in for the BATs.** The guest's BAT registers say which addresses are
which bytes of MEM1 and MEM2. The program keeps four tables of host `mmap` windows instead.
`MemMap` gives the rule by which a reload and a mode switch change tables and pages, `Bat` the
architecture's translation, and `MapAgreement`, `ModeSwitch`, `ExecRights`, `ExecExactly`,
`StaleProbe`, `WrittenAgreement` and `DefaultBats` the theorems: after a switch every granted byte the
BATs name is mapped where they name it, and nothing else is, for the code as meant and, under exact
conditions, for the code as it stands; a visit to real mode forgets what was mapped before if no
window was overwritten; windows stay live, pages stay accounted for, windows in the tables keep their
execute rights, and exactly when other windows lose theirs. `Lookups` gives the searches of a reload
in closed form, which is what those conditions are about. `BatMeaning` states both searches in the
architecture's own terms, bit by bit, and `Refusals` says exactly which refusals of the host are fatal.

**The trap machine.** `Spr` is the register file, `Registers` its laws by number and bit, `Decoder`
the instruction decoder and its inverse, `Machine` one SIGILL as a step and a run as a sequence of
them, `StepLaws` what each instruction word does and which words stop the machine, `MachineTheorems`
what holds in every reachable state, `StartUp` the pages the guest starts with. `RunAgreement` proves
that over runs that write BATs in real mode only the page map is a function of the BATs,
`WrittenRuns` what of that is left for the search as written, and `OrderlyRuns` that what the BATs
name stays in place when they are written while translating, too, and when it stays executable;
`WrittenPages` has a closed form of the pages a reload leaves, which says the same of the search as
written.
`EmulatorState` is the program's own form: one object, updated in place by methods that follow the
C functions, each proved against the step functions.

**The DSP.** `Dsp` is the reset, halt and DMA machine and its laws over every interleaving of
ticks and register writes; `DspLaws` what a guest that programs a transfer gets, and every register
by its offset; `DspDevice` the object whose fields those writes update.

**The DOL header.** `Dol` reads field names, `DolPatch` reads values, patches the file and reads
the header back on a host of either byte order, `HeaderLaws` says the same in bytes and texts,
`ConsoleScan` decides which console an image is for and ties that decision to the trap decoder.

## How the model reads the code

Words are numbers below 2^32 with their own wrapping sums and bitwise operators (`Words`). The
host's page table is a map from address to region byte; `mmap` at a fixed address overlays it and
`munmap` removes from it. Which requests the host grants is an arbitrary function of address and
size, and every theorem holds for every such function. The register file is a structure inside the
program's one global state and is held by value in the object's field `cpu`; the four tables are
arrays. The blocks of `E_MemReloadMap` that differ only in the console are one method per kind of
BAT. `lost` is history: the windows whose table entry was overwritten while they were mapped.
`batWindows` is history as well: whether the windows were last set up for the BATs or for real mode.

BATs are *well-formed* if active ones do not wrap and cover their region, and any two that name
regions reach over disjoint addresses or share address and region. A BAT *vouches* for a window if
it is active and has the window's address and region. BATs are *orderly* if every address is 256 MB
aligned and kept for one region throughout a run. A byte is *granted* if the host grants the window
of the BAT that translates its address.

Two places of `mem.c` use a value before they set it, so the model takes the reading as a
parameter. With `Intended` the address is set before the tables are searched, as the data-BAT blocks
do, and every table entry starts out unused. With `AsWritten(junk)` the instruction-BAT blocks
search for the address the last iteration left behind, `junk` at first, and the start-up loops,
whose condition `i > 8` never holds, leave the tables zeroed. The junk is what the stack holds; each
trap brings its own. Theorems that hold for both readings say so by quantifying over it;
`StaleProbe.AsWrittenExactly` says exactly when the two readings build the same map from unused
tables, `DefaultBats.StaleLookupSkipsBat` gives BATs for which they do not, and
`StartUp.StartAsWritten` says exactly when they agree on the first reload, whose tables are zeroed as
written.

Where the code does something other than it seems to mean, the model keeps the code and a lemma
says what follows:

- a block that ends at 4 GiB never matches, unlike the architecture's (`Bat.RangeTestIsMaskedCompare`);
- physical to virtual counts the offset from the end of the block, and `Bat.AsWrittenReflects` says
  exactly when going there and back still comes out right; the address of the DSP's boot image lies
  outside every window (`DefaultBats.BootImageAddress`);
- the reload maps BATs whose valid bits are clear (`ModeSwitch.InactiveBatsAreMapped`), which
  `MapAgreement.ReloadServesExactly` shows to be harmless exactly when an active BAT has the same
  address and region;
- as written, start-up can leave cached MEM1 not executable (`StartUp.StartAsWritten`);
- as written, the map serves what the BATs name exactly when their windows are asked for
  (`WrittenAgreement.ReloadServesWritten`), and a second reload can add a window
  (`WrittenAgreement.SecondReloadAdds`), exactly when its searches leave one to add
  (`WrittenAgreement.SecondReload`);
- rewriting a BAT while translating leaves its old window mapped (`ModeSwitch.RewriteLeaks`,
  `ModeSwitch.RealModeLeftovers`), and can cost a window its execute right
  (`ExecExactly.RightLost`), exactly when a data window is laid where no table lists the
  instruction window any more (`ExecExactly.ReloadRuns`);
- the low-power bits of HID0 are counted from 32 where all other bits are counted from 31, so they are
  bits 24 to 22 (`Registers.MsrValidExactly`);
- `mtmsr` never updates the map (`MachineTheorems.StepAgrees`);
- the extended opcode loses its tenth bit, so `mfsr` is taken for `mfmsr` (`Decoder.MasksAgree`);
- writes to PMC3 and PMC4 land on the first two counters (`EmulatorState.CounterIndex`);
- the scan for the console visits data section 0 as an eighth text section (`ConsoleScan.DataSectionCounts`);
- the high half of the ARAM address reads as the main-memory address's (`Dsp.ReadHalves`);
- a size written low half first latches the old direction (`Dsp.LowThenHigh`);
- the DSP's write function runs into `__builtin_unreachable` after a successful write; the model
  takes that as the return it stands for.

## Model

| member | source | states |
|---|---|---|
| Bat.InvalidLengthNeverMatches | src/dol-run/mem.c:279-296 | A block length code outside the twelve legal ones never matches any address. |
| Bat.RangeTestIsMaskedCompare | src/dol-run/mem.c:610-618 | For a legal length, the range test equals the architecture's masked compare at every address if and only if the block is both aligned and clear of 4 GiB, or neither. |
| Bat.SubtractionIsMaskOr | src/dol-run/mem.c:618-621 | For an aligned block, the physical address computed by subtraction equals the architecture's mask-and-or form on the whole block if and only if the physical base is aligned too. |
| Bat.FirstHit | src/dol-run/mem.c:604-630 | The search stops at the least active BAT below the console's count whose block holds the address, or finds none. |
| Bat.FirstBack | src/dol-run/mem.c:649-677 | The reverse search stops at the least active BAT whose physical block holds the address, or finds none. |
| BatMeaning.FieldBits | src/dol-run/cpu.h:161-190 | The fields of both BAT words bit by bit: block address, block length, physical block number; active if either valid bit is set; writable if the two protection bits are 10. |
| BatMeaning.LegalCodes | src/dol-run/mem.c:279-296 | The twelve legal length codes, and a block is as long as its code and one, in units of 128 KB. |
| BatMeaning.TranslatesExactly | src/dol-run/mem.c:592-635 | For aligned blocks that do not wrap, an address translates if and only if some BAT below the count has a valid bit set and a legal length and passes the masked compare; otherwise the answer is 0, not mapped, not writable. |
| BatMeaning.FirstTakerDecides | src/dol-run/mem.c:592-635 | The least such BAT decides: its protection bits say whether the address is writable, and its physical block number with the low bits of the address, by mask and or, is where it leads. |
| BatMeaning.FindsExactly | src/dol-run/mem.c:637-682 | The reverse search likewise: an address is found if and only if some BAT has a valid bit set, a legal length and the bits of p above the block as its physical block number. |
| BatMeaning.FirstHolderDecides | src/dol-run/mem.c:649-677 | The least such BAT decides; the address found lies as far before the end of its virtual block as p lies behind the start of the physical one. |
| Bat.IntendedRoundTrip | src/dol-run/mem.c:637-682 | With the offset counted from the start of the block, physical to virtual to physical is the identity on every covered address for sound, disjoint BATs. |
| Bat.AsWrittenReflects | src/dol-run/mem.c:666-673 | As written the round trip reflects the offset. It comes back to the address it started from if and only if that is the midpoint of the block, or the start of the block and another active BAT maps it right behind the block in virtual memory. |
| Bat.AsWrittenIsInvolution | src/dol-run/mem.c:637-682 | For BATs whose virtual blocks are disjoint, as written and away from the start of the block, the round trip done twice comes back if and only if the first BAT that backs the reflected address reflects about the same midpoint, or, where that address is the start of that BAT's block, another BAT maps the first address right behind it. |
| Bat.InvolutionOnEqualBlocks | src/dol-run/mem.c:637-682 | It does whenever active BATs that back a common physical address back the same block. |
| Bat.NoInvolution | src/dol-run/mem.c:637-682 | Two BATs with disjoint virtual blocks and an address for which it does not. |
| MemTheorems.StepCases | src/dol-run/mem.c:84-96 | A BAT either leaves tables and pages alone or installs its own window; a data window is never installed at an address the region's instruction table holds. |
| MemTheorems.PassesInv | src/dol-run/mem.c:53-256 | A pass from unused tables, with either reading: entries name their own BAT's address and region, windows serve their region, pages are accounted for; with the intended reading every BAT passed is taken care of. |
| MapAgreement.ReloadServes | src/dol-run/mem.c:42-258 | With the intended reading: after a reload from unused tables that does not fail, every granted byte the well-formed BATs translate to is mapped where they say, executable if the instruction BATs say so, whatever was mapped before. For the search as written: `WrittenAgreement.ReloadServesWritten`. |
| MapAgreement.WindowNames | src/dol-run/mem.c:592-635 | A byte of the window of one BAT is named by the BATs of a kind if and only if an active BAT of that kind has the same address and region. |
| MapAgreement.ReloadServesOnly | src/dol-run/mem.c:42-258 | From an empty host and with either reading: if an active BAT vouches for each granted window, every mapped page is a byte the BATs name; if an active instruction BAT vouches for each instruction window, every executable one is a byte the instruction BATs name. |
| MapAgreement.ReloadServesExactly | src/dol-run/mem.c:59-63 | With the intended reading, after a reload from nothing that does not fail, both conclusions hold if and only if their conditions do, valid bits set or clear. For the search as written: `WrittenAgreement.LoadedOnlyNamed`. |
| MapAgreement.ReloadWindowsAgree | src/dol-run/mem.c:42-258 | With either reading, each address of an installed window reaches the region's byte in order, which the BATs of its kind name if its BAT is active, and in general if and only if an active BAT vouches for it. |
| MapAgreement.ReloadComplete | src/dol-run/mem.c:59-145 | With the intended reading, every BAT in use ends up in its region's tables, or the host refused it at or above 0xC0000000 (and it was not a GameCube instruction BAT). For the search as written: `StaleProbe.LookupShows`. |
| MapAgreement.ReloadIdempotent | src/dol-run/mem.c:84-133 | With the intended reading, a second reload with the same BATs changes no entry and no page and does not fail. For the search as written: `WrittenAgreement.SecondReload`. |
| ModeSwitch.UnmapLeavesLost | src/dol-run/mem.c:496-509 | Unmapping all windows leaves only pages of overwritten windows, none if there are none. |
| ModeSwitch.ToRealExact | src/dol-run/mem.c:492-566 | Entering real mode with nothing overwritten leaves exactly MEM1 at 0 and, on Wii, MEM2 at 0x10000000, in pages and tables. |
| ModeSwitch.RealModeForgets | src/dol-run/mem.c:469-590 | If no window was ever overwritten, the map after a visit to real mode is the one a reload of the BATs at that time builds from nothing, whatever the map and the BATs were before. |
| ModeSwitch.RoundTripRestores | src/dol-run/mem.c:492-587 | To real mode and back with the same BATs: the map is what a reload from nothing builds with what the stack holds then; tables and every page are restored with the intended reading, or if the stack holds the same. |
| ModeSwitch.SwitchServes | src/dol-run/mem.c:568-587 | With the intended reading, after every switch to translated mode that does not fail, every granted byte the BATs name is mapped where they name it. For the search as written: `WrittenAgreement.SwitchServesWritten`. |
| ModeSwitch.SwitchServesOnly | src/dol-run/mem.c:568-587 | After such a switch, with either reading and if nothing was ever overwritten, nothing else is mapped and nothing else is executable if active BATs vouch for the windows; if the switch does not fail, with the intended reading, only if they do. |
| ModeSwitch.RealModeLeftovers | src/dol-run/mem.c:496-566 | Entering real mode leaves exactly the physical pages and the live pages that no table window covered; those belong to overwritten windows. |
| ModeSwitch.RewriteLeaks | src/dol-run/mem.c:93-96 | Installing a BAT's new address over its old one keeps the old window's pages live and outside the table. |
| ModeSwitch.PassesHeld | src/dol-run/mem.c:53-256 | With the intended reading, a reload that does not fail, from any tables with live windows, leaves every granted window live, even when it overwrites the entry another BAT was found in. For the search as written: `WrittenPages.ReloadNames`. |
| ModeSwitch.InactiveBatsAreMapped | src/dol-run/mem.c:59-63 | Whatever the other BATs and the tables hold, the granted window of a BAT in use is mapped even at addresses that no active BAT translates. |
| ModeSwitch.ToRealInv | src/dol-run/mem.c:492-566 | Entering real mode establishes the map invariant from page accounting alone. |
| ModeSwitch.FixupsAccounted | src/dol-run/mem.c:469-590 | Every update, with either reading and whatever the tables held, keeps all pages accounted for; one that ends in real mode sets up the whole map invariant. |
| ModeSwitch.FixupsInv | src/dol-run/mem.c:469-590 | Every update, fatal or not, keeps all window pages live, all pages accounted for and, with the intended reading, all entries of a table distinct; the overwritten windows only grow. |
| ExecRights.FixupsServing | src/dol-run/mem.c:469-590 | If, when translation is on, the BATs keep one region per 256 MB aligned address, every update keeps every window in the tables serving its region in order and every instruction window in the tables executable. |
| Lookups.PassesFollow | src/dol-run/mem.c:84-133 | As long as a reload has not failed, its tables and its address variable are those of the closed form of its searches, for either reading and any tables. |
| ExecExactly.PassesRun | src/dol-run/mem.c:126-144 | After part of a reload of orderly BATs the pages of an instruction BAT's granted window are live, and executable if and only if no data window was laid over them after the last instruction BAT for the address. |
| ExecExactly.ReloadRuns | src/dol-run/mem.c:126-144 | After a reload of orderly BATs that does not fail every granted byte the instruction BATs name is executable if and only if none of their addresses gets a data window, no table listing it by then, after the last instruction BAT for it. |
| ExecExactly.FreshKeepsRights | src/dol-run/mem.c:568-587 | That never happens in the reload at a switch to translated mode. |
| ExecExactly.RightLost | src/dol-run/mem.c:126-144 | Three reloads of orderly BATs on a GameCube, none of which fails, after which a granted byte that an instruction BAT names is mapped and not executable. |
| StaleProbe.ReloadFails | src/dol-run/mem.c:75-115 | With either reading and from any tables, a reload fails if and only if some BAT in use points outside the regions, or is not found and asks for a window whose refusal is fatal. |
| StaleProbe.FailsExactly | src/dol-run/mem.c:75-115 | With the intended reading and from unused tables that is if and only if some BAT in use points outside the regions or asks for a window whose refusal is fatal. |
| Refusals.ReloadRefused | src/dol-run/mem.c:59-250 | With the intended reading a reload from unused tables fails if and only if one of the console's BATs in use does not name MEM1 or (on Wii) MEM2, or asks for 24 MB or 64 MB that the host refuses below 0xC0000000 or for a GameCube instruction BAT. |
| Refusals.ToRealFails | src/dol-run/mem.c:511-560 | Entering real mode, from any map, fails if and only if the host refuses 24 MB at 0 or, on Wii, 64 MB at 0x10000000. |
| Refusals.FixupsFails | src/dol-run/mem.c:469-590 | Exactly when an update is fatal: unequal translation bits, a refused physical window on the way out of translation, or in translation a BAT that is not in order. |
| Refusals.BootFails | src/dol-run/mem.c:460-463 | A BS1 image starts if and only if the host grants the physical windows; any other if and only if it grants MEM1 at 0x80000000 and, on Wii, MEM2 at 0x90000000. Holds for both readings. |
| Refusals.RfiFails | src/dol-run/cpu/rfi.c:7-20 | Exactly when an rfi is fatal, by bits 5 and 4 of SRR1 and the MSR, the host's answers and the BATs. |
| Refusals.RfiOutFails | src/dol-run/mem.c:492-566 | An rfi out of translation is fatal if and only if the host refuses a physical window. |
| Refusals.RfiInFails | src/dol-run/mem.c:568-587 | An rfi into translation, with the intended reading, if and only if one of the console's BATs would be refused. |
| Refusals.RealPages | src/dol-run/mem.c:515-560 | The pages of real mode by address: 24 MB from 0 and, on Wii, 64 MB from 0x10000000, in order and executable, and nothing else. |
| StaleProbe.LookupShows | src/dol-run/mem.c:84-96 | A look-up shows for good: the entry of a granted instruction BAT holds its address if its look-up missed and is unused if it hit. |
| StaleProbe.ReadingsAgree | src/dol-run/mem.c:84-90 | When no BAT can make the reload fail, two readings build the same map from unused tables if and only if every look-up of a granted instruction BAT comes out the same. |
| StaleProbe.AsWrittenExactly | src/dol-run/mem.c:84-90 | From unused tables, the reload as written builds the intended map if and only if each instruction BAT's search for the stale address answers as the search for its own address would, or the host refuses the window. |
| StaleProbe.LuckySwitch | src/dol-run/mem.c:568-587 | A switch to translated mode as written is the intended switch if and only if those searches answer alike. |
| StaleProbe.RoundTripExactly | src/dol-run/mem.c:492-587 | When no BAT can make the reload fail, going to real mode and back restores the map if and only if the look-ups of the two reloads come out the same, each with what the stack held. |
| WrittenAgreement.LoadedAgrees | src/dol-run/mem.c:42-258 | For windows that reloads of well-formed BATs left, with whatever readings: every granted byte they name is mapped where they name it if every active instruction BAT's granted window is listed, and only if, when no executable page lies outside the windows. |
| WrittenAgreement.LoadedOnlyNamed | src/dol-run/mem.c:42-258 | For such windows, with no stray pages, nothing else is mapped if and only if an active BAT vouches for every window. |
| WrittenAgreement.ReloadServesWritten | src/dol-run/mem.c:84-96 | With either reading, a reload of well-formed BATs from unused tables and an empty host that does not fail serves every granted byte they name if and only if each active instruction BAT with a granted window has one with its address and region whose look-up misses. |
| WrittenAgreement.IntendedPlaces | src/dol-run/mem.c:84-96 | With the intended reading that is always so. |
| WrittenAgreement.SwitchServesWritten | src/dol-run/mem.c:568-587 | The same at a switch to translated mode, exactly if no window was overwritten before. |
| WrittenAgreement.ReloadAgain | src/dol-run/mem.c:42-258 | With either reading, a reload after reloads of the same well-formed BATs changes nothing and does not fail if and only if no look-up of an instruction BAT leaves it anything to add. |
| WrittenAgreement.SecondReload | src/dol-run/mem.c:42-258 | Of two reloads from unused tables, each with its own first address, the second changes nothing if and only if each instruction BAT got its window from the first, or is found in the second, or is refused as expected. |
| WrittenAgreement.SecondReloadAdds | src/dol-run/mem.c:84-96 | BATs and stack contents for which, as written, the second reload adds a window that the first left out. |
| DefaultBats.DefaultWellFormed | src/dol-run/mem.c:383-396 | The default BATs of both consoles meet the condition of the agreement theorems. |
| DefaultBats.DefaultTranslates | src/dol-run/mem.c:375-455 | Where the default BATs send every address: cached and uncached MEM1 and, on Wii, MEM2, writable; the uncached aliases for data only; nothing else translates. |
| DefaultBats.BootImageAddress | src/dol-run/mmio/dsp.c:50-58 | With the default BATs the DSP boot image at 16 MB in MEM1 is looked for at 0x8F000000, which no window covers; the intended address 0x81000000 lies in the cached window. |
| DefaultBats.StaleLookupSkipsBat | src/dol-run/mem.c:84-88 | A second instruction BAT beside the GameCube defaults is mapped by the intended reload and not by the one as written. |
| Spr.BatNumbering | src/dol-run/cpu/mtspr.c:155-222 | Halving and parity recover kind, half and index of all thirty-two BAT registers from their SPR numbers. |
| Spr.ReadAfterWrite | src/dol-run/cpu/mtspr.c:8-231 | After a non-fatal write, reading the same SPR yields the canonical form of the value. |
| Spr.WriteFrame | src/dol-run/cpu/mtspr.c:8-231 | Every other SPR readable before and after keeps its value, up to the MMCR/UMMCR alias. |
| Spr.CanonicalBits | src/dol-run/cpu/mtspr.c:52-103 | Bit by bit, what HID2, HID4 and L2CR make of a written value. |
| Spr.WriteInv | src/dol-run/cpu/mtspr.c:8-231 | Every write, fatal or not, keeps reserved bits, monitor registers and the GameCube's upper BATs at their fixed values. |
| Spr.RfiBits | src/dol-run/cpu/rfi.c:7-11 | Each MSR bit after rfi comes from SRR1 where the mask says so and is kept elsewhere, except POW, which is cleared. |
| Spr.RfiValid | src/dol-run/cpu/rfi.c:9-16 | rfi is fatal exactly when SRR1 has one translation bit without the other. |
| Registers.ReadableExactly | src/dol-run/cpu/mfspr.c:8-122 | The SPR numbers that can be read, listed: HID4 on Wii only, the upper BATs on Wii while bit 25 of HID4 is set. |
| Registers.ReadsAs | src/dol-run/cpu/mfspr.c:10-49 | Which register each number reads as; the user monitor controls read as the supervisor's. |
| Registers.BatsReadAs | src/dol-run/cpu/mfspr.c:50-113 | Which half of which BAT each of the thirty-two numbers reads as. |
| Registers.FatalExactly | src/dol-run/cpu/mtspr.c:8-231 | Exactly the fatal writes: a number that cannot be written, low power in HID0 while bit 18 of the MSR is set, anything but zero to a monitor register. |
| Registers.WriteLeaves | src/dol-run/cpu/mtspr.c:8-231 | No write changes MSR, HID1 or a segment register, nor HID4 on GameCube; only BAT numbers change BATs; a fatal one changes nothing but HID0. |
| Registers.BatWrite | src/dol-run/cpu/mtspr.c:155-222 | A write to a BAT that is let through sets that word of that BAT and nothing else. |
| Registers.CounterWrite | src/dol-run/cpu/mtspr.c:140-154 | A counter can only be written with zero, and the numbers of PMC3 and PMC4 clear the first two again. |
| Registers.TouchesMap | src/dol-run/cpu/mtspr.c:155-222 | The writes that ask for a map update are those to numbers 528-543 and 560-575. |
| Registers.Hid2Bits | src/dol-run/cpu/mtspr.c:52-69 | HID2 after a write, bit by bit: bits 0-15 clear; bits 24-27 kept if the value sets any of them and clear if not; the rest as written. |
| Registers.Hid4Bits | src/dol-run/cpu/mtspr.c:70-88 | HID4 after a write, bit by bit: bit 31 set, bits 0-19 and 26 clear, the rest as written. |
| Registers.L2crBits | src/dol-run/cpu/mtspr.c:96-103 | L2CR after a write, bit by bit: bits 1-17, 20 and 23-29 clear, the rest as written. |
| Registers.RfiBitByBit | src/dol-run/cpu/rfi.c:8-11 | Each MSR bit after rfi: bits 0, 1, 4-6, 8-15, 22-26 and 31 from SRR1, bit 18 clear, the rest kept. |
| Registers.MsrValidExactly | src/dol-run/cpu/common.c:8-30 | The MSRs the validator accepts: bits 5 and 4 alike, and not bit 18 with any of bits 22-24 of HID0. |
| Registers.BatsReachable | src/dol-run/cpu/common.c:32-48 | After a write of HID4 with bit 25 set, a write to BAT n is let through if and only if the console has it. |
| Decoder.DecodeInverts | src/dol-run/emu.c:357-442 | Decoding inverts encoding for every instruction and operand with the whole opcode, and with the handler's mask for every one but mfsr, which comes out as mfmsr. |
| Decoder.MasksAgree | src/dol-run/emu.c:358-432 | The nine-bit and ten-bit masks disagree on a word exactly when the tenth bit is set under primary opcode 31 and the other nine spell a known opcode; with nine bits no word is taken for mfsr, with ten exactly the words of opcode 595 are, and with nine each of those is taken for mfmsr into the same register. |
| Decoder.ScanMask | src/dol-run/main.c:128 | The scan's mask keeps every bit but the register field. |
| Decoder.ScanIsHid4Write | src/dol-run/main.c:128 | The scan pattern matches a word if and only if the handler decodes it as mtspr HID4 and bits 0 and 10 are clear. |
| StepLaws.SprWords | src/dol-run/emu.c:358-383 | The words for mfspr and mtspr in numbers, which the encoder emits and the handler takes for what they are. |
| StepLaws.OtherWords | src/dol-run/emu.c:385-442 | The same for the other six instructions; the word for mfsr is taken for mfmsr. |
| StepLaws.KnownWords | src/dol-run/emu.c:357-442 | Exactly which words the handler knows, by primary opcode and nine bits of extended opcode, with their operands. |
| StepLaws.ResumesAt | src/dol-run/emu.c:357-442 | After every word that does not stop it the guest resumes at pc + 4 modulo 2^32, after rfi at SRR0 with its low two bits cleared. |
| StepLaws.StopsExactly | src/dol-run/emu.c:322-468 | In a state that keeps the invariants, exactly which words stop the machine, by number, bit and host answer, map update included. |
| StepLaws.MfsprDoes | src/dol-run/emu.c:357-369 | One word of mfspr changes one general register and the program counter; where there is nothing to read, to all ones and fatally. |
| StepLaws.MtsprDoes | src/dol-run/emu.c:372-383 | One word of mtspr, BATs apart, changes the register file and the program counter only. |
| StepLaws.MtsprBatDoes | src/dol-run/emu.c:372-445 | To a BAT it also reloads the map, if and only if the guest is translating. |
| StepLaws.MfmsrDoes | src/dol-run/emu.c:385-392 | mfmsr, and mfsr likewise, puts the MSR in one general register. |
| StepLaws.MtmsrDoes | src/dol-run/emu.c:394-401 | mtmsr replaces the whole MSR, leaves the map, and is fatal exactly for unequal translation bits or low power with bit 18. |
| StepLaws.MtsrDoes | src/dol-run/emu.c:410-418 | mtsr writes one segment register and nothing else. |
| StepLaws.DcbiDoes | src/dol-run/emu.c:431-435 | dcbi changes nothing but the program counter. |
| StepLaws.RfiDoes | src/dol-run/emu.c:403-445 | rfi changes the MSR, bit by bit, and brings the map to the mode it then asks for. |
| StepLaws.BothSaved | src/dol-run/cpu/mtspr.c:23-30 | The words for mtspr to SRR0 and SRR1, one after the other, never stop the machine and leave both values there. |
| StepLaws.ReturnsToSaved | src/dol-run/cpu/rfi.c:7-20 | rfi resumes at the one value and takes its share of the MSR from the other. |
| StepLaws.StartsWith | src/dol-run/cpu/init.c:43-59 | The registers a guest starts with. |
| MachineTheorems.BootInv | src/dol-run/cpu/init.c:43-59 | The state in which the guest starts satisfies the register invariants. |
| MachineTheorems.RunKeepsInv | src/dol-run/emu.c:348-354 | From any state that satisfies the register invariants all runs keep them, and a fatal error is never taken back nor followed by any change. |
| MachineTheorems.RunInv | src/dol-run/emu.c:322-468 | In every reachable state reserved bits, monitor registers and upper GameCube BATs have their fixed values and no update is pending; if it is not fatal, IR equals DR and POW is not set with a low-power mode. |
| MachineTheorems.RunMap | src/dol-run/mem.c:469-590 | In every reachable state, with either reading, all live pages are accounted for; all window pages are live and, with the intended reading, no table lists an address twice, which with the start-up loops as written holds from the first time in real mode. |
| MachineTheorems.StepAgrees | src/dol-run/cpu/mtmsr_mfmsr.c:10-14 | A non-fatal step keeps windows and MSR in agreement if and only if it is not an mtmsr that switches translation. |
| MachineTheorems.BootAgrees | src/dol-run/main.c:156-163 | The machine starts with the windows its MSR asks for. |
| MachineTheorems.RunAgrees | src/dol-run/emu.c:444-445 | Over every run without such an mtmsr, every state that is not fatal has the windows its MSR asks for. |
| MachineTheorems.RunReal | src/dol-run/mem.c:511-565 | Whenever a run is in real mode, MEM1 is at 0 and, on Wii, MEM2 at 0x10000000, byte for byte and executable, and the tables say so. |
| MachineTheorems.RealRunKeepsMap | src/dol-run/emu.c:372-445 | While the guest stays in real mode nothing it does, BAT writes included, changes a table or a page. |
| MachineTheorems.RealModeVisit | src/dol-run/cpu/rfi.c:7-20 | rfi out of translation, any run in real mode, rfi back: if no window was overwritten, the map is the one a reload of the BATs as they are then builds from nothing. |
| MachineTheorems.RfiAgreement | src/dol-run/cpu/rfi.c:7-20 | With the intended reading, rfi into translation that does not fail leaves every granted byte the BATs name mapped where they name it. For the search as written: `WrittenRuns.RfiServesWritten`. |
| MachineTheorems.RunServing | src/dol-run/mem.c:126-133 | Over every run whose BATs keep one region per 256 MB aligned address whenever the guest translates, half-written BATs in real mode included, every window still in the tables serves its region and every instruction window still in the tables is executable; with the start-up loops as written, from the first time in real mode. |
| RunAgreement.RunMapIsBuilt | src/dol-run/mem.c:469-590 | With the intended reading, over every run that switches translation by rfi only and writes BATs in real mode only, tables and pages of a translating state are those a reload of its BATs builds from nothing. |
| RunAgreement.RunAgreesWithBats | src/dol-run/mem.c:42-258 | In such a state with well-formed BATs every granted byte they name is mapped where they name it; nothing else is mapped, or executable, if and only if active BATs, or active instruction BATs, vouch for the windows. For the search as written: `WrittenRuns.RunServesWritten`. |
| RunAgreement.OrdinaryStart | src/dol-run/mem.c:383-396 | With the intended reading, an ordinary image starts with exactly the bytes mapped, and executable, that the default BATs name. For the search as written: `StartUp.StartAsWritten`. |
| WrittenRuns.RfiServesWritten | src/dol-run/cpu/rfi.c:7-20 | With either reading, rfi from real mode into translation that does not fail leaves every granted byte well-formed BATs name mapped where they name it if their instruction windows are asked for; and only if, when no window was overwritten before. |
| WrittenRuns.RunServesWritten | src/dol-run/mem.c:42-258 | With either reading and any stack contents, over every run from real mode on that switches translation by rfi only and writes BATs in real mode only: a translating state serves every granted byte its well-formed BATs name if the instruction tables list their windows; if no window was overwritten before, only then, and nothing else is mapped if and only if active BATs vouch for the windows. |
| OrderlyRuns.RunNamesData | src/dol-run/mem.c:93-96 | With the intended reading, over every run that switches translation by rfi only, BAT writes while translating included, every granted byte the BATs of a translating state name is mapped where they name it, as long as the BATs keep one region per 256 MB aligned address while the guest translates. For the search as written: `WrittenPages.RunNamesWritten`. |
| OrderlyRuns.RunNames | src/dol-run/mem.c:126-144 | Over the same runs, it is mapped there and executable where the instruction BATs name it if and only if the last update made while translating took no execute right, or a switch to translation came after it. For the search as written: `WrittenPages.RunNamesWritten`. |
| WrittenPages.PassesPage | src/dol-run/mem.c:42-258 | With either reading and from any tables, every page after a reload of orderly BATs: the byte under the last window laid over it, executable if that was an instruction window, or what it was before. |
| WrittenPages.ReloadNames | src/dol-run/mem.c:42-258 | With either reading, from any tables and whatever windows were left behind, a reload of orderly BATs that does not fail leaves every granted byte they name mapped where they name it, and executable where the instruction BATs do, if and only if its page gets such a window last, or gets none and was fit before. |
| WrittenPages.ReloadNamesData | src/dol-run/mem.c:42-258 | With either reading, from tables whose windows are live, the granted bytes the data BATs name are always served. |
| WrittenPages.RunNamesWritten | src/dol-run/mem.c:469-590 | With either reading and any stack contents, over every run that switches translation by rfi only, BAT writes while translating included: a translating state serves every granted byte its BATs name, execute rights included, if and only if the last update did, as long as the BATs were orderly while the guest translated. |
| WrittenPages.RunNamesDataWritten | src/dol-run/mem.c:469-590 | Over the same runs the granted bytes the data BATs of a translating state name are always served; with the start-up loops as written, from the first time in real mode. |
| StartUp.FirstReload | src/dol-run/mem.c:351-466 | The pages start-up maps, for either reading and any host, and when it fails. |
| StartUp.StartAsWritten | src/dol-run/mem.c:360-363 | Start-up of an ordinary image as written fails exactly when the intended one does; otherwise its pages are the intended ones if and only if the stale address is not zero, and cached MEM1 is executable if and only if they are. |
| StartUp.StartNotLive | src/dol-run/mem.c:360-363 | As written an ordinary image starts with table entries that name windows which are not there. |
| StartUp.RunLive | src/dol-run/mem.c:360-363 | In every reachable state, with either reading, all windows the tables name are live if and only if those named by entries that are 0 are. |
| MachineTheorems.WriteThenRead | src/dol-run/emu.c:358-383 | The words for mtspr and mfspr of one SPR, trapped one after the other, bring back the canonical form of the value through any registers. |
| EmulatorState.DataIndex | src/dol-run/cpu/mtspr.c:163-187 | The index computed from a data-BAT SPR number is the BAT that number names. |
| EmulatorState.InstrIndex | src/dol-run/cpu/mtspr.c:197-221 | The index computed from an instruction-BAT SPR number is the BAT that number names. |
| EmulatorState.CounterIndex | src/dol-run/cpu/mtspr.c:140-152 | The counter a PMC number is taken for; PMC3 and PMC4 come out as the first two. |
| EmulatorState.Emulator.FindInstr | src/dol-run/mem.c:84-88 | Finds an address in a region's instruction table if and only if it is there. |
| EmulatorState.Emulator.FindEither | src/dol-run/mem.c:125-133 | Finds an address in a region's data or instruction table if and only if it is in one of them. |
| EmulatorState.Emulator.Place | src/dol-run/mem.c:93-96 | Maps a region at an address, notes the answer in the table and records what was overwritten. |
| EmulatorState.Emulator.ReloadInstr | src/dol-run/mem.c:152-194 | The instruction-BAT block does what the specification's step says to tables, pages, the address variable and the fatal flag. |
| EmulatorState.Emulator.ReloadData | src/dol-run/mem.c:196-245 | The same for the data-BAT block. |
| EmulatorState.Emulator.ReloadMap | src/dol-run/mem.c:42-258 | The loop over all BATs with its early exits yields the specified reload. |
| EmulatorState.Emulator.UnmapWindows | src/dol-run/mem.c:496-509 | Every window of the console's entries is unmapped and every such entry marked unused; nothing else changes. |
| EmulatorState.Emulator.MapPhysical | src/dol-run/mem.c:517-527 | A region is mapped at its physical base and noted in entry 0 of both of its tables. |
| EmulatorState.Emulator.EnterReal | src/dol-run/mem.c:492-566 | Leaving translation: all windows go, the physical ones come, or the refusal is reported. |
| EmulatorState.Emulator.FixupsWith | src/dol-run/mem.c:481-589 | The update for given translation bits, fatal outcomes included. |
| EmulatorState.Emulator.MapFixups | src/dol-run/mem.c:469-590 | The update for the MSR before and now. |
| EmulatorState.Emulator.VirtToPhys | src/dol-run/mem.c:592-635 | The search loop returns the translation through the first matching BAT. |
| EmulatorState.Emulator.PhysToVirtAddr | src/dol-run/mem.c:637-682 | The reverse search loop returns the address through the first matching BAT, as written. |
| EmulatorState.Emulator.ValidateMsr | src/dol-run/cpu/common.c:8-30 | Sets the fatal flag exactly when the MSR is not acceptable. |
| EmulatorState.Emulator.ValidateHighBatAccess | src/dol-run/cpu/common.c:32-48 | Denies, fatally, exactly when the console or HID4 does not allow the upper BATs. |
| EmulatorState.Emulator.MtsprBat | src/dol-run/cpu/mtspr.c:155-222 | BAT writes land in the register the number names, or are denied; an update is asked for either way. |
| EmulatorState.Emulator.FilterHid2 | src/dol-run/cpu/mtspr.c:52-69 | The filtered value is the canonical form. |
| EmulatorState.Emulator.FilterHid4 | src/dol-run/cpu/mtspr.c:78-87 | The filtered value is the canonical form. |
| EmulatorState.Emulator.FilterL2cr | src/dol-run/cpu/mtspr.c:96-103 | The filtered value is the canonical form. |
| EmulatorState.Emulator.Mtspr | src/dol-run/cpu/mtspr.c:8-231 | The whole switch is the specified write: register file, fatal flag and update request. |
| EmulatorState.Emulator.MfsprBat | src/dol-run/cpu/mfspr.c:50-113 | The enumerated BAT reads agree with the numbering rule. |
| EmulatorState.Emulator.Mfspr | src/dol-run/cpu/mfspr.c:8-122 | The whole switch is the specified read, all ones and fatal where there is nothing to read. |
| EmulatorState.Emulator.Mtmsr | src/dol-run/cpu/mtmsr_mfmsr.c:10-14 | The MSR is replaced and validated, and no map update is asked for. |
| EmulatorState.Emulator.EmulateRfi | src/dol-run/cpu/rfi.c:7-20 | MSR, return address, update request and fatal flag after rfi. |
| EmulatorState.Emulator.Dispatch | src/dol-run/emu.c:357-442 | The chain of tests executes the decoded instruction. |
| EmulatorState.Emulator.HandleTrap | src/dol-run/emu.c:322-468 | One trap, whatever the stack holds, is one step of the machine. |
| EmulatorState.Emulator.constructor | src/dol-run/main.c:23 | The global state starts zeroed. |
| EmulatorState.Emulator.InitTables | src/dol-run/mem.c:360-363 | The start-up loops, as intended and as written. |
| EmulatorState.Emulator.MemInit | src/dol-run/mem.c:351-466 | Tables, default BATs and the first update. |
| EmulatorState.Emulator.CpuInit | src/dol-run/cpu/init.c:43-59 | Registers after initialisation. |
| EmulatorState.Emulator.Start | src/dol-run/main.c:145-250 | The start-up sequence for ordinary and BS1 images reaches the machine's initial state. |
| Dsp.DmaConservation | src/dol-run/mmio/dsp.c:42-98 | Under any interleaving without a size write: remaining plus 32 per block is constant, pointers advance by it modulo 2^32, the direction bit survives, and the blocks moved are the effective ticks up to the transfer's length (none if it is not a multiple of 32). |
| Dsp.TransferEnds | src/dol-run/mmio/dsp.c:76-97 | An aligned transfer is over exactly from its size/32-th effective tick on, and then its pointers stay. |
| Dsp.WriteLeaves | src/dol-run/mmio/dsp.c:181-303 | Only size writes touch the transfer and only CSR writes touch reset and halt. |
| Dsp.RunReset | src/dol-run/mmio/dsp.c:42-69 | In all runs the reset timer is 0, 1 or 2, and CSR RESET implies that it is not 0. |
| Dsp.ResetCountsDown | src/dol-run/mmio/dsp.c:46-73 | Without CSR writes each tick takes one off the reset timer, halted or not, so two ticks clear RESET. |
| Dsp.RunHalt | src/dol-run/mmio/dsp.c:230-248 | From the first CSR write on the device is halted exactly when CSR HALT is set; at power-up it is not. |
| Dsp.HighThenLow | src/dol-run/mmio/dsp.c:253-283 | High then low half-word writes leave the same state, latch included, as one full-word write, in any mirror of the register page. |
| Dsp.LowThenHigh | src/dol-run/mmio/dsp.c:253-283 | The other order does so if and only if the register is an address or the direction bit does not change. |
| Dsp.ReadHalves | src/dol-run/mmio/dsp.c:119-160 | Two half-word reads recombine to the full-word read, for the ARAM address if and only if its high half equals the main-memory address's. |
| Dsp.WriteThenRead | src/dol-run/mmio/dsp.c:119-283 | A half-word written is read back, the ARAM high half and the outgoing mailbox apart. |
| DspLaws.SizeWriteLatches | src/dol-run/mmio/dsp.c:16-30 | A size write whose word is below 2^31 latches main memory as source and ARAM as destination, from 2^31 on the reverse; it changes nothing else. |
| DspLaws.ProgramTransfer | src/dol-run/mmio/dsp.c:181-200 | The three words of a transfer written in order, in any mirror of the register page, latch the addresses written as the direction bit says. |
| DspLaws.TransferCovers | src/dol-run/mmio/dsp.c:76-97 | From a size write of whole blocks until the next, over any interleaving: the pointers are the latched addresses plus the bytes moved, which are 32 per effective tick up to the size; so both ranges are walked once, in order, to their end. |
| DspLaws.HalfWriteStores | src/dol-run/mmio/dsp.c:205-283 | Which offsets a half-word write stores in mailboxes, CSR and ARAM size, and which are fatal. |
| DspLaws.HalfWriteStoresAddresses | src/dol-run/mmio/dsp.c:253-283 | Which half of which word of the transfer a half-word write sets. |
| DspLaws.OtherWrites | src/dol-run/mmio/dsp.c:183-204 | Full-word writes reach the three words of a transfer; every other one and every byte write is fatal. |
| DspLaws.CsrWrite | src/dol-run/mmio/dsp.c:230-248 | A CSR write sets the reset timer to 2 with bit 0; bit 2 halts and empties the outgoing mailbox; its absence resumes and, if it was halted, fills it. |
| DspLaws.MailboxWrite | src/dol-run/mmio/dsp.c:219-225 | Of the outgoing mailbox the guest writes the full bit only. |
| DspLaws.ReadsWhereWritten | src/dol-run/mmio/dsp.c:119-179 | Registers can be read exactly where they can be written; elsewhere 0 is read. |
| DspLaws.ReadsAs | src/dol-run/mmio/dsp.c:119-160 | What each offset reads as; the high half of the ARAM address reads as the main-memory address's. |
| DspLaws.TickFails | src/dol-run/mmio/dsp.c:46-82 | Exactly when a tick is fatal: an unmapped boot image in the first tick of a reset with bit 11 clear, otherwise a size that is no multiple of 32 while not halted. |
| DspLaws.TickMoves | src/dol-run/mmio/dsp.c:70-97 | A tick moves 32 bytes if it gets that far and there is anything to move, and nothing otherwise. |
| DspLaws.TickResets | src/dol-run/mmio/dsp.c:46-68 | A tick takes one off the timer, and the last one clears bit 0 of the CSR. |
| DspLaws.ResetTakesTwoTicks | src/dol-run/mmio/dsp.c:46-68 | A reset ends with the second tick after the CSR write, boot image mapped or not, and leaves the other CSR bits. |
| DspLaws.PowerUp | src/dol-run/mmio/dsp.c:100-109 | At power-up only the CSR is not zero, with HALT and boot mode showing while the device runs, and a tick changes nothing. |
| DspDevice.Device.constructor | src/dol-run/mmio/dsp.c:100-109 | The device at power-up. |
| DspDevice.Device.DmaStart | src/dol-run/mmio/dsp.c:16-30 | Latches direction and addresses. |
| DspDevice.Device.TimerHook | src/dol-run/mmio/dsp.c:42-98 | One tick in place is the specified tick, with the emulator's own address lookup. |
| DspDevice.Device.WriteCsr | src/dol-run/mmio/dsp.c:230-248 | A CSR write in place is the specified one. |
| DspDevice.Device.Write | src/dol-run/mmio/dsp.c:181-303 | A register write of any width in place is the specified one, fatal where there is no register. |
| DspDevice.Device.Read | src/dol-run/mmio/dsp.c:119-179 | A register read yields the specified value and is fatal exactly where there is no register. |
| Dol.FieldAt | src/common/types.h:10-34 | Every one of the 57 header words is the place of a field. |
| Dol.FieldAtInverts | src/common/types.h:10-34 | And of only one. |
| Dol.NameUnique | src/dol-patch/main.c:56-81 | A string names at most one field. |
| HeaderLaws.Layout | src/common/types.h:10-34 | The byte offset of every field. |
| HeaderLaws.Spelled | src/dol-patch/main.c:20-23 | The names of the fields, spelled out. |
| Dol.DigitsAreNumeral | src/dol-patch/main.c:39-42 | Every run of digits is the numeral of its value behind some zeros. |
| Dol.ReadLong | src/dol-patch/main.c:39-42 | Decimal reading: the longest run of digits, its value, and whether it is out of range. |
| Dol.ParseIndexedField | src/dol-patch/main.c:27-54 | The three outcomes and the offset, for names of unbounded length. |
| Dol.FieldOffset | src/dol-patch/main.c:56-81 | The accepted strings are exactly the names of the 57 fields, any zeros leading an index, and the offset is the field's. |
| DolPatch.PrintThenRead | src/dol-patch/main.c:102-107 | Reading hexadecimal digits inverts printing them, in any width that holds the number and any mix of cases. |
| DolPatch.ParseValue | src/dol-patch/main.c:83-109 | Accepts exactly one to eight hexadecimal digits with or without 0x and yields their number. |
| DolPatch.PrintedValueAccepted | src/dol-patch/main.c:83-109 | Every 32-bit value printed with one to eight digits, with or without 0x, is accepted and read back. |
| HeaderLaws.PrintedDigits | src/dol-patch/main.c:96-98 | The sixteen digits in either case. |
| HeaderLaws.AcceptedIsPrinted | src/dol-patch/main.c:83-109 | A text is accepted for a value if and only if it is that value printed with one to eight digits in any mix of cases, with or without 0x. |
| HeaderLaws.HeaderFits | src/common/types.h:10-34 | A header counts 256 bytes and every field lies in the first 228. |
| DolPatch.PatchThenRead | src/dol-patch/main.c:151-152 | Patching a word sets exactly that word of the header and no byte outside it. |
| DolPatch.PatchSetsField | src/dol-patch/main.c:151-152 | Patching a field sets that field and leaves the other fifty-six. |
| HeaderLaws.BytesOfPatch | src/dol-patch/main.c:151-152 | Every byte of the file after a patch: the four of the field, most significant first, and the others as before. |
| HeaderLaws.BytesOfHeader | src/common/swap.h:10-28 | The four bytes of the file each word of the header that is read back stands for. |
| DolPatch.LoadThenSwap | src/common/swap.h:10-28 | Loading a word and swapping it gives the big-endian word on a host of either byte order. |
| DolPatch.ByteswapHeader | src/common/swap.h:10-28 | Every word of the header is brought into host order exactly once. |
| DolPatch.ReadHeader | src/common/swap.h:10-28 | Loading and swapping yields the header's words. |
| DolPatch.StoreWord | src/dol-patch/main.c:151-152 | Four bytes are replaced in place, most significant first. |
| DolPatch.PatchFile | src/dol-patch/main.c:118-165 | A run succeeds exactly for an acceptable name, value and file, and then sets exactly the named field; otherwise the file is untouched. |
| ConsoleScan.ScannedField | src/dol-run/main.c:125-127 | The sections the scan visits: seven text sections, and through the packed layout data section 0. |
| ConsoleScan.DetectConsole | src/dol-run/main.c:124-134 | The result is Wii if and only if some word of a visited section matches. |
| ConsoleScan.GameCubeTextIsSafe | src/dol-run/main.c:124-134 | In an image classed as GameCube no word of a text section is a well-formed HID4 write. |
| ConsoleScan.Hid4EncodingMatches | src/dol-run/main.c:128 | The word an assembler emits for a HID4 write is one the scan finds. |
| ConsoleScan.ScanWords | src/dol-run/main.c:128 | The words looked for are exactly the thirty-two that write HID4 from some register. |
| ConsoleScan.SectionMatchesExactly | src/dol-run/main.c:126-128 | A section matches if and only if such a word starts at or after its offset, on its grid of four bytes, and ends by its end. |
| ConsoleScan.WiiExactly | src/dol-run/main.c:124-134 | The verdict is Wii if and only if one of the eight sections given by words i and 36 + i of the header, i from 0 to 7, holds such a word. |
| ConsoleScan.ScannedWordStops | src/dol-run/cpu/mtspr.c:70-76 | A word of a text section that the scan looks for stops a GameCube when it traps, and its image is not classed as a GameCube's. |
| ConsoleScan.DataSectionCounts | src/dol-run/main.c:125-127 | The scan's verdict is the one over the text sections alone if and only if one of them matches or data section 0 does not. |

## Left out

- RunMap: with the start-up loops as written, zeroed table entries name windows that do not exist (`StartUp.StartNotLive`), so before the machine is first in real mode only the accounting of pages is claimed; `StartUp.RunLive` says exactly when all windows are live.
- RunServing: likewise and for the same reason, with the start-up loops as written, claimed from the first time in real mode.
- RunMapIsBuilt: for the intended reading; as written the map also depends on what the stack held at each reload, and `WrittenRuns.RunServesWritten` says what it serves.
- SwitchServesOnly: only while no window was ever overwritten; `ModeSwitch.RealModeLeftovers` says what is left otherwise.
- AsWrittenExactly: speaks of reloads from unused tables; the one first reload that finds zeroed tables has the default BATs, and `StartUp.StartAsWritten` decides it.
- Start: setting up the chipset, copying the image and installing the handlers are not modelled.
- HandleTrap: the registers and the program counter that the handler loads after a fatal error, to leave through the host's exit path, are not modelled; a fatal error is one absorbing outcome.
- TimerHook: the copy of the boot image into instruction RAM is not modelled, only whether its address translates.
- DspDevice.Device.constructor: the device's four memories are not modelled.
- MemInit: creating the memory files and ARAM, and their failures, are not modelled.
- PatchFile: failures to open, inspect, write or close the file are not modelled.
- WriteThenRead: between traps the timer also counts the decrementer down; ticks are not part of a run.
- Signal delivery, alternate stacks and the saving of host registers: host plumbing.
- The load and store emulation of the SIGSEGV handler: one-branch field extraction in front of the devices.
- Video, processor, memory, audio and IPC interfaces and the Flipper and Hollywood dispatchers: flat register stores.
- Forwarding of register accesses to the real hardware: its behaviour is not visible in the source.
- Copying the sections of an image and jumping to its entry point: raw host pointers.
- A console type that is neither GameCube nor Wii: the scan sets no other.

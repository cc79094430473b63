// The emulator as the program runs it: one object with the registers, the window tables
// and the flags, updated step by step, each method proved against the functions that
// specify it.
module EmulatorState {
  import opened Words
  import opened Bat
  import opened MemMap
  import opened ModeSwitch
  import opened DefaultBats
  import opened Spr
  import opened Decoder
  import opened Machine

  // SPR numbers
  const SPR_DEC := 22
  const SPR_SRR0 := 26
  const SPR_SRR1 := 27
  const SPR_SPRG0 := 272
  const SPR_SPRG3 := 275
  const SPR_TBL := 284
  const SPR_TBU := 285
  const SPR_IBAT0U := 528
  const SPR_IBAT0L := 529
  const SPR_IBAT3L := 535
  const SPR_DBAT0U := 536
  const SPR_DBAT0L := 537
  const SPR_DBAT3L := 543
  const SPR_IBAT4U := 560
  const SPR_IBAT4L := 561
  const SPR_IBAT7L := 567
  const SPR_DBAT4U := 568
  const SPR_DBAT4L := 569
  const SPR_DBAT7L := 575
  const SPR_HID2 := 920
  const SPR_UMMCR0 := 936
  const SPR_UMMCR1 := 940
  const SPR_MMCR0 := 952
  const SPR_PMC1 := 953
  const SPR_PMC2 := 954
  const SPR_MMCR1 := 956
  const SPR_PMC3 := 957
  const SPR_PMC4 := 958
  const SPR_HID0 := 1008
  const SPR_HID1 := 1009
  const SPR_L2CR := 1017

  /** The BAT an SPR number means: halve the distance from the block's first upper or first
      lower number. */
  method DataIndex(spr: nat) returns (i: nat)
    requires SPR_DBAT0U <= spr <= SPR_DBAT3L || SPR_DBAT4U <= spr <= SPR_DBAT7L
    ensures i < 8 && SlotOf(spr) == BatReg(Data, spr % 2 == 0, i)
  {
    Halving(spr);
    if spr <= SPR_DBAT3L {
      i := if spr % 2 == 0 then (spr - SPR_DBAT0U) / 2 else (spr - SPR_DBAT0L) / 2;
    } else {
      i := 4 + (if spr % 2 == 0 then (spr - SPR_DBAT4U) / 2 else (spr - SPR_DBAT4L) / 2);
    }
  }

  method InstrIndex(spr: nat) returns (i: nat)
    requires SPR_IBAT0U <= spr <= SPR_IBAT3L || SPR_IBAT4U <= spr <= SPR_IBAT7L
    ensures i < 8 && SlotOf(spr) == BatReg(Instr, spr % 2 == 0, i)
  {
    Halving(spr);
    if spr <= SPR_IBAT3L {
      i := if spr % 2 == 0 then (spr - SPR_IBAT0U) / 2 else (spr - SPR_IBAT0L) / 2;
    } else {
      i := 4 + (if spr % 2 == 0 then (spr - SPR_IBAT4U) / 2 else (spr - SPR_IBAT4L) / 2);
    }
  }

  /** The counter an SPR number is taken for: PMC3 and PMC4 come out as the first two. */
  method CounterIndex(spr: nat) returns (pmcNum: nat)
    requires spr == SPR_PMC1 || spr == SPR_PMC2 || spr == SPR_PMC3 || spr == SPR_PMC4
    ensures pmcNum < 4 && SlotOf(spr) == Pmc(pmcNum)
  {
    pmcNum := spr - SPR_PMC1;
    if pmcNum > 1 {
      pmcNum := spr - SPR_PMC3;
    }
  }

  /** Machine context of the interrupted guest. */
  class Context {
    const gpr: array<Reg>
    var nip: Word

    constructor (gpr: array<Reg>, nip: Word)
      ensures this.gpr == gpr && this.nip == nip
    {
      this.gpr := gpr;
      this.nip := nip;
    }
  }

  class Emulator {
    const env: Env

    // How the code is read, with what the stack holds where it does not set a variable
    var reading: Reading

    // The CPU's register file, a structure held by value
    var cpu: Cpu

    // Window tables
    const mem1MapI: array<Word>
    const mem1MapD: array<Word>
    const mem2MapI: array<Word>
    const mem2MapD: array<Word>

    var fatalError: bool
    var needsMemMapUpdate: bool

    // The host's page map, and history
    ghost var host: Host
    ghost var lost: set<Window>
    ghost var batWindows: bool

    ghost predicate Valid()
      reads this
    {
      && cpu.Shaped()
      && mem1MapI.Length == mem1MapD.Length == mem2MapI.Length == mem2MapD.Length == 8
      && mem1MapI != mem1MapD && mem1MapI != mem2MapI && mem1MapI != mem2MapD
      && mem1MapD != mem2MapI && mem1MapD != mem2MapD && mem2MapI != mem2MapD
    }

    function TablesView(): Tables
      reads mem1MapI, mem1MapD, mem2MapI, mem2MapD
    {
      Tables(mem1MapI[..], mem1MapD[..], mem2MapI[..], mem2MapD[..])
    }

    ghost function WindowsView(): GuestMap
      reads this`host, this`lost, mem1MapI, mem1MapD, mem2MapI, mem2MapD
    {
      GuestMap(TablesView(), host, lost)
    }

    ghost function StateView(ctx: Context): State
      reads this, mem1MapI, mem1MapD, mem2MapI, mem2MapD, ctx, ctx.gpr
    {
      State(env, reading, cpu, WindowsView(), batWindows, fatalError, needsMemMapUpdate, ctx.gpr[..], ctx.nip)
    }

    // ---- The host

    method Mmap(base: Word, size: Word, r: Region, exec: bool) returns (p: Word)
      modifies this`host
      ensures if env.accepts(base, size)
              then p == base && host == Overlay(old(host), base, size, r, exec)
              else p == FAILED && host == old(host)
    {
      if env.accepts(base, size) {
        host := Overlay(host, base, size, r, exec);
        p := base;
      } else {
        p := FAILED;
      }
    }

    ghost method Munmap(base: Word, size: Word)
      modifies this`host
      ensures host == Remove(old(host), base, size)
    {
      host := Remove(host, base, size);
    }

    ghost method RecordLoss(prior: Word, entry: Word, r: Region)
      modifies this`lost
      ensures lost == if prior != FAILED && prior != entry then old(lost) + {Window(prior, r)} else old(lost)
    {
      if prior != FAILED && prior != entry {
        lost := lost + {Window(prior, r)};
      }
    }

    function TableOf(r: Region, k: Kind): array<Word> {
      match (r, k)
      case (Mem1, Instr) => mem1MapI
      case (Mem1, Data) => mem1MapD
      case (Mem2, Instr) => mem2MapI
      case (Mem2, Data) => mem2MapD
    }

    // ---- E_MemReloadMap, block by block

    /** Maps a region at an address and notes the answer in the table. */
    method Place(r: Region, k: Kind, i: nat, v: Word) returns (p: Word)
      requires Valid() && i < 8
      modifies this`host, this`lost, TableOf(r, k)
      ensures WindowsView() == Install(env, k, i, r, v, old(WindowsView()))
      ensures p == if env.accepts(v, RegionSize(env.console, r)) then v else FAILED
    {
      var entries := TableOf(r, k);
      p := Mmap(v, RegionSize(env.console, r), r, k.Instr?);
      RecordLoss(entries[i], p, r);
      entries[i] := p;
    }

    /** The region a physical block number names. */
    method SelectRegion(paddr: Word) returns (r: Option<Region>)
      ensures r == RegionAt(env.console, paddr)
    {
      if paddr == MEM1_PADDR {
        r := Some(Mem1);
      } else if paddr == MEM2_PADDR && env.console.Wii? {
        r := Some(Mem2);
      } else {
        r := None;
      }
    }

    /** Is the address in the region's instruction table? */
    method FindInstr(r: Region, v: Word) returns (found: bool)
      requires Valid()
      ensures found <==> Present(TablesView(), MaxBat(env.console), r, Instr, v)
    {
      var entries, n := TableOf(r, Instr), MaxBat(env.console);
      for j := 0 to n
        invariant v !in entries[..j]
      {
        if entries[j] == v {
          assert entries[..][..n][j] == v;
          return true;
        }
        assert entries[..j + 1] == entries[..j] + [entries[j]];
      }
      assert entries[..n] == entries[..][..n];
      found := false;
    }

    /** Is the address in the region's data table, or in its instruction table? */
    method FindEither(r: Region, v: Word) returns (found: bool)
      requires Valid()
      ensures found <==> Present(TablesView(), MaxBat(env.console), r, Data, v)
    {
      var data, instr, n := TableOf(r, Data), TableOf(r, Instr), MaxBat(env.console);
      for j := 0 to n
        invariant v !in data[..j] && v !in instr[..j]
      {
        if data[j] == v {
          assert data[..][..n][j] == v;
          return true;
        }
        if instr[j] == v {
          assert instr[..][..n][j] == v;
          return true;
        }
        assert data[..j + 1] == data[..j] + [data[j]];
        assert instr[..j + 1] == instr[..j] + [instr[j]];
      }
      assert data[..n] == data[..][..n] && instr[..n] == instr[..][..n];
      found := false;
    }

    /** The instruction-BAT block for one console: left is what the address variable holds. */
    method ReloadInstr(i: nat, left: Word) returns (vaddr: Word, failed: bool)
      requires Valid() && i < MaxBat(env.console)
      modifies this`host, this`lost, this`fatalError, mem1MapI, mem2MapI
      ensures var q := BatStep(env, reading, cpu.bats, Instr, i, Pass(old(WindowsView()), left, false));
              WindowsView() == q.m && vaddr == q.vaddr && failed == q.failed
      ensures fatalError == (old(fatalError) || failed)
    {
      vaddr, failed := left, false;
      if cpu.bats.ibatu[i] == 0 && cpu.bats.ibatl[i] == 0 {
        return;
      }
      var region := SelectRegion(Bprn(cpu.bats.ibatl[i]));
      if region.None? {
        fatalError, failed := true, true;
        return;
      }
      var r := region.value;
      vaddr := if reading.Intended? then Bepi(cpu.bats.ibatu[i]) else left;
      var found := FindInstr(r, vaddr);
      if found {
        return;
      }
      vaddr := Bepi(cpu.bats.ibatu[i]);
      var p := Place(r, Instr, i, vaddr);
      if p == FAILED && (env.console.GameCube? || vaddr < MAX_ALLOWED_VADDR) {
        fatalError, failed := true, true;
      }
    }

    method ReloadData(i: nat, left: Word) returns (vaddr: Word, failed: bool)
      requires Valid() && i < MaxBat(env.console)
      modifies this`host, this`lost, this`fatalError, mem1MapD, mem2MapD
      ensures var q := BatStep(env, reading, cpu.bats, Data, i, Pass(old(WindowsView()), left, false));
              WindowsView() == q.m && vaddr == q.vaddr && failed == q.failed
      ensures fatalError == (old(fatalError) || failed)
    {
      vaddr, failed := left, false;
      if cpu.bats.dbatu[i] == 0 && cpu.bats.dbatl[i] == 0 {
        return;
      }
      var region := SelectRegion(Bprn(cpu.bats.dbatl[i]));
      if region.None? {
        fatalError, failed := true, true;
        return;
      }
      var r := region.value;
      vaddr := Bepi(cpu.bats.dbatu[i]);
      var found := FindEither(r, vaddr);
      if found {
        return;
      }
      var p := Place(r, Data, i, vaddr);
      if p == FAILED && vaddr < MAX_ALLOWED_VADDR {
        fatalError, failed := true, true;
      }
    }

    /** Brings the windows in line with the BATs: the map afterwards is the one Reload gives. */
    method ReloadMap()
      requires Valid()
      modifies this`host, this`lost, this`fatalError, mem1MapI, mem1MapD, mem2MapI, mem2MapD
      ensures var q := Reload(env, reading, cpu.bats, old(WindowsView()));
              WindowsView() == q.m && fatalError == (old(fatalError) || q.failed)
    {
      var vaddr := InitialAddress(reading);
      ghost var start := Pass(WindowsView(), vaddr, false);
      for i := 0 to MaxBat(env.console)
        invariant Passes(env, reading, cpu.bats, i, start) == Pass(WindowsView(), vaddr, false)
        invariant fatalError == old(fatalError)
      {
        if cpu.bats.ibatu[i] == 0 && cpu.bats.ibatl[i] == 0 && cpu.bats.dbatu[i] == 0 && cpu.bats.dbatl[i] == 0 {
          continue;
        }
        var failed;
        vaddr, failed := ReloadInstr(i, vaddr);
        if failed {
          StopsAt(env, reading, cpu.bats, i, MaxBat(env.console), start);
          return;
        }
        vaddr, failed := ReloadData(i, vaddr);
        if failed {
          StopsAt(env, reading, cpu.bats, i, MaxBat(env.console), start);
          return;
        }
      }
    }

    // ---- E_MemMapFixups

    /** munmap of one table entry, if it is in use. */
    ghost method UnmapEntry(r: Region, k: Kind, i: nat)
      requires Valid() && i < 8
      modifies this`host
      ensures host == Unmapped(env.console, TablesView(), r, k, i, old(host))
    {
      var base := TableOf(r, k)[i];
      if base != FAILED {
        Munmap(base, RegionSize(env.console, r));
      }
    }

    /** Unmaps every window and marks every entry the console uses as unused. */
    method UnmapWindows()
      requires Valid()
      modifies this`host, mem1MapI, mem1MapD, mem2MapI, mem2MapD
      ensures WindowsView() == UnmapAll(env.console, MaxBat(env.console), old(WindowsView()))
    {
      ghost var c, m0 := env.console, WindowsView();
      NothingUnmapped(c, m0);
      for i := 0 to MaxBat(env.console)
        invariant WindowsView() == UnmapAll(c, i, m0)
      {
        ghost var t, h := TablesView(), host;
        UnmapEntry(Mem1, Instr, i);
        UnmapEntry(Mem1, Data, i);
        UnmapEntry(Mem2, Instr, i);
        UnmapEntry(Mem2, Data, i);
        mem1MapI[i] := FAILED;
        mem1MapD[i] := FAILED;
        mem2MapI[i] := FAILED;
        mem2MapD[i] := FAILED;
        OneMoreUnmapped(c, m0, i, host, TablesView());
      }
    }

    /** Maps a region at its physical base, for instructions and data alike. */
    method MapPhysical(r: Region) returns (granted: bool)
      requires Valid()
      modifies this`host, TableOf(r, Instr), TableOf(r, Data)
      ensures WindowsView() == MapPhys(env, r, old(WindowsView())) && granted == PhysGranted(env, r)
    {
      var p := Mmap(RegionBase(r), RegionSize(env.console, r), r, true);
      TableOf(r, Instr)[0] := p;
      TableOf(r, Data)[0] := p;
      granted := p != FAILED;
    }

    /** Leaves translation: the BAT windows go, the physical ones come. */
    method EnterReal() returns (granted: bool)
      requires Valid()
      modifies this`host, mem1MapI, mem1MapD, mem2MapI, mem2MapD
      ensures var p := ToReal(env, old(WindowsView())); WindowsView() == p.m && granted == !p.failed
    {
      UnmapWindows();
      granted := MapPhysical(Mem1);
      if granted && env.console.Wii? {
        granted := MapPhysical(Mem2);
      }
    }

    /** The update itself, once the translation bits before and now are known. */
    method FixupsWith(wasTranslating: bool, irIsEnabled: bool, drIsEnabled: bool)
      requires Valid()
      modifies this`host, this`lost, this`fatalError, this`needsMemMapUpdate, this`batWindows
      modifies mem1MapI, mem1MapD, mem2MapI, mem2MapD
      ensures var f := Fixups(env, reading, cpu.bats, wasTranslating, irIsEnabled, drIsEnabled, old(WindowsView()));
              && WindowsView() == f.0 && fatalError == (old(fatalError) || f.1)
      ensures !needsMemMapUpdate
      ensures batWindows == (if irIsEnabled != drIsEnabled then old(batWindows) else if irIsEnabled then true
                             else if wasTranslating then false else old(batWindows))
    {
      needsMemMapUpdate := false;
      if irIsEnabled != drIsEnabled {
        fatalError := true;
        return;
      }
      var isTranslating := irIsEnabled && drIsEnabled;
      if wasTranslating && !isTranslating {
        batWindows := false;
        var granted := EnterReal();
        if !granted {
          fatalError := true;
          return;
        }
      }
      if !wasTranslating && isTranslating {
        UnmapWindows();
      }
      if isTranslating {
        batWindows := true;
        ReloadMap();
      }
    }

    /** Brings the windows in line with the MSR, given the MSR before. */
    method MapFixups(oldMsr: Reg)
      requires Valid()
      modifies this`host, this`lost, this`fatalError, this`needsMemMapUpdate, this`batWindows
      modifies mem1MapI, mem1MapD, mem2MapI, mem2MapD
      ensures var ir, dr := Bit(cpu.msr, MSR_IR), Bit(cpu.msr, MSR_DR);
              var was := Bit(oldMsr, MSR_IR) && Bit(oldMsr, MSR_DR);
              var f := Fixups(env, reading, cpu.bats, was, ir, dr, old(WindowsView()));
              && WindowsView() == f.0 && fatalError == (old(fatalError) || f.1) && !needsMemMapUpdate
              && batWindows == (if ir != dr then old(batWindows) else if ir then true
                                else if was then false else old(batWindows))
    {
      FixupsWith(Bit(oldMsr, MSR_IR) && Bit(oldMsr, MSR_DR), Bit(cpu.msr, MSR_IR), Bit(cpu.msr, MSR_DR));
    }

    // ---- Address translation

    /** First active BAT whose block holds the address. */
    method VirtToPhys(vaddr: Word, isData: bool) returns (result: MemAddr)
      requires Valid()
      ensures result == Translate(cpu.bats.Upper(if isData then Data else Instr),
                                  cpu.bats.Lower(if isData then Data else Instr), vaddr, MaxBat(env.console))
    {
      result := UNMAPPED;
      var batu := if isData then cpu.bats.dbatu else cpu.bats.ibatu;
      var batl := if isData then cpu.bats.dbatl else cpu.bats.ibatl;
      for i := 0 to MaxBat(env.console)
        invariant FirstHit(batu, vaddr, i) == i
      {
        if !Active(batu[i]) {
          continue;
        }
        var size := BlockBytes(BlockLength(batu[i]));
        var bepi := Bepi(batu[i]);
        if bepi <= vaddr < Add(bepi, size) {
          var phys := Add(AndNot(Bprn(batl[i]), Sub(size, 1)), Sub(vaddr, bepi));
          HitDecides(batu, vaddr, i, MaxBat(env.console));
          return MemAddr(phys, true, Writable(batl[i]));
        }
      }
    }

    /** First active BAT whose physical block holds the address, offset from its end. */
    method PhysToVirtAddr(paddr: Word, isData: bool) returns (result: MemAddr)
      requires Valid()
      ensures result == PhysToVirt(cpu.bats.Upper(if isData then Data else Instr),
                                   cpu.bats.Lower(if isData then Data else Instr), paddr, MaxBat(env.console))
    {
      result := UNMAPPED;
      var batu := if isData then cpu.bats.dbatu else cpu.bats.ibatu;
      var batl := if isData then cpu.bats.dbatl else cpu.bats.ibatl;
      for i := 0 to MaxBat(env.console)
        invariant FirstBack(batu, batl, paddr, i) == i
      {
        if !Active(batu[i]) {
          continue;
        }
        var size := BlockBytes(BlockLength(batu[i]));
        var phys, bepi := Bprn(batl[i]), Bepi(batu[i]);
        if phys <= paddr < Add(phys, size) {
          BackDecides(batu, batl, paddr, i, MaxBat(env.console));
          return MemAddr(Add(bepi, Sub(Add(phys, size), paddr)), true, Writable(batl[i]));
        }
      }
    }

    // ---- Register file

    /** Matching translation bits, and no low-power mode while MSR[POW] is set. */
    method ValidateMsr()
      modifies this`fatalError
      ensures fatalError == (old(fatalError) || !cpu.MsrValid())
    {
      if (Bit(cpu.hid0, HID0_DOZE) || Bit(cpu.hid0, HID0_NAP) || Bit(cpu.hid0, HID0_SLEEP)) && Bit(cpu.msr, MSR_POW) {
        fatalError := true;
        return;
      }
      if Bit(cpu.msr, MSR_IR) != Bit(cpu.msr, MSR_DR) {
        fatalError := true;
        return;
      }
    }

    method ValidateHighBatAccess() returns (denied: bool)
      modifies this`fatalError
      ensures denied == !HighBatsAllowed(env.console, cpu)
      ensures fatalError == (old(fatalError) || denied)
    {
      if env.console.GameCube? {
        fatalError := true;
        return true;
      }
      if env.console.Wii? && !Bit(cpu.hid4, HID4_SBE) {
        fatalError := true;
        return true;
      }
      denied := false;
    }

    /** A data BAT register written by number, once access has been cleared. */
    method StoreDataBat(spr: nat, val: Word)
      requires Valid() && (SPR_DBAT0U <= spr <= SPR_DBAT3L || SPR_DBAT4U <= spr <= SPR_DBAT7L)
      modifies this`cpu
      ensures var t := SlotOf(spr); cpu == old(cpu).(bats := SetBat(old(cpu.bats), t.kind, t.upper, t.n, val))
    {
      var i := DataIndex(spr);
      if spr % 2 == 0 {
        cpu := cpu.(bats := cpu.bats.(dbatu := cpu.bats.dbatu[i := val]));
      } else {
        cpu := cpu.(bats := cpu.bats.(dbatl := cpu.bats.dbatl[i := val]));
      }
    }

    method StoreInstrBat(spr: nat, val: Word)
      requires Valid() && (SPR_IBAT0U <= spr <= SPR_IBAT3L || SPR_IBAT4U <= spr <= SPR_IBAT7L)
      modifies this`cpu
      ensures var t := SlotOf(spr); cpu == old(cpu).(bats := SetBat(old(cpu.bats), t.kind, t.upper, t.n, val))
    {
      var i := InstrIndex(spr);
      if spr % 2 == 0 {
        cpu := cpu.(bats := cpu.bats.(ibatu := cpu.bats.ibatu[i := val]));
      } else {
        cpu := cpu.(bats := cpu.bats.(ibatl := cpu.bats.ibatl[i := val]));
      }
    }

    method MtsprBat(spr: nat, val: Word)
      requires Valid() && (IsLowBat(spr) || IsHighBat(spr))
      modifies this`cpu, this`fatalError, this`needsMemMapUpdate
      ensures cpu == Write(env.console, old(cpu), spr, val)
      ensures fatalError == (old(fatalError) || WriteFatal(env.console, old(cpu), spr, val))
      ensures needsMemMapUpdate
    {
      ghost var t := SlotOf(spr);
      needsMemMapUpdate := true;
      if spr >= SPR_IBAT4U {
        var denied := ValidateHighBatAccess();
        if denied {
          return;
        }
      }
      StoreBatOnly(cpu, t, val);
      if SPR_DBAT0U <= spr <= SPR_DBAT3L || SPR_DBAT4U <= spr {
        StoreDataBat(spr, val);
      } else {
        StoreInstrBat(spr, val);
      }
    }

    /** HID2, HID4 and L2CR, with their reserved bits held. */
    method FilterHid2(v: Reg) returns (val: Reg)
      ensures val == Canonical(Hid2, cpu, v)
    {
      val := v;
      if And(val, HID2_RESERVED) != 0 {
        val := AndNot(val, HID2_RESERVED);
      } else {
        NothingToClear(val, HID2_RESERVED);
      }
      if And(val, HID2_DMAQL) != 0 {
        val := AndNot(val, HID2_DMAQL);
        val := OrWord(val, And(cpu.hid2, HID2_DMAQL));
      }
    }

    method FilterHid4(v: Reg) returns (val: Reg)
      ensures val == Canonical(Hid4, cpu, v)
    {
      val := v;
      if val / 0x8000_0000 != 1 {
        val := OrWord(val, HID4_ALWAYS_ONE);
      } else {
        TopBitThere(val);
      }
      if And(val, HID4_RESERVED) != 0 {
        val := AndNot(val, HID4_RESERVED);
      } else {
        NothingToClear(val, HID4_RESERVED);
      }
    }

    method FilterL2cr(v: Reg) returns (val: Reg)
      ensures val == Canonical(L2cr, cpu, v)
    {
      val := v;
      if And(val, L2CR_RESERVED) != 0 {
        val := AndNot(val, L2CR_RESERVED);
      } else {
        NothingToClear(val, L2CR_RESERVED);
      }
    }

    method MtsprHid0(val: Reg)
      requires Valid()
      modifies this`cpu, this`fatalError
      ensures cpu == Write(env.console, old(cpu), SPR_HID0, val)
      ensures fatalError == (old(fatalError) || WriteFatal(env.console, old(cpu), SPR_HID0, val))
    {
      cpu := cpu.(hid0 := val);
      if Bit(val, HID0_DOZE) || Bit(val, HID0_NAP) || Bit(val, HID0_SLEEP) {
        if Bit(cpu.msr, MSR_POW) {
          fatalError := true;
        }
      }
    }

    method MtsprHid(spr: nat, val: Reg)
      requires Valid() && (spr == SPR_HID2 || spr == SPR_HID4 || spr == SPR_L2CR)
      modifies this`cpu, this`fatalError
      ensures cpu == Write(env.console, old(cpu), spr, val)
      ensures fatalError == (old(fatalError) || WriteFatal(env.console, old(cpu), spr, val))
    {
      if spr == SPR_HID2 {
        var filtered := FilterHid2(val);
        cpu := cpu.(hid2 := filtered);
      } else if spr == SPR_HID4 {
        if env.console.GameCube? {
          fatalError := true;
          return;
        }
        var filtered := FilterHid4(val);
        cpu := cpu.(hid4 := filtered);
      } else {
        var filtered := FilterL2cr(val);
        cpu := cpu.(l2cr := filtered);
      }
    }

    method MtsprMonitor(spr: nat, val: Reg)
      requires Valid() && (spr == SPR_MMCR0 || spr == SPR_MMCR1)
      modifies this`cpu, this`fatalError
      ensures cpu == Write(env.console, old(cpu), spr, val)
      ensures fatalError == (old(fatalError) || WriteFatal(env.console, old(cpu), spr, val))
    {
      if val != 0 {
        fatalError := true;
        return;
      }
      if spr == SPR_MMCR0 {
        cpu := cpu.(mmcr0 := val);
      } else {
        cpu := cpu.(mmcr1 := val);
      }
    }

    method MtsprCounter(spr: nat, val: Reg)
      requires Valid() && (spr == SPR_PMC1 || spr == SPR_PMC2 || spr == SPR_PMC3 || spr == SPR_PMC4)
      modifies this`cpu, this`fatalError
      ensures cpu == Write(env.console, old(cpu), spr, val)
      ensures fatalError == (old(fatalError) || WriteFatal(env.console, old(cpu), spr, val))
    {
      var pmcNum := CounterIndex(spr);
      if val != 0 {
        fatalError := true;
        return;
      }
      cpu := cpu.(pmc := cpu.pmc[pmcNum := val]);
    }

    /** The registers that are neither BATs nor filtered; the rest is read-only or unknown. */
    method MtsprPlain(spr: nat, val: Reg)
      requires Valid() && !IsLowBat(spr) && !IsHighBat(spr)
      requires spr != SPR_HID0 && spr != SPR_HID2 && spr != SPR_HID4 && spr != SPR_L2CR
      requires spr != SPR_MMCR0 && spr != SPR_MMCR1
      requires spr != SPR_PMC1 && spr != SPR_PMC2 && spr != SPR_PMC3 && spr != SPR_PMC4
      modifies this`cpu, this`fatalError
      ensures cpu == Write(env.console, old(cpu), spr, val)
      ensures fatalError == (old(fatalError) || WriteFatal(env.console, old(cpu), spr, val))
    {
      if spr == SPR_DEC {
        cpu := cpu.(decrementer := val);
      } else if spr == SPR_TBL {
        cpu := cpu.(tbl := val);
      } else if spr == SPR_TBU {
        cpu := cpu.(tbu := val);
      } else if spr == SPR_SRR0 {
        cpu := cpu.(srr0 := val);
      } else if spr == SPR_SRR1 {
        cpu := cpu.(srr1 := val);
      } else if SPR_SPRG0 <= spr <= SPR_SPRG3 {
        cpu := cpu.(sprg := cpu.sprg[spr - SPR_SPRG0 := val]);
      } else {
        // HID1, UMMCRn and UPMCn are read-only; nothing else exists
        fatalError := true;
      }
    }

    method Mtspr(spr: nat, val: Reg)
      requires Valid()
      modifies this`cpu, this`fatalError, this`needsMemMapUpdate
      ensures cpu == Write(env.console, old(cpu), spr, val)
      ensures fatalError == (old(fatalError) || WriteFatal(env.console, old(cpu), spr, val))
      ensures needsMemMapUpdate == (old(needsMemMapUpdate) || WriteTouchesMap(spr))
    {
      if (SPR_IBAT0U <= spr <= SPR_DBAT3L) || (SPR_IBAT4U <= spr <= SPR_DBAT7L) {
        MtsprBat(spr, val);
      } else if spr == SPR_HID0 {
        MtsprHid0(val);
      } else if spr == SPR_HID2 || spr == SPR_HID4 || spr == SPR_L2CR {
        MtsprHid(spr, val);
      } else if spr == SPR_MMCR0 || spr == SPR_MMCR1 {
        MtsprMonitor(spr, val);
      } else if spr == SPR_PMC1 || spr == SPR_PMC2 || spr == SPR_PMC3 || spr == SPR_PMC4 {
        MtsprCounter(spr, val);
      } else {
        MtsprPlain(spr, val);
      }
    }

    /** The BATs, read one number at a time. */
    method MfsprBat(spr: nat) returns (val: Reg)
      requires Valid() && SlotOf(spr).BatReg?
      modifies this`fatalError
      ensures var r := Read(env.console, cpu, spr);
              val == (if r.Some? then r.value else BAD_READ) && fatalError == (old(fatalError) || r.None?)
    {
      var denied := false;
      if spr >= SPR_IBAT4U {
        denied := ValidateHighBatAccess();
      }
      if denied {
        return BAD_READ;
      }
      match spr
      case 528 => val := cpu.bats.ibatu[0];
      case 529 => val := cpu.bats.ibatl[0];
      case 530 => val := cpu.bats.ibatu[1];
      case 531 => val := cpu.bats.ibatl[1];
      case 532 => val := cpu.bats.ibatu[2];
      case 533 => val := cpu.bats.ibatl[2];
      case 534 => val := cpu.bats.ibatu[3];
      case 535 => val := cpu.bats.ibatl[3];
      case 536 => val := cpu.bats.dbatu[0];
      case 537 => val := cpu.bats.dbatl[0];
      case 538 => val := cpu.bats.dbatu[1];
      case 539 => val := cpu.bats.dbatl[1];
      case 540 => val := cpu.bats.dbatu[2];
      case 541 => val := cpu.bats.dbatl[2];
      case 542 => val := cpu.bats.dbatu[3];
      case 543 => val := cpu.bats.dbatl[3];
      case 560 => val := cpu.bats.ibatu[4];
      case 561 => val := cpu.bats.ibatl[4];
      case 562 => val := cpu.bats.ibatu[5];
      case 563 => val := cpu.bats.ibatl[5];
      case 564 => val := cpu.bats.ibatu[6];
      case 565 => val := cpu.bats.ibatl[6];
      case 566 => val := cpu.bats.ibatu[7];
      case 567 => val := cpu.bats.ibatl[7];
      case 568 => val := cpu.bats.dbatu[4];
      case 569 => val := cpu.bats.dbatl[4];
      case 570 => val := cpu.bats.dbatu[5];
      case 571 => val := cpu.bats.dbatl[5];
      case 572 => val := cpu.bats.dbatu[6];
      case 573 => val := cpu.bats.dbatl[6];
      case 574 => val := cpu.bats.dbatu[7];
      case _ => val := cpu.bats.dbatl[7];
    }

    method Mfspr(spr: nat) returns (val: Reg)
      requires Valid()
      modifies this`fatalError
      ensures var r := Read(env.console, cpu, spr);
              val == (if r.Some? then r.value else BAD_READ) && fatalError == (old(fatalError) || r.None?)
    {
      val := BAD_READ;
      if (SPR_IBAT0U <= spr <= SPR_DBAT3L) || (SPR_IBAT4U <= spr <= SPR_DBAT7L) {
        val := MfsprBat(spr);
      } else if spr == SPR_DEC {
        val := cpu.decrementer;
      } else if spr == SPR_TBL {
        val := cpu.tbl;
      } else if spr == SPR_TBU {
        val := cpu.tbu;
      } else if spr == SPR_SRR0 {
        val := cpu.srr0;
      } else if spr == SPR_SRR1 {
        val := cpu.srr1;
      } else if spr == SPR_HID0 {
        val := cpu.hid0;
      } else if spr == SPR_HID1 {
        val := cpu.hid1;
      } else if spr == SPR_HID2 {
        val := cpu.hid2;
      } else if spr == SPR_HID4 {
        if env.console.GameCube? {
          fatalError := true;
        } else {
          val := cpu.hid4;
        }
      } else if SPR_SPRG0 <= spr <= SPR_SPRG3 {
        val := cpu.sprg[spr - SPR_SPRG0];
      } else if spr == SPR_L2CR {
        val := cpu.l2cr;
      } else if spr == SPR_UMMCR0 || spr == SPR_MMCR0 {
        val := cpu.mmcr0;
      } else if spr == SPR_UMMCR1 || spr == SPR_MMCR1 {
        val := cpu.mmcr1;
      } else {
        fatalError := true;
      }
    }

    method Mtmsr(val: Reg)
      modifies this`cpu, this`fatalError
      ensures cpu == old(cpu).(msr := val) && fatalError == (old(fatalError) || !cpu.MsrValid())
    {
      cpu := cpu.(msr := val);
      ValidateMsr();
    }

    method EmulateRfi() returns (pc: Word)
      modifies this`cpu, this`fatalError, this`needsMemMapUpdate
      ensures cpu == old(cpu).(msr := RfiMsr(old(cpu))) && pc == cpu.srr0 / 4 * 4 && needsMemMapUpdate
      ensures fatalError == (old(fatalError) || !cpu.MsrValid())
    {
      cpu := cpu.(msr := OrWord(AndNot(cpu.msr, RFI_MASK), And(cpu.srr1, RFI_MASK)));
      cpu := cpu.(msr := AndNot(cpu.msr, MSR_POW_MASK));
      needsMemMapUpdate := true;
      ValidateMsr();
      pc := cpu.srr0 / 4 * 4;
    }

    // ---- The trap handler

    ghost predicate Holds(ctx: Context)
      reads this
    {
      && Valid() && ctx.gpr.Length == 32
      && ctx.gpr != mem1MapI && ctx.gpr != mem1MapD && ctx.gpr != mem2MapI && ctx.gpr != mem2MapD
    }

    method TrapMfspr(ctx: Context, rd: nat, spr: nat)
      requires Holds(ctx) && rd < 32 && spr < 1024
      modifies this`fatalError, ctx, ctx.gpr
      ensures Valid() && StateView(ctx) == Execute(old(StateView(ctx)), Instruction.Mfspr(rd, spr))
    {
      var r := Mfspr(spr);
      ctx.gpr[rd] := r;
      ctx.nip := NextPc(ctx.nip);
    }

    method TrapMtspr(ctx: Context, rs: nat, spr: nat)
      requires Holds(ctx) && rs < 32 && spr < 1024
      modifies ctx
      modifies this`cpu, this`fatalError, this`needsMemMapUpdate
      ensures Valid() && StateView(ctx) == Execute(old(StateView(ctx)), Instruction.Mtspr(rs, spr))
    {
      Mtspr(spr, ctx.gpr[rs]);
      ctx.nip := NextPc(ctx.nip);
    }

    method TrapMsr(ctx: Context, i: Instruction)
      requires Holds(ctx) && Encodable(i) && (i.Mfmsr? || i.Mtmsr? || i.Rfi?)
      modifies this`cpu, this`fatalError, this`needsMemMapUpdate, ctx, ctx.gpr
      ensures Valid() && StateView(ctx) == Execute(old(StateView(ctx)), i)
    {
      match i
      case Mfmsr(rd) =>
        ctx.gpr[rd] := cpu.msr;
        ctx.nip := NextPc(ctx.nip);
      case Mtmsr(rs) =>
        Mtmsr(ctx.gpr[rs]);
        ctx.nip := NextPc(ctx.nip);
      case Rfi =>
        ctx.nip := EmulateRfi();
    }

    /** The opcodes at the end of the chain. */
    method DispatchRest(ctx: Context, val: Word)
      requires Holds(ctx) && val != RFI_WORD
      requires val / 0x400_0000 == 31 ==> val % 0x400 / 2 != 339 && val % 0x400 / 2 != 467
                                          && val % 0x400 / 2 != 83 && val % 0x400 / 2 != 146
      modifies ctx`nip, this`cpu, this`fatalError
      ensures Valid() && StateView(ctx) == Execute(old(StateView(ctx)), Decode(val))
    {
      var primary, xo := val / 0x400_0000, val % 0x400 / 2;
      if xo == 210 && primary == 31 {
        cpu := cpu.(segmentRegs := cpu.segmentRegs[SegmentField(val) := ctx.gpr[RegField(val)]]);
        ctx.nip := NextPc(ctx.nip);
      } else if xo == 470 && primary == 31 {
        ctx.nip := NextPc(ctx.nip);
      } else {
        fatalError := true;
      }
    }

    /** Decoding and emulation of one instruction word.  The test for mfsr that the handler
        makes after mtsr's can never succeed on a nine-bit opcode and has no branch here. */
    method Dispatch(ctx: Context, val: Word)
      requires Holds(ctx)
      modifies ctx, ctx.gpr
      modifies this`cpu, this`fatalError, this`needsMemMapUpdate
      ensures Valid() && StateView(ctx) == Execute(old(StateView(ctx)), Decode(val))
    {
      var primary, xo := val / 0x400_0000, val % 0x400 / 2;
      if xo == 339 && primary == 31 {
        TrapMfspr(ctx, RegField(val), SprField(val));
      } else if xo == 467 && primary == 31 {
        TrapMtspr(ctx, RegField(val), SprField(val));
      } else if xo == 83 && primary == 31 {
        TrapMsr(ctx, Instruction.Mfmsr(RegField(val)));
      } else if xo == 146 && primary == 31 {
        TrapMsr(ctx, Instruction.Mtmsr(RegField(val)));
      } else if val == RFI_WORD {
        TrapMsr(ctx, Instruction.Rfi);
      } else {
        DispatchRest(ctx, val);
      }
    }

    method UpdateMap(ctx: Context, oldMsr: Reg)
      requires Holds(ctx)
      modifies this`host, this`lost, this`fatalError, this`needsMemMapUpdate, this`batWindows
      modifies mem1MapI, mem1MapD, mem2MapI, mem2MapD
      ensures Valid() && StateView(ctx)
           == Update(old(StateView(ctx)), Bit(oldMsr, MSR_IR) && Bit(oldMsr, MSR_DR))
    {
      MapFixups(oldMsr);
    }

    /** One SIGILL, the stack holding junk: the machine afterwards is the one TrapStep gives. */
    method HandleTrap(ctx: Context, val: Word, junk: Word)
      requires Holds(ctx)
      modifies this, mem1MapI, mem1MapD, mem2MapI, mem2MapD, ctx, ctx.gpr
      ensures Valid()
      ensures StateView(ctx) == TrapStep(old(StateView(ctx)), Trap(val, old(ctx.gpr[..]), old(ctx.nip), junk))
    {
      if fatalError {
        return; // the process exits
      }
      reading := WithJunk(reading, junk);
      ghost var s := StateView(ctx);
      var oldMsr := cpu.msr;
      Dispatch(ctx, val);
      ghost var s1 := StateView(ctx);
      if needsMemMapUpdate {
        UpdateMap(ctx, oldMsr);
        assert StateView(ctx) == Update(s1, s.Translating());
      }
    }

    // ---- Start-up

    /** The state before anything has run: all zero, as static storage is. */
    constructor (env: Env, reading: Reading)
      ensures this.env == env && this.reading == reading && Valid()
      ensures fresh(mem1MapI) && fresh(mem1MapD) && fresh(mem2MapI) && fresh(mem2MapD)
      ensures cpu == ZEROED_CPU && host == imap[] && lost == {} && !batWindows && !fatalError && !needsMemMapUpdate
      ensures TablesView() == Tables(ZERO8, ZERO8, ZERO8, ZERO8)
    {
      this.env, this.reading := env, reading;
      cpu := ZEROED_CPU;
      fatalError, needsMemMapUpdate := false, false;
      host, lost, batWindows := imap[], {}, false;
      mem1MapI := new Word[8](i => 0);
      mem1MapD := new Word[8](i => 0);
      mem2MapI := new Word[8](i => 0);
      mem2MapD := new Word[8](i => 0);
      new;
      assert mem1MapI[..] == ZERO8 && mem1MapD[..] == ZERO8 && mem2MapI[..] == ZERO8 && mem2MapD[..] == ZERO8;
    }

    /** The loops that mark every entry unused; as written, their condition is never true. */
    method InitTables()
      requires Valid() && TablesView() == Tables(ZERO8, ZERO8, ZERO8, ZERO8)
      modifies mem1MapI, mem1MapD, mem2MapI, mem2MapD
      ensures TablesView() == InitialTables(reading)
    {
      var i := 0;
      while if reading.Intended? then i < 8 else i > 8
        invariant 0 <= i <= 8 && (!reading.Intended? ==> i == 0)
        invariant forall j :: 0 <= j < 8 ==>
          mem1MapI[j] == mem1MapD[j] == mem2MapI[j] == mem2MapD[j] == if j < i then FAILED else ZERO8[j]
        decreases 8 - i
      {
        mem1MapI[i], mem1MapD[i] := FAILED, FAILED;
        mem2MapI[i], mem2MapD[i] := FAILED, FAILED;
        i := i + 1;
      }
      ghost var row := if reading.Intended? then UNUSED8 else ZERO8;
      assert mem1MapI[..] == row && mem1MapD[..] == row && mem2MapI[..] == row && mem2MapD[..] == row;
    }

    method MemInit()
      requires Valid() && TablesView() == Tables(ZERO8, ZERO8, ZERO8, ZERO8)
      modifies this`cpu, this`host, this`lost, this`fatalError, this`needsMemMapUpdate, this`batWindows
      modifies mem1MapI, mem1MapD, mem2MapI, mem2MapD
      ensures Valid() && cpu == old(cpu).(bats := Default(env.console))
      ensures var m := GuestMap(InitialTables(reading), old(host), old(lost));
              var ir, dr := Bit(cpu.msr, MSR_IR), Bit(cpu.msr, MSR_DR);
              var f := Fixups(env, reading, Default(env.console), ir && dr, ir, dr, m);
              && WindowsView() == f.0 && fatalError == (old(fatalError) || f.1) && !needsMemMapUpdate
              && batWindows == (if ir != dr then old(batWindows) else if ir then true else old(batWindows))
    {
      InitTables();
      cpu := cpu.(bats := Default(env.console));
      MapFixups(cpu.msr);
    }

    method CpuInit()
      requires Valid()
      modifies this`cpu
      ensures cpu == InitCpu(old(cpu))
    {
      cpu := cpu.(hid0 := 0, hid1 := 0, hid2 := 0);
      cpu := cpu.(hid4 := HID4_ALWAYS_ONE);
      cpu := cpu.(srr0 := 0, srr1 := 0, l2cr := 0, mmcr0 := 0, mmcr1 := 0);
      for i := 0 to 4
        invariant |cpu.pmc| == 4 && |cpu.sprg| == 4
        invariant cpu == InitCpu(old(cpu)).(pmc := cpu.pmc, sprg := cpu.sprg)
        invariant forall j :: 0 <= j < i ==> cpu.pmc[j] == 0 && cpu.sprg[j] == 0
      {
        cpu := cpu.(pmc := cpu.pmc[i := 0], sprg := cpu.sprg[i := 0]);
      }
    }

    /** The start-up sequence, for an ordinary image and for a BS1 image. */
    method Start(ctx: Context, bs1: bool)
      requires Holds(ctx) && cpu == ZEROED_CPU && TablesView() == Tables(ZERO8, ZERO8, ZERO8, ZERO8)
      requires host == imap[] && lost == {} && !batWindows && !fatalError && !needsMemMapUpdate
      modifies this, mem1MapI, mem1MapD, mem2MapI, mem2MapD
      ensures Valid() && StateView(ctx) == Boot(env, old(reading), bs1, ctx.gpr[..], ctx.nip)
    {
      cpu := cpu.(msr := if bs1 then 0 else MSR_TRANSLATING);
      MemInit();
      if fatalError {
        return;
      }
      if bs1 {
        cpu := cpu.(msr := 0);
        UpdateMap(ctx, MSR_TRANSLATING);
        BothBits();
      }
      CpuInit();
    }
  }

  /** A pass that gives up at BAT i is over. */
  lemma {:induction false} StopsAt(e: Env, rd: Reading, b: Bats, i: nat, n: nat, p: Pass)
    requires b.Shaped() && p.m.t.Shaped() && i < n <= 8
    requires !Passes(e, rd, b, i, p).failed && PairStep(e, rd, b, i, Passes(e, rd, b, i, p)).failed
    ensures Passes(e, rd, b, n, p) == PairStep(e, rd, b, i, Passes(e, rd, b, i, p))
  {
    if i + 1 < n {
      StopsAt(e, rd, b, i, n - 1, p);
    }
  }

  /** The pages left when one table entry's window is unmapped. */
  ghost function Unmapped(c: Console, t: Tables, r: Region, k: Kind, i: nat, h: Host): Host
    requires t.Shaped() && i < 8
  {
    imap a | a in h.Keys && !InWindow(c, t, r, k, i, a) :: h[a]
  }

  lemma NothingUnmapped(c: Console, m: GuestMap)
    requires m.t.Shaped()
    ensures UnmapAll(c, 0, m) == m
  {
    forall r, k
      ensures WipeTables(m.t, 0).Get(r, k) == m.t.Get(r, k)
    {
      WipeGet(m.t, 0, r, k);
    }
    TablesEqual(WipeTables(m.t, 0), m.t);
  }

  lemma OneMoreUnmapped(c: Console, m: GuestMap, i: nat, h: Host, t: Tables)
    requires m.t.Shaped() && t.Shaped() && i < 8
    requires var t0, h0 := WipeTables(m.t, i), UnmapAll(c, i, m).host;
             && t0.Shaped()
             && h == Unmapped(c, t0, Mem2, Data, i, Unmapped(c, t0, Mem2, Instr, i,
                       Unmapped(c, t0, Mem1, Data, i, Unmapped(c, t0, Mem1, Instr, i, h0))))
             && t == Tables(t0.i1[i := FAILED], t0.d1[i := FAILED], t0.i2[i := FAILED], t0.d2[i := FAILED])
    ensures GuestMap(t, h, m.lost) == UnmapAll(c, i + 1, m)
  {
    var t0 := WipeTables(m.t, i);
    forall r, k
      ensures t.Get(r, k) == WipeTables(m.t, i + 1).Get(r, k)
      ensures t0.Get(r, k)[i] == m.t.Get(r, k)[i]
    {
      WipeGet(m.t, i, r, k);
      WipeGet(m.t, i + 1, r, k);
    }
    TablesEqual(t, WipeTables(m.t, i + 1));
    forall a
      ensures InWindows(c, m.t, i + 1, a) <==>
              InWindows(c, m.t, i, a)
              || InWindow(c, t0, Mem1, Instr, i, a) || InWindow(c, t0, Mem1, Data, i, a)
              || InWindow(c, t0, Mem2, Instr, i, a) || InWindow(c, t0, Mem2, Data, i, a)
    {
      WindowsSplit(c, m.t, t0, i, a);
    }
  }

  lemma WindowsSplit(c: Console, t: Tables, t0: Tables, i: nat, a: int)
    requires t.Shaped() && t0.Shaped() && i < 8
    requires forall r, k :: t0.Get(r, k)[i] == t.Get(r, k)[i]
    ensures InWindows(c, t, i + 1, a) <==>
            InWindows(c, t, i, a)
            || InWindow(c, t0, Mem1, Instr, i, a) || InWindow(c, t0, Mem1, Data, i, a)
            || InWindow(c, t0, Mem2, Instr, i, a) || InWindow(c, t0, Mem2, Data, i, a)
  {
    if InWindows(c, t, i + 1, a) {
      var r, k, j :| 0 <= j < i + 1 && InWindow(c, t, r, k, j, a);
      if j == i {
        assert InWindow(c, t0, r, k, i, a);
      }
    }
    if InWindow(c, t0, Mem1, Instr, i, a) { assert InWindow(c, t, Mem1, Instr, i, a); }
    if InWindow(c, t0, Mem1, Data, i, a) { assert InWindow(c, t, Mem1, Data, i, a); }
    if InWindow(c, t0, Mem2, Instr, i, a) { assert InWindow(c, t, Mem2, Instr, i, a); }
    if InWindow(c, t0, Mem2, Data, i, a) { assert InWindow(c, t, Mem2, Data, i, a); }
  }

  /** The first BAT found is the one a longer search finds. */
  lemma {:induction false} HitDecides(us: seq<Word>, v: Word, i: nat, n: nat)
    requires i < n <= |us| && FirstHit(us, v, i) == i && Hit(us[i], v)
    ensures FirstHit(us, v, n) == i
  {
    if i + 1 < n {
      HitDecides(us, v, i, n - 1);
    }
  }

  lemma {:induction false} BackDecides(us: seq<Word>, ls: seq<Word>, p: Word, i: nat, n: nat)
    requires i < n <= |us| && n <= |ls| && FirstBack(us, ls, p, i) == i && Backs(us[i], ls[i], p)
    ensures FirstBack(us, ls, p, n) == i
  {
    if i + 1 < n {
      BackDecides(us, ls, p, i, n - 1);
    }
  }

  lemma NothingToClear(a: nat, m: nat)
    requires And(a, m) == 0
    ensures AndNot(a, m) == a
  {
    if m != 0 {
      NothingToClear(a / 2, m / 2);
    }
  }

  lemma TopBitThere(v: Reg)
    requires v / 0x8000_0000 == 1
    ensures OrWord(v, HID4_ALWAYS_ONE) == v
  {
    Pow2Values();
    assert Pow2(32) == 2 * Pow2(31);
    OrTop(31, 0x8000_0000, v - 0x8000_0000);
  }

  lemma {:induction false} OrTop(k: nat, p: nat, r: nat)
    requires p == Pow2(k) && r < p
    ensures Or(p + r, p) == p + r
  {
    if k != 0 {
      var h := Pow2(k - 1);
      OrTop(k - 1, h, r / 2);
      DivUnique(p + r, 2, h + r / 2, r % 2);
    }
  }

  const ZEROED_CPU: Cpu := Cpu(0, 0, 0, 0, 0, 0, 0, 0, 0, 0, [0, 0, 0, 0], [0, 0, 0, 0],
                               Bats(ZERO8, ZERO8, ZERO8, ZERO8), ZERO16, 0, 0, 0)

  lemma BothBits()
    ensures Bit(MSR_TRANSLATING, MSR_IR) && Bit(MSR_TRANSLATING, MSR_DR)
  {
  }
}

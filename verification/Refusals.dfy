// When the emulator gives up because of the page map: exactly which refusals of the host, and
// which BATs, make a reload, a mode switch, the start-up or an rfi fatal.
module Refusals {
  import opened Words
  import opened Bat
  import opened MemMap
  import opened MemTheorems
  import opened ModeSwitch
  import opened StaleProbe
  import opened StartUp
  import opened Spr
  import opened Decoder
  import opened Machine
  import opened MachineTheorems

  /** What a BAT in use needs so that a reload from unused tables gets past it: it names MEM1, or on
      Wii MEM2, and the host grants 24 MB or 64 MB at its address, or the address is 0xC0000000 or
      higher and it is not a GameCube instruction BAT. */
  ghost predicate Passable(e: Env, k: Kind, u: Word, l: Word) {
    var v, p := Bepi(u), Bprn(l);
    || (u == 0 && l == 0)
    || (&& (p == 0 || (p == 0x1000_0000 && e.console.Wii?))
        && (|| e.accepts(v, if p == 0 then 0x180_0000 else 0x400_0000)
            || (v >= 0xC000_0000 && (k.Data? || e.console.Wii?))))
  }

  /** With the intended reading a reload from unused tables fails exactly when one of the console's
      BATs is not passable. */
  lemma ReloadRefused(e: Env, b: Bats, m: GuestMap)
    requires b.Shaped() && m.t.Shaped() && Unused(m.t, MaxBat(e.console))
    ensures !Reload(e, Intended, b, m).failed
       <==> forall k: Kind, i :: 0 <= i < (if e.console.GameCube? then 4 else 8) ==>
              Passable(e, k, b.Upper(k)[i], b.Lower(k)[i])
  {
    FailsExactly(e, b, m);
    forall k: Kind, i | 0 <= i < MaxBat(e.console)
      ensures Passable(e, k, b.Upper(k)[i], b.Lower(k)[i])
         <==> (!b.Empty(k, i) ==>
                 b.RegionOf(e.console, k, i).Some?
                 && (WindowGranted(e, b, k, i) || (b.BepiAt(k, i) >= 0xC000_0000 && (k.Data? || e.console.Wii?))))
    {
    }
  }

  // ---- Mode switches

  /** The host grants MEM1 at 0 and, on Wii, MEM2 at 0x10000000. */
  ghost predicate PhysicalGranted(e: Env) {
    e.accepts(0, 0x180_0000) && (e.console.Wii? ==> e.accepts(0x1000_0000, 0x400_0000))
  }

  /** Entering real mode, from any map, fails exactly when the host refuses a physical window. */
  lemma ToRealFails(e: Env, m: GuestMap)
    requires m.t.Shaped()
    ensures ToReal(e, m).failed <==> !PhysicalGranted(e)
  {
  }

  /** The tables an update that ends in translation starts its reload from. */
  function StartingTables(c: Console, was: bool, t: Tables): (t': Tables)
    requires t.Shaped()
    ensures t'.Shaped()
  {
    if was then t else WipeTables(t, if c.GameCube? then 4 else 8)
  }

  /** Exactly when an update is fatal: for unequal translation bits, on the way out of translation
      if a physical window is refused, and in translation if some BAT is not in order. */
  lemma FixupsFails(e: Env, rd: Reading, b: Bats, was: bool, ir: bool, dr: bool, m: GuestMap)
    requires b.Shaped() && m.t.Shaped()
    ensures Fixups(e, rd, b, was, ir, dr, m).1
       <==> || ir != dr
            || (was && !ir && !PhysicalGranted(e))
            || (ir && !AllInOrder(e, rd, b, StartingTables(e.console, was, m.t), MaxBat(e.console)))
  {
    ToRealFails(e, m);
    ReloadFails(e, rd, b, m);
    WipedUnused(m.t, MaxBat(e.console));
    ReloadFails(e, rd, b, UnmapAll(e.console, MaxBat(e.console), m));
  }

  // ---- Start-up

  /** A BS1 image starts exactly if the physical windows are granted, any other exactly if MEM1 is
      granted at 0x80000000 and, on Wii, MEM2 at 0x90000000. */
  lemma BootFails(e: Env, rd: Reading, bs1: bool, gpr: seq<Reg>, pc: Word)
    requires |gpr| == 32
    ensures !Boot(e, rd, bs1, gpr, pc).fatal
       <==> if bs1 then PhysicalGranted(e)
            else e.accepts(0x8000_0000, 0x180_0000) && (e.console.Wii? ==> e.accepts(0x9000_0000, 0x400_0000))
  {
    EarlyMsr(bs1);
    var m0 := GuestMap(InitialTables(rd), imap[], {});
    if bs1 {
      ToRealFails(e, m0);
    } else {
      FirstReload(e, rd);
    }
  }

  // ---- Return from interrupt

  /** Exactly when an rfi is fatal, by the bits of SRR1 and of the MSR. */
  lemma RfiFails(s: State)
    requires s.Shaped() && !s.fatal
    ensures var ir, was := Bit(s.cpu.srr1, 5), Bit(s.cpu.msr, 5) && Bit(s.cpu.msr, 4);
            var t := StartingTables(s.env.console, was, s.windows.t);
            Step(s, 0x4C00_0064).fatal
            <==> || ir != Bit(s.cpu.srr1, 4)
                 || (was && !ir && !PhysicalGranted(s.env))
                 || (ir && !AllInOrder(s.env, s.reading, s.cpu.bats, t, MaxBat(s.env.console)))
  {
    RfiValid(s.cpu);
    var s1 := Execute(s, Rfi);
    assert Decode(0x4C00_0064) == Rfi;
    FixupsFails(s.env, s.reading, s.cpu.bats, s.Translating(), s1.cpu.InstrTranslation(),
                s1.cpu.DataTranslation(), s.windows);
  }

  /** In particular out of translation into real mode. */
  lemma RfiOutFails(s: State)
    requires s.Shaped() && !s.fatal && Bit(s.cpu.msr, 5) && Bit(s.cpu.msr, 4)
    requires !Bit(s.cpu.srr1, 5) && !Bit(s.cpu.srr1, 4)
    ensures Step(s, 0x4C00_0064).fatal <==> !PhysicalGranted(s.env)
  {
    RfiFails(s);
  }

  /** And out of real mode into translation, with the intended reading: exactly when a BAT is not
      passable. */
  lemma RfiInFails(s: State)
    requires s.Shaped() && !s.fatal && s.reading.Intended? && !(Bit(s.cpu.msr, 5) && Bit(s.cpu.msr, 4))
    requires Bit(s.cpu.srr1, 5) && Bit(s.cpu.srr1, 4)
    ensures !Step(s, 0x4C00_0064).fatal
       <==> forall k: Kind, i :: 0 <= i < (if s.env.console.GameCube? then 4 else 8) ==>
              Passable(s.env, k, s.cpu.bats.Upper(k)[i], s.cpu.bats.Lower(k)[i])
  {
    var m0 := UnmapAll(s.env.console, MaxBat(s.env.console), s.windows);
    WipedUnused(s.windows.t, MaxBat(s.env.console));
    ReloadRefused(s.env, s.cpu.bats, m0);
    ReloadFails(s.env, Intended, s.cpu.bats, m0);
    RfiFails(s);
  }

  // ---- Where real mode puts the regions

  /** The pages of real mode by address: MEM1 from 0 and, on Wii, MEM2 from 0x10000000, in order and
      executable, and nothing else. */
  lemma RealPages(c: Console, a: int)
    ensures a in RealHost(c).Keys <==> 0 <= a < 0x180_0000 || (c.Wii? && 0x1000_0000 <= a < 0x1400_0000)
    ensures 0 <= a < 0x180_0000 ==> RealHost(c)[a] == Cell(Mem1, a, true)
    ensures c.Wii? && 0x1000_0000 <= a < 0x1400_0000 ==> RealHost(c)[a] == Cell(Mem2, a - 0x1000_0000, true)
  {
  }
}

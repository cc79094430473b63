// What holds in every state the trap machine can reach.
module MachineTheorems {
  import opened Words
  import opened Bat
  import opened MemMap
  import opened MemTheorems
  import opened MapAgreement
  import opened ModeSwitch
  import opened ExecRights
  import opened DefaultBats
  import opened Spr
  import opened Decoder
  import opened Machine

  // ---- Registers and flags

  ghost predicate StateInv(s: State) {
    && s.Shaped()
    && RegInv(s.env.console, s.cpu)
    && !s.needsUpdate
    && (!s.fatal ==> s.cpu.MsrValid())
  }

  lemma ExecuteInv(s: State, i: Instruction)
    requires StateInv(s) && !s.fatal && (Encodable(i) || i.Unhandled?)
    ensures var s1 := Execute(s, i);
            && RegInv(s.env.console, s1.cpu)
            && (!s1.fatal ==> s1.cpu.MsrValid())
  {
    if i.Mtspr? {
      WriteInv(s.env.console, s.cpu, i.spr, s.gpr[i.rs]);
      WriteMsr(s.env.console, s.cpu, i.spr, s.gpr[i.rs]);
    }
  }

  /** No SPR write touches the MSR, and a non-fatal one cannot set up a low-power conflict. */
  lemma WriteMsr(c: Console, cpu: Cpu, n: nat, v: Reg)
    requires cpu.Shaped() && cpu.MsrValid()
    ensures Write(c, cpu, n, v).msr == cpu.msr
    ensures !WriteFatal(c, cpu, n, v) ==> Write(c, cpu, n, v).MsrValid()
  {
  }

  lemma StepInv(s: State, w: Word)
    requires StateInv(s)
    ensures StateInv(Step(s, w))
  {
    if !s.fatal {
      ExecuteInv(s, Decode(w));
    }
  }

  lemma InitialInv(c: Console, cpu: Cpu)
    requires cpu.Shaped() && cpu.MsrValid() && cpu.bats == Default(c)
    ensures RegInv(c, InitCpu(cpu)) && InitCpu(cpu).MsrValid()
  {
    assert InitCpu(cpu).hid0 == 0 && !Bit(0, HID0_DOZE) && !Bit(0, HID0_NAP) && !Bit(0, HID0_SLEEP) by {
      BitZero(HID0_DOZE);
      BitZero(HID0_NAP);
      BitZero(HID0_SLEEP);
    }
    MaskBits();
    forall k: nat
      ensures !Bit(0, k)
      ensures Bit(HID4_RESERVED, k) ==> !Bit(HID4_ALWAYS_ONE, k)
    {
      BitZero(k);
      OneHighBit(k);
    }
  }

  /** The bit HID4 always has is the top one, and it is not among the reserved bits. */
  lemma OneHighBit(k: nat)
    ensures Bit(HID4_RESERVED, k) ==> !Bit(HID4_ALWAYS_ONE, k)
  {
    BitAnd(HID4_RESERVED, HID4_ALWAYS_ONE, k);
    BitZero(k);
    Pow2Values();
    assert Pow2(32) == 2 * Pow2(31);
    AndDrop(31, 0x8000_0000, 0, HID4_RESERVED, 1);
  }

  lemma BootInv(e: Env, rd: Reading, bs1: bool, gpr: seq<Reg>, pc: Word)
    requires |gpr| == 32 && !Boot(e, rd, bs1, gpr, pc).fatal
    ensures StateInv(Boot(e, rd, bs1, gpr, pc))
  {
    var cpu := EarlyCpu(e.console, if bs1 then 0 else MSR_TRANSLATING);
    EarlyMsr(bs1);
    BitZero(HID0_DOZE);
    BitZero(HID0_NAP);
    BitZero(HID0_SLEEP);
    InitialInv(e.console, cpu);
  }

  lemma EarlyMsr(bs1: bool)
    ensures var msr := if bs1 then 0 else MSR_TRANSLATING;
            Bit(msr, MSR_IR) == Bit(msr, MSR_DR) == !bs1
  {
    BitZero(MSR_IR);
    BitZero(MSR_DR);
    assert Bit(0x30, 5) && Bit(0x30, 4);
  }

  /** A fatal error ends the run: whatever traps come after it change nothing. */
  lemma {:induction false} FatalIsFinal(s: State, ts: seq<Trap>, n: nat)
    requires s.Shaped() && Trace(ts) && n <= |ts| && Run(s, ts[..n]).fatal
    ensures Run(s, ts) == Run(s, ts[..n])
    decreases |ts|
  {
    if n < |ts| {
      var ts' := ts[..|ts| - 1];
      assert ts'[..n] == ts[..n];
      FatalIsFinal(s, ts', n);
    } else {
      assert ts[..n] == ts;
    }
  }

  /** From any state that satisfies the invariants, all runs keep them; and a fatal error is never
      taken back nor followed by any change. */
  lemma {:induction false} RunKeepsInv(s: State, ts: seq<Trap>, n: nat)
    requires StateInv(s) && Trace(ts) && n <= |ts|
    ensures StateInv(Run(s, ts)) && (Run(s, ts[..n]).fatal ==> Run(s, ts) == Run(s, ts[..n]))
  {
    if ts != [] {
      var ts', t := ts[..|ts| - 1], ts[|ts| - 1];
      RunKeepsInv(s, ts', 0);
      StepInv(Enter(Run(s, ts'), t), t.word);
    }
    if Run(s, ts[..n]).fatal {
      FatalIsFinal(s, ts, n);
    }
  }

  /** Every reachable state keeps the reserved bits of HID2, HID4 and L2CR, the monitor
      registers and the GameCube's upper BATs at their fixed values; every reachable state
      that is not fatal has matching translation bits and no low-power conflict. */
  lemma RunInv(e: Env, rd: Reading, bs1: bool, gpr: seq<Reg>, pc: Word, ts: seq<Trap>)
    requires |gpr| == 32 && Trace(ts) && !Boot(e, rd, bs1, gpr, pc).fatal
    ensures StateInv(Run(Boot(e, rd, bs1, gpr, pc), ts))
  {
    BootInv(e, rd, bs1, gpr, pc);
    RunKeepsInv(Boot(e, rd, bs1, gpr, pc), ts, 0);
  }

  // ---- The page map over runs

  ghost predicate MapGood(s: State) { s.Shaped() && MapInv(s.env.console, s.reading, s.windows) }

  ghost predicate PagesGood(s: State) { s.Shaped() && Accounted(s.env.console, s.windows) }

  /** The run has been in real mode at some point. */
  ghost predicate BeenReal(s: State, ts: seq<Trap>)
    requires s.Shaped() && Trace(ts)
  {
    !Run(s, ts).batWindows || (ts != [] && BeenReal(s, ts[..|ts| - 1]))
  }

  /** An update keeps the map good, and makes it good if it puts the machine in real mode. */
  lemma UpdateMap(s: State, was: bool)
    requires PagesGood(s)
    ensures PagesGood(Update(s, was))
    ensures MapGood(s) ==> MapGood(Update(s, was)) && s.windows.lost <= Update(s, was).windows.lost
    ensures s.batWindows && !Update(s, was).batWindows ==> MapGood(Update(s, was))
  {
    var ir, dr := s.cpu.InstrTranslation(), s.cpu.DataTranslation();
    FixupsAccounted(s.env, s.reading, s.cpu.bats, was, ir, dr, s.windows);
    if MapGood(s) {
      FixupsInv(s.env, s.reading, s.cpu.bats, was, ir, dr, s.windows);
    }
  }

  lemma StartMap(e: Env, rd: Reading)
    ensures var m := GuestMap(InitialTables(rd), imap[], {});
            Accounted(e.console, m) && (rd.Intended? ==> MapInv(e.console, rd, m))
  {
    var m := GuestMap(InitialTables(rd), imap[], {});
    if rd.Intended? {
      assert Unused(m.t, MaxBat(e.console));
    }
  }

  /** The base case: with the intended reading of the start-up loops, or, as they are written,
      once the machine has been put in real mode. */
  lemma BootMap(e: Env, rd: Reading, bs1: bool, gpr: seq<Reg>, pc: Word)
    requires |gpr| == 32 && !Boot(e, rd, bs1, gpr, pc).fatal
    ensures PagesGood(Boot(e, rd, bs1, gpr, pc))
    ensures rd.Intended? || bs1 ==> MapGood(Boot(e, rd, bs1, gpr, pc))
  {
    StartMap(e, rd);
    EarlyMsr(bs1);
    var m0 := GuestMap(InitialTables(rd), imap[], {});
    var s0 := State(e, rd, EarlyCpu(e.console, if bs1 then 0 else MSR_TRANSLATING), m0, false, false, false, gpr, pc);
    if bs1 {
      ToRealInv(e, rd, m0);
    } else {
      UpdateMap(s0, true);
    }
  }

  /** In every reachable state, with either reading, every live page lies in a table window or in
      one whose entry was overwritten.  The pages of every table window are live and, with the
      intended reading, no table lists an address twice; with the start-up loops as written this
      holds from the first time the machine is in real mode. */
  lemma {:induction false} RunMap(e: Env, rd: Reading, bs1: bool, gpr: seq<Reg>, pc: Word, ts: seq<Trap>)
    requires |gpr| == 32 && Trace(ts) && !Boot(e, rd, bs1, gpr, pc).fatal
    ensures PagesGood(Run(Boot(e, rd, bs1, gpr, pc), ts))
    ensures rd.Intended? || BeenReal(Boot(e, rd, bs1, gpr, pc), ts) ==> MapGood(Run(Boot(e, rd, bs1, gpr, pc), ts))
  {
    var s := Boot(e, rd, bs1, gpr, pc);
    if ts == [] {
      BootMap(e, rd, bs1, gpr, pc);
      BootAgrees(e, rd, bs1, gpr, pc);
    } else {
      RunMap(e, rd, bs1, gpr, pc, ts[..|ts| - 1]);
      TrapMap(Run(s, ts[..|ts| - 1]), ts[|ts| - 1]);
    }
  }

  lemma TrapMap(s: State, t: Trap)
    requires PagesGood(s) && Arrives(t)
    ensures PagesGood(TrapStep(s, t))
    ensures MapGood(s) || (s.batWindows && !TrapStep(s, t).batWindows) ==> MapGood(TrapStep(s, t))
  {
    if !s.fatal {
      StepMap(Enter(s, t), t.word);
    }
  }

  lemma StepMap(s: State, w: Word)
    requires PagesGood(s)
    ensures PagesGood(Step(s, w))
    ensures MapGood(s) ==> MapGood(Step(s, w)) && s.windows.lost <= Step(s, w).windows.lost
    ensures s.batWindows && !Step(s, w).batWindows ==> MapGood(Step(s, w))
  {
    if !s.fatal {
      var s1 := Execute(s, Decode(w));
      if s1.needsUpdate {
        UpdateMap(s1, s.Translating());
      }
    }
  }

  // ---- Map mode and MSR

  /** The windows are the ones the MSR asks for. */
  predicate Agrees(s: State) { s.batWindows == s.Translating() }

  predicate Toggles(s: State, i: Instruction)
    requires |s.gpr| == 32 && (Encodable(i) || i.Unhandled?)
  {
    i.Mtmsr? && s.cpu.(msr := s.gpr[i.rs]).InstrTranslation() != s.cpu.InstrTranslation()
  }

  /** A non-fatal step keeps windows and MSR in agreement exactly when it is not an mtmsr that
      switches translation: mtmsr never asks for a map update. */
  lemma StepAgrees(s: State, w: Word)
    requires StateInv(s) && !s.fatal && Agrees(s) && !Step(s, w).fatal
    ensures Agrees(Step(s, w)) <==> !Toggles(s, Decode(w))
  {
    if Decode(w).Mtspr? {
      WriteMsr(s.env.console, s.cpu, Decode(w).spr, s.gpr[Decode(w).rs]);
    }
  }

  lemma BootAgrees(e: Env, rd: Reading, bs1: bool, gpr: seq<Reg>, pc: Word)
    requires |gpr| == 32 && !Boot(e, rd, bs1, gpr, pc).fatal
    ensures Agrees(Boot(e, rd, bs1, gpr, pc)) && Boot(e, rd, bs1, gpr, pc).Translating() == !bs1
  {
    EarlyMsr(bs1);
  }

  /** No trap of the run is an mtmsr that switches translation. */
  ghost predicate NeverToggles(s: State, ts: seq<Trap>)
    requires s.Shaped() && Trace(ts)
  {
    ts != [] ==>
      var ts', t := ts[..|ts| - 1], ts[|ts| - 1];
      NeverToggles(s, ts') && !Toggles(Enter(Run(s, ts'), t), Decode(t.word))
  }

  /** Over every run without such an mtmsr, every state that is not fatal has the windows its
      MSR asks for. */
  lemma {:induction false} RunAgrees(e: Env, rd: Reading, bs1: bool, gpr: seq<Reg>, pc: Word, ts: seq<Trap>)
    requires |gpr| == 32 && Trace(ts) && !Boot(e, rd, bs1, gpr, pc).fatal
    requires NeverToggles(Boot(e, rd, bs1, gpr, pc), ts)
    ensures var q := Run(Boot(e, rd, bs1, gpr, pc), ts); !q.fatal ==> Agrees(q)
  {
    var s := Boot(e, rd, bs1, gpr, pc);
    if ts == [] {
      BootAgrees(e, rd, bs1, gpr, pc);
    } else {
      var t, q := ts[|ts| - 1], Run(s, ts[..|ts| - 1]);
      RunAgrees(e, rd, bs1, gpr, pc, ts[..|ts| - 1]);
      RunInv(e, rd, bs1, gpr, pc, ts[..|ts| - 1]);
      if !q.fatal && !Run(s, ts).fatal {
        StepAgrees(Enter(q, t), t.word);
      }
    }
  }

  // ---- Real mode

  /** In real mode the tables hold the physical bases and the pages are the regions in place. */
  ghost predicate RealWindows(s: State)
    requires s.Shaped()
  {
    var c := s.env.console;
    && RealTables(c, s.windows.t)
    && forall a :: a in RealHost(c).Keys ==> a in s.windows.host.Keys && s.windows.host[a] == RealHost(c)[a]
  }

  ghost predicate RealGood(s: State) { s.Shaped() && (!s.fatal && !s.batWindows ==> RealWindows(s)) }

  lemma ToRealWindows(e: Env, m: GuestMap)
    requires m.t.Shaped() && !ToReal(e, m).failed
    ensures var q := ToReal(e, m).m;
            && q.t.Shaped() && RealTables(e.console, q.t)
            && forall a :: a in RealHost(e.console).Keys ==> a in q.host.Keys && q.host[a] == RealHost(e.console)[a]
  {
    var c := e.console;
    var m0 := UnmapAll(c, MaxBat(c), m);
    WipedUnused(m.t, MaxBat(c));
    MapPhysGet(e, Mem1, m0);
    MapPhysGet(e, Mem2, MapPhys(e, Mem1, m0));
  }

  lemma UpdateReal(s: State, was: bool)
    requires RealGood(s) && !s.fatal
    ensures RealGood(Update(s, was))
  {
    if s.cpu.InstrTranslation() == s.cpu.DataTranslation() && was && !s.cpu.InstrTranslation() {
      if !ToReal(s.env, s.windows).failed {
        ToRealWindows(s.env, s.windows);
      }
    }
  }

  lemma StepReal(s: State, w: Word)
    requires RealGood(s)
    ensures RealGood(Step(s, w))
  {
    if !s.fatal {
      var s1 := Execute(s, Decode(w));
      if s1.needsUpdate && !s1.fatal {
        UpdateReal(s1, s.Translating());
      }
    }
  }

  lemma BootReal(e: Env, rd: Reading, bs1: bool, gpr: seq<Reg>, pc: Word)
    requires |gpr| == 32 && !Boot(e, rd, bs1, gpr, pc).fatal
    ensures RealGood(Boot(e, rd, bs1, gpr, pc))
  {
    EarlyMsr(bs1);
    if bs1 {
      ToRealWindows(e, GuestMap(InitialTables(rd), imap[], {}));
    }
  }

  /** Whenever a run is in real mode, MEM1 is at 0 and, on Wii, MEM2 at 0x10000000, byte for
      byte and executable, and the tables say so. */
  lemma {:induction false} RunReal(e: Env, rd: Reading, bs1: bool, gpr: seq<Reg>, pc: Word, ts: seq<Trap>)
    requires |gpr| == 32 && Trace(ts) && !Boot(e, rd, bs1, gpr, pc).fatal
    ensures RealGood(Run(Boot(e, rd, bs1, gpr, pc), ts))
  {
    var s := Boot(e, rd, bs1, gpr, pc);
    if ts == [] {
      BootReal(e, rd, bs1, gpr, pc);
    } else {
      var t, q := ts[|ts| - 1], Run(s, ts[..|ts| - 1]);
      RunReal(e, rd, bs1, gpr, pc, ts[..|ts| - 1]);
      StepReal(Enter(q, t), t.word);
    }
  }

  /** The run stays clear of translation. */
  ghost predicate StaysReal(s: State, ts: seq<Trap>)
    requires s.Shaped() && Trace(ts)
  {
    !Run(s, ts).Translating() && (ts != [] ==> StaysReal(s, ts[..|ts| - 1]))
  }

  lemma StepStaysReal(s: State, w: Word)
    requires StateInv(s) && !s.fatal && !s.Translating()
    requires !Step(s, w).fatal && !Step(s, w).Translating()
    ensures Step(s, w).windows == s.windows && Step(s, w).batWindows == s.batWindows
  {
    if Decode(w).Mtspr? {
      WriteMsr(s.env.console, s.cpu, Decode(w).spr, s.gpr[Decode(w).rs]);
    }
  }

  /** While the guest stays in real mode, nothing it does to the BATs, or otherwise, changes
      any table or any page. */
  lemma {:induction false} RealRunKeepsMap(s: State, ts: seq<Trap>)
    requires StateInv(s) && Trace(ts) && StaysReal(s, ts) && !Run(s, ts).fatal
    ensures StateInv(Run(s, ts)) && Run(s, ts).windows == s.windows
  {
    if ts != [] {
      var ts', t := ts[..|ts| - 1], ts[|ts| - 1];
      RealRunKeepsMap(s, ts');
      StepInv(Enter(Run(s, ts'), t), t.word);
      StepStaysReal(Enter(Run(s, ts'), t), t.word);
    }
  }

  lemma RfiOut(s: State)
    requires StateInv(s) && !s.fatal && s.Translating()
    requires !Step(s, RFI_WORD).fatal && !Step(s, RFI_WORD).Translating()
    ensures var f := Fixups(s.env, s.reading, s.cpu.bats, true, false, false, s.windows);
            Step(s, RFI_WORD).windows == f.0 && !f.1
  {
  }

  lemma RfiBack(s: State)
    requires StateInv(s) && !s.fatal && !s.Translating() && Step(s, RFI_WORD).Translating()
    ensures var f := Fixups(s.env, s.reading, s.cpu.bats, false, true, true, s.windows);
            Step(s, RFI_WORD).windows == f.0 && Step(s, RFI_WORD).fatal == f.1
  {
    RfiValid(s.cpu);
  }

  /** A whole visit to real mode: rfi out of translation, any run that stays in real mode, rfi
      back.  If no window was ever overwritten, the map at the end is the one a reload of the
      BATs as they are then builds from nothing. */
  lemma RealModeVisit(s: State, ts: seq<Trap>)
    requires StateInv(s) && !s.fatal && s.Translating() && MapGood(s) && s.windows.lost == {}
    requires Trace(ts) && StaysReal(Step(s, RFI_WORD), ts)
    requires Step(Run(Step(s, RFI_WORD), ts), RFI_WORD).Translating()
    ensures var q := Run(Step(s, RFI_WORD), ts);
            var p := Reload(s.env, q.reading, q.cpu.bats, Blank(s.env.console, s.windows.t));
            Step(q, RFI_WORD).windows == p.m && Step(q, RFI_WORD).fatal == p.failed
  {
    StepInv(s, RFI_WORD);
    var s1 := Step(s, RFI_WORD);
    RealFromTheStart(s1, ts);
    RfiOut(s);
    RealRunKeepsMap(s1, ts);
    var q := Run(s1, ts);
    RfiBack(q);
    RealModeForgets(s.env, q.reading, s.cpu.bats, q.cpu.bats, s.windows);
  }

  /** A run that ends without a fatal error in real mode began that way. */
  lemma {:induction false} RealFromTheStart(s: State, ts: seq<Trap>)
    requires s.Shaped() && Trace(ts) && StaysReal(s, ts) && !Run(s, ts).fatal
    ensures !s.fatal && !s.Translating()
  {
    if ts != [] {
      RealFromTheStart(s, ts[..|ts| - 1]);
    }
  }

  /** rfi from real to translated mode, when it does not fail, leaves every granted byte that
      well-formed BATs name mapped where they name it. */
  lemma RfiAgreement(s: State)
    requires StateInv(s) && !s.fatal && !s.Translating() && s.reading.Intended?
    requires WellFormed(s.env.console, s.cpu.bats)
    requires Bit(s.cpu.srr1, MSR_IR) && !Step(s, RFI_WORD).fatal
    ensures var s', b := Step(s, RFI_WORD), s.cpu.bats;
            s'.Translating() && s'.cpu.bats == b && AllNamed(s.env, b, s'.windows.host)
  {
    RfiValid(s.cpu);
    SwitchServes(s.env, s.cpu.bats, s.windows);
  }

  // ---- Execute rights over runs

  /** Whenever the run is translating, the BATs keep one region per 256 MB aligned address.  In
      real mode they may hold anything, half-written pairs included. */
  ghost predicate OrderlyRun(s: State, ts: seq<Trap>, own: Owner)
    requires s.Shaped() && Trace(ts)
  {
    && (Run(s, ts).Translating() ==> Orderly(s.env.console, Run(s, ts).cpu.bats, own))
    && (ts != [] ==> OrderlyRun(s, ts[..|ts| - 1], own))
  }

  /** An update keeps windows serving, and makes them serve if it puts the machine in real
      mode. */
  lemma UpdateServing(s: State, was: bool, own: Owner)
    requires s.Shaped() && OwnsPhysical(own)
    requires s.Translating() ==> Orderly(s.env.console, s.cpu.bats, own)
    requires Serving(s.env.console, own, s.windows) || (s.batWindows && !Update(s, was).batWindows)
    ensures Serving(s.env.console, own, Update(s, was).windows)
  {
    if Serving(s.env.console, own, s.windows) {
      var ir, dr := s.cpu.InstrTranslation(), s.cpu.DataTranslation();
      FixupsServing(s.env, s.reading, s.cpu.bats, own, was, ir, dr, s.windows);
    } else {
      ToRealServing(s.env, own, s.windows);
    }
  }

  lemma StepServing(s: State, w: Word, own: Owner)
    requires s.Shaped() && OwnsPhysical(own)
    requires Step(s, w).Translating() ==> Orderly(s.env.console, Step(s, w).cpu.bats, own)
    requires Serving(s.env.console, own, s.windows) || (s.batWindows && !Step(s, w).batWindows)
    ensures Serving(s.env.console, own, Step(s, w).windows)
  {
    if !s.fatal {
      var s1 := Execute(s, Decode(w));
      if s1.needsUpdate {
        UpdateServing(s1, s.Translating(), own);
      }
    }
  }

  lemma UnusedServing(c: Console, own: Owner, m: GuestMap)
    requires m.t.Shaped() && Unused(m.t, MaxBat(c))
    ensures Serving(c, own, m)
  {
  }

  lemma BootServing(e: Env, rd: Reading, bs1: bool, gpr: seq<Reg>, pc: Word, own: Owner)
    requires |gpr| == 32 && !Boot(e, rd, bs1, gpr, pc).fatal && (rd.Intended? || bs1)
    requires OwnsPhysical(own) && (!bs1 ==> Orderly(e.console, Default(e.console), own))
    ensures Serving(e.console, own, Boot(e, rd, bs1, gpr, pc).windows)
  {
    var m0 := GuestMap(InitialTables(rd), imap[], {});
    EarlyMsr(bs1);
    if bs1 {
      ToRealServing(e, own, m0);
    } else {
      UnusedServing(e.console, own, m0);
      FixupsServing(e, rd, Default(e.console), own, true, true, true, m0);
    }
  }

  /** As long as, while translating, every BAT address is 256 MB aligned and keeps to one region,
      each window in the tables serves that region's bytes in order in every state of every run,
      and each instruction window in the tables is executable; with the start-up loops as
      written, from the first time the machine is in real mode. */
  lemma {:induction false} RunServing(
    e: Env, rd: Reading, bs1: bool, gpr: seq<Reg>, pc: Word, ts: seq<Trap>, own: Owner)
    requires |gpr| == 32 && Trace(ts) && !Boot(e, rd, bs1, gpr, pc).fatal
    requires rd.Intended? || BeenReal(Boot(e, rd, bs1, gpr, pc), ts)
    requires OwnsPhysical(own) && OrderlyRun(Boot(e, rd, bs1, gpr, pc), ts, own)
    ensures Serving(e.console, own, Run(Boot(e, rd, bs1, gpr, pc), ts).windows)
  {
    var s := Boot(e, rd, bs1, gpr, pc);
    if ts == [] {
      BootAgrees(e, rd, bs1, gpr, pc);
      BootServing(e, rd, bs1, gpr, pc, own);
    } else {
      var ts', t := ts[..|ts| - 1], ts[|ts| - 1];
      if rd.Intended? || BeenReal(s, ts') {
        RunServing(e, rd, bs1, gpr, pc, ts', own);
      }
      if !Run(s, ts').fatal {
        StepServing(Enter(Run(s, ts'), t), t.word, own);
      }
    }
  }

  // ---- Read-after-write through instruction words

  /** The words for mtspr and then mfspr of the same SPR bring back the canonical form of the
      value, whatever the registers involved. */
  lemma WriteThenRead(s: State, rs: nat, rd: nat, n: nat)
    requires s.Shaped() && rs < 32 && rd < 32 && n < 1024 && !s.fatal
    requires var s1 := Step(s, Encode(Mtspr(rs, n)));
             !s1.fatal && !Step(s1, Encode(Mfspr(rd, n))).fatal
    ensures var s2 := Step(Step(s, Encode(Mtspr(rs, n))), Encode(Mfspr(rd, n)));
            && s2.gpr[rd] == Canonical(SlotOf(n), s.cpu, s.gpr[rs])
            && s2.pc == NextPc(NextPc(s.pc))
  {
    DecodeInverts(Mtspr(rs, n));
    DecodeInverts(Mfspr(rd, n));
    ReadAfterWrite(s.env.console, s.cpu, n, s.gpr[rs]);
  }
}

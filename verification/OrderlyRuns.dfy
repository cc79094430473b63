// Runs that do write BATs while translating.  Old windows then stay behind, but as long as the
// BATs keep one region per 256 MB aligned address, what they name is still where they name it,
// and executable exactly when the last update took no execute right away.
module OrderlyRuns {
  import opened Words
  import opened Bat
  import opened MemMap
  import opened MemTheorems
  import opened MapAgreement
  import opened ModeSwitch
  import opened ExecRights
  import opened ExecExactly
  import opened DefaultBats
  import opened Spr
  import opened Decoder
  import opened Machine
  import opened MachineTheorems
  import opened WrittenAgreement

  /** Every live page, left behind or not, is the byte its segment's owner has there. */
  ghost predicate Owned(own: Owner, h: Host) {
    forall a :: a in h.Keys ==> h[a].region == own(a - a % SEGMENT) && h[a].offset == a % SEGMENT
  }

  lemma OverlayOwned(c: Console, own: Owner, h: Host, r: Region, base: Word, exec: bool)
    requires Owned(own, h) && base % SEGMENT == 0 && own(base) == r
    ensures Owned(own, Overlay(h, base, RegionSize(c, r), r, exec))
  {
    forall a | Covers(base, RegionSize(c, r), a)
      ensures a % SEGMENT == a - base
    {
      DivUnique(a, SEGMENT, base / SEGMENT, a - base);
    }
  }

  lemma StepOwned(e: Env, rd: Reading, b: Bats, own: Owner, k: Kind, i: nat, p: Pass)
    requires b.Shaped() && p.m.t.Shaped() && Orderly(e.console, b, own) && Owned(own, p.m.host)
    requires i < MaxBat(e.console) && !p.failed
    ensures Owned(own, BatStep(e, rd, b, k, i, p).m.host)
  {
    StepCases(e, rd, b, k, i, p);
    if BatStep(e, rd, b, k, i, p).m != p.m {
      assert Maps(e.console, b, k, i);
      OverlayOwned(e.console, own, p.m.host, b.RegionOf(e.console, k, i).value, b.BepiAt(k, i), k.Instr?);
    }
  }

  lemma {:induction false} PassesOwned(e: Env, rd: Reading, b: Bats, own: Owner, n: nat, p: Pass)
    requires b.Shaped() && p.m.t.Shaped() && Orderly(e.console, b, own) && Owned(own, p.m.host)
    requires n <= MaxBat(e.console) && !p.failed
    ensures Owned(own, Passes(e, rd, b, n, p).m.host)
  {
    if n != 0 {
      PassesOwned(e, rd, b, own, n - 1, p);
      var q := Passes(e, rd, b, n - 1, p);
      if !q.failed {
        StepOwned(e, rd, b, own, Instr, n - 1, q);
        var q1 := BatStep(e, rd, b, Instr, n - 1, q);
        if !q1.failed {
          StepOwned(e, rd, b, own, Data, n - 1, q1);
        }
      }
    }
  }

  lemma ToRealOwned(e: Env, own: Owner, m: GuestMap)
    requires m.t.Shaped() && OwnsPhysical(own) && Owned(own, m.host)
    ensures Owned(own, ToReal(e, m).m.host)
  {
    var m0 := UnmapAll(e.console, MaxBat(e.console), m);
    OverlayOwned(e.console, own, m0.host, Mem1, MEM1_PADDR, true);
    OverlayOwned(e.console, own, MapPhys(e, Mem1, m0).host, Mem2, MEM2_PADDR, true);
  }

  // ---- What a translating state promises

  /** With every window held and every page owned, what the BATs name is where they name it. */
  lemma HeldIsNamed(e: Env, b: Bats, own: Owner, h: Host, k: Kind, v: Word, r: Region, o: int)
    requires b.Shaped() && Orderly(e.console, b, own) && Owned(own, h) && AllHeld(e, b, h, MaxBat(e.console))
    requires Names(e.console, b, k, v, r, o) && Granted(e, b, k, v)
    ensures v in h.Keys && h[v].region == r && h[v].offset == o
  {
    assert NoStrangers(e.console, b) by {
      forall k2: Kind, j | 0 <= j < MaxBat(e.console) && !b.Empty(k2, j)
        ensures b.RegionOf(e.console, k2, j).Some?
      {
        assert Held(e, b, h, k2, j);
      }
    }
    WinnerPhys(e.console, b, k, v);
    var i := FirstHit(b.Upper(k), v, MaxBat(e.console));
    assert Held(e, b, h, k, i);
    var w := b.BepiAt(k, i);
    DivUnique(v, SEGMENT, w / SEGMENT, v - w);
  }

  // ---- Over runs

  /** Every granted byte the BATs name is mapped where they name it, executable or not. */
  ghost predicate AllNamedData(e: Env, b: Bats, h: Host)
    requires b.Shaped()
  {
    forall k: Kind, v: Word, r: Region, o: int ::
      Names(e.console, b, k, v, r, o) && Granted(e, b, k, v) ==>
        v in h.Keys && h[v].region == r && h[v].offset == o
  }

  ghost predicate WellKept(s: State, own: Owner) {
    && s.Shaped()
    && (!s.fatal ==>
          && Owned(own, s.windows.host)
          && (s.batWindows ==> AllHeld(s.env, s.cpu.bats, s.windows.host, MaxBat(s.env.console))))
  }

  lemma UpdateKept(s: State, was: bool, own: Owner)
    requires MapGood(s) && s.reading.Intended? && OwnsPhysical(own) && Owned(own, s.windows.host)
    requires s.Translating() ==> Orderly(s.env.console, s.cpu.bats, own)
    requires s.batWindows == was
    ensures WellKept(Update(s, was), own)
  {
    var e, c := s.env, s.env.console;
    if s.cpu.InstrTranslation() == s.cpu.DataTranslation() && !Update(s, was).fatal {
      if s.Translating() {
        var m1 := if was then s.windows else UnmapAll(c, MaxBat(c), s.windows);
        WipedUnused(s.windows.t, MaxBat(c));
        UnmapLeavesLost(c, s.windows);
        UnusedInv(c, Intended, UnmapAll(c, MaxBat(c), s.windows));
        PassesOwned(e, Intended, s.cpu.bats, own, MaxBat(c), Pass(m1, 0, false));
        PassesHeld(e, s.cpu.bats, MaxBat(c), Pass(m1, 0, false));
      } else if was {
        ToRealOwned(e, own, s.windows);
      }
    }
  }

  lemma StepKept(s: State, w: Word, own: Owner)
    requires StateInv(s) && MapGood(s) && s.reading.Intended? && OwnsPhysical(own) && WellKept(s, own)
    requires !s.fatal ==> Agrees(s)
    requires Step(s, w).Translating() ==> Orderly(s.env.console, Step(s, w).cpu.bats, own)
    ensures WellKept(Step(s, w), own)
  {
    if !s.fatal {
      var s1 := Execute(s, Decode(w));
      BatsAsked(s, Decode(w));
      if s1.needsUpdate && !s1.fatal {
        UpdateKept(s1, s.Translating(), own);
      }
    }
  }

  lemma BatsAsked(s: State, i: Instruction)
    requires StateInv(s) && !s.fatal && (Encodable(i) || i.Unhandled?)
    ensures Execute(s, i).needsUpdate || Execute(s, i).cpu.bats == s.cpu.bats
  {
  }

  lemma BootKept(e: Env, bs1: bool, gpr: seq<Reg>, pc: Word, own: Owner)
    requires |gpr| == 32 && !Boot(e, Intended, bs1, gpr, pc).fatal
    requires OwnsPhysical(own) && (!bs1 ==> Orderly(e.console, Default(e.console), own))
    ensures WellKept(Boot(e, Intended, bs1, gpr, pc), own)
  {
    EarlyMsr(bs1);
    StartMap(e, Intended);
    var m0 := GuestMap(InitialTables(Intended), imap[], {});
    if bs1 {
      ToRealOwned(e, own, m0);
    } else {
      var cpu := EarlyCpu(e.console, MSR_TRANSLATING);
      UpdateKept(State(e, Intended, cpu, m0, true, false, false, gpr, pc), true, own);
    }
  }

  lemma {:induction false} RunKept(e: Env, bs1: bool, gpr: seq<Reg>, pc: Word, ts: seq<Trap>, own: Owner)
    requires |gpr| == 32 && Trace(ts) && !Boot(e, Intended, bs1, gpr, pc).fatal
    requires NeverToggles(Boot(e, Intended, bs1, gpr, pc), ts)
    requires OwnsPhysical(own) && OrderlyRun(Boot(e, Intended, bs1, gpr, pc), ts, own)
    ensures WellKept(Run(Boot(e, Intended, bs1, gpr, pc), ts), own)
  {
    var s := Boot(e, Intended, bs1, gpr, pc);
    if ts == [] {
      BootAgrees(e, Intended, bs1, gpr, pc);
      BootKept(e, bs1, gpr, pc, own);
    } else {
      var t, ts' := ts[|ts| - 1], ts[..|ts| - 1];
      RunKept(e, bs1, gpr, pc, ts', own);
      RunInv(e, Intended, bs1, gpr, pc, ts');
      RunMap(e, Intended, bs1, gpr, pc, ts');
      RunAgrees(e, Intended, bs1, gpr, pc, ts');
      StepKept(Enter(Run(s, ts'), t), t.word, own);
    }
  }

  /** Over every run that switches translation by rfi only, BAT writes while translating included,
      every granted byte the BATs of a translating state name is mapped where they name it, as
      long as the BATs were orderly whenever the guest was translating.  Windows that writes left
      behind are never in the way. */
  lemma RunNamesData(e: Env, bs1: bool, gpr: seq<Reg>, pc: Word, ts: seq<Trap>, own: Owner)
    requires |gpr| == 32 && Trace(ts) && !Boot(e, Intended, bs1, gpr, pc).fatal
    requires NeverToggles(Boot(e, Intended, bs1, gpr, pc), ts)
    requires OwnsPhysical(own) && OrderlyRun(Boot(e, Intended, bs1, gpr, pc), ts, own)
    ensures var q := Run(Boot(e, Intended, bs1, gpr, pc), ts);
            !q.fatal && q.Translating() ==> AllNamedData(e, q.cpu.bats, q.windows.host)
  {
    var q := Run(Boot(e, Intended, bs1, gpr, pc), ts);
    RunKept(e, bs1, gpr, pc, ts, own);
    RunAgrees(e, Intended, bs1, gpr, pc, ts);
    if !q.fatal && q.Translating() {
      var b, h := q.cpu.bats, q.windows.host;
      forall k: Kind, v: Word, r: Region, o: int | Names(e.console, b, k, v, r, o) && Granted(e, b, k, v)
        ensures v in h.Keys && h[v].region == r && h[v].offset == o
      {
        HeldIsNamed(e, b, own, h, k, v, r, o);
      }
    }
  }

  // ---- Execute rights over runs

  /** The last update of the run that was made while translating took no execute right away from
      a byte the instruction BATs name, or a switch to translated mode came after it. */
  ghost predicate RightsKept(s: State, ts: seq<Trap>)
    requires s.Shaped() && Trace(ts)
  {
    ts != [] ==>
      var ts', t := ts[..|ts| - 1], ts[|ts| - 1];
      var q := Enter(Run(s, ts'), t);
      var s1 := Execute(q, Decode(t.word));
      if q.fatal || !s1.needsUpdate then RightsKept(s, ts')
      else !q.Translating() || KeepsRights(s.env, s1.cpu.bats, q.windows.t)
  }

  /** Exactly when an update that ends translating leaves what the instruction BATs name
      executable. */
  lemma UpdateRights(s: State, was: bool, own: Owner)
    requires s.Shaped() && s.reading.Intended? && OwnsPhysical(own) && s.Translating() && !Update(s, was).fatal
    requires Orderly(s.env.console, s.cpu.bats, own) && Serving(s.env.console, own, s.windows)
    ensures AllRun(s.env, s.cpu.bats, Update(s, was).windows.host)
       <==> (was ==> KeepsRights(s.env, s.cpu.bats, s.windows.t))
  {
    var e, b, c := s.env, s.cpu.bats, s.env.console;
    WipedUnused(s.windows.t, MaxBat(c));
    var m1 := if was then s.windows else UnmapAll(c, MaxBat(c), s.windows);
    UnusedServing(c, own, UnmapAll(c, MaxBat(c), s.windows));
    PassesNoStrangers(e, Intended, b, Pass(m1, 0, false));
    ReloadRuns(e, b, own, m1);
    if !was {
      FreshKeepsRights(e, b, own, m1.t);
    }
  }

  ghost predicate RightsInv(s: State, kept: bool)
    requires s.Shaped()
  {
    !s.fatal && s.batWindows ==> (AllRun(s.env, s.cpu.bats, s.windows.host) <==> kept)
  }

  lemma StartRights(e: Env, b: Bats, own: Owner, m: GuestMap)
    requires b.Shaped() && m.t.Shaped() && Orderly(e.console, b, own) && Unused(m.t, MaxBat(e.console))
    requires !Reload(e, Intended, b, m).failed
    ensures AllRun(e, b, Reload(e, Intended, b, m).m.host)
  {
    UnusedServing(e.console, own, m);
    PassesNoStrangers(e, Intended, b, Pass(m, 0, false));
    FreshKeepsRights(e, b, own, m.t);
    ReloadRuns(e, b, own, m);
  }

  lemma BootRights(e: Env, bs1: bool, gpr: seq<Reg>, pc: Word, own: Owner)
    requires |gpr| == 32 && !Boot(e, Intended, bs1, gpr, pc).fatal
    requires OwnsPhysical(own) && (!bs1 ==> Orderly(e.console, Default(e.console), own))
    ensures RightsInv(Boot(e, Intended, bs1, gpr, pc), true)
  {
    EarlyMsr(bs1);
    BootAgrees(e, Intended, bs1, gpr, pc);
    if !bs1 {
      StartRights(e, Default(e.console), own, GuestMap(InitialTables(Intended), imap[], {}));
    }
  }

  lemma StepRights(s: State, w: Word, own: Owner, kept: bool)
    requires StateInv(s) && s.reading.Intended? && OwnsPhysical(own) && Serving(s.env.console, own, s.windows)
    requires RightsInv(s, kept) && !s.fatal && Agrees(s)
    requires Step(s, w).Translating() ==> Orderly(s.env.console, Step(s, w).cpu.bats, own)
    ensures var s1 := Execute(s, Decode(w));
            RightsInv(Step(s, w), if !s1.needsUpdate then kept
                                  else !s.Translating() || KeepsRights(s.env, s1.cpu.bats, s.windows.t))
  {
    var s1 := Execute(s, Decode(w));
    BatsAsked(s, Decode(w));
    if s1.needsUpdate && !Step(s, w).fatal && s1.Translating() {
      UpdateRights(s1, s.Translating(), own);
    }
  }

  lemma {:induction false} RunRights(e: Env, bs1: bool, gpr: seq<Reg>, pc: Word, ts: seq<Trap>, own: Owner)
    requires |gpr| == 32 && Trace(ts) && !Boot(e, Intended, bs1, gpr, pc).fatal
    requires NeverToggles(Boot(e, Intended, bs1, gpr, pc), ts)
    requires OwnsPhysical(own) && OrderlyRun(Boot(e, Intended, bs1, gpr, pc), ts, own)
    ensures RightsInv(Run(Boot(e, Intended, bs1, gpr, pc), ts), RightsKept(Boot(e, Intended, bs1, gpr, pc), ts))
  {
    var s := Boot(e, Intended, bs1, gpr, pc);
    if ts == [] {
      BootAgrees(e, Intended, bs1, gpr, pc);
      BootRights(e, bs1, gpr, pc, own);
    } else {
      var t, ts' := ts[|ts| - 1], ts[..|ts| - 1];
      RunRights(e, bs1, gpr, pc, ts', own);
      RunInv(e, Intended, bs1, gpr, pc, ts');
      RunServing(e, Intended, bs1, gpr, pc, ts', own);
      RunAgrees(e, Intended, bs1, gpr, pc, ts');
      if !Run(s, ts').fatal {
        StepRights(Enter(Run(s, ts'), t), t.word, own, RightsKept(s, ts'));
      }
    }
  }

  /** Over the same runs, every granted byte the BATs of a translating state name is mapped where
      they name it and executable where the instruction BATs name it, if and only if the last
      update took no right away. */
  lemma RunNames(e: Env, bs1: bool, gpr: seq<Reg>, pc: Word, ts: seq<Trap>, own: Owner)
    requires |gpr| == 32 && Trace(ts) && !Boot(e, Intended, bs1, gpr, pc).fatal
    requires NeverToggles(Boot(e, Intended, bs1, gpr, pc), ts)
    requires OwnsPhysical(own) && OrderlyRun(Boot(e, Intended, bs1, gpr, pc), ts, own)
    ensures var q := Run(Boot(e, Intended, bs1, gpr, pc), ts);
            !q.fatal && q.Translating() ==>
              (AllNamed(e, q.cpu.bats, q.windows.host) <==> RightsKept(Boot(e, Intended, bs1, gpr, pc), ts))
  {
    RunNamesData(e, bs1, gpr, pc, ts, own);
    RunRights(e, bs1, gpr, pc, ts, own);
    RunAgrees(e, Intended, bs1, gpr, pc, ts);
    var q := Run(Boot(e, Intended, bs1, gpr, pc), ts);
    if !q.fatal && q.Translating() {
      BothHalves(e, q.cpu.bats, q.windows.host);
    }
  }

  lemma BothHalves(e: Env, b: Bats, h: Host)
    requires b.Shaped()
    ensures AllNamed(e, b, h) <==> AllNamedData(e, b, h) && AllRun(e, b, h)
  {
  }
}

// Over whole runs: while the guest translates, the page map is a function of its BATs, and the
// bytes they name are where they name them.
module RunAgreement {
  import opened Words
  import opened Bat
  import opened MemMap
  import opened MemTheorems
  import opened MapAgreement
  import opened ModeSwitch
  import opened DefaultBats
  import opened Spr
  import opened Decoder
  import opened Machine
  import opened MachineTheorems

  predicate WritesBat(i: Instruction) { i.Mtspr? && WriteTouchesMap(i.spr) }

  /** No trap of the run writes a BAT while the guest translates. */
  ghost predicate NeverRewrites(s: State, ts: seq<Trap>)
    requires s.Shaped() && Trace(ts)
  {
    ts != [] ==>
      var ts', t := ts[..|ts| - 1], ts[|ts| - 1];
      NeverRewrites(s, ts') && !(Run(s, ts').Translating() && WritesBat(Decode(t.word)))
  }

  /** Nothing mapped, every table entry unused. */
  ghost function Nothing(): (m: GuestMap)
    ensures m.t.Shaped() && Unused(m.t, 8) && m.host == imap[] && m.lost == {}
  {
    GuestMap(InitialTables(Intended), imap[], {})
  }

  /** What a reload of these BATs builds from nothing. */
  ghost function Built(e: Env, b: Bats): (q: Pass)
    requires b.Shaped()
    ensures q.m.t.Shaped()
  {
    Reload(e, Intended, b, Nothing())
  }

  /** Unmapping everything leaves nothing at all. */
  ghost predicate Clean(c: Console, m: GuestMap)
    requires m.t.Shaped()
  {
    Accounted(c, m) && m.lost == {} && WipeTables(m.t, MaxBat(c)) == Nothing().t
  }

  lemma CleanUnmaps(c: Console, m: GuestMap)
    requires m.t.Shaped() && Clean(c, m)
    ensures UnmapAll(c, MaxBat(c), m) == Nothing()
  {
    UnmapLeavesLost(c, m);
  }

  lemma NothingClean(c: Console)
    ensures Clean(c, Nothing())
  {
    forall r, k
      ensures WipeTables(Nothing().t, MaxBat(c)).Get(r, k) == Nothing().t.Get(r, k)
    {
      WipeGet(Nothing().t, MaxBat(c), r, k);
    }
    TablesEqual(WipeTables(Nothing().t, MaxBat(c)), Nothing().t);
  }

  lemma BuiltClean(e: Env, b: Bats)
    requires b.Shaped()
    ensures Clean(e.console, Built(e, b).m)
  {
    var n, p := MaxBat(e.console), Pass(Nothing(), 0, false);
    NothingClean(e.console);
    PassesInv(e, Intended, b, n, p);
    PassesSlots(e, Intended, b, n, p);
    SlotsWipe(Nothing().t, Built(e, b).m.t, n);
  }

  /** The map of a machine that is not fatal: while it has BAT windows, what its BATs build from
      nothing; in real mode, windows that unmap to nothing. */
  ghost predicate Current(s: State) {
    && s.Shaped()
    && (!s.fatal ==>
          && Clean(s.env.console, s.windows)
          && (s.batWindows ==>
                s.windows == Built(s.env, s.cpu.bats).m && !Built(s.env, s.cpu.bats).failed))
  }

  /** An update by an instruction that leaves the BATs alone, or by one in real mode. */
  lemma UpdateCurrent(s: State, was: bool, bats: Bats)
    requires s.Shaped() && s.reading.Intended? && !s.fatal && bats.Shaped()
    requires Current(s.(cpu := s.cpu.(bats := bats))) && s.batWindows == was
    requires was ==> bats == s.cpu.bats
    ensures Current(Update(s, was))
  {
    var e, b, c := s.env, s.cpu.bats, s.env.console;
    var ir, dr := s.cpu.InstrTranslation(), s.cpu.DataTranslation();
    if ir == dr && was && !ir {
      if !ToReal(e, s.windows).failed {
        ToRealExact(e, s.windows);
        RealAccounted(c, ToReal(e, s.windows).m);
      }
    } else if ir == dr && ir {
      BuiltClean(e, b);
      if was {
        ReloadIdempotent(e, b, Nothing());
      } else {
        CleanUnmaps(c, s.windows);
      }
    }
  }

  /** An instruction changes the BATs only by writing one, which asks for an update, and changes
      nothing else that matters to the map. */
  lemma ExecuteCurrent(s: State, i: Instruction)
    requires StateInv(s) && !s.fatal && (Encodable(i) || i.Unhandled?)
    ensures var s1 := Execute(s, i);
            && s1.batWindows == s.batWindows
            && (WritesBat(i) ==> s1.needsUpdate)
            && (!WritesBat(i) ==> s1.cpu.bats == s.cpu.bats)
  {
  }

  lemma StepCurrent(s: State, w: Word)
    requires StateInv(s) && s.reading.Intended? && Current(s)
    requires !s.fatal ==> Agrees(s) && !(s.Translating() && WritesBat(Decode(w)))
    ensures Current(Step(s, w))
  {
    if !s.fatal {
      var i := Decode(w);
      var s1 := Execute(s, i);
      ExecuteCurrent(s, i);
      assert Current(s1.(cpu := s1.cpu.(bats := s.cpu.bats)));
      if s1.needsUpdate && !s1.fatal {
        UpdateCurrent(s1, s.Translating(), s.cpu.bats);
      }
    }
  }

  lemma BootCurrent(e: Env, bs1: bool, gpr: seq<Reg>, pc: Word)
    requires |gpr| == 32 && !Boot(e, Intended, bs1, gpr, pc).fatal
    ensures Current(Boot(e, Intended, bs1, gpr, pc))
  {
    EarlyMsr(bs1);
    NothingClean(e.console);
    if bs1 {
      ToRealExact(e, Nothing());
      RealAccounted(e.console, ToReal(e, Nothing()).m);
    } else {
      BuiltClean(e, Default(e.console));
    }
  }

  lemma {:induction false} RunCurrent(e: Env, bs1: bool, gpr: seq<Reg>, pc: Word, ts: seq<Trap>)
    requires |gpr| == 32 && Trace(ts) && !Boot(e, Intended, bs1, gpr, pc).fatal
    requires NeverToggles(Boot(e, Intended, bs1, gpr, pc), ts) && NeverRewrites(Boot(e, Intended, bs1, gpr, pc), ts)
    ensures Current(Run(Boot(e, Intended, bs1, gpr, pc), ts))
  {
    var s := Boot(e, Intended, bs1, gpr, pc);
    if ts == [] {
      BootCurrent(e, bs1, gpr, pc);
    } else {
      var t, ts' := ts[|ts| - 1], ts[..|ts| - 1];
      RunCurrent(e, bs1, gpr, pc, ts');
      RunInv(e, Intended, bs1, gpr, pc, ts');
      RunAgrees(e, Intended, bs1, gpr, pc, ts');
      StepCurrent(Enter(Run(s, ts'), t), t.word);
    }
  }

  /** The page map has no memory.  Over every run that switches translation by rfi only and writes
      BATs in real mode only, whatever real-mode visits it made and whatever BATs it had, the
      tables and pages of a translating state are those its own BATs build from nothing. */
  lemma RunMapIsBuilt(e: Env, bs1: bool, gpr: seq<Reg>, pc: Word, ts: seq<Trap>)
    requires |gpr| == 32 && Trace(ts) && !Boot(e, Intended, bs1, gpr, pc).fatal
    requires NeverToggles(Boot(e, Intended, bs1, gpr, pc), ts) && NeverRewrites(Boot(e, Intended, bs1, gpr, pc), ts)
    ensures var q := Run(Boot(e, Intended, bs1, gpr, pc), ts);
            !q.fatal && q.Translating() ==>
              q.windows == Built(e, q.cpu.bats).m && !Built(e, q.cpu.bats).failed
  {
    RunCurrent(e, bs1, gpr, pc, ts);
    RunAgrees(e, Intended, bs1, gpr, pc, ts);
  }

  /** In every such state with well-formed BATs each granted byte they name is mapped where they
      name it.  Nothing else is mapped if and only if an active BAT vouches for each window, and
      nothing else executable if and only if an active instruction BAT does. */
  lemma RunAgreesWithBats(e: Env, bs1: bool, gpr: seq<Reg>, pc: Word, ts: seq<Trap>)
    requires |gpr| == 32 && Trace(ts) && !Boot(e, Intended, bs1, gpr, pc).fatal
    requires NeverToggles(Boot(e, Intended, bs1, gpr, pc), ts) && NeverRewrites(Boot(e, Intended, bs1, gpr, pc), ts)
    requires var q := Run(Boot(e, Intended, bs1, gpr, pc), ts);
             !q.fatal && q.Translating() && WellFormed(e.console, q.cpu.bats)
    ensures var q := Run(Boot(e, Intended, bs1, gpr, pc), ts);
            var b, h := q.cpu.bats, q.windows.host;
            && AllNamed(e, b, h)
            && (OnlyNamed(e.console, b, h) <==> AllVouched(e, b))
            && (OnlyNamedRuns(e.console, b, h) <==> InstrVouched(e, b))
  {
    var q := Run(Boot(e, Intended, bs1, gpr, pc), ts);
    RunMapIsBuilt(e, bs1, gpr, pc, ts);
    BuiltAgrees(e, q.cpu.bats);
  }

  lemma BuiltAgrees(e: Env, b: Bats)
    requires b.Shaped() && WellFormed(e.console, b) && !Built(e, b).failed
    ensures var h := Built(e, b).m.host;
            && AllNamed(e, b, h)
            && (OnlyNamed(e.console, b, h) <==> AllVouched(e, b))
            && (OnlyNamedRuns(e.console, b, h) <==> InstrVouched(e, b))
  {
    ReloadServes(e, b, Nothing());
    ReloadServesExactly(e, b, Nothing());
  }

  lemma DefaultVouched(e: Env)
    ensures AllVouched(e, Default(e.console)) && InstrVouched(e, Default(e.console))
  {
    var b := Default(e.console);
    forall k: Kind, i | 0 <= i < MaxBat(e.console) && WindowGranted(e, b, k, i)
      ensures Vouched(e.console, b, k, i, k)
    {
      DefaultUse(e.console, k, i);
      assert VouchedBy(e.console, b, k, i, k, i);
    }
  }

  /** An ordinary image starts with exactly the bytes that the default BATs name. */
  lemma OrdinaryStart(e: Env, gpr: seq<Reg>, pc: Word)
    requires |gpr| == 32 && !Boot(e, Intended, false, gpr, pc).fatal
    ensures var b, h := Default(e.console), Boot(e, Intended, false, gpr, pc).windows.host;
            AllNamed(e, b, h) && OnlyNamed(e.console, b, h) && OnlyNamedRuns(e.console, b, h)
  {
    DefaultWellFormed(e.console);
    DefaultVouched(e);
    BootAgrees(e, Intended, false, gpr, pc);
    RunAgreesWithBats(e, false, gpr, pc, []);
  }
}

// The first reload of an ordinary image: from the tables the start-up loops leave, as intended
// or as written, it maps the default BATs on an empty host.  This file says which pages the
// guest starts with, and when the code as written maps the intended ones.
module StartUp {
  import opened Words
  import opened Bat
  import opened MemMap
  import opened MemTheorems
  import opened DefaultBats
  import opened Decoder
  import opened Lookups
  import opened ModeSwitch
  import opened StaleProbe
  import opened Spr
  import opened Machine
  import opened MachineTheorems

  const MEM1_CACHED: Word := 0x8000_0000
  const MEM1_UNCACHED: Word := 0xC000_0000
  const MEM2_CACHED: Word := 0x9000_0000
  const MEM2_UNCACHED: Word := 0xD000_0000

  predicate Grants(e: Env, v: Word, r: Region) { e.accepts(v, RegionSize(e.console, r)) }

  /** The host after a request for one window. */
  ghost function Request(e: Env, h: Host, v: Word, r: Region, exec: bool): Host {
    if Grants(e, v, r) then Overlay(h, v, RegionSize(e.console, r), r, exec) else h
  }

  /** MEM1's pages, once both of its windows have been asked for. */
  ghost function Mem1Pages(e: Env, exec: bool): Host {
    Request(e, Request(e, imap[], MEM1_CACHED, Mem1, exec), MEM1_UNCACHED, Mem1, false)
  }

  /** The pages the guest starts with; exec says whether cached MEM1 is executable. */
  ghost function StartPages(e: Env, exec: bool): Host {
    if !Grants(e, MEM1_CACHED, Mem1) then imap[]
    else if e.console.GameCube? then Mem1Pages(e, exec)
    else if !Grants(e, MEM2_CACHED, Mem2) then Mem1Pages(e, exec)
    else Request(e, Request(e, Mem1Pages(e, exec), MEM2_CACHED, Mem2, true), MEM2_UNCACHED, Mem2, false)
  }

  predicate StartFails(e: Env) {
    !Grants(e, MEM1_CACHED, Mem1) || (e.console.Wii? && !Grants(e, MEM2_CACHED, Mem2))
  }

  /** What start-up leaves in every table entry. */
  function Filler(rd: Reading): Word { if rd.Intended? then FAILED else 0 }

  /** The look-up for instruction BAT 0 finds its address by mistake. */
  predicate FoundByMistake(rd: Reading) { rd == AsWritten(0) }

  /** What the proofs need to know of the default BATs: which are in use, where, for what. */
  ghost predicate LikeDefault(c: Console, b: Bats) {
    && b.Shaped()
    && forall k: Kind, i :: 0 <= i < MaxBat(c) ==>
         && (!b.Empty(k, i) <==> InUse(c, k, i))
         && (InUse(c, k, i) ==> b.RegionOf(c, k, i) == Some(if i < 4 then Mem1 else Mem2)
                                && b.BepiAt(k, i) == AddressInUse(i))
  }

  /** The first n BATs of the first reload. */
  ghost function First(e: Env, rd: Reading, b: Bats, n: nat): (p: Pass)
    requires b.Shaped() && n <= 8
    ensures p.m.t.Shaped()
  {
    Passes(e, rd, b, n, Pass(GuestMap(InitialTables(rd), imap[], {}), InitialAddress(rd), false))
  }

  /** One window asked for: the look-up finds nothing and the window is installed. */
  lemma AskStep(e: Env, rd: Reading, b: Bats, k: Kind, i: nat, p: Pass, r: Region, v: Word)
    requires i < MaxBat(e.console) && p.m.t.Shaped() && !p.failed && LikeDefault(e.console, b)
    requires !b.Empty(k, i) && b.RegionOf(e.console, k, i) == Some(r) && b.BepiAt(k, i) == v
    requires var probe := if k.Data? || rd.Intended? then v else p.vaddr;
             forall j :: 0 <= j < 8 ==>
               p.m.t.Get(r, Instr)[j] != probe && (k.Data? ==> p.m.t.Get(r, Data)[j] != probe)
    ensures var q := BatStep(e, rd, b, k, i, p);
            && q.vaddr == v && q.m.host == Request(e, p.m.host, v, r, k.Instr?)
            && q.failed == (!Grants(e, v, r) && RefusalIsFatal(e.console, k, v))
            && forall r2, k2, j :: 0 <= j < 8 ==>
                 q.m.t.Get(r2, k2)[j] == if (r2, k2, j) != (r, k, i) then p.m.t.Get(r2, k2)[j]
                                         else if Grants(e, v, r) then v else FAILED
  {
    SetGet(p.m.t, r, k, i, if Grants(e, v, r) then v else FAILED);
  }

  /** A window already in the instruction table is not asked for again. */
  lemma SkipStep(e: Env, rd: Reading, b: Bats, k: Kind, i: nat, p: Pass, r: Region)
    requires i < MaxBat(e.console) && p.m.t.Shaped() && !p.failed && LikeDefault(e.console, b)
    requires !b.Empty(k, i) && b.RegionOf(e.console, k, i) == Some(r)
    requires p.m.t.Get(r, Instr)[i] == if k.Data? || rd.Intended? then b.BepiAt(k, i) else p.vaddr
    ensures var q := BatStep(e, rd, b, k, i, p);
            q == p.(vaddr := if k.Data? || rd.Intended? then b.BepiAt(k, i) else p.vaddr)
  {
    assert p.m.t.Get(r, Instr)[..MaxBat(e.console)][i] == p.m.t.Get(r, Instr)[i];
  }

  lemma Next(e: Env, rd: Reading, b: Bats, n: nat)
    requires b.Shaped() && n < 8 && !First(e, rd, b, n).failed
    ensures First(e, rd, b, n + 1) == PairStep(e, rd, b, n, First(e, rd, b, n))
  {
  }

  lemma NextIsEmpty(e: Env, rd: Reading, b: Bats, n: nat)
    requires b.Shaped() && n < 8 && !First(e, rd, b, n).failed && b.Empty(Instr, n) && b.Empty(Data, n)
    ensures First(e, rd, b, n + 1) == First(e, rd, b, n)
  {
  }

  /** The tables after MEM1's cached window, which is in the instruction table or, by mistake,
      in the data table. */
  ghost predicate Mem1Cached(t: Tables, rd: Reading)
    requires t.Shaped()
  {
    forall r: Region, k: Kind, j :: 0 <= j < 8 ==>
      t.Get(r, k)[j] == if r == Mem1 && j == 0 && k.Data? == FoundByMistake(rd) then MEM1_CACHED else Filler(rd)
  }

  lemma FirstPair(e: Env, rd: Reading, b: Bats)
    requires LikeDefault(e.console, b)
    ensures var q := First(e, rd, b, 1);
            && q.failed == !Grants(e, MEM1_CACHED, Mem1)
            && q.m.host == Request(e, imap[], MEM1_CACHED, Mem1, !FoundByMistake(rd))
            && (!q.failed ==> Mem1Cached(q.m.t, rd))
  {
    var p := First(e, rd, b, 0);
    assert forall r, k, j :: 0 <= j < 8 ==> p.m.t.Get(r, k)[j] == Filler(rd);
    Next(e, rd, b, 0);
    if FoundByMistake(rd) {
      SkipStep(e, rd, b, Instr, 0, p, Mem1);
      AskStep(e, rd, b, Data, 0, p, Mem1, MEM1_CACHED);
    } else {
      AskStep(e, rd, b, Instr, 0, p, Mem1, MEM1_CACHED);
      var p1 := BatStep(e, rd, b, Instr, 0, p);
      if !p1.failed {
        SkipStep(e, rd, b, Data, 0, p1, Mem1);
      }
    }
  }

  /** Then MEM1's uncached window, which may be refused.  What is left to do on Wii concerns the
      tables of MEM2, which are as start-up left them. */
  lemma Mem1Windows(e: Env, rd: Reading, b: Bats)
    requires LikeDefault(e.console, b) && Grants(e, MEM1_CACHED, Mem1)
    ensures var q := First(e, rd, b, 4);
            && !q.failed && q.m.host == Mem1Pages(e, !FoundByMistake(rd)) && q.vaddr == MEM1_UNCACHED
            && forall k: Kind, j :: 0 <= j < 8 ==> q.m.t.Get(Mem2, k)[j] == Filler(rd)
  {
    FirstPair(e, rd, b);
    AskStep(e, rd, b, Data, 1, First(e, rd, b, 1), Mem1, MEM1_UNCACHED);
    Next(e, rd, b, 1);
    NextIsEmpty(e, rd, b, 2);
    NextIsEmpty(e, rd, b, 3);
  }

  lemma Mem2Windows(e: Env, rd: Reading, b: Bats)
    requires LikeDefault(e.console, b) && Grants(e, MEM1_CACHED, Mem1) && e.console.Wii?
    ensures var q := First(e, rd, b, 8);
            && q.m.host == StartPages(e, !FoundByMistake(rd)) && q.failed == !Grants(e, MEM2_CACHED, Mem2)
  {
    Mem1Windows(e, rd, b);
    var p := First(e, rd, b, 4);
    AskStep(e, rd, b, Instr, 4, p, Mem2, MEM2_CACHED);
    Next(e, rd, b, 4);
    var p1 := BatStep(e, rd, b, Instr, 4, p);
    if p1.failed {
      StaysFailed(e, rd, b, 5, 8);
    } else {
      SkipStep(e, rd, b, Data, 4, p1, Mem2);
      AskStep(e, rd, b, Data, 5, First(e, rd, b, 5), Mem2, MEM2_UNCACHED);
      Next(e, rd, b, 5);
      NextIsEmpty(e, rd, b, 6);
      NextIsEmpty(e, rd, b, 7);
    }
  }

  lemma {:induction false} StaysFailed(e: Env, rd: Reading, b: Bats, n: nat, n2: nat)
    requires b.Shaped() && n <= n2 <= 8 && First(e, rd, b, n).failed
    ensures First(e, rd, b, n2) == First(e, rd, b, n)
  {
    if n < n2 {
      StaysFailed(e, rd, b, n, n2 - 1);
    }
  }

  /** What the first reload maps. */
  lemma FirstReload(e: Env, rd: Reading)
    ensures var q := Reload(e, rd, Default(e.console), GuestMap(InitialTables(rd), imap[], {}));
            q.m.host == StartPages(e, !FoundByMistake(rd)) && q.failed == StartFails(e)
  {
    var c, b := e.console, Default(e.console);
    forall k: Kind, i | 0 <= i < MaxBat(c)
      ensures !b.Empty(k, i) <==> InUse(c, k, i)
      ensures InUse(c, k, i) ==> b.RegionOf(c, k, i) == Some(if i < 4 then Mem1 else Mem2)
      ensures InUse(c, k, i) ==> b.BepiAt(k, i) == AddressInUse(i)
    {
      DefaultUse(c, k, i);
    }
    ReloadLikeDefault(e, rd, b);
  }

  lemma ReloadLikeDefault(e: Env, rd: Reading, b: Bats)
    requires LikeDefault(e.console, b)
    ensures var q := First(e, rd, b, MaxBat(e.console));
            q.m.host == StartPages(e, !FoundByMistake(rd)) && q.failed == StartFails(e)
  {
    FirstPair(e, rd, b);
    if First(e, rd, b, 1).failed {
      StaysFailed(e, rd, b, 1, MaxBat(e.console));
    } else if e.console.GameCube? {
      Mem1Windows(e, rd, b);
    } else {
      Mem2Windows(e, rd, b);
    }
  }

  /** Cached MEM1 shows in the pages whether it is executable. */
  lemma PagesDiffer(e: Env)
    requires Grants(e, MEM1_CACHED, Mem1)
    ensures forall x: bool :: MEM1_CACHED in StartPages(e, x).Keys && StartPages(e, x)[MEM1_CACHED] == Cell(Mem1, 0, x)
  {
  }

  /** Start-up of an ordinary image as written fails exactly when the intended one does.  When it
      does not, the guest starts with the intended pages if and only if the stack does not happen
      to hold zero, the address every zeroed table entry names; if it does, cached MEM1 is mapped
      and cannot be executed. */
  lemma StartAsWritten(e: Env, junk: Word, gpr: seq<Reg>, pc: Word)
    requires |gpr| == 32
    ensures var written, intended := Boot(e, AsWritten(junk), false, gpr, pc), Boot(e, Intended, false, gpr, pc);
            && written.fatal == intended.fatal == StartFails(e)
            && (!written.fatal ==>
                  && (written.windows.host == intended.windows.host <==> junk != 0)
                  && MEM1_CACHED in written.windows.host.Keys
                  && written.windows.host[MEM1_CACHED] == Cell(Mem1, 0, junk != 0))
  {
    EarlyMsr(false);
    FirstReload(e, AsWritten(junk));
    FirstReload(e, Intended);
    if Grants(e, MEM1_CACHED, Mem1) {
      PagesDiffer(e);
    }
  }

  // ---- Windows that do not exist

  /** As written, an ordinary image starts with table entries that name windows at 0 which are not
      there. */
  lemma StartNotLive(e: Env, junk: Word, gpr: seq<Reg>, pc: Word)
    requires |gpr| == 32 && !Boot(e, AsWritten(junk), false, gpr, pc).fatal
    ensures !Live(e.console, Boot(e, AsWritten(junk), false, gpr, pc).windows)
  {
    var rd, b := AsWritten(junk), Default(e.console);
    var m := GuestMap(InitialTables(rd), imap[], {});
    EarlyMsr(false);
    FirstReload(e, rd);
    DefaultUse(e.console, Instr, 1);
    UnusedEntry(e, rd, b, m);
    NothingAtZero(e, !FoundByMistake(rd));
  }

  /** The entry of an empty BAT holds what it held. */
  lemma UnusedEntry(e: Env, rd: Reading, b: Bats, m: GuestMap)
    requires b.Shaped() && m.t.Shaped() && b.Empty(Instr, 1) && m.t.Get(Mem1, Instr)[1] == 0
    requires !Reload(e, rd, b, m).failed
    ensures var q := Reload(e, rd, b, m).m;
            q.t.Get(Mem1, Instr)[1] == 0 && InWindow(e.console, q.t, Mem1, Instr, 1, 0)
  {
    PassesFollow(e, rd, b, MaxBat(e.console), m);
    RowAt(e, rd, b, m.t, MaxBat(e.console), Mem1, 1);
  }

  lemma NothingAtZero(e: Env, exec: bool)
    ensures 0 !in StartPages(e, exec).Keys
  {
  }

  /** Every window named by an entry other than 0 is live. */
  ghost predicate LiveButZero(c: Console, m: GuestMap)
    requires m.t.Shaped()
  {
    forall r, k, j, a :: 0 <= j < MaxBat(c) && InWindow(c, m.t, r, k, j, a) && m.t.Get(r, k)[j] != 0 ==>
      a in m.host.Keys
  }

  /** Every window named by an entry 0 is live. */
  ghost predicate ZeroLive(c: Console, m: GuestMap)
    requires m.t.Shaped()
  {
    forall r, k, j, a :: 0 <= j < MaxBat(c) && InWindow(c, m.t, r, k, j, a) && m.t.Get(r, k)[j] == 0 ==>
      a in m.host.Keys
  }

  lemma BatLiveButZero(e: Env, rd: Reading, b: Bats, k: Kind, i: nat, p: Pass)
    requires b.Shaped() && p.m.t.Shaped() && i < MaxBat(e.console) && !p.failed && LiveButZero(e.console, p.m)
    ensures LiveButZero(e.console, BatStep(e, rd, b, k, i, p).m)
  {
    StepCases(e, rd, b, k, i, p);
    var c, q := e.console, BatStep(e, rd, b, k, i, p);
    if q.m != p.m {
      var r0, v := b.RegionOf(c, k, i).value, b.BepiAt(k, i);
      SetGet(p.m.t, r0, k, i, Answer(e, r0, v));
      forall r, k2, j, a | 0 <= j < MaxBat(c) && InWindow(c, q.m.t, r, k2, j, a) && q.m.t.Get(r, k2)[j] != 0
        ensures a in q.m.host.Keys
      {
        if (r, k2, j) != (r0, k, i) {
          assert InWindow(c, p.m.t, r, k2, j, a);
        }
      }
    }
  }

  lemma {:induction false} PassesLiveButZero(e: Env, rd: Reading, b: Bats, n: nat, p: Pass)
    requires b.Shaped() && p.m.t.Shaped() && n <= MaxBat(e.console) && !p.failed && LiveButZero(e.console, p.m)
    ensures LiveButZero(e.console, Passes(e, rd, b, n, p).m)
  {
    if n != 0 {
      PassesLiveButZero(e, rd, b, n - 1, p);
      var q := Passes(e, rd, b, n - 1, p);
      if !q.failed {
        BatLiveButZero(e, rd, b, Instr, n - 1, q);
        var q1 := BatStep(e, rd, b, Instr, n - 1, q);
        if !q1.failed {
          BatLiveButZero(e, rd, b, Data, n - 1, q1);
        }
      }
    }
  }

  lemma UpdateLiveButZero(s: State, was: bool)
    requires PagesGood(s) && LiveButZero(s.env.console, s.windows)
    ensures LiveButZero(s.env.console, Update(s, was).windows)
  {
    var c := s.env.console;
    if s.cpu.InstrTranslation() == s.cpu.DataTranslation() {
      if s.cpu.InstrTranslation() {
        WipedUnused(s.windows.t, MaxBat(c));
        var m1 := if was then s.windows else UnmapAll(c, MaxBat(c), s.windows);
        PassesLiveButZero(s.env, s.reading, s.cpu.bats, MaxBat(c), Pass(m1, InitialAddress(s.reading), false));
      } else if was {
        ToRealInv(s.env, s.reading, s.windows);
      }
    }
  }

  lemma StepLiveButZero(s: State, w: Word)
    requires PagesGood(s) && LiveButZero(s.env.console, s.windows)
    ensures LiveButZero(s.env.console, Step(s, w).windows)
  {
    if !s.fatal {
      var s1 := Execute(s, Decode(w));
      if s1.needsUpdate {
        UpdateLiveButZero(s1, s.Translating());
      }
    }
  }

  lemma BootLiveButZero(e: Env, rd: Reading, bs1: bool, gpr: seq<Reg>, pc: Word)
    requires |gpr| == 32 && !Boot(e, rd, bs1, gpr, pc).fatal
    ensures LiveButZero(e.console, Boot(e, rd, bs1, gpr, pc).windows)
  {
    var m0 := GuestMap(InitialTables(rd), imap[], {});
    EarlyMsr(bs1);
    if bs1 {
      StartMap(e, rd);
      ToRealInv(e, rd, m0);
    } else {
      PassesLiveButZero(e, rd, Default(e.console), MaxBat(e.console), Pass(m0, InitialAddress(rd), false));
    }
  }

  /** In every reachable state, with either reading, the windows named by the tables are all live if
      and only if those named by entries that are 0 are. */
  lemma {:induction false} RunLive(e: Env, rd: Reading, bs1: bool, gpr: seq<Reg>, pc: Word, ts: seq<Trap>)
    requires |gpr| == 32 && Trace(ts) && !Boot(e, rd, bs1, gpr, pc).fatal
    ensures var m := Run(Boot(e, rd, bs1, gpr, pc), ts).windows;
            LiveButZero(e.console, m) && (Live(e.console, m) <==> ZeroLive(e.console, m))
  {
    var s := Boot(e, rd, bs1, gpr, pc);
    if ts == [] {
      BootLiveButZero(e, rd, bs1, gpr, pc);
    } else {
      var t, ts' := ts[|ts| - 1], ts[..|ts| - 1];
      RunLive(e, rd, bs1, gpr, pc, ts');
      RunMap(e, rd, bs1, gpr, pc, ts');
      StepLiveButZero(Enter(Run(s, ts'), t), t.word);
    }
  }
}

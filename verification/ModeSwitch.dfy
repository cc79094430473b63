// Going between translated and real mode, and what every update of the map keeps.
module ModeSwitch {
  import opened Words
  import opened Bat
  import opened MemMap
  import opened MemTheorems
  import opened MapAgreement

  // ---- Unmapping everything

  lemma WipeGet(t: Tables, n: nat, r: Region, k: Kind)
    requires t.Shaped() && n <= 8
    ensures WipeTables(t, n).Shaped() && WipeTables(t, n).Get(r, k) == Wipe(t.Get(r, k), n)
  {
  }

  lemma WipedUnused(t: Tables, n: nat)
    requires t.Shaped() && n <= 8
    ensures WipeTables(t, n).Shaped() && Unused(WipeTables(t, n), n)
  {
    forall r, k
      ensures WipeTables(t, n).Get(r, k) == Wipe(t.Get(r, k), n)
    {
      WipeGet(t, n, r, k);
    }
  }

  /** Only pages of overwritten windows survive an unmap of all windows. */
  lemma UnmapLeavesLost(c: Console, m: GuestMap)
    requires m.t.Shaped() && Accounted(c, m)
    ensures var m' := UnmapAll(c, MaxBat(c), m);
            && m'.t.Shaped() && Unused(m'.t, MaxBat(c)) && m'.lost == m.lost
            && (forall a :: a in m'.host.Keys ==> InLost(c, m.lost, a))
            && Accounted(c, m')
            && (m.lost == {} ==> m'.host == imap[])
  {
    WipedUnused(m.t, MaxBat(c));
  }

  // ---- Real mode

  /** The pages of real mode and nothing else: MEM1 at 0 and, on Wii, MEM2 at 0x10000000. */
  ghost function RealHost(c: Console): Host {
    imap a | Covers(MEM1_PADDR, RegionSize(c, Mem1), a) || Covers(MEM2_PADDR, RegionSize(c, Mem2), a) ::
      if Covers(MEM1_PADDR, RegionSize(c, Mem1), a) then Cell(Mem1, a, true)
      else Cell(Mem2, a - MEM2_PADDR, true)
  }

  /** Entry 0 of both tables of each region holds its physical base; the rest is unused. */
  ghost predicate RealTables(c: Console, t: Tables)
    requires t.Shaped()
  {
    forall r: Region, k: Kind, j :: 0 <= j < MaxBat(c) ==>
      t.Get(r, k)[j] == if j == 0 && (r.Mem1? || c.Wii?) then RegionBase(r) else FAILED
  }

  lemma MapPhysGet(e: Env, r: Region, m: GuestMap)
    requires m.t.Shaped()
    ensures var t := MapPhys(e, r, m).t;
            && t.Shaped()
            && forall r2, k :: t.Get(r2, k) == if r2 == r
                 then m.t.Get(r, k)[0 := if PhysGranted(e, r) then RegionBase(r) else FAILED]
                 else m.t.Get(r2, k)
  {
    var w := if PhysGranted(e, r) then RegionBase(r) else FAILED;
    SetGet(m.t, r, Instr, 0, w);
    SetGet(m.t.Set(r, Instr, 0, w), r, Data, 0, w);
  }

  /** Entering real mode with nothing overwritten leaves exactly the physical windows. */
  lemma ToRealExact(e: Env, m: GuestMap)
    requires m.t.Shaped() && Accounted(e.console, m) && m.lost == {} && !ToReal(e, m).failed
    ensures var q := ToReal(e, m).m;
            && q.t.Shaped() && q.host == RealHost(e.console) && RealTables(e.console, q.t) && q.lost == {}
            && WipeTables(q.t, MaxBat(e.console)) == WipeTables(m.t, MaxBat(e.console))
  {
    var c := e.console;
    UnmapLeavesLost(c, m);
    var m0 := UnmapAll(c, MaxBat(c), m);
    MapPhysGet(e, Mem1, m0);
    MapPhysGet(e, Mem2, MapPhys(e, Mem1, m0));
    forall r, k
      ensures m0.t.Get(r, k) == Wipe(m.t.Get(r, k), MaxBat(c))
    {
      WipeGet(m.t, MaxBat(c), r, k);
    }
    SlotsWipe(m.t, ToReal(e, m).m.t, MaxBat(c));
  }

  lemma TablesEqual(s: Tables, t: Tables)
    requires forall r, k :: s.Get(r, k) == t.Get(r, k)
    ensures s == t
  {
    assert s.Get(Mem1, Instr) == t.Get(Mem1, Instr) && s.Get(Mem1, Data) == t.Get(Mem1, Data);
    assert s.Get(Mem2, Instr) == t.Get(Mem2, Instr) && s.Get(Mem2, Data) == t.Get(Mem2, Data);
  }

  /** Unused tables and no pages. */
  ghost function Blank(c: Console, t: Tables): GuestMap
    requires t.Shaped()
  {
    GuestMap(WipeTables(t, MaxBat(c)), imap[], {})
  }

  /** Real mode forgets: with nothing overwritten, the map after a visit to real mode is the
      one a reload of the current BATs builds from nothing, whatever was mapped before and
      whatever the BATs were then. */
  lemma RealModeForgets(e: Env, rd: Reading, before: Bats, after: Bats, m: GuestMap)
    requires before.Shaped() && after.Shaped() && m.t.Shaped()
    requires Accounted(e.console, m) && m.lost == {}
    requires !Fixups(e, rd, before, true, false, false, m).1
    ensures var phys := Fixups(e, rd, before, true, false, false, m).0;
            && phys.t.Shaped() && phys.host == RealHost(e.console) && RealTables(e.console, phys.t)
            && var q := Reload(e, rd, after, Blank(e.console, m.t));
               Fixups(e, rd, after, false, true, true, phys) == (q.m, q.failed)
  {
    var c := e.console;
    ToRealExact(e, m);
    var phys := ToReal(e, m).m;
    RealAccounted(c, phys);
    UnmapLeavesLost(c, phys);
    assert UnmapAll(c, MaxBat(c), phys) == Blank(c, m.t);
  }

  lemma RealAccounted(c: Console, m: GuestMap)
    requires m.t.Shaped() && m.host == RealHost(c) && RealTables(c, m.t)
    ensures Accounted(c, m)
  {
    forall a | a in m.host.Keys
      ensures InWindows(c, m.t, MaxBat(c), a)
    {
      var r := if Covers(MEM1_PADDR, RegionSize(c, Mem1), a) then Mem1 else Mem2;
      assert InWindow(c, m.t, r, Instr, 0, a);
    }
  }

  /** Translated to real and back with the same BATs: the map afterwards is what a reload from
      nothing builds with the first address of that time.  So tables and every page are restored
      with the intended reading, or, as written, when the stack holds the same as before. */
  lemma RoundTripRestores(e: Env, rd: Reading, rd2: Reading, b: Bats, t: Tables)
    requires b.Shaped() && t.Shaped()
    requires !Fixups(e, rd, b, true, false, false, Reload(e, rd, b, Blank(e.console, t)).m).1
    ensures var q, q2 := Reload(e, rd, b, Blank(e.console, t)), Reload(e, rd2, b, Blank(e.console, t));
            var phys := Fixups(e, rd, b, true, false, false, q.m).0;
            && phys.t.Shaped() && Fixups(e, rd2, b, false, true, true, phys) == (q2.m, q2.failed)
            && (rd == rd2 ==> Fixups(e, rd2, b, false, true, true, phys) == (q.m, q.failed))
  {
    var c := e.console;
    var m0, q := Blank(c, t), Reload(e, rd, b, Blank(c, t));
    WipedUnused(t, MaxBat(c));
    PassesInv(e, rd, b, MaxBat(c), Pass(m0, InitialAddress(rd), false));
    RealModeForgets(e, rd2, b, b, q.m);
    PassesSlots(e, rd, b, MaxBat(c), Pass(m0, InitialAddress(rd), false));
    SlotsWipe(m0.t, q.m.t, MaxBat(c));
    SlotsWipe(t, m0.t, MaxBat(c));
  }

  /** Entries from n on are the same in both. */
  ghost predicate SameSlots(s: Tables, t: Tables, n: nat)
    requires s.Shaped() && t.Shaped()
  {
    forall r: Region, k: Kind, j :: n <= j < 8 ==> s.Get(r, k)[j] == t.Get(r, k)[j]
  }

  lemma SlotsWipe(s: Tables, t: Tables, n: nat)
    requires s.Shaped() && t.Shaped() && n <= 8
    requires SameSlots(s, t, n) || t == WipeTables(s, n)
    ensures WipeTables(s, n) == WipeTables(t, n)
  {
    forall r, k
      ensures WipeTables(s, n).Get(r, k) == WipeTables(t, n).Get(r, k)
    {
      WipeGet(s, n, r, k);
      WipeGet(t, n, r, k);
      assert Wipe(s.Get(r, k), n) == Wipe(t.Get(r, k), n);
    }
    TablesEqual(WipeTables(s, n), WipeTables(t, n));
  }

  lemma {:induction false} PassesSlots(e: Env, rd: Reading, b: Bats, n: nat, p: Pass)
    requires b.Shaped() && p.m.t.Shaped() && n <= 8
    ensures SameSlots(p.m.t, Passes(e, rd, b, n, p).m.t, n)
  {
    if n != 0 {
      PassesSlots(e, rd, b, n - 1, p);
      var q := Passes(e, rd, b, n - 1, p);
      if !q.failed {
        StepSlots(e, rd, b, Instr, n - 1, q);
        StepSlots(e, rd, b, Data, n - 1, BatStep(e, rd, b, Instr, n - 1, q));
      }
    }
  }

  lemma StepSlots(e: Env, rd: Reading, b: Bats, k: Kind, i: nat, p: Pass)
    requires b.Shaped() && p.m.t.Shaped() && i < 8
    ensures SameSlots(p.m.t, BatStep(e, rd, b, k, i, p).m.t, i + 1)
  {
    var q := BatStep(e, rd, b, k, i, p);
    if q.m != p.m {
      var r := b.RegionOf(e.console, k, i).value;
      SetGet(p.m.t, r, k, i, q.m.t.Get(r, k)[i]);
    }
  }

  // ---- Agreement at the switch

  /** After every non-fatal switch from real to translated mode, with well-formed BATs, each
      granted byte the BATs name is mapped where they name it. */
  lemma SwitchServes(e: Env, b: Bats, m: GuestMap)
    requires b.Shaped() && m.t.Shaped() && WellFormed(e.console, b)
    requires !Fixups(e, Intended, b, false, true, true, m).1
    ensures AllNamed(e, b, Fixups(e, Intended, b, false, true, true, m).0.host)
  {
    WipedUnused(m.t, MaxBat(e.console));
    ReloadServes(e, b, UnmapAll(e.console, MaxBat(e.console), m));
  }

  /** After such a switch, fatal or not, with the search as written or as intended, nothing is
      mapped but what the BATs name, and nothing executable but what the instruction BATs name,
      as long as no window was ever overwritten and each BAT has an active one to vouch for it.
      Without failure and as intended, the latter is exactly the condition. */
  lemma SwitchServesOnly(e: Env, rd: Reading, b: Bats, m: GuestMap)
    requires b.Shaped() && m.t.Shaped() && WellFormed(e.console, b) && NoStrangers(e.console, b)
    requires Accounted(e.console, m) && m.lost == {}
    ensures var f := Fixups(e, rd, b, false, true, true, m);
            && (AllVouched(e, b) ==> OnlyNamed(e.console, b, f.0.host))
            && (InstrVouched(e, b) ==> OnlyNamedRuns(e.console, b, f.0.host))
            && (rd.Intended? && !f.1 ==>
                  && (OnlyNamed(e.console, b, f.0.host) <==> AllVouched(e, b))
                  && (OnlyNamedRuns(e.console, b, f.0.host) <==> InstrVouched(e, b)))
  {
    UnmapLeavesLost(e.console, m);
    var m0 := UnmapAll(e.console, MaxBat(e.console), m);
    ReloadServesOnly(e, rd, b, m0);
    if rd.Intended? && !Fixups(e, rd, b, false, true, true, m).1 {
      ReloadServesExactly(e, b, m0);
    }
  }

  // ---- What is left behind

  /** Entering real mode leaves exactly the physical windows and the live pages that no table
      window covered, the ones of overwritten windows. */
  lemma RealModeLeftovers(e: Env, m: GuestMap, a: int)
    requires m.t.Shaped() && Accounted(e.console, m) && !ToReal(e, m).failed
    ensures a in ToReal(e, m).m.host.Keys
       <==> a in RealHost(e.console).Keys || (a in m.host.Keys && !InWindows(e.console, m.t, MaxBat(e.console), a))
    ensures a in ToReal(e, m).m.host.Keys ==> a in RealHost(e.console).Keys || InLost(e.console, m.lost, a)
  {
  }

  /** Mapping a BAT's new address over its old one keeps every page of the old window live,
      and from then on the window counts as overwritten. */
  lemma RewriteLeaks(e: Env, k: Kind, i: nat, r: Region, v: Word, m: GuestMap, a: int)
    requires m.t.Shaped() && i < MaxBat(e.console) && Live(e.console, m) && v != FAILED
    requires InWindow(e.console, m.t, r, k, i, a) && m.t.Get(r, k)[i] != v
    ensures var m' := Install(e, k, i, r, v, m);
            && a in m'.host.Keys && Window(m.t.Get(r, k)[i], r) in m'.lost
            && m'.t.Shaped() && m'.t.Get(r, k)[i] != m.t.Get(r, k)[i]
  {
    SetGet(m.t, r, k, i, Answer(e, r, v));
  }

  // ---- What every update keeps

  /** Every page of every table window is live. */
  ghost predicate Live(c: Console, m: GuestMap)
    requires m.t.Shaped()
  {
    forall r, k, j, a :: 0 <= j < MaxBat(c) && InWindow(c, m.t, r, k, j, a) ==> a in m.host.Keys
  }

  /** No address appears twice among the entries of one table. */
  ghost predicate Distinct(c: Console, t: Tables)
    requires t.Shaped()
  {
    forall r: Region, k: Kind, i, j :: 0 <= i < j < MaxBat(c) && t.Get(r, k)[i] != FAILED ==>
      t.Get(r, k)[i] != t.Get(r, k)[j]
  }

  ghost predicate MapInv(c: Console, rd: Reading, m: GuestMap) {
    m.t.Shaped() && Live(c, m) && Accounted(c, m) && (rd.Intended? ==> Distinct(c, m.t))
  }

  lemma InstallInv(e: Env, rd: Reading, k: Kind, i: nat, r: Region, v: Word, m: GuestMap)
    requires MapInv(e.console, rd, m) && i < MaxBat(e.console) && v != FAILED
    requires rd.Intended? ==> v !in m.t.Get(r, k)[..MaxBat(e.console)]
    ensures MapInv(e.console, rd, Install(e, k, i, r, v, m)) && m.lost <= Install(e, k, i, r, v, m).lost
  {
    var c, m' := e.console, Install(e, k, i, r, v, m);
    InstallAccounted(e, k, i, r, v, m);
    SetGet(m.t, r, k, i, Answer(e, r, v));
    forall r2, k2, j, a | 0 <= j < MaxBat(c) && InWindow(c, m'.t, r2, k2, j, a)
      ensures a in m'.host.Keys
    {
      if (r2, k2, j) != (r, k, i) {
        assert InWindow(c, m.t, r2, k2, j, a);
      }
    }
    if rd.Intended? {
      forall j | 0 <= j < MaxBat(c)
        ensures m.t.Get(r, k)[j] != v
      {
        assert m.t.Get(r, k)[..MaxBat(c)][j] == m.t.Get(r, k)[j];
      }
    }
  }

  lemma StepMapInv(e: Env, rd: Reading, b: Bats, k: Kind, i: nat, p: Pass)
    requires b.Shaped() && MapInv(e.console, rd, p.m) && i < MaxBat(e.console) && !p.failed
    ensures var q := BatStep(e, rd, b, k, i, p);
            MapInv(e.console, rd, q.m) && p.m.lost <= q.m.lost
  {
    StepCases(e, rd, b, k, i, p);
    if BatStep(e, rd, b, k, i, p).m != p.m {
      InstallInv(e, rd, k, i, b.RegionOf(e.console, k, i).value, b.BepiAt(k, i), p.m);
    }
  }

  lemma {:induction false} PassesMapInv(e: Env, rd: Reading, b: Bats, n: nat, p: Pass)
    requires b.Shaped() && MapInv(e.console, rd, p.m) && n <= MaxBat(e.console) && !p.failed
    ensures var q := Passes(e, rd, b, n, p);
            MapInv(e.console, rd, q.m) && p.m.lost <= q.m.lost
  {
    if n != 0 {
      PassesMapInv(e, rd, b, n - 1, p);
      var q := Passes(e, rd, b, n - 1, p);
      if !q.failed {
        StepMapInv(e, rd, b, Instr, n - 1, q);
        var q1 := BatStep(e, rd, b, Instr, n - 1, q);
        if !q1.failed {
          StepMapInv(e, rd, b, Data, n - 1, q1);
        }
      }
    }
  }

  /** Pages stay accounted for whatever the tables held to begin with. */
  lemma {:induction false} PassesAccounted(e: Env, rd: Reading, b: Bats, n: nat, p: Pass)
    requires b.Shaped() && p.m.t.Shaped() && n <= MaxBat(e.console) && !p.failed && Accounted(e.console, p.m)
    ensures Accounted(e.console, Passes(e, rd, b, n, p).m)
  {
    if n != 0 {
      PassesAccounted(e, rd, b, n - 1, p);
      var q := Passes(e, rd, b, n - 1, p);
      if !q.failed {
        StepAccounted(e, rd, b, Instr, n - 1, q);
        var q1 := BatStep(e, rd, b, Instr, n - 1, q);
        if !q1.failed {
          StepAccounted(e, rd, b, Data, n - 1, q1);
        }
      }
    }
  }

  lemma StepAccounted(e: Env, rd: Reading, b: Bats, k: Kind, i: nat, p: Pass)
    requires b.Shaped() && p.m.t.Shaped() && i < MaxBat(e.console) && !p.failed && Accounted(e.console, p.m)
    ensures Accounted(e.console, BatStep(e, rd, b, k, i, p).m)
  {
    StepCases(e, rd, b, k, i, p);
    if BatStep(e, rd, b, k, i, p).m != p.m {
      InstallAccounted(e, k, i, b.RegionOf(e.console, k, i).value, b.BepiAt(k, i), p.m);
    }
  }

  // ---- Every granted BAT's window is live after a reload

  lemma PresentLive(c: Console, m: GuestMap, r: Region, k: Kind, v: Word, a: int)
    requires m.t.Shaped() && Live(c, m) && v != FAILED && Present(m.t, MaxBat(c), r, k, v)
    requires Covers(v, RegionSize(c, r), a)
    ensures a in m.host.Keys
  {
    var k2 := if v in m.t.Get(r, k)[..MaxBat(c)] then k else Instr;
    var j :| 0 <= j < MaxBat(c) && m.t.Get(r, k2)[j] == v;
    assert InWindow(c, m.t, r, k2, j, a);
  }

  /** The window of BAT i of kind k is live, if the host grants it, and it names a region. */
  ghost predicate Held(e: Env, b: Bats, h: Host, k: Kind, i: nat)
    requires b.Shaped() && i < 8
  {
    !b.Empty(k, i) ==>
      && b.RegionOf(e.console, k, i).Some?
      && (WindowGranted(e, b, k, i) ==>
            var size := RegionSize(e.console, b.RegionOf(e.console, k, i).value);
            forall a :: Covers(b.BepiAt(k, i), size, a) ==> a in h.Keys)
  }

  ghost predicate AllHeld(e: Env, b: Bats, h: Host, n: nat)
    requires b.Shaped() && n <= 8
  {
    forall k: Kind, i :: 0 <= i < n ==> Held(e, b, h, k, i)
  }

  lemma StepHeld(e: Env, b: Bats, k: Kind, i: nat, p: Pass)
    requires b.Shaped() && MapInv(e.console, Intended, p.m) && i < MaxBat(e.console) && !p.failed
    ensures var q := BatStep(e, Intended, b, k, i, p);
            && (forall a :: a in p.m.host.Keys ==> a in q.m.host.Keys)
            && (!q.failed ==> Held(e, b, q.m.host, k, i))
  {
    if WindowGranted(e, b, k, i) {
      var r, v := b.RegionOf(e.console, k, i).value, b.BepiAt(k, i);
      if Present(p.m.t, MaxBat(e.console), r, k, v) {
        forall a | Covers(v, RegionSize(e.console, r), a)
          ensures a in p.m.host.Keys
        {
          PresentLive(e.console, p.m, r, k, v, a);
        }
      }
    }
  }

  lemma PairHeld(e: Env, b: Bats, i: nat, q: Pass)
    requires b.Shaped() && MapInv(e.console, Intended, q.m) && i < MaxBat(e.console) && !q.failed
    requires AllHeld(e, b, q.m.host, i) && !PairStep(e, Intended, b, i, q).failed
    ensures AllHeld(e, b, PairStep(e, Intended, b, i, q).m.host, i + 1)
  {
    StepHeld(e, b, Instr, i, q);
    StepMapInv(e, Intended, b, Instr, i, q);
    var q1 := BatStep(e, Intended, b, Instr, i, q);
    StepHeld(e, b, Data, i, q1);
    var h := BatStep(e, Intended, b, Data, i, q1).m.host;
    forall k: Kind, j | 0 <= j < i + 1
      ensures Held(e, b, h, k, j)
    {
      assert j < i ==> Held(e, b, q.m.host, k, j);
    }
  }

  /** A reload from any tables with live windows leaves every granted window live, even if it
      overwrites the table entry that another BAT was found in. */
  lemma {:induction false} PassesHeld(e: Env, b: Bats, n: nat, p: Pass)
    requires b.Shaped() && MapInv(e.console, Intended, p.m) && n <= MaxBat(e.console) && !p.failed
    requires !Passes(e, Intended, b, n, p).failed
    ensures AllHeld(e, b, Passes(e, Intended, b, n, p).m.host, n)
  {
    if n != 0 {
      assert !Passes(e, Intended, b, n - 1, p).failed;
      PassesHeld(e, b, n - 1, p);
      PassesMapInv(e, Intended, b, n - 1, p);
      PairHeld(e, b, n - 1, Passes(e, Intended, b, n - 1, p));
    }
  }

  /** Whatever else the BATs and the tables hold, the window of a BAT in use is mapped at addresses
      that no active BAT's block holds, if the host grants it: the valid bits are never looked
      at. */
  lemma InactiveBatsAreMapped(e: Env, b: Bats, m: GuestMap, k: Kind, i: nat, a: Word)
    requires b.Shaped() && MapInv(e.console, Intended, m) && !Reload(e, Intended, b, m).failed
    requires forall k2: Kind, j :: 0 <= j < MaxBat(e.console) ==> !Hit(b.Upper(k2)[j], a)
    requires i < MaxBat(e.console) && WindowGranted(e, b, k, i)
    requires Covers(b.BepiAt(k, i), RegionSize(e.console, b.RegionOf(e.console, k, i).value), a)
    ensures a in Reload(e, Intended, b, m).m.host.Keys
    ensures forall k2: Kind :: !Translate(b.Upper(k2), b.Lower(k2), a, MaxBat(e.console)).mapped
  {
    PassesHeld(e, b, MaxBat(e.console), Pass(m, 0, false));
    assert Held(e, b, Reload(e, Intended, b, m).m.host, k, i);
  }

  // ---- Entering real mode, and updates

  lemma UnusedInv(c: Console, rd: Reading, m: GuestMap)
    requires m.t.Shaped() && Unused(m.t, MaxBat(c)) && Accounted(c, m)
    ensures MapInv(c, rd, m)
  {
  }

  lemma MapPhysInv(e: Env, rd: Reading, r: Region, m: GuestMap)
    requires MapInv(e.console, rd, m)
    requires m.t.Get(r, Instr)[0] == FAILED && m.t.Get(r, Data)[0] == FAILED
    requires forall k: Kind, j :: 0 <= j < MaxBat(e.console) ==> m.t.Get(r, k)[j] == FAILED
    ensures MapInv(e.console, rd, MapPhys(e, r, m))
  {
    var c, m' := e.console, MapPhys(e, r, m);
    MapPhysGet(e, r, m);
    forall r2, k2, j, a | 0 <= j < MaxBat(c) && InWindow(c, m'.t, r2, k2, j, a)
      ensures a in m'.host.Keys
    {
      if r2 != r {
        assert InWindow(c, m.t, r2, k2, j, a);
      }
    }
    forall a | a in m'.host.Keys
      ensures InWindows(c, m'.t, MaxBat(c), a) || InLost(c, m'.lost, a)
    {
      if PhysGranted(e, r) && Covers(RegionBase(r), RegionSize(c, r), a) {
        assert InWindow(c, m'.t, r, Instr, 0, a);
      } else if InWindows(c, m.t, MaxBat(c), a) {
        var r2, k2, j :| 0 <= j < MaxBat(c) && InWindow(c, m.t, r2, k2, j, a);
        assert InWindow(c, m'.t, r2, k2, j, a);
      }
    }
  }

  /** Entering real mode sets the invariant up from page accounting alone. */
  lemma ToRealInv(e: Env, rd: Reading, m: GuestMap)
    requires m.t.Shaped() && Accounted(e.console, m)
    ensures MapInv(e.console, rd, ToReal(e, m).m) && ToReal(e, m).m.lost == m.lost
  {
    var c := e.console;
    UnmapLeavesLost(c, m);
    var m0 := UnmapAll(c, MaxBat(c), m);
    UnusedInv(c, rd, m0);
    MapPhysInv(e, rd, Mem1, m0);
    MapPhysGet(e, Mem1, m0);
    if c.Wii? {
      MapPhysInv(e, rd, Mem2, MapPhys(e, Mem1, m0));
    }
  }

  /** Every update of the map, fatal or not, keeps windows live, pages accounted for and
      table entries distinct. */
  lemma FixupsInv(e: Env, rd: Reading, b: Bats, was: bool, ir: bool, dr: bool, m: GuestMap)
    requires b.Shaped() && MapInv(e.console, rd, m)
    ensures var m' := Fixups(e, rd, b, was, ir, dr, m).0;
            MapInv(e.console, rd, m') && m.lost <= m'.lost
  {
    var c := e.console;
    if ir == dr && was && !ir {
      ToRealInv(e, rd, m);
    } else if ir == dr && ir {
      UnmapLeavesLost(c, m);
      UnusedInv(c, rd, UnmapAll(c, MaxBat(c), m));
      var m1 := if was then m else UnmapAll(c, MaxBat(c), m);
      PassesMapInv(e, rd, b, MaxBat(c), Pass(m1, InitialAddress(rd), false));
    }
  }

  /** Every update keeps pages accounted for, whatever the tables held; and one that ends in real
      mode sets up the whole invariant. */
  lemma FixupsAccounted(e: Env, rd: Reading, b: Bats, was: bool, ir: bool, dr: bool, m: GuestMap)
    requires b.Shaped() && m.t.Shaped() && Accounted(e.console, m)
    ensures var m' := Fixups(e, rd, b, was, ir, dr, m).0;
            && m'.t.Shaped() && Accounted(e.console, m')
            && (was && !ir && !dr ==> MapInv(e.console, rd, m'))
  {
    var c := e.console;
    if ir == dr && was && !ir {
      ToRealInv(e, rd, m);
    } else if ir == dr && ir {
      UnmapLeavesLost(c, m);
      var m1 := if was then m else UnmapAll(c, MaxBat(c), m);
      PassesAccounted(e, rd, b, MaxBat(c), Pass(m1, InitialAddress(rd), false));
    }
  }
}

// Agreement for the code as it stands.  With either reading of the search, a reload serves the
// bytes that the BATs name exactly when each instruction BAT's address gets into its region's
// instruction table; and a second reload changes nothing exactly when each of its searches
// hits, has nothing to add, or is refused.
module WrittenAgreement {
  import opened Words
  import opened Bat
  import opened MemMap
  import opened MemTheorems
  import opened MapAgreement
  import opened Lookups
  import opened ModeSwitch
  import opened StaleProbe

  /** Windows as reloads of these BATs leave them: every entry is its own BAT's address, granted,
      and if the BATs are well-formed its window is in place. */
  ghost predicate Loaded(e: Env, b: Bats, m: GuestMap)
    requires b.Shaped()
  {
    && m.t.Shaped()
    && Provenance(e.console, b, m.t, 8, 8)
    && GrantedEntries(e, m.t)
    && (WellFormed(e.console, b) ==> AllServe(e.console, m))
  }

  /** Data BATs are taken care of, whatever the reading. */
  ghost predicate DataDone(e: Env, b: Bats, t: Tables, n: nat)
    requires b.Shaped() && t.Shaped() && n <= 8
  {
    AllDone(e, b, t, 0, n)
  }

  /** An active instruction BAT's window, if granted, is in its region's instruction table. */
  ghost predicate AllListed(e: Env, b: Bats, t: Tables)
    requires b.Shaped() && t.Shaped()
  {
    forall i :: 0 <= i < MaxBat(e.console) && WindowGranted(e, b, Instr, i) && Active(b.ibatu[i]) ==>
      b.BepiAt(Instr, i) in t.Get(RegionIn(e, b, Instr, i), Instr)[..MaxBat(e.console)]
  }

  // ---- What any reload keeps

  /** Windows stay as they should be, none is overwritten, and tidy pages stay tidy. */
  ghost predicate Kept(e: Env, b: Bats, m: GuestMap, m': GuestMap)
    requires b.Shaped() && m.t.Shaped()
  {
    Loaded(e, b, m') && m'.lost == m.lost && (Tidy(e.console, m) ==> Tidy(e.console, m'))
  }

  /** The slot of BAT i holds its own address or nothing, so that installing its window again
      overwrites no other. */
  lemma OwnSlot(e: Env, b: Bats, t: Tables, k: Kind, i: nat, r: Region)
    requires b.Shaped() && t.Shaped() && i < MaxBat(e.console)
    requires Provenance(e.console, b, t, 8, 8) && GrantedEntries(e, t)
    ensures t.Get(r, k)[i] == FAILED || (b.RegionOf(e.console, k, i) == Some(r) && t.Get(r, k)[i] == b.BepiAt(k, i)
                                         && e.accepts(b.BepiAt(k, i), RegionSize(e.console, r)))
  {
  }

  lemma InstallLoaded(e: Env, b: Bats, k: Kind, i: nat, m: GuestMap)
    requires b.Shaped() && Loaded(e, b, m) && i < MaxBat(e.console) && Maps(e.console, b, k, i)
    requires k.Data? ==> !Present(m.t, MaxBat(e.console), RegionIn(e, b, k, i), k, b.BepiAt(k, i))
    ensures Kept(e, b, m, Install(e, k, i, RegionIn(e, b, k, i), b.BepiAt(k, i), m))
  {
    var r, v := RegionIn(e, b, k, i), b.BepiAt(k, i);
    OwnSlot(e, b, m.t, k, i, r);
    if WellFormed(e.console, b) {
      InstallServes(e, b, k, i, m, 8, 8);
    }
    InstallEntries(e, b, k, i, m);
    if Tidy(e.console, m) {
      InstallAccounted(e, k, i, r, v, m);
      InstallExec(e, k, i, r, v, m);
    }
  }

  lemma InstallEntries(e: Env, b: Bats, k: Kind, i: nat, m: GuestMap)
    requires b.Shaped() && Loaded(e, b, m) && i < MaxBat(e.console) && Maps(e.console, b, k, i)
    ensures var m' := Install(e, k, i, RegionIn(e, b, k, i), b.BepiAt(k, i), m);
            && m'.t.Shaped() && m'.lost == m.lost
            && Provenance(e.console, b, m'.t, 8, 8) && GrantedEntries(e, m'.t)
  {
    var r, v := RegionIn(e, b, k, i), b.BepiAt(k, i);
    SetGet(m.t, r, k, i, Answer(e, r, v));
    OwnSlot(e, b, m.t, k, i, r);
  }

  lemma InstallKeepsDone(e: Env, b: Bats, k: Kind, i: nat, m: GuestMap, n: nat)
    requires b.Shaped() && Loaded(e, b, m) && n <= 8 && DataDone(e, b, m.t, n)
    requires i < MaxBat(e.console) && Maps(e.console, b, k, i)
    ensures var m' := Install(e, k, i, RegionIn(e, b, k, i), b.BepiAt(k, i), m);
            m'.t.Shaped() && DataDone(e, b, m'.t, n)
  {
    var r, v := RegionIn(e, b, k, i), b.BepiAt(k, i);
    OwnSlot(e, b, m.t, k, i, r);
    AllDoneStays(e, b, m.t, r, k, i, Answer(e, r, v), 0, n);
  }

  lemma StepLoaded(e: Env, rd: Reading, b: Bats, k: Kind, i: nat, p: Pass)
    requires b.Shaped() && Loaded(e, b, p.m) && i < MaxBat(e.console) && !p.failed
    requires DataDone(e, b, p.m.t, i)
    ensures var q := BatStep(e, rd, b, k, i, p);
            Kept(e, b, p.m, q.m) && DataDone(e, b, q.m.t, i)
  {
    StepCases(e, rd, b, k, i, p);
    if BatStep(e, rd, b, k, i, p).m != p.m {
      InstallLoaded(e, b, k, i, p.m);
      InstallKeepsDone(e, b, k, i, p.m, i);
    }
  }

  lemma DataStepDone(e: Env, rd: Reading, b: Bats, i: nat, p: Pass)
    requires b.Shaped() && p.m.t.Shaped() && i < MaxBat(e.console) && !p.failed
    requires !BatStep(e, rd, b, Data, i, p).failed
    ensures Done(e, b, BatStep(e, rd, b, Data, i, p).m.t, Data, i)
  {
    if Maps(e.console, b, Data, i) {
      if !Present(p.m.t, MaxBat(e.console), RegionIn(e, b, Data, i), Data, b.BepiAt(Data, i)) {
        InstallDone(e, b, Data, i, p.m);
      }
    }
  }

  lemma PairLoaded(e: Env, rd: Reading, b: Bats, i: nat, p: Pass)
    requires b.Shaped() && Loaded(e, b, p.m) && i < MaxBat(e.console) && !p.failed
    requires DataDone(e, b, p.m.t, i)
    ensures var q := PairStep(e, rd, b, i, p);
            Kept(e, b, p.m, q.m) && (!q.failed ==> DataDone(e, b, q.m.t, i + 1))
  {
    StepLoaded(e, rd, b, Instr, i, p);
    var p1 := BatStep(e, rd, b, Instr, i, p);
    if !p1.failed {
      StepLoaded(e, rd, b, Data, i, p1);
      if !BatStep(e, rd, b, Data, i, p1).failed {
        DataStepDone(e, rd, b, i, p1);
      }
    }
  }

  /** A reload with either reading, from unused tables or after reloads of the same BATs. */
  lemma {:induction false} PassesLoaded(e: Env, rd: Reading, b: Bats, n: nat, p: Pass)
    requires b.Shaped() && Loaded(e, b, p.m) && n <= MaxBat(e.console) && !p.failed
    ensures var q := Passes(e, rd, b, n, p);
            Kept(e, b, p.m, q.m) && (!q.failed ==> DataDone(e, b, q.m.t, n))
  {
    if n != 0 {
      PassesLoaded(e, rd, b, n - 1, p);
      var q := Passes(e, rd, b, n - 1, p);
      if !q.failed {
        PairLoaded(e, rd, b, n - 1, q);
      }
    }
  }

  lemma UnusedLoaded(e: Env, b: Bats, m: GuestMap)
    requires b.Shaped() && m.t.Shaped() && Unused(m.t, MaxBat(e.console))
    ensures Loaded(e, b, m)
  {
  }

  /** Nothing gets past a BAT that points outside the regions, or one whose refusal is fatal. */
  lemma PairPasses(e: Env, rd: Reading, b: Bats, i: nat, p: Pass, k: Kind)
    requires b.Shaped() && p.m.t.Shaped() && i < 8 && !p.failed && !PairStep(e, rd, b, i, p).failed
    ensures !b.Empty(k, i) ==> b.RegionOf(e.console, k, i).Some?
  {
  }

  lemma {:induction false} PassesBat(e: Env, rd: Reading, b: Bats, n: nat, p: Pass, k: Kind, i: nat)
    requires b.Shaped() && p.m.t.Shaped() && i < n <= 8 && !Passes(e, rd, b, n, p).failed
    ensures !b.Empty(k, i) ==> b.RegionOf(e.console, k, i).Some?
  {
    if i == n - 1 {
      PairPasses(e, rd, b, i, Passes(e, rd, b, i, p), k);
    } else {
      PassesBat(e, rd, b, n - 1, p, k, i);
    }
  }

  lemma PassesNoStrangers(e: Env, rd: Reading, b: Bats, p: Pass)
    requires b.Shaped() && p.m.t.Shaped() && !Passes(e, rd, b, MaxBat(e.console), p).failed
    ensures NoStrangers(e.console, b)
  {
    forall k: Kind, i | 0 <= i < MaxBat(e.console)
      ensures !b.Empty(k, i) ==> b.RegionOf(e.console, k, i).Some?
    {
      PassesBat(e, rd, b, MaxBat(e.console), p, k, i);
    }
  }

  // ---- Agreement, exactly

  lemma ListedIsNamed(e: Env, b: Bats, m: GuestMap)
    requires b.Shaped() && WellFormed(e.console, b) && Loaded(e, b, m) && NoStrangers(e.console, b)
    requires DataDone(e, b, m.t, MaxBat(e.console)) && AllListed(e, b, m.t)
    ensures AllNamed(e, b, m.host)
  {
    var c, h, n := e.console, m.host, MaxBat(e.console);
    forall k: Kind, v: Word, r: Region, o: int | Names(c, b, k, v, r, o) && Granted(e, b, k, v)
      ensures v in h.Keys && h[v].region == r && h[v].offset == o && (k.Instr? ==> h[v].exec)
    {
      WinnerPhys(c, b, k, v);
      var i := FirstHit(b.Upper(k), v, n);
      assert WindowGranted(e, b, k, i) && (k.Data? ==> Done(e, b, m.t, k, i));
      GrantedIsServed(e, b, m, k, i);
      assert b.RegionOf(c, k, i) == Some(r) && Covers(b.BepiAt(k, i), RegionSize(c, r), v);
    }
  }

  /** The first byte of an active granted instruction BAT is executable only if some entry of the
      instruction table is its window. */
  lemma NamedIsListed(e: Env, b: Bats, m: GuestMap, i: nat)
    requires b.Shaped() && WellFormed(e.console, b) && Loaded(e, b, m) && NoStrangers(e.console, b)
    requires ExecInWindows(e.console, m) && AllNamed(e, b, m.host)
    requires i < MaxBat(e.console) && WindowGranted(e, b, Instr, i) && Active(b.ibatu[i])
    ensures b.BepiAt(Instr, i) in m.t.Get(RegionIn(e, b, Instr, i), Instr)[..MaxBat(e.console)]
  {
    var c, n, r, v := e.console, MaxBat(e.console), RegionIn(e, b, Instr, i), b.BepiAt(Instr, i);
    assert VouchedBy(c, b, Instr, i, Instr, i);
    WindowNames(c, b, Instr, i, r, v, Instr);
    WinnerVouches(c, b, Instr, i, r, v, Instr);
    assert Names(c, b, Instr, v, r, 0) && Granted(e, b, Instr, v);
    var r2, j :| 0 <= j < n && InWindow(c, m.t, r2, Instr, j, v);
    assert CoversRegion(c, b, Instr, i) && CoversRegion(c, b, Instr, j) && Compatible(c, b, Instr, i, Instr, j);
    assert m.t.Get(r, Instr)[..n][j] == v;
  }

  /** Agreement for windows that reloads of well-formed BATs left, whatever the readings: every
      granted byte they name is mapped where they name it, executable if the instruction BATs do,
      if every active instruction BAT's granted window is listed; and only then, unless
      executable pages were left outside the windows. */
  lemma LoadedAgrees(e: Env, b: Bats, m: GuestMap)
    requires b.Shaped() && WellFormed(e.console, b) && NoStrangers(e.console, b)
    requires Loaded(e, b, m) && DataDone(e, b, m.t, MaxBat(e.console))
    ensures AllListed(e, b, m.t) ==> AllNamed(e, b, m.host)
    ensures Tidy(e.console, m) ==> (AllNamed(e, b, m.host) <==> AllListed(e, b, m.t))
  {
    if AllListed(e, b, m.t) {
      ListedIsNamed(e, b, m);
    }
    if Tidy(e.console, m) && AllNamed(e, b, m.host) {
      forall i | 0 <= i < MaxBat(e.console) && WindowGranted(e, b, Instr, i) && Active(b.ibatu[i])
        ensures b.BepiAt(Instr, i) in m.t.Get(RegionIn(e, b, Instr, i), Instr)[..MaxBat(e.console)]
      {
        NamedIsListed(e, b, m, i);
      }
    }
  }

  /** An active BAT vouches for every window in the tables. */
  ghost predicate EntriesVouched(e: Env, b: Bats, t: Tables)
    requires b.Shaped() && t.Shaped()
  {
    forall r: Region, k: Kind, j :: 0 <= j < MaxBat(e.console) && t.Get(r, k)[j] != FAILED ==>
      exists k2 :: Vouched(e.console, b, k, j, k2)
  }

  lemma PageVouched(e: Env, b: Bats, m: GuestMap, v: Word)
    requires b.Shaped() && WellFormed(e.console, b) && NoStrangers(e.console, b) && Loaded(e, b, m)
    requires InWindows(e.console, m.t, MaxBat(e.console), v) && EntriesVouched(e, b, m.t)
    ensures v in m.host.Keys && exists k :: Names(e.console, b, k, v, m.host[v].region, m.host[v].offset)
  {
    var r, k, j :| 0 <= j < MaxBat(e.console) && InWindow(e.console, m.t, r, k, j, v);
    var k2 :| Vouched(e.console, b, k, j, k2);
    WindowByte(e.console, b, m, r, k, j, v, k2);
  }

  lemma EntryVouched(e: Env, b: Bats, m: GuestMap, r: Region, k: Kind, j: nat)
    requires b.Shaped() && WellFormed(e.console, b) && NoStrangers(e.console, b) && Loaded(e, b, m)
    requires OnlyNamed(e.console, b, m.host) && j < MaxBat(e.console) && m.t.Get(r, k)[j] != FAILED
    ensures exists k2 :: Vouched(e.console, b, k, j, k2)
  {
    var v := m.t.Get(r, k)[j];
    assert InWindow(e.console, m.t, r, k, j, v);
    WindowByte(e.console, b, m, r, k, j, v, k);
    var k2 :| Names(e.console, b, k2, v, m.host[v].region, m.host[v].offset);
    WindowByte(e.console, b, m, r, k, j, v, k2);
  }

  /** And nothing else is mapped exactly when an active BAT vouches for every window. */
  lemma LoadedOnlyNamed(e: Env, b: Bats, m: GuestMap)
    requires b.Shaped() && WellFormed(e.console, b) && NoStrangers(e.console, b)
    requires Loaded(e, b, m) && Tidy(e.console, m) && m.lost == {}
    ensures OnlyNamed(e.console, b, m.host) <==> EntriesVouched(e, b, m.t)
  {
    if EntriesVouched(e, b, m.t) {
      forall v: Word | v in m.host.Keys
        ensures exists k :: Names(e.console, b, k, v, m.host[v].region, m.host[v].offset)
      {
        PageVouched(e, b, m, v);
      }
    } else {
      NotOnlyNamed(e, b, m);
    }
  }

  lemma NotOnlyNamed(e: Env, b: Bats, m: GuestMap)
    requires b.Shaped() && WellFormed(e.console, b) && NoStrangers(e.console, b) && Loaded(e, b, m)
    requires !EntriesVouched(e, b, m.t)
    ensures !OnlyNamed(e.console, b, m.host)
  {
    var r: Region, k: Kind, j :| 0 <= j < MaxBat(e.console) && m.t.Get(r, k)[j] != FAILED
                              && !(exists k2 :: Vouched(e.console, b, k, j, k2));
    if OnlyNamed(e.console, b, m.host) {
      EntryVouched(e, b, m, r, k, j);
    }
  }

  /** A reload with either reading leaves such windows, whether or not it is the first. */
  lemma ReloadAgrees(e: Env, rd: Reading, b: Bats, m: GuestMap)
    requires b.Shaped() && Loaded(e, b, m) && !Reload(e, rd, b, m).failed
    ensures var m' := Reload(e, rd, b, m).m;
            && Kept(e, b, m, m') && DataDone(e, b, m'.t, MaxBat(e.console)) && NoStrangers(e.console, b)
  {
    var p := Pass(m, InitialAddress(rd), false);
    PassesLoaded(e, rd, b, MaxBat(e.console), p);
    PassesNoStrangers(e, rd, b, p);
  }

  /** Some instruction BAT with BAT i's address and region gets its window. */
  ghost predicate PlacedAlike(e: Env, rd: Reading, b: Bats, t: Tables, i: nat)
    requires b.Shaped() && t.Shaped() && i < 8 && Maps(e.console, b, Instr, i)
  {
    exists j :: 0 <= j < MaxBat(e.console) && Placed(e, rd, b, t, j)
             && b.BepiAt(Instr, j) == b.BepiAt(Instr, i) && RegionIn(e, b, Instr, j) == RegionIn(e, b, Instr, i)
  }

  /** Every active instruction BAT's granted window is asked for, by it or by one like it. */
  ghost predicate AllPlaced(e: Env, rd: Reading, b: Bats, t: Tables)
    requires b.Shaped() && t.Shaped()
  {
    forall i :: 0 <= i < MaxBat(e.console) && WindowGranted(e, b, Instr, i) && Active(b.ibatu[i]) ==>
      PlacedAlike(e, rd, b, t, i)
  }

  /** Entry j of the final table holds an address exactly when BAT j is placed there. */
  lemma EntryIsPlaced(e: Env, rd: Reading, b: Bats, t: Tables, r: Region, v: Word, j: nat)
    requires b.Shaped() && t.Shaped() && Unused(t, MaxBat(e.console)) && j < MaxBat(e.console) && v != FAILED
    ensures InstrRow(e, rd, b, t, MaxBat(e.console), r)[j] == v
       <==> Placed(e, rd, b, t, j) && b.BepiAt(Instr, j) == v && RegionIn(e, b, Instr, j) == r
  {
    RowAt(e, rd, b, t, MaxBat(e.console), r, j);
  }

  lemma ListedIsPlaced(e: Env, rd: Reading, b: Bats, m: GuestMap, i: nat)
    requires b.Shaped() && m.t.Shaped() && Unused(m.t, MaxBat(e.console)) && !Reload(e, rd, b, m).failed
    requires i < MaxBat(e.console) && WindowGranted(e, b, Instr, i)
    ensures b.BepiAt(Instr, i) in Reload(e, rd, b, m).m.t.Get(RegionIn(e, b, Instr, i), Instr)[..MaxBat(e.console)]
       <==> PlacedAlike(e, rd, b, m.t, i)
  {
    PassesFollow(e, rd, b, MaxBat(e.console), m);
    RowIsPlaced(e, rd, b, m.t, i);
  }

  lemma RowIsPlaced(e: Env, rd: Reading, b: Bats, t: Tables, i: nat)
    requires b.Shaped() && t.Shaped() && Unused(t, MaxBat(e.console))
    requires i < MaxBat(e.console) && WindowGranted(e, b, Instr, i)
    ensures var n := MaxBat(e.console);
            b.BepiAt(Instr, i) in InstrRow(e, rd, b, t, n, RegionIn(e, b, Instr, i))[..n]
            <==> PlacedAlike(e, rd, b, t, i)
  {
    var n, r, v := MaxBat(e.console), RegionIn(e, b, Instr, i), b.BepiAt(Instr, i);
    var row := InstrRow(e, rd, b, t, n, r)[..n];
    if v in row {
      var j :| 0 <= j < n && row[j] == v;
      EntryIsPlaced(e, rd, b, t, r, v, j);
    }
    if PlacedAlike(e, rd, b, t, i) {
      var j :| 0 <= j < n && Placed(e, rd, b, t, j) && b.BepiAt(Instr, j) == v && RegionIn(e, b, Instr, j) == r;
      EntryIsPlaced(e, rd, b, t, r, v, j);
      assert row[j] == v;
    }
  }

  /** From unused tables, that is decided by the BATs, the first address and the host's answers:
      the code as it stands serves every byte that well-formed BATs name if and only if each
      active instruction BAT with a granted window has one with its address and region whose
      look-up misses. */
  lemma ReloadServesWritten(e: Env, rd: Reading, b: Bats, m: GuestMap)
    requires b.Shaped() && m.t.Shaped() && Unused(m.t, MaxBat(e.console)) && WellFormed(e.console, b)
    requires !Reload(e, rd, b, m).failed
    ensures AllPlaced(e, rd, b, m.t) ==> AllNamed(e, b, Reload(e, rd, b, m).m.host)
    ensures Tidy(e.console, m) ==>
              (AllNamed(e, b, Reload(e, rd, b, m).m.host) <==> AllPlaced(e, rd, b, m.t))
  {
    UnusedLoaded(e, b, m);
    ReloadAgrees(e, rd, b, m);
    LoadedAgrees(e, b, Reload(e, rd, b, m).m);
    forall i | 0 <= i < MaxBat(e.console) && WindowGranted(e, b, Instr, i)
      ensures b.BepiAt(Instr, i) in Reload(e, rd, b, m).m.t.Get(RegionIn(e, b, Instr, i), Instr)[..MaxBat(e.console)]
         <==> PlacedAlike(e, rd, b, m.t, i)
    {
      ListedIsPlaced(e, rd, b, m, i);
    }
  }

  /** With the intended reading that is always so. */
  lemma IntendedPlaces(e: Env, b: Bats, m: GuestMap)
    requires b.Shaped() && m.t.Shaped() && Unused(m.t, MaxBat(e.console)) && !Reload(e, Intended, b, m).failed
    ensures AllPlaced(e, Intended, b, m.t)
  {
    PassesInv(e, Intended, b, MaxBat(e.console), Pass(m, 0, false));
    forall i | 0 <= i < MaxBat(e.console) && WindowGranted(e, b, Instr, i)
      ensures PlacedAlike(e, Intended, b, m.t, i)
    {
      assert Done(e, b, Reload(e, Intended, b, m).m.t, Instr, i);
      ListedIsPlaced(e, Intended, b, m, i);
    }
  }

  /** At a switch to translated mode: agreement for the code as it stands, exactly when nothing was
      overwritten before. */
  lemma SwitchServesWritten(e: Env, rd: Reading, b: Bats, m: GuestMap)
    requires b.Shaped() && m.t.Shaped() && WellFormed(e.console, b) && !Fixups(e, rd, b, false, true, true, m).1
    ensures var h, t := Fixups(e, rd, b, false, true, true, m).0.host, WipeTables(m.t, MaxBat(e.console));
            && t.Shaped()
            && (AllPlaced(e, rd, b, t) ==> AllNamed(e, b, h))
            && (Accounted(e.console, m) && m.lost == {} ==> (AllNamed(e, b, h) <==> AllPlaced(e, rd, b, t)))
  {
    WipedUnused(m.t, MaxBat(e.console));
    ReloadServesWritten(e, rd, b, UnmapAll(e.console, MaxBat(e.console), m));
    if Accounted(e.console, m) && m.lost == {} {
      UnmapLeavesLost(e.console, m);
    }
  }

  // ---- A second reload, exactly

  /** Installing a BAT's window where it already is, or where the host refuses it, changes
      nothing. */
  lemma InstallAgain(e: Env, b: Bats, i: nat, m: GuestMap)
    requires b.Shaped() && WellFormed(e.console, b) && Loaded(e, b, m)
    requires i < MaxBat(e.console) && Maps(e.console, b, Instr, i)
    requires var r, v := RegionIn(e, b, Instr, i), b.BepiAt(Instr, i);
             m.t.Get(r, Instr)[i] == v || !e.accepts(v, RegionSize(e.console, r))
    ensures Install(e, Instr, i, RegionIn(e, b, Instr, i), b.BepiAt(Instr, i), m) == m
  {
    var r, v := RegionIn(e, b, Instr, i), b.BepiAt(Instr, i);
    OwnSlot(e, b, m.t, Instr, i, r);
    if e.accepts(v, RegionSize(e.console, r)) {
      SetGet(m.t, r, Instr, i, v);
      assert m.t.Get(r, Instr)[i := v] == m.t.Get(r, Instr);
      TablesEqual(m.t.Set(r, Instr, i, v), m.t);
      assert Serves(e.console, m.host, r, Instr, m.t.Get(r, Instr)[i]);
      assert Overlay(m.host, v, RegionSize(e.console, r), r, true) == m.host;
    } else {
      RefusedInstall(e, Instr, i, r, v, m);
    }
  }

  /** The look-up for instruction BAT i in these tables hits, or there is nothing to add: its entry
      is in place, or the host refuses it and that is expected. */
  ghost predicate NothingToAdd(e: Env, rd: Reading, b: Bats, t: Tables, i: nat)
    requires b.Shaped() && t.Shaped() && i < 8
  {
    Maps(e.console, b, Instr, i) ==>
      var r, v := RegionIn(e, b, Instr, i), b.BepiAt(Instr, i);
      || Found(e, rd, b, t, i)
      || t.Get(r, Instr)[i] == v
      || (!e.accepts(v, RegionSize(e.console, r)) && v >= 0xC000_0000 && e.console.Wii?)
  }

  lemma PairAgain(e: Env, rd: Reading, b: Bats, i: nat, p: Pass)
    requires b.Shaped() && WellFormed(e.console, b) && Loaded(e, b, p.m) && i < MaxBat(e.console) && !p.failed
    requires Traced(e, rd, b, p.m.t, i, i, p.m.t) && p.vaddr == Left(e, rd, b, p.m.t, i)
    requires Done(e, b, p.m.t, Data, i) && NothingToAdd(e, rd, b, p.m.t, i)
    requires !b.Empty(Instr, i) ==> b.RegionOf(e.console, Instr, i).Some?
    ensures var q := PairStep(e, rd, b, i, p); q.m == p.m && !q.failed
  {
    if Maps(e.console, b, Instr, i) {
      var r, v := RegionIn(e, b, Instr, i), b.BepiAt(Instr, i);
      assert Present(p.m.t, MaxBat(e.console), r, Instr, Probe(e, rd, b, p.m.t, i)) <==> Found(e, rd, b, p.m.t, i);
      OwnSlot(e, b, p.m.t, Instr, i, r);
      if !Found(e, rd, b, p.m.t, i) {
        InstallAgain(e, b, i, p.m);
      }
    }
    var p1 := BatStep(e, rd, b, Instr, i, p);
    assert p1.m == p.m && !p1.failed;
    StepAgain(e, rd, b, Data, i, p1);
  }

  lemma {:induction false} PassesAddNothing(e: Env, rd: Reading, b: Bats, n: nat, m: GuestMap)
    requires b.Shaped() && WellFormed(e.console, b) && Loaded(e, b, m) && NoStrangers(e.console, b)
    requires n <= MaxBat(e.console)
    requires DataDone(e, b, m.t, MaxBat(e.console)) && forall i :: 0 <= i < n ==> NothingToAdd(e, rd, b, m.t, i)
    ensures var q := Passes(e, rd, b, n, Pass(m, InitialAddress(rd), false)); q.m == m && !q.failed
  {
    if n != 0 {
      PassesAddNothing(e, rd, b, n - 1, m);
      PassesFollow(e, rd, b, n - 1, m);
      assert Done(e, b, m.t, Data, n - 1);
      PairAgain(e, rd, b, n - 1, Passes(e, rd, b, n - 1, Pass(m, InitialAddress(rd), false)));
    }
  }

  lemma MissAtStep(e: Env, rd: Reading, b: Bats, t: Tables, i: nat, p: Pass)
    requires b.Shaped() && t.Shaped() && p.m.t.Shaped() && i < 8 && Maps(e.console, b, Instr, i) && !p.failed
    requires Traced(e, rd, b, t, i, i, p.m.t) && p.vaddr == Left(e, rd, b, t, i)
    requires !BatStep(e, rd, b, Instr, i, p).failed && !Found(e, rd, b, t, i)
    ensures WindowGranted(e, b, Instr, i) || (b.BepiAt(Instr, i) >= 0xC000_0000 && e.console.Wii?)
  {
    var r := RegionIn(e, b, Instr, i);
    assert Present(p.m.t, MaxBat(e.console), r, Instr, Probe(e, rd, b, t, i)) <==> Found(e, rd, b, t, i);
  }

  /** A look-up that misses is answered, and a refusal gets past only if it is expected. */
  lemma {:induction false} MissIsAnswered(e: Env, rd: Reading, b: Bats, n: nat, m: GuestMap, i: nat)
    requires b.Shaped() && m.t.Shaped() && i < n <= MaxBat(e.console) && Maps(e.console, b, Instr, i)
    requires !Passes(e, rd, b, n, Pass(m, InitialAddress(rd), false)).failed && !Found(e, rd, b, m.t, i)
    ensures WindowGranted(e, b, Instr, i) || (b.BepiAt(Instr, i) >= 0xC000_0000 && e.console.Wii?)
  {
    if i == n - 1 {
      PassesFollow(e, rd, b, i, m);
      MissAtStep(e, rd, b, m.t, i, Passes(e, rd, b, i, Pass(m, InitialAddress(rd), false)));
    } else {
      MissIsAnswered(e, rd, b, n - 1, m, i);
    }
  }

  /** A reload of well-formed BATs after reloads of the same BATs, with whatever readings, changes
      no entry and no page and does not fail if and only if no look-up of an instruction BAT
      leaves it anything to add. */
  lemma ReloadAgain(e: Env, rd: Reading, b: Bats, m: GuestMap)
    requires b.Shaped() && WellFormed(e.console, b) && Loaded(e, b, m) && NoStrangers(e.console, b)
    requires DataDone(e, b, m.t, MaxBat(e.console))
    ensures Reload(e, rd, b, m).m == m && !Reload(e, rd, b, m).failed
       <==> forall i :: 0 <= i < MaxBat(e.console) ==> NothingToAdd(e, rd, b, m.t, i)
  {
    var n := MaxBat(e.console);
    if forall i :: 0 <= i < n ==> NothingToAdd(e, rd, b, m.t, i) {
      PassesAddNothing(e, rd, b, n, m);
    } else if Reload(e, rd, b, m).m == m && !Reload(e, rd, b, m).failed {
      var i :| 0 <= i < n && !NothingToAdd(e, rd, b, m.t, i);
      MissIsAnswered(e, rd, b, n, m, i);
      PassesFollow(e, rd, b, n, m);
      RowAt(e, rd, b, m.t, n, RegionIn(e, b, Instr, i), i);
      assert false;
    }
  }

  /** Nothing to add in a second reload, in terms of the first. */
  ghost predicate NothingMissed(e: Env, rd: Reading, rd2: Reading, b: Bats, t: Tables, t2: Tables, i: nat)
    requires b.Shaped() && t.Shaped() && t2.Shaped() && i < 8
  {
    Maps(e.console, b, Instr, i) ==>
      || Placed(e, rd, b, t, i)
      || Found(e, rd2, b, t2, i)
      || (!WindowGranted(e, b, Instr, i) && b.BepiAt(Instr, i) >= 0xC000_0000 && e.console.Wii?)
  }

  lemma PlacedIsKept(e: Env, rd: Reading, rd2: Reading, b: Bats, m: GuestMap, i: nat)
    requires b.Shaped() && m.t.Shaped() && Unused(m.t, MaxBat(e.console)) && i < MaxBat(e.console)
    requires !Reload(e, rd, b, m).failed
    ensures var t2 := Reload(e, rd, b, m).m.t;
            NothingToAdd(e, rd2, b, t2, i) <==> NothingMissed(e, rd, rd2, b, m.t, t2, i)
  {
    if Maps(e.console, b, Instr, i) {
      PassesFollow(e, rd, b, MaxBat(e.console), m);
      EntryIsPlaced(e, rd, b, m.t, RegionIn(e, b, Instr, i), b.BepiAt(Instr, i), i);
    }
  }

  /** In particular for two reloads from unused tables, each with its own first address: the second
      changes nothing if and only if each instruction BAT got its window from the first, or its
      look-up in the second hits, or the host refuses it and that is expected. */
  lemma SecondReload(e: Env, rd: Reading, rd2: Reading, b: Bats, m: GuestMap)
    requires b.Shaped() && m.t.Shaped() && Unused(m.t, MaxBat(e.console)) && WellFormed(e.console, b)
    requires !Reload(e, rd, b, m).failed
    ensures var m' := Reload(e, rd, b, m).m;
            (Reload(e, rd2, b, m').m == m' && !Reload(e, rd2, b, m').failed)
            <==> forall i :: 0 <= i < MaxBat(e.console) ==> NothingMissed(e, rd, rd2, b, m.t, m'.t, i)
  {
    var n, p := MaxBat(e.console), Pass(m, InitialAddress(rd), false);
    UnusedLoaded(e, b, m);
    PassesLoaded(e, rd, b, n, p);
    PassesNoStrangers(e, rd, b, p);
    ReloadAgain(e, rd2, b, Reload(e, rd, b, m).m);
    forall i | 0 <= i < n {
      PlacedIsKept(e, rd, rd2, b, m, i);
    }
  }

  // ---- A second reload that adds a window

  /** A single instruction BAT, for MEM1 at 0x80000000. */
  function OneInstructionBat(): (b: Bats)
    ensures b.Shaped()
  {
    Bats([0x8000_1FFF, 0, 0, 0, 0, 0, 0, 0], [2, 0, 0, 0, 0, 0, 0, 0],
         [0, 0, 0, 0, 0, 0, 0, 0], [0, 0, 0, 0, 0, 0, 0, 0])
  }

  /** All the proofs need to know of it. */
  ghost predicate Single(b: Bats) {
    && b.Shaped()
    && (forall k: Kind, i :: 0 <= i < 8 ==> (b.Empty(k, i) <==> !(k == Instr && i == 0)))
    && b.RegionOf(GameCube, Instr, 0) == Some(Mem1) && b.BepiAt(Instr, 0) == 0x8000_0000
  }

  ghost predicate GrantsAll(e: Env) { forall v: Word, s: Word :: e.accepts(v, s) }

  lemma SingleEntry(e: Env, b: Bats, junk: Word, t: Tables, j: nat)
    requires e.console == GameCube && GrantsAll(e) && Single(b) && t.Shaped() && Unused(t, 4) && j < 4
    ensures InstrRow(e, AsWritten(junk), b, t, 4, Mem1)[j] == if j == 0 && junk != FAILED then 0x8000_0000 else FAILED
  {
    RowAt(e, AsWritten(junk), b, t, 4, Mem1, j);
    var row := InstrRow(e, AsWritten(junk), b, t, 0, Mem1)[..4];
    assert row[0] == FAILED && forall w :: w in row ==> w == FAILED;
  }

  /** As written a second reload need not repeat the first: if the stack first holds what an unused
      entry holds, and then something else, the window comes only with the second. */
  lemma SecondReloadAdds(e: Env, junk: Word, m: GuestMap)
    requires e.console == GameCube && GrantsAll(e) && junk != FAILED && m.t.Shaped() && Unused(m.t, 4)
    ensures var first := Reload(e, AsWritten(FAILED), OneInstructionBat(), m);
            && !first.failed && first.m.t.Get(Mem1, Instr)[0] == FAILED
            && Reload(e, AsWritten(junk), OneInstructionBat(), first.m).m.t.Get(Mem1, Instr)[0] == 0x8000_0000
  {
    SingleAdds(e, OneInstructionBat(), junk, m);
  }

  lemma SingleAdds(e: Env, b: Bats, junk: Word, m: GuestMap)
    requires e.console == GameCube && GrantsAll(e) && Single(b) && junk != FAILED && m.t.Shaped() && Unused(m.t, 4)
    ensures var first := Reload(e, AsWritten(FAILED), b, m);
            && !first.failed && first.m.t.Get(Mem1, Instr)[0] == FAILED
            && Reload(e, AsWritten(junk), b, first.m).m.t.Get(Mem1, Instr)[0] == 0x8000_0000
  {
    NeverFails(e, AsWritten(FAILED), b, 4, Pass(m, FAILED, false));
    var m' := Reload(e, AsWritten(FAILED), b, m).m;
    PassesFollow(e, AsWritten(FAILED), b, 4, m);
    SingleEntry(e, b, FAILED, m.t, 0);
    SingleUnused(e, b, m);
    NeverFails(e, AsWritten(junk), b, 4, Pass(m', junk, false));
    PassesFollow(e, AsWritten(junk), b, 4, m');
    SingleEntry(e, b, junk, m'.t, 0);
  }

  lemma SingleUnused(e: Env, b: Bats, m: GuestMap)
    requires e.console == GameCube && GrantsAll(e) && Single(b) && m.t.Shaped() && Unused(m.t, 4)
    requires Traced(e, AsWritten(FAILED), b, m.t, 4, 4, Reload(e, AsWritten(FAILED), b, m).m.t)
    ensures Unused(Reload(e, AsWritten(FAILED), b, m).m.t, 4)
  {
    PassesInv(e, AsWritten(FAILED), b, 4, Pass(m, FAILED, false));
    SingleEntry(e, b, FAILED, m.t, 0);
  }
}

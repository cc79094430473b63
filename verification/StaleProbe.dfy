// The instruction-BAT search of E_MemReloadMap compares table entries with an address
// variable it sets only afterwards.  This file says exactly when that makes a difference to
// the map a reload builds from unused tables.
module StaleProbe {
  import opened Words
  import opened Bat
  import opened MemMap
  import opened MemTheorems
  import opened Lookups
  import opened ModeSwitch

  /** Instruction BAT j gets its window: its look-up misses and the host grants it. */
  ghost predicate Placed(e: Env, rd: Reading, b: Bats, t: Tables, j: nat)
    requires b.Shaped() && t.Shaped() && j < 8
  {
    WindowGranted(e, b, Instr, j) && !Found(e, rd, b, t, j)
  }

  /** The look-up for instruction BAT i comes out the same with both readings, or the answer is
      moot because the host refuses the window. */
  ghost predicate SameLuck(e: Env, rd: Reading, rd2: Reading, b: Bats, t: Tables, i: nat)
    requires b.Shaped() && t.Shaped() && i < 8
  {
    WindowGranted(e, b, Instr, i) ==> (Found(e, rd, b, t, i) <==> Found(e, rd2, b, t, i))
  }

  /** Entry j before the turn of pair i: what BAT j put there, or what was there before. */
  lemma {:induction false} RowAt(e: Env, rd: Reading, b: Bats, t: Tables, i: nat, r: Region, j: nat)
    requires b.Shaped() && t.Shaped() && i <= 8 && j < 8
    ensures InstrRow(e, rd, b, t, i, r)[j]
         == if j < i && Maps(e.console, b, Instr, j) && RegionIn(e, b, Instr, j) == r && !Found(e, rd, b, t, j)
            then Answer(e, r, b.BepiAt(Instr, j)) else t.Get(r, Instr)[j]
  {
    if i != 0 {
      RowAt(e, rd, b, t, i - 1, r, j);
    }
  }

  lemma {:induction false} DataRowAt(e: Env, rd: Reading, b: Bats, t: Tables, i: nat, r: Region, j: nat)
    requires b.Shaped() && t.Shaped() && i <= 8 && j < 8
    ensures DataRow(e, rd, b, t, i, r)[j]
         == if j < i && Maps(e.console, b, Data, j) && RegionIn(e, b, Data, j) == r && !DataFound(e, rd, b, t, j)
            then Answer(e, r, b.BepiAt(Data, j)) else t.Get(r, Data)[j]
  {
    if i != 0 {
      DataRowAt(e, rd, b, t, i - 1, r, j);
    }
  }

  // ---- When a reload can fail at all

  /** No BAT in use points outside the regions or asks for a window whose refusal is fatal: one
      below 0xC0000000, or a GameCube instruction window anywhere. */
  ghost predicate Acceptable(e: Env, b: Bats)
    requires b.Shaped()
  {
    forall k: Kind, i :: 0 <= i < MaxBat(e.console) && !b.Empty(k, i) ==>
      b.RegionOf(e.console, k, i).Some?
      && (WindowGranted(e, b, k, i) || (b.BepiAt(k, i) >= 0xC000_0000 && (k.Data? || e.console.Wii?)))
  }

  lemma {:induction false} NeverFails(e: Env, rd: Reading, b: Bats, n: nat, p: Pass)
    requires b.Shaped() && p.m.t.Shaped() && n <= MaxBat(e.console) && !p.failed && Acceptable(e, b)
    ensures !Passes(e, rd, b, n, p).failed
  {
    if n != 0 {
      NeverFails(e, rd, b, n - 1, p);
    }
  }

  /** With the intended reading a reload from unused tables fails exactly when some BAT is not
      acceptable. */
  lemma FailsExactly(e: Env, b: Bats, m: GuestMap)
    requires b.Shaped() && m.t.Shaped() && Unused(m.t, MaxBat(e.console))
    ensures !Reload(e, Intended, b, m).failed <==> Acceptable(e, b)
  {
    var n, p := MaxBat(e.console), Pass(m, 0, false);
    if Acceptable(e, b) {
      NeverFails(e, Intended, b, n, p);
    } else if !Reload(e, Intended, b, m).failed {
      PassesInv(e, Intended, b, n, p);
      PassesGranted(e, Intended, b, n, p);
      DoneIsAcceptable(e, b, Reload(e, Intended, b, m).m.t);
    }
  }

  lemma DoneIsAcceptable(e: Env, b: Bats, t: Tables)
    requires b.Shaped() && t.Shaped() && GrantedEntries(e, t)
    requires AllDone(e, b, t, MaxBat(e.console), MaxBat(e.console))
    ensures Acceptable(e, b)
  {
    forall k: Kind, i | 0 <= i < MaxBat(e.console) && !b.Empty(k, i)
      ensures b.RegionOf(e.console, k, i).Some?
      ensures WindowGranted(e, b, k, i) || (b.BepiAt(k, i) >= 0xC000_0000 && (k.Data? || e.console.Wii?))
    {
      assert Done(e, b, t, k, i);
    }
  }

  /** BAT i of kind k is in order: in use it names a region, and either its look-up finds it or its
      window is granted or may be refused, as a data window or on Wii any window may from 0xC0000000
      on. */
  ghost predicate InOrder(e: Env, rd: Reading, b: Bats, t: Tables, k: Kind, i: nat)
    requires b.Shaped() && t.Shaped() && i < 8
  {
    !b.Empty(k, i) ==>
      && b.RegionOf(e.console, k, i).Some?
      && (|| WindowGranted(e, b, k, i)
          || (b.BepiAt(k, i) >= 0xC000_0000 && (k.Data? || e.console.Wii?))
          || (if k.Instr? then Found(e, rd, b, t, i) else DataFound(e, rd, b, t, i)))
  }

  lemma PairFails(e: Env, rd: Reading, b: Bats, t: Tables, i: nat, p: Pass)
    requires b.Shaped() && t.Shaped() && p.m.t.Shaped() && i < 8 && !p.failed
    requires Traced(e, rd, b, t, i, i, p.m.t) && p.vaddr == Left(e, rd, b, t, i)
    ensures !PairStep(e, rd, b, i, p).failed <==> InOrder(e, rd, b, t, Instr, i) && InOrder(e, rd, b, t, Data, i)
  {
    InstrFails(e, rd, b, t, i, p);
    var p1 := BatStep(e, rd, b, Instr, i, p);
    if !p1.failed {
      InstrFollows(e, rd, b, t, i, p);
      DataFails(e, rd, b, t, i, p1);
    }
  }

  lemma InstrFails(e: Env, rd: Reading, b: Bats, t: Tables, i: nat, p: Pass)
    requires b.Shaped() && t.Shaped() && p.m.t.Shaped() && i < 8 && !p.failed
    requires Traced(e, rd, b, t, i, i, p.m.t) && p.vaddr == Left(e, rd, b, t, i)
    ensures !BatStep(e, rd, b, Instr, i, p).failed <==> InOrder(e, rd, b, t, Instr, i)
  {
    if Maps(e.console, b, Instr, i) {
      var r := RegionIn(e, b, Instr, i);
      assert Present(p.m.t, MaxBat(e.console), r, Instr, Probe(e, rd, b, t, i)) <==> Found(e, rd, b, t, i);
    }
  }

  lemma DataFails(e: Env, rd: Reading, b: Bats, t: Tables, i: nat, p: Pass)
    requires b.Shaped() && t.Shaped() && p.m.t.Shaped() && i < 8 && !p.failed
    requires Traced(e, rd, b, t, i + 1, i, p.m.t)
    ensures !BatStep(e, rd, b, Data, i, p).failed <==> InOrder(e, rd, b, t, Data, i)
  {
    if Maps(e.console, b, Data, i) {
      var r := RegionIn(e, b, Data, i);
      assert Present(p.m.t, MaxBat(e.console), r, Data, b.BepiAt(Data, i)) <==> DataFound(e, rd, b, t, i);
    }
  }

  ghost predicate AllInOrder(e: Env, rd: Reading, b: Bats, t: Tables, n: nat)
    requires b.Shaped() && t.Shaped() && n <= 8
  {
    forall k: Kind, i :: 0 <= i < n ==> InOrder(e, rd, b, t, k, i)
  }

  lemma OneMoreInOrder(e: Env, rd: Reading, b: Bats, t: Tables, i: nat)
    requires b.Shaped() && t.Shaped() && i < 8
    ensures AllInOrder(e, rd, b, t, i + 1)
       <==> AllInOrder(e, rd, b, t, i) && InOrder(e, rd, b, t, Instr, i) && InOrder(e, rd, b, t, Data, i)
  {
  }

  lemma NextFails(e: Env, rd: Reading, b: Bats, i: nat, m: GuestMap)
    requires b.Shaped() && m.t.Shaped() && i < 8
    ensures var p := Pass(m, InitialAddress(rd), false);
            Passes(e, rd, b, i + 1, p).failed
            <==> Passes(e, rd, b, i, p).failed
                 || !(InOrder(e, rd, b, m.t, Instr, i) && InOrder(e, rd, b, m.t, Data, i))
  {
    var q := Passes(e, rd, b, i, Pass(m, InitialAddress(rd), false));
    if !q.failed {
      PassesFollow(e, rd, b, i, m);
      PairFails(e, rd, b, m.t, i, q);
    }
  }

  lemma {:induction false} PassesFail(e: Env, rd: Reading, b: Bats, n: nat, m: GuestMap)
    requires b.Shaped() && m.t.Shaped() && n <= 8
    ensures !Passes(e, rd, b, n, Pass(m, InitialAddress(rd), false)).failed <==> AllInOrder(e, rd, b, m.t, n)
  {
    if n != 0 {
      PassesFail(e, rd, b, n - 1, m);
      OneMoreInOrder(e, rd, b, m.t, n - 1);
      NextFails(e, rd, b, n - 1, m);
    }
  }

  /** Exactly when a reload fails, with either reading and from any tables: when some BAT in use
      points outside the regions, or is not found and asks for a window whose refusal is fatal. */
  lemma ReloadFails(e: Env, rd: Reading, b: Bats, m: GuestMap)
    requires b.Shaped() && m.t.Shaped()
    ensures !Reload(e, rd, b, m).failed <==> AllInOrder(e, rd, b, m.t, MaxBat(e.console))
  {
    PassesFail(e, rd, b, MaxBat(e.console), m);
  }

  // ---- The same map

  /** Installing where the host refuses changes nothing while the entry is unused. */
  lemma RefusedInstall(e: Env, k: Kind, i: nat, r: Region, v: Word, m: GuestMap)
    requires m.t.Shaped() && i < 8 && !e.accepts(v, RegionSize(e.console, r)) && m.t.Get(r, k)[i] == FAILED
    ensures Install(e, k, i, r, v, m) == m
  {
    SetGet(m.t, r, k, i, FAILED);
    assert m.t.Get(r, k)[i := FAILED] == m.t.Get(r, k);
    TablesEqual(m.t.Set(r, k, i, FAILED), m.t);
  }

  lemma SameStep(e: Env, rd: Reading, rd2: Reading, b: Bats, t: Tables, i: nat, p: Pass, p2: Pass)
    requires b.Shaped() && t.Shaped() && p.m.t.Shaped() && i < MaxBat(e.console) && Unused(t, MaxBat(e.console))
    requires p2.m == p.m && !p.failed && !p2.failed && SameLuck(e, rd, rd2, b, t, i)
    requires Traced(e, rd, b, t, i, i, p.m.t) && p.vaddr == Left(e, rd, b, t, i)
    requires Traced(e, rd2, b, t, i, i, p.m.t) && p2.vaddr == Left(e, rd2, b, t, i)
    ensures BatStep(e, rd, b, Instr, i, p).m == BatStep(e, rd2, b, Instr, i, p2).m
  {
    if Maps(e.console, b, Instr, i) {
      var r, v := RegionIn(e, b, Instr, i), b.BepiAt(Instr, i);
      assert Present(p.m.t, MaxBat(e.console), r, Instr, Probe(e, rd, b, t, i)) <==> Found(e, rd, b, t, i);
      assert Present(p.m.t, MaxBat(e.console), r, Instr, Probe(e, rd2, b, t, i)) <==> Found(e, rd2, b, t, i);
      if !WindowGranted(e, b, Instr, i) {
        RowAt(e, rd, b, t, i, r, i);
        RefusedInstall(e, Instr, i, r, v, p.m);
      }
    }
  }

  lemma {:induction false} SameSoFar(e: Env, rd: Reading, rd2: Reading, b: Bats, n: nat, m: GuestMap)
    requires b.Shaped() && m.t.Shaped() && n <= MaxBat(e.console) && Unused(m.t, MaxBat(e.console))
    requires Acceptable(e, b) && forall i :: 0 <= i < n ==> SameLuck(e, rd, rd2, b, m.t, i)
    ensures Passes(e, rd, b, n, Pass(m, InitialAddress(rd), false)).m
         == Passes(e, rd2, b, n, Pass(m, InitialAddress(rd2), false)).m
  {
    if n != 0 {
      var i, p, p2 := n - 1, Pass(m, InitialAddress(rd), false), Pass(m, InitialAddress(rd2), false);
      SameSoFar(e, rd, rd2, b, i, m);
      NeverFails(e, rd, b, n, p);
      NeverFails(e, rd2, b, n, p2);
      PassesFollow(e, rd, b, i, m);
      PassesFollow(e, rd2, b, i, m);
      SameStep(e, rd, rd2, b, m.t, i, Passes(e, rd, b, i, p), Passes(e, rd2, b, i, p2));
    }
  }

  /** A look-up shows in the table for good: the entry of a granted instruction BAT holds its
      address if the look-up missed and is unused if it hit. */
  lemma LookupShows(e: Env, rd: Reading, b: Bats, m: GuestMap, i: nat)
    requires b.Shaped() && m.t.Shaped() && Unused(m.t, MaxBat(e.console)) && !Reload(e, rd, b, m).failed
    requires i < MaxBat(e.console) && WindowGranted(e, b, Instr, i)
    ensures Reload(e, rd, b, m).m.t.Get(RegionIn(e, b, Instr, i), Instr)[i]
         == if Found(e, rd, b, m.t, i) then FAILED else b.BepiAt(Instr, i)
  {
    PassesFollow(e, rd, b, MaxBat(e.console), m);
    RowAt(e, rd, b, m.t, MaxBat(e.console), RegionIn(e, b, Instr, i), i);
  }

  /** With acceptable BATs two readings build the same map from unused tables exactly when every
      look-up of a granted instruction BAT comes out the same. */
  lemma ReadingsAgree(e: Env, rd: Reading, rd2: Reading, b: Bats, m: GuestMap)
    requires b.Shaped() && m.t.Shaped() && Unused(m.t, MaxBat(e.console)) && Acceptable(e, b)
    ensures Reload(e, rd, b, m).m == Reload(e, rd2, b, m).m
       <==> forall i :: 0 <= i < MaxBat(e.console) ==> SameLuck(e, rd, rd2, b, m.t, i)
  {
    if forall i :: 0 <= i < MaxBat(e.console) ==> SameLuck(e, rd, rd2, b, m.t, i) {
      SameSoFar(e, rd, rd2, b, MaxBat(e.console), m);
    } else {
      var i :| 0 <= i < MaxBat(e.console) && !SameLuck(e, rd, rd2, b, m.t, i);
      NeverFails(e, rd, b, MaxBat(e.console), Pass(m, InitialAddress(rd), false));
      NeverFails(e, rd2, b, MaxBat(e.console), Pass(m, InitialAddress(rd2), false));
      OtherLuckDiffers(e, rd, rd2, b, m, i);
    }
  }

  lemma OtherLuckDiffers(e: Env, rd: Reading, rd2: Reading, b: Bats, m: GuestMap, i: nat)
    requires b.Shaped() && m.t.Shaped() && Unused(m.t, MaxBat(e.console))
    requires !Reload(e, rd, b, m).failed && !Reload(e, rd2, b, m).failed
    requires i < MaxBat(e.console) && !SameLuck(e, rd, rd2, b, m.t, i)
    ensures Reload(e, rd, b, m).m != Reload(e, rd2, b, m).m
  {
    LookupShows(e, rd, b, m, i);
    LookupShows(e, rd2, b, m, i);
    assert b.BepiAt(Instr, i) != FAILED;
  }

  /** So the code as written builds the intended map exactly when the search for the stale
      address always answers as the search for the BAT's own address would. */
  lemma AsWrittenExactly(e: Env, b: Bats, junk: Word, m: GuestMap)
    requires b.Shaped() && m.t.Shaped() && Unused(m.t, MaxBat(e.console)) && !Reload(e, Intended, b, m).failed
    ensures Reload(e, AsWritten(junk), b, m).m == Reload(e, Intended, b, m).m
       <==> forall i :: 0 <= i < MaxBat(e.console) ==> SameLuck(e, AsWritten(junk), Intended, b, m.t, i)
  {
    FailsExactly(e, b, m);
    ReadingsAgree(e, AsWritten(junk), Intended, b, m);
  }

  /** The same for a switch to translated mode that does not fail. */
  lemma LuckySwitch(e: Env, b: Bats, junk: Word, m: GuestMap)
    requires b.Shaped() && m.t.Shaped() && !Fixups(e, Intended, b, false, true, true, m).1
    ensures Fixups(e, AsWritten(junk), b, false, true, true, m) == Fixups(e, Intended, b, false, true, true, m)
       <==> forall i :: 0 <= i < MaxBat(e.console) ==>
              SameLuck(e, AsWritten(junk), Intended, b, UnmapAll(e.console, MaxBat(e.console), m).t, i)
  {
    WipedUnused(m.t, MaxBat(e.console));
    var m0 := UnmapAll(e.console, MaxBat(e.console), m);
    AsWrittenExactly(e, b, junk, m0);
    FailsExactly(e, b, m0);
    NeverFails(e, AsWritten(junk), b, MaxBat(e.console), Pass(m0, junk, false));
  }

  /** Going to real mode and back restores the map exactly when the look-ups of the two reloads come
      out the same, each with what the stack held. */
  lemma RoundTripExactly(e: Env, rd: Reading, rd2: Reading, b: Bats, t: Tables)
    requires b.Shaped() && t.Shaped() && Acceptable(e, b)
    requires !Fixups(e, rd, b, true, false, false, Reload(e, rd, b, Blank(e.console, t)).m).1
    ensures var m := Reload(e, rd, b, Blank(e.console, t)).m;
            var phys := Fixups(e, rd, b, true, false, false, m).0;
            && phys.t.Shaped()
            && (Fixups(e, rd2, b, false, true, true, phys) == (m, false)
                <==> forall i :: 0 <= i < MaxBat(e.console) ==> SameLuck(e, rd, rd2, b, Blank(e.console, t).t, i))
  {
    var m0 := Blank(e.console, t);
    WipedUnused(t, MaxBat(e.console));
    RoundTripRestores(e, rd, rd2, b, t);
    ReadingsAgree(e, rd, rd2, b, m0);
    NeverFails(e, rd2, b, MaxBat(e.console), Pass(m0, InitialAddress(rd2), false));
  }
}

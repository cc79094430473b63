// The fast form refines the simple one: the page map a reload builds and the BAT search
// name the same region byte for every address.
module MapAgreement {
  import opened Words
  import opened Bat
  import opened MemMap
  import opened MemTheorems

  /** The BATs of this kind translate v to byte o of region r. */
  ghost predicate Names(c: Console, b: Bats, k: Kind, v: Word, r: Region, o: int)
    requires b.Shaped()
  {
    var a := Translate(b.Upper(k), b.Lower(k), v, MaxBat(c));
    a.mapped && 0 <= o < RegionSize(c, r) && a.addr == RegionBase(r) + o
  }

  /** The host grants the window that the BAT translating v asks for. */
  ghost predicate Granted(e: Env, b: Bats, k: Kind, v: Word)
    requires b.Shaped()
  {
    var i := FirstHit(b.Upper(k), v, MaxBat(e.console));
    i < MaxBat(e.console) && b.RegionOf(e.console, k, i).Some?
    && e.accepts(b.BepiAt(k, i), RegionSize(e.console, b.RegionOf(e.console, k, i).value))
  }

  /** No BAT in use points outside the regions. */
  predicate NoStrangers(c: Console, b: Bats)
    requires b.Shaped()
  {
    forall k: Kind, i :: 0 <= i < MaxBat(c) && !b.Empty(k, i) ==> b.RegionOf(c, k, i).Some?
  }

  lemma BaseOnGrid(k: nat, r: Region)
    requires k <= 28
    ensures AndNot(RegionBase(r), Pow2(k) - 1) == RegionBase(r)
  {
    var q := if r.Mem1? then 0 else Pow2(28 - k);
    Pow2Splits(k, 28 - k);
    Pow2Values();
    assert q * Pow2(k) == RegionBase(r);
    LowOnes(k, q, 0);
  }

  lemma RegionAligned(c: Console, u: Word, l: Word, v: Word)
    requires InBlock(u, v) && RegionAt(c, Bprn(l)).Some?
    ensures Phys(u, l, v) == RegionBase(RegionAt(c, Bprn(l)).value) + (v - Bepi(u))
  {
    var k := LegalLength(u);
    BaseOnGrid(k, RegionAt(c, Bprn(l)).value);
  }

  /** The BAT that wins the search for v translates it into its own region. */
  lemma WinnerPhys(c: Console, b: Bats, k: Kind, v: Word)
    requires b.Shaped() && NoStrangers(c, b)
    requires FirstHit(b.Upper(k), v, MaxBat(c)) < MaxBat(c)
    ensures var i := FirstHit(b.Upper(k), v, MaxBat(c));
            && Maps(c, b, k, i) && b.BepiAt(k, i) <= v
            && v - b.BepiAt(k, i) < Size(b.Upper(k)[i]) <= 0x1000_0000
            && Translate(b.Upper(k), b.Lower(k), v, MaxBat(c)).addr
               == RegionBase(b.RegionOf(c, k, i).value) + (v - b.BepiAt(k, i))
  {
    var i := FirstHit(b.Upper(k), v, MaxBat(c));
    assert !b.Empty(k, i);
    RegionAligned(c, b.Upper(k)[i], b.Lower(k)[i], v);
  }

  /** Some active BAT of kind k2 has the address and the region of BAT i of kind k. */
  predicate Vouched(c: Console, b: Bats, k: Kind, i: nat, k2: Kind)
    requires b.Shaped() && i < 8
  {
    exists j :: 0 <= j < MaxBat(c) && VouchedBy(c, b, k, i, k2, j)
  }

  predicate VouchedBy(c: Console, b: Bats, k: Kind, i: nat, k2: Kind, j: nat)
    requires b.Shaped() && i < 8 && j < 8
  {
    && Maps(c, b, k2, j) && Active(b.Upper(k2)[j])
    && b.BepiAt(k2, j) == b.BepiAt(k, i) && b.RegionOf(c, k2, j) == b.RegionOf(c, k, i)
  }

  /** A byte of the window for BAT j of kind k is named by the BATs of kind k2 exactly when one
      of them vouches for the window. */
  lemma WindowNames(c: Console, b: Bats, k: Kind, j: nat, r: Region, v: Word, k2: Kind)
    requires b.Shaped() && WellFormed(c, b) && NoStrangers(c, b)
    requires j < MaxBat(c) && Maps(c, b, k, j) && b.RegionOf(c, k, j) == Some(r)
    requires Covers(b.BepiAt(k, j), RegionSize(c, r), v)
    ensures Names(c, b, k2, v, r, v - b.BepiAt(k, j)) <==> Vouched(c, b, k, j, k2)
  {
    var i := FirstHit(b.Upper(k2), v, MaxBat(c));
    if i < MaxBat(c) {
      WinnerVouches(c, b, k, j, r, v, k2);
    }
    if n :| 0 <= n < MaxBat(c) && VouchedBy(c, b, k, j, k2, n) {
      assert CoversRegion(c, b, k2, n);
      assert Hit(b.Upper(k2)[n], v);
    }
  }

  lemma WinnerVouches(c: Console, b: Bats, k: Kind, j: nat, r: Region, v: Word, k2: Kind)
    requires b.Shaped() && WellFormed(c, b) && NoStrangers(c, b)
    requires j < MaxBat(c) && Maps(c, b, k, j) && b.RegionOf(c, k, j) == Some(r)
    requires Covers(b.BepiAt(k, j), RegionSize(c, r), v) && FirstHit(b.Upper(k2), v, MaxBat(c)) < MaxBat(c)
    ensures VouchedBy(c, b, k, j, k2, FirstHit(b.Upper(k2), v, MaxBat(c)))
    ensures Names(c, b, k2, v, r, v - b.BepiAt(k, j))
  {
    assert CoversRegion(c, b, k, j);
    WinnerPhys(c, b, k2, v);
    assert Compatible(c, b, k2, FirstHit(b.Upper(k2), v, MaxBat(c)), k, j);
  }

  /** The window of a granted BAT is there once the BAT is taken care of. */
  lemma GrantedIsServed(e: Env, b: Bats, m: GuestMap, k: Kind, i: nat)
    requires b.Shaped() && m.t.Shaped() && AllServe(e.console, m) && i < MaxBat(e.console)
    requires Done(e, b, m.t, k, i) && WindowGranted(e, b, k, i)
    ensures Serves(e.console, m.host, b.RegionOf(e.console, k, i).value, k, b.BepiAt(k, i))
  {
    var r, w, n := b.RegionOf(e.console, k, i).value, b.BepiAt(k, i), MaxBat(e.console);
    var k2 := if w in m.t.Get(r, k)[..n] then k else Instr;
    var j :| 0 <= j < n && m.t.Get(r, k2)[j] == w;
    assert Serves(e.console, m.host, r, k2, m.t.Get(r, k2)[j]);
  }

  /** Every byte the BATs name is where they say, unless the host refused the window. */
  lemma NamedIsMapped(e: Env, b: Bats, m: GuestMap, k: Kind, v: Word, r: Region, o: int)
    requires b.Shaped() && m.t.Shaped() && NoStrangers(e.console, b) && AllServe(e.console, m)
    requires AllDone(e, b, m.t, MaxBat(e.console), MaxBat(e.console))
    requires Names(e.console, b, k, v, r, o) && Granted(e, b, k, v)
    ensures v in m.host.Keys && m.host[v].region == r && m.host[v].offset == o
    ensures k.Instr? ==> m.host[v].exec
  {
    WinnerPhys(e.console, b, k, v);
    var i := FirstHit(b.Upper(k), v, MaxBat(e.console));
    assert Done(e, b, m.t, k, i);
    GrantedIsServed(e, b, m, k, i);
    assert b.RegionOf(e.console, k, i) == Some(r) && Covers(b.BepiAt(k, i), RegionSize(e.console, r), v);
  }

  /** Every granted byte the BATs name is mapped where they name it, executable if the
      instruction BATs do. */
  ghost predicate AllNamed(e: Env, b: Bats, h: Host)
    requires b.Shaped()
  {
    forall k: Kind, v: Word, r: Region, o: int ::
      Names(e.console, b, k, v, r, o) && Granted(e, b, k, v) ==>
        v in h.Keys && h[v].region == r && h[v].offset == o && (k.Instr? ==> h[v].exec)
  }

  /** Every live page is a byte the BATs name; every executable one, through the instruction
      BATs. */
  ghost predicate OnlyNamed(c: Console, b: Bats, h: Host)
    requires b.Shaped()
  {
    forall v: Word :: v in h.Keys ==> exists k :: Names(c, b, k, v, h[v].region, h[v].offset)
  }

  ghost predicate OnlyNamedRuns(c: Console, b: Bats, h: Host)
    requires b.Shaped()
  {
    forall v: Word :: v in h.Keys && h[v].exec ==> Names(c, b, Instr, v, h[v].region, h[v].offset)
  }

  /** Every BAT whose window is granted has an active one of either kind to vouch for it; every
      instruction BAT, an active instruction BAT. */
  ghost predicate AllVouched(e: Env, b: Bats)
    requires b.Shaped()
  {
    forall k: Kind, i :: 0 <= i < MaxBat(e.console) && WindowGranted(e, b, k, i) ==>
      exists k2 :: Vouched(e.console, b, k, i, k2)
  }

  ghost predicate InstrVouched(e: Env, b: Bats)
    requires b.Shaped()
  {
    forall i :: 0 <= i < MaxBat(e.console) && WindowGranted(e, b, Instr, i) ==>
      Vouched(e.console, b, Instr, i, Instr)
  }

  /** What windows with vouched BATs hold is named. */
  lemma MappedIsNamed(e: Env, b: Bats, m: GuestMap)
    requires b.Shaped() && m.t.Shaped() && WellFormed(e.console, b) && NoStrangers(e.console, b)
    requires Provenance(e.console, b, m.t, 8, 8) && GrantedEntries(e, m.t)
    requires AllServe(e.console, m) && Tidy(e.console, m) && m.lost == {}
    ensures AllVouched(e, b) ==> OnlyNamed(e.console, b, m.host)
    ensures InstrVouched(e, b) ==> OnlyNamedRuns(e.console, b, m.host)
  {
    var c, h := e.console, m.host;
    if AllVouched(e, b) {
      forall v: Word | v in h.Keys
        ensures exists k :: Names(c, b, k, v, h[v].region, h[v].offset)
      {
        assert InWindows(c, m.t, MaxBat(c), v);
        var r, k, j :| 0 <= j < MaxBat(c) && InWindow(c, m.t, r, k, j, v);
        assert WindowGranted(e, b, k, j);
        var k2 :| Vouched(c, b, k, j, k2);
        WindowByte(c, b, m, r, k, j, v, k2);
      }
    }
    if InstrVouched(e, b) {
      forall v: Word | v in h.Keys && h[v].exec
        ensures Names(c, b, Instr, v, h[v].region, h[v].offset)
      {
        var r, j :| 0 <= j < MaxBat(c) && InWindow(c, m.t, r, Instr, j, v);
        assert WindowGranted(e, b, Instr, j);
        WindowByte(c, b, m, r, Instr, j, v, Instr);
      }
    }
  }

  lemma WindowByte(c: Console, b: Bats, m: GuestMap, r: Region, k: Kind, j: nat, v: Word, k2: Kind)
    requires b.Shaped() && m.t.Shaped() && WellFormed(c, b) && NoStrangers(c, b)
    requires Provenance(c, b, m.t, 8, 8) && AllServe(c, m)
    requires j < MaxBat(c) && InWindow(c, m.t, r, k, j, v)
    ensures v in m.host.Keys && m.host[v].region == r && m.host[v].offset == v - m.t.Get(r, k)[j]
    ensures Names(c, b, k2, v, r, m.host[v].offset) <==> Vouched(c, b, k, j, k2)
  {
    assert Serves(c, m.host, r, k, m.t.Get(r, k)[j]);
    WindowNames(c, b, k, j, r, v, k2);
  }

  /** And only those: the first byte of a granted window is mapped, and named only if the BAT is
      vouched for. */
  lemma FirstByte(e: Env, b: Bats, m: GuestMap, k: Kind, i: nat, k2: Kind)
    requires b.Shaped() && m.t.Shaped() && WellFormed(e.console, b) && NoStrangers(e.console, b)
    requires AllServe(e.console, m) && i < MaxBat(e.console)
    requires Done(e, b, m.t, k, i) && WindowGranted(e, b, k, i)
    ensures var v, h := b.BepiAt(k, i), m.host;
            && v in h.Keys && (k.Instr? ==> h[v].exec)
            && (Names(e.console, b, k2, v, h[v].region, h[v].offset) <==> Vouched(e.console, b, k, i, k2))
  {
    var r, v := b.RegionOf(e.console, k, i).value, b.BepiAt(k, i);
    GrantedIsServed(e, b, m, k, i);
    assert Covers(v, RegionSize(e.console, r), v);
    WindowNames(e.console, b, k, i, r, v, k2);
  }

  lemma NamedIsVouched(e: Env, b: Bats, m: GuestMap)
    requires b.Shaped() && m.t.Shaped() && WellFormed(e.console, b) && NoStrangers(e.console, b)
    requires AllServe(e.console, m) && AllDone(e, b, m.t, MaxBat(e.console), MaxBat(e.console))
    ensures OnlyNamed(e.console, b, m.host) ==> AllVouched(e, b)
    ensures OnlyNamedRuns(e.console, b, m.host) ==> InstrVouched(e, b)
  {
    var c, h := e.console, m.host;
    forall k: Kind, i | 0 <= i < MaxBat(c) && WindowGranted(e, b, k, i)
      ensures OnlyNamed(c, b, h) ==> exists k2 :: Vouched(c, b, k, i, k2)
      ensures OnlyNamedRuns(c, b, h) && k.Instr? ==> Vouched(c, b, k, i, Instr)
    {
      assert Done(e, b, m.t, k, i);
      NamedWindowVouched(e, b, m, k, i);
    }
  }

  lemma NamedWindowVouched(e: Env, b: Bats, m: GuestMap, k: Kind, i: nat)
    requires b.Shaped() && m.t.Shaped() && WellFormed(e.console, b) && NoStrangers(e.console, b)
    requires AllServe(e.console, m) && i < MaxBat(e.console)
    requires Done(e, b, m.t, k, i) && WindowGranted(e, b, k, i)
    ensures OnlyNamed(e.console, b, m.host) ==> exists k2 :: Vouched(e.console, b, k, i, k2)
    ensures OnlyNamedRuns(e.console, b, m.host) && k.Instr? ==> Vouched(e.console, b, k, i, Instr)
  {
    var v, h := b.BepiAt(k, i), m.host;
    FirstByte(e, b, m, k, i, Instr);
    if OnlyNamed(e.console, b, h) {
      var k2 :| Names(e.console, b, k2, v, h[v].region, h[v].offset);
      FirstByte(e, b, m, k, i, k2);
    }
  }

  // ---- The reload from unused tables

  lemma DoneNoStrangers(e: Env, b: Bats, t: Tables)
    requires b.Shaped() && t.Shaped() && AllDone(e, b, t, MaxBat(e.console), MaxBat(e.console))
    ensures NoStrangers(e.console, b)
  {
    forall k: Kind, i | 0 <= i < MaxBat(e.console) && !b.Empty(k, i)
      ensures b.RegionOf(e.console, k, i).Some?
    {
      assert Done(e, b, t, k, i);
    }
  }

  /** Agreement, one way: whatever pages the host held before, a reload of well-formed BATs
      from unused tables puts every granted byte the BATs name where they name it. */
  lemma ReloadServes(e: Env, b: Bats, m: GuestMap)
    requires b.Shaped() && m.t.Shaped() && Unused(m.t, MaxBat(e.console))
    requires WellFormed(e.console, b) && !Reload(e, Intended, b, m).failed
    ensures AllNamed(e, b, Reload(e, Intended, b, m).m.host)
  {
    var q := Reload(e, Intended, b, m);
    PassesInv(e, Intended, b, MaxBat(e.console), Pass(m, 0, false));
    DoneNoStrangers(e, b, q.m.t);
    forall k: Kind, v: Word, r: Region, o: int | Names(e.console, b, k, v, r, o) && Granted(e, b, k, v)
      ensures v in q.m.host.Keys && q.m.host[v].region == r && q.m.host[v].offset == o
      ensures k.Instr? ==> q.m.host[v].exec
    {
      NamedIsMapped(e, b, q.m, k, v, r, o);
    }
  }

  /** Agreement, the other way, with either reading: starting from an empty host and if every
      BAT is vouched for, only bytes the BATs name are mapped, and only bytes the instruction
      BATs name are executable. */
  lemma ReloadServesOnly(e: Env, rd: Reading, b: Bats, m: GuestMap)
    requires b.Shaped() && m.t.Shaped() && Unused(m.t, MaxBat(e.console))
    requires m.host == imap[] && m.lost == {}
    requires WellFormed(e.console, b) && NoStrangers(e.console, b)
    ensures var h := Reload(e, rd, b, m).m.host;
            && (AllVouched(e, b) ==> OnlyNamed(e.console, b, h))
            && (InstrVouched(e, b) ==> OnlyNamedRuns(e.console, b, h))
  {
    var p := Pass(m, InitialAddress(rd), false);
    PassesInv(e, rd, b, MaxBat(e.console), p);
    PassesGranted(e, rd, b, MaxBat(e.console), p);
    MappedIsNamed(e, b, Reload(e, rd, b, m).m);
  }

  /** The reload never looks at the valid bits, so a BAT that translates nothing gets its window
      all the same.  Exactly when each granted one has an active BAT with the same address and
      region does a reload that does not fail map only what the BATs name. */
  lemma ReloadServesExactly(e: Env, b: Bats, m: GuestMap)
    requires b.Shaped() && m.t.Shaped() && Unused(m.t, MaxBat(e.console))
    requires m.host == imap[] && m.lost == {}
    requires WellFormed(e.console, b) && !Reload(e, Intended, b, m).failed
    ensures OnlyNamed(e.console, b, Reload(e, Intended, b, m).m.host) <==> AllVouched(e, b)
    ensures OnlyNamedRuns(e.console, b, Reload(e, Intended, b, m).m.host) <==> InstrVouched(e, b)
  {
    var q := Reload(e, Intended, b, m);
    PassesInv(e, Intended, b, MaxBat(e.console), Pass(m, 0, false));
    DoneNoStrangers(e, b, q.m.t);
    ReloadServesOnly(e, Intended, b, m);
    NamedIsVouched(e, b, q.m);
  }

  /** With either reading, every window a reload installs holds its region's bytes in order, and
      the BATs of either kind name those bytes exactly when they vouch for the window's BAT. */
  lemma ReloadWindowsAgree(e: Env, rd: Reading, b: Bats, m: GuestMap, r: Region, k: Kind, j: nat, v: Word, k2: Kind)
    requires b.Shaped() && m.t.Shaped() && Unused(m.t, MaxBat(e.console))
    requires WellFormed(e.console, b) && NoStrangers(e.console, b)
    requires j < MaxBat(e.console) && InWindow(e.console, Reload(e, rd, b, m).m.t, r, k, j, v)
    ensures var q := Reload(e, rd, b, m);
            && v in q.m.host.Keys && q.m.host[v].region == r && q.m.host[v].offset == v - q.m.t.Get(r, k)[j]
            && (Names(e.console, b, k2, v, r, q.m.host[v].offset) <==> Vouched(e.console, b, k, j, k2))
            && (Active(b.Upper(k)[j]) ==> Names(e.console, b, k, v, r, q.m.host[v].offset))
  {
    var q := Reload(e, rd, b, m);
    PassesInv(e, rd, b, MaxBat(e.console), Pass(m, InitialAddress(rd), false));
    WindowByte(e.console, b, q.m, r, k, j, v, k2);
    if Active(b.Upper(k)[j]) {
      assert VouchedBy(e.console, b, k, j, k, j);
      WindowByte(e.console, b, q.m, r, k, j, v, k);
    }
  }

  // ---- Completeness and idempotence

  /** Every BAT in use ends up in its region's tables, or its window was refused at an
      address from which refusals are expected. */
  lemma ReloadComplete(e: Env, b: Bats, m: GuestMap, k: Kind, i: nat)
    requires b.Shaped() && m.t.Shaped() && Unused(m.t, MaxBat(e.console))
    requires i < MaxBat(e.console) && !b.Empty(k, i) && !Reload(e, Intended, b, m).failed
    ensures b.RegionOf(e.console, k, i).Some?
    ensures var r, v := b.RegionOf(e.console, k, i).value, b.BepiAt(k, i);
            || Present(Reload(e, Intended, b, m).m.t, MaxBat(e.console), r, k, v)
            || (!e.accepts(v, RegionSize(e.console, r)) && MAX_ALLOWED_VADDR <= v
                && !(e.console.GameCube? && k.Instr?))
  {
    PassesInv(e, Intended, b, MaxBat(e.console), Pass(m, 0, false));
    assert Done(e, b, Reload(e, Intended, b, m).m.t, k, i);
  }

  lemma StepAgain(e: Env, rd: Reading, b: Bats, k: Kind, i: nat, p: Pass)
    requires b.Shaped() && p.m.t.Shaped() && i < MaxBat(e.console) && !p.failed
    requires Provenance(e.console, b, p.m.t, 8, 8) && Done(e, b, p.m.t, k, i) && (k.Data? || rd.Intended?)
    ensures BatStep(e, rd, b, k, i, p).m == p.m && !BatStep(e, rd, b, k, i, p).failed
  {
    if !b.Empty(k, i) {
      var r, v := b.RegionOf(e.console, k, i).value, b.BepiAt(k, i);
      if !Present(p.m.t, MaxBat(e.console), r, k, v) {
        assert p.m.t.Get(r, k)[..MaxBat(e.console)][i] == FAILED;
        SetGet(p.m.t, r, k, i, FAILED);
        assert p.m.t.Get(r, k)[i := FAILED] == p.m.t.Get(r, k);
      }
    }
  }

  lemma {:induction false} PassesAgain(e: Env, b: Bats, n: nat, p: Pass)
    requires b.Shaped() && p.m.t.Shaped() && n <= MaxBat(e.console) && !p.failed
    requires Provenance(e.console, b, p.m.t, 8, 8)
    requires AllDone(e, b, p.m.t, MaxBat(e.console), MaxBat(e.console))
    ensures Passes(e, Intended, b, n, p).m == p.m && !Passes(e, Intended, b, n, p).failed
  {
    if n != 0 {
      PassesAgain(e, b, n - 1, p);
      var q := Passes(e, Intended, b, n - 1, p);
      assert Done(e, b, p.m.t, Instr, n - 1) && Done(e, b, p.m.t, Data, n - 1);
      StepAgain(e, Intended, b, Instr, n - 1, q);
      StepAgain(e, Intended, b, Data, n - 1, BatStep(e, Intended, b, Instr, n - 1, q));
    }
  }

  /** A second reload changes no table entry and no page. */
  lemma ReloadIdempotent(e: Env, b: Bats, m: GuestMap)
    requires b.Shaped() && m.t.Shaped() && Unused(m.t, MaxBat(e.console))
    requires !Reload(e, Intended, b, m).failed
    ensures var q := Reload(e, Intended, b, m);
            Reload(e, Intended, b, q.m).m == q.m && !Reload(e, Intended, b, q.m).failed
  {
    PassesInv(e, Intended, b, MaxBat(e.console), Pass(m, 0, false));
    PassesAgain(e, b, MaxBat(e.console), Pass(Reload(e, Intended, b, m).m, 0, false));
  }
}

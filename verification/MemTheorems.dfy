// What one reload pass over the BATs keeps and establishes: where table entries come from,
// which pages their windows hold, and that every live page is accounted for.
module MemTheorems {
  import opened Words
  import opened Bat
  import opened MemMap

  // ---- Table bookkeeping

  lemma SetGet(t: Tables, r: Region, k: Kind, i: nat, w: Word)
    requires t.Shaped() && i < 8
    ensures t.Set(r, k, i, w).Shaped()
    ensures forall r2, k2 :: t.Set(r, k, i, w).Get(r2, k2)
                          == if r2 == r && k2 == k then t.Get(r, k)[i := w] else t.Get(r2, k2)
  {
  }

  /** A BAT step either leaves the map alone or installs that BAT's own window; with the
      intended reading it installs only when no entry rules the address out. */
  lemma StepCases(e: Env, rd: Reading, b: Bats, k: Kind, i: nat, p: Pass)
    requires b.Shaped() && p.m.t.Shaped() && i < 8 && !p.failed
    ensures var q := BatStep(e, rd, b, k, i, p);
            || q.m == p.m
            || (&& !b.Empty(k, i) && b.RegionOf(e.console, k, i).Some?
                && var r, v := b.RegionOf(e.console, k, i).value, b.BepiAt(k, i);
                && q.m == Install(e, k, i, r, v, p.m)
                && (k.Data? || rd.Intended? ==> !Present(p.m.t, MaxBat(e.console), r, k, v)))
  {
  }

  // ---- Invariants of one pass that started from unused tables

  /** How far a pass has got: entries for instruction BATs below li and data BATs below ld
      may be in use, and each names its own BAT's address in its own BAT's region. */
  ghost predicate Provenance(c: Console, b: Bats, t: Tables, li: nat, ld: nat)
    requires b.Shaped() && t.Shaped()
  {
    forall r, k, j :: 0 <= j < MaxBat(c) && t.Get(r, k)[j] != FAILED ==>
      && j < (if k.Instr? then li else ld)
      && !b.Empty(k, j) && b.RegionOf(c, k, j) == Some(r) && t.Get(r, k)[j] == b.BepiAt(k, j)
  }

  /** The pages of a window are the region's bytes in order, executable if it is an
      instruction window. */
  ghost predicate Serves(c: Console, h: Host, r: Region, k: Kind, base: Word) {
    forall a :: Covers(base, RegionSize(c, r), a) ==>
      a in h.Keys && h[a].region == r && h[a].offset == a - base && (k.Instr? ==> h[a].exec)
  }

  ghost predicate AllServe(c: Console, m: GuestMap)
    requires m.t.Shaped()
  {
    forall r, k, j :: 0 <= j < MaxBat(c) && m.t.Get(r, k)[j] != FAILED ==>
      Serves(c, m.host, r, k, m.t.Get(r, k)[j])
  }

  /** BATs whose windows and blocks do not get in each other's way: an active one that names a
      region does not wrap and covers the whole region; any two that name regions reach over
      disjoint addresses or agree on both address and region. */
  predicate WellFormed(c: Console, b: Bats)
    requires b.Shaped()
  {
    && (forall k: Kind, i :: 0 <= i < MaxBat(c) ==> CoversRegion(c, b, k, i))
    && (forall k: Kind, i, k2: Kind, i2 :: 0 <= i < MaxBat(c) && 0 <= i2 < MaxBat(c) ==>
          Compatible(c, b, k, i, k2, i2))
  }

  predicate Maps(c: Console, b: Bats, k: Kind, i: nat)
    requires b.Shaped() && i < 8
  {
    !b.Empty(k, i) && b.RegionOf(c, k, i).Some?
  }

  /** The host grants the window of BAT i of kind k, which is in use. */
  ghost predicate WindowGranted(e: Env, b: Bats, k: Kind, i: nat)
    requires b.Shaped() && i < 8
  {
    Maps(e.console, b, k, i)
    && e.accepts(b.BepiAt(k, i), RegionSize(e.console, b.RegionOf(e.console, k, i).value))
  }

  predicate CoversRegion(c: Console, b: Bats, k: Kind, i: nat)
    requires b.Shaped() && i < 8
  {
    Maps(c, b, k, i) && Active(b.Upper(k)[i]) ==>
      NoWrap(b.Upper(k)[i]) && RegionSize(c, b.RegionOf(c, k, i).value) <= Size(b.Upper(k)[i])
  }

  /** How far a BAT reaches: over its block if it is active; over the window a reload maps for
      it all the same if it is not. */
  function Reach(c: Console, b: Bats, k: Kind, i: nat): nat
    requires b.Shaped() && i < 8 && Maps(c, b, k, i)
  {
    if Active(b.Upper(k)[i]) then Size(b.Upper(k)[i]) else RegionSize(c, b.RegionOf(c, k, i).value)
  }

  predicate Compatible(c: Console, b: Bats, k: Kind, i: nat, k2: Kind, i2: nat)
    requires b.Shaped() && i < 8 && i2 < 8
  {
    Maps(c, b, k, i) && Maps(c, b, k2, i2) ==>
      || (b.BepiAt(k, i) == b.BepiAt(k2, i2) && b.RegionOf(c, k, i) == b.RegionOf(c, k2, i2))
      || b.BepiAt(k, i) + Reach(c, b, k, i) <= b.BepiAt(k2, i2)
      || b.BepiAt(k2, i2) + Reach(c, b, k2, i2) <= b.BepiAt(k, i)
  }

  lemma OverlayServes(c: Console, h: Host, r: Region, k: Kind, base: Word)
    ensures Serves(c, Overlay(h, base, RegionSize(c, r), r, k.Instr?), r, k, base)
  {
  }

  /** A new window leaves another one served if they do not meet, or are the same region at
      the same address and the new one does not take the execute right away. */
  lemma OverlayKeeps(c: Console, h: Host, r: Region, k: Kind, base: Word, r2: Region, k2: Kind, base2: Word)
    requires Serves(c, h, r, k, base)
    requires || (r == r2 && base == base2 && (k.Instr? ==> k2.Instr?))
             || base + RegionSize(c, r) <= base2 || base2 + RegionSize(c, r2) <= base
    ensures Serves(c, Overlay(h, base2, RegionSize(c, r2), r2, k2.Instr?), r, k, base)
  {
  }

  lemma InstallProvenance(e: Env, b: Bats, k: Kind, i: nat, m: GuestMap, li: nat, ld: nat)
    requires b.Shaped() && m.t.Shaped() && i < MaxBat(e.console) && Maps(e.console, b, k, i)
    requires Provenance(e.console, b, m.t, li, ld)
    requires if k.Instr? then li == i else ld == i
    ensures var m' := Install(e, k, i, b.RegionOf(e.console, k, i).value, b.BepiAt(k, i), m);
            && m'.t.Shaped() && m'.lost == m.lost
            && Provenance(e.console, b, m'.t, if k.Instr? then i + 1 else li, if k.Data? then i + 1 else ld)
  {
    var r, v := b.RegionOf(e.console, k, i).value, b.BepiAt(k, i);
    SetGet(m.t, r, k, i, Answer(e, r, v));
  }

  lemma InstallServes(e: Env, b: Bats, k: Kind, i: nat, m: GuestMap, li: nat, ld: nat)
    requires b.Shaped() && m.t.Shaped() && i < MaxBat(e.console) && Maps(e.console, b, k, i)
    requires Provenance(e.console, b, m.t, li, ld) && AllServe(e.console, m) && WellFormed(e.console, b)
    requires k.Data? ==> !Present(m.t, MaxBat(e.console), b.RegionOf(e.console, k, i).value, k, b.BepiAt(k, i))
    ensures var m' := Install(e, k, i, b.RegionOf(e.console, k, i).value, b.BepiAt(k, i), m);
            m'.t.Shaped() && AllServe(e.console, m')
  {
    var c := e.console;
    var r, v := b.RegionOf(c, k, i).value, b.BepiAt(k, i);
    var entry := Answer(e, r, v);
    SetGet(m.t, r, k, i, entry);
    var m' := Install(e, k, i, r, v, m);
    OverlayServes(c, m.host, r, k, v);
    forall r2, k2, j | 0 <= j < MaxBat(c) && m'.t.Get(r2, k2)[j] != FAILED
      ensures Serves(c, m'.host, r2, k2, m'.t.Get(r2, k2)[j])
    {
      if (r2, k2, j) != (r, k, i) && entry == v {
        assert CoversRegion(c, b, k, i) && CoversRegion(c, b, k2, j) && Compatible(c, b, k2, j, k, i);
        OverlayKeeps(c, m.host, r2, k2, m.t.Get(r2, k2)[j], r, k, v);
      }
    }
  }

  // ---- Every live page is accounted for

  ghost predicate InLost(c: Console, lost: set<Window>, a: int) {
    exists w :: w in lost && Covers(w.base, RegionSize(c, w.region), a)
  }

  /** A live page lies in a table window or in a window whose entry was overwritten. */
  ghost predicate Accounted(c: Console, m: GuestMap)
    requires m.t.Shaped()
  {
    forall a :: a in m.host.Keys ==> InWindows(c, m.t, MaxBat(c), a) || InLost(c, m.lost, a)
  }

  /** An executable page lies in an instruction window. */
  ghost predicate ExecInWindows(c: Console, m: GuestMap)
    requires m.t.Shaped()
  {
    forall a :: a in m.host.Keys && m.host[a].exec ==>
      exists r, j :: 0 <= j < MaxBat(c) && InWindow(c, m.t, r, Instr, j, a)
  }

  lemma WindowStays(c: Console, t: Tables, r: Region, k: Kind, i: nat, w: Word, r2: Region, k2: Kind, j: nat, a: int)
    requires t.Shaped() && i < 8 && j < 8
    requires InWindow(c, t, r2, k2, j, a)
    requires (r2, k2, j) == (r, k, i) ==> w == t.Get(r, k)[i]
    ensures t.Set(r, k, i, w).Shaped() && InWindow(c, t.Set(r, k, i, w), r2, k2, j, a)
  {
    SetGet(t, r, k, i, w);
  }

  lemma InstallAccounted(e: Env, k: Kind, i: nat, r: Region, v: Word, m: GuestMap)
    requires m.t.Shaped() && i < MaxBat(e.console) && v != FAILED && Accounted(e.console, m)
    ensures Install(e, k, i, r, v, m).t.Shaped() && Accounted(e.console, Install(e, k, i, r, v, m))
  {
    var c, m' := e.console, Install(e, k, i, r, v, m);
    var size := RegionSize(c, r);
    var entry := Answer(e, r, v);
    SetGet(m.t, r, k, i, entry);
    forall a | a in m'.host.Keys
      ensures InWindows(c, m'.t, MaxBat(c), a) || InLost(c, m'.lost, a)
    {
      if entry == v && Covers(v, size, a) {
        assert InWindow(c, m'.t, r, k, i, a);
      } else if InWindows(c, m.t, MaxBat(c), a) {
        var r2, k2, j :| 0 <= j < MaxBat(c) && InWindow(c, m.t, r2, k2, j, a);
        if (r2, k2, j) == (r, k, i) && entry != m.t.Get(r, k)[i] {
          assert Window(m.t.Get(r, k)[i], r) in m'.lost;
        } else {
          WindowStays(c, m.t, r, k, i, entry, r2, k2, j, a);
        }
      }
    }
  }

  lemma InstallExec(e: Env, k: Kind, i: nat, r: Region, v: Word, m: GuestMap)
    requires m.t.Shaped() && i < MaxBat(e.console) && v != FAILED && ExecInWindows(e.console, m)
    requires m.t.Get(r, k)[i] == FAILED || m.t.Get(r, k)[i] == Answer(e, r, v)
    ensures Install(e, k, i, r, v, m).t.Shaped() && ExecInWindows(e.console, Install(e, k, i, r, v, m))
  {
    var c, m' := e.console, Install(e, k, i, r, v, m);
    var size := RegionSize(c, r);
    var entry := Answer(e, r, v);
    SetGet(m.t, r, k, i, entry);
    forall a | a in m'.host.Keys && m'.host[a].exec
      ensures exists r2, j :: 0 <= j < MaxBat(c) && InWindow(c, m'.t, r2, Instr, j, a)
    {
      if entry == v && Covers(v, size, a) {
        assert InWindow(c, m'.t, r, Instr, i, a);
      } else {
        var r2, j :| 0 <= j < MaxBat(c) && InWindow(c, m.t, r2, Instr, j, a);
        WindowStays(c, m.t, r, k, i, entry, r2, Instr, j, a);
      }
    }
  }

  /** Entries in use were granted. */
  ghost predicate GrantedEntries(e: Env, t: Tables)
    requires t.Shaped()
  {
    forall r: Region, k: Kind, j :: 0 <= j < MaxBat(e.console) && t.Get(r, k)[j] != FAILED ==>
      e.accepts(t.Get(r, k)[j], RegionSize(e.console, r))
  }

  lemma {:induction false} PassesGranted(e: Env, rd: Reading, b: Bats, n: nat, p: Pass)
    requires b.Shaped() && p.m.t.Shaped() && n <= 8 && GrantedEntries(e, p.m.t)
    ensures GrantedEntries(e, Passes(e, rd, b, n, p).m.t)
  {
    if n != 0 {
      PassesGranted(e, rd, b, n - 1, p);
      PairGranted(e, rd, b, n - 1, Passes(e, rd, b, n - 1, p));
    }
  }

  lemma PairGranted(e: Env, rd: Reading, b: Bats, i: nat, p: Pass)
    requires b.Shaped() && p.m.t.Shaped() && i < 8 && GrantedEntries(e, p.m.t)
    ensures GrantedEntries(e, PairStep(e, rd, b, i, p).m.t)
  {
    StepGranted(e, rd, b, Instr, i, p);
    StepGranted(e, rd, b, Data, i, BatStep(e, rd, b, Instr, i, p));
  }

  lemma StepGranted(e: Env, rd: Reading, b: Bats, k: Kind, i: nat, p: Pass)
    requires b.Shaped() && p.m.t.Shaped() && i < 8 && GrantedEntries(e, p.m.t)
    ensures GrantedEntries(e, BatStep(e, rd, b, k, i, p).m.t)
  {
    var q := BatStep(e, rd, b, k, i, p);
    if q.m != p.m {
      var r := b.RegionOf(e.console, k, i).value;
      SetGet(p.m.t, r, k, i, q.m.t.Get(r, k)[i]);
    }
  }

  // ---- What one pass establishes

  /** BAT i of kind k is taken care of: its window is there, or the host refused it for good. */
  ghost predicate Done(e: Env, b: Bats, t: Tables, k: Kind, i: nat)
    requires b.Shaped() && t.Shaped() && i < 8
  {
    !b.Empty(k, i) ==>
      && b.RegionOf(e.console, k, i).Some?
      && var r, v := b.RegionOf(e.console, k, i).value, b.BepiAt(k, i);
      || Present(t, MaxBat(e.console), r, k, v)
      || (!e.accepts(v, RegionSize(e.console, r)) && v >= 0xC000_0000 && (k.Data? || e.console.Wii?))
  }

  ghost predicate AllDone(e: Env, b: Bats, t: Tables, li: nat, ld: nat)
    requires b.Shaped() && t.Shaped() && li <= 8 && ld <= 8
  {
    && (forall i :: 0 <= i < li ==> Done(e, b, t, Instr, i))
    && (forall i :: 0 <= i < ld ==> Done(e, b, t, Data, i))
  }

  /** The state of a pass over these BATs that started from unused tables. */
  ghost predicate PassInv(e: Env, b: Bats, m: GuestMap, li: nat, ld: nat)
    requires b.Shaped()
  {
    && m.t.Shaped()
    && Provenance(e.console, b, m.t, li, ld)
    && (WellFormed(e.console, b) ==> AllServe(e.console, m))
  }

  ghost predicate Tidy(c: Console, m: GuestMap)
    requires m.t.Shaped()
  {
    Accounted(c, m) && ExecInWindows(c, m)
  }

  lemma StepInv(e: Env, rd: Reading, b: Bats, k: Kind, i: nat, p: Pass, ld: nat)
    requires b.Shaped() && i < MaxBat(e.console) && !p.failed
    requires if k.Instr? then ld == i else ld == i + 1
    requires PassInv(e, b, p.m, ld, i)
    ensures var q := BatStep(e, rd, b, k, i, p);
            && q.m.lost == p.m.lost
            && PassInv(e, b, q.m, i + 1, if k.Instr? then i else i + 1)
            && (Tidy(e.console, p.m) ==> Tidy(e.console, q.m))
  {
    StepCases(e, rd, b, k, i, p);
    var q := BatStep(e, rd, b, k, i, p);
    if q.m != p.m {
      var r, v := b.RegionOf(e.console, k, i).value, b.BepiAt(k, i);
      InstallProvenance(e, b, k, i, p.m, ld, i);
      if WellFormed(e.console, b) {
        InstallServes(e, b, k, i, p.m, ld, i);
      }
      if Tidy(e.console, p.m) {
        InstallAccounted(e, k, i, r, v, p.m);
        InstallExec(e, k, i, r, v, p.m);
      }
    }
  }

  lemma PrefixKeeps(s: seq<Word>, n: nat, i: nat, w: Word, v: Word)
    requires i < n <= |s| && (s[i] != v || w == v) && v in s[..n]
    ensures v in s[i := w][..n]
  {
    var j :| 0 <= j < n && s[j] == v;
    assert s[i := w][..n][j] == v;
  }

  lemma SetKeepsPresent(t: Tables, n: nat, r: Region, k: Kind, i: nat, w: Word, r2: Region, k2: Kind, v: Word)
    requires t.Shaped() && i < n <= 8 && (t.Get(r, k)[i] == FAILED || t.Get(r, k)[i] == w) && v != FAILED
    requires Present(t, n, r2, k2, v)
    ensures t.Set(r, k, i, w).Shaped() && Present(t.Set(r, k, i, w), n, r2, k2, v)
  {
    SetGet(t, r, k, i, w);
    if v in t.Get(r, k)[..n] {
      PrefixKeeps(t.Get(r, k), n, i, w, v);
    }
  }

  lemma DoneStays(e: Env, b: Bats, t: Tables, r: Region, k: Kind, i: nat, w: Word, k2: Kind, j: nat)
    requires b.Shaped() && t.Shaped() && i < MaxBat(e.console) && j < 8
    requires (t.Get(r, k)[i] == FAILED || t.Get(r, k)[i] == w) && Done(e, b, t, k2, j)
    ensures t.Set(r, k, i, w).Shaped() && Done(e, b, t.Set(r, k, i, w), k2, j)
  {
    SetGet(t, r, k, i, w);
    if !b.Empty(k2, j) {
      var r2, v := b.RegionOf(e.console, k2, j).value, b.BepiAt(k2, j);
      if Present(t, MaxBat(e.console), r2, k2, v) {
        SetKeepsPresent(t, MaxBat(e.console), r, k, i, w, r2, k2, v);
      }
    }
  }

  lemma AllDoneStays(e: Env, b: Bats, t: Tables, r: Region, k: Kind, i: nat, w: Word, li: nat, ld: nat)
    requires b.Shaped() && t.Shaped() && i < MaxBat(e.console) && li <= 8 && ld <= 8
    requires (t.Get(r, k)[i] == FAILED || t.Get(r, k)[i] == w) && AllDone(e, b, t, li, ld)
    ensures t.Set(r, k, i, w).Shaped() && AllDone(e, b, t.Set(r, k, i, w), li, ld)
  {
    SetGet(t, r, k, i, w);
    forall j | 0 <= j < li { DoneStays(e, b, t, r, k, i, w, Instr, j); }
    forall j | 0 <= j < ld { DoneStays(e, b, t, r, k, i, w, Data, j); }
  }

  lemma InstallDone(e: Env, b: Bats, k: Kind, i: nat, m: GuestMap)
    requires b.Shaped() && m.t.Shaped() && i < MaxBat(e.console) && Maps(e.console, b, k, i)
    requires var r, v := b.RegionOf(e.console, k, i).value, b.BepiAt(k, i);
             e.accepts(v, RegionSize(e.console, r)) || !RefusalIsFatal(e.console, k, v)
    ensures var m' := Install(e, k, i, b.RegionOf(e.console, k, i).value, b.BepiAt(k, i), m);
            m'.t.Shaped() && Done(e, b, m'.t, k, i)
  {
    var r, v := b.RegionOf(e.console, k, i).value, b.BepiAt(k, i);
    var w := Answer(e, r, v);
    SetGet(m.t, r, k, i, w);
    assert m.t.Set(r, k, i, w).Get(r, k)[..MaxBat(e.console)][i] == w;
  }

  /** With the intended reading a step that does not give up takes care of its BAT. */
  lemma StepDoesItsOwn(e: Env, b: Bats, k: Kind, i: nat, p: Pass)
    requires b.Shaped() && p.m.t.Shaped() && i < MaxBat(e.console) && !p.failed
    requires !BatStep(e, Intended, b, k, i, p).failed
    ensures Done(e, b, BatStep(e, Intended, b, k, i, p).m.t, k, i)
  {
    if !b.Empty(k, i) && !Present(p.m.t, MaxBat(e.console), b.RegionOf(e.console, k, i).value, k, b.BepiAt(k, i)) {
      InstallDone(e, b, k, i, p.m);
    }
  }

  /** It undoes nothing, because slot i was still unused. */
  lemma StepKeepsDone(e: Env, b: Bats, k: Kind, i: nat, p: Pass, li: nat, ld: nat)
    requires b.Shaped() && p.m.t.Shaped() && i < MaxBat(e.console) && !p.failed && li <= 8 && ld <= 8
    requires forall r :: p.m.t.Get(r, k)[i] == FAILED
    requires AllDone(e, b, p.m.t, li, ld)
    ensures AllDone(e, b, BatStep(e, Intended, b, k, i, p).m.t, li, ld)
  {
    StepCases(e, Intended, b, k, i, p);
    var q := BatStep(e, Intended, b, k, i, p);
    if q.m != p.m {
      var r := b.RegionOf(e.console, k, i).value;
      InstalledEntry(e, k, i, r, b.BepiAt(k, i), p.m);
      AllDoneStays(e, b, p.m.t, r, k, i, q.m.t.Get(r, k)[i], li, ld);
    }
  }

  lemma StepDone(e: Env, b: Bats, k: Kind, i: nat, p: Pass, ld: nat)
    requires b.Shaped() && i < MaxBat(e.console) && !p.failed
    requires if k.Instr? then ld == i else ld == i + 1
    requires PassInv(e, b, p.m, ld, i) && AllDone(e, b, p.m.t, ld, i)
    requires !BatStep(e, Intended, b, k, i, p).failed
    ensures AllDone(e, b, BatStep(e, Intended, b, k, i, p).m.t, i + 1, if k.Instr? then i else i + 1)
  {
    assert forall r :: p.m.t.Get(r, k)[i] == FAILED;
    StepKeepsDone(e, b, k, i, p, ld, i);
    StepDoesItsOwn(e, b, k, i, p);
    OneMoreDone(e, b, BatStep(e, Intended, b, k, i, p).m.t, k, i, ld);
  }

  lemma OneMoreDone(e: Env, b: Bats, t: Tables, k: Kind, i: nat, ld: nat)
    requires b.Shaped() && t.Shaped() && i < 8 && ld <= 8 && (if k.Instr? then ld == i else ld == i + 1)
    requires AllDone(e, b, t, ld, i) && Done(e, b, t, k, i)
    ensures AllDone(e, b, t, i + 1, if k.Instr? then i else i + 1)
  {
  }

  lemma InstalledEntry(e: Env, k: Kind, i: nat, r: Region, v: Word, m: GuestMap)
    requires m.t.Shaped() && i < 8
    ensures var t := Install(e, k, i, r, v, m).t;
            t.Shaped() && t == m.t.Set(r, k, i, t.Get(r, k)[i])
  {
    SetGet(m.t, r, k, i, Answer(e, r, v));
  }

  ghost predicate Unused(t: Tables, n: nat)
    requires t.Shaped() && n <= 8
  {
    forall r: Region, k: Kind, j :: 0 <= j < n ==> t.Get(r, k)[j] == FAILED
  }

  /** One more pair of BATs. */
  lemma PairInv(e: Env, rd: Reading, b: Bats, i: nat, q: Pass)
    requires b.Shaped() && i < MaxBat(e.console) && !q.failed && PassInv(e, b, q.m, i, i)
    ensures var w := PairStep(e, rd, b, i, q);
            && w.m.lost == q.m.lost
            && PassInv(e, b, w.m, i + 1, i + 1)
            && (Tidy(e.console, q.m) ==> Tidy(e.console, w.m))
  {
    StepInv(e, rd, b, Instr, i, q, i);
    var q1 := BatStep(e, rd, b, Instr, i, q);
    if !q1.failed {
      StepInv(e, rd, b, Data, i, q1, i + 1);
    }
  }

  lemma PairDone(e: Env, b: Bats, i: nat, q: Pass)
    requires b.Shaped() && i < MaxBat(e.console) && !q.failed && PassInv(e, b, q.m, i, i)
    requires AllDone(e, b, q.m.t, i, i) && !PairStep(e, Intended, b, i, q).failed
    ensures AllDone(e, b, PairStep(e, Intended, b, i, q).m.t, i + 1, i + 1)
  {
    StepInv(e, Intended, b, Instr, i, q, i);
    StepDone(e, b, Instr, i, q, i);
    StepDone(e, b, Data, i, BatStep(e, Intended, b, Instr, i, q), i + 1);
  }

  lemma {:induction false} PassesKeep(e: Env, rd: Reading, b: Bats, n: nat, p: Pass)
    requires b.Shaped() && p.m.t.Shaped() && n <= MaxBat(e.console) && !p.failed
    requires Unused(p.m.t, MaxBat(e.console))
    ensures var q := Passes(e, rd, b, n, p);
            && q.m.lost == p.m.lost
            && PassInv(e, b, q.m, n, n)
            && (Tidy(e.console, p.m) ==> Tidy(e.console, q.m))
  {
    if n != 0 {
      PassesKeep(e, rd, b, n - 1, p);
      var q := Passes(e, rd, b, n - 1, p);
      if !q.failed {
        PairInv(e, rd, b, n - 1, q);
      }
    }
  }

  lemma {:induction false} PassesDone(e: Env, b: Bats, n: nat, p: Pass)
    requires b.Shaped() && p.m.t.Shaped() && n <= MaxBat(e.console) && !p.failed
    requires Unused(p.m.t, MaxBat(e.console)) && !Passes(e, Intended, b, n, p).failed
    ensures AllDone(e, b, Passes(e, Intended, b, n, p).m.t, n, n)
  {
    if n != 0 {
      PassesDone(e, b, n - 1, p);
      PassesKeep(e, Intended, b, n - 1, p);
      PairDone(e, b, n - 1, Passes(e, Intended, b, n - 1, p));
    }
  }

  /** A pass over the first n BATs that started from unused tables. */
  lemma PassesInv(e: Env, rd: Reading, b: Bats, n: nat, p: Pass)
    requires b.Shaped() && p.m.t.Shaped() && n <= MaxBat(e.console) && !p.failed
    requires Unused(p.m.t, MaxBat(e.console))
    ensures var q := Passes(e, rd, b, n, p);
            && q.m.lost == p.m.lost
            && PassInv(e, b, q.m, n, n)
            && (Tidy(e.console, p.m) ==> Tidy(e.console, q.m))
            && (rd.Intended? && !q.failed ==> AllDone(e, b, q.m.t, n, n))
  {
    PassesKeep(e, rd, b, n, p);
    if rd.Intended? && !Passes(e, rd, b, n, p).failed {
      PassesDone(e, b, n, p);
    }
  }
}

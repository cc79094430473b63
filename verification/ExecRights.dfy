// Over any sequence of map updates whose BATs, when used, keep one region per 256 MB address,
// every window still in the tables keeps serving its region, and every instruction window
// still in the tables keeps its execute right.
module ExecRights {
  import opened Words
  import opened Bat
  import opened MemMap
  import opened MemTheorems
  import opened ModeSwitch

  const SEGMENT := 0x1000_0000

  /** Which region an address is used for, for good. */
  type Owner = int -> Region

  ghost predicate OwnsPhysical(own: Owner) { own(MEM1_PADDR) == Mem1 && own(MEM2_PADDR) == Mem2 }

  ghost predicate Orderly(c: Console, b: Bats, own: Owner)
    requires b.Shaped()
  {
    forall k: Kind, i :: 0 <= i < MaxBat(c) && Maps(c, b, k, i) ==>
      b.BepiAt(k, i) % SEGMENT == 0 && b.RegionOf(c, k, i) == Some(own(b.BepiAt(k, i)))
  }

  ghost predicate OrderlyTables(c: Console, t: Tables, own: Owner)
    requires t.Shaped()
  {
    forall r: Region, k: Kind, j :: 0 <= j < MaxBat(c) && t.Get(r, k)[j] != FAILED ==>
      t.Get(r, k)[j] % SEGMENT == 0 && own(t.Get(r, k)[j]) == r
  }

  ghost predicate Serving(c: Console, own: Owner, m: GuestMap) {
    m.t.Shaped() && OrderlyTables(c, m.t, own) && AllServe(c, m)
  }

  /** Orderly windows are apart or the same, so none loses its pages to another. */
  lemma InstallSpares(
    e: Env, own: Owner, k: Kind, i: nat, r: Region, v: Word, m: GuestMap, r2: Region, k2: Kind, j: nat)
    requires Serving(e.console, own, m) && i < MaxBat(e.console) && v % SEGMENT == 0 && own(v) == r
    requires k.Data? ==> !Present(m.t, MaxBat(e.console), r, k, v)
    requires j < MaxBat(e.console) && (r2, k2, j) != (r, k, i) && m.t.Get(r2, k2)[j] != FAILED
    ensures Serves(e.console, Overlay(m.host, v, RegionSize(e.console, r), r, k.Instr?), r2, k2, m.t.Get(r2, k2)[j])
  {
    var w := m.t.Get(r2, k2)[j];
    assert m.t.Get(r2, k2)[..MaxBat(e.console)][j] == w;
    OverlayKeeps(e.console, m.host, r2, k2, w, r, k, v);
  }

  lemma InstallServing(e: Env, own: Owner, k: Kind, i: nat, r: Region, v: Word, m: GuestMap)
    requires Serving(e.console, own, m) && i < MaxBat(e.console) && v % SEGMENT == 0 && own(v) == r
    requires k.Data? ==> !Present(m.t, MaxBat(e.console), r, k, v)
    ensures Serving(e.console, own, Install(e, k, i, r, v, m))
  {
    var c, m' := e.console, Install(e, k, i, r, v, m);
    var entry := Answer(e, r, v);
    SetGet(m.t, r, k, i, entry);
    OverlayServes(c, m.host, r, k, v);
    forall r2, k2, j | 0 <= j < MaxBat(c) && m'.t.Get(r2, k2)[j] != FAILED
      ensures Serves(c, m'.host, r2, k2, m'.t.Get(r2, k2)[j])
    {
      if (r2, k2, j) != (r, k, i) && entry == v {
        InstallSpares(e, own, k, i, r, v, m, r2, k2, j);
      }
    }
  }

  lemma {:induction false} PassesServing(e: Env, rd: Reading, b: Bats, own: Owner, n: nat, p: Pass)
    requires b.Shaped() && Orderly(e.console, b, own) && Serving(e.console, own, p.m)
    requires n <= MaxBat(e.console) && !p.failed
    ensures Serving(e.console, own, Passes(e, rd, b, n, p).m)
  {
    if n != 0 {
      PassesServing(e, rd, b, own, n - 1, p);
      var q := Passes(e, rd, b, n - 1, p);
      if !q.failed {
        StepServing(e, rd, b, own, Instr, n - 1, q);
        var q1 := BatStep(e, rd, b, Instr, n - 1, q);
        if !q1.failed {
          StepServing(e, rd, b, own, Data, n - 1, q1);
        }
      }
    }
  }

  lemma StepServing(e: Env, rd: Reading, b: Bats, own: Owner, k: Kind, i: nat, p: Pass)
    requires b.Shaped() && Orderly(e.console, b, own) && Serving(e.console, own, p.m)
    requires i < MaxBat(e.console) && !p.failed
    ensures Serving(e.console, own, BatStep(e, rd, b, k, i, p).m)
  {
    StepCases(e, rd, b, k, i, p);
    if BatStep(e, rd, b, k, i, p).m != p.m {
      assert Maps(e.console, b, k, i);
      InstallServing(e, own, k, i, b.RegionOf(e.console, k, i).value, b.BepiAt(k, i), p.m);
    }
  }

  lemma MapPhysServing(e: Env, own: Owner, r: Region, m: GuestMap)
    requires Serving(e.console, own, m) && own(RegionBase(r)) == r
    ensures Serving(e.console, own, MapPhys(e, r, m))
  {
    var c, m' := e.console, MapPhys(e, r, m);
    MapPhysGet(e, r, m);
    forall r2, k2, j | 0 <= j < MaxBat(c) && m'.t.Get(r2, k2)[j] != FAILED
      ensures Serves(c, m'.host, r2, k2, m'.t.Get(r2, k2)[j])
    {
      if r2 == r && j == 0 {
        OverlayServes(c, m.host, r, Instr, RegionBase(r));
      } else if PhysGranted(e, r) {
        KeptByPhysical(c, m.host, own, r2, k2, m.t.Get(r2, k2)[j], r);
      }
    }
  }

  lemma KeptByPhysical(c: Console, h: Host, own: Owner, r: Region, k: Kind, base: Word, r2: Region)
    requires Serves(c, h, r, k, base) && base % SEGMENT == 0 && own(base) == r && own(RegionBase(r2)) == r2
    ensures Serves(c, Overlay(h, RegionBase(r2), RegionSize(c, r2), r2, true), r, k, base)
  {
    OverlayKeeps(c, h, r, k, base, r2, Instr, RegionBase(r2));
  }

  lemma ToRealServing(e: Env, own: Owner, m: GuestMap)
    requires m.t.Shaped() && OwnsPhysical(own)
    ensures Serving(e.console, own, ToReal(e, m).m)
  {
    WipedUnused(m.t, MaxBat(e.console));
    var m0 := UnmapAll(e.console, MaxBat(e.console), m);
    MapPhysServing(e, own, Mem1, m0);
    MapPhysServing(e, own, Mem2, MapPhys(e, Mem1, m0));
  }

  /** Every update keeps every window in the tables serving its region's bytes in order, the
      instruction windows executable, with either reading of the search. */
  lemma FixupsServing(e: Env, rd: Reading, b: Bats, own: Owner, was: bool, ir: bool, dr: bool, m: GuestMap)
    requires b.Shaped() && OwnsPhysical(own) && (ir && dr ==> Orderly(e.console, b, own)) && Serving(e.console, own, m)
    ensures Serving(e.console, own, Fixups(e, rd, b, was, ir, dr, m).0)
  {
    var c := e.console;
    if ir == dr && was && !ir {
      ToRealServing(e, own, m);
    } else if ir == dr && ir {
      WipedUnused(m.t, MaxBat(c));
      var m1 := if was then m else UnmapAll(c, MaxBat(c), m);
      PassesServing(e, rd, b, own, MaxBat(c), Pass(m1, InitialAddress(rd), false));
    }
  }
}

// When a reload takes an execute right away.  Windows that keep their table entry keep their
// right; but a window whose entry is overwritten by a later BAT of the same pass is forgotten,
// and a data BAT for its address that comes after that lays a data window over its pages.
module ExecExactly {
  import opened Words
  import opened Bat
  import opened MemMap
  import opened MemTheorems
  import opened MapAgreement
  import opened Lookups
  import opened ExecRights
  import opened StaleProbe

  /** Data BAT d gets a window: no table lists its address when its turn comes, and the host
      grants it. */
  ghost predicate Laid(e: Env, rd: Reading, b: Bats, t: Tables, d: nat)
    requires b.Shaped() && t.Shaped() && d < 8
  {
    WindowGranted(e, b, Data, d) && !DataFound(e, rd, b, t, d)
  }

  ghost predicate UsesAddress(e: Env, b: Bats, k: Kind, i: nat, v: Word)
    requires b.Shaped() && i < 8
  {
    Maps(e.console, b, k, i) && b.BepiAt(k, i) == v
  }

  /** Among the first n pairs a data window is laid at v and no instruction BAT for v comes after
      it. */
  ghost predicate Stripped(e: Env, b: Bats, t: Tables, v: Word, n: nat)
    requires b.Shaped() && t.Shaped() && n <= 8
  {
    exists d :: 0 <= d < n && StrippedBy(e, b, t, v, n, d)
  }

  ghost predicate StrippedBy(e: Env, b: Bats, t: Tables, v: Word, n: nat, d: nat)
    requires b.Shaped() && t.Shaped() && d < n <= 8
  {
    Laid(e, Intended, b, t, d) && b.BepiAt(Data, d) == v && forall i :: d < i < n ==> !UsesAddress(e, b, Instr, i, v)
  }

  lemma StrippedNext(e: Env, b: Bats, t: Tables, v: Word, i: nat)
    requires b.Shaped() && t.Shaped() && i < 8
    ensures Stripped(e, b, t, v, i + 1)
       <==> (Laid(e, Intended, b, t, i) && b.BepiAt(Data, i) == v)
            || (Stripped(e, b, t, v, i) && !UsesAddress(e, b, Instr, i, v))
  {
    var n := i + 1;
    if d :| 0 <= d < n && StrippedBy(e, b, t, v, n, d) {
      assert d < i ==> StrippedBy(e, b, t, v, i, d);
    }
    if Laid(e, Intended, b, t, i) && b.BepiAt(Data, i) == v {
      assert StrippedBy(e, b, t, v, i + 1, i);
    }
    if Stripped(e, b, t, v, i) && !UsesAddress(e, b, Instr, i, v) {
      var d :| 0 <= d < i && StrippedBy(e, b, t, v, i, d);
      assert StrippedBy(e, b, t, v, i + 1, d);
    }
  }

  // ---- Pages at one address along the pass

  /** All pages of the window at v are live, and executable or not. */
  ghost predicate Runs(c: Console, h: Host, own: Owner, v: Word, exec: bool) {
    forall a :: Covers(v, RegionSize(c, own(v)), a) ==> a in h.Keys && h[a].exec == exec
  }

  lemma ElsewhereKeeps(c: Console, h: Host, own: Owner, v: Word, exec: bool, w: Word, r: Region, x: bool)
    requires Runs(c, h, own, v, exec) && v % SEGMENT == 0 && w % SEGMENT == 0 && v != w
    ensures Runs(c, Overlay(h, w, RegionSize(c, r), r, x), own, v, exec)
  {
  }

  lemma InstrRuns(e: Env, b: Bats, own: Owner, i: nat, p: Pass, v: Word, exec: bool)
    requires b.Shaped() && Orderly(e.console, b, own) && Serving(e.console, own, p.m) && v % SEGMENT == 0
    requires i < MaxBat(e.console) && !p.failed && !BatStep(e, Intended, b, Instr, i, p).failed
    requires e.accepts(v, RegionSize(e.console, own(v)))
    requires UsesAddress(e, b, Instr, i, v) || Runs(e.console, p.m.host, own, v, exec)
    ensures Runs(e.console, BatStep(e, Intended, b, Instr, i, p).m.host, own, v, exec || UsesAddress(e, b, Instr, i, v))
  {
    var c, q := e.console, BatStep(e, Intended, b, Instr, i, p);
    StepServing(e, Intended, b, own, Instr, i, p);
    StepCases(e, Intended, b, Instr, i, p);
    if UsesAddress(e, b, Instr, i, v) {
      StepDoesItsOwn(e, b, Instr, i, p);
      var j :| 0 <= j < MaxBat(c) && q.m.t.Get(own(v), Instr)[j] == v;
      assert Serves(c, q.m.host, own(v), Instr, q.m.t.Get(own(v), Instr)[j]);
    } else if q.m != p.m && e.accepts(b.BepiAt(Instr, i), RegionSize(c, RegionIn(e, b, Instr, i))) {
      ElsewhereKeeps(c, p.m.host, own, v, exec, b.BepiAt(Instr, i), RegionIn(e, b, Instr, i), true);
    }
  }

  lemma DataRuns(e: Env, b: Bats, own: Owner, t: Tables, i: nat, p: Pass, v: Word, exec: bool)
    requires b.Shaped() && t.Shaped() && p.m.t.Shaped() && Orderly(e.console, b, own) && v % SEGMENT == 0
    requires i < MaxBat(e.console) && !p.failed && Traced(e, Intended, b, t, i + 1, i, p.m.t)
    requires Runs(e.console, p.m.host, own, v, exec)
    ensures Runs(e.console, BatStep(e, Intended, b, Data, i, p).m.host, own, v,
                 exec && !(Laid(e, Intended, b, t, i) && b.BepiAt(Data, i) == v))
  {
    if Maps(e.console, b, Data, i) {
      var r, w := RegionIn(e, b, Data, i), b.BepiAt(Data, i);
      assert Present(p.m.t, MaxBat(e.console), r, Data, w) <==> DataFound(e, Intended, b, t, i);
      assert w % SEGMENT == 0 && r == own(w);
      if Laid(e, Intended, b, t, i) && w != v {
        ElsewhereKeeps(e.console, p.m.host, own, v, exec, w, r, false);
      }
    }
  }

  lemma PairRuns(e: Env, b: Bats, own: Owner, t: Tables, i: nat, p: Pass, v: Word)
    requires b.Shaped() && t.Shaped() && Orderly(e.console, b, own) && Serving(e.console, own, p.m)
    requires v % SEGMENT == 0 && e.accepts(v, RegionSize(e.console, own(v)))
    requires i < MaxBat(e.console) && !p.failed && !PairStep(e, Intended, b, i, p).failed
    requires Traced(e, Intended, b, t, i, i, p.m.t) && p.vaddr == Left(e, Intended, b, t, i)
    requires UsesAddress(e, b, Instr, i, v) || Runs(e.console, p.m.host, own, v, !Stripped(e, b, t, v, i))
    ensures Runs(e.console, PairStep(e, Intended, b, i, p).m.host, own, v, !Stripped(e, b, t, v, i + 1))
  {
    InstrRuns(e, b, own, i, p, v, !Stripped(e, b, t, v, i));
    InstrFollows(e, Intended, b, t, i, p);
    var p1 := BatStep(e, Intended, b, Instr, i, p);
    DataRuns(e, b, own, t, i, p1, v, !Stripped(e, b, t, v, i) || UsesAddress(e, b, Instr, i, v));
    StrippedNext(e, b, t, v, i);
  }

  /** After the first n pairs the window of an instruction BAT among them is executable unless its
      pages have been stripped. */
  lemma {:induction false} PassesRun(e: Env, b: Bats, own: Owner, n: nat, m: GuestMap, v: Word, i: nat)
    requires b.Shaped() && Orderly(e.console, b, own) && Serving(e.console, own, m) && i < n <= MaxBat(e.console)
    requires UsesAddress(e, b, Instr, i, v) && WindowGranted(e, b, Instr, i)
    requires !Passes(e, Intended, b, n, Pass(m, 0, false)).failed
    ensures Runs(e.console, Passes(e, Intended, b, n, Pass(m, 0, false)).m.host, own, v, !Stripped(e, b, m.t, v, n))
  {
    var q := Passes(e, Intended, b, n - 1, Pass(m, 0, false));
    if i < n - 1 {
      PassesRun(e, b, own, n - 1, m, v, i);
    }
    PassesServing(e, Intended, b, own, n - 1, Pass(m, 0, false));
    PassesFollow(e, Intended, b, n - 1, m);
    PairRuns(e, b, own, m.t, n - 1, q, v);
  }

  // ---- What the instruction BATs name

  /** Every granted byte the instruction BATs name is executable. */
  ghost predicate AllRun(e: Env, b: Bats, h: Host)
    requires b.Shaped()
  {
    forall v: Word, r: Region, o: int :: Names(e.console, b, Instr, v, r, o) && Granted(e, b, Instr, v) ==>
      v in h.Keys && h[v].exec
  }

  /** No instruction BAT that is granted and translates its own address is stripped. */
  ghost predicate KeepsRights(e: Env, b: Bats, t: Tables)
    requires b.Shaped() && t.Shaped()
  {
    forall i :: 0 <= i < MaxBat(e.console) && WindowGranted(e, b, Instr, i) && Hit(b.ibatu[i], b.BepiAt(Instr, i)) ==>
      !Stripped(e, b, t, b.BepiAt(Instr, i), MaxBat(e.console))
  }

  /** The winner for a named byte translates its own address as well. */
  lemma WinnerStart(e: Env, b: Bats, v: Word)
    requires b.Shaped() && NoStrangers(e.console, b) && FirstHit(b.ibatu, v, MaxBat(e.console)) < MaxBat(e.console)
    ensures var i := FirstHit(b.ibatu, v, MaxBat(e.console));
            Hit(b.ibatu[i], b.BepiAt(Instr, i))
  {
  }

  lemma KeptIsRun(e: Env, b: Bats, own: Owner, m: GuestMap, v: Word, r: Region, o: int)
    requires b.Shaped() && Orderly(e.console, b, own) && Serving(e.console, own, m) && NoStrangers(e.console, b)
    requires !Reload(e, Intended, b, m).failed && KeepsRights(e, b, m.t)
    requires Names(e.console, b, Instr, v, r, o) && Granted(e, b, Instr, v)
    ensures v in Reload(e, Intended, b, m).m.host.Keys && Reload(e, Intended, b, m).m.host[v].exec
  {
    var n, i := MaxBat(e.console), FirstHit(b.ibatu, v, MaxBat(e.console));
    WinnerPhys(e.console, b, Instr, v);
    WinnerStart(e, b, v);
    var w := b.BepiAt(Instr, i);
    assert UsesAddress(e, b, Instr, i, w) && WindowGranted(e, b, Instr, i) && own(w) == RegionIn(e, b, Instr, i) == r;
    PassesRun(e, b, own, n, m, w, i);
    assert Covers(w, RegionSize(e.console, own(w)), v);
  }

  /** An instruction BAT that translates its own address has its first byte named. */
  lemma FirstByteNamed(e: Env, b: Bats, own: Owner, i: nat)
    requires b.Shaped() && Orderly(e.console, b, own) && NoStrangers(e.console, b)
    requires i < MaxBat(e.console) && WindowGranted(e, b, Instr, i) && Hit(b.ibatu[i], b.BepiAt(Instr, i))
    ensures Names(e.console, b, Instr, b.BepiAt(Instr, i), own(b.BepiAt(Instr, i)), 0)
    ensures Granted(e, b, Instr, b.BepiAt(Instr, i))
  {
    var v := b.BepiAt(Instr, i);
    WinnerPhys(e.console, b, Instr, v);
    var j := FirstHit(b.ibatu, v, MaxBat(e.console));
    var w := b.BepiAt(Instr, j);
    assert w % SEGMENT == 0 && v % SEGMENT == 0;
    DivUnique(v, SEGMENT, w / SEGMENT, v - w);
  }

  lemma RunIsKept(e: Env, b: Bats, own: Owner, m: GuestMap, i: nat)
    requires b.Shaped() && Orderly(e.console, b, own) && Serving(e.console, own, m) && NoStrangers(e.console, b)
    requires !Reload(e, Intended, b, m).failed && AllRun(e, b, Reload(e, Intended, b, m).m.host)
    requires i < MaxBat(e.console) && WindowGranted(e, b, Instr, i) && Hit(b.ibatu[i], b.BepiAt(Instr, i))
    ensures !Stripped(e, b, m.t, b.BepiAt(Instr, i), MaxBat(e.console))
  {
    var v := b.BepiAt(Instr, i);
    FirstByteNamed(e, b, own, i);
    assert UsesAddress(e, b, Instr, i, v);
    PassesRun(e, b, own, MaxBat(e.console), m, v, i);
    assert Covers(v, RegionSize(e.console, own(v)), v);
  }

  /** Exactly when a reload of orderly BATs leaves every granted byte that the instruction BATs name
      executable: when none of their addresses gets a data window, no table listing it by then,
      after the last instruction BAT for it. */
  lemma ReloadRuns(e: Env, b: Bats, own: Owner, m: GuestMap)
    requires b.Shaped() && Orderly(e.console, b, own) && Serving(e.console, own, m) && NoStrangers(e.console, b)
    requires !Reload(e, Intended, b, m).failed
    ensures AllRun(e, b, Reload(e, Intended, b, m).m.host) <==> KeepsRights(e, b, m.t)
  {
    var h := Reload(e, Intended, b, m).m.host;
    if KeepsRights(e, b, m.t) {
      forall v: Word, r: Region, o: int | Names(e.console, b, Instr, v, r, o) && Granted(e, b, Instr, v)
        ensures v in h.Keys && h[v].exec
      {
        KeptIsRun(e, b, own, m, v, r, o);
      }
    }
    if AllRun(e, b, h) {
      forall i | 0 <= i < MaxBat(e.console) && WindowGranted(e, b, Instr, i) && Hit(b.ibatu[i], b.BepiAt(Instr, i))
        ensures !Stripped(e, b, m.t, b.BepiAt(Instr, i), MaxBat(e.console))
      {
        RunIsKept(e, b, own, m, i);
      }
    }
  }

  /** From unused tables an instruction BAT's window, once listed, stays listed. */
  lemma FreshListed(e: Env, b: Bats, t: Tables, i: nat, n: nat)
    requires b.Shaped() && t.Shaped() && Unused(t, MaxBat(e.console)) && i < n <= MaxBat(e.console)
    requires WindowGranted(e, b, Instr, i)
    ensures b.BepiAt(Instr, i) in InstrRow(e, Intended, b, t, n, RegionIn(e, b, Instr, i))[..MaxBat(e.console)]
  {
    var r, v, m := RegionIn(e, b, Instr, i), b.BepiAt(Instr, i), MaxBat(e.console);
    var j := i;
    var row := InstrRow(e, Intended, b, t, i, r)[..m];
    assert Found(e, Intended, b, t, i) <==> v in row;
    if Found(e, Intended, b, t, i) {
      j :| 0 <= j < m && row[j] == v;
      RowAt(e, Intended, b, t, i, r, j);
    }
    RowAt(e, Intended, b, t, n, r, j);
    assert InstrRow(e, Intended, b, t, n, r)[..m][j] == v;
  }

  /** So the reload at a switch to translated mode takes no right away. */
  lemma FreshKeepsRights(e: Env, b: Bats, own: Owner, t: Tables)
    requires b.Shaped() && t.Shaped() && Orderly(e.console, b, own) && Unused(t, MaxBat(e.console))
    ensures KeepsRights(e, b, t)
  {
    var n := MaxBat(e.console);
    forall i | 0 <= i < n && WindowGranted(e, b, Instr, i)
      ensures !Stripped(e, b, t, b.BepiAt(Instr, i), n)
    {
      var v := b.BepiAt(Instr, i);
      if d :| 0 <= d < n && StrippedBy(e, b, t, v, n, d) {
        assert UsesAddress(e, b, Instr, i, v);
        FreshListed(e, b, t, i, d + 1);
      }
    }
  }

  // ---- A right that is lost

  const RIGHT: Word := 0x8000_0000

  /** GameCube BATs that all name MEM1: instruction BATs 0 and 3 and, at 0x80000000, data BAT 3. */
  function ThreeBats(u0: Word, u3: Word): (b: Bats)
    ensures b.Shaped()
  {
    Bats([u0, 0, 0, u3, 0, 0, 0, 0], [2, 0, 0, 2, 0, 0, 0, 0],
         [0, 0, 0, 0x8000_1FFF, 0, 0, 0, 0], [0, 0, 0, 2, 0, 0, 0, 0])
  }

  /** All the proofs need to know of them. */
  ghost predicate Three(b: Bats, v0: Word, v3: Word) {
    && b.Shaped()
    && (forall k: Kind, i :: 0 <= i < 4 ==> (b.Empty(k, i) <==> !(i == 3 || (i == 0 && k.Instr?))))
    && b.RegionOf(GameCube, Instr, 0) == b.RegionOf(GameCube, Instr, 3) == b.RegionOf(GameCube, Data, 3) == Some(Mem1)
    && b.BepiAt(Instr, 0) == v0 && b.BepiAt(Instr, 3) == v3 && b.BepiAt(Data, 3) == RIGHT
  }

  /** A host that grants everything, for a GameCube. */
  ghost predicate Generous(e: Env) { e.console == GameCube && forall v: Word, s: Word :: e.accepts(v, s) }

  function Listing(x: seq<Word>, i: nat, v: Word): seq<Word>
    requires i < |x|
  {
    if v in x then x else x[i := v]
  }

  lemma ThreeRows(e: Env, b: Bats, v0: Word, v3: Word, t: Tables, x: seq<Word>)
    requires Generous(e) && Three(b, v0, v3) && t.Shaped() && x == t.Get(Mem1, Instr)[..4]
    ensures InstrRow(e, Intended, b, t, 4, Mem1)[..4] == Listing(Listing(x, 0, v0), 3, v3)
    ensures DataFound(e, Intended, b, t, 3)
       <==> RIGHT in t.Get(Mem1, Data)[..4] || RIGHT in Listing(Listing(x, 0, v0), 3, v3)
  {
    var row := InstrRow(e, Intended, b, t, 0, Mem1);
    assert row[0 := v0][..4] == row[..4][0 := v0];
    assert InstrRow(e, Intended, b, t, 1, Mem1)[..4] == Listing(x, 0, v0);
    assert InstrRow(e, Intended, b, t, 2, Mem1) == InstrRow(e, Intended, b, t, 1, Mem1);
    var row3 := InstrRow(e, Intended, b, t, 3, Mem1);
    assert row3 == InstrRow(e, Intended, b, t, 2, Mem1);
    assert row3[3 := v3][..4] == row3[..4][3 := v3];
    assert DataRow(e, Intended, b, t, 1, Mem1) == t.Get(Mem1, Data);
    assert DataRow(e, Intended, b, t, 2, Mem1) == t.Get(Mem1, Data);
    assert DataRow(e, Intended, b, t, 3, Mem1) == t.Get(Mem1, Data);
  }

  lemma ThreeReload(e: Env, b: Bats, own: Owner, v0: Word, v3: Word, m: GuestMap, x: seq<Word>)
    requires Generous(e) && Three(b, v0, v3) && Orderly(GameCube, b, own) && Serving(GameCube, own, m)
    requires x == m.t.Get(Mem1, Instr)[..4] && RIGHT !in m.t.Get(Mem1, Data)[..4]
    ensures var q, z := Reload(e, Intended, b, m), Listing(Listing(x, 0, v0), 3, v3);
            && !q.failed && Serving(GameCube, own, q.m) && q.m.t.Get(Mem1, Instr)[..4] == z
            && (RIGHT in z ==> q.m.t.Get(Mem1, Data)[..4] == m.t.Get(Mem1, Data)[..4])
            && (v0 == RIGHT && RIGHT !in z ==> Stripped(e, b, m.t, RIGHT, 4))
  {
    assert Acceptable(e, b);
    NeverFails(e, Intended, b, 4, Pass(m, 0, false));
    PassesServing(e, Intended, b, own, 4, Pass(m, 0, false));
    PassesFollow(e, Intended, b, 4, m);
    ThreeRows(e, b, v0, v3, m.t, x);
    if v0 == RIGHT && RIGHT !in Listing(Listing(x, 0, v0), 3, v3) {
      assert StrippedBy(e, b, m.t, RIGHT, 4, 3);
    } else if RIGHT in Listing(Listing(x, 0, v0), 3, v3) {
      assert DataRow(e, Intended, b, m.t, 1, Mem1) == m.t.Get(Mem1, Data);
      assert DataRow(e, Intended, b, m.t, 2, Mem1) == m.t.Get(Mem1, Data);
      assert DataRow(e, Intended, b, m.t, 3, Mem1) == m.t.Get(Mem1, Data);
    }
  }

  lemma ThreeFacts(u0: Word, u3: Word)
    requires u0 != 0 && u3 != 0
    ensures Three(ThreeBats(u0, u3), Bepi(u0), Bepi(u3))
  {
  }

  lemma ThreeOrderly(b: Bats, own: Owner, v0: Word, v3: Word)
    requires Three(b, v0, v3) && own(RIGHT) == own(v0) == own(v3) == Mem1 && v0 % SEGMENT == 0 && v3 % SEGMENT == 0
    ensures Orderly(GameCube, b, own)
  {
  }

  /** Three reloads in a row: the BATs are orderly and nothing fails, but a granted byte that the
      instruction BATs name in the end is mapped and not executable. */
  ghost predicate LosesRight(e: Env, b1: Bats, b2: Bats, b3: Bats, own: Owner, m: GuestMap)
    requires b1.Shaped() && b2.Shaped() && b3.Shaped() && m.t.Shaped()
  {
    var q1 := Reload(e, Intended, b1, m);
    var q2 := Reload(e, Intended, b2, q1.m);
    var q3 := Reload(e, Intended, b3, q2.m);
    && Orderly(e.console, b1, own) && Orderly(e.console, b2, own) && Orderly(e.console, b3, own)
    && !q1.failed && !q2.failed && !q3.failed
    && Names(e.console, b3, Instr, RIGHT, Mem1, 0) && Granted(e, b3, Instr, RIGHT)
    && RIGHT in q3.m.host.Keys && !q3.m.host[RIGHT].exec
  }

  /** Instruction BAT 0 moves to 0x80000000, which BAT 3 lists, and then BAT 3 moves on.  Data BAT 3
      has its turn when the entry is gone. */
  lemma RightLost(e: Env, own: Owner, m: GuestMap)
    requires Generous(e) && own(RIGHT) == own(0xA000_0000) == own(0xB000_0000) == Mem1
    requires m.t.Shaped() && Unused(m.t, 4)
    ensures LosesRight(e, ThreeBats(0xA000_1FFF, 0x8000_1FFF), ThreeBats(0x8000_1FFF, 0x8000_1FFF),
                       ThreeBats(0x8000_1FFF, 0xB000_1FFF), own, m)
  {
    ThreeFacts(0xA000_1FFF, 0x8000_1FFF);
    ThreeFacts(0x8000_1FFF, 0x8000_1FFF);
    ThreeFacts(0x8000_1FFF, 0xB000_1FFF);
    assert Hit(0x8000_1FFF, RIGHT);
    ThreeLose(e, ThreeBats(0xA000_1FFF, 0x8000_1FFF), ThreeBats(0x8000_1FFF, 0x8000_1FFF),
              ThreeBats(0x8000_1FFF, 0xB000_1FFF), own, m);
  }

  lemma ThreeLose(e: Env, b1: Bats, b2: Bats, b3: Bats, own: Owner, m: GuestMap)
    requires Generous(e) && own(RIGHT) == own(0xA000_0000) == own(0xB000_0000) == Mem1
    requires Three(b1, 0xA000_0000, RIGHT) && Three(b2, RIGHT, RIGHT) && Three(b3, RIGHT, 0xB000_0000)
    requires Hit(b3.ibatu[0], RIGHT) && m.t.Shaped() && Unused(m.t, 4)
    ensures LosesRight(e, b1, b2, b3, own, m)
  {
    ThreeOrderly(b1, own, 0xA000_0000, RIGHT);
    ThreeOrderly(b2, own, RIGHT, RIGHT);
    ThreeOrderly(b3, own, RIGHT, 0xB000_0000);
    assert m.t.Get(Mem1, Instr)[..4] == [FAILED, FAILED, FAILED, FAILED];
    ThreeReload(e, b1, own, 0xA000_0000, RIGHT, m, [FAILED, FAILED, FAILED, FAILED]);
    var m1 := Reload(e, Intended, b1, m).m;
    ThreeReload(e, b2, own, RIGHT, RIGHT, m1, [0xA000_0000, FAILED, FAILED, RIGHT]);
    var m2 := Reload(e, Intended, b2, m1).m;
    ThreeReload(e, b3, own, RIGHT, 0xB000_0000, m2, [0xA000_0000, FAILED, FAILED, RIGHT]);
    LastLoses(e, b3, own, m2);
  }

  lemma LastLoses(e: Env, b: Bats, own: Owner, m: GuestMap)
    requires Generous(e) && Three(b, RIGHT, 0xB000_0000) && Orderly(GameCube, b, own) && Serving(GameCube, own, m)
    requires Hit(b.ibatu[0], RIGHT) && !Reload(e, Intended, b, m).failed && Stripped(e, b, m.t, RIGHT, 4)
    requires own(RIGHT) == Mem1
    ensures Names(e.console, b, Instr, RIGHT, Mem1, 0) && Granted(e, b, Instr, RIGHT)
    ensures var h := Reload(e, Intended, b, m).m.host; RIGHT in h.Keys && !h[RIGHT].exec
  {
    assert UsesAddress(e, b, Instr, 0, RIGHT);
    PassesRun(e, b, own, 4, m, RIGHT, 0);
    assert Covers(RIGHT, RegionSize(GameCube, Mem1), RIGHT);
    FirstByteNamed(e, b, own, 0);
  }
}

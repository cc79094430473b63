// What a reload does to each page, with either reading of the search, and what that makes of runs
// that write BATs while translating: as long as the BATs keep one region per 256 MB aligned
// address, a page holds what the last window laid over it put there, or what it held before.
module WrittenPages {
  import opened Words
  import opened Bat
  import opened MemMap
  import opened MemTheorems
  import opened MapAgreement
  import opened Lookups
  import opened ModeSwitch
  import opened ExecRights
  import opened ExecExactly
  import opened StaleProbe
  import opened DefaultBats
  import opened Spr
  import opened Decoder
  import opened Machine
  import opened MachineTheorems
  import opened WrittenAgreement
  import opened OrderlyRuns

  /** The last window a reload lays at an address: none, an instruction or a data window. */
  datatype Trail = Untouched | CodeLast | DataLast

  function Segment(a: Word): Word { a - a % SEGMENT }

  /** The trail at v after the first n pairs, from the BATs, the tables before and the host's
      answers. */
  ghost function TrailAt(e: Env, rd: Reading, b: Bats, t: Tables, v: Word, n: nat): Trail
    requires b.Shaped() && t.Shaped() && n <= 8
  {
    if n == 0 then Untouched
    else if Laid(e, rd, b, t, n - 1) && b.BepiAt(Data, n - 1) == v then DataLast
    else if Placed(e, rd, b, t, n - 1) && b.BepiAt(Instr, n - 1) == v then CodeLast
    else TrailAt(e, rd, b, t, v, n - 1)
  }

  /** The page at a afterwards: as before, or the owner's byte under the last window. */
  ghost predicate PageIs(c: Console, own: Owner, h0: Host, h: Host, x: Trail, a: Word) {
    if x.Untouched? || a % SEGMENT >= RegionSize(c, own(Segment(a))) then
      (a in h.Keys <==> a in h0.Keys) && (a in h0.Keys ==> h[a] == h0[a])
    else
      a in h.Keys && h[a] == MemMap.Cell(own(Segment(a)), a % SEGMENT, x.CodeLast?)
  }

  lemma OverlayPage(c: Console, own: Owner, h0: Host, h: Host, x: Trail, a: Word, w: Word, exec: bool)
    requires PageIs(c, own, h0, h, x, a) && w % SEGMENT == 0
    ensures PageIs(c, own, h0, Overlay(h, w, RegionSize(c, own(w)), own(w), exec),
                   if w != Segment(a) then x else if exec then CodeLast else DataLast, a)
  {
    if Covers(w, RegionSize(c, own(w)), a) {
      DivUnique(a, SEGMENT, w / SEGMENT, a - w);
    }
  }

  lemma InstrPage(e: Env, rd: Reading, b: Bats, own: Owner, t: Tables, i: nat, p: Pass, h0: Host, x: Trail, a: Word)
    requires b.Shaped() && t.Shaped() && p.m.t.Shaped() && i < 8 && !p.failed && Orderly(e.console, b, own)
    requires i < MaxBat(e.console) && Traced(e, rd, b, t, i, i, p.m.t) && p.vaddr == Left(e, rd, b, t, i)
    requires PageIs(e.console, own, h0, p.m.host, x, a)
    ensures PageIs(e.console, own, h0, BatStep(e, rd, b, Instr, i, p).m.host,
                   if Placed(e, rd, b, t, i) && b.BepiAt(Instr, i) == Segment(a) then CodeLast else x, a)
  {
    if Maps(e.console, b, Instr, i) {
      var r, w := RegionIn(e, b, Instr, i), b.BepiAt(Instr, i);
      assert Present(p.m.t, MaxBat(e.console), r, Instr, Probe(e, rd, b, t, i)) <==> Found(e, rd, b, t, i);
      assert r == own(w);
      OverlayPage(e.console, own, h0, p.m.host, x, a, w, true);
    }
  }

  lemma DataPage(e: Env, rd: Reading, b: Bats, own: Owner, t: Tables, i: nat, p: Pass, h0: Host, x: Trail, a: Word)
    requires b.Shaped() && t.Shaped() && p.m.t.Shaped() && i < 8 && !p.failed && Orderly(e.console, b, own)
    requires i < MaxBat(e.console) && Traced(e, rd, b, t, i + 1, i, p.m.t)
    requires PageIs(e.console, own, h0, p.m.host, x, a)
    ensures PageIs(e.console, own, h0, BatStep(e, rd, b, Data, i, p).m.host,
                   if Laid(e, rd, b, t, i) && b.BepiAt(Data, i) == Segment(a) then DataLast else x, a)
  {
    if Maps(e.console, b, Data, i) {
      var r, w := RegionIn(e, b, Data, i), b.BepiAt(Data, i);
      assert Present(p.m.t, MaxBat(e.console), r, Data, w) <==> DataFound(e, rd, b, t, i);
      assert r == own(w);
      OverlayPage(e.console, own, h0, p.m.host, x, a, w, false);
    }
  }

  lemma PairPage(e: Env, rd: Reading, b: Bats, own: Owner, t: Tables, i: nat, p: Pass, h0: Host, a: Word)
    requires b.Shaped() && t.Shaped() && p.m.t.Shaped() && i < MaxBat(e.console) && !p.failed
    requires Orderly(e.console, b, own) && !PairStep(e, rd, b, i, p).failed
    requires Traced(e, rd, b, t, i, i, p.m.t) && p.vaddr == Left(e, rd, b, t, i)
    requires PageIs(e.console, own, h0, p.m.host, TrailAt(e, rd, b, t, Segment(a), i), a)
    ensures PageIs(e.console, own, h0, PairStep(e, rd, b, i, p).m.host, TrailAt(e, rd, b, t, Segment(a), i + 1), a)
  {
    var x := TrailAt(e, rd, b, t, Segment(a), i);
    InstrPage(e, rd, b, own, t, i, p, h0, x, a);
    InstrFollows(e, rd, b, t, i, p);
    var x1 := if Placed(e, rd, b, t, i) && b.BepiAt(Instr, i) == Segment(a) then CodeLast else x;
    DataPage(e, rd, b, own, t, i, BatStep(e, rd, b, Instr, i, p), h0, x1, a);
  }

  /** Every page after the first n pairs, in closed form. */
  lemma {:induction false} PassesPage(e: Env, rd: Reading, b: Bats, own: Owner, n: nat, m: GuestMap, a: Word)
    requires b.Shaped() && m.t.Shaped() && Orderly(e.console, b, own) && n <= MaxBat(e.console)
    requires !Passes(e, rd, b, n, Pass(m, InitialAddress(rd), false)).failed
    ensures PageIs(e.console, own, m.host, Passes(e, rd, b, n, Pass(m, InitialAddress(rd), false)).m.host,
                   TrailAt(e, rd, b, m.t, Segment(a), n), a)
  {
    if n != 0 {
      PassesPage(e, rd, b, own, n - 1, m, a);
      PassesFollow(e, rd, b, n - 1, m);
      PairPage(e, rd, b, own, m.t, n - 1, Passes(e, rd, b, n - 1, Pass(m, InitialAddress(rd), false)), m.host, a);
    }
  }

  // ---- What the BATs name

  /** A page serves a byte named by BATs of kind k: from an instruction window, for data also from
      a data window, or as it was before. */
  ghost predicate PageServes(x: Trail, h0: Host, k: Kind, a: int) {
    match x
    case Untouched => a in h0.Keys && (k.Instr? ==> h0[a].exec)
    case CodeLast => true
    case DataLast => k.Data?
  }

  /** Every granted byte the BATs name is on a page that serves it after a reload from m. */
  ghost predicate AllServed(e: Env, rd: Reading, b: Bats, m: GuestMap)
    requires b.Shaped() && m.t.Shaped()
  {
    forall k: Kind, v: Word, r: Region, o: int :: Names(e.console, b, k, v, r, o) && Granted(e, b, k, v) ==>
      PageServes(TrailAt(e, rd, b, m.t, Segment(v), MaxBat(e.console)), m.host, k, v)
  }

  /** A named byte lies in the window at its segment, which is for its region. */
  lemma NamedInSegment(e: Env, b: Bats, own: Owner, k: Kind, v: Word, r: Region, o: int)
    requires b.Shaped() && Orderly(e.console, b, own) && NoStrangers(e.console, b) && Names(e.console, b, k, v, r, o)
    ensures r == own(Segment(v)) && o == v % SEGMENT < RegionSize(e.console, r)
  {
    WinnerPhys(e.console, b, k, v);
    var w := b.BepiAt(k, FirstHit(b.Upper(k), v, MaxBat(e.console)));
    DivUnique(v, SEGMENT, w / SEGMENT, v - w);
  }

  lemma PageNamed(c: Console, own: Owner, h0: Host, h: Host, x: Trail, k: Kind, v: Word, r: Region, o: int)
    requires Owned(own, h0) && PageIs(c, own, h0, h, x, v)
    requires r == own(Segment(v)) && o == v % SEGMENT < RegionSize(c, r)
    ensures v in h.Keys && h[v].region == r && h[v].offset == o && (k.Instr? ==> h[v].exec) <==> PageServes(x, h0, k, v)
  {
  }

  lemma NamedPage(e: Env, rd: Reading, b: Bats, own: Owner, m: GuestMap, k: Kind, v: Word, r: Region, o: int)
    requires b.Shaped() && m.t.Shaped() && Orderly(e.console, b, own) && Owned(own, m.host)
    requires NoStrangers(e.console, b) && !Reload(e, rd, b, m).failed && Names(e.console, b, k, v, r, o)
    ensures var h := Reload(e, rd, b, m).m.host;
            v in h.Keys && h[v].region == r && h[v].offset == o && (k.Instr? ==> h[v].exec)
            <==> PageServes(TrailAt(e, rd, b, m.t, Segment(v), MaxBat(e.console)), m.host, k, v)
  {
    NamedInSegment(e, b, own, k, v, r, o);
    PassesPage(e, rd, b, own, MaxBat(e.console), m, v);
    var x := TrailAt(e, rd, b, m.t, Segment(v), MaxBat(e.console));
    PageNamed(e.console, own, m.host, Reload(e, rd, b, m).m.host, x, k, v, r, o);
  }

  /** Exactly when a reload of orderly BATs that does not fail leaves every granted byte they name
      mapped where they name it, and executable where the instruction BATs name it: for either
      reading, from any tables, whatever windows were left behind. */
  lemma ReloadNames(e: Env, rd: Reading, b: Bats, own: Owner, m: GuestMap)
    requires b.Shaped() && m.t.Shaped() && Orderly(e.console, b, own) && Owned(own, m.host)
    requires !Reload(e, rd, b, m).failed
    ensures AllNamed(e, b, Reload(e, rd, b, m).m.host) <==> AllServed(e, rd, b, m)
  {
    var h := Reload(e, rd, b, m).m.host;
    PassesNoStrangers(e, rd, b, Pass(m, InitialAddress(rd), false));
    forall k: Kind, v: Word, r: Region, o: int | Names(e.console, b, k, v, r, o)
      ensures v in h.Keys && h[v].region == r && h[v].offset == o && (k.Instr? ==> h[v].exec)
              <==> PageServes(TrailAt(e, rd, b, m.t, Segment(v), MaxBat(e.console)), m.host, k, v)
    {
      NamedPage(e, rd, b, own, m, k, v, r, o);
    }
  }

  // ---- Over runs

  /** The windows the update of a trap starts from. */
  ghost function Before(q: State): (m: GuestMap)
    requires q.Shaped()
    ensures m.t.Shaped()
  {
    var c := q.env.console;
    WipedUnused(q.windows.t, MaxBat(c));
    if q.Translating() then q.windows else UnmapAll(c, MaxBat(c), q.windows)
  }

  /** The last update of the run, or the first reload if there was none, served every byte. */
  ghost predicate LastServes(s: State, first: bool, ts: seq<Trap>)
    requires s.Shaped() && Trace(ts)
  {
    if ts == [] then first
    else
      var ts', t := ts[..|ts| - 1], ts[|ts| - 1];
      var q := Enter(Run(s, ts'), t);
      var s1 := Execute(q, Decode(t.word));
      if q.fatal || !s1.needsUpdate then LastServes(s, first, ts')
      else AllServed(s.env, q.reading, s1.cpu.bats, Before(q))
  }

  /** Pages belong to their owners, and while the guest translates the BATs are served exactly if
      the last update saw to it. */
  ghost predicate ServedInv(s: State, own: Owner, served: bool) {
    && s.Shaped()
    && (!s.fatal ==>
          && Owned(own, s.windows.host)
          && (s.batWindows ==> (AllNamed(s.env, s.cpu.bats, s.windows.host) <==> served)))
  }

  lemma UpdateServed(s: State, q: State, own: Owner)
    requires s.Shaped() && q.Shaped() && OwnsPhysical(own) && Owned(own, s.windows.host)
    requires s.env == q.env && s.windows == q.windows && s.batWindows == q.Translating() && s.reading == q.reading
    requires s.Translating() ==> Orderly(s.env.console, s.cpu.bats, own)
    ensures ServedInv(Update(s, q.Translating()), own, AllServed(s.env, s.reading, s.cpu.bats, Before(q)))
  {
    var e := s.env;
    if s.cpu.InstrTranslation() == s.cpu.DataTranslation() && !Update(s, q.Translating()).fatal {
      if s.Translating() {
        var m1 := Before(q);
        PassesOwned(e, s.reading, s.cpu.bats, own, MaxBat(e.console), Pass(m1, InitialAddress(s.reading), false));
        ReloadNames(e, s.reading, s.cpu.bats, own, m1);
      } else if q.Translating() {
        ToRealOwned(e, own, s.windows);
      }
    }
  }

  lemma StepServed(q: State, w: Word, own: Owner, served: bool)
    requires StateInv(q) && !q.fatal && Agrees(q) && OwnsPhysical(own) && ServedInv(q, own, served)
    requires Step(q, w).Translating() ==> Orderly(q.env.console, Step(q, w).cpu.bats, own)
    ensures var s1 := Execute(q, Decode(w));
            ServedInv(Step(q, w), own, if !s1.needsUpdate then served
                                       else AllServed(q.env, q.reading, s1.cpu.bats, Before(q)))
  {
    var s1 := Execute(q, Decode(w));
    BatsAsked(q, Decode(w));
    if s1.needsUpdate {
      UpdateServed(s1, q, own);
    }
  }

  /** What the first reload of an ordinary image serves. */
  ghost predicate StartServes(e: Env, rd: Reading) {
    AllServed(e, rd, Default(e.console), GuestMap(InitialTables(rd), imap[], {}))
  }

  lemma BootServed(e: Env, rd: Reading, bs1: bool, gpr: seq<Reg>, pc: Word, own: Owner)
    requires |gpr| == 32 && !Boot(e, rd, bs1, gpr, pc).fatal
    requires OwnsPhysical(own) && (!bs1 ==> Orderly(e.console, Default(e.console), own))
    ensures ServedInv(Boot(e, rd, bs1, gpr, pc), own, StartServes(e, rd))
  {
    var m0 := GuestMap(InitialTables(rd), imap[], {});
    EarlyMsr(bs1);
    BootAgrees(e, rd, bs1, gpr, pc);
    if bs1 {
      ToRealOwned(e, own, m0);
    } else {
      PassesOwned(e, rd, Default(e.console), own, MaxBat(e.console), Pass(m0, InitialAddress(rd), false));
      ReloadNames(e, rd, Default(e.console), own, m0);
    }
  }

  lemma {:induction false} RunServed(e: Env, rd: Reading, bs1: bool, gpr: seq<Reg>, pc: Word, ts: seq<Trap>, own: Owner)
    requires |gpr| == 32 && Trace(ts) && !Boot(e, rd, bs1, gpr, pc).fatal
    requires NeverToggles(Boot(e, rd, bs1, gpr, pc), ts)
    requires OwnsPhysical(own) && OrderlyRun(Boot(e, rd, bs1, gpr, pc), ts, own)
    ensures var s := Boot(e, rd, bs1, gpr, pc);
            ServedInv(Run(s, ts), own, LastServes(s, StartServes(e, rd), ts))
  {
    var s := Boot(e, rd, bs1, gpr, pc);
    if ts == [] {
      BootAgrees(e, rd, bs1, gpr, pc);
      BootServed(e, rd, bs1, gpr, pc, own);
    } else {
      var t, ts' := ts[|ts| - 1], ts[..|ts| - 1];
      RunServed(e, rd, bs1, gpr, pc, ts', own);
      RunInv(e, rd, bs1, gpr, pc, ts');
      RunAgrees(e, rd, bs1, gpr, pc, ts');
      if !Run(s, ts').fatal {
        StepServed(Enter(Run(s, ts'), t), t.word, own, LastServes(s, StartServes(e, rd), ts'));
      }
    }
  }

  /** Over every run that switches translation by rfi only, for the code as meant and as it stands,
      BAT writes while translating included: in a translating state every granted byte the BATs
      name is mapped where they name it, and executable where the instruction BATs name it, if and
      only if the last update served it, which that update's BATs, tables and pages decide; as
      long as the BATs were orderly whenever the guest was translating. */
  lemma RunNamesWritten(e: Env, rd: Reading, bs1: bool, gpr: seq<Reg>, pc: Word, ts: seq<Trap>, own: Owner)
    requires |gpr| == 32 && Trace(ts) && !Boot(e, rd, bs1, gpr, pc).fatal
    requires NeverToggles(Boot(e, rd, bs1, gpr, pc), ts)
    requires OwnsPhysical(own) && OrderlyRun(Boot(e, rd, bs1, gpr, pc), ts, own)
    ensures var s := Boot(e, rd, bs1, gpr, pc);
            var q := Run(s, ts);
            !q.fatal && q.Translating() ==>
              (AllNamed(e, q.cpu.bats, q.windows.host) <==> LastServes(s, StartServes(e, rd), ts))
  {
    RunServed(e, rd, bs1, gpr, pc, ts, own);
    RunAgrees(e, rd, bs1, gpr, pc, ts);
  }

  // ---- Data bytes are always served

  lemma {:induction false} TouchedBy(e: Env, rd: Reading, b: Bats, t: Tables, v: Word, j: nat, n: nat)
    requires b.Shaped() && t.Shaped() && j < n <= 8
    requires || (Laid(e, rd, b, t, j) && b.BepiAt(Data, j) == v)
             || (Placed(e, rd, b, t, j) && b.BepiAt(Instr, j) == v)
    ensures !TrailAt(e, rd, b, t, v, n).Untouched?
  {
    if j < n - 1 {
      TouchedBy(e, rd, b, t, v, j, n - 1);
    }
  }

  /** An address that a row lists is that of a window which was there before, or is laid now. */
  lemma ListedTouched(e: Env, rd: Reading, b: Bats, t: Tables, i: nat, r: Region, k: Kind, v: Word, j: nat)
    requires b.Shaped() && t.Shaped() && i <= MaxBat(e.console) && j < MaxBat(e.console) && v != FAILED
    requires (if k.Instr? then InstrRow(e, rd, b, t, i, r) else DataRow(e, rd, b, t, i, r))[j] == v
    ensures t.Get(r, k)[j] == v || !TrailAt(e, rd, b, t, v, MaxBat(e.console)).Untouched?
  {
    RowAt(e, rd, b, t, i, r, j);
    DataRowAt(e, rd, b, t, i, r, j);
    if t.Get(r, k)[j] != v {
      TouchedBy(e, rd, b, t, v, j, MaxBat(e.console));
    }
  }

  lemma DataTouched(e: Env, rd: Reading, b: Bats, m: GuestMap, i: nat, a: int)
    requires b.Shaped() && m.t.Shaped() && Live(e.console, m) && i < MaxBat(e.console) && WindowGranted(e, b, Data, i)
    requires Covers(b.BepiAt(Data, i), RegionSize(e.console, RegionIn(e, b, Data, i)), a)
    ensures a in m.host.Keys || !TrailAt(e, rd, b, m.t, b.BepiAt(Data, i), MaxBat(e.console)).Untouched?
  {
    var c, n, r, v := e.console, MaxBat(e.console), RegionIn(e, b, Data, i), b.BepiAt(Data, i);
    if DataFound(e, rd, b, m.t, i) {
      if v in DataRow(e, rd, b, m.t, i, r)[..n] {
        var j :| 0 <= j < n && DataRow(e, rd, b, m.t, i, r)[..n][j] == v;
        ListedTouched(e, rd, b, m.t, i, r, Data, v, j);
        assert m.t.Get(r, Data)[j] == v ==> InWindow(c, m.t, r, Data, j, a);
      } else {
        var j :| 0 <= j < n && InstrRow(e, rd, b, m.t, i + 1, r)[..n][j] == v;
        ListedTouched(e, rd, b, m.t, i + 1, r, Instr, v, j);
        assert m.t.Get(r, Instr)[j] == v ==> InWindow(c, m.t, r, Instr, j, a);
      }
    } else {
      TouchedBy(e, rd, b, m.t, v, i, n);
    }
  }

  /** Every granted byte the data BATs name is mapped where they name it. */
  ghost predicate DataNamed(e: Env, b: Bats, h: Host)
    requires b.Shaped()
  {
    forall v: Word, r: Region, o: int :: Names(e.console, b, Data, v, r, o) && Granted(e, b, Data, v) ==>
      v in h.Keys && h[v].region == r && h[v].offset == o
  }

  lemma DataByte(e: Env, rd: Reading, b: Bats, own: Owner, m: GuestMap, v: Word, r: Region, o: int)
    requires b.Shaped() && m.t.Shaped() && Orderly(e.console, b, own) && Live(e.console, m)
    requires NoStrangers(e.console, b) && Names(e.console, b, Data, v, r, o) && Granted(e, b, Data, v)
    ensures PageServes(TrailAt(e, rd, b, m.t, Segment(v), MaxBat(e.console)), m.host, Data, v)
  {
    WinnerPhys(e.console, b, Data, v);
    var i := FirstHit(b.dbatu, v, MaxBat(e.console));
    var w := b.BepiAt(Data, i);
    DivUnique(v, SEGMENT, w / SEGMENT, v - w);
    DataTouched(e, rd, b, m, i, v);
  }

  /** A reload with either reading that starts from live windows serves all of them. */
  lemma ReloadNamesData(e: Env, rd: Reading, b: Bats, own: Owner, m: GuestMap)
    requires b.Shaped() && m.t.Shaped() && Orderly(e.console, b, own) && Owned(own, m.host) && Live(e.console, m)
    requires !Reload(e, rd, b, m).failed
    ensures DataNamed(e, b, Reload(e, rd, b, m).m.host)
  {
    PassesNoStrangers(e, rd, b, Pass(m, InitialAddress(rd), false));
    var h := Reload(e, rd, b, m).m.host;
    forall v: Word, r: Region, o: int | Names(e.console, b, Data, v, r, o) && Granted(e, b, Data, v)
      ensures v in h.Keys && h[v].region == r && h[v].offset == o
    {
      DataByte(e, rd, b, own, m, v, r, o);
      NamedPage(e, rd, b, own, m, Data, v, r, o);
    }
  }

  lemma UpdateNamesData(s: State, q: State, own: Owner)
    requires s.Shaped() && q.Shaped() && MapGood(q) && OwnsPhysical(own) && Owned(own, s.windows.host)
    requires s.env == q.env && s.windows == q.windows && s.reading == q.reading
    requires s.Translating() && !Update(s, q.Translating()).fatal && Orderly(s.env.console, s.cpu.bats, own)
    ensures DataNamed(s.env, s.cpu.bats, Update(s, q.Translating()).windows.host)
  {
    WipedUnused(s.windows.t, MaxBat(s.env.console));
    ReloadNamesData(s.env, s.reading, s.cpu.bats, own, Before(q));
  }

  ghost predicate DataInv(s: State)
    requires s.Shaped()
  {
    !s.fatal && s.batWindows ==> DataNamed(s.env, s.cpu.bats, s.windows.host)
  }

  lemma StepNamesData(q: State, w: Word, own: Owner)
    requires StateInv(q) && !q.fatal && Agrees(q) && MapGood(q) && OwnsPhysical(own)
    requires Owned(own, q.windows.host) && DataInv(q)
    requires Step(q, w).Translating() ==> Orderly(q.env.console, Step(q, w).cpu.bats, own)
    ensures DataInv(Step(q, w))
  {
    var s1 := Execute(q, Decode(w));
    BatsAsked(q, Decode(w));
    if s1.needsUpdate && s1.Translating() && !Step(q, w).fatal {
      UpdateNamesData(s1, q, own);
    }
  }

  lemma BootNamesData(e: Env, rd: Reading, bs1: bool, gpr: seq<Reg>, pc: Word, own: Owner)
    requires |gpr| == 32 && !Boot(e, rd, bs1, gpr, pc).fatal && (rd.Intended? || bs1)
    requires OwnsPhysical(own) && (!bs1 ==> Orderly(e.console, Default(e.console), own))
    ensures DataInv(Boot(e, rd, bs1, gpr, pc))
  {
    EarlyMsr(bs1);
    BootAgrees(e, rd, bs1, gpr, pc);
    if !bs1 {
      var m0 := GuestMap(InitialTables(rd), imap[], {});
      StartMap(e, rd);
      ReloadNamesData(e, rd, Default(e.console), own, m0);
    }
  }

  /** Over the same runs the granted bytes that the data BATs of a translating state name are always
      where they name them, whatever the stack holds; with the start-up loops as written, from the
      first time in real mode. */
  lemma {:induction false} RunNamesDataWritten(
    e: Env, rd: Reading, bs1: bool, gpr: seq<Reg>, pc: Word, ts: seq<Trap>, own: Owner)
    requires |gpr| == 32 && Trace(ts) && !Boot(e, rd, bs1, gpr, pc).fatal
    requires rd.Intended? || BeenReal(Boot(e, rd, bs1, gpr, pc), ts)
    requires NeverToggles(Boot(e, rd, bs1, gpr, pc), ts)
    requires OwnsPhysical(own) && OrderlyRun(Boot(e, rd, bs1, gpr, pc), ts, own)
    ensures DataInv(Run(Boot(e, rd, bs1, gpr, pc), ts))
  {
    var s := Boot(e, rd, bs1, gpr, pc);
    if ts == [] {
      BootAgrees(e, rd, bs1, gpr, pc);
      BootNamesData(e, rd, bs1, gpr, pc, own);
    } else {
      var t, ts' := ts[|ts| - 1], ts[..|ts| - 1];
      if (rd.Intended? || BeenReal(s, ts')) && !Run(s, ts').fatal {
        RunNamesDataWritten(e, rd, bs1, gpr, pc, ts', own);
        RunServed(e, rd, bs1, gpr, pc, ts', own);
        RunInv(e, rd, bs1, gpr, pc, ts');
        RunMap(e, rd, bs1, gpr, pc, ts');
        RunAgrees(e, rd, bs1, gpr, pc, ts');
        StepNamesData(Enter(Run(s, ts'), t), t.word, own);
      }
    }
  }
}

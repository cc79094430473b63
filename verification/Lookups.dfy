// The searches of one reload in closed form: by which address each BAT is looked up, among
// which table entries, and what the tables hold when its turn comes.  All of it follows from
// the BATs, the tables before, the first address and the host's answers; no page is looked at.
module Lookups {
  import opened Words
  import opened Bat
  import opened MemMap
  import opened MemTheorems

  type Row = s: seq<Word> | |s| == 8 witness [0, 0, 0, 0, 0, 0, 0, 0]

  /** The region of BAT i, which is in use. */
  function RegionIn(e: Env, b: Bats, k: Kind, i: nat): Region
    requires b.Shaped() && i < 8 && Maps(e.console, b, k, i)
  {
    b.RegionOf(e.console, k, i).value
  }

  /** What the address variable holds when the turn of BAT pair i comes. */
  function Left(e: Env, rd: Reading, b: Bats, t: Tables, i: nat): Word
    requires b.Shaped() && t.Shaped() && i <= 8
    decreases i, 0
  {
    if i == 0 then InitialAddress(rd)
    else if !b.Empty(Data, i - 1) then b.BepiAt(Data, i - 1)
    else if Maps(e.console, b, Instr, i - 1) && (rd.Intended? || !Found(e, rd, b, t, i - 1)) then b.BepiAt(Instr, i - 1)
    else Left(e, rd, b, t, i - 1)
  }

  /** The address instruction BAT i is looked up by. */
  function Probe(e: Env, rd: Reading, b: Bats, t: Tables, i: nat): Word
    requires b.Shaped() && t.Shaped() && i < 8
    decreases i, 1
  {
    if rd.Intended? then b.BepiAt(Instr, i) else Left(e, rd, b, t, i)
  }

  /** A region's instruction table before the turn of BAT pair i. */
  function InstrRow(e: Env, rd: Reading, b: Bats, t: Tables, i: nat, r: Region): Row
    requires b.Shaped() && t.Shaped() && i <= 8
    decreases i, 0
  {
    if i == 0 then t.Get(r, Instr)
    else
      var row := InstrRow(e, rd, b, t, i - 1, r);
      if Maps(e.console, b, Instr, i - 1) && RegionIn(e, b, Instr, i - 1) == r && !Found(e, rd, b, t, i - 1)
      then row[i - 1 := Answer(e, r, b.BepiAt(Instr, i - 1))]
      else row
  }

  /** The look-up for instruction BAT i finds its address, so that its window is not asked for. */
  predicate Found(e: Env, rd: Reading, b: Bats, t: Tables, i: nat)
    requires b.Shaped() && t.Shaped() && i < 8 && Maps(e.console, b, Instr, i)
    decreases i, 2
  {
    Probe(e, rd, b, t, i) in InstrRow(e, rd, b, t, i, RegionIn(e, b, Instr, i))[..MaxBat(e.console)]
  }

  /** A region's data table before the turn of BAT pair i. */
  function DataRow(e: Env, rd: Reading, b: Bats, t: Tables, i: nat, r: Region): Row
    requires b.Shaped() && t.Shaped() && i <= 8
    decreases i, 0
  {
    if i == 0 then t.Get(r, Data)
    else
      var row := DataRow(e, rd, b, t, i - 1, r);
      if Maps(e.console, b, Data, i - 1) && RegionIn(e, b, Data, i - 1) == r && !DataFound(e, rd, b, t, i - 1)
      then row[i - 1 := Answer(e, r, b.BepiAt(Data, i - 1))]
      else row
  }

  /** The look-up for data BAT i finds its address in the data table or, instruction BAT i having
      had its turn, in the instruction table. */
  predicate DataFound(e: Env, rd: Reading, b: Bats, t: Tables, i: nat)
    requires b.Shaped() && t.Shaped() && i < 8 && Maps(e.console, b, Data, i)
    decreases i, 1
  {
    var r, n := RegionIn(e, b, Data, i), MaxBat(e.console);
    b.BepiAt(Data, i) in DataRow(e, rd, b, t, i, r)[..n] || b.BepiAt(Data, i) in InstrRow(e, rd, b, t, i + 1, r)[..n]
  }

  // ---- The reload follows the closed form

  /** The tables are those before instruction BAT ii's and data BAT i's turns. */
  ghost predicate Traced(e: Env, rd: Reading, b: Bats, t: Tables, ii: nat, i: nat, s: Tables)
    requires b.Shaped() && t.Shaped() && s.Shaped() && i <= 8 && ii <= 8
  {
    forall r: Region :: s.Get(r, Instr) == InstrRow(e, rd, b, t, ii, r) && s.Get(r, Data) == DataRow(e, rd, b, t, i, r)
  }

  lemma InstrFollows(e: Env, rd: Reading, b: Bats, t: Tables, i: nat, p: Pass)
    requires b.Shaped() && t.Shaped() && p.m.t.Shaped() && i < 8 && !p.failed
    requires Traced(e, rd, b, t, i, i, p.m.t) && p.vaddr == Left(e, rd, b, t, i)
    requires !BatStep(e, rd, b, Instr, i, p).failed
    ensures var q := BatStep(e, rd, b, Instr, i, p);
            && Traced(e, rd, b, t, i + 1, i, q.m.t)
            && (b.Empty(Data, i) ==> q.vaddr == Left(e, rd, b, t, i + 1))
  {
    var q := BatStep(e, rd, b, Instr, i, p);
    if Maps(e.console, b, Instr, i) {
      var r := RegionIn(e, b, Instr, i);
      SetGet(p.m.t, r, Instr, i, Answer(e, r, b.BepiAt(Instr, i)));
      assert Present(p.m.t, MaxBat(e.console), r, Instr, Probe(e, rd, b, t, i)) <==> Found(e, rd, b, t, i);
    }
    forall r: Region
      ensures q.m.t.Get(r, Instr) == InstrRow(e, rd, b, t, i + 1, r) && q.m.t.Get(r, Data) == DataRow(e, rd, b, t, i, r)
    {
      assert p.m.t.Get(r, Instr) == InstrRow(e, rd, b, t, i, r);
    }
  }

  lemma DataFollows(e: Env, rd: Reading, b: Bats, t: Tables, i: nat, p: Pass)
    requires b.Shaped() && t.Shaped() && p.m.t.Shaped() && i < 8 && !p.failed
    requires Traced(e, rd, b, t, i + 1, i, p.m.t)
    requires b.Empty(Data, i) ==> p.vaddr == Left(e, rd, b, t, i + 1)
    requires !BatStep(e, rd, b, Data, i, p).failed
    ensures var q := BatStep(e, rd, b, Data, i, p);
            Traced(e, rd, b, t, i + 1, i + 1, q.m.t) && q.vaddr == Left(e, rd, b, t, i + 1)
  {
    var q := BatStep(e, rd, b, Data, i, p);
    if Maps(e.console, b, Data, i) {
      var r := RegionIn(e, b, Data, i);
      SetGet(p.m.t, r, Data, i, Answer(e, r, b.BepiAt(Data, i)));
      assert Present(p.m.t, MaxBat(e.console), r, Data, b.BepiAt(Data, i)) <==> DataFound(e, rd, b, t, i);
    }
    forall r: Region
      ensures q.m.t.Get(r, Data) == DataRow(e, rd, b, t, i + 1, r)
      ensures q.m.t.Get(r, Instr) == InstrRow(e, rd, b, t, i + 1, r)
    {
      assert p.m.t.Get(r, Data) == DataRow(e, rd, b, t, i, r);
    }
  }

  /** As long as the reload has not failed, tables and address variable are those of the closed
      form. */
  lemma {:induction false} PassesFollow(e: Env, rd: Reading, b: Bats, n: nat, m: GuestMap)
    requires b.Shaped() && m.t.Shaped() && n <= 8
    requires !Passes(e, rd, b, n, Pass(m, InitialAddress(rd), false)).failed
    ensures var q := Passes(e, rd, b, n, Pass(m, InitialAddress(rd), false));
            Traced(e, rd, b, m.t, n, n, q.m.t) && q.vaddr == Left(e, rd, b, m.t, n)
  {
    if n != 0 {
      PassesFollow(e, rd, b, n - 1, m);
      var q := Passes(e, rd, b, n - 1, Pass(m, InitialAddress(rd), false));
      InstrFollows(e, rd, b, m.t, n - 1, q);
      DataFollows(e, rd, b, m.t, n - 1, BatStep(e, rd, b, Instr, n - 1, q));
    }
  }
}

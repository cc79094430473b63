// The guest memory map: four tables of host mmap windows that stand in for the BATs,
// and the rules by which E_MemReloadMap and E_MemMapFixups keep them.  The host's page
// map is a ghost map from address to region byte; mmap(MAP_FIXED) is an overlay,
// munmap a removal, and the host decides by address and size which requests it grants.
module MemMap {
  import opened Words
  import opened Bat

  /** What mmap returns on failure, and what an unused table entry holds. */
  const FAILED: Word := 0xFFFF_FFFF

  /** The host refuses requests from here on. */
  const MAX_ALLOWED_VADDR: Word := 0xC000_0000

  const MEM1_PADDR: Word := 0x0000_0000
  const MEM2_PADDR: Word := 0x1000_0000

  datatype Region = Mem1 | Mem2

  datatype Kind = Instr | Data

  function RegionBase(r: Region): Word {
    match r
    case Mem1 => MEM1_PADDR
    case Mem2 => MEM2_PADDR
  }

  function RegionSize(c: Console, r: Region): Word {
    match r
    case Mem1 => 24 * 1024 * 1024
    case Mem2 => if c.Wii? then 64 * 1024 * 1024 else 0
  }

  datatype Option<T> = None | Some(value: T)

  /** The region a physical block number names; anything else is fatal. */
  function RegionAt(c: Console, p: Word): Option<Region> {
    if p == MEM1_PADDR then Some(Mem1)
    else if p == MEM2_PADDR && c.Wii? then Some(Mem2)
    else None
  }

  // ---- BAT registers

  datatype Bats = Bats(ibatu: seq<Word>, ibatl: seq<Word>, dbatu: seq<Word>, dbatl: seq<Word>) {
    predicate Shaped() { |ibatu| == |ibatl| == |dbatu| == |dbatl| == 8 }

    function Upper(k: Kind): seq<Word> { if k.Instr? then ibatu else dbatu }

    function Lower(k: Kind): seq<Word> { if k.Instr? then ibatl else dbatl }

    predicate Empty(k: Kind, i: nat)
      requires Shaped() && i < 8
    {
      Upper(k)[i] == 0 && Lower(k)[i] == 0
    }

    function BepiAt(k: Kind, i: nat): Word
      requires Shaped() && i < 8
    {
      Bepi(Upper(k)[i])
    }

    function RegionOf(c: Console, k: Kind, i: nat): Option<Region>
      requires Shaped() && i < 8
    {
      RegionAt(c, Bprn(Lower(k)[i]))
    }
  }

  // ---- Host page map

  datatype Cell = Cell(region: Region, offset: int, exec: bool)

  type Host = imap<int, Cell>

  predicate Covers(base: int, size: int, a: int) { base <= a < base + size }

  ghost function Overlay(h: Host, base: int, size: int, r: Region, exec: bool): Host {
    imap a | a in h.Keys || Covers(base, size, a) ::
      if Covers(base, size, a) then Cell(r, a - base, exec) else h[a]
  }

  ghost function Remove(h: Host, base: int, size: int): Host {
    imap a | a in h.Keys && !Covers(base, size, a) :: h[a]
  }

  // ---- Window tables

  datatype Tables = Tables(i1: seq<Word>, d1: seq<Word>, i2: seq<Word>, d2: seq<Word>) {
    predicate Shaped() { |i1| == |d1| == |i2| == |d2| == 8 }

    function Get(r: Region, k: Kind): seq<Word> {
      match (r, k)
      case (Mem1, Instr) => i1
      case (Mem1, Data) => d1
      case (Mem2, Instr) => i2
      case (Mem2, Data) => d2
    }

    function Set(r: Region, k: Kind, i: nat, w: Word): Tables
      requires Shaped() && i < 8
    {
      match (r, k)
      case (Mem1, Instr) => this.(i1 := i1[i := w])
      case (Mem1, Data) => this.(d1 := d1[i := w])
      case (Mem2, Instr) => this.(i2 := i2[i := w])
      case (Mem2, Data) => this.(d2 := d2[i := w])
    }
  }

  function Wipe(s: seq<Word>, n: nat): (t: seq<Word>)
    requires n <= |s|
    ensures |t| == |s| && forall j :: 0 <= j < |s| ==> t[j] == if j < n then FAILED else s[j]
  {
    seq(n, j => FAILED) + s[n..]
  }

  /** The first n entries of every table marked unused. */
  function WipeTables(t: Tables, n: nat): Tables
    requires t.Shaped() && n <= 8
  {
    Tables(Wipe(t.i1, n), Wipe(t.d1, n), Wipe(t.i2, n), Wipe(t.d2, n))
  }

  /** A window whose table entry was overwritten while it was still mapped. */
  datatype Window = Window(base: Word, region: Region)

  /** Tables, host pages, and the history of overwritten windows. */
  datatype GuestMap = GuestMap(t: Tables, host: Host, lost: set<Window>)

  /** What the machine is given: the console and the host's answer to mmap(base, size). */
  datatype Env = Env(console: Console, accepts: (Word, Word) -> bool)

  /** How to read the C text where it uses a variable before setting it.  Intended sets the
      address before each search and marks every table entry unused at start-up.  AsWritten
      searches the instruction tables for whatever address the last iteration left behind
      (junk at first), and leaves the tables zeroed at start-up. */
  datatype Reading = Intended | AsWritten(junk: Word)

  // ---- One reload pass over the BATs

  /** Locals of the pass: the map so far, the address variable, and whether it gave up. */
  datatype Pass = Pass(m: GuestMap, vaddr: Word, failed: bool)

  /** Is this address already in the tables that rule out mapping it? */
  predicate Present(t: Tables, n: nat, r: Region, k: Kind, v: Word)
    requires t.Shaped() && n <= 8
  {
    v in t.Get(r, k)[..n] || (k.Data? && v in t.Get(r, Instr)[..n])
  }

  /** A refused instruction window is always fatal on GameCube; otherwise only below the
      addresses the host is known to refuse. */
  predicate RefusalIsFatal(c: Console, k: Kind, v: Word) {
    (c.GameCube? && k.Instr?) || v < MAX_ALLOWED_VADDR
  }

  /** What a request for a window leaves in the table. */
  function Answer(e: Env, r: Region, v: Word): Word {
    if e.accepts(v, RegionSize(e.console, r)) then v else FAILED
  }

  ghost function Install(e: Env, k: Kind, i: nat, r: Region, v: Word, m: GuestMap): GuestMap
    requires m.t.Shaped() && i < 8
  {
    var size := RegionSize(e.console, r);
    var entry := Answer(e, r, v);
    var prior := m.t.Get(r, k)[i];
    GuestMap(m.t.Set(r, k, i, entry),
             if e.accepts(v, size) then Overlay(m.host, v, size, r, k.Instr?) else m.host,
             if prior != FAILED && prior != entry then m.lost + {Window(prior, r)} else m.lost)
  }

  /** One BAT of one kind. */
  ghost function BatStep(e: Env, rd: Reading, b: Bats, k: Kind, i: nat, p: Pass): (q: Pass)
    requires b.Shaped() && p.m.t.Shaped() && i < 8
    ensures q.m.t.Shaped()
  {
    if b.Empty(k, i) then p
    else if b.RegionOf(e.console, k, i).None? then p.(failed := true)
    else
      var r, v := b.RegionOf(e.console, k, i).value, b.BepiAt(k, i);
      var setFirst := k.Data? || rd.Intended?;
      var p1 := if setFirst then p.(vaddr := v) else p;
      if Present(p.m.t, MaxBat(e.console), r, k, p1.vaddr) then p1
      else
        Pass(Install(e, k, i, r, v, p.m), v,
             !e.accepts(v, RegionSize(e.console, r)) && RefusalIsFatal(e.console, k, v))
  }

  /** BAT pair i: the instruction BAT, then the data BAT unless the first gave up. */
  ghost function PairStep(e: Env, rd: Reading, b: Bats, i: nat, p: Pass): (q: Pass)
    requires b.Shaped() && p.m.t.Shaped() && i < 8
    ensures q.m.t.Shaped()
  {
    var p1 := BatStep(e, rd, b, Instr, i, p);
    if p1.failed then p1 else BatStep(e, rd, b, Data, i, p1)
  }

  /** The first n BAT pairs, stopping at the first failure. */
  ghost function Passes(e: Env, rd: Reading, b: Bats, n: nat, p: Pass): (q: Pass)
    requires b.Shaped() && p.m.t.Shaped() && n <= 8
    ensures q.m.t.Shaped()
  {
    if n == 0 then p
    else
      var q := Passes(e, rd, b, n - 1, p);
      if q.failed then q else PairStep(e, rd, b, n - 1, q)
  }

  function InitialAddress(rd: Reading): Word {
    match rd
    case Intended => 0
    case AsWritten(junk) => junk
  }

  ghost function Reload(e: Env, rd: Reading, b: Bats, m: GuestMap): (q: Pass)
    requires b.Shaped() && m.t.Shaped()
    ensures q.m.t.Shaped()
  {
    Passes(e, rd, b, MaxBat(e.console), Pass(m, InitialAddress(rd), false))
  }

  // ---- Changing between real and translated mode

  /** The pages some window among the first n entries of the tables names. */
  ghost predicate InWindows(c: Console, t: Tables, n: nat, a: int)
    requires t.Shaped() && n <= 8
  {
    exists r: Region, k: Kind, j :: 0 <= j < n && InWindow(c, t, r, k, j, a)
  }

  ghost predicate InWindow(c: Console, t: Tables, r: Region, k: Kind, j: int, a: int)
    requires t.Shaped() && 0 <= j < 8
  {
    t.Get(r, k)[j] != FAILED && Covers(t.Get(r, k)[j], RegionSize(c, r), a)
  }

  /** Every window among the first n entries unmapped and its entry marked unused. */
  ghost function UnmapAll(c: Console, n: nat, m: GuestMap): GuestMap
    requires m.t.Shaped() && n <= 8
  {
    GuestMap(WipeTables(m.t, n), imap a | a in m.host.Keys && !InWindows(c, m.t, n, a) :: m.host[a], m.lost)
  }

  /** One identity window for a region, shared by entry 0 of both of its tables. */
  ghost function MapPhys(e: Env, r: Region, m: GuestMap): GuestMap
    requires m.t.Shaped()
  {
    var base, size := RegionBase(r), RegionSize(e.console, r);
    var entry := if e.accepts(base, size) then base else FAILED;
    GuestMap(m.t.Set(r, Instr, 0, entry).Set(r, Data, 0, entry),
             if e.accepts(base, size) then Overlay(m.host, base, size, r, true) else m.host,
             m.lost)
  }

  predicate PhysGranted(e: Env, r: Region) { e.accepts(RegionBase(r), RegionSize(e.console, r)) }

  ghost function ToReal(e: Env, m: GuestMap): Pass
    requires m.t.Shaped()
  {
    var m1 := MapPhys(e, Mem1, UnmapAll(e.console, MaxBat(e.console), m));
    if !PhysGranted(e, Mem1) then Pass(m1, 0, true)
    else if e.console.GameCube? then Pass(m1, 0, false)
    else Pass(MapPhys(e, Mem2, m1), 0, !PhysGranted(e, Mem2))
  }

  /** The map after an update, given translation before and now; true means fatal. */
  ghost function Fixups(e: Env, rd: Reading, b: Bats, was: bool, ir: bool, dr: bool, m: GuestMap): (GuestMap, bool)
    requires b.Shaped() && m.t.Shaped()
  {
    if ir != dr then (m, true)
    else if was && !ir then var p := ToReal(e, m); (p.m, p.failed)
    else if !ir then (m, false)
    else
      var m1 := if was then m else UnmapAll(e.console, MaxBat(e.console), m);
      var p := Reload(e, rd, b, m1);
      (p.m, p.failed)
  }
}

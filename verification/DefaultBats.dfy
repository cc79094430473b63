// The BATs E_MemInit loads, as instances of the general theorems.
module DefaultBats {
  import opened Words
  import opened Bat
  import opened MemMap
  import opened MemTheorems
  import opened MapAgreement
  import opened Lookups
  import opened StaleProbe

  /** Cached MEM1 for both kinds and its uncached alias; on Wii the same for MEM2 from 4 on. */
  function Default(c: Console): (b: Bats)
    ensures b.Shaped()
  {
    match c
    case GameCube =>
      Bats([0x8000_1FFF, 0, 0, 0, 0, 0, 0, 0], [0x2, 0, 0, 0, 0, 0, 0, 0],
           [0x8000_1FFF, 0xC000_1FFF, 0, 0, 0, 0, 0, 0], [0x2, 0x2A, 0, 0, 0, 0, 0, 0])
    case Wii =>
      Bats([0x8000_1FFF, 0, 0, 0, 0x9000_1FFF, 0, 0, 0], [0x2, 0, 0, 0, 0x1000_0002, 0, 0, 0],
           [0x8000_1FFF, 0xC000_1FFF, 0, 0, 0x9000_1FFF, 0xD000_1FFF, 0, 0],
           [0x2, 0x2A, 0, 0, 0x1000_0002, 0x1000_002A, 0, 0])
  }

  /** Which of the default BATs are in use. */
  predicate InUse(c: Console, k: Kind, i: nat) {
    i == 0 || (i == 1 && k.Data?) || (c.Wii? && (i == 4 || (i == 5 && k.Data?)))
  }

  function AddressInUse(i: nat): Word {
    match i case 0 => 0x8000_0000 case 1 => 0xC000_0000 case 4 => 0x9000_0000 case _ => 0xD000_0000
  }

  function RegionInUse(i: nat): Word { if i < 4 then 0 else 0x1000_0000 }

  /** The words of each default BAT. */
  lemma DefaultWords(c: Console, k: Kind, i: nat)
    requires i < MaxBat(c)
    ensures var u, l := Default(c).Upper(k)[i], Default(c).Lower(k)[i];
            if InUse(c, k, i)
            then u == AddressInUse(i) + 0x1FFF && l == RegionInUse(i) + (if i % 4 == 0 then 2 else 0x2A)
            else u == 0 && l == 0
  {
  }

  /** 256 MB at this address, valid in both modes. */
  lemma UpperFields(u: Word, base: Word)
    requires u == base + 0x1FFF && base % 0x1000_0000 == 0
    ensures Bepi(u) == base && Size(u) == 0x1000_0000 && Active(u)
  {
    var q := base / 0x1000_0000;
    DivUnique(u, 0x2_0000, q * 0x800, 0x1FFF);
    DivUnique(u, 4, q * 0x400_0000 + 0x7FF, 3);
    DivUnique(q * 0x400_0000 + 0x7FF, 0x800, q * 0x8000, 0x7FF);
  }

  lemma LowerFields(l: Word, base: Word, attributes: nat)
    requires l == base + attributes && base % 0x1000_0000 == 0 && attributes in {2, 0x2A}
    ensures Bprn(l) == base && Writable(l)
  {
    var q := base / 0x1000_0000;
    DivUnique(l, 0x2_0000, q * 0x800, attributes);
    DivUnique(l, 4, q * 0x400_0000 + attributes / 4, 2);
  }

  lemma DefaultUse(c: Console, k: Kind, i: nat)
    requires i < MaxBat(c)
    ensures !Default(c).Empty(k, i) <==> InUse(c, k, i)
    ensures InUse(c, k, i) ==>
              var b := Default(c);
              && b.RegionOf(c, k, i) == Some(if i < 4 then Mem1 else Mem2)
              && b.BepiAt(k, i) == AddressInUse(i)
              && Active(b.Upper(k)[i]) && Size(b.Upper(k)[i]) == 0x1000_0000
  {
    DefaultFields(c, k, i);
  }

  lemma DefaultFields(c: Console, k: Kind, i: nat)
    requires i < MaxBat(c)
    ensures var u, l := Default(c).Upper(k)[i], Default(c).Lower(k)[i];
            if InUse(c, k, i)
            then u != 0 && Bepi(u) == AddressInUse(i) && Size(u) == 0x1000_0000 && Active(u)
                 && Bprn(l) == RegionInUse(i) && Writable(l)
            else u == 0 && l == 0
  {
    DefaultWords(c, k, i);
    if InUse(c, k, i) {
      UpperFields(Default(c).Upper(k)[i], AddressInUse(i));
      LowerFields(Default(c).Lower(k)[i], RegionInUse(i), if i % 4 == 0 then 2 else 0x2A);
    }
  }

  /** The default BATs meet the condition of the agreement theorems. */
  lemma DefaultWellFormed(c: Console)
    ensures WellFormed(c, Default(c)) && NoStrangers(c, Default(c))
  {
    var b := Default(c);
    forall k: Kind, i | 0 <= i < MaxBat(c)
      ensures CoversRegion(c, b, k, i) && (!b.Empty(k, i) ==> b.RegionOf(c, k, i).Some?)
    {
      DefaultUse(c, k, i);
    }
    forall k: Kind, i, k2: Kind, i2 | 0 <= i < MaxBat(c) && 0 <= i2 < MaxBat(c)
      ensures Compatible(c, b, k, i, k2, i2)
    {
      DefaultUse(c, k, i);
      DefaultUse(c, k2, i2);
    }
  }

  /** What one default BAT does to an address: 256 MB from its own address go to its region. */
  lemma DefaultBatHits(c: Console, k: Kind, i: nat, v: Word)
    requires i < MaxBat(c)
    ensures var u, l := Default(c).Upper(k)[i], Default(c).Lower(k)[i];
            && (Hit(u, v) <==> InUse(c, k, i) && AddressInUse(i) <= v < AddressInUse(i) + 0x1000_0000)
            && (Hit(u, v) ==> Phys(u, l, v) == v - AddressInUse(i) + RegionInUse(i) && Writable(l))
  {
    DefaultFields(c, k, i);
    if InUse(c, k, i) {
      BlockOf(Default(c).Upper(k)[i], Default(c).Lower(k)[i], AddressInUse(i), if i < 4 then 0 else 1, v);
    }
  }

  /** An active 256 MB block that leads to one of the regions. */
  lemma BlockOf(u: Word, l: Word, base: Word, q: nat, v: Word)
    requires Active(u) && Size(u) == 0x1000_0000 && Bepi(u) == base && base <= 0xD000_0000
    requires q <= 1 && Bprn(l) == q * 0x1000_0000
    ensures Hit(u, v) <==> base <= v < base + 0x1000_0000
    ensures Hit(u, v) ==> Phys(u, l, v) == v - base + q * 0x1000_0000
  {
    var t, r := Grid(u, Bprn(l));
    SameBlock(q, 0, t, Size(u));
  }

  /** Where the default BATs send each address: cached and uncached MEM1 and, on Wii, MEM2, the
      uncached aliases for data only; nothing else translates. */
  lemma DefaultTranslates(c: Console, k: Kind, v: Word)
    ensures var b := Default(c);
            var a := Translate(b.Upper(k), b.Lower(k), v, MaxBat(c));
            a == if 0x8000_0000 <= v < 0x9000_0000 then MemAddr(v - 0x8000_0000, true, true)
                 else if k.Data? && 0xC000_0000 <= v < 0xD000_0000 then MemAddr(v - 0xC000_0000, true, true)
                 else if c.Wii? && 0x9000_0000 <= v < 0xA000_0000 then MemAddr(v - 0x8000_0000, true, true)
                 else if c.Wii? && k.Data? && 0xD000_0000 <= v < 0xE000_0000 then MemAddr(v - 0xC000_0000, true, true)
                 else MemAddr(0, false, false)
  {
    forall i | 0 <= i < MaxBat(c)
      ensures Hit(Default(c).Upper(k)[i], v)
         <==> InUse(c, k, i) && AddressInUse(i) <= v < AddressInUse(i) + 0x1000_0000
    {
      DefaultBatHits(c, k, i, v);
    }
    var j := FirstHit(Default(c).Upper(k), v, MaxBat(c));
    if j < MaxBat(c) {
      DefaultBatHits(c, k, j, v);
    } else {
      assert !Hit(Default(c).Upper(k)[0], v) && !Hit(Default(c).Upper(k)[1], v);
      assert c.Wii? ==> !Hit(Default(c).Upper(k)[4], v) && !Hit(Default(c).Upper(k)[5], v);
    }
  }

  // ---- The address the DSP boots from

  const DSP_BOOT_PADDR: Word := 0x0100_0000

  /** Asked for the DSP's boot image at 16 MB in MEM1, the search as written answers with an
      address near the end of the 256 MB block, which no window of the page map covers; the
      intended offset lands inside the cached window. */
  lemma BootImageAddress(e: Env, rd: Reading, m: GuestMap)
    requires m.t.Shaped() && Unused(m.t, MaxBat(e.console))
    ensures var b := Default(e.console);
            var v := PhysToVirt(b.dbatu, b.dbatl, DSP_BOOT_PADDR, MaxBat(e.console));
            && v.mapped && v.addr == 0x8F00_0000
            && !InWindows(e.console, Reload(e, rd, b, m).m.t, MaxBat(e.console), v.addr)
            && VirtIntended(b.dbatu[0], b.dbatl[0], DSP_BOOT_PADDR) == 0x8100_0000
            && Covers(b.BepiAt(Data, 0), RegionSize(e.console, Mem1), 0x8100_0000)
  {
    var b, n := Default(e.console), MaxBat(e.console);
    DefaultUse(e.console, Data, 0);
    assert Backs(b.dbatu[0], b.dbatl[0], DSP_BOOT_PADDR);
    assert FirstBack(b.dbatu, b.dbatl, DSP_BOOT_PADDR, n) == 0;
    PassesInv(e, rd, b, n, Pass(m, InitialAddress(rd), false));
    forall r, k, j | 0 <= j < n
      ensures !InWindow(e.console, Reload(e, rd, b, m).m.t, r, k, j, 0x8F00_0000)
    {
      DefaultUse(e.console, k, j);
    }
  }

  // ---- The stale look-up, concretely

  /** The GameCube defaults with a second instruction BAT for MEM1 at 0xA0000000. */
  function TwoInstructionBats(): (b: Bats)
    ensures b.Shaped()
  {
    var d := Default(GameCube);
    d.(ibatu := d.ibatu[1 := 0xA000_1FFF], ibatl := d.ibatl[1 := 0x2])
  }

  /** On a host that grants everything the code as written leaves an instruction BAT
      unmapped: the look-up for it sees data BAT 0's address, which instruction BAT 0 has
      put in the table. */
  lemma StaleLookupSkipsBat(e: Env, junk: Word, m: GuestMap)
    requires e.console == GameCube && (forall v: Word, s: Word :: e.accepts(v, s)) && junk != FAILED
    requires m.t.Shaped() && Unused(m.t, 4) && !Reload(e, Intended, TwoInstructionBats(), m).failed
    ensures var b := TwoInstructionBats();
            && Reload(e, Intended, b, m).m.t.i1[1] == 0xA000_0000
            && Reload(e, AsWritten(junk), b, m).m.t.i1[1] == FAILED
  {
    var b := TwoInstructionBats();
    FailsExactly(e, b, m);
    NeverFails(e, AsWritten(junk), b, 4, Pass(m, junk, false));
    SecondEntry(e, Intended, m);
    SecondEntry(e, AsWritten(junk), m);
  }

  lemma SecondEntry(e: Env, rd: Reading, m: GuestMap)
    requires e.console == GameCube && (forall v: Word, s: Word :: e.accepts(v, s)) && rd != AsWritten(FAILED)
    requires m.t.Shaped() && Unused(m.t, 4) && !Reload(e, rd, TwoInstructionBats(), m).failed
    ensures Reload(e, rd, TwoInstructionBats(), m).m.t.Get(Mem1, Instr)[1]
         == if rd.Intended? then 0xA000_0000 else FAILED
  {
    var b := TwoInstructionBats();
    SecondLookup(e, rd, m.t);
    assert b.BepiAt(Instr, 1) == 0xA000_0000 && RegionIn(e, b, Instr, 1) == Mem1;
    LookupShows(e, rd, b, m, 1);
  }

  /** The first look-up misses, so the second one finds data BAT 0's address if that is what it
      looks for. */
  lemma SecondLookup(e: Env, rd: Reading, t: Tables)
    requires e.console == GameCube && (forall v: Word, s: Word :: e.accepts(v, s)) && rd != AsWritten(FAILED)
    requires t.Shaped() && Unused(t, 4)
    ensures Maps(e.console, TwoInstructionBats(), Instr, 1)
    ensures Found(e, rd, TwoInstructionBats(), t, 1) <==> !rd.Intended?
  {
    var b := TwoInstructionBats();
    assert b.BepiAt(Instr, 0) == 0x8000_0000 == b.BepiAt(Data, 0) && b.BepiAt(Instr, 1) == 0xA000_0000;
    assert !Found(e, rd, b, t, 0);
    RowAt(e, rd, b, t, 1, Mem1, 0);
    var row := InstrRow(e, rd, b, t, 1, Mem1)[..4];
    assert row[0] == 0x8000_0000;
    forall j | 1 <= j < 4
      ensures row[j] == FAILED
    {
      RowAt(e, rd, b, t, 1, Mem1, j);
    }
    assert rd.AsWritten? ==> Probe(e, rd, b, t, 1) == 0x8000_0000;
  }
}

// The special-purpose register file: which cell an SPR number names, what a write is
// filtered to, which accesses are fatal, and the laws between writes and reads.
module Spr {
  import opened Words
  import opened Bat
  import opened MemMap

  type Reg = Word

  // Bit numbers count from the least significant bit.
  const MSR_POW := 18
  const MSR_IR := 5
  const MSR_DR := 4
  const HID0_DOZE := 24
  const HID0_NAP := 23
  const HID0_SLEEP := 22
  const HID4_SBE := 25

  const HID2_RESERVED: Reg := 0x0000_FFFF
  const HID2_DMAQL: Reg := 0x0F00_0000
  const HID4_ALWAYS_ONE: Reg := 0x8000_0000
  const HID4_RESERVED: Reg := 0x040F_FFFF
  const L2CR_RESERVED: Reg := 0x3F93_FFFE
  const RFI_MASK: Reg := 0x87C0_FF73

  datatype Cpu = Cpu(
    srr0: Reg, srr1: Reg, msr: Reg, hid0: Reg, hid1: Reg, hid2: Reg, hid4: Reg, l2cr: Reg,
    mmcr0: Reg, mmcr1: Reg, pmc: seq<Reg>, sprg: seq<Reg>, bats: Bats, segmentRegs: seq<Reg>,
    decrementer: Reg, tbl: Reg, tbu: Reg)
  {
    predicate Shaped() { |pmc| == 4 && |sprg| == 4 && bats.Shaped() && |segmentRegs| == 16 }

    predicate InstrTranslation() { Bit(msr, MSR_IR) }

    predicate DataTranslation() { Bit(msr, MSR_DR) }

    predicate LowPower() { Bit(hid0, HID0_DOZE) || Bit(hid0, HID0_NAP) || Bit(hid0, HID0_SLEEP) }

    predicate LowPowerConflict() { LowPower() && Bit(msr, MSR_POW) }

    /** What the MSR validator accepts. */
    predicate MsrValid() { !LowPowerConflict() && InstrTranslation() == DataTranslation() }
  }

  // ---- SPR numbers

  datatype Slot =
    | Dec | Tbl | Tbu | Srr0 | Srr1 | Hid0 | Hid1 | Hid2 | Hid4 | L2cr
    | Sprg(n: nat)
    | Mmcr(n: nat) | UserMmcr(n: nat)
    | Pmc(n: nat) | UserPmc
    | BatReg(kind: Kind, upper: bool, n: nat)
    | NoSuchSpr

  predicate InRange(t: Slot) {
    match t
    case Sprg(n) => n < 4
    case Mmcr(n) => n < 2
    case UserMmcr(n) => n < 2
    case Pmc(n) => n < 4
    case BatReg(_, _, n) => n < 8
    case _ => true
  }

  predicate IsLowBat(s: int) { 528 <= s < 544 }

  predicate IsHighBat(s: int) { 560 <= s < 576 }

  /** The register an SPR number names.  BATs come in two blocks of sixteen: instruction
      before data, each pair upper before lower.  PMC3 and PMC4 land on the first two
      counters again. */
  function SlotOf(s: nat): (t: Slot)
    ensures InRange(t)
  {
    if IsLowBat(s) then BatReg(if s < 536 then Instr else Data, s % 2 == 0, s % 8 / 2)
    else if IsHighBat(s) then BatReg(if s < 568 then Instr else Data, s % 2 == 0, 4 + s % 8 / 2)
    else if 272 <= s <= 275 then Sprg(s - 272)
    else if s == 22 then Dec
    else if s == 26 then Srr0
    else if s == 27 then Srr1
    else if s == 284 then Tbl
    else if s == 285 then Tbu
    else if s == 920 then Hid2
    else if s == 936 then UserMmcr(0)
    else if s == 940 then UserMmcr(1)
    else if s == 937 || s == 938 || s == 941 || s == 942 then UserPmc
    else if s == 952 then Mmcr(0)
    else if s == 956 then Mmcr(1)
    else if s == 953 || s == 957 then Pmc(0)
    else if s == 954 || s == 958 then Pmc(1)
    else if s == 1008 then Hid0
    else if s == 1009 then Hid1
    else if s == 1011 then Hid4
    else if s == 1017 then L2cr
    else NoSuchSpr
  }

  /** Higher BATs exist on Broadway only, and only while HID4[SBE] is set. */
  predicate HighBatsAllowed(c: Console, cpu: Cpu) { c.Wii? && Bit(cpu.hid4, HID4_SBE) }

  predicate BatAllowed(c: Console, cpu: Cpu, n: nat) { n < 4 || HighBatsAllowed(c, cpu) }

  // ---- Reading

  function GetBat(b: Bats, kind: Kind, upper: bool, n: nat): Word
    requires b.Shaped() && n < 8
  {
    if upper then b.Upper(kind)[n] else b.Lower(kind)[n]
  }

  /** A register's value if this console lets it be read. */
  function Fetch(c: Console, cpu: Cpu, t: Slot): Option<Reg>
    requires cpu.Shaped() && InRange(t)
  {
    match t
    case Dec => Some(cpu.decrementer)
    case Tbl => Some(cpu.tbl)
    case Tbu => Some(cpu.tbu)
    case Srr0 => Some(cpu.srr0)
    case Srr1 => Some(cpu.srr1)
    case Hid0 => Some(cpu.hid0)
    case Hid1 => Some(cpu.hid1)
    case Hid2 => Some(cpu.hid2)
    case Hid4 => if c.GameCube? then None else Some(cpu.hid4)
    case L2cr => Some(cpu.l2cr)
    case Sprg(n) => Some(cpu.sprg[n])
    case Mmcr(n) => Some(if n == 0 then cpu.mmcr0 else cpu.mmcr1)
    case UserMmcr(n) => Some(if n == 0 then cpu.mmcr0 else cpu.mmcr1)
    case BatReg(kind, upper, n) =>
      if BatAllowed(c, cpu, n) then Some(GetBat(cpu.bats, kind, upper, n)) else None
    case _ => None
  }

  /** The value mfspr yields; None stands for a fatal read. */
  function Read(c: Console, cpu: Cpu, s: nat): Option<Reg>
    requires cpu.Shaped()
  {
    Fetch(c, cpu, SlotOf(s))
  }

  // ---- Writing

  function SetBat(b: Bats, kind: Kind, upper: bool, n: nat, w: Word): (b': Bats)
    requires b.Shaped() && n < 8
    ensures b'.Shaped()
  {
    match (kind, upper)
    case (Instr, true) => b.(ibatu := b.ibatu[n := w])
    case (Instr, false) => b.(ibatl := b.ibatl[n := w])
    case (Data, true) => b.(dbatu := b.dbatu[n := w])
    case (Data, false) => b.(dbatl := b.dbatl[n := w])
  }

  /** What a value becomes on its way into a register: reserved bits are held at their fixed
      values, and HID2's DMA queue length is not the guest's to change. */
  function Canonical(t: Slot, cpu: Cpu, v: Reg): Reg {
    match t
    case Hid2 =>
      var w := AndNot(v, HID2_RESERVED);
      if And(w, HID2_DMAQL) == 0 then w
      else OrWord(AndNot(w, HID2_DMAQL), And(cpu.hid2, HID2_DMAQL))
    case Hid4 => AndNot(OrWord(v, HID4_ALWAYS_ONE), HID4_RESERVED)
    case L2cr => AndNot(v, L2CR_RESERVED)
    case _ => v
  }

  predicate WriteIsFatal(c: Console, cpu: Cpu, t: Slot, v: Reg) {
    match t
    case Hid0 => cpu.(hid0 := v).LowPowerConflict()
    case Hid4 => c.GameCube?
    case Mmcr(_) => v != 0
    case Pmc(_) => v != 0
    case BatReg(_, _, n) => !BatAllowed(c, cpu, n)
    case Hid1 => true
    case UserMmcr(_) => true
    case UserPmc => true
    case NoSuchSpr => true
    case _ => false
  }

  /** A write to HID0 goes through even when it turns out fatal; other fatal writes do not. */
  predicate WriteLands(c: Console, cpu: Cpu, t: Slot, v: Reg) {
    t.Hid0? || !WriteIsFatal(c, cpu, t, v)
  }

  function Store(cpu: Cpu, t: Slot, w: Reg): (cpu': Cpu)
    requires cpu.Shaped() && InRange(t)
    ensures cpu'.Shaped()
  {
    match t
    case Dec => cpu.(decrementer := w)
    case Tbl => cpu.(tbl := w)
    case Tbu => cpu.(tbu := w)
    case Srr0 => cpu.(srr0 := w)
    case Srr1 => cpu.(srr1 := w)
    case Hid0 => cpu.(hid0 := w)
    case Hid2 => cpu.(hid2 := w)
    case Hid4 => cpu.(hid4 := w)
    case L2cr => cpu.(l2cr := w)
    case Sprg(n) => cpu.(sprg := cpu.sprg[n := w])
    case Mmcr(n) => if n == 0 then cpu.(mmcr0 := w) else cpu.(mmcr1 := w)
    case Pmc(n) => cpu.(pmc := cpu.pmc[n := w])
    case BatReg(kind, upper, n) => cpu.(bats := SetBat(cpu.bats, kind, upper, n, w))
    case _ => cpu
  }

  function Write(c: Console, cpu: Cpu, s: nat, v: Reg): (cpu': Cpu)
    requires cpu.Shaped()
    ensures cpu'.Shaped()
  {
    var t := SlotOf(s);
    if WriteLands(c, cpu, t, v) then Store(cpu, t, Canonical(t, cpu, v)) else cpu
  }

  predicate WriteFatal(c: Console, cpu: Cpu, s: nat, v: Reg) { WriteIsFatal(c, cpu, SlotOf(s), v) }

  /** Every write aimed at a BAT asks for a map update, allowed or not. */
  predicate WriteTouchesMap(s: nat) { SlotOf(s).BatReg? }

  // ---- Laws

  /** The SPR number of a BAT register. */
  function BatNumber(kind: Kind, upper: bool, n: nat): nat {
    (if n < 4 then 528 + 2 * n else 560 + 2 * (n - 4)) + (if kind.Data? then 8 else 0) + (if upper then 0 else 1)
  }

  /** Halving and parity recover the BAT from its number, for all thirty-two of them. */
  lemma BatNumbering(kind: Kind, upper: bool, n: nat)
    requires n < 8
    ensures SlotOf(BatNumber(kind, upper, n)) == BatReg(kind, upper, n)
  {
  }

  lemma BatNumberOf(s: nat)
    requires SlotOf(s).BatReg?
    ensures var t := SlotOf(s); s == BatNumber(t.kind, t.upper, t.n)
  {
    Halving(s);
  }

  /** The low three bits of a number: which pair, and which half of it. */
  lemma Halving(s: nat)
    ensures s == 8 * (s / 8) + 2 * (s % 8 / 2) + s % 2
  {
    var o := s % 8;
    DivUnique(s, 2, 4 * (s / 8) + o / 2, o % 2);
  }

  /** Two numbers name one readable register only if they are the same number. */
  lemma SlotsDiffer(s: nat, t: nat)
    requires SlotOf(s) == SlotOf(t) && !SlotOf(s).Pmc? && !SlotOf(s).UserPmc? && !SlotOf(s).NoSuchSpr?
    ensures s == t
  {
    if SlotOf(s).BatReg? {
      BatNumberOf(s);
      BatNumberOf(t);
    }
  }

  lemma SetGetBat(b: Bats, kind: Kind, upper: bool, n: nat, w: Word, kind2: Kind, upper2: bool, n2: nat)
    requires b.Shaped() && n < 8 && n2 < 8
    ensures GetBat(SetBat(b, kind, upper, n, w), kind2, upper2, n2)
         == if kind == kind2 && upper == upper2 && n == n2 then w else GetBat(b, kind2, upper2, n2)
  {
  }

  /** Storing into a BAT register changes no other register. */
  lemma StoreBatOnly(cpu: Cpu, t: Slot, w: Reg)
    requires cpu.Shaped() && InRange(t) && t.BatReg?
    ensures Store(cpu, t, w) == cpu.(bats := SetBat(cpu.bats, t.kind, t.upper, t.n, w))
  {
  }

  lemma FetchBat(c: Console, cpu: Cpu, t: Slot, w: Reg, u: Slot)
    requires cpu.Shaped() && InRange(t) && InRange(u) && t.BatReg?
    requires Fetch(c, Store(cpu, t, w), u).Some? && (t != u ==> Fetch(c, cpu, u).Some?)
    ensures Fetch(c, Store(cpu, t, w), u) == if t == u then Some(w) else Fetch(c, cpu, u)
  {
    StoreBatOnly(cpu, t, w);
    if u.BatReg? {
      SetGetBat(cpu.bats, t.kind, t.upper, t.n, w, u.kind, u.upper, u.n);
    }
  }

  lemma FetchStored(c: Console, cpu: Cpu, t: Slot, w: Reg)
    requires cpu.Shaped() && InRange(t) && !t.Hid1? && !t.UserMmcr?
    requires Fetch(c, Store(cpu, t, w), t).Some?
    ensures Fetch(c, Store(cpu, t, w), t) == Some(w)
  {
    if t.BatReg? {
      FetchBat(c, cpu, t, w, t);
    }
  }

  /** Storing into anything but a BAT leaves all the BATs. */
  lemma StoreKeepsBats(cpu: Cpu, t: Slot, w: Reg)
    requires cpu.Shaped() && InRange(t) && !t.BatReg?
    ensures Store(cpu, t, w).bats == cpu.bats
  {
  }

  lemma FetchOther(c: Console, cpu: Cpu, t: Slot, w: Reg, u: Slot)
    requires cpu.Shaped() && InRange(t) && InRange(u) && t != u && (t.Mmcr? ==> u != UserMmcr(t.n))
    requires Fetch(c, cpu, u).Some? && Fetch(c, Store(cpu, t, w), u).Some?
    ensures Fetch(c, Store(cpu, t, w), u) == Fetch(c, cpu, u)
  {
    if t.BatReg? {
      FetchBat(c, cpu, t, w, u);
    } else {
      StoreKeepsBats(cpu, t, w);
      FetchOtherPlain(c, cpu, t, w, u);
    }
  }

  lemma FetchOtherPlain(c: Console, cpu: Cpu, t: Slot, w: Reg, u: Slot)
    requires cpu.Shaped() && InRange(t) && InRange(u) && t != u && !t.BatReg? && (t.Mmcr? ==> u != UserMmcr(t.n))
    requires Fetch(c, cpu, u).Some? && Fetch(c, Store(cpu, t, w), u).Some?
    ensures Fetch(c, Store(cpu, t, w), u) == Fetch(c, cpu, u)
  {
  }

  /** After a non-fatal write, a read of the same SPR yields the canonical form. */
  lemma ReadAfterWrite(c: Console, cpu: Cpu, s: nat, v: Reg)
    requires cpu.Shaped() && !WriteFatal(c, cpu, s, v)
    requires Read(c, Write(c, cpu, s, v), s).Some?
    ensures Read(c, Write(c, cpu, s, v), s) == Some(Canonical(SlotOf(s), cpu, v))
  {
    FetchStored(c, cpu, SlotOf(s), Canonical(SlotOf(s), cpu, v));
  }

  /** A user-mode number and its supervisor twin read the same monitor control register. */
  predicate SameCell(s: nat, t: nat) {
    s == t || (s == 952 && t == 936) || (s == 956 && t == 940)
  }

  /** A write leaves every other SPR that is readable before and after as it was. */
  lemma WriteFrame(c: Console, cpu: Cpu, s: nat, v: Reg, t: nat)
    requires cpu.Shaped() && !SameCell(s, t)
    requires Read(c, cpu, t).Some? && Read(c, Write(c, cpu, s, v), t).Some?
    ensures Read(c, Write(c, cpu, s, v), t) == Read(c, cpu, t)
  {
    if SlotOf(s) == SlotOf(t) {
      assert Fetch(c, cpu, SlotOf(s)).Some?;
      SlotsDiffer(s, t);
    }
    if SlotOf(s).Mmcr? && SlotOf(t) == UserMmcr(SlotOf(s).n) {
      TwinNumbers(s, t);
    }
    var slot := SlotOf(s);
    if WriteLands(c, cpu, slot, v) {
      FetchOther(c, cpu, slot, Canonical(slot, cpu, v), SlotOf(t));
    }
  }

  lemma TwinNumbers(s: nat, t: nat)
    requires SlotOf(s).Mmcr? && SlotOf(t) == UserMmcr(SlotOf(s).n)
    ensures SameCell(s, t)
  {
  }

  // ---- Reserved bits

  /** No bit of the mask is set. */
  ghost predicate Clear(x: nat, m: nat) { forall k: nat :: Bit(m, k) ==> !Bit(x, k) }

  /** The canonical form of a filtered register, bit by bit. */
  lemma CanonicalBits(t: Slot, cpu: Cpu, v: Reg, k: nat)
    requires t.Hid2? || t.Hid4? || t.L2cr?
    ensures Bit(Canonical(t, cpu, v), k) <==>
              match t
              case Hid2 =>
                if Bit(HID2_DMAQL, k) then Bit(cpu.hid2, k) && And(AndNot(v, HID2_RESERVED), HID2_DMAQL) != 0
                else Bit(v, k) && !Bit(HID2_RESERVED, k)
              case Hid4 => (Bit(v, k) || Bit(HID4_ALWAYS_ONE, k)) && !Bit(HID4_RESERVED, k)
              case _ => Bit(v, k) && !Bit(L2CR_RESERVED, k)
  {
    if t.L2cr? {
      BitAndNot(v, L2CR_RESERVED, k);
    } else if t.Hid4? {
      BitOr(v, HID4_ALWAYS_ONE, k);
      BitAndNot(OrWord(v, HID4_ALWAYS_ONE), HID4_RESERVED, k);
    } else {
      BitAndNot(v, HID2_RESERVED, k);
      QueueBits(AndNot(v, HID2_RESERVED), cpu.hid2, k);
    }
  }

  lemma QueueBits(w: Reg, hid2: Reg, k: nat)
    ensures And(w, HID2_DMAQL) == 0 && Bit(HID2_DMAQL, k) ==> !Bit(w, k)
    ensures Bit(OrWord(AndNot(w, HID2_DMAQL), And(hid2, HID2_DMAQL)), k)
       <==> if Bit(HID2_DMAQL, k) then Bit(hid2, k) else Bit(w, k)
  {
    BitAnd(w, HID2_DMAQL, k);
    BitZero(k);
    BitAndNot(w, HID2_DMAQL, k);
    BitAnd(hid2, HID2_DMAQL, k);
    BitOr(AndNot(w, HID2_DMAQL), And(hid2, HID2_DMAQL), k);
  }

  /** What every reachable register file satisfies. */
  ghost predicate RegInv(c: Console, cpu: Cpu) {
    && cpu.Shaped()
    && Clear(cpu.hid2, HID2_RESERVED) && Clear(cpu.hid2, HID2_DMAQL)
    && Bit(cpu.hid4, 31) && Clear(cpu.hid4, HID4_RESERVED)
    && Clear(cpu.l2cr, L2CR_RESERVED)
    && cpu.mmcr0 == 0 && cpu.mmcr1 == 0 && cpu.pmc == [0, 0, 0, 0]
    && (c.GameCube? ==> forall kind: Kind, i :: 4 <= i < 8 ==> cpu.bats.Empty(kind, i))
  }

  lemma MaskBits()
    ensures Bit(HID4_ALWAYS_ONE, 31) && !Bit(HID4_RESERVED, 31)
    ensures Bit(RFI_MASK, MSR_IR) && Bit(RFI_MASK, MSR_DR) && Bit(MSR_POW_MASK, MSR_POW)
    ensures !Bit(MSR_POW_MASK, MSR_IR) && !Bit(MSR_POW_MASK, MSR_DR)
  {
    BitByte(HID4_ALWAYS_ONE, 23);
    BitByte(HID4_ALWAYS_ONE / 256, 15);
    assert Bit(0x8000, 15);
    BitByte(HID4_RESERVED, 23);
    BitByte(HID4_RESERVED / 256, 15);
    assert !Bit(0x40F, 15);
    BitByte(MSR_POW_MASK, 10);
    assert Bit(0x400, 10);
  }

  lemma CanonicalInv(t: Slot, cpu: Cpu, v: Reg)
    requires t.Hid2? || t.Hid4? || t.L2cr?
    requires Clear(cpu.hid2, HID2_DMAQL)
    ensures var w := Canonical(t, cpu, v);
            && (t.Hid2? ==> Clear(w, HID2_RESERVED) && Clear(w, HID2_DMAQL))
            && (t.Hid4? ==> Bit(w, 31) && Clear(w, HID4_RESERVED))
            && (t.L2cr? ==> Clear(w, L2CR_RESERVED))
  {
    var w := Canonical(t, cpu, v);
    MaskBits();
    CanonicalBits(t, cpu, v, 31);
    forall k: nat
      ensures t.Hid2? && Bit(HID2_RESERVED, k) ==> !Bit(w, k)
      ensures t.Hid2? && Bit(HID2_DMAQL, k) ==> !Bit(w, k)
      ensures t.Hid4? && Bit(HID4_RESERVED, k) ==> !Bit(w, k)
      ensures t.L2cr? && Bit(L2CR_RESERVED, k) ==> !Bit(w, k)
    {
      CanonicalBits(t, cpu, v, k);
    }
  }

  /** Every write, fatal or not, keeps the register invariants. */
  lemma WriteInv(c: Console, cpu: Cpu, s: nat, v: Reg)
    requires RegInv(c, cpu)
    ensures RegInv(c, Write(c, cpu, s, v))
  {
    var t := SlotOf(s);
    if t.Hid2? || t.Hid4? || t.L2cr? {
      CanonicalInv(t, cpu, v);
    } else if t.BatReg? && WriteLands(c, cpu, t, v) {
      StoreBatOnly(cpu, t, v);
      forall kind: Kind, i | c.GameCube? && 4 <= i < 8
        ensures Write(c, cpu, s, v).bats.Empty(kind, i)
      {
        assert cpu.bats.Empty(kind, i);
        SetGetBat(cpu.bats, t.kind, t.upper, t.n, v, kind, true, i);
        SetGetBat(cpu.bats, t.kind, t.upper, t.n, v, kind, false, i);
      }
    } else if t.Pmc? && v == 0 {
      assert cpu.pmc[t.n := 0] == cpu.pmc;
    }
  }

  // ---- Return from interrupt

  const MSR_POW_MASK: Reg := 0x0004_0000

  /** MSR after rfi: the masked bits come from SRR1, and POW is cleared. */
  function RfiMsr(cpu: Cpu): Reg {
    AndNot(OrWord(AndNot(cpu.msr, RFI_MASK), And(cpu.srr1, RFI_MASK)), MSR_POW_MASK)
  }

  /** Each MSR bit after rfi comes from SRR1 where the mask says so and is kept elsewhere,
      except POW, which is cleared. */
  lemma RfiBits(cpu: Cpu, k: nat)
    ensures Bit(RfiMsr(cpu), k) <==>
              !Bit(MSR_POW_MASK, k) && (if Bit(RFI_MASK, k) then Bit(cpu.srr1, k) else Bit(cpu.msr, k))
  {
    var m := OrWord(AndNot(cpu.msr, RFI_MASK), And(cpu.srr1, RFI_MASK));
    BitAndNot(m, MSR_POW_MASK, k);
    BitOr(AndNot(cpu.msr, RFI_MASK), And(cpu.srr1, RFI_MASK), k);
    BitAndNot(cpu.msr, RFI_MASK, k);
    BitAnd(cpu.srr1, RFI_MASK, k);
  }

  /** rfi takes both translation bits from SRR1 and can never trip the low-power check, so it
      is fatal exactly when SRR1 asks for only one kind of translation. */
  lemma RfiValid(cpu: Cpu)
    ensures var after := cpu.(msr := RfiMsr(cpu));
            && after.InstrTranslation() == Bit(cpu.srr1, MSR_IR)
            && after.DataTranslation() == Bit(cpu.srr1, MSR_DR)
            && (after.MsrValid() <==> Bit(cpu.srr1, MSR_IR) == Bit(cpu.srr1, MSR_DR))
  {
    RfiBits(cpu, MSR_IR);
    RfiBits(cpu, MSR_DR);
    RfiBits(cpu, MSR_POW);
    MaskBits();
  }
}

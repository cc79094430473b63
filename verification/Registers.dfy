// The special-purpose registers by number and bit by bit: which can be read and what they
// read as, which writes are fatal, what a write leaves alone, and which bits of the filtered
// registers and of the MSR go where.
module Registers {
  import opened Words
  import opened Bat
  import opened MemMap
  import opened Spr

  // ---- Reading

  /** The upper BATs are open: on Wii only, while bit 25 of HID4 is set. */
  predicate UpperOpen(c: Console, cpu: Cpu) { c.Wii? && Bit(cpu.hid4, 25) }

  predicate ReadableNumber(c: Console, cpu: Cpu, s: nat) {
    || s in {22, 26, 27, 272, 273, 274, 275, 284, 285, 920, 936, 940, 952, 956, 1008, 1009, 1017}
    || 528 <= s <= 543
    || (s == 1011 && c.Wii?)
    || (560 <= s <= 575 && UpperOpen(c, cpu))
  }

  /** Exactly the numbers that can be read. */
  lemma ReadableExactly(c: Console, cpu: Cpu, s: nat)
    requires cpu.Shaped()
    ensures Read(c, cpu, s).Some? <==> ReadableNumber(c, cpu, s)
  {
  }

  /** What each of them but the BATs reads as. */
  lemma ReadsAs(c: Console, cpu: Cpu)
    requires cpu.Shaped()
    ensures Read(c, cpu, 22) == Some(cpu.decrementer)
    ensures Read(c, cpu, 284) == Some(cpu.tbl) && Read(c, cpu, 285) == Some(cpu.tbu)
    ensures Read(c, cpu, 26) == Some(cpu.srr0) && Read(c, cpu, 27) == Some(cpu.srr1)
    ensures forall n :: 0 <= n < 4 ==> Read(c, cpu, 272 + n) == Some(cpu.sprg[n])
    ensures Read(c, cpu, 1008) == Some(cpu.hid0) && Read(c, cpu, 1009) == Some(cpu.hid1)
    ensures Read(c, cpu, 920) == Some(cpu.hid2) && Read(c, cpu, 1017) == Some(cpu.l2cr)
    ensures c.Wii? ==> Read(c, cpu, 1011) == Some(cpu.hid4)
    ensures Read(c, cpu, 936) == Read(c, cpu, 952) == Some(cpu.mmcr0)
    ensures Read(c, cpu, 940) == Read(c, cpu, 956) == Some(cpu.mmcr1)
  {
  }

  lemma OneBatRead(c: Console, cpu: Cpu, kind: Kind, upper: bool, n: nat)
    requires cpu.Shaped() && (n < 4 || (n < 8 && UpperOpen(c, cpu)))
    ensures Read(c, cpu, BatNumber(kind, upper, n)) == Some(GetBat(cpu.bats, kind, upper, n))
  {
    BatNumbering(kind, upper, n);
  }

  /** What BAT n reads as, instruction before data and each pair upper before lower. */
  lemma BatsReadAs(c: Console, cpu: Cpu, n: nat)
    requires cpu.Shaped() && (n < 4 || (n < 8 && UpperOpen(c, cpu)))
    ensures var s := if n < 4 then 528 + 2 * n else 552 + 2 * n;
            && Read(c, cpu, s) == Some(cpu.bats.ibatu[n]) && Read(c, cpu, s + 1) == Some(cpu.bats.ibatl[n])
            && Read(c, cpu, s + 8) == Some(cpu.bats.dbatu[n]) && Read(c, cpu, s + 9) == Some(cpu.bats.dbatl[n])
  {
    OneBatRead(c, cpu, Instr, true, n);
    OneBatRead(c, cpu, Instr, false, n);
    OneBatRead(c, cpu, Data, true, n);
    OneBatRead(c, cpu, Data, false, n);
  }

  // ---- Writing

  /** Doze, nap or sleep asked for: bits 24, 23 and 22 of HID0. */
  predicate AsksForLowPower(hid0: Reg) { Bit(hid0, 24) || Bit(hid0, 23) || Bit(hid0, 22) }

  predicate WritableNumber(c: Console, cpu: Cpu, s: nat) {
    || s in {22, 26, 27, 272, 273, 274, 275, 284, 285, 920, 952, 953, 954, 956, 957, 958, 1008, 1017}
    || 528 <= s <= 543
    || (s == 1011 && c.Wii?)
    || (560 <= s <= 575 && UpperOpen(c, cpu))
  }

  /** Exactly the writes that are fatal: to a number that cannot be written, low power in HID0 while
      bit 18 of the MSR is set, and anything but zero to a performance monitor register. */
  lemma FatalExactly(c: Console, cpu: Cpu, s: nat, v: Reg)
    requires cpu.Shaped()
    ensures WriteFatal(c, cpu, s, v)
       <==> || !WritableNumber(c, cpu, s)
            || (s == 1008 && Bit(cpu.msr, 18) && AsksForLowPower(v))
            || (s in {952, 953, 954, 956, 957, 958} && v != 0)
  {
  }

  /** What no write changes, whatever its number and value; and which BAT registers one does. */
  lemma WriteLeaves(c: Console, cpu: Cpu, s: nat, v: Reg)
    requires cpu.Shaped()
    ensures var w := Write(c, cpu, s, v);
            && w.msr == cpu.msr && w.hid1 == cpu.hid1 && w.segmentRegs == cpu.segmentRegs
            && (c.GameCube? ==> w.hid4 == cpu.hid4)
            && (!(528 <= s <= 543) && !(560 <= s <= 575) ==> w.bats == cpu.bats)
            && (s !in {953, 954, 957, 958} || v != 0 ==> w.pmc == cpu.pmc)
            && (WriteFatal(c, cpu, s, v) ==> w == if s == 1008 then cpu.(hid0 := v) else cpu)
  {
    if SlotOf(s).BatReg? && WriteLands(c, cpu, SlotOf(s), v) {
      StoreBatOnly(cpu, SlotOf(s), v);
    }
  }

  lemma OneBatWrite(c: Console, cpu: Cpu, kind: Kind, upper: bool, n: nat, v: Reg)
    requires cpu.Shaped() && (n < 4 || (n < 8 && UpperOpen(c, cpu)))
    ensures Write(c, cpu, BatNumber(kind, upper, n), v) == cpu.(bats := SetBat(cpu.bats, kind, upper, n, v))
  {
    BatNumbering(kind, upper, n);
    StoreBatOnly(cpu, BatReg(kind, upper, n), v);
  }

  /** A write to BAT n that is let through sets that register of that BAT and nothing else. */
  lemma BatWrite(c: Console, cpu: Cpu, n: nat, v: Reg)
    requires cpu.Shaped() && (n < 4 || (n < 8 && UpperOpen(c, cpu)))
    ensures var s, b := if n < 4 then 528 + 2 * n else 552 + 2 * n, cpu.bats;
            && Write(c, cpu, s, v) == cpu.(bats := b.(ibatu := b.ibatu[n := v]))
            && Write(c, cpu, s + 1, v) == cpu.(bats := b.(ibatl := b.ibatl[n := v]))
            && Write(c, cpu, s + 8, v) == cpu.(bats := b.(dbatu := b.dbatu[n := v]))
            && Write(c, cpu, s + 9, v) == cpu.(bats := b.(dbatl := b.dbatl[n := v]))
  {
    OneBatWrite(c, cpu, Instr, true, n, v);
    OneBatWrite(c, cpu, Instr, false, n, v);
    OneBatWrite(c, cpu, Data, true, n, v);
    OneBatWrite(c, cpu, Data, false, n, v);
  }

  /** A counter can be written with zero only, and PMC3 and PMC4 clear the first two again. */
  lemma CounterWrite(c: Console, cpu: Cpu, s: nat)
    requires cpu.Shaped() && s in {953, 954, 957, 958}
    ensures Write(c, cpu, s, 0) == cpu.(pmc := cpu.pmc[(if s == 953 || s == 957 then 0 else 1) := 0])
  {
  }

  /** Writes that ask for the map to be brought up to date. */
  lemma TouchesMap(s: nat)
    ensures WriteTouchesMap(s) <==> 528 <= s <= 543 || 560 <= s <= 575
  {
  }

  // ---- Filtered registers bit by bit

  lemma Hid2ReservedBits(k: nat)
    ensures Bit(HID2_RESERVED, k) <==> k < 16
  {
    BitOfWord(0xFFFF, k);
  }

  lemma QueueLengthBits(k: nat)
    ensures Bit(HID2_DMAQL, k) <==> 24 <= k <= 27
  {
    BitOfWord(0x0F00_0000, k);
  }

  lemma Hid2Masks(k: nat)
    ensures Bit(HID2_RESERVED, k) <==> k < 16
    ensures Bit(HID2_DMAQL, k) <==> 24 <= k <= 27
  {
    Hid2ReservedBits(k);
    QueueLengthBits(k);
  }

  lemma Hid4FixedBit(k: nat)
    ensures Bit(HID4_ALWAYS_ONE, k) <==> k == 31
  {
    BitOfWord(0x8000_0000, k);
  }

  lemma Hid4ReservedBits(k: nat)
    ensures Bit(HID4_RESERVED, k) <==> k < 20 || k == 26
  {
    BitOfWord(0x040F_FFFF, k);
  }

  lemma Hid4Masks(k: nat)
    ensures Bit(HID4_ALWAYS_ONE, k) <==> k == 31
    ensures Bit(HID4_RESERVED, k) <==> k < 20 || k == 26
  {
    Hid4FixedBit(k);
    Hid4ReservedBits(k);
  }

  lemma L2crMask(k: nat)
    ensures Bit(L2CR_RESERVED, k) <==> 1 <= k <= 17 || k == 20 || 23 <= k <= 29
  {
    BitOfWord(0x3F93_FFFE, k);
  }

  /** Some bit of the DMA queue length is set. */
  predicate SetsQueue(v: Reg) { Bit(v, 24) || Bit(v, 25) || Bit(v, 26) || Bit(v, 27) }

  lemma QueueMask(v: Reg)
    ensures And(v, HID2_DMAQL) != 0 <==> SetsQueue(v)
  {
    if And(v, HID2_DMAQL) != 0 {
      var k := SomeBit(And(v, HID2_DMAQL));
      QueueBit(v, k);
    } else {
      ZeroQueueBit(v, 24);
      ZeroQueueBit(v, 25);
      ZeroQueueBit(v, 26);
      ZeroQueueBit(v, 27);
    }
  }

  lemma QueueBit(v: Reg, k: nat)
    ensures Bit(And(v, HID2_DMAQL), k) <==> 24 <= k <= 27 && Bit(v, k)
  {
    BitAnd(v, HID2_DMAQL, k);
    Hid2Masks(k);
  }

  lemma ZeroQueueBit(v: Reg, k: nat)
    requires And(v, HID2_DMAQL) == 0 && 24 <= k <= 27
    ensures !Bit(v, k)
  {
    QueueBit(v, k);
    BitZero(k);
  }

  lemma UnreservedQueue(v: Reg)
    ensures SetsQueue(AndNot(v, HID2_RESERVED)) <==> SetsQueue(v)
  {
    KeptBit(v, 24);
    KeptBit(v, 25);
    KeptBit(v, 26);
    KeptBit(v, 27);
  }

  lemma KeptBit(v: Reg, k: nat)
    requires k >= 16
    ensures Bit(AndNot(v, HID2_RESERVED), k) == Bit(v, k)
  {
    Hid2Masks(k);
    BitAndNot(v, HID2_RESERVED, k);
  }

  /** HID2 after a write: the lower half stays clear; the DMA queue length, bits 24 to 27, is kept if
      the value sets any of it and cleared if not; the rest is the value's. */
  lemma Hid2Bits(c: Console, cpu: Cpu, v: Reg, k: nat)
    requires cpu.Shaped()
    ensures Bit(Write(c, cpu, 920, v).hid2, k)
       <==> if k < 16 then false else if 24 <= k <= 27 then Bit(cpu.hid2, k) && SetsQueue(v) else Bit(v, k)
  {
    Hid2Masks(k);
    CanonicalBits(Hid2, cpu, v, k);
    QueueMask(AndNot(v, HID2_RESERVED));
    UnreservedQueue(v);
  }

  /** HID4 on Wii after a write: bit 31 is set, bits 0 to 19 and 26 are clear. */
  lemma Hid4Bits(cpu: Cpu, v: Reg, k: nat)
    requires cpu.Shaped()
    ensures Bit(Write(Wii, cpu, 1011, v).hid4, k) <==> k == 31 || (Bit(v, k) && k >= 20 && k != 26)
  {
    Hid4Masks(k);
    CanonicalBits(Hid4, cpu, v, k);
  }

  /** L2CR after a write: bits 1 to 17, 20 and 23 to 29 are clear. */
  lemma L2crBits(c: Console, cpu: Cpu, v: Reg, k: nat)
    requires cpu.Shaped()
    ensures Bit(Write(c, cpu, 1017, v).l2cr, k)
       <==> Bit(v, k) && !(1 <= k <= 17 || k == 20 || 23 <= k <= 29)
  {
    L2crMask(k);
    CanonicalBits(L2cr, cpu, v, k);
  }

  // ---- The MSR

  /** The bits of the MSR that rfi takes from SRR1. */
  predicate FromSrr1(k: nat) { k <= 1 || 4 <= k <= 6 || 8 <= k <= 15 || 22 <= k <= 26 || k == 31 }

  lemma TransferredBits(k: nat)
    ensures Bit(RFI_MASK, k) <==> FromSrr1(k)
  {
    BitOfWord(0x87C0_FF73, k);
  }

  lemma PowBit(k: nat)
    ensures Bit(MSR_POW_MASK, k) <==> k == 18
  {
    BitOfWord(0x0004_0000, k);
  }

  lemma RfiMasks(k: nat)
    ensures Bit(RFI_MASK, k) <==> FromSrr1(k)
    ensures Bit(MSR_POW_MASK, k) <==> k == 18
  {
    TransferredBits(k);
    PowBit(k);
  }

  /** Each bit of the MSR after rfi: bits 0, 1, 4 to 6, 8 to 15, 22 to 26 and 31 come from SRR1, bit
      18 is cleared, the rest is kept. */
  lemma RfiBitByBit(cpu: Cpu, k: nat)
    ensures Bit(RfiMsr(cpu), k)
       <==> if FromSrr1(k) then Bit(cpu.srr1, k)
            else k != 18 && Bit(cpu.msr, k)
  {
    RfiMasks(k);
    RfiBits(cpu, k);
  }

  /** Exactly the MSRs the validator accepts: bits 5 and 4 alike, and not bit 18 together with low
      power. */
  lemma MsrValidExactly(cpu: Cpu)
    ensures cpu.MsrValid() <==> Bit(cpu.msr, 5) == Bit(cpu.msr, 4) && !(Bit(cpu.msr, 18) && AsksForLowPower(cpu.hid0))
  {
  }

  /** A write to BAT n, once bit 25 of HID4 has been written on Wii, is let through exactly when the
      console has that BAT. */
  lemma BatsReachable(c: Console, cpu: Cpu, kind: Kind, upper: bool, n: nat, v: Reg, w: Reg)
    requires cpu.Shaped() && n < 8 && Bit(v, 25)
    ensures !WriteFatal(c, Write(c, cpu, 1011, v), BatNumber(kind, upper, n), w) <==> n < MaxBat(c)
  {
    BatNumbering(kind, upper, n);
    if c.Wii? {
      Hid4Bits(cpu, v, 25);
    }
  }
}

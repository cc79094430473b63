// One trap in terms of the instruction word: what each word does to the machine, where the
// guest resumes, and exactly which words stop it.
module StepLaws {
  import opened Words
  import opened Bat
  import opened MemMap
  import opened StaleProbe
  import opened DefaultBats
  import opened Spr
  import opened Registers
  import opened Decoder
  import opened Machine
  import opened MachineTheorems
  import opened Refusals

  // ---- The words

  /** The words an assembler emits, spelled out; an SPR number goes low half first. */
  function MfsprWord(rd: nat, n: nat): Word
    requires rd < 32 && n < 1024
  {
    0x7C00_02A6 + rd * 0x20_0000 + n % 32 * 0x1_0000 + n / 32 * 0x800
  }

  function MtsprWord(rs: nat, n: nat): Word
    requires rs < 32 && n < 1024
  {
    0x7C00_03A6 + rs * 0x20_0000 + n % 32 * 0x1_0000 + n / 32 * 0x800
  }

  function MtsrWord(rs: nat, sr: nat): Word
    requires rs < 32 && sr < 16
  {
    0x7C00_01A4 + rs * 0x20_0000 + sr * 0x1_0000
  }

  function MfsrWord(rd: nat, sr: nat): Word
    requires rd < 32 && sr < 16
  {
    0x7C00_04A6 + rd * 0x20_0000 + sr * 0x1_0000
  }

  function MfmsrWord(rd: nat): Word
    requires rd < 32
  {
    0x7C00_00A6 + rd * 0x20_0000
  }

  function MtmsrWord(rs: nat): Word
    requires rs < 32
  {
    0x7C00_0124 + rs * 0x20_0000
  }

  const RFI: Word := 0x4C00_0064
  const DCBI: Word := 0x7C00_03AC

  /** The encoder emits these words and the handler takes them for what they are, mfsr apart. */
  lemma SprWords(r: nat, n: nat)
    requires r < 32 && n < 1024
    ensures Encode(Mfspr(r, n)) == MfsprWord(r, n) && Decode(MfsprWord(r, n)) == Mfspr(r, n)
    ensures Encode(Mtspr(r, n)) == MtsprWord(r, n) && Decode(MtsprWord(r, n)) == Mtspr(r, n)
  {
    DecodeInverts(Mfspr(r, n));
    DecodeInverts(Mtspr(r, n));
  }

  lemma OtherWords(r: nat, sr: nat)
    requires r < 32 && sr < 16
    ensures Encode(Mfmsr(r)) == MfmsrWord(r) && Decode(MfmsrWord(r)) == Mfmsr(r)
    ensures Encode(Mtmsr(r)) == MtmsrWord(r) && Decode(MtmsrWord(r)) == Mtmsr(r)
    ensures Encode(Mtsr(r, sr)) == MtsrWord(r, sr) && Decode(MtsrWord(r, sr)) == Mtsr(r, sr)
    ensures Encode(Mfsr(r, sr)) == MfsrWord(r, sr) && Decode(MfsrWord(r, sr)) == Mfmsr(r)
    ensures Encode(Rfi) == RFI && Decode(RFI) == Rfi && Encode(Dcbi) == DCBI && Decode(DCBI) == Dcbi
  {
    DecodeInverts(Mfmsr(r));
    DecodeInverts(Mtmsr(r));
    DecodeInverts(Mtsr(r, sr));
    DecodeInverts(Mfsr(r, sr));
    DecodeInverts(Rfi);
    DecodeInverts(Dcbi);
  }

  /** A word of primary opcode 31 with these nine bits of extended opcode. */
  predicate IsOp(w: Word, xo: nat) { w / 0x400_0000 == 31 && w % 0x400 / 2 == xo }

  /** The register a word names and its SPR number, spelled out once more so that the laws below do not
      lean on the decoder. */
  function RegOf(w: Word): (r: nat)
    ensures r < 32
  {
    w / 0x20_0000 % 32
  }

  function SprOf(w: Word): nat { w / 0x1_0000 % 32 + w / 0x800 % 32 * 32 }

  lemma SprFieldIs(w: Word)
    ensures SprField(w) == SprOf(w)
  {
    var t, q, m := w / 0x800, w / 0x800 / 1024, w / 0x800 % 1024;
    DivUnique(w, 0x1_0000, t / 32, t % 32 * 0x800 + w % 0x800);
    DivUnique(t, 32, 32 * q + m / 32, m % 32);
    DivUnique(32 * q + m / 32, 32, q, m / 32);
  }

  /** Exactly which words the handler knows, and as what. */
  lemma KnownWords(w: Word)
    ensures Decode(w).Mfspr? <==> IsOp(w, 339)
    ensures Decode(w).Mtspr? <==> IsOp(w, 467)
    ensures Decode(w).Mfmsr? <==> IsOp(w, 83)
    ensures Decode(w).Mtmsr? <==> IsOp(w, 146)
    ensures Decode(w).Mtsr? <==> IsOp(w, 210)
    ensures Decode(w).Dcbi? <==> IsOp(w, 470)
    ensures Decode(w).Rfi? <==> w == RFI
    ensures IsOp(w, 339) ==> Decode(w) == Mfspr(RegOf(w), SprOf(w))
    ensures IsOp(w, 467) ==> Decode(w) == Mtspr(RegOf(w), SprOf(w))
    ensures IsOp(w, 83) ==> Decode(w) == Mfmsr(RegOf(w))
    ensures IsOp(w, 146) ==> Decode(w) == Mtmsr(RegOf(w))
    ensures IsOp(w, 210) ==> Decode(w) == Mtsr(RegOf(w), w / 0x1_0000 % 16)
  {
    SprFieldIs(w);
  }

  // ---- Where the guest resumes

  /** After every word that does not stop it the guest resumes at the next instruction, but after
      rfi at SRR0 with its two low bits cleared. */
  lemma ResumesAt(s: State, w: Word)
    requires s.Shaped() && !s.fatal && !Step(s, w).fatal
    ensures Step(s, w).pc == if w == RFI then s.cpu.srr0 - s.cpu.srr0 % 4 else (s.pc + 4) % 0x1_0000_0000
  {
    KnownWords(w);
    ResumesAfter(s, Decode(w));
    if Execute(s, Decode(w)).needsUpdate {
      assert Step(s, w) == Update(Execute(s, Decode(w)), s.Translating());
    }
  }

  lemma ResumesAfter(s: State, i: Instruction)
    requires s.Shaped() && (Encodable(i) || i.Unhandled?)
    ensures !i.Unhandled? ==>
              Execute(s, i).pc == if i.Rfi? then s.cpu.srr0 - s.cpu.srr0 % 4 else (s.pc + 4) % 0x1_0000_0000
    ensures i.Unhandled? ==> Execute(s, i).fatal
  {
  }

  // ---- Which words stop it

  /** What stops the machine, with no map update pending before the trap. */
  ghost predicate Stops(s: State, w: Word)
    requires s.Shaped()
  {
    var c, v := s.env.console, s.gpr[RegOf(w)];
    if w == RFI then RfiStops(s)
    else if IsOp(w, 339) then !ReadableNumber(c, s.cpu, SprOf(w))
    else if IsOp(w, 467) then MtsprStops(s, SprOf(w), v)
    else if IsOp(w, 146) then
      Bit(v, 5) != Bit(v, 4) || (Bit(v, 18) && AsksForLowPower(s.cpu.hid0))
    else !IsOp(w, 83) && !IsOp(w, 210) && !IsOp(w, 470)
  }

  ghost predicate RfiStops(s: State)
    requires s.Shaped()
  {
    var ir, was := Bit(s.cpu.srr1, 5), Bit(s.cpu.msr, 5) && Bit(s.cpu.msr, 4);
    var t := StartingTables(s.env.console, was, s.windows.t);
    || ir != Bit(s.cpu.srr1, 4)
    || (was && !ir && !PhysicalGranted(s.env))
    || (ir && !AllInOrder(s.env, s.reading, s.cpu.bats, t, MaxBat(s.env.console)))
  }

  ghost predicate MtsprStops(s: State, n: nat, v: Reg)
    requires s.Shaped()
  {
    var c := s.env.console;
    || !WritableNumber(c, s.cpu, n)
    || (n == 1008 && Bit(s.cpu.msr, 18) && AsksForLowPower(v))
    || (n in {952, 953, 954, 956, 957, 958} && v != 0)
    || ((528 <= n <= 543 || 560 <= n <= 575) && Bit(s.cpu.msr, 5)
        && !AllInOrder(s.env, s.reading, Write(c, s.cpu, n, v).bats, s.windows.t, MaxBat(c)))
  }

  /** Exactly which words stop the machine in a state that keeps the invariants. */
  lemma StopsExactly(s: State, w: Word)
    requires StateInv(s) && !s.fatal
    ensures Step(s, w).fatal <==> Stops(s, w)
  {
    KnownWords(w);
    if w == RFI {
      RfiFails(s);
    } else if IsOp(w, 467) {
      MtsprStopsExactly(s, RegOf(w), SprOf(w), w);
    } else if IsOp(w, 339) {
      ReadableExactly(s.env.console, s.cpu, SprOf(w));
    }
  }

  lemma MtsprStopsExactly(s: State, rs: nat, n: nat, w: Word)
    requires StateInv(s) && !s.fatal && rs < 32 && n < 1024 && Decode(w) == Mtspr(rs, n)
    ensures Step(s, w).fatal <==> MtsprStops(s, n, s.gpr[rs])
  {
    var c, v, was := s.env.console, s.gpr[rs], s.Translating();
    FatalExactly(c, s.cpu, n, v);
    TouchesMap(n);
    WriteMsr(c, s.cpu, n, v);
    var cpu := Write(c, s.cpu, n, v);
    FixupsFails(s.env, s.reading, cpu.bats, was, cpu.InstrTranslation(), cpu.DataTranslation(), s.windows);
  }

  // ---- What each word does

  /** A word that asks for no map update does what its instruction does. */
  lemma PlainStep(s: State, w: Word, i: Instruction)
    requires StateInv(s) && !s.fatal && Decode(w) == i && !i.Rfi?
    requires i.Mtspr? ==> !(528 <= i.spr <= 543) && !(560 <= i.spr <= 575)
    ensures Step(s, w) == Execute(s, i)
  {
  }

  /** mfspr: the register named gets what the SPR reads as; where there is nothing to read it gets
      all ones and the machine stops.  Nothing else changes but the program counter. */
  lemma MfsprDoes(s: State, rd: nat, n: nat)
    requires StateInv(s) && !s.fatal && rd < 32 && n < 1024
    ensures var r := Read(s.env.console, s.cpu, n);
            Step(s, MfsprWord(rd, n)) == s.(gpr := s.gpr[rd := if r.Some? then r.value else 0xFFFF_FFFF],
                                            pc := (s.pc + 4) % 0x1_0000_0000, fatal := r.None?)
  {
    SprWords(rd, n);
    PlainStep(s, MfsprWord(rd, n), Mfspr(rd, n));
    ResumesAfter(s, Mfspr(rd, n));
  }

  /** mtspr to anything but a BAT: the register file is written and nothing else changes but the
      program counter. */
  lemma MtsprDoes(s: State, rs: nat, n: nat)
    requires StateInv(s) && !s.fatal && rs < 32 && n < 1024 && !(528 <= n <= 543) && !(560 <= n <= 575)
    ensures var c := s.env.console;
            Step(s, MtsprWord(rs, n))
            == s.(cpu := Write(c, s.cpu, n, s.gpr[rs]), pc := (s.pc + 4) % 0x1_0000_0000,
                  fatal := WriteFatal(c, s.cpu, n, s.gpr[rs]))
  {
    SprWords(rs, n);
    PlainStep(s, MtsprWord(rs, n), Mtspr(rs, n));
    ResumesAfter(s, Mtspr(rs, n));
  }

  /** mtspr to a BAT: likewise, and then the map is reloaded if the guest is translating. */
  lemma MtsprBatDoes(s: State, rs: nat, n: nat)
    requires StateInv(s) && !s.fatal && rs < 32 && (528 <= n <= 543 || 560 <= n <= 575)
    ensures var s', cpu := Step(s, MtsprWord(rs, n)), Write(s.env.console, s.cpu, n, s.gpr[rs]);
            && s'.cpu == cpu && s'.gpr == s.gpr && s'.pc == (s.pc + 4) % 0x1_0000_0000 && !s'.needsUpdate
            && s'.windows == if Bit(s.cpu.msr, 5) then Reload(s.env, s.reading, cpu.bats, s.windows).m else s.windows
  {
    SprWords(rs, n);
    ResumesAfter(s, Mtspr(rs, n));
    WriteMsr(s.env.console, s.cpu, n, s.gpr[rs]);
  }

  /** mfmsr, and mfsr, which the handler takes for it: the register named gets the MSR. */
  lemma MfmsrDoes(s: State, rd: nat, sr: nat)
    requires StateInv(s) && !s.fatal && rd < 32 && sr < 16
    ensures Step(s, MfmsrWord(rd)) == s.(gpr := s.gpr[rd := s.cpu.msr], pc := (s.pc + 4) % 0x1_0000_0000)
    ensures Step(s, MfsrWord(rd, sr)) == Step(s, MfmsrWord(rd))
  {
    OtherWords(rd, sr);
    PlainStep(s, MfmsrWord(rd), Mfmsr(rd));
    PlainStep(s, MfsrWord(rd, sr), Mfmsr(rd));
    ResumesAfter(s, Mfmsr(rd));
  }

  /** mtmsr: the MSR is replaced whole and the map left as it is. */
  lemma MtmsrDoes(s: State, rs: nat)
    requires StateInv(s) && !s.fatal && rs < 32
    ensures var v := s.gpr[rs];
            Step(s, MtmsrWord(rs))
            == s.(cpu := s.cpu.(msr := v), pc := (s.pc + 4) % 0x1_0000_0000,
                  fatal := Bit(v, 5) != Bit(v, 4) || (Bit(v, 18) && AsksForLowPower(s.cpu.hid0)))
  {
    OtherWords(rs, 0);
    PlainStep(s, MtmsrWord(rs), Mtmsr(rs));
    ResumesAfter(s, Mtmsr(rs));
    MsrValidExactly(s.cpu.(msr := s.gpr[rs]));
  }

  /** mtsr writes one segment register. */
  lemma MtsrDoes(s: State, rs: nat, sr: nat)
    requires StateInv(s) && !s.fatal && rs < 32 && sr < 16
    ensures Step(s, MtsrWord(rs, sr))
         == s.(cpu := s.cpu.(segmentRegs := s.cpu.segmentRegs[sr := s.gpr[rs]]), pc := (s.pc + 4) % 0x1_0000_0000)
  {
    OtherWords(rs, sr);
    PlainStep(s, MtsrWord(rs, sr), Mtsr(rs, sr));
    ResumesAfter(s, Mtsr(rs, sr));
  }

  /** dcbi does nothing. */
  lemma DcbiDoes(s: State)
    requires StateInv(s) && !s.fatal
    ensures Step(s, DCBI) == s.(pc := (s.pc + 4) % 0x1_0000_0000)
  {
    OtherWords(0, 0);
    PlainStep(s, DCBI, Dcbi);
    ResumesAfter(s, Dcbi);
  }

  /** The map after rfi, by the MSR before and SRR1. */
  ghost function AfterRfi(s: State): GuestMap
    requires s.Shaped()
  {
    var e, was, ir := s.env, Bit(s.cpu.msr, 5), Bit(s.cpu.srr1, 5);
    if ir && was then Reload(e, s.reading, s.cpu.bats, s.windows).m
    else if ir then Reload(e, s.reading, s.cpu.bats, UnmapAll(e.console, MaxBat(e.console), s.windows)).m
    else if was then ToReal(e, s.windows).m
    else s.windows
  }

  /** rfi: of the registers only the MSR changes, bit by bit from SRR1 or not; and the windows are
      those of the mode the MSR then asks for. */
  lemma RfiDoes(s: State, k: nat)
    requires StateInv(s) && !s.fatal
    ensures var s' := Step(s, RFI);
            && s'.cpu == s.cpu.(msr := s'.cpu.msr) && s'.gpr == s.gpr && !s'.needsUpdate
            && (Bit(s'.cpu.msr, k)
                <==> if FromSrr1(k) then Bit(s.cpu.srr1, k)
                     else k != 18 && Bit(s.cpu.msr, k))
            && (!s'.fatal ==> s'.windows == AfterRfi(s))
  {
    KnownWords(RFI);
    RfiBitByBit(s.cpu, k);
    RfiValid(s.cpu);
  }

  /** The word writes SRR0 or SRR1, numbers 26 and 27, whatever the console. */
  lemma WritesSaved(s: State, rs: nat, first: bool)
    requires StateInv(s) && !s.fatal && rs < 32
    ensures var s' := Step(s, MtsprWord(rs, if first then 26 else 27));
            && StateInv(s') && !s'.fatal && s'.gpr == s.gpr
            && s'.cpu == if first then s.cpu.(srr0 := s.gpr[rs]) else s.cpu.(srr1 := s.gpr[rs])
  {
    var n := if first then 26 else 27;
    MtsprDoes(s, rs, n);
    StepInv(s, MtsprWord(rs, n));
  }

  /** SRR0 and SRR1 hold these values in a machine that is ready to go on. */
  ghost predicate Saved(s: State, srr0: Reg, srr1: Reg) {
    StateInv(s) && !s.fatal && s.cpu.srr0 == srr0 && s.cpu.srr1 == srr1
  }

  /** The words for mtspr to numbers 26 and 27, one after the other, leave it like that. */
  lemma BothSaved(s: State, r0: nat, r1: nat)
    requires StateInv(s) && !s.fatal && r0 < 32 && r1 < 32
    ensures Saved(Step(Step(s, MtsprWord(r0, 26)), MtsprWord(r1, 27)), s.gpr[r0], s.gpr[r1])
  {
    WritesSaved(s, r0, true);
    WritesSaved(Step(s, MtsprWord(r0, 26)), r1, false);
  }

  /** rfi goes where two such words before it said: it resumes at the one value and takes its share of
      the MSR from the other. */
  lemma ReturnsToSaved(s: State, srr0: Reg, srr1: Reg, k: nat)
    requires Saved(s, srr0, srr1)
    ensures !Step(s, RFI).fatal ==> Step(s, RFI).pc == srr0 - srr0 % 4
    ensures FromSrr1(k) ==>
              (Bit(Step(s, RFI).cpu.msr, k) <==> Bit(srr1, k))
  {
    if !Step(s, RFI).fatal {
      ResumesAt(s, RFI);
    }
    RfiDoes(s, k);
  }

  /** What the guest starts with. */
  lemma StartsWith(e: Env, rd: Reading, bs1: bool, gpr: seq<Reg>, pc: Word)
    requires |gpr| == 32 && !Boot(e, rd, bs1, gpr, pc).fatal
    ensures var s := Boot(e, rd, bs1, gpr, pc);
            && s.gpr == gpr && s.pc == pc && s.cpu.msr == (if bs1 then 0 else 0x30) && s.cpu.bats == Default(e.console)
            && s.cpu.hid0 == s.cpu.hid1 == s.cpu.hid2 == s.cpu.l2cr == 0 && s.cpu.hid4 == 0x8000_0000
            && s.cpu.srr0 == s.cpu.srr1 == s.cpu.decrementer == s.cpu.tbl == s.cpu.tbu == 0
            && s.cpu.mmcr0 == s.cpu.mmcr1 == 0 && s.cpu.pmc == s.cpu.sprg == [0, 0, 0, 0]
            && forall j :: 0 <= j < 16 ==> s.cpu.segmentRegs[j] == 0
  {
  }
}

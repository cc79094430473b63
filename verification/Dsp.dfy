// The audio DSP's registers: a reset, halt and DMA state machine driven by register writes
// and timer ticks in any order.
module Dsp {
  import opened Words

  type Half = x: int | 0 <= x < 0x1_0000

  const BLOCK := 32
  const SIZE_DIRECTION := 0x8000_0000
  const MAILBOX_FULL := 0x8000

  datatype State = State(
    srcPtr: Word, destPtr: Word, fromAram: bool, resetTimer: nat, halted: bool,
    inMboxH: Half, inMboxL: Half, outMboxH: Half, outMboxL: Half, csr: Half, arSize: Half,
    mmAddr: Word, arAddr: Word, dmaSize: Word, fatal: bool)
  {
    predicate Reset() { csr % 2 == 1 }

    predicate HaltBit() { csr / 4 % 2 == 1 }

    predicate BootMode() { csr / 0x800 % 2 == 1 }

    predicate DirectionBit() { dmaSize >= SIZE_DIRECTION }

    /** Bytes still to move. */
    function Remaining(): nat { dmaSize % SIZE_DIRECTION }
  }

  /** Bit 15 of a half-word set or cleared. */
  function WithFull(h: Half, full: bool): Half { h % MAILBOX_FULL + (if full then MAILBOX_FULL else 0) }

  /** The addresses and direction of a transfer are latched when its size is written. */
  function DmaStart(s: State): State {
    if s.DirectionBit() then s.(fromAram := true, srcPtr := s.arAddr, destPtr := s.mmAddr)
    else s.(fromAram := false, srcPtr := s.mmAddr, destPtr := s.arAddr)
  }

  datatype Width = W8 | W16 | W32

  function WithHigh(w: Word, h: Half): Word { w % 0x1_0000 + h * 0x1_0000 }

  function WithLow(w: Word, l: Half): Word { w / 0x1_0000 * 0x1_0000 + l }

  function High(w: Word): Half { w / 0x1_0000 }

  function Low(w: Word): Half { w % 0x1_0000 }

  function WriteCsr(s: State, v: Half): State {
    var s1 := s.(csr := v, resetTimer := if v % 2 == 1 then 2 else s.resetTimer);
    if v / 4 % 2 == 1 then s1.(halted := true, outMboxH := WithFull(s.outMboxH, false))
    else if s.halted then s1.(halted := false, outMboxH := WithFull(s.outMboxH, true))
    else s1
  }

  /** A full-word write, by offset in the register page. */
  function WriteWord(s: State, reg: Word, val: Word): State {
    match reg
    case 0x020 => s.(mmAddr := val)
    case 0x024 => s.(arAddr := val)
    case 0x028 => DmaStart(s.(dmaSize := val))
    case _ => s.(fatal := true)
  }

  /** A half-word write, by offset in the register page. */
  function WriteHalf(s: State, reg: Word, v: Half): State {
    match reg
    case 0x000 => s.(inMboxH := v)
    case 0x002 => s.(inMboxL := v)
    case 0x004 => s.(outMboxH := WithFull(s.outMboxH, v >= MAILBOX_FULL))
    case 0x006 => s
    case 0x00A => WriteCsr(s, v)
    case 0x012 => s.(arSize := v)
    case 0x020 => s.(mmAddr := WithHigh(s.mmAddr, v))
    case 0x022 => s.(mmAddr := WithLow(s.mmAddr, v))
    case 0x024 => s.(arAddr := WithHigh(s.arAddr, v))
    case 0x026 => s.(arAddr := WithLow(s.arAddr, v))
    case 0x028 => s.(dmaSize := WithHigh(s.dmaSize, v))
    case 0x02A => DmaStart(s.(dmaSize := WithLow(s.dmaSize, v)))
    case _ => s.(fatal := true)
  }

  function Write(s: State, addr: Word, val: Word, width: Width): State {
    match width
    case W32 => WriteWord(s, addr % 0x1000, val)
    case W16 => WriteHalf(s, addr % 0x1000, Low(val))
    case W8 => s.(fatal := true)
  }

  /** Value read; an unknown register reads 0 and is fatal. */
  function ReadValue(s: State, addr: Word, width: Width): Word {
    match width
    case W32 =>
      (match addr % 0x1000
       case 0x020 => s.mmAddr
       case 0x024 => s.arAddr
       case 0x028 => s.dmaSize
       case _ => 0)
    case W16 =>
      (match addr % 0x1000
       case 0x000 => s.inMboxH
       case 0x002 => s.inMboxL
       case 0x004 => s.outMboxH
       case 0x006 => s.outMboxL
       case 0x00A => s.csr
       case 0x012 => s.arSize
       case 0x020 => High(s.mmAddr)
       case 0x022 => Low(s.mmAddr)
       case 0x024 => High(s.mmAddr) // as written; the address meant is arAddr
       case 0x026 => Low(s.arAddr)
       case 0x028 => High(s.dmaSize)
       case 0x02A => Low(s.dmaSize)
       case _ => 0)
    case W8 => 0
  }

  predicate Readable(addr: Word, width: Width) {
    match width
    case W32 => addr % 0x1000 in {0x020, 0x024, 0x028}
    case W16 => addr % 0x1000 in {0x000, 0x002, 0x004, 0x006, 0x00A, 0x012, 0x020, 0x022, 0x024, 0x026, 0x028, 0x02A}
    case W8 => false
  }

  /** The reset sequence of a tick; true means the tick ends there. */
  function ResetStage(s: State, bootMapped: bool): (State, bool) {
    if s.resetTimer == 2 then
      var s1 := s.(resetTimer := 1);
      if s.BootMode() then (s1, false) else (s1.(fatal := s.fatal || !bootMapped), true)
    else if s.resetTimer == 1 then (s.(csr := s.csr - s.csr % 2, resetTimer := 0), false)
    else (s, false)
  }

  /** One block of DMA, if there is one to do. */
  function DmaStage(s: State): State {
    if s.halted then s
    else if s.Remaining() % BLOCK != 0 then s.(fatal := true)
    else if s.Remaining() == 0 then s
    else s.(destPtr := Add(s.destPtr, BLOCK), srcPtr := Add(s.srcPtr, BLOCK), dmaSize := s.dmaSize - BLOCK)
  }

  /** One tick of the timer; bootMapped says whether the boot image's address translates. */
  function Tick(s: State, bootMapped: bool): State {
    var (s1, ends) := ResetStage(s, bootMapped);
    if ends then s1 else DmaStage(s1)
  }

  /** At power-up the CSR already has HALT set, while the device itself is not halted. */
  const INITIAL := State(0, 0, false, 0, false, 0, 0, 0, 0, 0x0816, 0, 0, 0, 0, false)

  // ---- Runs

  datatype Event = Ticks(bootMapped: bool) | Writes(addr: Word, val: Word, width: Width)

  function Apply(s: State, e: Event): State {
    match e
    case Ticks(mapped) => Tick(s, mapped)
    case Writes(addr, val, width) => Write(s, addr, val, width)
  }

  function Run(s: State, es: seq<Event>): State {
    if es == [] then s else Apply(Run(s, es[..|es| - 1]), es[|es| - 1])
  }

  predicate WritesSize(e: Event) {
    e.Writes? && ((e.width.W32? && e.addr % 0x1000 == 0x028)
                  || (e.width.W16? && e.addr % 0x1000 in {0x028, 0x02A}))
  }

  predicate WritesCsr(e: Event) { e.Writes? && e.width.W16? && e.addr % 0x1000 == 0x00A }

  /** A tick that gets as far as the DMA engine. */
  predicate Effective(s: State, e: Event) {
    e.Ticks? && !s.halted && !(s.resetTimer == 2 && !s.BootMode())
  }

  /** How many events of a run were effective ticks. */
  function EffectiveTicks(s: State, es: seq<Event>): nat {
    if es == [] then 0
    else
      var es' := es[..|es| - 1];
      EffectiveTicks(s, es') + (if Effective(Run(s, es'), es[|es| - 1]) then 1 else 0)
  }

  function TickCount(es: seq<Event>): nat {
    if es == [] then 0 else TickCount(es[..|es| - 1]) + (if es[|es| - 1].Ticks? then 1 else 0)
  }

  function Min(a: nat, b: nat): nat { if a < b then a else b }

  // ---- DMA

  /** How many blocks a transfer moves: all of an aligned one, none of any other. */
  function Blocks(s: State): nat { if s.Remaining() % BLOCK == 0 then s.Remaining() / BLOCK else 0 }

  /** The transfer after b blocks of the one in s. */
  predicate Moved(s: State, t: State, b: nat) {
    && b * BLOCK <= s.Remaining()
    && t.dmaSize == s.dmaSize - b * BLOCK
    && t.srcPtr == (s.srcPtr + b * BLOCK) % TWO32
    && t.destPtr == (s.destPtr + b * BLOCK) % TWO32
    && t.fromAram == s.fromAram
  }

  lemma AddBlock(p: Word, b: nat)
    ensures Add((p + b * BLOCK) % TWO32, BLOCK) == (p + (b + 1) * BLOCK) % TWO32
  {
    var x := p + b * BLOCK;
    assert x + BLOCK == p + (b + 1) * BLOCK;
    if x % TWO32 + BLOCK < TWO32 {
      DivUnique(x + BLOCK, TWO32, x / TWO32, x % TWO32 + BLOCK);
    } else {
      DivUnique(x + BLOCK, TWO32, x / TWO32 + 1, x % TWO32 + BLOCK - TWO32);
    }
  }

  lemma MovedOne(s: State, t: State, b: nat)
    requires Moved(s, t, b) && t.Remaining() % BLOCK == 0 && t.Remaining() != 0
    ensures Moved(s, t.(destPtr := Add(t.destPtr, BLOCK), srcPtr := Add(t.srcPtr, BLOCK), dmaSize := t.dmaSize - BLOCK),
                  b + 1)
  {
    MovedKeeps(s, t, b);
    AddBlock(s.srcPtr, b);
    AddBlock(s.destPtr, b);
  }

  lemma MovedKeeps(s: State, t: State, b: nat)
    requires Moved(s, t, b)
    ensures t.Remaining() + b * BLOCK == s.Remaining()
    ensures t.DirectionBit() == s.DirectionBit()
    ensures t.Remaining() % BLOCK == s.Remaining() % BLOCK
  {
    var r := s.Remaining() - b * BLOCK;
    DivUnique(t.dmaSize, SIZE_DIRECTION, s.dmaSize / SIZE_DIRECTION, r);
    DivUnique(s.Remaining(), BLOCK, r / BLOCK + b, r % BLOCK);
  }

  /** Over any interleaving of ticks and register writes that leave the size alone, what is
      left plus what has been moved is constant, both pointers advance with it, the direction
      bit survives the subtraction from the whole word, and a whole number of blocks stays
      one.  The blocks moved are exactly the effective ticks, up to the length of the
      transfer; an unaligned transfer never moves. */
  lemma {:induction false} DmaConservation(s: State, es: seq<Event>)
    requires forall e :: e in es ==> !WritesSize(e)
    ensures var t := Run(s, es);
            var b := Min(EffectiveTicks(s, es), Blocks(s));
            && Moved(s, t, b)
            && t.Remaining() + b * BLOCK == s.Remaining()
            && t.DirectionBit() == s.DirectionBit()
            && t.Remaining() % BLOCK == s.Remaining() % BLOCK
  {
    if es == [] {
      MovedKeeps(s, s, 0);
    } else {
      var es', e := es[..|es| - 1], es[|es| - 1];
      DmaConservation(s, es');
      MoveOneMore(s, Run(s, es'), EffectiveTicks(s, es'), e);
    }
  }

  lemma MoveOneMore(s: State, t: State, ticks: nat, e: Event)
    requires Moved(s, t, Min(ticks, Blocks(s))) && !WritesSize(e)
    ensures var b := Min(if Effective(t, e) then ticks + 1 else ticks, Blocks(s));
            && Moved(s, Apply(t, e), b)
            && Apply(t, e).Remaining() + b * BLOCK == s.Remaining()
            && Apply(t, e).DirectionBit() == s.DirectionBit()
            && Apply(t, e).Remaining() % BLOCK == s.Remaining() % BLOCK
  {
    var b := Min(ticks, Blocks(s));
    MovedKeeps(s, t, b);
    ApplyMoves(s, t, b, e);
    var moves := Effective(t, e) && t.Remaining() % BLOCK == 0 && t.Remaining() != 0;
    MovedKeeps(s, Apply(t, e), if moves then b + 1 else b);
  }

  lemma ApplyMoves(s: State, t: State, b: nat, e: Event)
    requires Moved(s, t, b) && !WritesSize(e)
    ensures Moved(s, Apply(t, e),
                  if Effective(t, e) && t.Remaining() % BLOCK == 0 && t.Remaining() != 0 then b + 1 else b)
  {
    match e
    case Writes(addr, val, width) => WriteLeaves(t, addr, val, width);
    case Ticks(mapped) => TickMoves(s, t, b, mapped);
  }

  lemma TickMoves(s: State, t: State, b: nat, mapped: bool)
    requires Moved(s, t, b)
    ensures Moved(s, Tick(t, mapped), if Effective(t, Ticks(mapped)) && t.Remaining() % BLOCK == 0 && t.Remaining() != 0
                                      then b + 1 else b)
  {
    if Effective(t, Ticks(mapped)) && t.Remaining() % BLOCK == 0 && t.Remaining() != 0 {
      MovedOne(s, t, b);
    }
  }

  /** Only a size write touches the transfer, and only a CSR write touches reset and halt. */
  lemma WriteLeaves(s: State, addr: Word, val: Word, width: Width)
    ensures var e, t := Writes(addr, val, width), Write(s, addr, val, width);
            && (!WritesSize(e) ==> t.srcPtr == s.srcPtr && t.destPtr == s.destPtr && t.dmaSize == s.dmaSize
                                   && t.fromAram == s.fromAram)
            && (!WritesCsr(e) ==> t.csr == s.csr && t.resetTimer == s.resetTimer && t.halted == s.halted)
            && (WritesCsr(e) ==> t == WriteCsr(s, Low(val)))
  {
  }

  /** An aligned transfer is over after exactly as many effective ticks as it has blocks, and
      from then on ticks move nothing. */
  lemma TransferEnds(s: State, es: seq<Event>)
    requires s.Remaining() % BLOCK == 0 && forall e :: e in es ==> !WritesSize(e)
    ensures Run(s, es).Remaining() == 0 <==> EffectiveTicks(s, es) >= s.Remaining() / BLOCK
    ensures EffectiveTicks(s, es) >= s.Remaining() / BLOCK ==>
              && Run(s, es).srcPtr == (s.srcPtr + s.Remaining()) % TWO32
              && Run(s, es).destPtr == (s.destPtr + s.Remaining()) % TWO32
  {
    DmaConservation(s, es);
    EndsAt(s, Run(s, es), EffectiveTicks(s, es));
  }

  lemma EndsAt(s: State, t: State, ticks: nat)
    requires s.Remaining() % BLOCK == 0 && Moved(s, t, Min(ticks, s.Remaining() / BLOCK))
    requires t.Remaining() + Min(ticks, s.Remaining() / BLOCK) * BLOCK == s.Remaining()
    ensures t.Remaining() == 0 <==> ticks >= s.Remaining() / BLOCK
    ensures ticks >= s.Remaining() / BLOCK ==>
              && t.srcPtr == (s.srcPtr + s.Remaining()) % TWO32
              && t.destPtr == (s.destPtr + s.Remaining()) % TWO32
  {
    WholeBlocks(s.Remaining(), ticks);
  }

  lemma WholeBlocks(n: nat, ticks: nat)
    requires n % BLOCK == 0
    ensures Min(ticks, n / BLOCK) * BLOCK == n <==> ticks >= n / BLOCK
  {
  }

  // ---- Reset and halt

  predicate ResetInv(s: State) { s.resetTimer <= 2 && (s.Reset() ==> s.resetTimer != 0) }

  lemma ApplyReset(s: State, e: Event)
    requires ResetInv(s)
    ensures ResetInv(Apply(s, e))
  {
    if e.Writes? {
      WriteLeaves(s, e.addr, e.val, e.width);
    }
  }

  /** In every run the reset timer is 0, 1 or 2, and RESET in the CSR means it is still
      counting. */
  lemma {:induction false} RunReset(es: seq<Event>)
    ensures ResetInv(Run(INITIAL, es))
  {
    if es != [] {
      RunReset(es[..|es| - 1]);
      ApplyReset(Run(INITIAL, es[..|es| - 1]), es[|es| - 1]);
    }
  }

  lemma TickTimer(s: State, mapped: bool)
    requires s.resetTimer <= 2
    ensures Tick(s, mapped).resetTimer == if s.resetTimer != 0 then s.resetTimer - 1 else 0
  {
    assert forall t: State :: DmaStage(t).resetTimer == t.resetTimer;
  }

  lemma ApplyTimer(s: State, e: Event)
    requires ResetInv(s) && !WritesCsr(e)
    ensures Apply(s, e).resetTimer == if e.Ticks? && s.resetTimer != 0 then s.resetTimer - 1 else s.resetTimer
  {
    match e
    case Ticks(mapped) => TickTimer(s, mapped);
    case Writes(addr, val, width) => WriteLeaves(s, addr, val, width);
  }

  /** Without CSR writes the reset timer counts down one for each tick, halted or not, so two
      ticks always see a reset through. */
  lemma {:induction false} ResetCountsDown(s: State, es: seq<Event>)
    requires ResetInv(s) && forall e :: e in es ==> !WritesCsr(e)
    ensures ResetInv(Run(s, es))
    ensures Run(s, es).resetTimer == s.resetTimer - Min(s.resetTimer, TickCount(es))
    ensures TickCount(es) >= 2 ==> !Run(s, es).Reset()
  {
    if es != [] {
      var es', e := es[..|es| - 1], es[|es| - 1];
      ResetCountsDown(s, es');
      ApplyReset(Run(s, es'), e);
      ApplyTimer(Run(s, es'), e);
    }
  }

  lemma ApplyHalt(s: State, e: Event)
    requires s.halted == s.HaltBit() || WritesCsr(e)
    ensures Apply(s, e).halted == Apply(s, e).HaltBit()
  {
    if e.Writes? {
      WriteLeaves(s, e.addr, e.val, e.width);
    } else {
      DivUnique(s.csr - s.csr % 2, 4, s.csr / 4, s.csr % 4 - s.csr % 2);
    }
  }

  /** From the first CSR write on, the device is halted exactly when the CSR says so; at
      power-up it is not. */
  lemma {:induction false} RunHalt(es: seq<Event>, n: nat)
    requires n < |es| && WritesCsr(es[n])
    ensures Run(INITIAL, es).halted == Run(INITIAL, es).HaltBit()
    ensures INITIAL.halted != INITIAL.HaltBit()
    decreases |es|
  {
    var es' := es[..|es| - 1];
    if n < |es| - 1 {
      RunHalt(es', n);
    }
    ApplyHalt(Run(INITIAL, es'), es[|es| - 1]);
  }

  // ---- Half-words and words

  /** The address of a DMA register, in any mirror of the register page. */
  predicate DmaRegister(addr: Word) { addr % 0x1000 in {0x020, 0x024, 0x028} }

  /** The address of its low half. */
  function LowHalf(addr: Word): (low: Word)
    requires DmaRegister(addr)
    ensures low == addr + 2 && low % 0x1000 == addr % 0x1000 + 2
  {
    DivUnique(addr + 2, 0x1000, addr / 0x1000, addr % 0x1000 + 2);
    addr + 2
  }

  lemma HalfWords(w: Word, v: Word)
    ensures WithLow(WithHigh(w, High(v)), Low(v)) == v
    ensures WithHigh(WithLow(w, Low(v)), High(v)) == v
    ensures High(v) * 0x1_0000 + Low(v) == v
  {
  }

  /** In any state, writing the high half and then the low half leaves the whole device, latch
      included, as one full-word write does. */
  lemma HighThenLow(s: State, addr: Word, v: Word)
    requires DmaRegister(addr)
    ensures Write(Write(s, addr, High(v), W16), LowHalf(addr), Low(v), W16) == Write(s, addr, v, W32)
  {
    StoreHigh(s, addr, High(v));
    StoreLow(Write(s, addr, High(v), W16), addr, Low(v));
    StoreWhole(s, addr, v);
    if addr % 0x1000 == 0x020 {
      HalfWords(s.mmAddr, v);
    } else if addr % 0x1000 == 0x024 {
      HalfWords(s.arAddr, v);
    } else {
      HalfWords(s.dmaSize, v);
    }
  }

  lemma StoreWhole(s: State, addr: Word, v: Word)
    requires DmaRegister(addr)
    ensures Write(s, addr, v, W32)
         == if addr % 0x1000 == 0x020 then s.(mmAddr := v)
            else if addr % 0x1000 == 0x024 then s.(arAddr := v)
            else DmaStart(s.(dmaSize := v))
  {
  }

  /** What half-word writes to a DMA register store. */
  lemma StoreHigh(s: State, addr: Word, h: Half)
    requires DmaRegister(addr)
    ensures Write(s, addr, h, W16)
         == if addr % 0x1000 == 0x020 then s.(mmAddr := WithHigh(s.mmAddr, h))
            else if addr % 0x1000 == 0x024 then s.(arAddr := WithHigh(s.arAddr, h))
            else s.(dmaSize := WithHigh(s.dmaSize, h))
  {
  }

  lemma StoreLow(s: State, addr: Word, l: Half)
    requires DmaRegister(addr)
    ensures Write(s, LowHalf(addr), l, W16)
         == if addr % 0x1000 == 0x020 then s.(mmAddr := WithLow(s.mmAddr, l))
            else if addr % 0x1000 == 0x024 then s.(arAddr := WithLow(s.arAddr, l))
            else DmaStart(s.(dmaSize := WithLow(s.dmaSize, l)))
  {
    assert Write(s, LowHalf(addr), l, W16) == WriteHalf(s, addr % 0x1000 + 2, l);
  }

  /** The other order latches the direction bit that was there before, so for the size it is
      the same exactly when that bit does not change; for the addresses it always is. */
  lemma LowThenHigh(s: State, addr: Word, v: Word)
    requires DmaRegister(addr)
    ensures Write(Write(s, LowHalf(addr), Low(v), W16), addr, High(v), W16) == Write(s, addr, v, W32)
       <==> addr % 0x1000 != 0x028 || s.DirectionBit() == (v >= SIZE_DIRECTION)
  {
    StoreLow(s, addr, Low(v));
    StoreHigh(Write(s, LowHalf(addr), Low(v), W16), addr, High(v));
    StoreWhole(s, addr, v);
    if addr % 0x1000 == 0x020 {
      HalfWords(s.mmAddr, v);
    } else if addr % 0x1000 == 0x024 {
      HalfWords(s.arAddr, v);
    } else {
      HalfWords(s.dmaSize, v);
      LowKeepsDirection(s.dmaSize, Low(v));
      LatchedEarly(s, WithLow(s.dmaSize, Low(v)), v);
    }
  }

  /** A latch taken before the last change of the size is right if the direction bit was. */
  lemma LatchedEarly(s: State, w: Word, v: Word)
    ensures DmaStart(s.(dmaSize := w)).(dmaSize := v) == DmaStart(s.(dmaSize := v))
       <==> (w >= SIZE_DIRECTION) == (v >= SIZE_DIRECTION)
  {
  }

  lemma LowKeepsDirection(w: Word, l: Half)
    ensures WithLow(w, l) >= SIZE_DIRECTION <==> w >= SIZE_DIRECTION
  {
  }

  /** Two half-word reads recombine to the full-word read; for the ARAM address, whose high
      half is taken from the main-memory address, exactly when those high halves agree. */
  lemma ReadHalves(s: State, addr: Word)
    requires DmaRegister(addr)
    ensures ReadValue(s, addr, W16) * 0x1_0000 + ReadValue(s, LowHalf(addr), W16) == ReadValue(s, addr, W32)
       <==> addr % 0x1000 != 0x024 || High(s.mmAddr) == High(s.arAddr)
  {
    HalfWords(0, s.mmAddr);
    HalfWords(0, s.arAddr);
    HalfWords(0, s.dmaSize);
  }

  /** What a half-word write stores is what the half-word read returns, the ARAM high half and
      the outgoing mailbox apart. */
  lemma WriteThenRead(s: State, reg: Word, v: Word)
    requires Readable(reg, W16) && reg % 0x1000 !in {0x024, 0x004, 0x006}
    ensures ReadValue(Write(s, reg, v, W16), reg, W16) == Low(v)
  {
    HalfBack(s.mmAddr, Low(v));
    HalfBack(s.arAddr, Low(v));
    HalfBack(s.dmaSize, Low(v));
  }

  lemma HalfBack(w: Word, h: Half)
    ensures High(WithHigh(w, h)) == h && Low(WithLow(w, h)) == h
  {
  }
}

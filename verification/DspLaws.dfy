// The DSP from outside: what a guest that programs a transfer gets, and every register by its
// offset.
module DspLaws {
  import opened Words
  import opened Dsp

  // ---- Programming a transfer

  predicate IsSizeWrite(addr: Word, width: Width) {
    (width.W32? && addr % 0x1000 == 0x028) || (width.W16? && addr % 0x1000 == 0x02A)
  }

  /** The size a size write leaves: the whole word, or the low half under the high half there was. */
  function SizeAfter(s: State, val: Word, width: Width): nat {
    if width.W32? then val else s.dmaSize / 0x1_0000 * 0x1_0000 + val % 0x1_0000
  }

  /** A size write latches the transfer: with a size below 2^31 from main memory to ARAM, from 2^31 on
      from ARAM to main memory.  It changes nothing else. */
  lemma SizeWriteLatches(s: State, addr: Word, val: Word, width: Width)
    requires IsSizeWrite(addr, width)
    ensures var t, size := Write(s, addr, val, width), SizeAfter(s, val, width);
            && t.dmaSize == size
            && (size < 0x8000_0000 ==> t.srcPtr == s.mmAddr && t.destPtr == s.arAddr && !t.fromAram)
            && (size >= 0x8000_0000 ==> t.srcPtr == s.arAddr && t.destPtr == s.mmAddr && t.fromAram)
            && t == s.(dmaSize := t.dmaSize, srcPtr := t.srcPtr, destPtr := t.destPtr, fromAram := t.fromAram)
  {
  }

  /** The three words of a transfer written in order, in any mirror of the register page: the
      addresses are latched as the direction bit of the last says. */
  lemma ProgramTransfer(s: State, page: Word, main: Word, aram: Word, size: Word)
    requires page % 0x1000 == 0
    ensures var t := Write(Write(Write(s, page + 0x020, main, W32), page + 0x024, aram, W32), page + 0x028, size, W32);
            && t.dmaSize == size && t.mmAddr == main && t.arAddr == aram && t.fatal == s.fatal
            && (size < 0x8000_0000 ==> t.srcPtr == main && t.destPtr == aram && !t.fromAram)
            && (size >= 0x8000_0000 ==> t.srcPtr == aram && t.destPtr == main && t.fromAram)
  {
    Offset(page, 0x020);
    Offset(page, 0x024);
    Offset(page, 0x028);
    SizeWriteLatches(Write(Write(s, page + 0x020, main, W32), page + 0x024, aram, W32), page + 0x028, size, W32);
  }

  lemma Offset(page: Word, reg: nat)
    requires page % 0x1000 == 0 && reg < 0x1000
    ensures page + reg < TWO32 && (page + reg) % 0x1000 == reg
  {
    DivUnique(page + reg, 0x1000, page / 0x1000, reg);
  }

  /** Bytes moved by so many ticks of a transfer of n bytes. */
  function Done(ticks: nat, n: nat): nat { if 32 * ticks < n then 32 * ticks else n }

  /** A transfer between these addresses of which this many bytes are done. */
  predicate Walked(source: Word, destination: Word, size: nat, fromAram: bool, t: State, done: nat) {
    && t.srcPtr == (source + done) % 0x1_0000_0000
    && t.destPtr == (destination + done) % 0x1_0000_0000
    && t.fromAram == fromAram
    && t.dmaSize % 0x8000_0000 == size % 0x8000_0000 - done
  }

  lemma Walks(s: State, es: seq<Event>)
    requires s.dmaSize % 32 == 0 && forall e :: e in es ==> !WritesSize(e)
    ensures Walked(s.srcPtr, s.destPtr, s.dmaSize, s.fromAram, Run(s, es),
                   Done(EffectiveTicks(s, es), s.dmaSize % 0x8000_0000))
  {
    DmaConservation(s, es);
    BlocksAreBytes(s, Run(s, es), EffectiveTicks(s, es));
  }

  lemma BlocksAreBytes(s: State, t: State, ticks: nat)
    requires s.dmaSize % 32 == 0
    requires var b := Min(ticks, Blocks(s)); Moved(s, t, b) && t.Remaining() + b * BLOCK == s.Remaining()
    ensures Walked(s.srcPtr, s.destPtr, s.dmaSize, s.fromAram, t, Done(ticks, s.dmaSize % 0x8000_0000))
  {
    SizeInBlocks(s.dmaSize);
    DoneBytes(ticks, s.Remaining());
  }

  /** From a size write of whole blocks on, until the next: block by block the source pointer walks the
      main-memory range and the destination pointer the ARAM range, or the other way round, as long
      as there are effective ticks and bytes left; and at the end both ranges have been covered. */
  lemma TransferCovers(s: State, addr: Word, val: Word, width: Width, es: seq<Event>)
    requires IsSizeWrite(addr, width) && SizeAfter(s, val, width) % 32 == 0
    requires forall e :: e in es ==> !WritesSize(e)
    ensures var size, first := SizeAfter(s, val, width), Write(s, addr, val, width);
            var source := if size < 0x8000_0000 then s.mmAddr else s.arAddr;
            var destination := if size < 0x8000_0000 then s.arAddr else s.mmAddr;
            Walked(source, destination, size, size >= 0x8000_0000, Run(first, es),
                   Done(EffectiveTicks(first, es), size % 0x8000_0000))
  {
    SizeWriteLatches(s, addr, val, width);
    Walks(Write(s, addr, val, width), es);
  }

  lemma DoneBytes(ticks: nat, n: nat)
    requires n % 32 == 0
    ensures Min(ticks, n / 32) * 32 == Done(ticks, n)
  {
  }

  // ---- Registers by offset

  /** A half-word write field by field. */
  lemma HalfWriteStores(s: State, addr: Word, val: Word)
    ensures var t, r, v := Write(s, addr, val, W16), addr % 0x1000, val % 0x1_0000;
            && t.inMboxH == (if r == 0x000 then v else s.inMboxH)
            && t.inMboxL == (if r == 0x002 then v else s.inMboxL)
            && t.outMboxL == s.outMboxL
            && t.csr == (if r == 0x00A then v else s.csr)
            && t.arSize == (if r == 0x012 then v else s.arSize)
            && t.fatal == (s.fatal || r !in {0x000, 0x002, 0x004, 0x006, 0x00A, 0x012,
                                             0x020, 0x022, 0x024, 0x026, 0x028, 0x02A})
  {
  }

  lemma HalfWriteStoresAddresses(s: State, addr: Word, val: Word)
    ensures var t, r, v := Write(s, addr, val, W16), addr % 0x1000, val % 0x1_0000;
            && t.mmAddr == (if r == 0x020 then v * 0x1_0000 + s.mmAddr % 0x1_0000
                            else if r == 0x022 then s.mmAddr - s.mmAddr % 0x1_0000 + v else s.mmAddr)
            && t.arAddr == (if r == 0x024 then v * 0x1_0000 + s.arAddr % 0x1_0000
                            else if r == 0x026 then s.arAddr - s.arAddr % 0x1_0000 + v else s.arAddr)
            && t.dmaSize == (if r == 0x028 then v * 0x1_0000 + s.dmaSize % 0x1_0000
                             else if r == 0x02A then s.dmaSize - s.dmaSize % 0x1_0000 + v else s.dmaSize)
  {
  }

  /** A full-word write reaches the three words of the transfer; there is none of any other offset and
      no byte write at all. */
  lemma OtherWrites(s: State, addr: Word, val: Word)
    ensures var t, r := Write(s, addr, val, W32), addr % 0x1000;
            && t.mmAddr == (if r == 0x020 then val else s.mmAddr)
            && t.arAddr == (if r == 0x024 then val else s.arAddr)
            && t.dmaSize == (if r == 0x028 then val else s.dmaSize)
            && (r != 0x028 ==> t == s.(mmAddr := t.mmAddr, arAddr := t.arAddr, fatal := t.fatal))
            && t.fatal == (s.fatal || r !in {0x020, 0x024, 0x028})
    ensures Write(s, addr, val, W8) == s.(fatal := true)
  {
  }

  /** A CSR write: bit 0 starts the reset timer at 2, bit 2 halts and empties the outgoing mailbox, and
      its absence resumes a halted device and fills it. */
  lemma CsrWrite(s: State, addr: Word, val: Word)
    requires addr % 0x1000 == 0x00A
    ensures var t, halt := Write(s, addr, val, W16), val / 4 % 2 == 1;
            && t.resetTimer == (if val % 2 == 1 then 2 else s.resetTimer)
            && t.halted == halt
            && (t.outMboxH >= 0x8000 <==> if halt then false else s.halted || s.outMboxH >= 0x8000)
            && t.outMboxH % 0x8000 == s.outMboxH % 0x8000
            && t == s.(csr := t.csr, resetTimer := t.resetTimer, halted := t.halted, outMboxH := t.outMboxH)
  {
    var v := val % 0x1_0000;
    DivUnique(val, 4, val / 0x1_0000 * 0x4000 + v / 4, v % 4);
    DivUnique(val, 2, val / 0x1_0000 * 0x8000 + v / 2, v % 2);
    DivUnique(val / 4, 2, val / 0x1_0000 * 0x2000 + v / 4 / 2, v / 4 % 2);
  }

  /** Of the outgoing mailbox the guest can write the full bit only. */
  lemma MailboxWrite(s: State, addr: Word, val: Word)
    requires addr % 0x1000 == 0x004
    ensures var t := Write(s, addr, val, W16);
            && (t.outMboxH >= 0x8000 <==> val / 0x8000 % 2 == 1)
            && t.outMboxH % 0x8000 == s.outMboxH % 0x8000 && t == s.(outMboxH := t.outMboxH)
  {
    var v := val % 0x1_0000;
    DivUnique(val, 0x8000, val / 0x1_0000 * 2 + v / 0x8000, v % 0x8000);
  }

  /** A register can be read exactly where one can be written; elsewhere 0 is read. */
  lemma ReadsWhereWritten(s: State, addr: Word, val: Word, width: Width)
    ensures Readable(addr, width) <==> !Write(s.(fatal := false), addr, val, width).fatal
    ensures !Readable(addr, width) ==> ReadValue(s, addr, width) == 0
  {
  }

  /** What the registers read as. */
  lemma ReadsAs(s: State, addr: Word)
    ensures var r, v := addr % 0x1000, ReadValue(s, addr, W16);
            && (r == 0x000 ==> v == s.inMboxH) && (r == 0x002 ==> v == s.inMboxL)
            && (r == 0x004 ==> v == s.outMboxH) && (r == 0x006 ==> v == s.outMboxL)
            && (r == 0x00A ==> v == s.csr) && (r == 0x012 ==> v == s.arSize)
            && (r == 0x020 || r == 0x024 ==> v == s.mmAddr / 0x1_0000)
            && (r == 0x022 ==> v == s.mmAddr % 0x1_0000) && (r == 0x026 ==> v == s.arAddr % 0x1_0000)
            && (r == 0x028 ==> v == s.dmaSize / 0x1_0000) && (r == 0x02A ==> v == s.dmaSize % 0x1_0000)
    ensures var r, v := addr % 0x1000, ReadValue(s, addr, W32);
            && (r == 0x020 ==> v == s.mmAddr) && (r == 0x024 ==> v == s.arAddr) && (r == 0x028 ==> v == s.dmaSize)
  {
  }

  // ---- Ticks

  /** Exactly when a tick stops the machine: in the first tick of a reset, with bit 11 of the CSR
      clear, if the boot image is not mapped; otherwise, unless the device is halted, if the size is
      not a multiple of 32. */
  lemma TickFails(s: State, mapped: bool)
    requires !s.fatal
    ensures Tick(s, mapped).fatal
       <==> if s.resetTimer == 2 && s.csr / 0x800 % 2 == 0 then !mapped else !s.halted && s.dmaSize % 32 != 0
  {
    SizeInBlocks(s.dmaSize);
  }

  lemma SizeInBlocks(size: Word)
    ensures size % 0x8000_0000 % 32 == size % 32
  {
  }

  /** What a tick does to the reset: one off the timer, and with the last one bit 0 of the CSR goes. */
  lemma TickResets(s: State, mapped: bool)
    requires s.resetTimer <= 2
    ensures var t := Tick(s, mapped);
            && t.resetTimer == (if s.resetTimer == 0 then 0 else s.resetTimer - 1)
            && t.csr == (if s.resetTimer == 1 then s.csr / 2 * 2 else s.csr)
            && t == s.(csr := t.csr, resetTimer := t.resetTimer, fatal := t.fatal,
                       srcPtr := t.srcPtr, destPtr := t.destPtr, dmaSize := t.dmaSize)
  {
    TickTimer(s, mapped);
  }

  /** And to the transfer: 32 bytes on, if it gets that far and there is anything to move. */
  lemma TickMoves(s: State, mapped: bool)
    ensures var t := Tick(s, mapped);
            var moves := !(s.resetTimer == 2 && s.csr / 0x800 % 2 == 0) && !s.halted
                         && s.dmaSize % 32 == 0 && s.dmaSize % 0x8000_0000 != 0;
            && t.dmaSize == (if moves then s.dmaSize - 32 else s.dmaSize)
            && t.srcPtr == (if moves then (s.srcPtr + 32) % 0x1_0000_0000 else s.srcPtr)
            && t.destPtr == (if moves then (s.destPtr + 32) % 0x1_0000_0000 else s.destPtr)
  {
    SizeInBlocks(s.dmaSize);
  }

  /** At power-up only the CSR is not zero: it shows HALT, bit 2, and boot mode, bit 11, but the device
      runs; the first tick finds nothing to do. */
  lemma PowerUp(mapped: bool)
    ensures INITIAL == State(0, 0, false, 0, false, 0, 0, 0, 0, 0x0816, 0, 0, 0, 0, false)
    ensures INITIAL.HaltBit() && INITIAL.BootMode() && !INITIAL.Reset() && !INITIAL.halted
    ensures Tick(INITIAL, mapped) == INITIAL
  {
  }

  /** A reset takes two ticks, and clears bit 0 of the CSR only with the second. */
  lemma ResetTakesTwoTicks(s: State, addr: Word, val: Word, m1: bool, m2: bool)
    requires addr % 0x1000 == 0x00A && val % 2 == 1
    ensures var t := Write(s, addr, val, W16);
            && Tick(t, m1).csr % 2 == 1 && Tick(t, m1).resetTimer == 1
            && Tick(Tick(t, m1), m2).csr % 2 == 0 && Tick(Tick(t, m1), m2).resetTimer == 0
            && Tick(Tick(t, m1), m2).csr / 2 == val % 0x1_0000 / 2
  {
    var t := Write(s, addr, val, W16);
    CsrWrite(s, addr, val);
    HalfWriteStores(s, addr, val);
    OddHalf(val);
    TickResets(t, m1);
    TickResets(Tick(t, m1), m2);
  }

  lemma OddHalf(val: Word)
    ensures val % 0x1_0000 % 2 == val % 2
  {
  }
}

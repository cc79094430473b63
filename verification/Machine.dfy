// The trap machine: each SIGILL is one step that decodes a word, updates the register file
// or the MSR, and brings the page map in line if that was asked for.
module Machine {
  import opened Words
  import opened Bat
  import opened MemMap
  import opened ModeSwitch
  import opened DefaultBats
  import opened Spr
  import opened Decoder

  /** batWindows is history: the last change of windows was for the BATs, not for real mode. */
  datatype State = State(
    env: Env, reading: Reading, cpu: Cpu, windows: GuestMap, batWindows: bool,
    fatal: bool, needsUpdate: bool, gpr: seq<Reg>, pc: Word)
  {
    predicate Shaped() { cpu.Shaped() && windows.t.Shaped() && |gpr| == 32 }

    predicate Translating() { cpu.InstrTranslation() && cpu.DataTranslation() }
  }

  const BAD_READ: Reg := 0xFFFF_FFFF

  function NextPc(pc: Word): Word { Add(pc, 4) }

  /** The instruction's effect on registers and flags, before any map update. */
  ghost function Execute(s: State, i: Instruction): (s': State)
    requires s.Shaped() && (Encodable(i) || i.Unhandled?)
    ensures s'.Shaped() && s'.env == s.env && s'.reading == s.reading
    ensures s'.windows == s.windows && s'.batWindows == s.batWindows
  {
    var c := s.env.console;
    match i
    case Mfspr(rd, n) =>
      var r := Read(c, s.cpu, n);
      s.(gpr := s.gpr[rd := if r.Some? then r.value else BAD_READ], pc := NextPc(s.pc), fatal := s.fatal || r.None?)
    case Mtspr(rs, n) =>
      s.(cpu := Write(c, s.cpu, n, s.gpr[rs]), pc := NextPc(s.pc),
         fatal := s.fatal || WriteFatal(c, s.cpu, n, s.gpr[rs]),
         needsUpdate := s.needsUpdate || WriteTouchesMap(n))
    case Mfmsr(rd) => s.(gpr := s.gpr[rd := s.cpu.msr], pc := NextPc(s.pc))
    case Mtmsr(rs) =>
      var cpu := s.cpu.(msr := s.gpr[rs]);
      s.(cpu := cpu, pc := NextPc(s.pc), fatal := s.fatal || !cpu.MsrValid())
    case Rfi =>
      var cpu := s.cpu.(msr := RfiMsr(s.cpu));
      s.(cpu := cpu, pc := s.cpu.srr0 / 4 * 4, fatal := s.fatal || !cpu.MsrValid(), needsUpdate := true)
    case Mtsr(rs, sr) =>
      s.(cpu := s.cpu.(segmentRegs := s.cpu.segmentRegs[sr := s.gpr[rs]]), pc := NextPc(s.pc))
    case Mfsr(rd, sr) => s.(gpr := s.gpr[rd := s.cpu.segmentRegs[sr]], pc := NextPc(s.pc))
    case Dcbi => s.(pc := NextPc(s.pc))
    case Unhandled => s.(fatal := true)
  }

  /** The map brought in line with the MSR, given whether the guest was translating before. */
  ghost function Update(s: State, was: bool): (s': State)
    requires s.Shaped()
    ensures s'.Shaped()
  {
    var ir, dr := s.cpu.InstrTranslation(), s.cpu.DataTranslation();
    var f := Fixups(s.env, s.reading, s.cpu.bats, was, ir, dr, s.windows);
    FixupsShaped(s.env, s.reading, s.cpu.bats, was, ir, dr, s.windows);
    s.(windows := f.0, fatal := s.fatal || f.1, needsUpdate := false,
       batWindows := if ir != dr then s.batWindows else if ir then true else if was then false else s.batWindows)
  }

  lemma FixupsShaped(e: Env, rd: Reading, b: Bats, was: bool, ir: bool, dr: bool, m: GuestMap)
    requires b.Shaped() && m.t.Shaped()
    ensures Fixups(e, rd, b, was, ir, dr, m).0.t.Shaped()
  {
    var m0 := UnmapAll(e.console, MaxBat(e.console), m);
    WipedUnused(m.t, MaxBat(e.console));
    MapPhysGet(e, Mem1, m0);
    MapPhysGet(e, Mem2, MapPhys(e, Mem1, m0));
  }

  /** One trap.  A machine that has hit a fatal error does not step any more. */
  ghost function Step(s: State, w: Word): (s': State)
    requires s.Shaped()
    ensures s'.Shaped() && s'.env == s.env && s'.reading == s.reading
  {
    if s.fatal then s
    else
      var s1 := Execute(s, Decode(w));
      if s1.needsUpdate then Update(s1, s.Translating()) else s1
  }

  /** Between traps the guest runs natively: it arrives with whatever general registers and
      program counter it likes.  The emulator's stack holds some junk by then, which the
      address variable of a reload starts with where the code does not set it. */
  datatype Trap = Trap(word: Word, gpr: seq<Reg>, pc: Word, junk: Word)

  predicate Arrives(t: Trap) { |t.gpr| == 32 }

  function WithJunk(rd: Reading, junk: Word): Reading {
    match rd
    case Intended => Intended
    case AsWritten(_) => AsWritten(junk)
  }

  /** The machine as the handler finds it. */
  ghost function Enter(s: State, t: Trap): State {
    s.(gpr := t.gpr, pc := t.pc, reading := WithJunk(s.reading, t.junk))
  }

  ghost function TrapStep(s: State, t: Trap): (s': State)
    requires s.Shaped() && Arrives(t)
    ensures s'.Shaped() && s'.env == s.env && s'.reading.Intended? == s.reading.Intended?
  {
    if s.fatal then s else Step(Enter(s, t), t.word)
  }

  ghost predicate Trace(ts: seq<Trap>) { forall i :: 0 <= i < |ts| ==> Arrives(ts[i]) }

  ghost function Run(s: State, ts: seq<Trap>): (s': State)
    requires s.Shaped() && Trace(ts)
    ensures s'.Shaped() && s'.env == s.env && s'.reading.Intended? == s.reading.Intended?
  {
    if ts == [] then s
    else TrapStep(Run(s, ts[..|ts| - 1]), ts[|ts| - 1])
  }

  // ---- Start-up

  const ZERO16: seq<Reg> := [0, 0, 0, 0, 0, 0, 0, 0, 0, 0, 0, 0, 0, 0, 0, 0]
  const ZERO8: seq<Word> := [0, 0, 0, 0, 0, 0, 0, 0]
  const UNUSED8: seq<Word> := [FAILED, FAILED, FAILED, FAILED, FAILED, FAILED, FAILED, FAILED]

  const MSR_TRANSLATING: Reg := 0x30

  /** The sentinel loops of E_MemInit never run, so as written the tables start zeroed. */
  function InitialTables(rd: Reading): (t: Tables)
    ensures t.Shaped()
  {
    var row := if rd.Intended? then UNUSED8 else ZERO8;
    Tables(row, row, row, row)
  }

  /** Registers when the map is first set up: everything zero but the MSR and the BATs. */
  function EarlyCpu(c: Console, msr: Reg): (cpu: Cpu)
    ensures cpu.Shaped()
  {
    Cpu(0, 0, msr, 0, 0, 0, 0, 0, 0, 0, [0, 0, 0, 0], [0, 0, 0, 0], Default(c), ZERO16, 0, 0, 0)
  }

  /** E_CPU_Init. */
  function InitCpu(cpu: Cpu): (cpu': Cpu)
    requires cpu.Shaped()
    ensures cpu'.Shaped()
  {
    cpu.(hid0 := 0, hid1 := 0, hid2 := 0, hid4 := HID4_ALWAYS_ONE, srr0 := 0, srr1 := 0, l2cr := 0,
         mmcr0 := 0, mmcr1 := 0, pmc := [0, 0, 0, 0], sprg := [0, 0, 0, 0])
  }

  /** From the zeroed state to the first native instruction.  A BS1 image starts in real mode:
      its map is set up with translation off and then remapped as if leaving translation. */
  ghost function Boot(e: Env, rd: Reading, bs1: bool, gpr: seq<Reg>, pc: Word): (s: State)
    requires |gpr| == 32
    ensures s.Shaped() && s.env == e && s.reading == rd
  {
    var m0 := GuestMap(InitialTables(rd), imap[], {});
    var s0 := State(e, rd, EarlyCpu(e.console, if bs1 then 0 else MSR_TRANSLATING), m0, false, false, false, gpr, pc);
    var s1 := Update(s0, s0.Translating());
    if s1.fatal then s1
    else
      var s2 := if bs1 then Update(s1, true) else s1;
      s2.(cpu := InitCpu(s2.cpu))
  }
}

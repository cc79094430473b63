// The DSP as the program runs it: an object whose registers are updated in place by MMIO
// writes and by the timer, beside the emulator it shares the fatal flag with.
module DspDevice {
  import opened Words
  import opened Bat
  import opened EmulatorState
  import D = Dsp

  const BOOT_PADDR: Word := 0x0100_0000

  class Device {
    const emu: Emulator

    var dmaSrcPtr: Word
    var dmaDestPtr: Word
    var dmaDir: bool
    var resetTimer: nat
    var halt: bool
    var inMboxH: D.Half
    var inMboxL: D.Half
    var outMboxH: D.Half
    var outMboxL: D.Half
    var csr: D.Half
    var arSize: D.Half
    var dmaMMAddr: Word
    var dmaARAddr: Word
    var dmaSize: Word

    function View(): D.State
      reads this, emu
    {
      D.State(dmaSrcPtr, dmaDestPtr, dmaDir, resetTimer, halt, inMboxH, inMboxL, outMboxH, outMboxL, csr, arSize,
              dmaMMAddr, dmaARAddr, dmaSize, emu.fatalError)
    }

    /** Does the boot image's physical address translate through the data BATs? */
    function BootMapped(): bool
      requires emu.cpu.Shaped()
      reads emu
    {
      PhysToVirt(emu.cpu.bats.dbatu, emu.cpu.bats.dbatl, BOOT_PADDR, MaxBat(emu.env.console)).mapped
    }

    constructor (emu: Emulator)
      ensures this.emu == emu && View() == D.INITIAL.(fatal := emu.fatalError)
    {
      this.emu := emu;
      dmaSrcPtr, dmaDestPtr, dmaDir, resetTimer, halt := 0, 0, false, 0, false;
      inMboxH, inMboxL, outMboxH, outMboxL, arSize := 0, 0, 0, 0, 0;
      dmaMMAddr, dmaARAddr, dmaSize := 0, 0, 0;
      csr := 0x0816;
    }

    method DmaStart()
      modifies this`dmaDir, this`dmaSrcPtr, this`dmaDestPtr
      ensures View() == D.DmaStart(old(View()))
    {
      dmaDir := dmaSize / 0x8000_0000 == 1;
      if !dmaDir {
        dmaSrcPtr, dmaDestPtr := dmaMMAddr, dmaARAddr;
      } else {
        dmaSrcPtr, dmaDestPtr := dmaARAddr, dmaMMAddr;
      }
    }

    /** The reset sequence of a tick. */
    method ResetStage() returns (ends: bool)
      requires emu.Valid()
      modifies this`resetTimer, this`csr, emu`fatalError
      ensures (View(), ends) == D.ResetStage(old(View()), old(BootMapped()))
    {
      if resetTimer == 2 {
        resetTimer := resetTimer - 1;
        if csr / 0x800 % 2 == 0 {
          var virt := emu.PhysToVirtAddr(BOOT_PADDR, true);
          if !virt.mapped {
            emu.fatalError := true;
          }
          return true; // the image is copied from there into IRAM
        }
      } else if resetTimer == 1 {
        csr := csr - csr % 2;
        resetTimer := resetTimer - 1;
      }
      ends := false;
    }

    method TimerHook()
      requires emu.Valid()
      modifies this`resetTimer, this`csr, this`dmaDestPtr, this`dmaSrcPtr, this`dmaSize, emu`fatalError
      ensures View() == D.Tick(old(View()), old(BootMapped()))
    {
      var ends := ResetStage();
      if ends || halt {
        return;
      }
      var size := dmaSize % 0x8000_0000;
      if size % 0x20 != 0 {
        emu.fatalError := true;
        return;
      }
      if size == 0 {
        return;
      }
      dmaDestPtr := Add(dmaDestPtr, 32);
      dmaSrcPtr := Add(dmaSrcPtr, 32);
      dmaSize := dmaSize - 32;
    }

    method WriteCsr(val: D.Half)
      modifies this`csr, this`resetTimer, this`halt, this`outMboxH
      ensures View() == D.WriteCsr(old(View()), val)
    {
      csr := val;
      if val % 2 == 1 {
        resetTimer := 2;
      }
      if val / 4 % 2 == 1 {
        halt := true;
        outMboxH := outMboxH % 0x8000;
      } else if halt {
        halt := false;
        outMboxH := outMboxH % 0x8000 + 0x8000;
      }
    }

    method WriteWord(reg: Word, val: Word)
      modifies this`dmaMMAddr, this`dmaARAddr, this`dmaSize, this`dmaDir, this`dmaSrcPtr, this`dmaDestPtr
      modifies emu`fatalError
      ensures View() == D.WriteWord(old(View()), reg, val)
    {
      match reg
      case 0x020 => dmaMMAddr := val;
      case 0x024 => dmaARAddr := val;
      case 0x028 =>
        dmaSize := val;
        DmaStart();
      case _ => emu.fatalError := true;
    }

    /** The half-word address registers: one half is cleared, then set. */
    method WriteAddrHalf(reg: Word, val: D.Half)
      requires reg == 0x020 || reg == 0x022 || reg == 0x024 || reg == 0x026
      modifies this`dmaMMAddr, this`dmaARAddr
      ensures View() == D.WriteHalf(old(View()), reg, val)
    {
      match reg
      case 0x020 =>
        dmaMMAddr := dmaMMAddr % 0x1_0000;
        dmaMMAddr := dmaMMAddr + val * 0x1_0000;
      case 0x022 =>
        dmaMMAddr := dmaMMAddr / 0x1_0000 * 0x1_0000;
        dmaMMAddr := dmaMMAddr + val;
      case 0x024 =>
        dmaARAddr := dmaARAddr % 0x1_0000;
        dmaARAddr := dmaARAddr + val * 0x1_0000;
      case _ =>
        dmaARAddr := dmaARAddr / 0x1_0000 * 0x1_0000;
        dmaARAddr := dmaARAddr + val;
    }

    /** The half-word size registers; the low half starts the transfer. */
    method WriteSizeHalf(reg: Word, val: D.Half)
      requires reg == 0x028 || reg == 0x02A
      modifies this`dmaSize, this`dmaDir, this`dmaSrcPtr, this`dmaDestPtr
      ensures View() == D.WriteHalf(old(View()), reg, val)
    {
      if reg == 0x028 {
        dmaSize := dmaSize % 0x1_0000;
        dmaSize := dmaSize + val * 0x1_0000;
      } else {
        dmaSize := dmaSize / 0x1_0000 * 0x1_0000;
        dmaSize := dmaSize + val;
        DmaStart();
      }
    }

    method WriteHalf(reg: Word, v: D.Half)
      modifies this`dmaMMAddr, this`dmaARAddr, this`dmaSize, this`dmaDir, this`dmaSrcPtr, this`dmaDestPtr
      modifies this`csr, this`resetTimer, this`halt, this`outMboxH, this`inMboxH, this`inMboxL, this`arSize
      modifies emu`fatalError
      ensures View() == D.WriteHalf(old(View()), reg, v)
    {
      match reg
      case 0x000 => inMboxH := v;
      case 0x002 => inMboxL := v;
      case 0x004 => outMboxH := outMboxH % 0x8000 + (if v / 0x8000 == 1 then 0x8000 else 0);
      case 0x006 => // the outgoing low half is not writable
      case 0x00A => WriteCsr(v);
      case 0x012 => arSize := v;
      case 0x020 => WriteAddrHalf(reg, v);
      case 0x022 => WriteAddrHalf(reg, v);
      case 0x024 => WriteAddrHalf(reg, v);
      case 0x026 => WriteAddrHalf(reg, v);
      case 0x028 => WriteSizeHalf(reg, v);
      case 0x02A => WriteSizeHalf(reg, v);
      case _ => emu.fatalError := true;
    }

    method Write(addr: Word, val: Word, width: D.Width)
      modifies this, emu`fatalError
      ensures View() == D.Write(old(View()), addr, val, width)
    {
      match width
      case W32 => WriteWord(addr % 0x1000, val);
      case W16 => WriteHalf(addr % 0x1000, val % 0x1_0000);
      case W8 => emu.fatalError := true;
    }

    method Read(addr: Word, width: D.Width) returns (val: Word)
      modifies emu`fatalError
      ensures val == D.ReadValue(View(), addr, width)
      ensures View() == old(View()).(fatal := old(emu.fatalError) || !D.Readable(addr, width))
    {
      var reg := addr % 0x1000;
      val := 0;
      if width.W32? {
        match reg
        case 0x020 => val := dmaMMAddr;
        case 0x024 => val := dmaARAddr;
        case 0x028 => val := dmaSize;
        case _ => emu.fatalError := true;
      } else if width.W16? {
        match reg
        case 0x000 => val := inMboxH;
        case 0x002 => val := inMboxL;
        case 0x004 => val := outMboxH;
        case 0x006 => val := outMboxL;
        case 0x00A => val := csr;
        case 0x012 => val := arSize;
        case 0x020 => val := dmaMMAddr / 0x1_0000;
        case 0x022 => val := dmaMMAddr % 0x1_0000;
        case 0x024 => val := dmaMMAddr / 0x1_0000;
        case 0x026 => val := dmaARAddr % 0x1_0000;
        case 0x028 => val := dmaSize / 0x1_0000;
        case 0x02A => val := dmaSize % 0x1_0000;
        case _ => emu.fatalError := true;
      } else {
        emu.fatalError := true;
      }
    }
  }
}

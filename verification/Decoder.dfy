// The trap handler's instruction decoder, its inverse, and the console-type scan pattern.
module Decoder {
  import opened Words

  /** Fields of an instruction word, most significant first. */
  function Primary(w: Word): nat { w / 0x400_0000 }

  function RegField(w: Word): (r: nat)
    ensures r < 32
  {
    w / 0x20_0000 % 32
  }

  function SegmentField(w: Word): (r: nat)
    ensures r < 16
  {
    w / 0x1_0000 % 16
  }

  /** The SPR number, its two five-bit halves swapped back. */
  function SprField(w: Word): (s: nat)
    ensures s < 1024
  {
    var raw := w / 0x800 % 1024;
    raw / 32 % 32 + raw % 32 * 32
  }

  /** The extended opcode as the handler masks it: the low nine of its ten bits. */
  function NarrowOpcode(w: Word): nat { w % 0x400 / 2 }

  /** The whole extended opcode. */
  function WideOpcode(w: Word): nat { w % 0x800 / 2 }

  const RFI_WORD: Word := 0x4C00_0064

  datatype Instruction =
    | Mfspr(rd: nat, spr: nat)
    | Mtspr(rs: nat, spr: nat)
    | Mfmsr(rd: nat)
    | Mtmsr(rs: nat)
    | Rfi
    | Mtsr(rs: nat, sr: nat)
    | Mfsr(rd: nat, sr: nat)
    | Dcbi
    | Unhandled

  /** Operands within the width of their fields. */
  predicate Encodable(i: Instruction) {
    match i
    case Mfspr(rd, s) => rd < 32 && s < 1024
    case Mtspr(rs, s) => rs < 32 && s < 1024
    case Mfmsr(rd) => rd < 32
    case Mtmsr(rs) => rs < 32
    case Rfi => true
    case Mtsr(rs, sr) => rs < 32 && sr < 16
    case Mfsr(rd, sr) => rd < 32 && sr < 16
    case Dcbi => true
    case Unhandled => false
  }

  /** The chain of tests, for a given reading of the extended opcode. */
  function DecodeWith(w: Word, xo: nat): (i: Instruction)
    ensures Encodable(i) || i.Unhandled?
  {
    if xo == 339 && Primary(w) == 31 then Mfspr(RegField(w), SprField(w))
    else if xo == 467 && Primary(w) == 31 then Mtspr(RegField(w), SprField(w))
    else if xo == 83 && Primary(w) == 31 then Mfmsr(RegField(w))
    else if xo == 146 && Primary(w) == 31 then Mtmsr(RegField(w))
    else if w == RFI_WORD then Rfi
    else if xo == 210 && Primary(w) == 31 then Mtsr(RegField(w), SegmentField(w))
    else if xo == 595 && Primary(w) == 31 then Mfsr(RegField(w), SegmentField(w))
    else if xo == 470 && Primary(w) == 31 then Dcbi
    else Unhandled
  }

  /** What the handler does with a word. */
  function Decode(w: Word): (i: Instruction)
    ensures Encodable(i) || i.Unhandled?
  {
    DecodeWith(w, NarrowOpcode(w))
  }

  /** What it would do with the whole opcode. */
  function DecodeWide(w: Word): Instruction { DecodeWith(w, WideOpcode(w)) }

  // ---- Encoding

  /** Primary opcode 31 with a register field, eleven low bits and what lies between. */
  function Form(reg: nat, middle: nat, xo: nat): (w: Word)
    requires reg < 32 && middle < 1024 && xo < 1024
  {
    31 * 0x400_0000 + reg * 0x20_0000 + middle * 0x800 + xo * 2
  }

  function SwapHalves(s: nat): (t: nat)
    requires s < 1024
    ensures t < 1024
  {
    s / 32 + s % 32 * 32
  }

  /** The register field, middle field and opcode of an encoding. */
  function Parts(i: Instruction): (p: (nat, nat, nat))
    requires Encodable(i) && !i.Rfi?
    ensures p.0 < 32 && p.1 < 1024 && p.2 < 1024
  {
    match i
    case Mfspr(rd, s) => (rd, SwapHalves(s), 339)
    case Mtspr(rs, s) => (rs, SwapHalves(s), 467)
    case Mfmsr(rd) => (rd, 0, 83)
    case Mtmsr(rs) => (rs, 0, 146)
    case Mtsr(rs, sr) => (rs, sr * 32, 210)
    case Mfsr(rd, sr) => (rd, sr * 32, 595)
    case Dcbi => (0, 0, 470)
  }

  /** The word an assembler emits; cache-block operands play no part in the handler. */
  function Encode(i: Instruction): (w: Word)
    requires Encodable(i)
  {
    if i.Rfi? then RFI_WORD
    else
      var (reg, middle, xo) := Parts(i);
      Form(reg, middle, xo)
  }

  lemma FormUpper(reg: nat, middle: nat, xo: nat)
    requires reg < 32 && middle < 1024 && xo < 1024
    ensures var w := Form(reg, middle, xo);
            && Primary(w) == 31 && RegField(w) == reg && SegmentField(w) == middle / 32 % 16
  {
    var w := Form(reg, middle, xo);
    DivUnique(w, 0x400_0000, 31, reg * 0x20_0000 + middle * 0x800 + xo * 2);
    DivUnique(w, 0x20_0000, 31 * 32 + reg, middle * 0x800 + xo * 2);
    DivUnique(w, 0x1_0000, (31 * 32 + reg) * 32 + middle / 32, middle % 32 * 0x800 + xo * 2);
  }

  lemma FormLower(reg: nat, middle: nat, xo: nat)
    requires reg < 32 && middle < 1024 && xo < 1024
    ensures var w := Form(reg, middle, xo);
            && w / 0x800 % 1024 == middle && WideOpcode(w) == xo && NarrowOpcode(w) == xo % 512
  {
    var w := Form(reg, middle, xo);
    var high := (31 * 32 + reg) * 1024 + middle;
    DivUnique(w, 0x800, high, xo * 2);
    DivUnique(high, 1024, 31 * 32 + reg, middle);
    DivUnique(w, 0x400, high * 2 + xo / 512, xo % 512 * 2);
  }

  /** What the chain makes of a word in this form, for a given reading of its opcode. */
  function Meaning(reg: nat, middle: nat, x: nat): Instruction
    requires middle < 1024
  {
    match x
    case 339 => Mfspr(reg, SwapHalves(middle))
    case 467 => Mtspr(reg, SwapHalves(middle))
    case 83 => Mfmsr(reg)
    case 146 => Mtmsr(reg)
    case 210 => Mtsr(reg, middle / 32 % 16)
    case 595 => Mfsr(reg, middle / 32 % 16)
    case 470 => Dcbi
    case _ => Unhandled
  }

  lemma DecodeFields(w: Word, x: nat)
    requires Primary(w) == 31
    ensures DecodeWith(w, x) == Meaning(RegField(w), w / 0x800 % 1024, x)
  {
    DivUnique(w / 0x800, 32, w / 0x1_0000, w / 0x800 % 32);
    MiddleSegment(w / 0x800, w);
    assert Primary(RFI_WORD) == 19;
  }

  lemma MiddleSegment(t: nat, w: Word)
    requires t == w / 0x800
    ensures t % 1024 / 32 % 32 == t % 1024 / 32 && t % 1024 % 32 == t % 1024 - t % 1024 / 32 * 32
    ensures t % 1024 / 32 % 16 == SegmentField(w)
  {
    var q, r := t / 1024, t % 1024;
    DivUnique(t, 32, q * 32 + r / 32, r % 32);
    DivUnique(w, 0x1_0000, t / 32, t % 32 * 0x800 + w % 0x800);
    DivUnique(q * 32 + r / 32, 16, q * 2 + r / 32 / 16, r / 32 % 16);
  }

  lemma DecodeForm(reg: nat, middle: nat, xo: nat, x: nat)
    requires reg < 32 && middle < 1024 && xo < 1024
    ensures DecodeWith(Form(reg, middle, xo), x) == Meaning(reg, middle, x)
  {
    FormUpper(reg, middle, xo);
    FormLower(reg, middle, xo);
    DecodeFields(Form(reg, middle, xo), x);
  }

  lemma PartsMeaning(i: Instruction)
    requires Encodable(i) && !i.Rfi?
    ensures var (reg, middle, xo) := Parts(i);
            && Meaning(reg, middle, xo) == i
            && Meaning(reg, middle, xo % 512) == if i.Mfsr? then Mfmsr(i.rd) else i
  {
    if i.Mfspr? || i.Mtspr? {
      SwapTwice(i.spr);
    }
  }

  /** The split field is its own inverse. */
  lemma SwapTwice(s: nat)
    requires s < 1024
    ensures SwapHalves(SwapHalves(s)) == s
  {
    DivUnique(SwapHalves(s), 32, s % 32, s / 32);
  }

  /** With the whole opcode, decoding inverts encoding for every instruction, so no two tests
      of the chain accept the same encoding.  As the handler masks it, the same holds for
      every instruction but mfsr, which it takes for mfmsr of the same register. */
  lemma DecodeInverts(i: Instruction)
    requires Encodable(i)
    ensures DecodeWide(Encode(i)) == i
    ensures Decode(Encode(i)) == if i.Mfsr? then Mfmsr(i.rd) else i
  {
    if !i.Rfi? {
      var (reg, middle, xo) := Parts(i);
      FormLower(reg, middle, xo);
      DecodeForm(reg, middle, xo, xo);
      DecodeForm(reg, middle, xo, xo % 512);
      PartsMeaning(i);
    }
  }

  /** The two masks disagree on a word exactly when the tenth opcode bit is set under
      primary opcode 31 and the other nine spell an opcode the chain knows.  With nine bits no
      word reaches the mfsr branch; with ten, the words of opcode 595 do, and those are the ones
      taken for mfmsr into the same register. */
  lemma MasksAgree(w: Word)
    ensures !Decode(w).Mfsr? && (DecodeWide(w).Mfsr? <==> Primary(w) == 31 && WideOpcode(w) == 595)
    ensures DecodeWide(w).Mfsr? ==> Decode(w) == Mfmsr(RegField(w))
    ensures Decode(w) == DecodeWide(w)
       <==> !(Primary(w) == 31 && w / 0x400 % 2 == 1 && NarrowOpcode(w) in {339, 467, 83, 146, 210, 470})
  {
    WideIsNarrow(w);
  }

  lemma WideIsNarrow(w: Word)
    ensures WideOpcode(w) == NarrowOpcode(w) + 512 * (w / 0x400 % 2) && NarrowOpcode(w) < 512
  {
    var t, b, y := w / 0x400, w / 0x400 % 2, w % 0x400;
    DivUnique(w, 0x800, t / 2, b * 0x400 + y);
    DivUnique(b * 0x400 + y, 2, b * 512 + y / 2, y % 2);
  }

  // ---- The console-type scan

  const SPR_HID4 := 1011

  /** The scan's test on a word of a text section. */
  predicate ScanMatches(w: Word) { And(w, 0xFC1F_FFFF) == 0x7C13_FBA6 }

  /** The mask keeps every bit but the register field. */
  lemma ScanMask(w: Word)
    ensures And(w, 0xFC1F_FFFF) == Primary(w) * 0x400_0000 + w % 0x20_0000
  {
    var h := w / 0x20_0000;
    assert Pow2(21) == 0x20_0000 by { Pow2Values(); }
    AndSplit(21, 0x20_0000, h, w % 0x20_0000, 0x7E0);
    OpcodeMask(h);
    DivUnique(w, 0x400_0000, h / 32, h % 32 * 0x20_0000 + w % 0x20_0000);
  }

  lemma OpcodeMask(h: nat)
    requires h < 2048
    ensures And(h, 0x7E0) == h / 32 * 32
  {
    assert Pow2(5) == 32 && Pow2(6) == 64;
    AndDrop(5, 32, h / 32, h % 32, 0x3F);
    LowOnes(6, 0, h / 32);
  }

  /** The pattern matches a word exactly when the handler takes it for a write to HID4 and
      its record bit and tenth opcode bit are clear. */
  lemma ScanIsHid4Write(w: Word)
    ensures ScanMatches(w)
       <==> Decode(w).Mtspr? && Decode(w).spr == SPR_HID4 && w % 2 == 0 && w / 0x400 % 2 == 0
  {
    ScanMask(w);
    LowFields(w % 0x20_0000);
    LowFieldsOf(w);
    assert SprField(w) == SPR_HID4 <==> w / 0x800 % 1024 == 639;
  }

  lemma LowFields(x: nat)
    requires x < 0x20_0000
    ensures x == 0x13_FBA6 <==> x / 0x800 == 639 && x % 0x400 / 2 == 467 && x % 2 == 0 && x / 0x400 % 2 == 0
  {
  }

  lemma LowFieldsOf(w: Word)
    ensures var x := w % 0x20_0000;
            && w / 0x800 % 1024 == x / 0x800 && NarrowOpcode(w) == x % 0x400 / 2
            && w % 2 == x % 2 && w / 0x400 % 2 == x / 0x400 % 2
  {
    var t, x := w / 0x20_0000, w % 0x20_0000;
    DivUnique(w, 0x800, t * 1024 + x / 0x800, x % 0x800);
    DivUnique(t * 1024 + x / 0x800, 1024, t, x / 0x800);
    DivUnique(w, 0x400, t * 2048 + x / 0x400, x % 0x400);
    DivUnique(w, 2, t * 0x10_0000 + x / 2, x % 2);
    DivUnique(t * 2048 + x / 0x400, 2, t * 1024 + x / 0x400 / 2, x / 0x400 % 2);
  }
}

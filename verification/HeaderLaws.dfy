// The DOL header in plain numbers and text: where each field lies, what it is called, which
// bytes hold its value, and which texts are values.
module HeaderLaws {
  import opened Words
  import opened Dol
  import opened DolPatch

  // ---- Layout and names

  /** The byte offset of every field. */
  lemma Layout(n: nat)
    ensures n < 7 ==> 4 * WordIndex(Text(Offset, n)) == 4 * n
    ensures n < 7 ==> 4 * WordIndex(Text(Address, n)) == 0x48 + 4 * n
    ensures n < 7 ==> 4 * WordIndex(Text(Extent, n)) == 0x90 + 4 * n
    ensures n < 11 ==> 4 * WordIndex(Field.Data(Offset, n)) == 0x1C + 4 * n
    ensures n < 11 ==> 4 * WordIndex(Field.Data(Address, n)) == 0x64 + 4 * n
    ensures n < 11 ==> 4 * WordIndex(Field.Data(Extent, n)) == 0xAC + 4 * n
    ensures 4 * WordIndex(BssAddr) == 0xD8 && 4 * WordIndex(BssSize) == 0xDC && 4 * WordIndex(Entry) == 0xE0
  {
  }

  /** The names of the fields without leading zeros. */
  lemma Spelled(n: nat)
    requires n < 11
    ensures var digits := if n == 10 then "10" else ["0123456789"[n]];
            && Name(0, Text(Offset, n)) == "text" + digits + "_offset"
            && Name(0, Text(Address, n)) == "text" + digits + "_addr"
            && Name(0, Text(Extent, n)) == "text" + digits + "_size"
            && Name(0, Field.Data(Offset, n)) == "data" + digits + "_offset"
            && Name(0, Field.Data(Address, n)) == "data" + digits + "_addr"
            && Name(0, Field.Data(Extent, n)) == "data" + digits + "_size"
    ensures Name(0, BssAddr) == "bss_addr" && Name(0, BssSize) == "bss_size" && Name(0, Entry) == "entry"
  {
    SpelledDigit(if n == 10 then 0 else n);
    if n == 10 {
      assert Decimal(10) == [DigitChar(1)] + [DigitChar(0)];
      assert Numeral(0, 10) == Decimal(10) == "10";
    } else {
      assert Numeral(0, n) == Decimal(n) == ["0123456789"[n]];
    }
  }

  lemma SpelledDigit(d: nat)
    requires d < 10
    ensures DigitChar(d) == "0123456789"[d]
  {
  }

  // ---- Bytes

  /** A word of the header read back byte by byte: the first byte is the most significant. */
  lemma BytesOfHeader(f: File, w: nat)
    requires |f| >= HEADER_BYTES && w < HEADER_WORDS
    ensures var v := Header(f)[w];
            && f[4 * w] == v / 0x100_0000 && f[4 * w + 1] == v / 0x1_0000 % 0x100
            && f[4 * w + 2] == v / 0x100 % 0x100 && f[4 * w + 3] == v % 0x100
  {
    BytesOfFour(f[4 * w], f[4 * w + 1], f[4 * w + 2], f[4 * w + 3]);
  }

  lemma BytesOfFour(a: Byte, b: Byte, c: Byte, d: Byte)
    ensures var v := FourBytes(a, b, c, d);
            a == v / 0x100_0000 && b == v / 0x1_0000 % 0x100 && c == v / 0x100 % 0x100 && d == v % 0x100
  {
    var v := FourBytes(a, b, c, d);
    DivUnique(v, 0x100_0000, a, b * 0x1_0000 + c * 0x100 + d);
    DivUnique(v, 0x1_0000, a * 0x100 + b, c * 0x100 + d);
    DivUnique(v, 0x100, a * 0x1_0000 + b * 0x100 + c, d);
    DivUnique(a * 0x100 + b, 0x100, a, b);
    DivUnique(a * 0x1_0000 + b * 0x100 + c, 0x100, a * 0x100 + b, c);
  }

  /** The four bytes of the file a patch writes. */
  lemma BytesOfPatch(f: File, field: Field, v: Word, i: nat)
    requires |f| >= HEADER_BYTES && field.Exists() && i < |f|
    ensures var at := 4 * WordIndex(field);
            Patched(f, WordIndex(field), v)[i]
            == if i == at then v / 0x100_0000 else if i == at + 1 then v / 0x1_0000 % 0x100
               else if i == at + 2 then v / 0x100 % 0x100 else if i == at + 3 then v % 0x100 else f[i]
  {
    PatchedBytes(f, WordIndex(field), v, i);
  }

  /** The whole header counts 256 bytes; a shorter file is refused. */
  lemma HeaderFits(field: Field)
    requires field.Exists()
    ensures HEADER_BYTES == 256 && 4 * WordIndex(field) + 4 <= 228
  {
  }

  // ---- Value texts

  /** The digits printed. */
  lemma PrintedDigits(d: nat)
    requires d < 16
    ensures HexDigitChar(d, false) == "0123456789abcdef"[d] && HexDigitChar(d, true) == "0123456789ABCDEF"[d]
  {
  }

  /** The case of each digit of a text. */
  function CaseOf(s: string): nat -> bool { (i: nat) => i < |s| && s[i] <= 'F' }

  /** Every run of hexadecimal digits is its number printed in that many digits. */
  lemma {:induction false} DigitsArePrinted(s: string, n: nat)
    requires AllHex(s) && n <= |s|
    ensures HexValue(s[..n]) < Pow16(n) && s[..n] == PrintHex(HexValue(s[..n]), n, CaseOf(s))
  {
    if n != 0 {
      DigitsArePrinted(s, n - 1);
      OneMorePrinted(s, n);
    }
  }

  lemma OneMorePrinted(s: string, n: nat)
    requires AllHex(s) && 0 < n <= |s|
    requires var v := HexValue(s[..n - 1]); v < Pow16(n - 1) && s[..n - 1] == PrintHex(v, n - 1, CaseOf(s))
    ensures HexValue(s[..n]) < Pow16(n) && s[..n] == PrintHex(HexValue(s[..n]), n, CaseOf(s))
  {
    var t, c := s[..n - 1], s[n - 1];
    assert s[..n] == t + [c];
    HexStep(t, c);
    LastDigit(HexValue(t), c);
  }

  lemma LastDigit(v: nat, c: char)
    requires IsHexDigit(c)
    ensures var w := 16 * v + HexDigitValue(c); w / 16 == v && HexDigitChar(w % 16, c <= 'F') == c
  {
    DivUnique(16 * v + HexDigitValue(c), 16, v, HexDigitValue(c));
  }

  /** A 32-bit value printed with n of one to eight digits, with or without 0x. */
  predicate PrintedAs(s: string, v: Word, n: nat, upper: nat -> bool, prefix: string) {
    1 <= n <= 8 && v < Pow16(n) && prefix in {"", "0x", "0X"} && s == prefix + PrintHex(v, n, upper)
  }

  ghost predicate IsPrinted(s: string, v: Word) { exists n, upper, prefix :: PrintedAs(s, v, n, upper, prefix) }

  lemma PrintedIsAccepted(s: string, v: Word)
    requires IsPrinted(s, v)
    ensures IsValueText(s) && ValueOf(s) == v
  {
    var n, upper, prefix :| PrintedAs(s, v, n, upper, prefix);
    PrintedValueAccepted(v, n, upper, prefix);
  }

  function PrefixOf(s: string): string { if HasHexPrefix(s) then s[..2] else "" }

  lemma PrefixAndDigits(s: string)
    ensures s == PrefixOf(s) + HexDigits(s) && PrefixOf(s) in {"", "0x", "0X"}
  {
    assert PrefixOf(s) == "" || PrefixOf(s) == "0x" || PrefixOf(s) == "0X";
  }

  lemma Unprint(s: string)
    requires IsValueText(s)
    ensures IsPrinted(s, ValueOf(s))
  {
    var d := HexDigits(s);
    PrefixAndDigits(s);
    DigitsArePrinted(d, |d|);
    assert d[..|d|] == d;
    assert PrintedAs(s, ValueOf(s), |d|, CaseOf(d), PrefixOf(s));
  }

  /** The texts accepted are exactly the values printed like that, and each stands for one value. */
  lemma AcceptedIsPrinted(s: string, v: Word)
    ensures IsPrinted(s, v) <==> IsValueText(s) && ValueOf(s) == v
  {
    if IsPrinted(s, v) {
      PrintedIsAccepted(s, v);
    }
    if IsValueText(s) {
      Unprint(s);
    }
  }
}

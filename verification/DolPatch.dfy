// Reading a 32-bit hexadecimal value, writing it into a DOL header, and reading the header
// back: one field changes and nothing else does.
module DolPatch {
  import opened Words
  import opened Dol

  // ---- Hexadecimal text

  predicate IsHexDigit(c: char) { '0' <= c <= '9' || 'a' <= c <= 'f' || 'A' <= c <= 'F' }

  predicate AllHex(s: string) { forall i :: 0 <= i < |s| ==> IsHexDigit(s[i]) }

  function HexDigitValue(c: char): (d: nat)
    requires IsHexDigit(c)
    ensures d < 16
  {
    if c <= '9' then (c - '0') as int
    else if c <= 'F' then (c - 'A') as int + 10
    else (c - 'a') as int + 10
  }

  function HexDigitChar(d: nat, upper: bool): (c: char)
    requires d < 16
    ensures IsHexDigit(c) && HexDigitValue(c) == d
  {
    if d < 10 then '0' + d as char
    else if upper then 'A' + (d - 10) as char
    else 'a' + (d - 10) as char
  }

  function HexValue(s: string): nat
    requires AllHex(s)
  {
    if s == [] then 0 else 16 * HexValue(s[..|s| - 1]) + HexDigitValue(s[|s| - 1])
  }

  function Pow16(n: nat): (p: nat)
    ensures p > 0
  {
    if n == 0 then 1 else 16 * Pow16(n - 1)
  }

  lemma Pow16Word()
    ensures Pow16(8) == TWO32
  {
    assert Pow16(4) == 0x1_0000;
  }

  lemma {:induction false} Pow16Grows(m: nat, n: nat)
    requires m <= n
    ensures Pow16(m) <= Pow16(n)
  {
    if m < n {
      Pow16Grows(m, n - 1);
    }
  }

  /** n hexadecimal digits of v, in either case digit by digit. */
  function PrintHex(v: nat, n: nat, upper: nat -> bool): (s: string)
    ensures |s| == n && AllHex(s)
  {
    if n == 0 then [] else PrintHex(v / 16, n - 1, upper) + [HexDigitChar(v % 16, upper(n - 1))]
  }

  lemma HexStep(s: string, c: char)
    requires AllHex(s) && IsHexDigit(c)
    ensures AllHex(s + [c]) && HexValue(s + [c]) == 16 * HexValue(s) + HexDigitValue(c)
  {
    assert (s + [c])[..|s|] == s;
  }

  /** Reading what was printed gives the number back, for any width that holds it and any
      choice of case. */
  lemma {:induction false} PrintThenRead(v: nat, n: nat, upper: nat -> bool)
    requires v < Pow16(n)
    ensures HexValue(PrintHex(v, n, upper)) == v
  {
    if n != 0 {
      PrintThenRead(v / 16, n - 1, upper);
      HexStep(PrintHex(v / 16, n - 1, upper), HexDigitChar(v % 16, upper(n - 1)));
    }
  }

  lemma {:induction false} HexBound(s: string)
    requires AllHex(s)
    ensures HexValue(s) < Pow16(|s|)
  {
    if s != [] {
      HexBound(s[..|s| - 1]);
    }
  }

  predicate HasHexPrefix(s: string) { |s| >= 2 && s[0] == '0' && (s[1] == 'x' || s[1] == 'X') }

  function HexDigits(s: string): string { if HasHexPrefix(s) then s[2..] else s }

  /** One to eight hexadecimal digits, with or without 0x in front. */
  predicate IsValueText(s: string) { 1 <= |HexDigits(s)| <= 8 && AllHex(HexDigits(s)) }

  /** The number a value text stands for; eight digits always fit a word. */
  function ValueOf(s: string): (v: Word)
    requires IsValueText(s)
    ensures v == HexValue(HexDigits(s))
  {
    ValueFits(HexDigits(s));
    HexValue(HexDigits(s))
  }

  lemma ValueFits(d: string)
    requires AllHex(d) && |d| <= 8
    ensures HexValue(d) < TWO32
  {
    HexBound(d);
    Pow16Grows(|d|, 8);
    Pow16Word();
  }

  /** Hexadecimal strtoul over the whole string: the number, and whether it was out of range. */
  method ReadUnsignedLong(digits: string) returns (parsed: nat, overflow: bool)
    requires AllHex(digits)
    ensures parsed == HexValue(digits) && overflow == (parsed >= TWO32)
  {
    parsed := 0;
    for i := 0 to |digits|
      invariant parsed == HexValue(digits[..i])
    {
      assert digits[..i + 1] == digits[..i] + [digits[i]];
      HexStep(digits[..i], digits[i]);
      parsed := 16 * parsed + HexDigitValue(digits[i]);
    }
    assert digits[..|digits|] == digits;
    overflow := parsed >= TWO32;
  }

  /** Accepts exactly one to eight hexadecimal digits, optionally behind 0x, and gives their
      number, which is always a word. */
  method ParseValue(text: string) returns (ok: bool, value: Word)
    ensures ok <==> IsValueText(text)
    ensures ok ==> value == ValueOf(text)
  {
    value := 0;
    var digits := text;
    if |digits| >= 2 && digits[0] == '0' && (digits[1] == 'x' || digits[1] == 'X') {
      digits := digits[2..];
    }
    var length := |digits|;
    if length == 0 || length > 8 {
      return false, 0;
    }
    for i := 0 to length
      invariant forall k :: 0 <= k < i ==> IsHexDigit(digits[k])
    {
      if !(('0' <= digits[i] <= '9') || ('a' <= digits[i] <= 'f') || ('A' <= digits[i] <= 'F')) {
        return false, 0;
      }
    }
    var parsed, overflow := ReadUnsignedLong(digits);
    ValueFits(digits);
    ok, value := true, parsed;
  }

  /** A printed word is accepted and read back, with and without 0x, in any width that holds
      it and in any case. */
  lemma PrintedValueAccepted(v: Word, n: nat, upper: nat -> bool, prefix: string)
    requires 1 <= n <= 8 && v < Pow16(n) && prefix in {"", "0x", "0X"}
    ensures var s := prefix + PrintHex(v, n, upper);
            IsValueText(s) && ValueOf(s) == v
  {
    PrintThenRead(v, n, upper);
    DigitsBehind(PrintHex(v, n, upper), prefix);
  }

  /** What stands behind a prefix, or behind none. */
  lemma DigitsBehind(d: string, prefix: string)
    requires AllHex(d) && prefix in {"", "0x", "0X"}
    ensures HexDigits(prefix + d) == d
  {
    if prefix == "" {
      assert prefix + d == d;
      NoPrefix(d);
    } else {
      assert (prefix + d)[2..] == d;
    }
  }

  /** A string of digits has no x in it. */
  lemma NoPrefix(d: string)
    requires AllHex(d)
    ensures !HasHexPrefix(d)
  {
    assert |d| >= 2 ==> IsHexDigit(d[1]);
  }

  // ---- Words in a file

  type File = seq<Byte>

  /** The big-endian word at a word offset. */
  function WordAt(f: File, w: nat): Word
    requires 4 * w + 4 <= |f|
  {
    FourBytes(f[4 * w], f[4 * w + 1], f[4 * w + 2], f[4 * w + 3])
  }

  /** Four bytes, the most significant first. */
  function FourBytes(a: Byte, b: Byte, c: Byte, d: Byte): Word {
    a * 0x100_0000 + b * 0x1_0000 + c * 0x100 + d
  }

  function BigEndian(v: Word): (b: seq<Byte>)
    ensures |b| == 4
  {
    [v / 0x100_0000, v / 0x1_0000 % 0x100, v / 0x100 % 0x100, v % 0x100]
  }

  lemma BytesOfWord(v: Word)
    ensures var b := BigEndian(v);
            FourBytes(b[0], b[1], b[2], b[3]) == v
  {
    DivUnique(v / 0x100, 0x100, v / 0x1_0000, v / 0x100 % 0x100);
    DivUnique(v / 0x1_0000, 0x100, v / 0x100_0000, v / 0x1_0000 % 0x100);
  }

  /** The file with one word of it replaced. */
  function Patched(f: File, w: nat, v: Word): (g: File)
    requires 4 * w + 4 <= |f|
    ensures |g| == |f|
  {
    f[..4 * w] + BigEndian(v) + f[4 * w + 4..]
  }

  /** The header's words as the program sees them after the byte swap. */
  function Header(f: File): (h: seq<Word>)
    requires |f| >= HEADER_BYTES
    ensures |h| == HEADER_WORDS
  {
    seq(HEADER_WORDS, w requires 0 <= w < HEADER_WORDS => WordAt(f, w))
  }

  lemma PatchedBytes(f: File, w: nat, v: Word, i: nat)
    requires 4 * w + 4 <= |f| && i < |f|
    ensures Patched(f, w, v)[i] == if 4 * w <= i < 4 * w + 4 then BigEndian(v)[i - 4 * w] else f[i]
  {
  }

  /** Patching and then reading the header sets exactly that word; every byte outside it,
      header, padding and sections, is as it was. */
  lemma PatchThenRead(f: File, w: nat, v: Word)
    requires |f| >= HEADER_BYTES && w < HEADER_WORDS
    ensures Header(Patched(f, w, v)) == Header(f)[w := v]
    ensures forall i :: 0 <= i < |f| && !(4 * w <= i < 4 * w + 4) ==> Patched(f, w, v)[i] == f[i]
  {
    var g := Patched(f, w, v);
    forall k | 0 <= k < HEADER_WORDS
      ensures WordAt(g, k) == if k == w then v else WordAt(f, k)
    {
      PatchedBytes(f, w, v, 4 * k);
      PatchedBytes(f, w, v, 4 * k + 1);
      PatchedBytes(f, w, v, 4 * k + 2);
      PatchedBytes(f, w, v, 4 * k + 3);
      BytesOfWord(v);
    }
  }

  // ---- Loading and swapping the header on a host of either byte order

  function LittleEndianAt(f: File, w: nat): Word
    requires 4 * w + 4 <= |f|
  {
    FourBytes(f[4 * w + 3], f[4 * w + 2], f[4 * w + 1], f[4 * w])
  }

  /** A word of the file as the host loads it. */
  function HostLoad(f: File, w: nat, little: bool): Word
    requires 4 * w + 4 <= |f|
  {
    if little then LittleEndianAt(f, w) else WordAt(f, w)
  }

  function SwapBytes(v: Word): Word {
    FourBytes(v % 0x100, v / 0x100 % 0x100, v / 0x1_0000 % 0x100, v / 0x100_0000)
  }

  /** ntohl and htonl. */
  function NetworkOrder(v: Word, little: bool): Word { if little then SwapBytes(v) else v }

  lemma LoadThenSwap(f: File, w: nat, little: bool)
    requires 4 * w + 4 <= |f|
    ensures NetworkOrder(HostLoad(f, w, little), little) == WordAt(f, w)
  {
    if little {
      SwapOfBytes(f[4 * w], f[4 * w + 1], f[4 * w + 2], f[4 * w + 3]);
    }
  }

  lemma SwapOfBytes(a: Byte, b: Byte, c: Byte, d: Byte)
    ensures SwapBytes(FourBytes(d, c, b, a)) == FourBytes(a, b, c, d)
  {
    var v := FourBytes(d, c, b, a);
    DivUnique(v, 0x100, b + c * 0x100 + d * 0x1_0000, a);
    DivUnique(b + c * 0x100 + d * 0x1_0000, 0x100, c + d * 0x100, b);
    DivUnique(v, 0x1_0000, c + d * 0x100, a + b * 0x100);
    DivUnique(c + d * 0x100, 0x100, d, c);
    DivUnique(v, 0x100_0000, d, a + b * 0x100 + c * 0x1_0000);
  }

  method SwapRun(hdr: array<Word>, start: nat, count: nat, little: bool)
    requires start + count <= hdr.Length
    modifies hdr
    ensures forall i :: 0 <= i < hdr.Length ==>
              hdr[i] == if start <= i < start + count then NetworkOrder(old(hdr[i]), little) else old(hdr[i])
  {
    for n := 0 to count
      invariant forall i :: 0 <= i < hdr.Length ==>
        hdr[i] == if start <= i < start + n then NetworkOrder(old(hdr[i]), little) else old(hdr[i])
    {
      hdr[start + n] := NetworkOrder(hdr[start + n], little);
    }
  }

  /** Every word of a loaded header brought into host order, array by array. */
  method ByteswapHeader(hdr: array<Word>, little: bool)
    requires hdr.Length == HEADER_WORDS
    modifies hdr
    ensures forall i :: 0 <= i < HEADER_WORDS ==> hdr[i] == NetworkOrder(old(hdr[i]), little)
  {
    SwapRun(hdr, 0, 7, little);
    SwapRun(hdr, 7, 11, little);
    SwapRun(hdr, 18, 7, little);
    SwapRun(hdr, 25, 11, little);
    SwapRun(hdr, 36, 7, little);
    SwapRun(hdr, 43, 11, little);
    SwapRun(hdr, 54, 1, little);
    SwapRun(hdr, 55, 1, little);
    SwapRun(hdr, 56, 1, little);
  }

  /** Loading and swapping gives the header's words, on a host of either byte order. */
  method ReadHeader(file: array<Byte>, little: bool) returns (hdr: array<Word>)
    requires file.Length >= HEADER_BYTES
    ensures fresh(hdr) && hdr.Length == HEADER_WORDS && hdr[..] == Header(file[..])
  {
    ghost var f := file[..];
    hdr := new Word[HEADER_WORDS](w requires 0 <= w < HEADER_WORDS reads file => HostLoad(file[..], w, little));
    ByteswapHeader(hdr, little);
    forall i | 0 <= i < HEADER_WORDS
      ensures hdr[i] == WordAt(f, i)
    {
      LoadThenSwap(f, i, little);
    }
  }

  // ---- dol-patch

  /** Writes a word, most significant byte first, over four bytes of the file. */
  method StoreWord(file: array<Byte>, w: nat, v: Word)
    requires 4 * w + 4 <= file.Length
    modifies file
    ensures file[..] == Patched(old(file[..]), w, v)
  {
    ghost var before := file[..];
    var diskValue, offset := BigEndian(v), 4 * w;
    for i := 0 to 4
      invariant forall j :: 0 <= j < file.Length ==>
        file[j] == if offset <= j < offset + i then diskValue[j - offset] else before[j]
    {
      file[offset + i] := diskValue[i];
    }
    forall j | 0 <= j < file.Length
      ensures file[j] == Patched(before, w, v)[j]
    {
      PatchedBytes(before, w, v, j);
    }
  }

  /** Patching a field sets that field in the header that is read back and leaves the other
      fifty-six. */
  lemma PatchSetsField(f: File, field: Field, v: Word, other: Field)
    requires |f| >= HEADER_BYTES && field.Exists() && other.Exists()
    ensures Header(Patched(f, WordIndex(field), v))[WordIndex(other)]
         == if other == field then v else Header(f)[WordIndex(other)]
  {
    PatchThenRead(f, WordIndex(field), v);
    FieldAtInverts(field);
    FieldAtInverts(other);
  }

  /** Exactly this field of the file was set to this value. */
  ghost predicate FieldSet(before: File, after: File, f: Field, v: Word) {
    f.Exists() && |before| >= HEADER_BYTES && after == Patched(before, WordIndex(f), v)
  }

  /** What a run of dol-patch does to a file that opens and can be written: 0 if the name, the
      value and the file are acceptable, and then exactly the named field is set; otherwise 1,
      and the file is untouched. */
  method PatchFile(file: array<Byte>, name: string, text: string) returns (status: nat)
    modifies file
    ensures status == 0 <==>
              (exists f: Field :: f.Exists() && IsNameOf(name, f)) && IsValueText(text) && file.Length >= HEADER_BYTES
    ensures status != 0 ==> status == 1 && file[..] == old(file[..])
    ensures status == 0 ==> forall f: Field :: f.Exists() && IsNameOf(name, f) ==>
              FieldSet(old(file[..]), file[..], f, ValueOf(text))
  {
    var found, offset := FieldOffset(name);
    if !found {
      return 1;
    }
    var ok, value := ParseValue(text);
    if !ok {
      return 1;
    }
    if file.Length < HEADER_BYTES {
      return 1;
    }
    ghost var before := file[..];
    StoreWord(file, offset / 4, value);
    ghost var after := file[..];
    forall f: Field | f.Exists() && IsNameOf(name, f)
      ensures FieldSet(before, after, f, value)
    {
      assert offset / 4 == WordIndex(f);
    }
    status := 0;
  }
}

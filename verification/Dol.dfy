// The DOL header: 57 big-endian words in a packed layout, the names dol-patch gives them,
// and the text a user types for a name and a value.
module Dol {
  import opened Words

  type Byte = x: int | 0 <= x < 256

  const HEADER_WORDS := 57
  const HEADER_BYTES := 0x100

  // ---- Layout

  datatype Quantity = Offset | Address | Extent

  datatype Field =
    | Text(q: Quantity, n: nat)
    | Data(q: Quantity, n: nat)
    | BssAddr | BssSize | Entry
  {
    predicate Exists() { (Text? ==> n < 7) && (Data? ==> n < 11) }
  }

  function Row(q: Quantity): nat {
    match q
    case Offset => 0
    case Address => 18
    case Extent => 36
  }

  /** A field's place among the header's words. */
  function WordIndex(f: Field): (w: nat)
    requires f.Exists()
    ensures w < HEADER_WORDS
  {
    match f
    case Text(q, n) => Row(q) + n
    case Data(q, n) => Row(q) + 7 + n
    case BssAddr => 54
    case BssSize => 55
    case Entry => 56
  }

  function QuantityAt(w: nat): Quantity {
    if w < 18 then Offset else if w < 36 then Address else Extent
  }

  function FieldAt(w: nat): (f: Field)
    requires w < HEADER_WORDS
    ensures f.Exists() && WordIndex(f) == w
  {
    if w == 54 then BssAddr
    else if w == 55 then BssSize
    else if w == 56 then Entry
    else if w % 18 < 7 then Text(QuantityAt(w), w % 18)
    else Data(QuantityAt(w), w % 18 - 7)
  }

  /** Fields and words are in bijection. */
  lemma FieldAtInverts(f: Field)
    requires f.Exists()
    ensures FieldAt(WordIndex(f)) == f
  {
  }

  // ---- Numerals

  predicate IsDigit(c: char) { '0' <= c <= '9' }

  function DigitChar(d: nat): (c: char)
    requires d < 10
    ensures IsDigit(c)
  {
    '0' + d as char
  }

  function DigitValue(c: char): (d: nat)
    requires IsDigit(c)
    ensures d < 10 && DigitChar(d) == c
  {
    (c - '0') as int
  }

  predicate AllDigits(s: string) { forall i :: 0 <= i < |s| ==> IsDigit(s[i]) }

  function DecimalValue(s: string): nat
    requires AllDigits(s)
  {
    if s == [] then 0 else 10 * DecimalValue(s[..|s| - 1]) + DigitValue(s[|s| - 1])
  }

  function Decimal(n: nat): (s: string)
    ensures s != [] && AllDigits(s)
  {
    if n < 10 then [DigitChar(n)] else Decimal(n / 10) + [DigitChar(n % 10)]
  }

  function Zeros(z: nat): (s: string)
    ensures |s| == z && AllDigits(s)
  {
    seq(z, i => '0')
  }

  /** A numeral with leading zeros. */
  function Numeral(z: nat, n: nat): (s: string)
    ensures s != [] && AllDigits(s)
  {
    Zeros(z) + Decimal(n)
  }

  lemma DecimalStep(s: string, c: char)
    requires AllDigits(s) && IsDigit(c)
    ensures AllDigits(s + [c]) && DecimalValue(s + [c]) == 10 * DecimalValue(s) + DigitValue(c)
  {
    assert (s + [c])[..|s|] == s;
  }

  lemma {:induction false} ZerosValue(z: nat)
    ensures DecimalValue(Zeros(z)) == 0
  {
    if z != 0 {
      ZerosValue(z - 1);
      assert Zeros(z) == Zeros(z - 1) + ['0'];
      DecimalStep(Zeros(z - 1), '0');
    }
  }

  /** Reading a numeral gives its number, whatever zeros lead it. */
  lemma {:induction false} NumeralValue(z: nat, n: nat)
    ensures DecimalValue(Numeral(z, n)) == n
  {
    if n < 10 {
      ZerosValue(z);
      DecimalStep(Zeros(z), DigitChar(n));
    } else {
      NumeralValue(z, n / 10);
      assert Numeral(z, n) == Numeral(z, n / 10) + [DigitChar(n % 10)];
      DecimalStep(Numeral(z, n / 10), DigitChar(n % 10));
    }
  }

  lemma DecimalExtend(n: nat, d: nat)
    requires n != 0 && d < 10
    ensures Decimal(n) + [DigitChar(d)] == Decimal(10 * n + d)
  {
    DivUnique(10 * n + d, 10, n, d);
  }

  /** One more digit behind a numeral. */
  lemma NumeralExtend(z: nat, n: nat, d: nat)
    requires d < 10
    ensures Numeral(z, n) + [DigitChar(d)] == if n == 0 then Numeral(z + 1, d) else Numeral(z, 10 * n + d)
  {
    if n == 0 {
      assert Zeros(z + 1) == Zeros(z) + ['0'];
    } else {
      DecimalExtend(n, d);
      assert Numeral(z, n) + [DigitChar(d)] == Zeros(z) + (Decimal(n) + [DigitChar(d)]);
    }
  }

  /** Every non-empty run of digits is the numeral of its value behind some zeros. */
  lemma {:induction false} DigitsAreNumeral(s: string) returns (z: nat)
    requires s != [] && AllDigits(s)
    ensures s == Numeral(z, DecimalValue(s))
  {
    var t, d := s[..|s| - 1], DigitValue(s[|s| - 1]);
    assert s == t + [DigitChar(d)];
    if t == [] {
      z := 0;
    } else {
      var y := DigitsAreNumeral(t);
      NumeralExtend(y, DecimalValue(t), d);
      z := if DecimalValue(t) == 0 then y + 1 else y;
    }
  }

  // ---- Names

  function Suffix(q: Quantity): string {
    match q
    case Offset => "_offset"
    case Address => "_addr"
    case Extent => "_size"
  }

  /** A name of a field, with z zeros in front of the index where there is one. */
  function Name(z: nat, f: Field): string {
    match f
    case Text(q, n) => "text" + Numeral(z, n) + Suffix(q)
    case Data(q, n) => "data" + Numeral(z, n) + Suffix(q)
    case BssAddr => "bss_addr"
    case BssSize => "bss_size"
    case Entry => "entry"
  }

  ghost predicate IsNameOf(s: string, f: Field) {
    exists z :: s == Name(z, f)
  }

  /** Where the digits of an indexed name stop: right before the suffix. */
  lemma DigitsStop(s: string, prefix: string, d: string, q: Quantity, e: nat)
    requires s == prefix + d + Suffix(q) && AllDigits(d)
    requires |prefix| <= e <= |s| && AllDigits(s[|prefix|..e]) && (e == |s| || !IsDigit(s[e]))
    ensures e == |prefix| + |d| && s[|prefix|..e] == d && s[e..] == Suffix(q)
  {
    var p := |prefix|;
    assert s[p + |d|] == '_';
    assert forall i :: p <= i < p + |d| ==> s[i] == d[i - p];
    assert forall i :: p <= i < e ==> s[i] == s[p..e][i - p];
  }

  lemma SuffixDiffers(q: Quantity, r: Quantity)
    requires Suffix(q) == Suffix(r)
    ensures q == r
  {
    assert Suffix(q)[1] == Suffix(r)[1];
  }

  /** A string names at most one field. */
  lemma NameUnique(s: string, f: Field, g: Field)
    requires IsNameOf(s, f) && IsNameOf(s, g)
    ensures f == g
  {
    var z :| s == Name(z, f);
    var y :| s == Name(y, g);
    Initials(z, f);
    Initials(y, g);
    if f.Text? || f.Data? {
      var e := 4 + |Numeral(z, f.n)|;
      assert s[4..e] == Numeral(z, f.n) && s[e] == '_';
      DigitsStop(s, s[..4], Numeral(y, g.n), g.q, e);
      NumeralValue(z, f.n);
      NumeralValue(y, g.n);
      assert s[e..] == Suffix(f.q);
      SuffixDiffers(f.q, g.q);
    }
  }

  lemma Initials(z: nat, f: Field)
    ensures match f
            case Text(q, n) => |Name(z, f)| > 4 && Name(z, f)[..4] == "text" && Name(z, f)[0] == 't'
                               && Name(z, f) == Name(z, f)[..4] + Numeral(z, n) + Suffix(q)
            case Data(q, n) => |Name(z, f)| > 4 && Name(z, f)[..4] == "data" && Name(z, f)[0] == 'd'
                               && Name(z, f) == Name(z, f)[..4] + Numeral(z, n) + Suffix(q)
            case BssAddr => Name(z, f)[0] == 'b' && Name(z, f)[4] == 'a'
            case BssSize => Name(z, f)[0] == 'b' && Name(z, f)[4] == 's'
            case Entry => Name(z, f)[0] == 'e'
  {
  }

  // ---- Reading names

  const LONG_MAX := 0x7FFF_FFFF

  /** Decimal strtol at a digit: the number, where it ends, and whether it was out of range. */
  method ReadLong(s: string, p: nat) returns (value: nat, end: nat, overflow: bool)
    requires p < |s| && IsDigit(s[p])
    ensures p < end <= |s| && AllDigits(s[p..end]) && (end == |s| || !IsDigit(s[end]))
    ensures value == DecimalValue(s[p..end]) && overflow == (value > LONG_MAX)
  {
    value, end := 0, p;
    while end < |s| && IsDigit(s[end])
      invariant p <= end <= |s| && AllDigits(s[p..end]) && value == DecimalValue(s[p..end])
    {
      assert s[p..end + 1] == s[p..end] + [s[end]];
      DecimalStep(s[p..end], s[end]);
      value, end := 10 * value + DigitValue(s[end]), end + 1;
    }
    overflow := value > LONG_MAX;
  }

  /** A name with this prefix, this kind of suffix and an index below the count. */
  ghost predicate IsIndexed(s: string, prefix: string, count: nat, q: Quantity, n: nat) {
    n < count && exists z :: s == prefix + Numeral(z, n) + Suffix(q)
  }

  /** 1 and an offset for a name with this prefix, -1 for a string that merely starts with it,
      0 for anything else. */
  method ParseIndexedField(field: string, prefix: string, count: nat, addrBase: nat, sizeBase: nat, offsetBase: nat)
    returns (ret: int, offset: nat)
    requires count <= LONG_MAX
    ensures ret == -1 || ret == 0 || ret == 1
    ensures ret == 0 <==> !(prefix <= field)
    ensures ret == 1 <==> exists q, n :: IsIndexed(field, prefix, count, q, n)
    ensures forall q, n :: IsIndexed(field, prefix, count, q, n) ==>
              offset == 4 * n + (match q case Offset => offsetBase case Address => addrBase case Extent => sizeBase)
  {
    offset := 0;
    IndexedStarts(field, prefix, count);
    if !(prefix <= field) {
      return 0, 0;
    }
    var p := |prefix|;
    if p == |field| || !IsDigit(field[p]) {
      return -1, 0;
    }
    var index, end, overflow := ReadLong(field, p);
    IndexedOnly(field, prefix, count, index, end);
    if overflow || index >= count {
      return -1, 0;
    }
    if field[end..] == "_addr" {
      IsIndexedAs(field, prefix, count, Address, index, end);
      return 1, addrBase + index * 4;
    } else if field[end..] == "_size" {
      IsIndexedAs(field, prefix, count, Extent, index, end);
      return 1, sizeBase + index * 4;
    } else if field[end..] == "_offset" {
      IsIndexedAs(field, prefix, count, Offset, index, end);
      return 1, offsetBase + index * 4;
    } else {
      return -1, 0;
    }
  }

  lemma IndexedShape(s: string, prefix: string, count: nat, q: Quantity, n: nat)
    requires IsIndexed(s, prefix, count, q, n)
    ensures prefix <= s && |prefix| < |s| && IsDigit(s[|prefix|])
  {
    var z :| s == prefix + Numeral(z, n) + Suffix(q);
    assert s == prefix + (Numeral(z, n) + Suffix(q));
    assert s[|prefix|] == Numeral(z, n)[0];
  }

  /** An indexed name starts with the prefix and goes on with a digit. */
  lemma IndexedStarts(s: string, prefix: string, count: nat)
    ensures forall q, n :: IsIndexed(s, prefix, count, q, n) ==>
              prefix <= s && |prefix| < |s| && IsDigit(s[|prefix|])
  {
    forall q, n | IsIndexed(s, prefix, count, q, n)
      ensures prefix <= s && |prefix| < |s| && IsDigit(s[|prefix|])
    {
      IndexedShape(s, prefix, count, q, n);
    }
  }

  /** The digits that were read are the only index the name can have. */
  lemma IndexedOnly(s: string, prefix: string, count: nat, index: nat, e: nat)
    requires prefix <= s && |prefix| < e <= |s| && AllDigits(s[|prefix|..e]) && (e == |s| || !IsDigit(s[e]))
    requires index == DecimalValue(s[|prefix|..e])
    ensures forall q, n :: IsIndexed(s, prefix, count, q, n) ==> n == index && s[e..] == Suffix(q)
  {
    forall q, n | IsIndexed(s, prefix, count, q, n)
      ensures n == index && s[e..] == Suffix(q)
    {
      var z :| s == prefix + Numeral(z, n) + Suffix(q);
      DigitsStop(s, prefix, Numeral(z, n), q, e);
      NumeralValue(z, n);
    }
  }

  lemma IsIndexedAs(s: string, prefix: string, count: nat, q: Quantity, n: nat, e: nat)
    requires prefix <= s && |prefix| < e <= |s| && AllDigits(s[|prefix|..e]) && n < count
    requires n == DecimalValue(s[|prefix|..e]) && s[e..] == Suffix(q)
    ensures IsIndexed(s, prefix, count, q, n)
    ensures forall r :: Suffix(r) == Suffix(q) ==> r == q
  {
    var z := DigitsAreNumeral(s[|prefix|..e]);
    assert s == s[..|prefix|] + s[|prefix|..e] + s[e..];
    forall r | Suffix(r) == Suffix(q)
      ensures r == q
    {
      SuffixDiffers(q, r);
    }
  }

  /** The header offset of the field a string names.  The accepted strings are exactly the
      names of the 57 fields, any zeros leading an index, and the offset is the field's. */
  method FieldOffset(field: string) returns (found: bool, offset: nat)
    ensures found <==> exists f: Field :: f.Exists() && IsNameOf(field, f)
    ensures forall f: Field :: f.Exists() && IsNameOf(field, f) ==> found && offset == 4 * WordIndex(f)
  {
    var ret;
    ret, offset := ParseIndexedField(field, "text", 7, 72, 144, 0);
    if ret != 0 {
      found := ret > 0;
      TextNames(field);
      return;
    }
    NotTextNames(field);
    ret, offset := ParseIndexedField(field, "data", 11, 100, 172, 28);
    if ret != 0 {
      found := ret > 0;
      DataNames(field);
      return;
    }
    NotDataNames(field);
    PlainNames(field);
    found := true;
    if field == "bss_addr" {
      offset := 216;
    } else if field == "bss_size" {
      offset := 220;
    } else if field == "entry" {
      offset := 224;
    } else {
      found := false;
    }
  }

  lemma TextNames(s: string)
    requires "text" <= s
    ensures forall f: Field :: f.Exists() && IsNameOf(s, f) ==> f.Text? && IsIndexed(s, "text", 7, f.q, f.n)
    ensures forall q, n :: IsIndexed(s, "text", 7, q, n) ==> IsNameOf(s, Text(q, n))
  {
    forall f: Field | f.Exists() && IsNameOf(s, f)
      ensures f.Text? && IsIndexed(s, "text", 7, f.q, f.n)
    {
      var z :| s == Name(z, f);
      Initials(z, f);
    }
    forall q, n | IsIndexed(s, "text", 7, q, n)
      ensures IsNameOf(s, Text(q, n))
    {
      var z :| s == "text" + Numeral(z, n) + Suffix(q);
      assert s == Name(z, Text(q, n));
    }
  }

  lemma NotTextNames(s: string)
    requires !("text" <= s)
    ensures forall f: Field :: IsNameOf(s, f) ==> !f.Text?
  {
    forall f: Field | IsNameOf(s, f)
      ensures !f.Text?
    {
      var z :| s == Name(z, f);
      Initials(z, f);
    }
  }

  lemma DataNames(s: string)
    requires "data" <= s
    ensures forall f: Field :: f.Exists() && IsNameOf(s, f) ==> f.Data? && IsIndexed(s, "data", 11, f.q, f.n)
    ensures forall q, n :: IsIndexed(s, "data", 11, q, n) ==> IsNameOf(s, Data(q, n))
  {
    forall f: Field | f.Exists() && IsNameOf(s, f)
      ensures f.Data? && IsIndexed(s, "data", 11, f.q, f.n)
    {
      var z :| s == Name(z, f);
      Initials(z, f);
    }
    forall q, n | IsIndexed(s, "data", 11, q, n)
      ensures IsNameOf(s, Data(q, n))
    {
      var z :| s == "data" + Numeral(z, n) + Suffix(q);
      assert s == Name(z, Data(q, n));
    }
  }

  lemma NotDataNames(s: string)
    requires !("data" <= s)
    ensures forall f: Field :: IsNameOf(s, f) ==> !f.Data?
  {
    forall f: Field | IsNameOf(s, f)
      ensures !f.Data?
    {
      var z :| s == Name(z, f);
      Initials(z, f);
    }
  }

  lemma PlainNames(s: string)
    ensures IsNameOf(s, BssAddr) <==> s == "bss_addr"
    ensures IsNameOf(s, BssSize) <==> s == "bss_size"
    ensures IsNameOf(s, Entry) <==> s == "entry"
  {
    assert s == "bss_addr" ==> s == Name(0, BssAddr);
    assert s == "bss_size" ==> s == Name(0, BssSize);
    assert s == "entry" ==> s == Name(0, Entry);
  }
}

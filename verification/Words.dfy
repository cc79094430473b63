// 32-bit words as numbers: wrapping sums, and the bitwise "and not" that the mask
// arithmetic on addresses needs, with the one fact about it that turns a mask of low
// ones into a division.
module Words {

  const TWO32: int := 0x1_0000_0000

  type Word = x: int | 0 <= x < TWO32

  function Add(a: Word, b: Word): Word {
    if a + b < TWO32 then a + b else a + b - TWO32
  }

  function Sub(a: Word, b: Word): Word {
    if b <= a then a - b else a - b + TWO32
  }

  /** a & ~m, bit by bit. */
  function AndNot(a: nat, m: nat): (r: nat)
    ensures r <= a
  {
    if m == 0 then a
    else 2 * AndNot(a / 2, m / 2) + (if m % 2 == 1 then 0 else a % 2)
  }

  /** a & m, bit by bit. */
  function And(a: nat, m: nat): (r: nat)
    ensures r <= a
  {
    if m == 0 then 0
    else 2 * And(a / 2, m / 2) + (if m % 2 == 1 then a % 2 else 0)
  }

  /** a | m, bit by bit. */
  function Or(a: nat, m: nat): nat
    decreases m
  {
    if m == 0 then a
    else 2 * Or(a / 2, m / 2) + (if m % 2 == 1 then 1 else a % 2)
  }

  function Pow2(k: nat): (p: nat)
    ensures p > 0
  {
    if k == 0 then 1 else 2 * Pow2(k - 1)
  }

  lemma {:induction false} Pow2Splits(a: nat, b: nat)
    ensures Pow2(a + b) == Pow2(b) * Pow2(a)
  {
    if b != 0 {
      Pow2Splits(a, b - 1);
    }
  }

  /** The powers a block length can be, and the size of the address space. */
  lemma Pow2Values()
    ensures Pow2(17) == 0x2_0000 && Pow2(18) == 0x4_0000 && Pow2(19) == 0x8_0000
    ensures Pow2(20) == 0x10_0000 && Pow2(21) == 0x20_0000 && Pow2(22) == 0x40_0000
    ensures Pow2(23) == 0x80_0000 && Pow2(24) == 0x100_0000 && Pow2(25) == 0x200_0000
    ensures Pow2(26) == 0x400_0000 && Pow2(27) == 0x800_0000 && Pow2(28) == 0x1000_0000
    ensures Pow2(32) == TWO32
  {
    assert Pow2(8) == 0x100;
    Pow2Splits(8, 8);
    assert Pow2(20) == 2 * Pow2(19) && Pow2(19) == 2 * Pow2(18) && Pow2(18) == 2 * Pow2(17);
    assert Pow2(24) == 2 * Pow2(23) && Pow2(23) == 2 * Pow2(22) && Pow2(22) == 2 * Pow2(21);
    assert Pow2(28) == 2 * Pow2(27) && Pow2(27) == 2 * Pow2(26) && Pow2(26) == 2 * Pow2(25);
    Pow2Splits(16, 16);
  }

  lemma Quotient(x: nat, s: nat)
    requires s > 0
    ensures x == x / s * s + x % s && x % s < s
  {
  }

  lemma Multiple(d: nat, e: nat, s: nat)
    requires d < e
    ensures d * s + s <= e * s
  {
    assert e * s == d * s + (e - d) * s;
    assert (e - d) * s == s + (e - d - 1) * s;
  }

  lemma SameBlock(q: nat, r: nat, t: nat, s: nat)
    requires r < s && q * s <= t * s + r < q * s + s
    ensures q == t
  {
    if q < t {
      Multiple(q, t, s);
    } else if t < q {
      Multiple(t, q, s);
    }
  }

  /** Quotient and remainder are the only ones that fit. */
  lemma DivUnique(x: nat, d: nat, q: nat, r: nat)
    requires d > 0 && r < d && x == q * d + r
    ensures x / d == q && x % d == r
  {
    Quotient(x, d);
    SameBlock(q, x % d, x / d, d);
  }

  lemma AndStep(x: nat, y: nat, b: nat)
    requires b < 2
    ensures And(2 * x + b, 2 * y + 1) == 2 * And(x, y) + b
  {
    DivUnique(2 * x + b, 2, x, b);
    DivUnique(2 * y + 1, 2, y, 1);
  }

  lemma AndNotStep(x: nat, y: nat, b: nat)
    requires b < 2
    ensures AndNot(2 * x + b, 2 * y + 1) == 2 * AndNot(x, y)
  {
    DivUnique(2 * x + b, 2, x, b);
    DivUnique(2 * y + 1, 2, y, 1);
  }

  lemma OrStep(x: nat, y: nat, b: nat)
    requires b < 2
    ensures Or(2 * x, 2 * y + b) == 2 * Or(x, y) + b
  {
    DivUnique(2 * x, 2, x, 0);
    DivUnique(2 * y + b, 2, y, b);
  }

  lemma AndEvenStep(x: nat, y: nat, b: nat)
    requires b < 2
    ensures And(2 * x + b, 2 * y) == 2 * And(x, y)
  {
    DivUnique(2 * x + b, 2, x, b);
    DivUnique(2 * y, 2, y, 0);
  }

  /** A mask of k low ones splits a number at bit k: clearing it leaves the high part and
      keeping it leaves the low part. */
  lemma LowOnes(k: nat, q: nat, r: nat)
    requires r < Pow2(k)
    ensures 0 <= q * Pow2(k)
    ensures AndNot(q * Pow2(k) + r, Pow2(k) - 1) == q * Pow2(k)
    ensures And(q * Pow2(k) + r, Pow2(k) - 1) == r
  {
    ClearLow(k, Pow2(k), q, r);
    KeepLow(k, Pow2(k), q, r);
  }

  lemma {:induction false} ClearLow(k: nat, p: nat, q: nat, r: nat)
    requires p == Pow2(k) && r < p
    ensures 0 <= q * p && AndNot(q * p + r, p - 1) == q * p
  {
    if k != 0 {
      var h := Pow2(k - 1);
      ClearLow(k - 1, h, q, r / 2);
      Doubled(q, p, h, r);
      AndNotStep(q * h + r / 2, h - 1, r % 2);
    }
  }

  lemma {:induction false} KeepLow(k: nat, p: nat, q: nat, r: nat)
    requires p == Pow2(k) && r < p
    ensures 0 <= q * p && And(q * p + r, p - 1) == r
  {
    if k != 0 {
      var h := Pow2(k - 1);
      KeepLow(k - 1, h, q, r / 2);
      Doubled(q, p, h, r);
      AndStep(q * h + r / 2, h - 1, r % 2);
    }
  }

  lemma Doubled(q: nat, p: nat, h: nat, r: nat)
    requires p == 2 * h
    ensures 0 <= q * h && q * p == 2 * (q * h)
    ensures q * p + r == 2 * (q * h + r / 2) + r % 2
  {
    assert q * (2 * h) == 2 * (q * h);
  }

  /** Or-ing a number below bit k onto a multiple of Pow2(k) is adding it. */
  lemma {:induction false} OrBelow(k: nat, q: nat, r: nat)
    requires r < Pow2(k)
    ensures 0 <= q * Pow2(k)
    ensures Or(q * Pow2(k), r) == q * Pow2(k) + r
  {
    if k != 0 {
      var p := Pow2(k - 1);
      OrBelow(k - 1, q, r / 2);
      Doubled(q, Pow2(k), p, 0);
      OrStep(q * p, r / 2, r % 2);
    }
  }

  /** And with a mask whose k low bits are ones keeps the low part whole. */
  lemma {:induction false} AndSplit(k: nat, p: nat, q: nat, r: nat, m: nat)
    requires p == Pow2(k) && r < p
    ensures 0 <= q * p && 0 <= m * p
    ensures And(q * p + r, m * p + (p - 1)) == And(q, m) * p + r
  {
    if k != 0 {
      var h := Pow2(k - 1);
      AndSplit(k - 1, h, q, r / 2, m);
      Doubled(q, p, h, r);
      Doubled(m, p, h, 0);
      Doubled(And(q, m), p, h, r);
      assert q * p + r == 2 * (q * h + r / 2) + r % 2 && m * p + (p - 1) == 2 * (m * h + (h - 1)) + 1;
      AndStep(q * h + r / 2, m * h + (h - 1), r % 2);
    }
  }

  /** And with a mask whose k low bits are zero drops the low part. */
  lemma {:induction false} AndDrop(k: nat, p: nat, q: nat, r: nat, m: nat)
    requires p == Pow2(k) && r < p
    ensures 0 <= q * p && 0 <= m * p
    ensures And(q * p + r, m * p) == And(q, m) * p
  {
    if k != 0 {
      var h := Pow2(k - 1);
      AndDrop(k - 1, h, q, r / 2, m);
      Doubled(q, p, h, r);
      Doubled(m, p, h, 0);
      Doubled(And(q, m), p, h, 0);
      AndEvenStep(q * h + r / 2, m * h, r % 2);
    }
  }

  // ---- Single bits

  predicate Bit(x: nat, k: nat)
  {
    if k == 0 then x % 2 == 1 else Bit(x / 2, k - 1)
  }

  lemma {:induction false} BitAnd(a: nat, m: nat, k: nat)
    ensures Bit(And(a, m), k) <==> Bit(a, k) && Bit(m, k)
  {
    if m == 0 {
      BitZero(k);
    } else if k != 0 {
      BitAnd(a / 2, m / 2, k - 1);
    }
  }

  lemma {:induction false} BitAndNot(a: nat, m: nat, k: nat)
    ensures Bit(AndNot(a, m), k) <==> Bit(a, k) && !Bit(m, k)
  {
    if m == 0 {
      BitZero(k);
    } else if k != 0 {
      BitAndNot(a / 2, m / 2, k - 1);
    }
  }

  lemma {:induction false} BitOr(a: nat, m: nat, k: nat)
    ensures Bit(Or(a, m), k) <==> Bit(a, k) || Bit(m, k)
  {
    if m == 0 {
      BitZero(k);
    } else if k != 0 {
      BitOr(a / 2, m / 2, k - 1);
    }
  }

  lemma {:induction false} BitZero(k: nat)
    ensures !Bit(0, k)
  {
    if k != 0 {
      BitZero(k - 1);
    }
  }

  lemma BitByte(x: nat, k: nat)
    ensures Bit(x, k + 8) == Bit(x / 256, k)
  {
    assert Bit(x, k + 8) == Bit(x / 2, k + 7) == Bit(x / 4, k + 6) == Bit(x / 8, k + 5);
    assert Bit(x / 8, k + 5) == Bit(x / 16, k + 4) == Bit(x / 32, k + 3) == Bit(x / 64, k + 2);
    assert Bit(x / 64, k + 2) == Bit(x / 128, k + 1) == Bit(x / 256, k);
  }

  lemma {:induction false} OrBound(a: nat, m: nat, k: nat)
    requires a < Pow2(k) && m < Pow2(k)
    ensures Or(a, m) < Pow2(k)
  {
    if m != 0 {
      OrBound(a / 2, m / 2, k - 1);
    }
  }

  /** a | m on words. */
  function OrWord(a: Word, m: Word): (r: Word)
    ensures r == Or(a, m)
  {
    Pow2Values();
    OrBound(a, m, 32);
    Or(a, m)
  }

  // ---- Bits of fields

  /** Dividing by a power of two shifts the bits down. */
  lemma {:induction false} BitShift(x: nat, j: nat, k: nat)
    ensures 0 <= x / Pow2(j)
    ensures Bit(x / Pow2(j), k) == Bit(x, k + j)
  {
    if j != 0 {
      HalfThenDivide(x, Pow2(j - 1));
      BitShift(x / 2, j - 1, k);
    }
  }

  lemma HalfThenDivide(x: nat, h: nat)
    requires h > 0
    ensures x / (2 * h) == x / 2 / h && x % (2 * h) == 2 * (x / 2 % h) + x % 2
  {
    var y := x / 2;
    Quotient(y, h);
    Doubled(y / h, 2 * h, h, 2 * (y % h) + x % 2);
    assert x == 2 * y + x % 2;
    DivUnique(x, 2 * h, y / h, 2 * (y % h) + x % 2);
  }

  /** The remainder keeps the low bits. */
  lemma {:induction false} BitLow(x: nat, j: nat, k: nat)
    ensures Bit(x % Pow2(j), k) <==> k < j && Bit(x, k)
  {
    if j == 0 {
      BitZero(k);
    } else {
      HalfThenDivide(x, Pow2(j - 1));
      if k != 0 {
        BitLow(x / 2, j - 1, k - 1);
      }
    }
  }

  /** Multiplying by a power of two shifts them up. */
  lemma {:induction false} BitMul(x: nat, j: nat, k: nat)
    ensures 0 <= x * Pow2(j)
    ensures Bit(x * Pow2(j), k) <==> k >= j && Bit(x, k - j)
  {
    if j != 0 {
      Doubled(x, Pow2(j), Pow2(j - 1), 0);
      if k != 0 {
        BitMul(x, j - 1, k - 1);
      }
    }
  }

  /** A word has no bits beyond the thirty-second. */
  lemma NoHighBits(x: Word, k: nat)
    requires k >= 32
    ensures !Bit(x, k)
  {
    Pow2Values();
    BitShift(x, 32, k - 32);
    BitZero(k - 32);
  }

  /** A bit of a byte by division. */
  predicate OctetBit(x: nat, k: nat) {
    (match k
     case 0 => x
     case 1 => x / 2
     case 2 => x / 4
     case 3 => x / 8
     case 4 => x / 16
     case 5 => x / 32
     case 6 => x / 64
     case _ => x / 128) % 2 == 1
  }

  lemma BitInByte(x: nat, k: nat)
    requires x < 256 && k < 8
    ensures Bit(x, k) <==> OctetBit(x, k)
  {
    BitShift(x, k, 0);
    assert Pow2(1) == 2 && Pow2(2) == 4 && Pow2(3) == 8 && Pow2(4) == 16;
    assert Pow2(5) == 32 && Pow2(6) == 64 && Pow2(7) == 128;
  }

  /** All bits of a word, byte by byte and by division. */
  lemma BitOfWord(x: Word, k: nat)
    ensures Bit(x, k) <==> if k < 8 then OctetBit(x % 256, k)
                           else if k < 16 then OctetBit(x / 0x100 % 256, k - 8)
                           else if k < 24 then OctetBit(x / 0x1_0000 % 256, k - 16)
                           else k < 32 && OctetBit(x / 0x100_0000, k - 24)
  {
    if k >= 32 {
      NoHighBits(x, k);
    } else if k >= 24 {
      ByteDown(x, k - 24, 24, 0x100_0000);
    } else if k >= 16 {
      ByteDown(x, k - 16, 16, 0x1_0000);
    } else if k >= 8 {
      ByteDown(x, k - 8, 8, 0x100);
    } else {
      ByteDown(x, k, 0, 1);
    }
  }

  lemma ByteDown(x: Word, k: nat, j: nat, p: nat)
    requires k < 8 && (j, p) in {(0, 1), (8, 0x100), (16, 0x1_0000), (24, 0x100_0000)}
    ensures Bit(x, k + j) <==> OctetBit(x / p % 256, k)
  {
    assert Pow2(8) == 0x100;
    assert p == Pow2(j) by {
      Pow2Values();
      Pow2Splits(8, 8);
    }
    BitShift(x, j, k);
    BitLow(x / p, 8, k);
    BitInByte(x / p % 256, k);
  }

  lemma {:induction false} SomeBit(x: nat) returns (k: nat)
    requires x != 0
    ensures Bit(x, k)
  {
    if x % 2 == 1 {
      k := 0;
    } else {
      var j := SomeBit(x / 2);
      k := j + 1;
    }
  }
}

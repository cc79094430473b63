// What the BAT registers mean, bit by bit, and when an address translates: the two searches
// against the architecture's own form, with the valid bits, the masked compare and the
// mask-and-or spelled out (PowerPC Programming Environments Manual for 32-bit
// implementations, section 7.4).
module BatMeaning {
  import opened Words
  import opened Bat

  /** The fields of the two BAT words: block address and physical block number in the top fifteen
      bits, block length in bits 2 to 12, the valid bits at the bottom, protection likewise. */
  lemma FieldBits(u: Word, l: Word, k: nat)
    ensures Bit(Bepi(u), k) <==> k >= 17 && Bit(u, k)
    ensures Bit(Bprn(l), k) <==> k >= 17 && Bit(l, k)
    ensures Bit(BlockLength(u), k) <==> k < 11 && Bit(u, k + 2)
    ensures Bit(Bprn(l), k) <==> k >= 17 && Bit(l, k)
    ensures Active(u) <==> Bit(u, 0) || Bit(u, 1)
    ensures Writable(l) <==> Bit(l, 1) && !Bit(l, 0)
  {
    Pow2Values();
    TopBits(u, k);
    TopBits(l, k);
    assert Pow2(2) == 4 && Pow2(11) == 0x800;
    BitLow(u / 4, 11, k);
    BitShift(u, 2, k);
    LowTwo(u);
    LowTwo(l);
  }

  lemma TopBits(x: Word, k: nat)
    ensures Bit(x / 0x2_0000 * 0x2_0000, k) <==> k >= 17 && Bit(x, k)
  {
    Pow2Values();
    BitMul(x / 0x2_0000, 17, k);
    if k >= 17 {
      BitShift(x, 17, k - 17);
    }
  }

  lemma LowTwo(x: nat)
    ensures x % 4 == (if Bit(x, 0) then 1 else 0) + (if Bit(x, 1) then 2 else 0)
  {
    HalfThenDivide(x, 2);
    assert Bit(x, 1) == Bit(x / 2, 0);
  }

  /** Exactly the runs of up to eleven ones are legal length codes, and a block is as long as its
      code and one, in units of 128 KB. */
  lemma LegalCodes(u: Word)
    ensures Legal(u) <==> BlockLength(u) in {0, 1, 3, 7, 15, 31, 63, 127, 255, 511, 1023, 2047}
    ensures Legal(u) ==> Size(u) == (BlockLength(u) + 1) * 0x2_0000
  {
  }

  // ---- Effective to physical

  /** BAT u takes v: one of its valid bits is set, its length is legal, and the bits of v above the
      block are its block address. */
  predicate Takes(u: Word, v: Word) {
    (Bit(u, 0) || Bit(u, 1)) && Legal(u) && AndNot(v, BlockLength(u) * 0x2_0000 + 0x1_FFFF) == Bepi(u)
  }

  lemma TakesIsHit(u: Word, v: Word)
    requires Legal(u) ==> Aligned(u, Bepi(u)) && NoWrap(u)
    ensures Takes(u, v) <==> Hit(u, v)
  {
    FieldBits(u, 0, 0);
    if Legal(u) {
      RangeTestAt(u, v);
    }
  }

  /** Blocks that are aligned and clear of the top of memory. */
  ghost predicate Regular(us: seq<Word>, n: nat)
    requires n <= |us|
  {
    forall i :: 0 <= i < n && Legal(us[i]) ==> Aligned(us[i], Bepi(us[i])) && NoWrap(us[i])
  }

  /** BAT i is the least one that takes v. */
  ghost predicate FirstTaker(us: seq<Word>, v: Word, n: nat, i: nat)
    requires n <= |us|
  {
    i < n && Takes(us[i], v) && forall j :: 0 <= j < i ==> !Takes(us[j], v)
  }

  /** Some BAT takes v. */
  ghost predicate Taken(us: seq<Word>, v: Word, n: nat)
    requires n <= |us|
  {
    exists i :: 0 <= i < n && Takes(us[i], v)
  }

  lemma FirstIsFound(us: seq<Word>, v: Word, n: nat)
    requires n <= |us| && Regular(us, n)
    ensures FirstHit(us, v, n) < n <==> Taken(us, v, n)
    ensures FirstHit(us, v, n) < n ==> FirstTaker(us, v, n, FirstHit(us, v, n))
  {
    forall i | 0 <= i < n
      ensures Takes(us[i], v) <==> Hit(us[i], v)
    {
      TakesIsHit(us[i], v);
    }
  }

  lemma OneFirstTaker(us: seq<Word>, v: Word, n: nat, i: nat, j: nat)
    requires n <= |us| && FirstTaker(us, v, n, i) && FirstTaker(us, v, n, j)
    ensures i == j
  {
  }

  /** For such blocks an address translates exactly when some BAT takes it; where none does the
      answer is address 0, not mapped and not writable. */
  lemma TranslatesExactly(us: seq<Word>, ls: seq<Word>, v: Word, n: nat)
    requires n <= |us| && n <= |ls| && Regular(us, n)
    ensures Translate(us, ls, v, n).mapped <==> Taken(us, v, n)
    ensures !Translate(us, ls, v, n).mapped ==> Translate(us, ls, v, n) == MemAddr(0, false, false)
  {
    FirstIsFound(us, v, n);
  }

  /** The least one that does decides whether it may be written and, its physical block being
      aligned, where it leads: the block number with the address's own low bits. */
  lemma FirstTakerDecides(us: seq<Word>, ls: seq<Word>, v: Word, n: nat, i: nat)
    requires n <= |us| && n <= |ls| && Regular(us, n) && FirstTaker(us, v, n, i)
    ensures Translate(us, ls, v, n).writable <==> Bit(ls[i], 1) && !Bit(ls[i], 0)
    ensures Aligned(us[i], Bprn(ls[i])) ==>
              Translate(us, ls, v, n).addr == Or(Bprn(ls[i]), And(v, BlockLength(us[i]) * 0x2_0000 + 0x1_FFFF))
  {
    FirstIsFound(us, v, n);
    OneFirstTaker(us, v, n, i, FirstHit(us, v, n));
    FieldBits(us[i], ls[i], 0);
    if Aligned(us[i], Bprn(ls[i])) {
      MaskOrAt(us[i], ls[i], v);
    }
  }

  // ---- Physical to effective

  /** BAT (u, l) holds p: one of its valid bits is set, its length is legal, and the bits of p above
      the block are its physical block number. */
  predicate Holds(u: Word, l: Word, p: Word) {
    (Bit(u, 0) || Bit(u, 1)) && Legal(u) && AndNot(p, BlockLength(u) * 0x2_0000 + 0x1_FFFF) == Bprn(l)
  }

  lemma HoldsIsBacks(u: Word, l: Word, p: Word)
    requires Legal(u) ==> Aligned(u, Bprn(l)) && Bprn(l) + Size(u) < TWO32
    ensures Holds(u, l, p) <==> Backs(u, l, p)
  {
    FieldBits(u, l, 0);
    if Legal(u) {
      LegalCodes(u);
      MaskedIsInRange(u, Bprn(l), p);
    }
  }

  lemma MaskedIsInRange(u: Word, base: Word, p: Word)
    requires Legal(u) && Aligned(u, base)
    ensures AndNot(p, Size(u) - 1) == base <==> base <= p < base + Size(u)
  {
    var k := LegalLength(u);
    var q, r := Grid(u, base);
    var t, o := Grid(u, p);
    if base <= p < base + Size(u) {
      SameBlock(q, o, t, Size(u));
    }
  }

  /** Physical blocks that are aligned and clear of the top of memory. */
  ghost predicate RegularBacks(us: seq<Word>, ls: seq<Word>, n: nat)
    requires n <= |us| && n <= |ls|
  {
    forall i :: 0 <= i < n && Legal(us[i]) ==>
      Aligned(us[i], Bprn(ls[i])) && Bprn(ls[i]) + Size(us[i]) < TWO32
  }

  ghost predicate FirstHolder(us: seq<Word>, ls: seq<Word>, p: Word, n: nat, i: nat)
    requires n <= |us| && n <= |ls|
  {
    i < n && Holds(us[i], ls[i], p) && forall j :: 0 <= j < i ==> !Holds(us[j], ls[j], p)
  }

  /** Some BAT holds p. */
  ghost predicate Held(us: seq<Word>, ls: seq<Word>, p: Word, n: nat)
    requires n <= |us| && n <= |ls|
  {
    exists i :: 0 <= i < n && Holds(us[i], ls[i], p)
  }

  lemma FirstIsBacking(us: seq<Word>, ls: seq<Word>, p: Word, n: nat)
    requires n <= |us| && n <= |ls| && RegularBacks(us, ls, n)
    ensures FirstBack(us, ls, p, n) < n <==> Held(us, ls, p, n)
    ensures FirstBack(us, ls, p, n) < n ==> FirstHolder(us, ls, p, n, FirstBack(us, ls, p, n))
  {
    forall i | 0 <= i < n
      ensures Holds(us[i], ls[i], p) <==> Backs(us[i], ls[i], p)
    {
      HoldsIsBacks(us[i], ls[i], p);
    }
  }

  lemma OneFirstHolder(us: seq<Word>, ls: seq<Word>, p: Word, n: nat, i: nat, j: nat)
    requires n <= |us| && n <= |ls| && FirstHolder(us, ls, p, n, i) && FirstHolder(us, ls, p, n, j)
    ensures i == j
  {
  }

  /** The reverse search finds an address exactly when some BAT holds p. */
  lemma FindsExactly(us: seq<Word>, ls: seq<Word>, p: Word, n: nat)
    requires n <= |us| && n <= |ls| && RegularBacks(us, ls, n)
    ensures PhysToVirt(us, ls, p, n).mapped <==> Held(us, ls, p, n)
    ensures !PhysToVirt(us, ls, p, n).mapped ==> PhysToVirt(us, ls, p, n) == MemAddr(0, false, false)
  {
    FirstIsBacking(us, ls, p, n);
  }

  /** The least one that does decides: the address lies as far before the end of its virtual block
      as p lies behind the start of the physical one. */
  lemma FirstHolderDecides(us: seq<Word>, ls: seq<Word>, p: Word, n: nat, i: nat)
    requires n <= |us| && n <= |ls| && RegularBacks(us, ls, n) && FirstHolder(us, ls, p, n, i)
    ensures PhysToVirt(us, ls, p, n).writable <==> Bit(ls[i], 1) && !Bit(ls[i], 0)
    ensures Bepi(us[i]) + Size(us[i]) < TWO32 ==>
              PhysToVirt(us, ls, p, n).addr
              == Bepi(us[i]) + Size(us[i]) - And(p, BlockLength(us[i]) * 0x2_0000 + 0x1_FFFF)
  {
    FirstIsBacking(us, ls, p, n);
    OneFirstHolder(us, ls, p, n, i, FirstBack(us, ls, p, n));
    FieldBits(us[i], ls[i], 0);
    HolderOffset(us[i], ls[i], p);
  }

  lemma HolderOffset(u: Word, l: Word, p: Word)
    requires Backs(u, l, p) && Aligned(u, Bprn(l)) && Bprn(l) + Size(u) < TWO32
    ensures Legal(u) && And(p, BlockLength(u) * 0x2_0000 + 0x1_FFFF) == p - Bprn(l)
  {
    LegalCodes(u);
    var q, r := Grid(u, Bprn(l));
    var t, o := Grid(u, p);
    SameBlock(q, o, t, Size(u));
  }
}

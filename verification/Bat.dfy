// Block address translation: the BAT register fields, the first-match search of
// E_MemVirtToPhys and E_MemPhysToVirt, and how both relate to the architecture's
// own form (PowerPC Programming Environments Manual for 32-bit implementations,
// section 7.4).
module Bat {
  import opened Words

  datatype Console = GameCube | Wii

  const PP_READ_WRITE := 2

  /** How many BAT pairs of each kind the console has. */
  function MaxBat(c: Console): (n: nat)
    ensures n <= 8
  {
    match c
    case GameCube => 4
    case Wii => 8
  }

  // ---- Fields of the upper and lower BAT word

  function Bepi(u: Word): Word { u / 0x2_0000 * 0x2_0000 }

  function BlockLength(u: Word): Word { u / 4 % 0x800 }

  /** Valid in supervisor or in user mode; the search does not tell the two apart. */
  predicate Active(u: Word) { u % 4 != 0 }

  function Bprn(l: Word): Word { l / 0x2_0000 * 0x2_0000 }

  predicate Writable(l: Word) { l % 4 == PP_READ_WRITE }

  /** Block length code to bytes; 0 stands for a code the architecture does not define. */
  function BlockBytes(bl: Word): Word {
    match bl
    case 0x000 => 128 * 1024
    case 0x001 => 256 * 1024
    case 0x003 => 512 * 1024
    case 0x007 => 1 * 1024 * 1024
    case 0x00F => 2 * 1024 * 1024
    case 0x01F => 4 * 1024 * 1024
    case 0x03F => 8 * 1024 * 1024
    case 0x07F => 16 * 1024 * 1024
    case 0x0FF => 32 * 1024 * 1024
    case 0x1FF => 64 * 1024 * 1024
    case 0x3FF => 128 * 1024 * 1024
    case 0x7FF => 256 * 1024 * 1024
    case _ => 0
  }

  function Size(u: Word): Word { BlockBytes(BlockLength(u)) }

  predicate Legal(u: Word) { Size(u) != 0 }

  predicate InBlock(u: Word, v: Word) { Bepi(u) <= v < Add(Bepi(u), Size(u)) }

  predicate Hit(u: Word, v: Word) { Active(u) && InBlock(u, v) }

  function Phys(u: Word, l: Word, v: Word): Word {
    Add(AndNot(Bprn(l), Sub(Size(u), 1)), Sub(v, Bepi(u)))
  }

  // ---- The architecture's form

  /** The effective-address bits a block leaves untranslated: BL, then the low 17. */
  function LengthMask(u: Word): Word { BlockLength(u) * 0x2_0000 + 0x1_FFFF }

  predicate ArchHit(u: Word, v: Word) { AndNot(v, LengthMask(u)) == Bepi(u) }

  function ArchPhys(u: Word, l: Word, v: Word): nat { Or(Bprn(l), And(v, LengthMask(u))) }

  predicate Aligned(u: Word, x: Word) { And(x, Sub(Size(u), 1)) == 0 }

  /** The block ends below the top of the address space, so that its end is a word. */
  predicate NoWrap(u: Word) { Bepi(u) < Add(Bepi(u), Size(u)) }

  /** A legal length code is a run of ones, so the untranslated bits are size - 1. */
  lemma LegalLength(u: Word) returns (k: nat)
    requires Legal(u)
    ensures 17 <= k <= 28 && Size(u) == Pow2(k) && LengthMask(u) == Size(u) - 1
  {
    Pow2Values();
    match BlockLength(u)
    case 0x000 => k := 17;
    case 0x001 => k := 18;
    case 0x003 => k := 19;
    case 0x007 => k := 20;
    case 0x00F => k := 21;
    case 0x01F => k := 22;
    case 0x03F => k := 23;
    case 0x07F => k := 24;
    case 0x0FF => k := 25;
    case 0x1FF => k := 26;
    case 0x3FF => k := 27;
    case _ => k := 28;
  }

  /** Where a number falls in the grid of blocks of this size. */
  lemma Grid(u: Word, x: Word) returns (q: nat, r: nat)
    requires Legal(u)
    ensures 0 <= q * Size(u) && x == q * Size(u) + r && r < Size(u)
    ensures AndNot(x, Size(u) - 1) == q * Size(u) && And(x, Size(u) - 1) == r
  {
    var k := LegalLength(u);
    q, r := x / Pow2(k), x % Pow2(k);
    Quotient(x, Pow2(k));
    LowOnes(k, q, r);
  }

  /** The range test accepts nothing for a block length the architecture leaves undefined. */
  lemma InvalidLengthNeverMatches(u: Word, v: Word)
    ensures Hit(u, v) ==> Legal(u)
  {
  }

  /** The code's range test is the architecture's masked compare for every address exactly
      when the block is both aligned and clear of the top of memory, or is neither. */
  lemma RangeTestIsMaskedCompare(u: Word)
    requires Legal(u)
    ensures (forall v: Word :: InBlock(u, v) <==> ArchHit(u, v))
       <==> (Aligned(u, Bepi(u)) <==> NoWrap(u))
  {
    if Aligned(u, Bepi(u)) <==> NoWrap(u) {
      forall v: Word
        ensures InBlock(u, v) <==> ArchHit(u, v)
      {
        RangeTestAt(u, v);
      }
    } else {
      RangeTestAtBase(u);
    }
  }

  lemma RangeTestAt(u: Word, v: Word)
    requires Legal(u) && (Aligned(u, Bepi(u)) <==> NoWrap(u))
    ensures InBlock(u, v) <==> ArchHit(u, v)
  {
    var k := LegalLength(u);
    var q, r := Grid(u, Bepi(u));
    var t, o := Grid(u, v);
    if InBlock(u, v) {
      SameBlock(q, o, t, Size(u));
    } else if ArchHit(u, v) {
      SameBlock(t, r, q, Size(u));
    }
  }

  lemma RangeTestAtBase(u: Word)
    requires Legal(u) && !(Aligned(u, Bepi(u)) <==> NoWrap(u))
    ensures InBlock(u, Bepi(u)) != ArchHit(u, Bepi(u))
  {
    var k := LegalLength(u);
    var q, r := Grid(u, Bepi(u));
  }

  /** Subtract-and-add equals mask-and-or on the whole block exactly when the physical
      block number is aligned to the block as well. */
  lemma SubtractionIsMaskOr(u: Word, l: Word)
    requires Legal(u) && Aligned(u, Bepi(u)) && NoWrap(u)
    ensures (forall v: Word :: InBlock(u, v) ==> Phys(u, l, v) == ArchPhys(u, l, v))
       <==> Aligned(u, Bprn(l))
  {
    if Aligned(u, Bprn(l)) {
      forall v: Word | InBlock(u, v)
        ensures Phys(u, l, v) == ArchPhys(u, l, v)
      {
        MaskOrAt(u, l, v);
      }
    } else {
      assert InBlock(u, Bepi(u));
      MaskOrAtBase(u, l);
    }
  }

  lemma MaskOrAt(u: Word, l: Word, v: Word)
    requires Legal(u) && Aligned(u, Bepi(u)) && NoWrap(u) && Aligned(u, Bprn(l))
    requires InBlock(u, v)
    ensures Phys(u, l, v) == ArchPhys(u, l, v)
  {
    var o := v - Bepi(u);
    assert And(v, LengthMask(u)) == o by {
      OffsetBits(u, v);
    }
    BaseBits(u, l, o);
    assert Sub(Size(u), 1) == Size(u) - 1 && Sub(v, Bepi(u)) == o;
  }

  lemma OffsetBits(u: Word, v: Word)
    requires Legal(u) && Aligned(u, Bepi(u)) && NoWrap(u) && InBlock(u, v)
    ensures And(v, LengthMask(u)) == v - Bepi(u)
  {
    var k := LegalLength(u);
    var q, _ := Grid(u, Bepi(u));
    LowOnes(k, q, v - Bepi(u));
  }

  lemma BaseBits(u: Word, l: Word, o: nat)
    requires Legal(u) && Aligned(u, Bprn(l)) && o < Size(u)
    ensures AndNot(Bprn(l), Size(u) - 1) == Bprn(l)
    ensures Or(Bprn(l), o) == Bprn(l) + o < TWO32
  {
    var k := LegalLength(u);
    var t, _ := Grid(u, Bprn(l));
    OrBelow(k, t, o);
    FitsBelow(t, k);
  }

  lemma MaskOrAtBase(u: Word, l: Word)
    requires Legal(u) && Aligned(u, Bepi(u)) && !Aligned(u, Bprn(l))
    ensures Phys(u, l, Bepi(u)) < Bprn(l) == ArchPhys(u, l, Bepi(u))
  {
    var k := LegalLength(u);
    var q, r := Grid(u, Bepi(u));
    var t, o := Grid(u, Bprn(l));
  }

  // ---- First-match search

  datatype MemAddr = MemAddr(addr: Word, mapped: bool, writable: bool)

  const UNMAPPED := MemAddr(0, false, false)

  /** The least index below n whose BAT translates v, or n. */
  function FirstHit(us: seq<Word>, v: Word, n: nat): (k: nat)
    requires n <= |us|
    ensures k <= n
    ensures k < n ==> Hit(us[k], v)
    ensures forall j :: 0 <= j < k ==> !Hit(us[j], v)
  {
    if n == 0 then 0
    else
      var k := FirstHit(us, v, n - 1);
      if k < n - 1 || Hit(us[n - 1], v) then k else n
  }

  /** Effective to physical address through the first n BATs. */
  function Translate(us: seq<Word>, ls: seq<Word>, v: Word, n: nat): MemAddr
    requires n <= |us| && n <= |ls|
  {
    var k := FirstHit(us, v, n);
    if k == n then UNMAPPED else MemAddr(Phys(us[k], ls[k], v), true, Writable(ls[k]))
  }

  predicate Backs(u: Word, l: Word, p: Word) {
    Active(u) && Bprn(l) <= p < Add(Bprn(l), Size(u))
  }

  /** The least index below n whose physical block holds p, or n. */
  function FirstBack(us: seq<Word>, ls: seq<Word>, p: Word, n: nat): (k: nat)
    requires n <= |us| && n <= |ls|
    ensures k <= n
    ensures k < n ==> Backs(us[k], ls[k], p)
    ensures forall j :: 0 <= j < k ==> !Backs(us[j], ls[j], p)
  {
    if n == 0 then 0
    else
      var k := FirstBack(us, ls, p, n - 1);
      if k < n - 1 || Backs(us[n - 1], ls[n - 1], p) then k else n
  }

  /** The address the code computes: the offset is counted back from the end of the block. */
  function VirtAsWritten(u: Word, l: Word, p: Word): Word {
    Add(Bepi(u), Sub(Add(Bprn(l), Size(u)), p))
  }

  /** The address the search is for: the offset counted from the start of the block. */
  function VirtIntended(u: Word, l: Word, p: Word): Word {
    Add(Bepi(u), Sub(p, Bprn(l)))
  }

  /** Physical to effective address through the first n BATs, as the code computes it. */
  function PhysToVirt(us: seq<Word>, ls: seq<Word>, p: Word, n: nat): MemAddr
    requires n <= |us| && n <= |ls|
  {
    var k := FirstBack(us, ls, p, n);
    if k == n then UNMAPPED else MemAddr(VirtAsWritten(us[k], ls[k], p), true, Writable(ls[k]))
  }

  // ---- Going from physical to virtual and back

  /** The block does not reach the top of memory and its physical base is aligned to it. */
  predicate Sound(u: Word, l: Word) {
    Active(u) && Legal(u) ==> NoWrap(u) && Aligned(u, Bprn(l))
  }

  predicate BlocksApart(u: Word, w: Word) {
    Bepi(u) + Size(u) <= Bepi(w) || Bepi(w) + Size(w) <= Bepi(u)
  }

  /** Every active BAT is sound and no two of them translate the same address. */
  ghost predicate Disjoint(us: seq<Word>, ls: seq<Word>, n: nat)
    requires n <= |us| && n <= |ls|
  {
    && (forall i :: 0 <= i < n ==> Sound(us[i], ls[i]))
    && (forall i, j :: 0 <= i < j < n && Active(us[i]) && Active(us[j]) ==> BlocksApart(us[i], us[j]))
  }

  lemma OnlyHit(us: seq<Word>, ls: seq<Word>, n: nat, k: nat, v: Word)
    requires n <= |us| && n <= |ls| && k < n && Disjoint(us, ls, n)
    requires Hit(us[k], v)
    ensures FirstHit(us, v, n) == k
  {
    var j := FirstHit(us, v, n);
    assert j < k ==> !BlocksApart(us[j], us[k]);
  }

  lemma PhysOfOffset(u: Word, l: Word, o: Word)
    requires Legal(u) && NoWrap(u) && Aligned(u, Bprn(l)) && o < Size(u)
    ensures InBlock(u, Add(Bepi(u), o))
    ensures Phys(u, l, Add(Bepi(u), o)) == Bprn(l) + o
  {
    var q, r := Grid(u, Bprn(l));
    var k := LegalLength(u);
    FitsBelow(q, k);
  }

  /** A multiple of 2^k below 2^32 leaves room for 2^k more. */
  lemma FitsBelow(q: nat, k: nat)
    requires k <= 28 && q * Pow2(k) < TWO32
    ensures q * Pow2(k) + Pow2(k) <= TWO32
  {
    Pow2Splits(k, 32 - k);
    Pow2Values();
    RoomForOneMore(q, Pow2(32 - k), Pow2(k));
  }

  lemma RoomForOneMore(q: nat, t: nat, p: nat)
    requires q * p < t * p
    ensures q * p + p <= t * p
  {
    if q < t {
      Multiple(q, t, p);
    } else if t < q {
      Multiple(t, q, p);
    }
  }

  /** With the offset counted from the start of the block, physical to virtual to physical
      is the identity on every physical address some BAT covers. */
  lemma IntendedRoundTrip(us: seq<Word>, ls: seq<Word>, n: nat, p: Word)
    requires n <= |us| && n <= |ls| && Disjoint(us, ls, n)
    requires FirstBack(us, ls, p, n) < n
    ensures var k := FirstBack(us, ls, p, n);
            Translate(us, ls, VirtIntended(us[k], ls[k], p), n) == MemAddr(p, true, Writable(ls[k]))
  {
    var k := FirstBack(us, ls, p, n);
    PhysOfOffset(us[k], ls[k], p - Bprn(ls[k]));
    OnlyHit(us, ls, n, k, VirtIntended(us[k], ls[k], p));
  }

  /** Physical to virtual as the code computes it, and back. */
  function RoundTrip(us: seq<Word>, ls: seq<Word>, p: Word, n: nat): MemAddr
    requires n <= |us| && n <= |ls|
  {
    Translate(us, ls, PhysToVirt(us, ls, p, n).addr, n)
  }

  function Reflect(u: Word, l: Word, p: Word): int { Bprn(l) + (Size(u) - (p - Bprn(l))) }

  /** BAT j takes over in virtual memory exactly where BAT k ends, and maps p there. */
  predicate Follows(us: seq<Word>, ls: seq<Word>, k: nat, j: nat, p: Word)
    requires k < |us| && j < |us| && j < |ls|
  {
    Active(us[j]) && Legal(us[j]) && Bepi(us[j]) == Bepi(us[k]) + Size(us[k]) && Bprn(ls[j]) == p
  }

  /** Whatever translates the address one past BAT k starts there. */
  lemma StartsThere(us: seq<Word>, ls: seq<Word>, n: nat, k: nat, v: Word)
    requires n <= |us| && n <= |ls| && k < n && Disjoint(us, ls, n)
    requires Active(us[k]) && Legal(us[k]) && v == Bepi(us[k]) + Size(us[k]) && FirstHit(us, v, n) < n
    ensures var j := FirstHit(us, v, n);
            Legal(us[j]) && Bepi(us[j]) == v && Phys(us[j], ls[j], v) == Bprn(ls[j])
  {
    var j := FirstHit(us, v, n);
    assert j != k;
    assert BlocksApart(us[if j < k then j else k], us[if j < k then k else j]);
    PhysOfOffset(us[j], ls[j], 0);
  }

  /** From the start of a block the round trip reaches t exactly when the next block in virtual
      memory maps t. */
  lemma PastTheEnd(us: seq<Word>, ls: seq<Word>, n: nat, p: Word, t: Word)
    requires n <= |us| && n <= |ls| && Disjoint(us, ls, n)
    requires var k := FirstBack(us, ls, p, n); k < n && p == Bprn(ls[k])
    ensures var k := FirstBack(us, ls, p, n);
            RoundTrip(us, ls, p, n).mapped && RoundTrip(us, ls, p, n).addr == t
            <==> exists j :: 0 <= j < n && Follows(us, ls, k, j, t)
  {
    var k := FirstBack(us, ls, p, n);
    var v := Bepi(us[k]) + Size(us[k]);
    assert PhysToVirt(us, ls, p, n).addr == v;
    if FirstHit(us, v, n) < n {
      StartsThere(us, ls, n, k, v);
      assert Follows(us, ls, k, FirstHit(us, v, n), t) <==> Bprn(ls[FirstHit(us, v, n)]) == t;
    }
    if j :| 0 <= j < n && Follows(us, ls, k, j, t) {
      PhysOfOffset(us[j], ls[j], 0);
      OnlyHit(us, ls, n, j, v);
    }
  }

  /** As written, the round trip reflects the offset within the block.  Away from the start of
      the block it is right exactly at the midpoint; at the start the address it goes through is
      one past the block, so it is right exactly when another BAT maps p from there on. */
  lemma AsWrittenReflects(us: seq<Word>, ls: seq<Word>, n: nat, p: Word)
    requires n <= |us| && n <= |ls| && Disjoint(us, ls, n)
    requires PhysToVirt(us, ls, p, n).mapped
    ensures var k := FirstBack(us, ls, p, n);
            var offset, size := p - Bprn(ls[k]), Size(us[k]);
            var back := RoundTrip(us, ls, p, n);
            && (offset != 0 ==> back == MemAddr(Reflect(us[k], ls[k], p), true, Writable(ls[k])))
            && (back.mapped && back.addr == p
                <==> if offset == 0 then exists j :: 0 <= j < n && Follows(us, ls, k, j, p)
                     else offset == size / 2)
  {
    var k := FirstBack(us, ls, p, n);
    var o := p - Bprn(ls[k]);
    var c := LegalLength(us[k]);
    if o != 0 {
      PhysOfOffset(us[k], ls[k], Size(us[k]) - o);
      assert PhysToVirt(us, ls, p, n).addr == Add(Bepi(us[k]), Size(us[k]) - o);
      OnlyHit(us, ls, n, k, Add(Bepi(us[k]), Size(us[k]) - o));
    } else {
      PastTheEnd(us, ls, n, p, p);
    }
  }

  /** Active BATs that back a common physical address back the same physical block. */
  ghost predicate SameOrApart(us: seq<Word>, ls: seq<Word>, n: nat)
    requires n <= |us| && n <= |ls|
  {
    forall i, j, p: Word :: 0 <= i < n && 0 <= j < n && Backs(us[i], ls[i], p) && Backs(us[j], ls[j], p)
      ==> Bprn(ls[i]) == Bprn(ls[j]) && Size(us[i]) == Size(us[j])
  }

  lemma ReflectionFirst(us: seq<Word>, ls: seq<Word>, n: nat, p: Word) returns (k: nat, q: Word)
    requires n <= |us| && n <= |ls| && SameOrApart(us, ls, n)
    requires FirstBack(us, ls, p, n) < n && p != Bprn(ls[FirstBack(us, ls, p, n)])
    ensures k == FirstBack(us, ls, p, n) == FirstBack(us, ls, q, n)
    ensures q == Reflect(us[k], ls[k], p) && q != Bprn(ls[k]) && Reflect(us[k], ls[k], q) == p
  {
    k := FirstBack(us, ls, p, n);
    q := Reflect(us[k], ls[k], p);
    var j := FirstBack(us, ls, q, n);
    assert j <= k && Backs(us[j], ls[j], q);
    BackedAlike(us, ls, n, j, k, q, p);
  }

  lemma BackedAlike(us: seq<Word>, ls: seq<Word>, n: nat, i: nat, j: nat, q: Word, p: Word)
    requires n <= |us| && n <= |ls| && i < n && j < n && SameOrApart(us, ls, n)
    requires Backs(us[i], ls[i], q) && Backs(us[j], ls[j], q) && Backs(us[j], ls[j], p)
    ensures Backs(us[i], ls[i], p)
  {
  }

  /** Away from the start of its block p goes to a q inside the same block, and the way back from
      there is decided by the first BAT that backs q. */
  lemma SecondTrip(us: seq<Word>, ls: seq<Word>, n: nat, p: Word) returns (q: Word)
    requires n <= |us| && n <= |ls| && Disjoint(us, ls, n)
    requires PhysToVirt(us, ls, p, n).mapped && p != Bprn(ls[FirstBack(us, ls, p, n)])
    ensures var k := FirstBack(us, ls, p, n);
            && q == Reflect(us[k], ls[k], p) && Backs(us[k], ls[k], q)
            && RoundTrip(us, ls, p, n) == MemAddr(q, true, Writable(ls[k]))
            && PhysToVirt(us, ls, q, n).mapped
  {
    var k := FirstBack(us, ls, p, n);
    AsWrittenReflects(us, ls, n, p);
    q := Reflect(us[k], ls[k], p);
    assert Backs(us[k], ls[k], q);
  }

  /** The composition as written, away from the start of the block, undoes itself exactly when the
      first BAT that backs the reflected address reflects about the same midpoint; or, if that
      address is the start of that BAT's block, when another BAT maps p right behind it. */
  lemma AsWrittenIsInvolution(us: seq<Word>, ls: seq<Word>, n: nat, p: Word)
    requires n <= |us| && n <= |ls| && Disjoint(us, ls, n)
    requires PhysToVirt(us, ls, p, n).mapped && p != Bprn(ls[FirstBack(us, ls, p, n)])
    ensures RoundTrip(us, ls, p, n).mapped
    ensures var q := RoundTrip(us, ls, p, n).addr;
            var k, j, back := FirstBack(us, ls, p, n), FirstBack(us, ls, q, n), RoundTrip(us, ls, q, n);
            && q == Reflect(us[k], ls[k], p) && j <= k
            && (back.mapped && back.addr == p
                <==> if q == Bprn(ls[j]) then exists m :: 0 <= m < n && Follows(us, ls, j, m, p)
                     else 2 * Bprn(ls[j]) + Size(us[j]) == 2 * Bprn(ls[k]) + Size(us[k]))
  {
    var q := SecondTrip(us, ls, n, p);
    var j := FirstBack(us, ls, q, n);
    if q == Bprn(ls[j]) {
      PastTheEnd(us, ls, n, q, p);
    } else {
      AsWrittenReflects(us, ls, n, q);
    }
  }

  /** In particular when active BATs that back a common address back the same block. */
  lemma InvolutionOnEqualBlocks(us: seq<Word>, ls: seq<Word>, n: nat, p: Word)
    requires n <= |us| && n <= |ls| && Disjoint(us, ls, n) && SameOrApart(us, ls, n)
    requires PhysToVirt(us, ls, p, n).mapped
    requires p != Bprn(ls[FirstBack(us, ls, p, n)])
    ensures RoundTrip(us, ls, RoundTrip(us, ls, p, n).addr, n)
         == MemAddr(p, true, Writable(ls[FirstBack(us, ls, p, n)]))
  {
    var k, q := ReflectionFirst(us, ls, n, p);
    AsWrittenReflects(us, ls, n, p);
    assert RoundTrip(us, ls, p, n).addr == q;
    AsWrittenReflects(us, ls, n, q);
  }

  /** Disjoint BATs where it does not: the reflected address is in the smaller block of another BAT,
      at the midpoint, and stays there. */
  lemma NoInvolution()
    ensures var us, ls, p: Word := [0x8000_0003, 0x9000_1FFF], [2, 2], 0x0FFF_0000;
            && Disjoint(us, ls, 2) && PhysToVirt(us, ls, p, 2).mapped && p != Bprn(ls[FirstBack(us, ls, p, 2)])
            && RoundTrip(us, ls, RoundTrip(us, ls, p, 2).addr, 2).addr == 0x1_0000
  {
    var us, ls := [0x8000_0003, 0x9000_1FFF], [2, 2];
    assert Size(us[0]) == 0x2_0000 && Size(us[1]) == 0x1000_0000;
    BaseBits(us[0], ls[0], 0);
    BaseBits(us[1], ls[1], 0);
    SmallBlockFirst(us, ls);
  }

  /** Two active BATs for physical 0, the first of 128 KB and the second of 256 MB. */
  lemma SmallBlockFirst(us: seq<Word>, ls: seq<Word>)
    requires |us| == |ls| == 2 && Disjoint(us, ls, 2) && Active(us[0]) && Active(us[1])
    requires Bprn(ls[0]) == Bprn(ls[1]) == 0 && Size(us[0]) == 0x2_0000 && Size(us[1]) == 0x1000_0000
    ensures PhysToVirt(us, ls, 0x0FFF_0000, 2).mapped && FirstBack(us, ls, 0x0FFF_0000, 2) == 1
    ensures RoundTrip(us, ls, RoundTrip(us, ls, 0x0FFF_0000, 2).addr, 2).addr == 0x1_0000
  {
    var p: Word, q: Word := 0x0FFF_0000, 0x1_0000;
    assert !Backs(us[0], ls[0], p) && Backs(us[1], ls[1], p);
    assert FirstBack(us, ls, p, 1) == 1;
    AsWrittenReflects(us, ls, 2, p);
    assert RoundTrip(us, ls, p, 2).addr == q;
    assert Backs(us[0], ls[0], q);
    assert FirstBack(us, ls, q, 1) == 0;
    AsWrittenReflects(us, ls, 2, q);
  }
}

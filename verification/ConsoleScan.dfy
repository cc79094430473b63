// Which console a DOL is for: dol-run looks for a write to HID4, which only the Wii's
// processor has, in the image's sections.
module ConsoleScan {
  import opened Words
  import opened Bat
  import opened Decoder
  import opened Machine
  import opened Dol

  /** Some whole word of the section matches the pattern.  The image is the process's memory
      from the start of the mapped file on, as the host loads words from it. */
  ghost predicate SectionMatches(image: int -> Word, offset: Word, size: Word) {
    exists j :: 0 <= j < size / 4 && WordMatches(image, offset, j)
  }

  predicate WordMatches(image: int -> Word, offset: Word, j: int) { ScanMatches(image(offset + j * 4)) }

  /** The i-th section the scan visits.  It counts to eight over seven text sections, and in
      the packed header the eighth entry of either array is data section 0's. */
  function ScannedField(q: Quantity, i: nat): (f: Field)
    requires i < 8
    ensures f.Exists() && WordIndex(f) == Row(q) + i
  {
    if i < 7 then Text(q, i) else Field.Data(q, 0)
  }

  ghost predicate ScannedMatches(hdr: seq<Word>, image: int -> Word, i: nat)
    requires |hdr| == HEADER_WORDS && i < 8
  {
    SectionMatches(image, hdr[WordIndex(ScannedField(Offset, i))], hdr[WordIndex(ScannedField(Extent, i))])
  }

  /** Wii exactly when some word of a text section or of data section 0 matches. */
  method DetectConsole(hdr: array<Word>, image: int -> Word) returns (c: Console)
    requires hdr.Length == HEADER_WORDS
    ensures c.Wii? <==> exists i :: 0 <= i < 8 && ScannedMatches(hdr[..], image, i)
  {
    c := GameCube;
    for i := 0 to 8
      invariant forall k :: 0 <= k < i ==> !ScannedMatches(hdr[..], image, k)
    {
      var textSize, textOff := hdr[Row(Extent) + i], hdr[Row(Offset) + i];
      assert hdr[..][Row(Extent) + i] == textSize && hdr[..][Row(Offset) + i] == textOff;
      for j := 0 to textSize / 4
        invariant forall k :: 0 <= k < j ==> !WordMatches(image, textOff, k)
      {
        var instr := image(textOff + j * 4);
        if And(instr, 0xFC1F_FFFF) == 0x7C13_FBA6 {
          assert WordMatches(image, textOff, j);
          assert ScannedMatches(hdr[..], image, i);
          return Wii;
        }
      }
    }
  }

  /** Nothing scanned matches: the header is that of an image taken for a GameCube one. */
  ghost predicate ClassedGameCube(hdr: seq<Word>, image: int -> Word)
    requires |hdr| == HEADER_WORDS
  {
    forall i :: 0 <= i < 8 ==> !ScannedMatches(hdr, image, i)
  }

  /** On a GameCube, a trap on a word that decodes to a HID4 write is fatal. */
  lemma Hid4WriteIsFatal(s: State, w: Word)
    requires s.Shaped() && s.env.console == GameCube
    requires Decode(w).Mtspr? && Decode(w).spr == SPR_HID4
    ensures Step(s, w).fatal
  {
  }

  /** Why the scan matters: a word it looks for, in a text section, stops a GameCube when it traps,
      and the image is not classed as a GameCube's. */
  lemma ScannedWordStops(hdr: seq<Word>, image: int -> Word, n: nat, j: nat, s: State)
    requires |hdr| == HEADER_WORDS && n < 7 && j < hdr[WordIndex(Text(Extent, n))] / 4
    requires s.Shaped() && s.env.console == GameCube
    requires ScanMatches(image(hdr[WordIndex(Text(Offset, n))] + j * 4))
    ensures Step(s, image(hdr[WordIndex(Text(Offset, n))] + j * 4)).fatal && !ClassedGameCube(hdr, image)
  {
    var offset := hdr[WordIndex(Text(Offset, n))];
    ScanIsHid4Write(image(offset + j * 4));
    Hid4WriteIsFatal(s, image(offset + j * 4));
    assert ScannedField(Offset, n) == Text(Offset, n) && ScannedField(Extent, n) == Text(Extent, n);
    assert WordMatches(image, offset, j) && ScannedMatches(hdr, image, n);
  }

  /** In an image classed as GameCube, no word of a text section is a well-formed HID4 write,
      so the words there that could stop the machine that way all have the record bit or the
      tenth opcode bit set, which no assembler emits for mtspr. */
  lemma GameCubeTextIsSafe(hdr: seq<Word>, image: int -> Word, n: nat, j: nat, rs: nat)
    requires |hdr| == HEADER_WORDS && ClassedGameCube(hdr, image)
    requires n < 7 && j < hdr[WordIndex(Text(Extent, n))] / 4 && rs < 32
    ensures var w := image(hdr[WordIndex(Text(Offset, n))] + j * 4);
            && w != Encode(Mtspr(rs, SPR_HID4))
            && (Decode(w).Mtspr? && Decode(w).spr == SPR_HID4 ==> w % 2 == 1 || w / 0x400 % 2 == 1)
  {
    var offset := hdr[WordIndex(Text(Offset, n))];
    assert ScannedField(Offset, n) == Text(Offset, n) && ScannedField(Extent, n) == Text(Extent, n);
    assert !ScannedMatches(hdr, image, n);
    assert !WordMatches(image, offset, j);
    ScanIsHid4Write(image(offset + j * 4));
    Hid4EncodingMatches(rs);
  }

  /** The word an assembler emits for a HID4 write is one the scan finds. */
  lemma Hid4EncodingMatches(rs: nat)
    requires rs < 32
    ensures ScanMatches(Encode(Mtspr(rs, SPR_HID4)))
  {
    DecodeInverts(Mtspr(rs, SPR_HID4));
    var w := Encode(Mtspr(rs, SPR_HID4));
    EncodingLowBits(rs);
    ScanIsHid4Write(w);
  }

  lemma EncodingLowBits(rs: nat)
    requires rs < 32
    ensures var w := Encode(Mtspr(rs, SPR_HID4)); w % 2 == 0 && w / 0x400 % 2 == 0
  {
    var m := (31 * 32 + rs) * 1024 + SwapHalves(SPR_HID4);
    DivUnique(Encode(Mtspr(rs, SPR_HID4)), 0x400, m * 2, 467 * 2);
  }

  /** No text section matches: what the scan would go by if it stopped at seven. */
  ghost predicate TextIsGameCube(hdr: seq<Word>, image: int -> Word)
    requires |hdr| == HEADER_WORDS
  {
    forall i :: 0 <= i < 7 ==> !ScannedMatches(hdr, image, i)
  }

  /** The extra iteration leaves the verdict as the text sections give it exactly when one of them
      matches or data section 0 does not. */
  lemma DataSectionCounts(hdr: seq<Word>, image: int -> Word)
    requires |hdr| == HEADER_WORDS
    ensures (ClassedGameCube(hdr, image) <==> TextIsGameCube(hdr, image))
       <==> !TextIsGameCube(hdr, image)
            || !SectionMatches(image, hdr[WordIndex(Field.Data(Offset, 0))], hdr[WordIndex(Field.Data(Extent, 0))])
  {
    assert ScannedField(Offset, 7) == Field.Data(Offset, 0) && ScannedField(Extent, 7) == Field.Data(Extent, 0);
    assert ScannedMatches(hdr, image, 7)
      <==> SectionMatches(image, hdr[WordIndex(Field.Data(Offset, 0))], hdr[WordIndex(Field.Data(Extent, 0))]);
    assert ClassedGameCube(hdr, image) <==> TextIsGameCube(hdr, image) && !ScannedMatches(hdr, image, 7);
  }

  // ---- The scan in plain numbers

  /** The words looked for are the thirty-two an assembler emits for a write to HID4. */
  lemma ScanWords(w: Word)
    ensures ScanMatches(w) <==> exists rs :: 0 <= rs < 32 && w == 0x7C13_FBA6 + rs * 0x20_0000
  {
    if ScanMatches(w) {
      ScannedParts(w);
      assert w == 0x7C13_FBA6 + (w / 0x20_0000 % 32) * 0x20_0000;
    }
    if rs :| 0 <= rs < 32 && w == 0x7C13_FBA6 + rs * 0x20_0000 {
      Hid4Word(rs);
      Hid4EncodingMatches(rs);
    }
  }

  lemma ScannedParts(w: Word)
    requires ScanMatches(w)
    ensures w == 31 * 0x400_0000 + w / 0x20_0000 % 32 * 0x20_0000 + 0x13_FBA6
  {
    ScanMask(w);
    SumsApart(w / 0x400_0000, w % 0x20_0000);
    Quotient(w, 0x20_0000);
    Quotient(w / 0x20_0000, 32);
    DivUnique(w, 0x400_0000, w / 0x20_0000 / 32, w / 0x20_0000 % 32 * 0x20_0000 + w % 0x20_0000);
  }

  lemma SumsApart(p: nat, x: nat)
    requires x < 0x20_0000 && p * 0x400_0000 + x == 0x7C13_FBA6
    ensures p == 31 && x == 0x13_FBA6
  {
  }

  lemma Hid4Word(rs: nat)
    requires rs < 32
    ensures Encode(Mtspr(rs, SPR_HID4)) == 0x7C13_FBA6 + rs * 0x20_0000
  {
  }

  /** The address, in a section of this offset and size, of a whole word that is one of them: it
      starts no earlier than the section, ends no later, and lies on the section's own grid. */
  ghost predicate FoundAt(image: int -> Word, offset: Word, size: Word, a: int) {
    && offset <= a && a + 4 <= offset + size && (a - offset) % 4 == 0
    && exists rs :: 0 <= rs < 32 && image(a) == 0x7C13_FBA6 + rs * 0x20_0000
  }

  ghost predicate HoldsHid4Write(image: int -> Word, offset: Word, size: Word) {
    exists a :: FoundAt(image, offset, size, a)
  }

  lemma MatchIsFound(image: int -> Word, offset: Word, size: Word, j: nat)
    requires j < size / 4 && WordMatches(image, offset, j)
    ensures FoundAt(image, offset, size, offset + j * 4)
  {
    ScanWords(image(offset + j * 4));
  }

  lemma FoundIsMatch(image: int -> Word, offset: Word, size: Word, a: int) returns (j: nat)
    requires FoundAt(image, offset, size, a)
    ensures j < size / 4 && WordMatches(image, offset, j)
  {
    j := (a - offset) / 4;
    assert a == offset + j * 4;
    ScanWords(image(a));
  }

  lemma SectionMatchesExactly(image: int -> Word, offset: Word, size: Word)
    ensures SectionMatches(image, offset, size) <==> HoldsHid4Write(image, offset, size)
  {
    if SectionMatches(image, offset, size) {
      var j :| 0 <= j < size / 4 && WordMatches(image, offset, j);
      MatchIsFound(image, offset, size, j);
    }
    if a :| FoundAt(image, offset, size, a) {
      var j := FoundIsMatch(image, offset, size, a);
    }
  }

  /** The verdict by the header's words: Wii exactly when one of the sections whose offset is word i
      and whose size is word 36 + i of the header, for i from 0 to 7, holds such a word. */
  lemma WiiExactly(hdr: seq<Word>, image: int -> Word)
    requires |hdr| == HEADER_WORDS
    ensures !ClassedGameCube(hdr, image) <==> exists i :: 0 <= i < 8 && HoldsHid4Write(image, hdr[i], hdr[36 + i])
  {
    forall i | 0 <= i < 8
      ensures ScannedMatches(hdr, image, i) <==> HoldsHid4Write(image, hdr[i], hdr[36 + i])
    {
      SectionMatchesExactly(image, hdr[i], hdr[36 + i]);
    }
  }
}

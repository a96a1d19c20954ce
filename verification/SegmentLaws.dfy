/** The bit patterns of segments by the examples of ISO/IEC 18004:2015, and the table of the alphanumeric
    mode character by character. */
module SegmentLaws {
  import opened SegmentEncoding
  import opened Segments

  // The values of the 45 characters: the digits, the letters from 10 on, and nine others from 36 on.

  lemma DigitValues()
    ensures |ALPHANUMERIC| == 45
    ensures ALPHANUMERIC[0] == '0' && ALPHANUMERIC[1] == '1' && ALPHANUMERIC[2] == '2' && ALPHANUMERIC[3] == '3'
    ensures ALPHANUMERIC[4] == '4' && ALPHANUMERIC[5] == '5' && ALPHANUMERIC[6] == '6' && ALPHANUMERIC[7] == '7'
    ensures ALPHANUMERIC[8] == '8' && ALPHANUMERIC[9] == '9'
  {}

  lemma EarlyLetterValues()
    ensures |ALPHANUMERIC| == 45
    ensures ALPHANUMERIC[10] == 'A' && ALPHANUMERIC[11] == 'B' && ALPHANUMERIC[12] == 'C' && ALPHANUMERIC[13] == 'D'
    ensures ALPHANUMERIC[14] == 'E' && ALPHANUMERIC[15] == 'F' && ALPHANUMERIC[16] == 'G' && ALPHANUMERIC[17] == 'H'
    ensures ALPHANUMERIC[18] == 'I' && ALPHANUMERIC[19] == 'J' && ALPHANUMERIC[20] == 'K' && ALPHANUMERIC[21] == 'L'
    ensures ALPHANUMERIC[22] == 'M'
  {}

  lemma LateLetterValues()
    ensures |ALPHANUMERIC| == 45
    ensures ALPHANUMERIC[23] == 'N' && ALPHANUMERIC[24] == 'O' && ALPHANUMERIC[25] == 'P' && ALPHANUMERIC[26] == 'Q'
    ensures ALPHANUMERIC[27] == 'R' && ALPHANUMERIC[28] == 'S' && ALPHANUMERIC[29] == 'T' && ALPHANUMERIC[30] == 'U'
    ensures ALPHANUMERIC[31] == 'V' && ALPHANUMERIC[32] == 'W' && ALPHANUMERIC[33] == 'X' && ALPHANUMERIC[34] == 'Y'
    ensures ALPHANUMERIC[35] == 'Z'
  {}

  lemma OtherValues()
    ensures |ALPHANUMERIC| == 45
    ensures ALPHANUMERIC[36] == ' ' && ALPHANUMERIC[37] == '$' && ALPHANUMERIC[38] == '%' && ALPHANUMERIC[39] == '*'
    ensures ALPHANUMERIC[40] == '+' && ALPHANUMERIC[41] == '-' && ALPHANUMERIC[42] == '.' && ALPHANUMERIC[43] == '/'
    ensures ALPHANUMERIC[44] == ':'
  {}

  lemma OneSegment(c: Chunk, size: nat)
    requires size <= 2 && Encodable(c, size)
    ensures MessageBits([c], size) == NumberBits(Mode(c), 4) + BodyBits(c, size)
  {
    hide BodyBits, NumberBits, Encodable;
    assert MessageBits([c][1..], size) == [];
  }

  /** Section 7.4.3: the digits 01234567 in versions 1 to 9 have mode 0001, the length in 10 bits, and
      012, 345 and 67 in 10, 10 and 7. */
  lemma NumericExample()
    ensures MessageBits([Numeric("01234567")], 0) ==
            [0, 0, 0, 1] + ([0, 0, 0, 0, 0, 0, 1, 0, 0, 0] +
                            ([0, 0, 0, 0, 0, 0, 1, 1, 0, 0] + ([0, 1, 0, 1, 0, 1, 1, 0, 0, 1] + [1, 0, 0, 0, 0, 1, 1])))
  {
    hide NumberBits;
    NumericMode();
    Eight();
    Twelve();
    ThreeFourFive();
    SixtySeven();
    OneSegment(Numeric("01234567"), 0);
    assert "01234567"[3..] == "34567" && "34567"[3..] == "67";
    assert DigitBits("67") == NumberBits(67, 7);
    assert DigitBits("34567") == NumberBits(345, 10) + DigitBits("67");
    assert DigitBits("01234567") == NumberBits(12, 10) + DigitBits("34567");
  }

  lemma NumericMode()
    ensures NumberBits(1, 4) == [0, 0, 0, 1]
  {}

  lemma KanjiMode()
    ensures NumberBits(8, 4) == [1, 0, 0, 0]
  {}

  lemma EciMode()
    ensures NumberBits(7, 4) == [0, 1, 1, 1]
  {}

  lemma Eight()
    ensures NumberBits(8, 10) == [0, 0, 0, 0, 0, 0, 1, 0, 0, 0]
  {}

  lemma Twelve()
    ensures NumberBits(12, 10) == [0, 0, 0, 0, 0, 0, 1, 1, 0, 0]
  {}

  lemma ThreeFourFive()
    ensures NumberBits(345, 10) == [0, 1, 0, 1, 0, 1, 1, 0, 0, 1]
  {}

  lemma SixtySeven()
    ensures NumberBits(67, 7) == [1, 0, 0, 0, 0, 1, 1]
  {}

  lemma FirstKanji()
    ensures NumberBits(0x0D9F, 13) == [0, 1, 1, 0, 1, 1, 0, 0, 1, 1, 1, 1, 1]
  {}

  lemma SecondKanji()
    ensures NumberBits(0x1AAA, 13) == [1, 1, 0, 1, 0, 1, 0, 1, 0, 1, 0, 1, 0]
  {}

  lemma TwoCharacters()
    ensures NumberBits(2, 8) == [0, 0, 0, 0, 0, 0, 1, 0]
  {}

  lemma Nine()
    ensures NumberBits(9, 7) == [0, 0, 0, 1, 0, 0, 1]
  {}

  /** Section 7.4.6: the characters with Shift JIS codes 935F and E4AA in versions 1 to 9 have mode 1000, the
      length in 8 bits, and 13 bits each. */
  lemma KanjiExample()
    ensures MessageBits([Kanji([0x935F, 0xE4AA])], 0) ==
            [1, 0, 0, 0] + ([0, 0, 0, 0, 0, 0, 1, 0] +
                            ([0, 1, 1, 0, 1, 1, 0, 0, 1, 1, 1, 1, 1] + [1, 1, 0, 1, 0, 1, 0, 1, 0, 1, 0, 1, 0]))
  {
    hide NumberBits;
    KanjiMode();
    TwoCharacters();
    FirstKanji();
    SecondKanji();
    OneSegment(Kanji([0x935F, 0xE4AA]), 0);
    assert [0x935F, 0xE4AA][1..] == [0xE4AA];
    assert KanjiBits([0xE4AA]) == NumberBits(0x1AAA, 13);
  }

  /** Section 7.4.2: the designator of assignment 9 has mode 0111 and 8 bits of which the first is clear. */
  lemma EciExample()
    ensures MessageBits([Eci(9)], 0) == [0, 1, 1, 1] + ([0] + [0, 0, 0, 1, 0, 0, 1])
  {
    hide NumberBits;
    EciMode();
    Nine();
    OneSegment(Eci(9), 0);
  }

  /** Section 7.4.5: a byte in versions 1 to 9 has mode 0100, the length in 8 bits, and its own 8. */
  lemma ByteExample()
    ensures MessageBits([Bytes([0x41])], 0) == [0, 1, 0, 0] + ([0, 0, 0, 0, 0, 0, 0, 1] + [0, 1, 0, 0, 0, 0, 0, 1])
  {
    hide NumberBits;
    ByteMode();
    OneCharacter();
    LetterA();
    OneSegment(Bytes([0x41]), 0);
    assert ByteBits([0x41]) == NumberBits(0x41, 8) + ByteBits([]);
  }

  lemma ByteMode()
    ensures NumberBits(4, 4) == [0, 1, 0, 0]
  {}

  lemma OneCharacter()
    ensures NumberBits(1, 8) == [0, 0, 0, 0, 0, 0, 0, 1]
  {}

  lemma LetterA()
    ensures NumberBits(0x41, 8) == [0, 1, 0, 0, 0, 0, 0, 1]
  {}

  /** Table 3: the sizes change after versions 9 and 26, and with them the widths of the lengths. */
  lemma Sizes(version: nat)
    ensures SizeClass(version) == if version < 10 then 0 else if version < 27 then 1 else 2
  {}

  lemma NumericWidth(text: string, size: nat)
    requires size <= 2 && Encodable(Numeric(text), size)
    ensures |BodyBits(Numeric(text), size)| ==
            (if size == 0 then 10 else if size == 1 then 12 else 14) + |DigitBits(text)|
  {}

  lemma AlphanumericWidth(text: string, size: nat)
    requires size <= 2 && Encodable(Alphanumeric(text), size)
    ensures |BodyBits(Alphanumeric(text), size)| ==
            (if size == 0 then 9 else if size == 1 then 11 else 13) + |PairBits(text)|
  {}

  lemma ByteWidth(data: seq<nat>, size: nat)
    requires size <= 2 && Encodable(Bytes(data), size)
    ensures |BodyBits(Bytes(data), size)| == (if size == 0 then 8 else 16) + |ByteBits(data)|
  {}

  lemma KanjiWidth(codes: seq<nat>, size: nat)
    requires size <= 2 && Encodable(Kanji(codes), size)
    ensures |BodyBits(Kanji(codes), size)| ==
            (if size == 0 then 8 else if size == 1 then 10 else 12) + |KanjiBits(codes)|
  {}
}

/** Every message that fits into a symbol can be encoded: its bits, padded with zeros, cut into blocks,
    and each block completed by check codewords. */
module MessageEncoding {
  import opened BitMatrices
  import opened BitStreams
  import opened Codewords
  import opened DataBlocks
  import opened GaloisField
  import opened SegmentEncoding
  import opened Segments
  import opened SymbolDecoder
  import opened SymbolInformation

  // ----- The bits of a message

  predicate AreBits(bits: Bits) {
    forall i :: 0 <= i < |bits| ==> bits[i] < 2
  }

  lemma JoinedBits(a: Bits, b: Bits)
    requires AreBits(a) && AreBits(b)
    ensures AreBits(a + b)
  {}

  lemma {:induction false} NumberIsBits(v: nat, n: nat)
    ensures AreBits(NumberBits(v, n))
    decreases n
  {
    if n > 0 {
      NumberIsBits(v / 2, n - 1);
    }
  }

  lemma {:induction false} DigitsAreBits(text: string)
    requires IsDigits(text)
    ensures AreBits(DigitBits(text))
    decreases |text|
  {
    hide NumberBits, AreBits;
    if |text| >= 3 {
      var v := 100 * DigitValue(text[0]) + 10 * DigitValue(text[1]) + DigitValue(text[2]);
      NumberIsBits(v, 10);
      DigitsAreBits(text[3..]);
      JoinedBits(NumberBits(v, 10), DigitBits(text[3..]));
    } else if |text| == 2 {
      NumberIsBits(10 * DigitValue(text[0]) + DigitValue(text[1]), 7);
    } else if |text| == 1 {
      NumberIsBits(DigitValue(text[0]), 4);
    } else {
      NumberIsBits(0, 0);
      assert NumberBits(0, 0) == [];
    }
  }

  lemma {:induction false} PairsAreBits(text: string)
    requires IsAlphanumeric(text)
    ensures AreBits(PairBits(text))
    decreases |text|
  {
    hide NumberBits, AreBits, CharValue;
    if |text| >= 2 {
      var v := 45 * CharValue(text[0]) + CharValue(text[1]);
      NumberIsBits(v, 11);
      PairsAreBits(text[2..]);
      JoinedBits(NumberBits(v, 11), PairBits(text[2..]));
    } else if |text| == 1 {
      NumberIsBits(CharValue(text[0]), 6);
    } else {
      NumberIsBits(0, 0);
      assert NumberBits(0, 0) == [];
    }
  }

  lemma {:induction false} BytesAreBits(data: seq<nat>)
    ensures AreBits(ByteBits(data))
    decreases |data|
  {
    hide NumberBits;
    if data != [] {
      NumberIsBits(data[0], 8);
      BytesAreBits(data[1..]);
      JoinedBits(NumberBits(data[0], 8), ByteBits(data[1..]));
    }
  }

  lemma {:induction false} KanjiAreBits(codes: seq<nat>)
    requires IsKanji(codes)
    ensures AreBits(KanjiBits(codes))
    decreases |codes|
  {
    hide NumberBits, PackKanji;
    if codes != [] {
      NumberIsBits(PackKanji(codes[0]), 13);
      KanjiAreBits(codes[1..]);
      JoinedBits(NumberBits(PackKanji(codes[0]), 13), KanjiBits(codes[1..]));
    }
  }

  lemma BodyIsBits(c: Chunk, size: nat)
    requires size <= 2 && Encodable(c, size)
    ensures AreBits(BodyBits(c, size))
  {
    hide NumberBits, DigitBits, PairBits, ByteBits, KanjiBits;
    match c
    case Numeric(t) =>
      NumberIsBits(|t|, [10, 12, 14][size]);
      DigitsAreBits(t);
    case Alphanumeric(t) =>
      NumberIsBits(|t|, [9, 11, 13][size]);
      PairsAreBits(t);
    case Bytes(d) =>
      NumberIsBits(|d|, [8, 16, 16][size]);
      BytesAreBits(d);
    case Kanji(codes) =>
      NumberIsBits(|codes|, [8, 10, 12][size]);
      KanjiAreBits(codes);
    case Eci(n) =>
      NumberIsBits(n, 7);
      NumberIsBits(n, 14);
      NumberIsBits(n, 21);
  }

  lemma {:induction false} MessageIsBits(chunks: seq<Chunk>, size: nat)
    requires size <= 2 && forall i :: 0 <= i < |chunks| ==> Encodable(chunks[i], size)
    ensures AreBits(MessageBits(chunks, size))
    decreases |chunks|
  {
    hide NumberBits, BodyBits, Encodable;
    if chunks != [] {
      var head, body, rest := NumberBits(Mode(chunks[0]), 4), BodyBits(chunks[0], size), MessageBits(chunks[1..], size);
      NumberIsBits(Mode(chunks[0]), 4);
      BodyIsBits(chunks[0], size);
      MessageIsBits(chunks[1..], size);
      JoinedBits(body, rest);
      JoinedBits(head, body + rest);
    }
  }

  // ----- Packing bits into bytes

  /** Bit p, or zero beyond the end. */
  function BitOf(bits: Bits, p: nat): (b: nat)
    requires AreBits(bits)
    ensures b < 2
  {
    if p < |bits| then bits[p] else 0
  }

  function PackByte(bits: Bits, k: nat): Byte
    requires AreBits(bits)
  {
    128 * BitOf(bits, 8 * k) + 64 * BitOf(bits, 8 * k + 1) + 32 * BitOf(bits, 8 * k + 2) + 16 * BitOf(bits, 8 * k + 3) +
    8 * BitOf(bits, 8 * k + 4) + 4 * BitOf(bits, 8 * k + 5) + 2 * BitOf(bits, 8 * k + 6) + BitOf(bits, 8 * k + 7)
  }

  function PackBytes(bits: Bits, n: nat): (r: seq<Byte>)
    requires AreBits(bits)
    ensures |r| == n
  {
    seq(n, k requires 0 <= k < n => PackByte(bits, k))
  }

  lemma HalvedBits(b0: nat, b1: nat, b2: nat, b3: nat, b4: nat, b5: nat, b6: nat, b7: nat)
    requires b0 < 2 && b1 < 2 && b2 < 2 && b3 < 2 && b4 < 2 && b5 < 2 && b6 < 2 && b7 < 2
    ensures
      var x := 128 * b0 + 64 * b1 + 32 * b2 + 16 * b3 + 8 * b4 + 4 * b5 + 2 * b6 + b7;
      && Halved(x, 7) % 2 == b0 && Halved(x, 6) % 2 == b1 && Halved(x, 5) % 2 == b2 && Halved(x, 4) % 2 == b3
      && Halved(x, 3) % 2 == b4 && Halved(x, 2) % 2 == b5 && Halved(x, 1) % 2 == b6 && Halved(x, 0) % 2 == b7
  {
    var x := 128 * b0 + 64 * b1 + 32 * b2 + 16 * b3 + 8 * b4 + 4 * b5 + 2 * b6 + b7;
    assert Halved(x, 1) == 64 * b0 + 32 * b1 + 16 * b2 + 8 * b3 + 4 * b4 + 2 * b5 + b6;
    assert Halved(x, 2) == 32 * b0 + 16 * b1 + 8 * b2 + 4 * b3 + 2 * b4 + b5;
    assert Halved(x, 3) == 16 * b0 + 8 * b1 + 4 * b2 + 2 * b3 + b4;
    assert Halved(x, 4) == 8 * b0 + 4 * b1 + 2 * b2 + b3;
    assert Halved(x, 5) == 4 * b0 + 2 * b1 + b2;
    assert Halved(x, 6) == 2 * b0 + b1;
    assert Halved(x, 7) == b0;
  }

  /** Each bit is read back. */
  lemma PackedBit(bits: Bits, n: nat, p: nat)
    requires AreBits(bits) && p < 8 * n
    ensures BitAt(PackBytes(bits, n), p) == BitOf(bits, p)
  {
    hide BitOf, AreBits, Halved;
    var k, r := p / 8, p % 8;
    HalvedBits(BitOf(bits, 8 * k), BitOf(bits, 8 * k + 1), BitOf(bits, 8 * k + 2), BitOf(bits, 8 * k + 3),
               BitOf(bits, 8 * k + 4), BitOf(bits, 8 * k + 5), BitOf(bits, 8 * k + 6), BitOf(bits, 8 * k + 7));
    assert p == 8 * k + r;
  }

  lemma {:induction false} ZeroField(bytes: seq<Byte>, p: nat, n: nat)
    requires p + n <= 8 * |bytes| && forall i: nat :: p <= i < p + n ==> BitAt(bytes, i) == 0
    ensures Field(bytes, p, n) == 0
    decreases n
  {
    hide BitAt;
    if n > 0 {
      ZeroField(bytes, p, n - 1);
    }
  }

  lemma PackedHolds(bits: Bits, n: nat)
    requires AreBits(bits) && |bits| <= 8 * n
    ensures Holds(PackBytes(bits, n), 0, bits) && Terminated(PackBytes(bits, n), |bits|)
  {
    hide BitAt, PackBytes, Field;
    var bytes := PackBytes(bits, n);
    forall p: nat | p < 8 * n ensures BitAt(bytes, p) == BitOf(bits, p) {
      PackedBit(bits, n, p);
    }
    ZeroField(bytes, |bits|, if 8 * n - |bits| >= 4 then 4 else 8 * n - |bits|);
  }

  // ----- Cutting into blocks

  /** The number of data codewords of the first n blocks. */
  function Capacity(info: EcInfo, n: nat): nat
    requires |info.ecBlocks| > 0
  {
    if n == 0 then 0 else Capacity(info, n - 1) + info.DataSize(n - 1)
  }

  lemma {:induction false} CutBlocks(words: seq<GF>, info: EcInfo, n: nat) returns (data: seq<seq<GF>>)
    requires |info.ecBlocks| > 0 && |words| == Capacity(info, n)
    ensures |data| == n && Flatten(data) == words && forall b: nat :: b < n ==> |data[b]| == info.DataSize(b)
    decreases n
  {
    hide EcInfo.DataSize;
    data := [];
    if n > 0 {
      var k := Capacity(info, n - 1);
      var before := CutBlocks(words[..k], info, n - 1);
      data := before + [words[k..]];
      assert data[..n - 1] == before;
    }
  }

  lemma {:induction false} FlattenLength(data: seq<seq<GF>>, info: EcInfo)
    requires |info.ecBlocks| > 0 && forall b: nat :: b < |data| ==> |data[b]| == info.DataSize(b)
    ensures |Flatten(data)| == Capacity(info, |data|)
    decreases |data|
  {
    hide EcInfo.DataSize;
    if data != [] {
      FlattenLength(data[..|data| - 1], info);
    }
  }

  lemma {:induction false} CheckBlocks(data: seq<seq<GF>>, m: nat) returns (check: seq<seq<GF>>)
    ensures |check| == |data|
    ensures forall b: nat :: b < |data| ==> |check[b]| == m && IsCodeword(data[b] + check[b], m)
    decreases |data|
  {
    hide IsCodeword;
    check := [];
    if data != [] {
      var n := |data| - 1;
      var before := CheckBlocks(data[..n], m);
      var last := CheckSymbols(data[n], m);
      check := before + [last];
    }
  }

  lemma NextValue(x: GF)
    requires x as int < 255
    ensures (x + 1) as int == x as int + 1
  {}

  /** The field element with a value, by counting. */
  function Counted(n: nat): (x: GF)
    requires n < 256
    ensures x as int == n
  {
    if n == 0 then 0
    else
      NextValue(Counted(n - 1));
      Counted(n - 1) + 1
  }

  function FromBytes(bytes: seq<Byte>): (r: seq<GF>)
    ensures |r| == |bytes|
  {
    seq(|bytes|, i requires 0 <= i < |bytes| => Counted(bytes[i]))
  }

  lemma FromBytesBack(bytes: seq<Byte>)
    ensures ToBytes(FromBytes(bytes)) == bytes
  {}

  // ----- The capacity of a symbol

  /** The message fits: its segments can be written, its bits are within the data codewords, and no
      block exceeds the length of the code. */
  ghost predicate Fits(chunks: seq<Chunk>, version: Version, info: EcInfo) {
    var size := SizeClass(version.versionNumber);
    && info.Valid()
    && (forall b: nat :: b < info.Count() ==> info.DataSize(b) + info.ecCodewordsPerBlock <= 255)
    && (forall i :: 0 <= i < |chunks| ==> Encodable(chunks[i], size))
    && |MessageBits(chunks, size)| <= 8 * Capacity(info, info.Count())
  }

  /** A message has an encoding exactly when it fits. */
  lemma EncodedIff(chunks: seq<Chunk>, version: Version, info: EcInfo)
    ensures Fits(chunks, version, info) <==>
            exists data: seq<seq<GF>>, check: seq<seq<GF>> :: Encodes(chunks, data, check, version, info)
  {
    hide Encodable, MessageBits, IsCodeword, Holds, Terminated, Flatten, ToBytes, Capacity, AreBits;
    if Fits(chunks, version, info) {
      var size, n := SizeClass(version.versionNumber), Capacity(info, info.Count());
      var bits := MessageBits(chunks, size);
      MessageIsBits(chunks, size);
      var bytes := PackBytes(bits, n);
      PackedHolds(bits, n);
      FromBytesBack(bytes);
      var data := CutBlocks(FromBytes(bytes), info, info.Count());
      var check := CheckBlocks(data, info.ecCodewordsPerBlock);
      assert Encodes(chunks, data, check, version, info);
    }
    if data: seq<seq<GF>>, check: seq<seq<GF>> :| Encodes(chunks, data, check, version, info) {
      FlattenLength(data, info);
    }
  }
}

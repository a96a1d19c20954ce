/** From the modules of a symbol to its message: reading, error correction and decoding together. */
module SymbolDecoder {
  import opened BitMatrices
  import opened BitStreams
  import opened BitWords
  import opened Codewords
  import opened CodewordReader
  import opened DataBlocks
  import opened GaloisField
  import opened SegmentEncoding
  import opened Segments
  import opened SymbolInformation
  import opened Wrappers

  function Element(n: nat): GF
    requires n < 256
  {
    n as GF
  }

  function AsByte(x: GF): Byte {
    ByteToInt(x, x);
    x as int
  }

  function ToBytes(s: seq<GF>): (r: seq<Byte>)
    ensures |r| == |s|
  {
    seq(|s|, i requires 0 <= i < |s| => AsByte(s[i]))
  }

  predicate AreBytes(codewords: seq<nat>) {
    forall i :: 0 <= i < |codewords| ==> codewords[i] < 256
  }

  function ToField(codewords: seq<nat>): seq<GF>
    requires AreBytes(codewords)
  {
    seq(|codewords|, i requires 0 <= i < |codewords| => Element(codewords[i]))
  }

  lemma {:induction false} ValueBelow(bits: seq<bool>, bound: nat)
    requires bound == Power2(|bits|)
    ensures BitsValue(bits) < bound
  {
    if |bits| > 0 {
      ValueBelow(bits[..|bits| - 1], Power2(|bits| - 1));
    }
  }

  function Power2(n: nat): nat {
    if n == 0 then 1 else 2 * Power2(n - 1)
  }

  lemma PackedAreBytes(bits: seq<bool>)
    ensures AreBytes(Pack(bits))
  {
    hide BitsValue;
    assert Power2(8) == 256 by {
      assert Power2(4) == 16;
    }
    forall k | 0 <= k < |bits| / 8 ensures Pack(bits)[k] < 256 {
      ValueBelow(bits[8 * k..8 * k + 8], 256);
    }
  }

  /** The codewords of the modules: read in walk order, unmasked and packed. */
  ghost function CodewordsOf(dimension: nat, dark: iset<Point>, version: Version, mask: nat): seq<GF>
    requires mask < 8
  {
    var bits := ReadModules(DataModules(FullWalk(dimension), version), dark, mask);
    PackedAreBytes(bits);
    ToField(Pack(bits))
  }

  /** data and check are the blocks of an encoded message: its bits, then a terminator, cut into
      blocks, each with check codewords that make it a codeword. */
  ghost predicate Encodes(chunks: seq<Chunk>, data: seq<seq<GF>>, check: seq<seq<GF>>, version: Version, info: EcInfo) {
    var bytes, size := ToBytes(Flatten(data)), SizeClass(version.versionNumber);
    && Shaped(data, check, info)
    && (forall b: nat :: b < info.Count() ==>
                           info.DataSize(b) + info.ecCodewordsPerBlock <= 255 &&
                           IsCodeword(data[b] + check[b], info.ecCodewordsPerBlock))
    && (forall i :: 0 <= i < |chunks| ==> Encodable(chunks[i], size))
    && |MessageBits(chunks, size)| <= 8 * |bytes|
    && Holds(bytes, 0, MessageBits(chunks, size)) && Terminated(bytes, |MessageBits(chunks, size)|)
  }

  /** No block of the received codewords has more than half its check length of wrong ones. */
  ghost predicate FewErrors(data: seq<seq<GF>>, check: seq<seq<GF>>, received: seq<GF>, info: EcInfo) {
    Shaped(data, check, info) &&
    (InterleavedLength(data, check, info);
     && |received| >= info.Total()
     && forall b: nat :: b < info.Count() ==>
                           2 * BadCodewords(Interleave(data, check, info), received, info, b) <=
                           info.ecCodewordsPerBlock)
  }

  lemma EncodedIsRecoverable(chunks: seq<Chunk>, data: seq<seq<GF>>, check: seq<seq<GF>>, received: seq<GF>,
                             version: Version, info: EcInfo)
    requires Encodes(chunks, data, check, version, info) && FewErrors(data, check, received, info)
    ensures Recoverable(received, data, check, info)
    ensures ParseSegments(ToBytes(Flatten(data)), 0, SizeClass(version.versionNumber)) == Some(chunks)
  {
    hide Interleave, BadCodewords, Recoverable, IsCodeword, Holds, MessageBits, Terminated, ParseSegments, Flatten,
      Encodable, ToBytes;
    InterleavedLength(data, check, info);
    FewBadCodewords(received, data, check, info);
    DecodingInvertsEncoding(ToBytes(Flatten(data)), 0, chunks, SizeClass(version.versionNumber));
  }

  method ToFieldArray(codewords: seq<nat>) returns (r: seq<GF>)
    requires AreBytes(codewords)
    ensures r == ToField(codewords)
  {
    hide Element;
    r := [];
    for i := 0 to |codewords|
      invariant r == ToField(codewords)[..i]
    {
      r := r + [Element(codewords[i])];
    }
  }

  /** Decodes a symbol whose version, block layout and mask are known. Whatever message was encoded,
      if no block has more errors than half its check length, exactly that message comes out. */
  method DecodeCodewords(matrix: BitMatrix, version: Version, mask: nat, info: EcInfo)
    returns (bytes: seq<nat>, r: Option<seq<Chunk>>)
    requires matrix.Valid() && version.Valid() && mask < 8 && info.Valid() && info.ecCodewordsPerBlock <= 256
    ensures forall chunks: seq<Chunk>, data: seq<seq<GF>>, check: seq<seq<GF>> ::
              Encodes(chunks, data, check, version, info) &&
              FewErrors(data, check, CodewordsOf(matrix.height, Dark(matrix), version, mask), info) ==>
                r == Some(chunks) && bytes == AllBytes(chunks)
  {
    hide *;
    ghost var dark := Dark(matrix);
    ghost var received := CodewordsOf(matrix.height, dark, version, mask);
    var raw := ReadCodewords(matrix, version, mask);
    RawCodewords(matrix.height, dark, version, mask, raw);
    var codewords := ToFieldArray(raw);
    var recovered := RecoverData(codewords, info);
    if recovered == None {
      bytes, r := [], None;
    } else {
      bytes, r := DecodeData(ToBytes(recovered.value), version.versionNumber);
    }
    forall chunks: seq<Chunk>, data: seq<seq<GF>>, check: seq<seq<GF>>
      | Encodes(chunks, data, check, version, info) && FewErrors(data, check, received, info)
      ensures r == Some(chunks) && bytes == AllBytes(chunks)
    {
      EncodedIsRecoverable(chunks, data, check, received, version, info);
    }
  }

  lemma RawCodewords(dimension: nat, dark: iset<Point>, version: Version, mask: nat, raw: seq<nat>)
    requires mask < 8 && raw == Pack(ReadModules(DataModules(FullWalk(dimension), version), dark, mask))
    ensures AreBytes(raw) && ToField(raw) == CodewordsOf(dimension, dark, version, mask)
  {
    hide ReadModules, DataModules, FullWalk, Pack, AreBytes, ToField;
    PackedAreBytes(ReadModules(DataModules(FullWalk(dimension), version), dark, mask));
  }

  /** The modules drawn for any bits read back as the codewords of those bits, so a symbol that is drawn
      and then damaged in few enough codewords of each block is decoded to what it was drawn for. */
  lemma DrawnCodewords(version: Version, bits: seq<bool>, mask: nat)
    requires version.Valid() && mask < 8
    requires |bits| == |DataModules(FullWalk(version.Dimension()), version)|
    ensures AreBytes(Pack(bits))
    ensures CodewordsOf(version.Dimension(), Place(DataModules(FullWalk(version.Dimension()), version), bits, mask),
                        version, mask) == ToField(Pack(bits))
  {
    hide ReadModules, DataModules, FullWalk, Pack, AreBytes, ToField, Place;
    PlacedBitsAreReadBack(version, bits, mask);
    PackedAreBytes(bits);
  }

  // ----- Whole symbols

  /** An entry of the version table: the version, and its block layout for each level. */
  datatype VersionEntry = VersionEntry(version: Version, errorCorrectionLevels: seq<EcInfo>)

  ghost predicate ValidTable(versions: seq<VersionEntry>) {
    |versions| == 40 &&
    forall v: nat :: v < 40 ==>
                       && versions[v].version.Valid() && versions[v].version.versionNumber == v + 1
                       && |versions[v].errorCorrectionLevels| == 4
                       && forall l: nat :: l < 4 ==>
                                             versions[v].errorCorrectionLevels[l].Valid() &&
                                             versions[v].errorCorrectionLevels[l].ecCodewordsPerBlock <= 256
  }

  /** The symbol has the size of version v + 1, or states it in two copies with at most three wrong bits
      each, and so it states format f. */
  ghost predicate States(matrix: BitMatrix, v: nat, f: nat)
    requires matrix.Valid()
    reads matrix.data
  {
    var h: int := matrix.height;
    && v < 40 && f < 32
    && (if SizeVersion(h) <= 6 then SizeVersion(h) == v + 1
        else
          && v >= 6
          && Hamming(BitsAt(matrix, TopRightVersion(h)), VersionWord(v + 1)) <= TOLERANCE
          && Hamming(BitsAt(matrix, BottomLeftVersion(h)), VersionWord(v + 1)) <= TOLERANCE)
    && Hamming(BitsAt(matrix, TOP_LEFT_FORMAT), FormatWord(f)) <= TOLERANCE
    && Hamming(BitsAt(matrix, OtherFormat(h)), FormatWord(f)) <= TOLERANCE
  }

  function LevelOf(f: nat): (l: nat)
    requires f < 32
    ensures l < 4
  {
    [1, 0, 3, 2][f / 8]
  }

  /** What the version reader finds is what the symbol states. */
  lemma StatedVersionIsRead(matrix: BitMatrix, v: nat, f: nat, version: Option<nat>)
    requires matrix.Valid() && States(matrix, v, f)
    requires SizeVersion(matrix.height) <= 6 ==>
               version == if 1 <= SizeVersion(matrix.height) then Some(SizeVersion(matrix.height) - 1) else None
    requires SizeVersion(matrix.height) > 6 ==>
               IsNearest(VersionWords(), BitsValue(BitsAt(matrix, TopRightVersion(matrix.height))),
                         BitsValue(BitsAt(matrix, BottomLeftVersion(matrix.height))), version)
    ensures version == Some(v)
  {
    hide BitsValue, Hamming, VersionWord, FormatWord, IsNearest, BitMatrix.At;
    var h: int := matrix.height;
    if SizeVersion(h) > 6 {
      VersionRecovered(BitsAt(matrix, TopRightVersion(h)), BitsAt(matrix, BottomLeftVersion(h)), v + 1, version);
    }
  }

  lemma StatedFormatIsRead(matrix: BitMatrix, v: nat, f: nat, format: Option<nat>)
    requires matrix.Valid() && States(matrix, v, f)
    requires IsNearest(FormatWords(), BitsValue(BitsAt(matrix, TOP_LEFT_FORMAT)),
                       BitsValue(BitsAt(matrix, OtherFormat(matrix.height))), format)
    ensures format == Some(f)
  {
    hide BitsValue, Hamming, VersionWord, FormatWord, IsNearest, BitMatrix.At;
    FormatRecovered(BitsAt(matrix, TOP_LEFT_FORMAT), BitsAt(matrix, OtherFormat(matrix.height)), f, format);
  }

  lemma FormatOf(f: nat)
    requires f < 32
    ensures FORMAT_INFO_TABLE[f].errorCorrectionLevel == LevelOf(f) && FORMAT_INFO_TABLE[f].dataMask == f % 8
  {
    FormatTable(f);
  }

  lemma NearestInRange(words: seq<nat>, a: nat, b: nat, r: Option<nat>)
    requires IsNearest(words, a, b, r)
    ensures r.Some? ==> r.value < |words|
  {}

  /** Decodes a symbol. If it states a version and a format with at most three wrong bits in each copy, and
      was drawn for a message of which no block has more errors than half its check length, exactly that
      message comes out. */
  method DecodeMatrix(matrix: BitMatrix, versions: seq<VersionEntry>) returns (bytes: seq<nat>, r: Option<seq<Chunk>>)
    requires matrix.Valid() && ValidTable(versions)
    ensures forall v: nat, f: nat, chunks: seq<Chunk>, data: seq<seq<GF>>, check: seq<seq<GF>> ::
              States(matrix, v, f) &&
              Encodes(chunks, data, check, versions[v].version, versions[v].errorCorrectionLevels[LevelOf(f)]) &&
              FewErrors(data, check, CodewordsOf(matrix.height, Dark(matrix), versions[v].version, f % 8),
                        versions[v].errorCorrectionLevels[LevelOf(f)]) ==>
                r == Some(chunks) && bytes == AllBytes(chunks)
  {
    hide Encodes, FewErrors, CodewordsOf, Dark, AllBytes, IsNearest, BitsValue, BitsAt, Hamming, VersionWord,
      FormatWord,
      VersionWords, FormatWords, TopRightVersion, BottomLeftVersion, OtherFormat, States, LevelOf;
    var version := ReadVersion(matrix);
    forall v: nat, f: nat | States(matrix, v, f) ensures version == Some(v) {
      StatedVersionIsRead(matrix, v, f, version);
    }
    if version == None {
      return [], None;
    }
    if SizeVersion(matrix.height) > 6 {
      NearestInRange(VersionWords(), BitsValue(BitsAt(matrix, TopRightVersion(matrix.height))),
                     BitsValue(BitsAt(matrix, BottomLeftVersion(matrix.height))), version);
    }
    var format := ReadFormatInformation(matrix);
    forall v: nat, f: nat | States(matrix, v, f) ensures format == Some(f) {
      StatedFormatIsRead(matrix, v, f, format);
    }
    if format == None {
      return [], None;
    }
    NearestInRange(FormatWords(), BitsValue(BitsAt(matrix, TOP_LEFT_FORMAT)),
                   BitsValue(BitsAt(matrix, OtherFormat(matrix.height))), format);
    var entry := versions[version.value];
    FormatOf(format.value);
    var level, mask := FORMAT_INFO_TABLE[format.value].errorCorrectionLevel, FORMAT_INFO_TABLE[format.value].dataMask;
    bytes, r := DecodeCodewords(matrix, entry.version, mask, entry.errorCorrectionLevels[level]);
  }

  /** The symbol states a version and a format and was drawn for this message, with few errors. */
  ghost predicate Shows(matrix: BitMatrix, versions: seq<VersionEntry>, chunks: seq<Chunk>)
    requires matrix.Valid() && ValidTable(versions)
    reads matrix.data
  {
    exists v: nat, f: nat, data: seq<seq<GF>>, check: seq<seq<GF>> ::
      States(matrix, v, f) &&
      Encodes(chunks, data, check, versions[v].version, versions[v].errorCorrectionLevels[LevelOf(f)]) &&
      FewErrors(data, check, CodewordsOf(matrix.height, Dark(matrix), versions[v].version, f % 8),
                versions[v].errorCorrectionLevels[LevelOf(f)])
  }

  /** Mirrors a square symbol at the line from the top left to the bottom right. */
  method Mirror(matrix: BitMatrix)
    requires matrix.Valid() && matrix.width == matrix.height
    modifies matrix.data
    ensures forall a, b :: matrix.At(a, b) == old(matrix.At(b, a))
  {
    hide BitMatrix.At;
    Outside(matrix);
    for x := 0 to matrix.width
      invariant forall a, b :: matrix.At(a, b) == if a < x || b < x then old(matrix.At(b, a)) else old(matrix.At(a, b))
    {
      for y := x + 1 to matrix.height
        invariant forall a, b ::
            matrix.At(a, b) == if a < x || b < x || (a == x && b < y) || (b == x && a < y) then old(matrix.At(b, a))
            else old(matrix.At(a, b))
      {
        if matrix.At(x, y) != matrix.At(y, x) {
          matrix.Set(x, y, !matrix.At(x, y));
          matrix.Set(y, x, !matrix.At(y, x));
        }
      }
    }
  }

  lemma Outside(matrix: BitMatrix)
    requires matrix.Valid()
    ensures forall a, b :: matrix.At(a, b) ==> matrix.InGrid(a, b)
  {}

  /** Decodes a symbol as it is, or else its mirror image: a message that it shows is the result, and so is
      one that its mirror image shows unless the first attempt already gives something. */
  method Decode(matrix: BitMatrix, versions: seq<VersionEntry>)
    returns (attempts: nat, bytes: seq<nat>, r: Option<seq<Chunk>>)
    requires matrix.Valid() && matrix.width == matrix.height && ValidTable(versions)
    modifies matrix.data
    ensures attempts == 1 || attempts == 2
    ensures attempts == 1 ==> r.Some? && forall a, b :: matrix.At(a, b) == old(matrix.At(a, b))
    ensures attempts == 2 ==> forall a, b :: matrix.At(a, b) == old(matrix.At(b, a))
    ensures forall chunks: seq<Chunk> :: old(Shows(matrix, versions, chunks)) ==>
                                           attempts == 1 && r == Some(chunks) && bytes == AllBytes(chunks)
    ensures forall chunks: seq<Chunk> :: attempts == 2 && Shows(matrix, versions, chunks) ==>
                                           r == Some(chunks) && bytes == AllBytes(chunks)
  {
    hide States, Encodes, FewErrors, CodewordsOf, Dark, AllBytes, LevelOf, BitMatrix.At, ValidTable;
    bytes, r := DecodeMatrix(matrix, versions);
    attempts := 1;
    if r == None {
      Mirror(matrix);
      bytes, r := DecodeMatrix(matrix, versions);
      attempts := 2;
    }
  }
}

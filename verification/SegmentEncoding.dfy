/** The encodings of sections 7.4.2 to 7.4.6 of ISO/IEC 18004:2015, and the proof that the segment
    decoders invert them for every list of segments. */
module SegmentEncoding {
  import opened Wrappers
  import opened BitStreams
  import opened Segments

  type Bits = seq<nat>

  /** v as n bits, highest first. */
  function NumberBits(v: nat, n: nat): Bits
    ensures |NumberBits(v, n)| == n
    decreases n
  {
    if n == 0 then [] else NumberBits(v / 2, n - 1) + [v % 2]
  }

  /** The data holds the given bits from position p on. */
  ghost predicate Holds(b: seq<Byte>, p: nat, bits: Bits) {
    p + |bits| <= 8 * |b| && forall i: nat :: i < |bits| ==> BitAt(b, p + i) == bits[i]
  }

  lemma HoldsSplit(b: seq<Byte>, p: nat, x: Bits, y: Bits)
    requires Holds(b, p, x + y)
    ensures Holds(b, p, x) && Holds(b, p + |x|, y)
  {
    hide BitAt;
    forall i: nat | i < |x| ensures BitAt(b, p + i) == x[i] {
      assert (x + y)[i] == x[i];
    }
    forall i: nat | i < |y| ensures BitAt(b, p + |x| + i) == y[i] {
      assert (x + y)[|x| + i] == y[i];
      assert p + (|x| + i) == p + |x| + i;
    }
  }

  lemma HoldsBit(b: seq<Byte>, p: nat, x: nat)
    requires Holds(b, p, [x])
    ensures p < 8 * |b| && BitAt(b, p) == x
  {
    assert BitAt(b, p + 0) == [x][0];
  }

  lemma {:induction false} HalfBound(v: nat, n: nat)
    requires n > 0 && v < Scaled(1, n)
    ensures v / 2 < Scaled(1, n - 1)
  {}

  lemma {:induction false} FieldHolds(b: seq<Byte>, p: nat, v: nat, n: nat)
    requires Holds(b, p, NumberBits(v, n)) && v < Scaled(1, n)
    ensures Field(b, p, n) == v
    decreases n
  {
    hide BitAt, Scaled;
    if n == 0 {
      assert v == 0 by { ScaledNext(1, 0); }
    } else {
      HoldsSplit(b, p, NumberBits(v / 2, n - 1), [v % 2]);
      assert p + |NumberBits(v / 2, n - 1)| == p + n - 1;
      HalfBound(v, n);
      FieldHolds(b, p, v / 2, n - 1);
      HoldsBit(b, p + n - 1, v % 2);
    }
  }

  lemma FieldSizes()
    ensures Scaled(1, 1) == 2 && Scaled(1, 4) == 16 && Scaled(1, 6) == 64 && Scaled(1, 7) == 128 && Scaled(1, 8) == 256
    ensures Scaled(1, 10) == 1024 && Scaled(1, 11) == 2048 && Scaled(1, 13) == 8192 && Scaled(1, 14) == 16384
  {
    hide Scaled;
    ScaledLiteral(1);
    ScaledLiteral(256);
    ScaledAdd(1, 8, 2);
    ScaledAdd(1, 8, 3);
    ScaledAdd(1, 8, 5);
    ScaledAdd(1, 8, 6);
  }

  // ----- Encodings of the segment data

  predicate IsDigits(text: string) {
    forall i :: 0 <= i < |text| ==> '0' <= text[i] <= '9'
  }

  function DigitValue(c: char): nat
    requires '0' <= c <= '9'
  {
    c as int - '0' as int
  }

  function DigitBits(text: string): Bits
    requires IsDigits(text)
  {
    if |text| >= 3 then
      NumberBits(100 * DigitValue(text[0]) + 10 * DigitValue(text[1]) + DigitValue(text[2]), 10) + DigitBits(text[3..])
    else if |text| == 2 then NumberBits(10 * DigitValue(text[0]) + DigitValue(text[1]), 7)
    else if |text| == 1 then NumberBits(DigitValue(text[0]), 4)
    else []
  }

  predicate IsAlphanumeric(text: string) {
    forall i :: 0 <= i < |text| ==> text[i] in ALPHANUMERIC
  }

  /** The value of a character in table 5 of the standard. */
  ghost function CharValue(c: char): nat
    requires c in ALPHANUMERIC
    ensures CharValue(c) < 45 && ALPHANUMERIC[CharValue(c)] == c
  {
    assert |ALPHANUMERIC| == 45;
    var i :| 0 <= i < |ALPHANUMERIC| && ALPHANUMERIC[i] == c;
    i
  }

  ghost function PairBits(text: string): Bits
    requires IsAlphanumeric(text)
  {
    if |text| >= 2 then NumberBits(45 * CharValue(text[0]) + CharValue(text[1]), 11) + PairBits(text[2..])
    else if |text| == 1 then NumberBits(CharValue(text[0]), 6)
    else []
  }

  predicate IsBytes(data: seq<nat>) {
    forall i :: 0 <= i < |data| ==> data[i] < 256
  }

  function ByteBits(data: seq<nat>): Bits {
    if |data| == 0 then [] else NumberBits(data[0], 8) + ByteBits(data[1..])
  }

  /** The double-byte Shift JIS codes of the standard. */
  predicate IsKanji(codes: seq<nat>) {
    forall i :: 0 <= i < |codes| ==>
                  && (0x8140 <= codes[i] <= 0x9FFC || 0xE040 <= codes[i] <= 0xEBBF)
                  && 0x40 <= codes[i] % 256 <= 0xFC
  }

  /** Subtract the range base, multiply the high byte by 192 and add the low byte. */
  function PackKanji(c: nat): nat
    requires c >= 0x8140
  {
    var x := if c <= 0x9FFC then c - 0x8140 else if c >= 0xC140 then c - 0xC140 else 0;
    x / 256 * 0xC0 + x % 256
  }

  lemma KanjiRoundTrip(c: nat)
    requires 0x8140 <= c <= 0x9FFC || 0xE040 <= c <= 0xEBBF
    requires 0x40 <= c % 256 <= 0xFC
    ensures PackKanji(c) < 8192 && KanjiCode(PackKanji(c)) == c
  {
    var x := if c <= 0x9FFC then c - 0x8140 else c - 0xC140;
    assert x % 256 < 0xC0;
    assert PackKanji(c) / 0xC0 == x / 256 && PackKanji(c) % 0xC0 == x % 256;
  }

  function KanjiBits(codes: seq<nat>): Bits
    requires IsKanji(codes)
  {
    if |codes| == 0 then [] else NumberBits(PackKanji(codes[0]), 13) + KanjiBits(codes[1..])
  }

  // ----- The decoders invert them

  lemma ThreeDigitValue(text: string)
    requires IsDigits(text) && |text| >= 3
    ensures var n := 100 * DigitValue(text[0]) + 10 * DigitValue(text[1]) + DigitValue(text[2]);
            n < 1000 && ThreeDigits(n) == text[..3]
  {
    var x, y, z := DigitValue(text[0]), DigitValue(text[1]), DigitValue(text[2]);
    var n := 100 * x + 10 * y + z;
    assert n / 100 == x && n / 10 == 10 * x + y && n % 10 == z;
  }

  lemma TwoDigitValue(text: string)
    requires IsDigits(text) && |text| == 2
    ensures var n := 10 * DigitValue(text[0]) + DigitValue(text[1]);
            n < 100 && TwoDigits(n) == text
  {
    var x, y := DigitValue(text[0]), DigitValue(text[1]);
    assert (10 * x + y) / 10 == x && (10 * x + y) % 10 == y;
  }

  lemma PairOfValues(x: nat, y: nat)
    requires x < 45 && y < 45
    ensures 45 * x + y < 2025 && (45 * x + y) / 45 == x && Pair(45 * x + y) == [ALPHANUMERIC[x], ALPHANUMERIC[y]]
  {
    assert (45 * x + y) / 45 == x && (45 * x + y) % 45 == y;
  }

  lemma {:induction false} ParseDigitsInverts(b: seq<Byte>, p: nat, text: string)
    requires IsDigits(text) && Holds(b, p, DigitBits(text))
    ensures ParseDigits(b, p, |text|) == Some((text, p + |DigitBits(text)|))
    decreases |text|
  {
    hide Field, BitAt, Holds, NumberBits, ThreeDigits, TwoDigits, Digit;
    FieldSizes();
    HoldsInRange(b, p, DigitBits(text));
    if |text| >= 3 {
      var n := 100 * DigitValue(text[0]) + 10 * DigitValue(text[1]) + DigitValue(text[2]);
      HoldsSplit(b, p, NumberBits(n, 10), DigitBits(text[3..]));
      ThreeDigitValue(text);
      FieldHolds(b, p, n, 10);
      ParseDigitsInverts(b, p + 10, text[3..]);
      assert text == text[..3] + text[3..];
    } else if |text| == 2 {
      var n := 10 * DigitValue(text[0]) + DigitValue(text[1]);
      FieldHolds(b, p, n, 7);
      TwoDigitValue(text);
    } else if |text| == 1 {
      FieldHolds(b, p, DigitValue(text[0]), 4);
      DigitOfValue(text[0]);
      assert text == [text[0]];
    }
  }

  lemma DigitOfValue(c: char)
    requires '0' <= c <= '9'
    ensures DigitValue(c) < 10 && Digit(DigitValue(c)) == c
  {}

  lemma HoldsInRange(b: seq<Byte>, p: nat, bits: Bits)
    requires Holds(b, p, bits)
    ensures p + |bits| <= 8 * |b|
  {}

  lemma FirstPair(b: seq<Byte>, p: nat, text: string)
    requires IsAlphanumeric(text) && |text| >= 2 && Holds(b, p, PairBits(text))
    ensures |PairBits(text)| == 11 + |PairBits(text[2..])| && Holds(b, p + 11, PairBits(text[2..]))
    ensures p + 11 <= 8 * |b| && Field(b, p, 11) / 45 < 45 && Pair(Field(b, p, 11)) == [text[0], text[1]]
  {
    hide Field, BitAt, Holds, NumberBits, CharValue, Pair, ALPHANUMERIC;
    FieldSizes();
    HoldsInRange(b, p, PairBits(text));
    var x, y := CharValue(text[0]), CharValue(text[1]);
    HoldsSplit(b, p, NumberBits(45 * x + y, 11), PairBits(text[2..]));
    FieldHolds(b, p, 45 * x + y, 11);
    PairOfValues(x, y);
  }

  lemma {:induction false} ParsePairsInverts(b: seq<Byte>, p: nat, text: string)
    requires IsAlphanumeric(text) && Holds(b, p, PairBits(text))
    ensures ParsePairs(b, p, |text|) == Some((text, p + |PairBits(text)|))
    decreases |text|
  {
    hide Field, BitAt, Holds, NumberBits, CharValue, Pair, ALPHANUMERIC;
    HoldsInRange(b, p, PairBits(text));
    if |text| >= 2 {
      FirstPair(b, p, text);
      ParsePairsInverts(b, p + 11, text[2..]);
      assert text == [text[0], text[1]] + text[2..];
    } else if |text| == 1 {
      FieldSizes();
      FieldHolds(b, p, CharValue(text[0]), 6);
      assert text == [text[0]];
    }
  }

  lemma {:induction false} ParseBytesInverts(b: seq<Byte>, p: nat, data: seq<nat>)
    requires IsBytes(data) && Holds(b, p, ByteBits(data))
    ensures ParseBytes(b, p, |data|) == Some((data, p + |ByteBits(data)|))
    decreases |data|
  {
    hide Field, BitAt, Holds, NumberBits;
    FieldSizes();
    HoldsInRange(b, p, ByteBits(data));
    if |data| > 0 {
      HoldsSplit(b, p, NumberBits(data[0], 8), ByteBits(data[1..]));
      FieldHolds(b, p, data[0], 8);
      ParseBytesInverts(b, p + 8, data[1..]);
      assert data == [data[0]] + data[1..];
    }
  }

  lemma {:induction false} ParseKanjiInverts(b: seq<Byte>, p: nat, codes: seq<nat>)
    requires IsKanji(codes) && Holds(b, p, KanjiBits(codes))
    ensures ParseKanji(b, p, |codes|) == Some((codes, p + |KanjiBits(codes)|))
    decreases |codes|
  {
    hide Field, BitAt, Holds, NumberBits, KanjiCode, PackKanji;
    FieldSizes();
    HoldsInRange(b, p, KanjiBits(codes));
    if |codes| > 0 {
      HoldsSplit(b, p, NumberBits(PackKanji(codes[0]), 13), KanjiBits(codes[1..]));
      KanjiRoundTrip(codes[0]);
      FieldHolds(b, p, PackKanji(codes[0]), 13);
      ParseKanjiInverts(b, p + 13, codes[1..]);
      assert codes == [codes[0]] + codes[1..];
    }
  }

  // ----- Whole messages

  /** Values an encoder can write in a symbol of the given size class. */
  ghost predicate Encodable(c: Chunk, size: nat)
    requires size <= 2
  {
    match c
    case Numeric(t) => IsDigits(t) && |t| < Scaled(1, [10, 12, 14][size])
    case Alphanumeric(t) => IsAlphanumeric(t) && |t| < Scaled(1, [9, 11, 13][size])
    case Bytes(d) => IsBytes(d) && |d| < Scaled(1, [8, 16, 16][size])
    case Kanji(codes) => IsKanji(codes) && |codes| < Scaled(1, [8, 10, 12][size])
    case Eci(n) => 0 <= n < Scaled(1, 21)
  }

  /** The shortest of the three designator lengths that holds n. */
  function EciBits(n: nat): Bits {
    if n < 128 then [0] + NumberBits(n, 7)
    else if n < 16384 then [1, 0] + NumberBits(n, 14)
    else [1, 1, 0] + NumberBits(n, 21)
  }

  function Mode(c: Chunk): nat {
    match c
    case Numeric(_) => 1
    case Alphanumeric(_) => 2
    case Bytes(_) => 4
    case Kanji(_) => 8
    case Eci(_) => 7
  }

  /** Character count indicator and data; the designator for an ECI. */
  ghost function BodyBits(c: Chunk, size: nat): Bits
    requires size <= 2 && Encodable(c, size)
  {
    match c
    case Numeric(t) => NumberBits(|t|, [10, 12, 14][size]) + DigitBits(t)
    case Alphanumeric(t) => NumberBits(|t|, [9, 11, 13][size]) + PairBits(t)
    case Bytes(d) => NumberBits(|d|, [8, 16, 16][size]) + ByteBits(d)
    case Kanji(codes) => NumberBits(|codes|, [8, 10, 12][size]) + KanjiBits(codes)
    case Eci(n) => EciBits(n)
  }

  ghost function MessageBits(chunks: seq<Chunk>, size: nat): Bits
    requires size <= 2 && forall i :: 0 <= i < |chunks| ==> Encodable(chunks[i], size)
  {
    if |chunks| == 0 then []
    else NumberBits(Mode(chunks[0]), 4) + (BodyBits(chunks[0], size) + MessageBits(chunks[1..], size))
  }

  lemma BitField(b: seq<Byte>, p: nat, x: nat)
    requires Holds(b, p, [x]) && x < 2
    ensures Field(b, p, 1) == x
  {
    assert NumberBits(x, 1) == [x];
    FieldSizes();
    FieldHolds(b, p, x, 1);
  }

  lemma EciInverts(b: seq<Byte>, p: nat, n: nat)
    requires n < Scaled(1, 21) && Holds(b, p, EciBits(n))
    ensures ParseEci(b, p) == Some((n as int, p + |EciBits(n)|))
  {
    hide Field, BitAt, Holds, NumberBits, Scaled;
    FieldSizes();
    HoldsInRange(b, p, EciBits(n));
    if n < 128 {
      HoldsSplit(b, p, [0], NumberBits(n, 7));
      BitField(b, p, 0);
      FieldHolds(b, p + 1, n, 7);
    } else if n < 16384 {
      HoldsSplit(b, p, [1, 0], NumberBits(n, 14));
      assert [1, 0] == [1] + [0];
      HoldsSplit(b, p, [1], [0]);
      BitField(b, p, 1);
      BitField(b, p + 1, 0);
      FieldHolds(b, p + 2, n, 14);
    } else {
      HoldsSplit(b, p, [1, 1, 0], NumberBits(n, 21));
      assert [1, 1, 0] == [1] + ([1] + [0]);
      HoldsSplit(b, p, [1], [1] + [0]);
      HoldsSplit(b, p + 1, [1], [0]);
      BitField(b, p, 1);
      BitField(b, p + 1, 1);
      BitField(b, p + 2, 0);
      FieldHolds(b, p + 3, n, 21);
    }
  }

  lemma BodyInverts(b: seq<Byte>, p: nat, c: Chunk, size: nat)
    requires size <= 2 && Encodable(c, size) && Holds(b, p, BodyBits(c, size))
    ensures p + |BodyBits(c, size)| <= 8 * |b|
    ensures ParseBody(b, p, Mode(c), size) == Some(([c], p + |BodyBits(c, size)|))
  {
    hide Field, BitAt, Holds, NumberBits, Scaled, DigitBits, PairBits, ByteBits, KanjiBits, EciBits,
      ParseDigits, ParsePairs, ParseBytes, ParseKanji, ParseEci, IsDigits, IsAlphanumeric, IsBytes, IsKanji;
    HoldsInRange(b, p, BodyBits(c, size));
    match c {
      case Numeric(t) =>
        var n := [10, 12, 14][size];
        HoldsSplit(b, p, NumberBits(|t|, n), DigitBits(t));
        FieldHolds(b, p, |t|, n);
        ParseDigitsInverts(b, p + n, t);
      case Alphanumeric(t) =>
        var n := [9, 11, 13][size];
        HoldsSplit(b, p, NumberBits(|t|, n), PairBits(t));
        FieldHolds(b, p, |t|, n);
        ParsePairsInverts(b, p + n, t);
      case Bytes(d) =>
        var n := [8, 16, 16][size];
        HoldsSplit(b, p, NumberBits(|d|, n), ByteBits(d));
        FieldHolds(b, p, |d|, n);
        ParseBytesInverts(b, p + n, d);
      case Kanji(codes) =>
        var n := [8, 10, 12][size];
        HoldsSplit(b, p, NumberBits(|codes|, n), KanjiBits(codes));
        FieldHolds(b, p, |codes|, n);
        ParseKanjiInverts(b, p + n, codes);
      case Eci(n) =>
        EciInverts(b, p, n);
    }
  }

  /** The message ends with a terminator, or with fewer than four bits, all clear. */
  ghost predicate Terminated(b: seq<Byte>, p: nat)
    requires p <= 8 * |b|
  {
    var n := if 8 * |b| - p >= 4 then 4 else 8 * |b| - p;
    Field(b, p, n) == 0
  }

  /** Every encoded list of segments is decoded to that list. */
  lemma {:induction false} DecodingInvertsEncoding(b: seq<Byte>, p: nat, chunks: seq<Chunk>, size: nat)
    requires size <= 2 && forall i :: 0 <= i < |chunks| ==> Encodable(chunks[i], size)
    requires Holds(b, p, MessageBits(chunks, size))
    requires p + |MessageBits(chunks, size)| <= 8 * |b| && Terminated(b, p + |MessageBits(chunks, size)|)
    ensures ParseSegments(b, p, size) == Some(chunks)
    decreases |chunks|
  {
    hide Field, BitAt, Holds, NumberBits, Scaled, BodyBits, Encodable, ParseBody;
    if |chunks| == 0 {
    } else {
      var c, body, rest := chunks[0], BodyBits(chunks[0], size), MessageBits(chunks[1..], size);
      HoldsSplit(b, p, NumberBits(Mode(c), 4), body + rest);
      HoldsSplit(b, p + 4, body, rest);
      FieldSizes();
      FieldHolds(b, p, Mode(c), 4);
      BodyInverts(b, p + 4, c, size);
      var next := p + 4 + |body|;
      assert next + |rest| == p + |MessageBits(chunks, size)|;
      DecodingInvertsEncoding(b, next, chunks[1..], size);
      assert chunks == [c] + chunks[1..];
    }
  }
}

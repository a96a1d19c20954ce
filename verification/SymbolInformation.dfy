/** Which version and which format a symbol says it has: nearest-word decoding of two copies of each
    word, in the codes of Annexes C and D of ISO/IEC 18004:2015. */
module SymbolInformation {
  import opened BitMatrices
  import opened BitWords
  import opened Wrappers

  datatype FormatEntry = FormatEntry(bits: nat, errorCorrectionLevel: nat, dataMask: nat)

  const FORMAT_INFO_TABLE: seq<FormatEntry> := [
    FormatEntry(0x5412, 1, 0), FormatEntry(0x5125, 1, 1), FormatEntry(0x5E7C, 1, 2),
    FormatEntry(0x5B4B, 1, 3), FormatEntry(0x45F9, 1, 4), FormatEntry(0x40CE, 1, 5),
    FormatEntry(0x4F97, 1, 6), FormatEntry(0x4AA0, 1, 7), FormatEntry(0x77C4, 0, 0),
    FormatEntry(0x72F3, 0, 1), FormatEntry(0x7DAA, 0, 2), FormatEntry(0x789D, 0, 3),
    FormatEntry(0x662F, 0, 4), FormatEntry(0x6318, 0, 5), FormatEntry(0x6C41, 0, 6),
    FormatEntry(0x6976, 0, 7), FormatEntry(0x1689, 3, 0), FormatEntry(0x13BE, 3, 1),
    FormatEntry(0x1CE7, 3, 2), FormatEntry(0x19D0, 3, 3), FormatEntry(0x0762, 3, 4),
    FormatEntry(0x0255, 3, 5), FormatEntry(0x0D0C, 3, 6), FormatEntry(0x083B, 3, 7),
    FormatEntry(0x355F, 2, 0), FormatEntry(0x3068, 2, 1), FormatEntry(0x3F31, 2, 2),
    FormatEntry(0x3A06, 2, 3), FormatEntry(0x24B4, 2, 4), FormatEntry(0x2183, 2, 5),
    FormatEntry(0x2EDA, 2, 6), FormatEntry(0x2BED, 2, 7)
  ]

  /** The information words of the versions; the first six have none. */
  const VERSION_INFO: seq<Option<nat>> := [
    None, None, None, None, None, None, Some(0x07C94), Some(0x085BC), Some(0x09A99), Some(0x0A4D3),
    Some(0x0BBF6), Some(0x0C762), Some(0x0D847), Some(0x0E60D), Some(0x0F928), Some(0x10B78), Some(0x1145D),
    Some(0x12A17), Some(0x13532), Some(0x149A6), Some(0x15683), Some(0x168C9), Some(0x177EC), Some(0x18EC4),
    Some(0x191E1), Some(0x1AFAB), Some(0x1B08E), Some(0x1CC1A), Some(0x1D33F), Some(0x1ED75), Some(0x1F250),
    Some(0x209D5), Some(0x216F0), Some(0x228BA), Some(0x2379F), Some(0x24B0B), Some(0x2542E), Some(0x26A64),
    Some(0x27541), Some(0x28C69)
  ]

  const TOLERANCE := 3

  // ----- The codes

  datatype Data = Data(d5: bool, d4: bool, d3: bool, d2: bool, d1: bool, d0: bool)

  /** The six low bits of a number. */
  function DataOf(i: nat): Data {
    var a := if i >= 32 then i - 32 else i;
    var b := if a >= 16 then a - 16 else a;
    var c := if b >= 8 then b - 8 else b;
    var e := if c >= 4 then c - 4 else c;
    Data(i >= 32, a >= 16, b >= 8, c >= 4, e >= 2, (if e >= 2 then e - 2 else e) >= 1)
  }

  /** For each bit of a format word, highest first, the data bits whose parity it is. */
  const FORMAT_COLUMNS: seq<nat> := [
    0x10, 0x08, 0x04, 0x02, 0x01, 0x1A, 0x0D, 0x1C, 0x0E, 0x07, 0x19, 0x16, 0x0B, 0x1F, 0x15
  ]

  /** The fixed mask over format words: 0x5412. */
  const FORMAT_MASK: seq<bool> := [
    true, false, true, false, true, false, false, false, false, false, true, false, false, true, false
  ]

  const VERSION_COLUMNS: seq<nat> := [
    0x20, 0x10, 0x08, 0x04, 0x02, 0x01, 0x31, 0x09, 0x15, 0x3B, 0x2C, 0x36, 0x1B, 0x3C, 0x1E, 0x2F, 0x06, 0x23
  ]

  /** Exactly one of two bits is set. */
  predicate Odd(a: bool, b: bool) {
    a != b
  }

  predicate At(d: Data, k: nat) {
    match k
    case 0 => d.d0
    case 1 => d.d1
    case 2 => d.d2
    case 3 => d.d3
    case 4 => d.d4
    case _ => d.d5
  }

  /** The parity of the first k data bits that are selected. */
  predicate ParityTo(k: nat, m: Data, d: Data) {
    k != 0 && Odd(ParityTo(k - 1, m, d), At(m, k - 1) && At(d, k - 1))
  }

  predicate Parity(m: Data, d: Data) {
    ParityTo(6, m, d)
  }

  predicate FormatBit(p: nat, d: Data)
    requires p < 15
  {
    Parity(DataOf(FORMAT_COLUMNS[p]), d)
  }

  predicate VersionBit(p: nat, d: Data)
    requires p < 18
  {
    Parity(DataOf(VERSION_COLUMNS[p]), d)
  }

  function FormatWord(i: nat): (bits: seq<bool>)
    ensures |bits| == 15
  {
    seq(15, p requires 0 <= p < 15 => Odd(FormatBit(p, DataOf(i)), FORMAT_MASK[p]))
  }

  function VersionWord(v: nat): (bits: seq<bool>)
    ensures |bits| == 18
  {
    seq(18, p requires 0 <= p < 18 => VersionBit(p, DataOf(v)))
  }

  // ----- Any two words of a code are far apart

  lemma HammingSix(s: seq<bool>, t: seq<bool>, n: nat)
    requires n + 6 <= |s| == |t|
    ensures Hamming(s[..n + 6], t[..n + 6]) ==
            Hamming(s[..n], t[..n]) + Differs(s, t, n) + Differs(s, t, n + 1) + Differs(s, t, n + 2) +
            Differs(s, t, n + 3) + Differs(s, t, n + 4) + Differs(s, t, n + 5)
  {
    hide Hamming, Differs;
    HammingThree(s, t, n);
    HammingThree(s, t, n + 3);
  }

  lemma Hamming15(s: seq<bool>, t: seq<bool>)
    requires |s| == |t| == 15
    ensures Hamming(s, t) ==
            Differs(s, t, 0) + Differs(s, t, 1) + Differs(s, t, 2) + Differs(s, t, 3) + Differs(s, t, 4) +
            Differs(s, t, 5) + Differs(s, t, 6) + Differs(s, t, 7) + Differs(s, t, 8) + Differs(s, t, 9) +
            Differs(s, t, 10) + Differs(s, t, 11) + Differs(s, t, 12) + Differs(s, t, 13) + Differs(s, t, 14)
  {
    hide Hamming, Differs;
    NoPlaces(s, t);
    HammingThree(s, t, 0);
    HammingSix(s, t, 3);
    HammingSix(s, t, 9);
    assert s[..15] == s && t[..15] == t;
  }

  lemma Hamming18(s: seq<bool>, t: seq<bool>)
    requires |s| == |t| == 18
    ensures Hamming(s, t) ==
            Differs(s, t, 0) + Differs(s, t, 1) + Differs(s, t, 2) + Differs(s, t, 3) + Differs(s, t, 4) +
            Differs(s, t, 5) +
            Differs(s, t, 6) + Differs(s, t, 7) + Differs(s, t, 8) + Differs(s, t, 9) + Differs(s, t, 10) +
            Differs(s, t, 11) +
            Differs(s, t, 12) + Differs(s, t, 13) + Differs(s, t, 14) + Differs(s, t, 15) + Differs(s, t, 16) +
            Differs(s, t, 17)
  {
    hide Hamming, Differs;
    NoPlaces(s, t);
    HammingSix(s, t, 0);
    HammingSix(s, t, 6);
    HammingSix(s, t, 12);
    assert s[..18] == s && t[..18] == t;
  }

  lemma NoPlaces(s: seq<bool>, t: seq<bool>)
    requires |s| == |t|
    ensures Hamming(s[..0], t[..0]) == 0
  {}

  function Apart(d: Data, e: Data): Data {
    Data(Odd(d.d5, e.d5), Odd(d.d4, e.d4), Odd(d.d3, e.d3), Odd(d.d2, e.d2), Odd(d.d1, e.d1), Odd(d.d0, e.d0))
  }

  const ZERO := Data(false, false, false, false, false, false)

  lemma ApartAt(d: Data, e: Data, k: nat)
    ensures At(Apart(d, e), k) == Odd(At(d, k), At(e, k))
  {}

  /** Parities are linear, so both codes are, one up to its mask. */
  lemma {:induction false} ParityLinear(k: nat, m: Data, d: Data, e: Data)
    ensures ParityTo(k, m, Apart(d, e)) == Odd(ParityTo(k, m, d), ParityTo(k, m, e))
  {
    hide At, Apart;
    if k > 0 {
      ParityLinear(k - 1, m, d, e);
      ApartAt(d, e, k - 1);
    }
  }

  function One(b: bool): nat {
    if b then 1 else 0
  }

  function FormatWeight(d: Data): nat {
    One(FormatBit(0, d)) + One(FormatBit(1, d)) + One(FormatBit(2, d)) + One(FormatBit(3, d)) +
    One(FormatBit(4, d)) + One(FormatBit(5, d)) + One(FormatBit(6, d)) + One(FormatBit(7, d)) +
    One(FormatBit(8, d)) + One(FormatBit(9, d)) + One(FormatBit(10, d)) + One(FormatBit(11, d)) +
    One(FormatBit(12, d)) + One(FormatBit(13, d)) + One(FormatBit(14, d))
  }

  function VersionWeight(d: Data): nat {
    One(VersionBit(0, d)) + One(VersionBit(1, d)) + One(VersionBit(2, d)) + One(VersionBit(3, d)) +
    One(VersionBit(4, d)) + One(VersionBit(5, d)) + One(VersionBit(6, d)) + One(VersionBit(7, d)) +
    One(VersionBit(8, d)) + One(VersionBit(9, d)) + One(VersionBit(10, d)) + One(VersionBit(11, d)) +
    One(VersionBit(12, d)) + One(VersionBit(13, d)) + One(VersionBit(14, d)) + One(VersionBit(15, d)) +
    One(VersionBit(16, d)) + One(VersionBit(17, d))
  }

  /** The six steps of a parity. */
  predicate Parity6(m: Data, d: Data) {
    (((((m.d0 && d.d0) != (m.d1 && d.d1)) != (m.d2 && d.d2)) != (m.d3 && d.d3)) != (m.d4 && d.d4)) != (m.d5 && d.d5)
  }

  lemma ParityUnrolled(m: Data, d: Data)
    ensures Parity(m, d) == Parity6(m, d)
  {
    assert ParityTo(1, m, d) == (m.d0 && d.d0);
    assert ParityTo(2, m, d) == Odd(ParityTo(1, m, d), m.d1 && d.d1);
    assert ParityTo(3, m, d) == Odd(ParityTo(2, m, d), m.d2 && d.d2);
    assert ParityTo(4, m, d) == Odd(ParityTo(3, m, d), m.d3 && d.d3);
    assert ParityTo(5, m, d) == Odd(ParityTo(4, m, d), m.d4 && d.d4);
  }

  /** So it is enough to weigh the words. */
  lemma FormatWeighs(d: Data)
    requires !d.d5 && d != ZERO
    ensures FormatWeight(d) >= 7
  {
    hide Parity;
    forall p: nat | p < 15 ensures FormatBit(p, d) == Parity6(DataOf(FORMAT_COLUMNS[p]), d) {
      ParityUnrolled(DataOf(FORMAT_COLUMNS[p]), d);
    }
  }

  lemma VersionWeighs(d: Data)
    requires d != ZERO
    ensures VersionWeight(d) >= 8
  {
    hide Parity;
    forall p: nat | p < 18 ensures VersionBit(p, d) == Parity6(DataOf(VERSION_COLUMNS[p]), d) {
      ParityUnrolled(DataOf(VERSION_COLUMNS[p]), d);
    }
  }

  lemma DataDiffer(i: nat, j: nat)
    requires i < 64 && j < 64 && i != j
    ensures Apart(DataOf(i), DataOf(j)) != ZERO
    ensures i < 32 && j < 32 ==> !Apart(DataOf(i), DataOf(j)).d5
  {}

  lemma FormatDiffers(i: nat, j: nat, p: nat)
    requires p < 15
    ensures Differs(FormatWord(i), FormatWord(j), p) == One(FormatBit(p, Apart(DataOf(i), DataOf(j))))
  {
    hide DataOf, Apart, ParityTo;
    ParityLinear(6, DataOf(FORMAT_COLUMNS[p]), DataOf(i), DataOf(j));
  }

  lemma VersionDiffers(v: nat, w: nat, p: nat)
    requires p < 18
    ensures Differs(VersionWord(v), VersionWord(w), p) == One(VersionBit(p, Apart(DataOf(v), DataOf(w))))
  {
    hide DataOf, Apart, ParityTo;
    ParityLinear(6, DataOf(VERSION_COLUMNS[p]), DataOf(v), DataOf(w));
  }

  /** Two format words differ in at least 7 of their 15 bits. */
  lemma FormatWordsFar(i: nat, j: nat)
    requires i < 32 && j < 32 && i != j
    ensures Hamming(FormatWord(i), FormatWord(j)) >= 7
  {
    hide Hamming, Differs, FormatWord, FormatBit, One, DataOf, Apart;
    DataDiffer(i, j);
    FormatWeighs(Apart(DataOf(i), DataOf(j)));
    Hamming15(FormatWord(i), FormatWord(j));
    forall p: nat | p < 15
      ensures Differs(FormatWord(i), FormatWord(j), p) == One(FormatBit(p, Apart(DataOf(i), DataOf(j))))
    {
      FormatDiffers(i, j, p);
    }
  }

  /** Two version words differ in at least 8 of their 18 bits. */
  lemma VersionWordsFar(v: nat, w: nat)
    requires v < 64 && w < 64 && v != w
    ensures Hamming(VersionWord(v), VersionWord(w)) >= 8
  {
    hide Hamming, Differs, VersionWord, VersionBit, One, DataOf, Apart;
    DataDiffer(v, w);
    VersionWeighs(Apart(DataOf(v), DataOf(w)));
    Hamming18(VersionWord(v), VersionWord(w));
    forall p: nat | p < 18
      ensures Differs(VersionWord(v), VersionWord(w), p) == One(VersionBit(p, Apart(DataOf(v), DataOf(w))))
    {
      VersionDiffers(v, w, p);
    }
  }

  // ----- The tables hold these words

  lemma ValueSix(s: seq<bool>, n: nat)
    requires n + 6 <= |s|
    ensures BitsValue(s[..n + 6]) ==
            64 * BitsValue(s[..n]) + 32 * Bit(s, n) + 16 * Bit(s, n + 1) + 8 * Bit(s, n + 2) +
            4 * Bit(s, n + 3) + 2 * Bit(s, n + 4) + Bit(s, n + 5)
  {
    hide BitsValue, Bit;
    ValueThree(s, n);
    ValueThree(s, n + 3);
  }

  lemma NoBits(s: seq<bool>)
    ensures BitsValue(s[..0]) == 0
  {}

  predicate FormatDigit(p: nat, d: Data)
    requires p < 15
  {
    Odd(Parity6(DataOf(FORMAT_COLUMNS[p]), d), FORMAT_MASK[p])
  }

  predicate VersionDigit(p: nat, d: Data)
    requires p < 18
  {
    Parity6(DataOf(VERSION_COLUMNS[p]), d)
  }

  function FormatValue(d: Data): nat {
    16384 * One(FormatDigit(0, d)) + 8192 * One(FormatDigit(1, d)) + 4096 * One(FormatDigit(2, d)) +
    2048 * One(FormatDigit(3, d)) + 1024 * One(FormatDigit(4, d)) + 512 * One(FormatDigit(5, d)) +
    256 * One(FormatDigit(6, d)) + 128 * One(FormatDigit(7, d)) + 64 * One(FormatDigit(8, d)) +
    32 * One(FormatDigit(9, d)) + 16 * One(FormatDigit(10, d)) + 8 * One(FormatDigit(11, d)) +
    4 * One(FormatDigit(12, d)) + 2 * One(FormatDigit(13, d)) + One(FormatDigit(14, d))
  }

  function VersionValue(d: Data): nat {
    131072 * One(VersionDigit(0, d)) + 65536 * One(VersionDigit(1, d)) + 32768 * One(VersionDigit(2, d)) +
    16384 * One(VersionDigit(3, d)) + 8192 * One(VersionDigit(4, d)) + 4096 * One(VersionDigit(5, d)) +
    2048 * One(VersionDigit(6, d)) + 1024 * One(VersionDigit(7, d)) + 512 * One(VersionDigit(8, d)) +
    256 * One(VersionDigit(9, d)) + 128 * One(VersionDigit(10, d)) + 64 * One(VersionDigit(11, d)) +
    32 * One(VersionDigit(12, d)) + 16 * One(VersionDigit(13, d)) + 8 * One(VersionDigit(14, d)) +
    4 * One(VersionDigit(15, d)) + 2 * One(VersionDigit(16, d)) + One(VersionDigit(17, d))
  }

  lemma FormatValues(i: nat)
    ensures BitsValue(FormatWord(i)) == FormatValue(DataOf(i))
  {
    hide BitsValue, DataOf, Parity, Parity6, Bit, FormatWord;
    var s := FormatWord(i);
    NoBits(s);
    ValueThree(s, 0);
    ValueSix(s, 3);
    ValueSix(s, 9);
    assert s[..15] == s;
    forall p: nat | p < 15 ensures Bit(s, p) == One(FormatDigit(p, DataOf(i))) {
      FormatBitOfWord(i, p);
    }
  }

  lemma FormatBitOfWord(i: nat, p: nat)
    requires p < 15
    ensures Bit(FormatWord(i), p) == One(FormatDigit(p, DataOf(i)))
  {
    hide DataOf, Parity;
    ParityUnrolled(DataOf(FORMAT_COLUMNS[p]), DataOf(i));
  }

  lemma EighteenBits(s: seq<bool>)
    requires |s| == 18
    ensures BitsValue(s) ==
            4096 * (32 * Bit(s, 0) + 16 * Bit(s, 1) + 8 * Bit(s, 2) + 4 * Bit(s, 3) + 2 * Bit(s, 4) + Bit(s, 5)) +
            64 * (32 * Bit(s, 6) + 16 * Bit(s, 7) + 8 * Bit(s, 8) + 4 * Bit(s, 9) + 2 * Bit(s, 10) + Bit(s, 11)) +
            32 * Bit(s, 12) + 16 * Bit(s, 13) + 8 * Bit(s, 14) + 4 * Bit(s, 15) + 2 * Bit(s, 16) + Bit(s, 17)
  {
    hide BitsValue, Bit;
    NoBits(s);
    ValueSix(s, 0);
    ValueSix(s, 6);
    ValueSix(s, 12);
    assert s[..18] == s;
  }

  lemma VersionValues(v: nat)
    ensures BitsValue(VersionWord(v)) == VersionValue(DataOf(v))
  {
    hide BitsValue, DataOf, Parity, Parity6, Bit, VersionWord, One, VersionDigit;
    var s := VersionWord(v);
    EighteenBits(s);
    forall p: nat | p < 18 ensures Bit(s, p) == One(VersionDigit(p, DataOf(v))) {
      VersionBitOfWord(v, p);
    }
  }

  lemma VersionBitOfWord(v: nat, p: nat)
    requires p < 18
    ensures Bit(VersionWord(v), p) == One(VersionDigit(p, DataOf(v)))
  {
    hide DataOf, Parity;
    ParityUnrolled(DataOf(VERSION_COLUMNS[p]), DataOf(v));
  }

  lemma FormatRowM(i: nat)
    requires 0 <= i < 8
    ensures FORMAT_INFO_TABLE[i].bits == FormatValue(DataOf(i))
  {}

  lemma FormatRowL(i: nat)
    requires 8 <= i < 16
    ensures FORMAT_INFO_TABLE[i].bits == FormatValue(DataOf(i))
  {}

  lemma FormatRowH(i: nat)
    requires 16 <= i < 24
    ensures FORMAT_INFO_TABLE[i].bits == FormatValue(DataOf(i))
  {}

  lemma FormatRowQ(i: nat)
    requires 24 <= i < 32
    ensures FORMAT_INFO_TABLE[i].bits == FormatValue(DataOf(i))
  {}

  lemma FormatFields(i: nat)
    requires i < 32
    ensures FORMAT_INFO_TABLE[i].errorCorrectionLevel == [1, 0, 3, 2][i / 8] && FORMAT_INFO_TABLE[i].dataMask == i % 8
  {}

  /** Entry i of the format table is word i, for error correction indicator i / 8 and mask i % 8. */
  lemma FormatTable(i: nat)
    requires i < 32
    ensures FORMAT_INFO_TABLE[i] == FormatEntry(BitsValue(FormatWord(i)), [1, 0, 3, 2][i / 8], i % 8)
  {
    hide BitsValue, FormatWord, FormatValue, DataOf;
    FormatValues(i);
    FormatFields(i);
    if i < 8 {
      FormatRowM(i);
    } else if i < 16 {
      FormatRowL(i);
    } else if i < 24 {
      FormatRowH(i);
    } else {
      FormatRowQ(i);
    }
  }

  lemma VersionsFrom7(v: nat)
    requires 7 <= v < 16
    ensures VERSION_INFO[v - 1] == Some(VersionValue(DataOf(v)))
  {}

  lemma VersionsFrom16(v: nat)
    requires 16 <= v < 24
    ensures VERSION_INFO[v - 1] == Some(VersionValue(DataOf(v)))
  {}

  lemma VersionsFrom24(v: nat)
    requires 24 <= v < 32
    ensures VERSION_INFO[v - 1] == Some(VersionValue(DataOf(v)))
  {}

  lemma VersionsFrom32(v: nat)
    requires 32 <= v < 41
    ensures VERSION_INFO[v - 1] == Some(VersionValue(DataOf(v)))
  {}

  /** The information word of a version from 7 on is the word of its number. */
  lemma VersionTable(v: nat)
    requires 7 <= v <= 40
    ensures VERSION_INFO[v - 1] == Some(BitsValue(VersionWord(v)))
  {
    hide BitsValue, VersionWord, VersionValue, DataOf;
    VersionValues(v);
    if v < 16 {
      VersionsFrom7(v);
    } else if v < 24 {
      VersionsFrom16(v);
    } else if v < 32 {
      VersionsFrom24(v);
    } else {
      VersionsFrom32(v);
    }
  }

  // ----- Reading the copies

  /** Where the bits of a copy stand, highest first. */
  const TOP_LEFT_FORMAT: seq<Point> := [
    (0, 8), (1, 8), (2, 8), (3, 8), (4, 8), (5, 8), (7, 8), (8, 8),
    (8, 7), (8, 5), (8, 4), (8, 3), (8, 2), (8, 1), (8, 0)
  ]

  function OtherFormat(dimension: int): seq<Point> {
    seq(15, k requires 0 <= k < 15 => if k < 7 then (8, dimension - 1 - k) else (dimension - 8 + (k - 7), 8))
  }

  function TopRightVersion(dimension: int): seq<Point> {
    seq(18, k requires 0 <= k < 18 => (dimension - 9 - k % 3, 5 - k / 3))
  }

  function BottomLeftVersion(dimension: int): seq<Point> {
    seq(18, k requires 0 <= k < 18 => (5 - k / 3, dimension - 9 - k % 3))
  }

  function BitsAt(matrix: BitMatrix, points: seq<Point>): (bits: seq<bool>)
    requires matrix.Valid()
    reads matrix.data
    ensures |bits| == |points|
  {
    seq(|points|, k requires 0 <= k < |points| && matrix.Valid() reads matrix.data =>
      matrix.At(points[k].0, points[k].1))
  }

  function PushBit(bit: bool, byte: nat): nat {
    2 * byte + if bit then 1 else 0
  }

  lemma PushNext(matrix: BitMatrix, points: seq<Point>, k: nat)
    requires matrix.Valid() && k < |points|
    ensures BitsValue(BitsAt(matrix, points)[..k + 1]) ==
            PushBit(matrix.At(points[k].0, points[k].1), BitsValue(BitsAt(matrix, points)[..k]))
  {
    hide BitsValue;
    ValueOne(BitsAt(matrix, points), k);
  }

  lemma AllPushed(matrix: BitMatrix, points: seq<Point>)
    requires matrix.Valid()
    ensures BitsValue(BitsAt(matrix, points)[..0]) == 0
    ensures BitsAt(matrix, points)[..|points|] == BitsAt(matrix, points)
  {}

  method ReadFormatCopies(matrix: BitMatrix) returns (topLeft: nat, other: nat)
    requires matrix.Valid()
    ensures topLeft == BitsValue(BitsAt(matrix, TOP_LEFT_FORMAT))
    ensures other == BitsValue(BitsAt(matrix, OtherFormat(matrix.height)))
  {
    hide BitsValue, PushBit, BitsAt, BitMatrix.At;
    ghost var p, q := TOP_LEFT_FORMAT, OtherFormat(matrix.height);
    AllPushed(matrix, p);
    AllPushed(matrix, q);
    topLeft, other := 0, 0;
    ghost var k: nat := 0;
    for x := 0 to 9
      invariant k == if x <= 6 then x else x - 1
      invariant topLeft == BitsValue(BitsAt(matrix, p)[..k])
    {
      if x != 6 { // the timing pattern
        PushNext(matrix, p, k);
        topLeft := PushBit(matrix.At(x, 8), topLeft);
        k := k + 1;
      }
    }
    for y := 8 downto 0
      invariant k == 8 + if y <= 6 then 7 - y else 8 - y
      invariant topLeft == BitsValue(BitsAt(matrix, p)[..k])
    {
      if y != 6 {
        PushNext(matrix, p, k);
        topLeft := PushBit(matrix.At(8, y), topLeft);
        k := k + 1;
      }
    }
    var dimension: int := matrix.height;
    for i := 0 to 7
      invariant other == BitsValue(BitsAt(matrix, q)[..i])
    {
      PushNext(matrix, q, i);
      other := PushBit(matrix.At(8, dimension - 1 - i), other);
    }
    for i := 0 to 8
      invariant other == BitsValue(BitsAt(matrix, q)[..7 + i])
    {
      PushNext(matrix, q, 7 + i);
      other := PushBit(matrix.At(dimension - 8 + i, 8), other);
    }
  }

  method ReadVersionCopies(matrix: BitMatrix) returns (topRight: nat, bottomLeft: nat)
    requires matrix.Valid()
    ensures topRight == BitsValue(BitsAt(matrix, TopRightVersion(matrix.height)))
    ensures bottomLeft == BitsValue(BitsAt(matrix, BottomLeftVersion(matrix.height)))
  {
    hide BitsValue, PushBit, BitsAt, BitMatrix.At;
    var dimension: int := matrix.height;
    ghost var p, q := TopRightVersion(dimension), BottomLeftVersion(dimension);
    AllPushed(matrix, p);
    AllPushed(matrix, q);
    topRight, bottomLeft := 0, 0;
    for y := 6 downto 0
      invariant topRight == BitsValue(BitsAt(matrix, p)[..3 * (6 - y)])
    {
      for i := 0 to 3
        invariant topRight == BitsValue(BitsAt(matrix, p)[..3 * (5 - y) + i])
      {
        PushNext(matrix, p, 3 * (5 - y) + i);
        topRight := PushBit(matrix.At(dimension - 9 - i, y), topRight);
      }
    }
    for x := 6 downto 0
      invariant bottomLeft == BitsValue(BitsAt(matrix, q)[..3 * (6 - x)])
    {
      for i := 0 to 3
        invariant bottomLeft == BitsValue(BitsAt(matrix, q)[..3 * (5 - x) + i])
      {
        PushNext(matrix, q, 3 * (5 - x) + i);
        bottomLeft := PushBit(matrix.At(x, dimension - 9 - i), bottomLeft);
      }
    }
  }

  // ----- The nearest word

  function Raw(w: Option<nat>): nat {
    match w
    case None => 0
    case Some(v) => v
  }

  function Differing(x: nat, y: nat): nat {
    Ones(Xor(x, y))
  }

  /** The distance of a word from the nearer copy. */
  function Gap(word: nat, a: nat, b: nat): nat {
    if Differing(a, word) <= Differing(b, word) then Differing(a, word) else Differing(b, word)
  }

  /** k is a word within the tolerance that is nearest to either copy, or there is none. */
  ghost predicate IsNearest(words: seq<nat>, a: nat, b: nat, k: Option<nat>) {
    match k
    case None => forall j :: 0 <= j < |words| ==> Gap(words[j], a, b) > TOLERANCE
    case Some(k) => k < |words| && Gap(words[k], a, b) <= TOLERANCE &&
                    forall j :: 0 <= j < |words| ==> Gap(words[k], a, b) <= Gap(words[j], a, b)
  }

  /** The best of the first n words so far, with its distance. */
  ghost predicate Best(words: seq<nat>, a: nat, b: nat, n: nat, best: Option<(nat, nat)>)
    requires n <= |words|
  {
    (best == None ==> n == 0) &&
    (best.Some? ==>
       && best.value.0 < n && best.value.1 == Gap(words[best.value.0], a, b)
       && forall j :: 0 <= j < n ==> best.value.1 <= Gap(words[j], a, b))
  }

  lemma DifferingSelf(x: nat)
    ensures Differing(x, x) == 0
  {
    XorSelf(x);
  }

  function FormatValuesOf(table: seq<FormatEntry>): (words: seq<nat>)
    ensures |words| == |table|
  {
    seq(|table|, k requires 0 <= k < |table| => table[k].bits)
  }

  function VersionValuesOf(table: seq<Option<nat>>): (words: seq<nat>)
    ensures |words| == |table|
  {
    seq(|table|, k requires 0 <= k < |table| => Raw(table[k]))
  }

  function FormatWords(): (words: seq<nat>)
    ensures |words| == 32
  {
    FormatValuesOf(FORMAT_INFO_TABLE)
  }

  function VersionWords(): (words: seq<nat>)
    ensures |words| == 40
  {
    VersionValuesOf(VERSION_INFO)
  }

  /** Taking a word into account, once or twice as the source does. */
  lemma BestNext(words: seq<nat>, a: nat, b: nat, n: nat, best: Option<(nat, nat)>, best': Option<(nat, nat)>)
    requires n < |words| && Best(words, a, b, n, best)
    requires best' == if best == None || Gap(words[n], a, b) < best.value.1 then Some((n, Gap(words[n], a, b)))
                      else best
    ensures Best(words, a, b, n + 1, best')
  {
    hide Gap;
  }

  /** An exact match ends the search. */
  lemma ExactIsNearest(words: seq<nat>, a: nat, b: nat, n: nat)
    requires n < |words| && (words[n] == a || words[n] == b)
    ensures IsNearest(words, a, b, Some(n))
  {
    hide Differing;
    DifferingSelf(words[n]);
  }

  lemma BestIsNearest(words: seq<nat>, a: nat, b: nat, best: Option<(nat, nat)>)
    requires Best(words, a, b, |words|, best)
    ensures IsNearest(words, a, b, if best.Some? && best.value.1 <= TOLERANCE then Some(best.value.0) else None)
  {
    hide Gap;
  }

  method NearestFormat(table: seq<FormatEntry>, a: nat, b: nat) returns (r: Option<nat>)
    ensures IsNearest(FormatValuesOf(table), a, b, r)
  {
    hide Xor, Ones, IsNearest, Best;
    var best: Option<(nat, nat)> := None;
    ghost var words := FormatValuesOf(table);
    NoneBest(words, a, b);
    for i := 0 to |table|
      invariant Best(words, a, b, i, best)
    {
      ghost var before := best;
      var bits := table[i].bits;
      if bits == a || bits == b {
        ExactIsNearest(words, a, b, i);
        return Some(i);
      }
      var difference := NumBitsDiffering(a, bits);
      if best == None || difference < best.value.1 {
        best := Some((i, difference));
      }
      if a != b {
        difference := NumBitsDiffering(b, bits);
        if difference < best.value.1 {
          best := Some((i, difference));
        }
      }
      BestNext(words, a, b, i, before, best);
    }
    BestIsNearest(words, a, b, best);
    return if best.Some? && best.value.1 <= TOLERANCE then Some(best.value.0) else None;
  }

  lemma NoneBest(words: seq<nat>, a: nat, b: nat)
    ensures Best(words, a, b, 0, None)
  {}

  method NearestVersion(table: seq<Option<nat>>, a: nat, b: nat) returns (r: Option<nat>)
    ensures IsNearest(VersionValuesOf(table), a, b, r)
  {
    hide Xor, Ones, IsNearest, Best;
    var best: Option<(nat, nat)> := None;
    ghost var words := VersionValuesOf(table);
    NoneBest(words, a, b);
    for i := 0 to |table|
      invariant Best(words, a, b, i, best)
    {
      ghost var before := best;
      var infoBits := table[i];
      if infoBits == Some(a) || infoBits == Some(b) {
        ExactIsNearest(words, a, b, i);
        return Some(i);
      }
      var difference := NumBitsDiffering(a, Raw(infoBits));
      if best == None || difference < best.value.1 {
        best := Some((i, difference));
      }
      difference := NumBitsDiffering(b, Raw(infoBits));
      if difference < best.value.1 {
        best := Some((i, difference));
      }
      BestNext(words, a, b, i, before, best);
    }
    BestIsNearest(words, a, b, best);
    return if best.Some? && best.value.1 <= TOLERANCE then Some(best.value.0) else None;
  }

  /** The index of the format that a symbol states. */
  method ReadFormatInformation(matrix: BitMatrix) returns (r: Option<nat>)
    requires matrix.Valid()
    ensures IsNearest(FormatWords(), BitsValue(BitsAt(matrix, TOP_LEFT_FORMAT)),
                      BitsValue(BitsAt(matrix, OtherFormat(matrix.height))), r)
  {
    hide BitsValue, BitsAt, OtherFormat, IsNearest, FormatValuesOf;
    var topLeft, other := ReadFormatCopies(matrix);
    r := NearestFormat(FORMAT_INFO_TABLE, topLeft, other);
  }

  /** The version that a symbol has by its size, where that is at most 6. */
  function SizeVersion(dimension: int): int {
    (dimension - 17) / 4
  }

  /** The index, one below the number, of the version that a symbol states. */
  method ReadVersion(matrix: BitMatrix) returns (r: Option<nat>)
    requires matrix.Valid()
    ensures SizeVersion(matrix.height) <= 6 ==>
              r == if 1 <= SizeVersion(matrix.height) then Some(SizeVersion(matrix.height) - 1) else None
    ensures SizeVersion(matrix.height) > 6 ==>
              IsNearest(VersionWords(), BitsValue(BitsAt(matrix, TopRightVersion(matrix.height))),
                        BitsValue(BitsAt(matrix, BottomLeftVersion(matrix.height))), r)
  {
    hide BitsValue, BitsAt, TopRightVersion, BottomLeftVersion, IsNearest, VersionValuesOf;
    var provisionalVersion := SizeVersion(matrix.height);
    if provisionalVersion <= 6 {
      return if 1 <= provisionalVersion then Some(provisionalVersion - 1) else None;
    }
    var topRight, bottomLeft := ReadVersionCopies(matrix);
    r := NearestVersion(VERSION_INFO, topRight, bottomLeft);
  }

  // ----- Up to three errors in each copy are corrected

  /** A word k that is near both copies and far from all other words is the nearest. */
  lemma NearestIs(words: seq<nat>, k: nat, a: nat, b: nat, r: Option<nat>)
    requires k < |words| && Differing(a, words[k]) <= TOLERANCE && Differing(b, words[k]) <= TOLERANCE
    requires forall j :: 0 <= j < |words| && j != k ==>
                           Differing(a, words[j]) > TOLERANCE && Differing(b, words[j]) > TOLERANCE
    requires IsNearest(words, a, b, r)
    ensures r == Some(k)
  {
    hide Differing;
  }

  lemma FormatDiffering(a: seq<bool>, i: nat, j: nat)
    requires |a| == 15 && i < 32 && j < 32 && Hamming(a, FormatWord(i)) <= TOLERANCE
    ensures Differing(BitsValue(a), FormatWords()[i]) <= TOLERANCE
    ensures j != i ==> Differing(BitsValue(a), FormatWords()[j]) > TOLERANCE
  {
    hide BitsValue, Hamming, FormatWord, Xor, Ones;
    FormatTable(i);
    FormatTable(j);
    OnesOfXor(a, FormatWord(i));
    OnesOfXor(a, FormatWord(j));
    if j != i {
      FormatWordsFar(i, j);
      HammingTriangle(FormatWord(i), a, FormatWord(j));
      HammingSymmetric(FormatWord(i), a);
    }
  }

  /** If each copy has at most three wrong bits, the format found is the one written. */
  lemma FormatRecovered(a: seq<bool>, b: seq<bool>, i: nat, r: Option<nat>)
    requires |a| == |b| == 15 && i < 32
    requires Hamming(a, FormatWord(i)) <= TOLERANCE && Hamming(b, FormatWord(i)) <= TOLERANCE
    requires IsNearest(FormatWords(), BitsValue(a), BitsValue(b), r)
    ensures r == Some(i)
  {
    hide BitsValue, Hamming, FormatWord, Differing, IsNearest;
    forall j: nat | j < 32 && j != i
      ensures Differing(BitsValue(a), FormatWords()[j]) > TOLERANCE &&
              Differing(BitsValue(b), FormatWords()[j]) > TOLERANCE
    {
      FormatDiffering(a, i, j);
      FormatDiffering(b, i, j);
    }
    FormatDiffering(a, i, i);
    FormatDiffering(b, i, i);
    NearestIs(FormatWords(), i, BitsValue(a), BitsValue(b), r);
  }

  /** The word with which index j is compared: that of its version, or of none. */
  lemma VersionWordAt(j: nat)
    requires j < 40
    ensures VersionWords()[j] == BitsValue(VersionWord(if j < 6 then 0 else j + 1))
  {
    hide BitsValue, VersionWord, VersionValue, DataOf;
    if j < 6 {
      VersionValues(0);
      NoVersion(j);
    } else {
      VersionTable(j + 1);
      assert VERSION_INFO[j + 1 - 1] == VERSION_INFO[j];
    }
  }

  lemma NoVersion(j: nat)
    requires j < 6
    ensures VERSION_INFO[j] == None && VersionValue(DataOf(0)) == 0
  {}

  lemma VersionDiffering(a: seq<bool>, v: nat, j: nat)
    requires |a| == 18 && 7 <= v <= 40 && j < 40 && Hamming(a, VersionWord(v)) <= TOLERANCE
    ensures Differing(BitsValue(a), VersionWords()[v - 1]) <= TOLERANCE
    ensures j != v - 1 ==> Differing(BitsValue(a), VersionWords()[j]) > TOLERANCE
  {
    hide BitsValue, Hamming, VersionWord, Xor, Ones, VersionWords;
    VersionWordAt(v - 1);
    VersionWordAt(j);
    OnesOfXor(a, VersionWord(v));
    var w := if j < 6 then 0 else j + 1;
    OnesOfXor(a, VersionWord(w));
    if j != v - 1 {
      VersionWordsFar(v, w);
      HammingTriangle(VersionWord(v), a, VersionWord(w));
      HammingSymmetric(VersionWord(v), a);
    }
  }

  lemma VersionRecovered(a: seq<bool>, b: seq<bool>, v: nat, r: Option<nat>)
    requires |a| == |b| == 18 && 7 <= v <= 40
    requires Hamming(a, VersionWord(v)) <= TOLERANCE && Hamming(b, VersionWord(v)) <= TOLERANCE
    requires IsNearest(VersionWords(), BitsValue(a), BitsValue(b), r)
    ensures r == Some(v - 1)
  {
    hide BitsValue, Hamming, VersionWord, Differing, IsNearest;
    forall j: nat | j < 40 && j != v - 1
      ensures Differing(BitsValue(a), VersionWords()[j]) > TOLERANCE &&
              Differing(BitsValue(b), VersionWords()[j]) > TOLERANCE
    {
      VersionDiffering(a, v, j);
      VersionDiffering(b, v, j);
    }
    VersionDiffering(a, v, v - 1);
    VersionDiffering(b, v, v - 1);
    NearestIs(VersionWords(), v - 1, BitsValue(a), BitsValue(b), r);
  }
}

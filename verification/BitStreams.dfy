/** The bit reader of the QR data decoder: big-endian bit fields cut from a byte sequence. Numbers
    are 32-bit signed integers, as the source's shift and or operators make them. */
module BitStreams {
  import opened Wrappers

  type Byte = x: int | 0 <= x < 256

  /** x * 2^k, by doubling. */
  function Scaled(x: nat, k: nat): nat {
    if k == 0 then x else 2 * Scaled(x, k - 1)
  }

  /** x / 2^k, by halving. */
  function Halved(x: nat, k: nat): nat {
    if k == 0 then x else Halved(x, k - 1) / 2
  }

  /** The k low bits of x. */
  function LowBits(x: nat, k: nat): nat
    decreases k
  {
    if k == 0 then 0 else 2 * LowBits(x / 2, k - 1) + x % 2
  }

  /** Bit p of the sequence, counting from the high bit of the first byte. */
  function BitAt(bytes: seq<Byte>, p: nat): nat
    requires p < 8 * |bytes|
  {
    Halved(bytes[p / 8], 7 - p % 8) % 2
  }

  /** The number written by the n bits from p on. */
  function Field(bytes: seq<Byte>, p: nat, n: nat): nat
    requires p + n <= 8 * |bytes|
  {
    if n == 0 then 0 else 2 * Field(bytes, p, n - 1) + BitAt(bytes, p + n - 1)
  }

  /** Reduction to a 32-bit signed integer. */
  function ToInt32(x: int): int {
    var r := x % 0x1_0000_0000;
    if r < 0x8000_0000 then r else r - 0x1_0000_0000
  }

  /** x << k, for x that is not negative. */
  function ShiftLeft(x: nat, k: nat): int {
    ToInt32(Scaled(x, k))
  }

  /** (byte & mask) >> low, for the mask that selects the k bits from bit low up. */
  function Extract(byte: Byte, low: nat, k: nat): nat {
    LowBits(Halved(byte, low), k)
  }

  lemma Powers()
    ensures Scaled(1, 8) == 256 && Scaled(1, 31) == 0x8000_0000 && Scaled(1, 32) == 0x1_0000_0000
  {
    hide Scaled;
    ScaledLiteral(1);
    ScaledLiteral(256);
    ScaledLiteral(65536);
    ScaledLiteral(16777216);
    ScaledAdd(1, 8, 8);
    ScaledAdd(1, 16, 8);
    ScaledAdd(1, 24, 7);
    ScaledAdd(1, 24, 8);
  }

  lemma {:induction false} ScaledAdd(x: nat, m: nat, n: nat)
    ensures Scaled(x, m + n) == Scaled(Scaled(x, m), n)
  {
    if n > 0 {
      ScaledAdd(x, m, n - 1);
    }
  }

  lemma {:induction false} FieldBound(bytes: seq<Byte>, p: nat, n: nat)
    requires p + n <= 8 * |bytes|
    ensures Field(bytes, p, n) < Scaled(1, n)
  {
    hide BitAt;
    if n > 0 {
      FieldBound(bytes, p, n - 1);
      BitIsBit(bytes, p + n - 1);
    }
  }

  lemma BitIsBit(bytes: seq<Byte>, p: nat)
    requires p < 8 * |bytes|
    ensures BitAt(bytes, p) == 0 || BitAt(bytes, p) == 1
  {}

  lemma {:induction false} ScaledMonotone(m: nat, n: nat)
    requires m <= n
    ensures 1 <= Scaled(1, m) <= Scaled(1, n)
    decreases m + n
  {
    if m < n {
      ScaledMonotone(m, n - 1);
    } else if m > 0 {
      ScaledMonotone(m - 1, m - 1);
    }
  }

  /** A field is its first m bits, shifted, plus the rest. */
  lemma {:induction false} FieldSplit(bytes: seq<Byte>, p: nat, m: nat, n: nat)
    requires p + m + n <= 8 * |bytes|
    ensures Field(bytes, p, m + n) == Scaled(Field(bytes, p, m), n) + Field(bytes, p + m, n)
    decreases n
  {
    hide BitAt;
    if n > 0 {
      FieldSplit(bytes, p, m, n - 1);
      assert p + (m + n) - 1 == (p + m) + n - 1;
    }
  }

  /** Within one byte a field is what masking and shifting extract. */
  lemma {:induction false} FieldInByte(bytes: seq<Byte>, i: nat, o: nat, k: nat)
    requires i < |bytes| && o + k <= 8
    ensures Field(bytes, 8 * i + o, k) == Extract(bytes[i], 8 - o - k, k)
    decreases k
  {
    if k > 0 {
      FieldInByte(bytes, i, o, k - 1);
      var p := 8 * i + o + k - 1;
      assert p / 8 == i && 7 - p % 8 == 8 - o - k;
    }
  }

  lemma ScaledNext(v: nat, k: nat)
    ensures Scaled(v, k + 1) == 2 * Scaled(v, k) && Scaled(v, 0) == v
  {}

  lemma ScaledLiteral(v: nat)
    ensures Scaled(v, 0) == v && Scaled(v, 1) == 2 * v && Scaled(v, 2) == 4 * v
    ensures Scaled(v, 3) == 8 * v && Scaled(v, 4) == 16 * v && Scaled(v, 5) == 32 * v
    ensures Scaled(v, 6) == 64 * v && Scaled(v, 7) == 128 * v && Scaled(v, 8) == 256 * v
  {
    hide Scaled;
    ScaledNext(v, 0);
    ScaledNext(v, 1);
    ScaledNext(v, 2);
    ScaledNext(v, 3);
    ScaledNext(v, 4);
    ScaledNext(v, 5);
    ScaledNext(v, 6);
    ScaledNext(v, 7);
  }

  lemma {:induction false} MulMonotone(c: nat, a: nat, b: nat)
    requires a <= b
    ensures c * a <= c * b
    decreases b
  {
    if a < b {
      MulMonotone(c, a, b - 1);
      assert c * b == c * (b - 1) + c;
    }
  }

  /** Adding less than c to a multiple of c does not cross a multiple of c. */
  lemma SameSide(v: nat, c: nat, m: nat, y: nat)
    requires y < c
    ensures c * v < c * m <==> c * v + y < c * m
  {
    if v < m {
      MulMonotone(c, v + 1, m);
      assert c * (v + 1) == c * v + c;
    } else {
      MulMonotone(c, m, v);
    }
  }

  lemma NoCarry(v: nat, c: nat, m: nat, y: nat)
    requires c * m == 0x8000_0000 && y < c && c * v + y < 0x1_0000_0000
    ensures ToInt32(c * v) + y == ToInt32(c * v + y)
  {
    SameSide(v, c, m, y);
    SplitSign(c * v, y);
  }

  lemma SplitSign(x: nat, y: nat)
    requires x < 0x8000_0000 <==> x + y < 0x8000_0000
    requires x + y < 0x1_0000_0000
    ensures ToInt32(x) + y == ToInt32(x + y)
  {}

  /** Or-ing k bits into a shifted value. */
  lemma ShiftAppend(v: nat, k: nat, y: nat)
    requires k <= 8 && y < Scaled(1, k) && Scaled(v, k) + y < 0x1_0000_0000
    ensures ShiftLeft(v, k) + y == ToInt32(Scaled(v, k) + y)
  {
    ScaledLiteral(v);
    ScaledLiteral(1);
    hide Scaled, ToInt32;
    if k == 0 {
      NoCarry(v, 1, 0x8000_0000, y);
    } else if k == 1 {
      NoCarry(v, 2, 0x4000_0000, y);
    } else if k == 2 {
      NoCarry(v, 4, 0x2000_0000, y);
    } else if k == 3 {
      NoCarry(v, 8, 0x1000_0000, y);
    } else if k == 4 {
      NoCarry(v, 16, 0x800_0000, y);
    } else if k == 5 {
      NoCarry(v, 32, 0x400_0000, y);
    } else if k == 6 {
      NoCarry(v, 64, 0x200_0000, y);
    } else if k == 7 {
      NoCarry(v, 128, 0x100_0000, y);
    } else {
      NoCarry(v, 256, 0x80_0000, y);
    }
  }

  /** Fields of at most 31 bits are represented exactly. */
  lemma FieldRepresented(bytes: seq<Byte>, p: nat, n: nat)
    requires p + n <= 8 * |bytes| && n <= 31
    ensures ToInt32(Field(bytes, p, n)) == Field(bytes, p, n)
  {
    hide Field, Scaled;
    FieldBound(bytes, p, n);
    ScaledMonotone(n, 31);
    Powers();
  }

  /** Appending k bits of the next byte by shift and or. */
  lemma AppendBits(bytes: seq<Byte>, start: nat, m: nat, k: nat, i: nat)
    requires 1 <= k <= 8 && m + k <= 32 && start + m == 8 * i && start + m + k <= 8 * |bytes|
    ensures ToInt32(Field(bytes, start, m)) >= 0 && i < |bytes|
    ensures ShiftLeft(ToInt32(Field(bytes, start, m)), k) + Extract(bytes[i], 8 - k, k) ==
            ToInt32(Field(bytes, start, m + k))
  {
    hide Field, Scaled, Extract, ToInt32, ShiftLeft;
    FieldRepresented(bytes, start, m);
    FieldSplit(bytes, start, m, k);
    FieldInByte(bytes, i, 0, k);
    FieldBound(bytes, start + m, k);
    FieldBound(bytes, start, m + k);
    ScaledMonotone(m + k, 32);
    Powers();
    ShiftAppend(Field(bytes, start, m), k, Field(bytes, start + m, k));
  }

  class BitStream {
    const bytes: seq<Byte>
    var byteOffset: nat
    var bitOffset: nat

    ghost predicate Valid()
      reads this
    {
      byteOffset <= |bytes| && bitOffset < 8 && (bitOffset > 0 ==> byteOffset < |bytes|)
    }

    /** The number of bits read so far. */
    ghost function Position(): nat
      reads this
    {
      8 * byteOffset + bitOffset
    }

    constructor (bytes: seq<Byte>)
      ensures Valid() && Position() == 0 && this.bytes == bytes
    {
      this.bytes := bytes;
      byteOffset := 0;
      bitOffset := 0;
    }

    function Available(): (n: nat)
      requires Valid()
      reads this
      ensures n == 8 * |bytes| - Position()
    {
      8 * (|bytes| - byteOffset) - bitOffset
    }

    /** Reads the next numBits bits; the source throws where this returns an error. */
    method ReadBits(numBits: int) returns (r: Result<int, string>)
      requires Valid()
      modifies this
      ensures Valid()
      ensures r.Err? <==> numBits < 1 || numBits > 32 || numBits > old(Available())
      ensures Position() == old(Position()) + if r.Ok? then numBits else 0
      ensures r.Ok? ==> r.value == ToInt32(Field(bytes, old(Position()), numBits))
    {
      hide Field, Extract, ToInt32, ShiftLeft;
      if numBits < 1 || numBits > 32 || numBits > Available() {
        return Err("Cannot read bits");
      }
      ghost var start := Position();
      var left := numBits;
      var result := 0;
      FieldEmpty(bytes, start);
      if bitOffset > 0 {
        var bitsLeft := 8 - bitOffset;
        var toRead := if left < bitsLeft then left else bitsLeft;
        var bitsToNotRead := bitsLeft - toRead;
        FieldInByte(bytes, byteOffset, bitOffset, toRead);
        FieldRepresented(bytes, start, toRead);
        result := Extract(bytes[byteOffset], bitsToNotRead, toRead);
        left := left - toRead;
        bitOffset := bitOffset + toRead;
        if bitOffset == 8 {
          bitOffset := 0;
          byteOffset := byteOffset + 1;
        }
      }
      if left > 0 {
        while left >= 8
          invariant Valid() && bitOffset == 0 && 0 <= left <= numBits
          invariant Position() == start + (numBits - left) && start + numBits <= 8 * |bytes|
          invariant result == ToInt32(Field(bytes, start, numBits - left))
        {
          AppendBits(bytes, start, numBits - left, 8, byteOffset);
          result := ShiftLeft(result, 8) + Extract(bytes[byteOffset], 0, 8);
          byteOffset := byteOffset + 1;
          left := left - 8;
        }
        if left > 0 {
          var bitsToNotRead := 8 - left;
          AppendBits(bytes, start, numBits - left, left, byteOffset);
          result := ShiftLeft(result, left) + Extract(bytes[byteOffset], bitsToNotRead, left);
          bitOffset := bitOffset + left;
        }
      }
      return Ok(result);
    }
  }

  lemma FieldEmpty(bytes: seq<Byte>, p: nat)
    requires p <= 8 * |bytes|
    ensures ToInt32(Field(bytes, p, 0)) == 0
  {}

  /** A 32-bit field comes out exactly when its first bit is clear. */
  lemma FullWordExact(bytes: seq<Byte>, p: nat)
    requires p + 32 <= 8 * |bytes|
    ensures ToInt32(Field(bytes, p, 32)) == Field(bytes, p, 32) <==> BitAt(bytes, p) == 0
  {
    FirstBit(bytes, p);
    hide Field, Scaled, BitAt;
    FieldSplit(bytes, p, 1, 31);
    FieldBound(bytes, p + 1, 31);
    BitIsBit(bytes, p);
    ScaledBit(BitAt(bytes, p));
    Powers();
  }

  lemma FirstBit(bytes: seq<Byte>, p: nat)
    requires p + 1 <= 8 * |bytes|
    ensures Field(bytes, p, 1) == BitAt(bytes, p)
  {
    hide BitAt;
  }

  lemma ScaledBit(b: nat)
    requires b <= 1
    ensures Scaled(b, 31) == if b == 0 then 0 else Scaled(1, 31)
  {
    ScaledZero(31);
  }

  lemma {:induction false} ScaledZero(k: nat)
    ensures Scaled(0, k) == 0
  {
    if k > 0 {
      ScaledZero(k - 1);
    }
  }
}

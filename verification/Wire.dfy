/** Little-endian 32-bit lengths and the length-prefixed fields that payloads, files and frames are
    made of. */
module Wire {
  import opened Wrappers

  type Byte = x: int | 0 <= x < 256
  type Bytes = seq<Byte>

  /** The low 32 bits of n, least significant byte first. */
  function Le32(n: nat): Bytes
    ensures |Le32(n)| == 4
  {
    [n % 256, n / 256 % 256, n / 65536 % 256, n / 16777216 % 256]
  }

  function FromLe32(b: Bytes): nat
    requires |b| == 4
  {
    b[0] as int + 256 * (b[1] as int) + 65536 * (b[2] as int) + 16777216 * (b[3] as int)
  }

  /** The least significant byte comes first. */
  lemma ByteOrder()
    ensures Le32(0x0403_0201) == [1, 2, 3, 4] && FromLe32([1, 2, 3, 4]) == 0x0403_0201
  {}

  lemma SecondByte(n: nat)
    ensures n / 65536 == n / 256 / 256
  {}

  lemma ThirdByte(n: nat)
    ensures n / 16777216 == n / 65536 / 256
  {}

  lemma LowBytes(n: nat, a: nat, b: nat, c: nat)
    requires a == n / 256 && b == a / 256 && c == b / 256
    ensures n == n % 256 + 256 * (a % 256) + 65536 * (b % 256) + 16777216 * (c % 256) + 0x1_0000_0000 * (c / 256)
  {
    assert n == 256 * a + n % 256;
    assert a == 256 * b + a % 256;
    assert b == 256 * c + b % 256;
    assert c == 256 * (c / 256) + c % 256;
  }

  lemma Remainder(n: nat, q: nat, r: nat)
    requires n == 0x1_0000_0000 * q + r && r < 0x1_0000_0000
    ensures n % 0x1_0000_0000 == r
  {}

  lemma Le32RoundTrip(n: nat)
    ensures FromLe32(Le32(n)) == n % 0x1_0000_0000
  {
    var b, c := n / 65536, n / 16777216;
    SecondByte(n);
    ThirdByte(n);
    LowBytes(n, n / 256, b, c);
    Remainder(n, c / 256, FromLe32(Le32(n)));
  }

  lemma FromLe32RoundTrip(b: Bytes)
    requires |b| == 4
    ensures FromLe32(b) < 0x1_0000_0000 && Le32(FromLe32(b)) == b
  {
    var n := FromLe32(b);
    var x: int, y: int, z: int := b[1], b[2], b[3];
    assert n / 256 == x + 256 * y + 65536 * z;
    assert n / 65536 == y + 256 * z;
    assert n / 16777216 == z;
  }

  function Field(x: Bytes): Bytes {
    Le32(|x|) + x
  }

  /** A length-prefixed field and what follows it. */
  function TakeField(b: Bytes): Option<(Bytes, Bytes)> {
    if |b| < 4 then None
    else
      var n := FromLe32(b[..4]);
      if |b| < 4 + n then None else Some((b[4..4 + n], b[4 + n..]))
  }

  lemma TakeFieldInverts(x: Bytes, rest: Bytes)
    requires |x| < 0x1_0000_0000
    ensures TakeField(Field(x) + rest) == Some((x, rest))
  {
    hide Le32, FromLe32;
    Le32RoundTrip(|x|);
    var b := Field(x) + rest;
    assert b[..4] == Le32(|x|);
    assert b[4..4 + |x|] == x && b[4 + |x|..] == rest;
  }

  lemma TakeFieldExact(b: Bytes)
    ensures TakeField(b).Some? ==>
              var t := TakeField(b).value;
              |t.0| < 0x1_0000_0000 && b == Field(t.0) + t.1 && |t.1| < |b|
  {
    hide Le32, FromLe32;
    if TakeField(b).Some? {
      FromLe32RoundTrip(b[..4]);
      var n := FromLe32(b[..4]);
      assert b == b[..4] + b[4..4 + n] + b[4 + n..];
    }
  }
}

/** Words of bits, the numbers they stand for, and the number of places at which two differ. */
module BitWords {
  function BitsValue(bits: seq<bool>): nat {
    if |bits| == 0 then 0 else 2 * BitsValue(bits[..|bits| - 1]) + if bits[|bits| - 1] then 1 else 0
  }

  lemma PushValue(bits: seq<bool>, bit: bool)
    ensures BitsValue(bits + [bit]) == 2 * BitsValue(bits) + if bit then 1 else 0
  {
    assert (bits + [bit])[..|bits|] == bits;
  }

  // ----- Bit operations on numbers

  function Xor(x: nat, y: nat): nat
    decreases x + y
  {
    if x == 0 && y == 0 then 0 else 2 * Xor(x / 2, y / 2) + if x % 2 == y % 2 then 0 else 1
  }

  function And(x: nat, y: nat): nat {
    if x == 0 then 0 else 2 * And(x / 2, y / 2) + if x % 2 == 1 && y % 2 == 1 then 1 else 0
  }

  function Ones(n: nat): nat {
    if n == 0 then 0 else n % 2 + Ones(n / 2)
  }

  lemma {:induction false} AndSelf(z: nat)
    ensures And(z, z) == z
  {
    if z > 0 {
      AndSelf(z / 2);
    }
  }

  lemma {:induction false} XorSelf(x: nat)
    ensures Xor(x, x) == 0 && Ones(Xor(x, x)) == 0
  {
    if x > 0 {
      XorSelf(x / 2);
    }
  }

  /** z & (z - 1) clears one bit that was set, and no other. */
  lemma {:induction false} ClearLowest(z: nat)
    requires z > 0
    ensures And(z, z - 1) < z && Ones(And(z, z - 1)) + 1 == Ones(z)
  {
    var h := z / 2;
    if z % 2 == 1 {
      assert (z - 1) / 2 == h;
      AndSelf(h);
      assert And(z, z - 1) == 2 * h;
      assert 2 * h / 2 == h;
    } else {
      assert (z - 1) / 2 == h - 1;
      ClearLowest(h);
      var c := And(h, h - 1);
      assert And(z, z - 1) == 2 * c;
      assert 2 * c / 2 == c;
    }
  }

  /** Counts the bits set in x ^ y by clearing them one at a time. */
  method NumBitsDiffering(x: nat, y: nat) returns (bitCount: nat)
    ensures bitCount == Ones(Xor(x, y))
  {
    var z := Xor(x, y);
    bitCount := 0;
    while z != 0
      invariant bitCount + Ones(z) == Ones(Xor(x, y))
      decreases z
    {
      bitCount := bitCount + 1;
      ClearLowest(z);
      z := And(z, z - 1);
    }
  }

  /** The number of places at which two words of one length differ. */
  function Hamming(s: seq<bool>, t: seq<bool>): nat
    requires |s| == |t|
  {
    if s == [] then 0
    else
      var n := |s| - 1;
      Hamming(s[..n], t[..n]) + if s[n] != t[n] then 1 else 0
  }

  /** The loop counts exactly those places. */
  lemma {:induction false} OnesOfXor(s: seq<bool>, t: seq<bool>)
    requires |s| == |t|
    ensures Ones(Xor(BitsValue(s), BitsValue(t))) == Hamming(s, t)
  {
    if s != [] {
      var n := |s| - 1;
      OnesOfXor(s[..n], t[..n]);
      OnesStep(BitsValue(s[..n]), s[n], BitsValue(t[..n]), t[n]);
    }
  }

  lemma OnesStep(a: nat, b: bool, c: nat, d: bool)
    ensures Ones(Xor(2 * a + (if b then 1 else 0), 2 * c + (if d then 1 else 0))) ==
            Ones(Xor(a, c)) + if b != d then 1 else 0
  {
    var x, y := 2 * a + (if b then 1 else 0), 2 * c + (if d then 1 else 0);
    assert x / 2 == a && y / 2 == c;
    var z := Xor(a, c);
    assert Xor(x, y) == 2 * z + if b != d then 1 else 0;
    assert (2 * z + 1) / 2 == z && 2 * z / 2 == z;
  }

  lemma {:induction false} HammingTriangle(s: seq<bool>, t: seq<bool>, u: seq<bool>)
    requires |s| == |t| == |u|
    ensures Hamming(s, u) <= Hamming(s, t) + Hamming(t, u)
  {
    if s != [] {
      var n := |s| - 1;
      HammingTriangle(s[..n], t[..n], u[..n]);
    }
  }

  lemma {:induction false} HammingSymmetric(s: seq<bool>, t: seq<bool>)
    requires |s| == |t|
    ensures Hamming(s, t) == Hamming(t, s)
  {
    if s != [] {
      var n := |s| - 1;
      HammingSymmetric(s[..n], t[..n]);
    }
  }

  function Differs(s: seq<bool>, t: seq<bool>, i: nat): nat
    requires i < |s| == |t|
  {
    if s[i] != t[i] then 1 else 0
  }

  /** Three places at a time. */
  lemma HammingThree(s: seq<bool>, t: seq<bool>, n: nat)
    requires n + 3 <= |s| == |t|
    ensures Hamming(s[..n + 3], t[..n + 3]) ==
            Hamming(s[..n], t[..n]) + Differs(s, t, n) + Differs(s, t, n + 1) + Differs(s, t, n + 2)
  {
    HammingOne(s, t, n);
    HammingOne(s, t, n + 1);
    HammingOne(s, t, n + 2);
  }

  lemma HammingOne(s: seq<bool>, t: seq<bool>, n: nat)
    requires n < |s| == |t|
    ensures Hamming(s[..n + 1], t[..n + 1]) == Hamming(s[..n], t[..n]) + Differs(s, t, n)
  {
    assert s[..n + 1][..n] == s[..n] && t[..n + 1][..n] == t[..n];
  }

  lemma ValueThree(s: seq<bool>, n: nat)
    requires n + 3 <= |s|
    ensures BitsValue(s[..n + 3]) == 8 * BitsValue(s[..n]) + 4 * Bit(s, n) + 2 * Bit(s, n + 1) + Bit(s, n + 2)
  {
    ValueOne(s, n);
    ValueOne(s, n + 1);
    ValueOne(s, n + 2);
  }

  lemma ValueOne(s: seq<bool>, n: nat)
    requires n < |s|
    ensures BitsValue(s[..n + 1]) == 2 * BitsValue(s[..n]) + Bit(s, n)
  {
    assert s[..n + 1][..n] == s[..n];
  }

  function Bit(s: seq<bool>, i: nat): nat
    requires i < |s|
  {
    if s[i] then 1 else 0
  }
}

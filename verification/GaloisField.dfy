/** The field GF(2^8) of the QR error correction code, without tables: bytes added by
    exclusive or and multiplied as polynomials modulo x^8 + x^4 + x^3 + x^2 + 1. */
module GaloisField {

  type GF = bv8

  /** Multiplication by x. */
  function Double(x: GF): GF {
    (x << 1) ^ (if x & 0x80 == 0 then 0 else 0x1D)
  }

  function Iterate(n: nat, x: GF): GF
    decreases n
  {
    if n == 0 then x else Double(Iterate(n - 1, x))
  }

  function Add(a: GF, b: GF): GF {
    a ^ b
  }

  function Select(bit: bool, x: GF): GF {
    if bit then x else 0
  }

  /** The sum of b * x^k over the set bits k < n of a. */
  function Peasant(a: GF, b: GF, n: nat): GF
    decreases n
  {
    if n == 0 then 0 else Add(Select(a & 1 != 0, b), Peasant(a >> 1, Double(b), n - 1))
  }

  function Mul(a: GF, b: GF): GF {
    Peasant(a, b, 8)
  }

  /** The power x^n. */
  function Exp(n: nat): GF {
    Iterate(n, 1)
  }

  // ----- The additive group

  lemma AddComm(a: GF, b: GF)
    ensures Add(a, b) == Add(b, a)
  {}

  lemma AddAssoc(a: GF, b: GF, c: GF)
    ensures Add(Add(a, b), c) == Add(a, Add(b, c))
  {}

  lemma AddZero(a: GF)
    ensures Add(a, 0) == a && Add(0, a) == a && Add(a, a) == 0
  {}

  lemma AddCancel(a: GF, b: GF)
    ensures Add(a, Add(a, b)) == b && Add(Add(b, a), a) == b
    ensures Add(a, b) == 0 <==> a == b
  {}

  lemma Interchange(a: GF, b: GF, c: GF, d: GF)
    ensures Add(Add(a, b), Add(c, d)) == Add(Add(a, c), Add(b, d))
  {
    hide Add;
    AddAssoc(a, b, Add(c, d));
    AddAssoc(b, c, d);
    AddComm(b, c);
    AddAssoc(c, b, d);
    AddAssoc(a, c, Add(b, d));
  }

  // ----- Doubling is linear and injective

  lemma LowAndHighBit(x: GF)
    ensures x & 0x80 == 0 || x & 0x80 == 0x80
    ensures x & 1 == 0 || x & 1 == 1
  {}

  lemma DoubleLinear(x: GF, y: GF)
    ensures Double(Add(x, y)) == Add(Double(x), Double(y))
    ensures Double(0) == 0
  {
    LowAndHighBit(x);
    LowAndHighBit(y);
    assert ((x ^ y) << 1) == (x << 1) ^ (y << 1);
    assert ((x ^ y) & 0x80) == (x & 0x80) ^ (y & 0x80);
  }

  lemma DoubleInjective(x: GF, y: GF)
    requires Double(x) == Double(y)
    ensures x == y
  {}

  lemma {:induction false} IterateZero(n: nat)
    ensures Iterate(n, 0) == 0
  {
    if n > 0 {
      IterateZero(n - 1);
    }
  }

  lemma {:induction false} IterateAdd(m: nat, n: nat, x: GF)
    ensures Iterate(m + n, x) == Iterate(m, Iterate(n, x))
  {
    hide Double;
    if m > 0 {
      IterateAdd(m - 1, n, x);
    }
  }

  lemma {:induction false} IterateInjective(n: nat, x: GF, y: GF)
    requires Iterate(n, x) == Iterate(n, y)
    ensures x == y
  {
    hide Double;
    if n > 0 {
      DoubleInjective(Iterate(n - 1, x), Iterate(n - 1, y));
      IterateInjective(n - 1, x, y);
    }
  }

  // ----- The product is linear in both factors and commutes with doubling

  lemma SelectLinear(a: GF, b: GF, c: GF)
    ensures Select(Add(a, b) & 1 != 0, c) == Add(Select(a & 1 != 0, c), Select(b & 1 != 0, c))
    ensures Add(a, b) >> 1 == Add(a >> 1, b >> 1)
  {
    LowAndHighBit(a);
    LowAndHighBit(b);
    assert (a ^ b) & 1 == (a & 1) ^ (b & 1);
  }

  lemma SelectAdd(bit: bool, x: GF, y: GF)
    ensures Select(bit, Add(x, y)) == Add(Select(bit, x), Select(bit, y))
    ensures Select(bit, Double(x)) == Double(Select(bit, x))
  {}

  lemma {:induction false} PeasantAddRight(a: GF, b: GF, c: GF, n: nat)
    ensures Peasant(a, Add(b, c), n) == Add(Peasant(a, b, n), Peasant(a, c, n))
    decreases n
  {
    if n > 0 {
      hide Double, Add, Select;
      DoubleLinear(b, c);
      SelectAdd(a & 1 != 0, b, c);
      PeasantAddRight(a >> 1, Double(b), Double(c), n - 1);
      Interchange(Select(a & 1 != 0, b), Select(a & 1 != 0, c),
                  Peasant(a >> 1, Double(b), n - 1), Peasant(a >> 1, Double(c), n - 1));
    }
  }

  lemma {:induction false} PeasantAddLeft(a: GF, b: GF, c: GF, n: nat)
    ensures Peasant(Add(a, b), c, n) == Add(Peasant(a, c, n), Peasant(b, c, n))
    decreases n
  {
    if n > 0 {
      hide Double, Add, Select;
      SelectLinear(a, b, c);
      PeasantAddLeft(a >> 1, b >> 1, Double(c), n - 1);
      Interchange(Select(a & 1 != 0, c), Select(b & 1 != 0, c),
                  Peasant(a >> 1, Double(c), n - 1), Peasant(b >> 1, Double(c), n - 1));
    }
  }

  lemma {:induction false} PeasantZero(b: GF, n: nat)
    ensures Peasant(0, b, n) == 0 && Peasant(b, 0, n) == 0
    decreases n
  {
    if n > 0 {
      PeasantZero(Double(b), n - 1);
      PeasantZero(b >> 1, n - 1);
      assert (0 as GF) >> 1 == 0;
    }
  }

  lemma {:induction false} PeasantDoubleRight(a: GF, b: GF, n: nat)
    ensures Peasant(a, Double(b), n) == Double(Peasant(a, b, n))
    decreases n
  {
    DoubleLinear(0, 0);
    if n > 0 {
      hide Double, Add, Select;
      PeasantDoubleRight(a >> 1, Double(b), n - 1);
      SelectAdd(a & 1 != 0, b, b);
      DoubleLinear(Select(a & 1 != 0, b), Peasant(a >> 1, Double(b), n - 1));
    }
  }

  lemma MulAdd(a: GF, b: GF, c: GF)
    ensures Mul(a, Add(b, c)) == Add(Mul(a, b), Mul(a, c))
    ensures Mul(Add(a, b), c) == Add(Mul(a, c), Mul(b, c))
  {
    hide Add, Peasant;
    PeasantAddRight(a, b, c, 8);
    PeasantAddLeft(a, b, c, 8);
  }

  lemma {:induction false} PeasantCommute(c: GF, a: GF, b: GF, n: nat)
    ensures Mul(c, Peasant(a, b, n)) == Peasant(a, Mul(c, b), n)
    decreases n
  {
    PeasantZero(c, 8);
    if n > 0 {
      var bit, rest := a & 1 != 0, Peasant(a >> 1, Double(b), n - 1);
      assert Peasant(a, b, n) == Add(Select(bit, b), rest);
      assert Peasant(a, Mul(c, b), n) == Add(Select(bit, Mul(c, b)), Peasant(a >> 1, Double(Mul(c, b)), n - 1));
      MulAdd(c, Select(bit, b), rest);
      PeasantCommute(c, a >> 1, Double(b), n - 1);
      PeasantDoubleRight(c, b, 8);
      hide Double, Add, Peasant;
    }
  }

  lemma Unroll(a: GF, b: GF, n: nat)
    requires n > 0
    ensures Peasant(a, b, n) == Add(Select(a & 1 != 0, b), Peasant(a >> 1, Double(b), n - 1))
  {}

  lemma PowersBelow8()
    ensures Double(1) == 2 && Double(2) == 4 && Double(4) == 8 && Double(8) == 16
    ensures Double(16) == 32 && Double(32) == 64 && Double(64) == 128 && Double(128) == 29
  {}

  /** The sum of the b's at the bits that are set in a. */
  function Combination(a: GF, b0: GF, b1: GF, b2: GF, b3: GF, b4: GF, b5: GF, b6: GF, b7: GF): GF {
    var a2 := a >> 1 >> 1;
    var a4 := a2 >> 1 >> 1;
    var a6 := a4 >> 1 >> 1;
    Add(Select(a & 1 != 0, b0),
        Add(Select((a >> 1) & 1 != 0, b1),
            Add(Select(a2 & 1 != 0, b2),
                Add(Select((a2 >> 1) & 1 != 0, b3),
                    Add(Select(a4 & 1 != 0, b4),
                        Add(Select((a4 >> 1) & 1 != 0, b5),
                            Add(Select(a6 & 1 != 0, b6), Add(Select((a6 >> 1) & 1 != 0, b7), 0))))))))
  }

  lemma BitsOf(a: GF)
    ensures Combination(a, 1, 2, 4, 8, 16, 32, 64, 128) == a
  {}

  lemma MulOne(a: GF)
    ensures Mul(a, 1) == a
  {
    PowersBelow8();
    BitsOf(a);
    hide Double, Add, Select;
    var a2 := a >> 1 >> 1;
    var a4 := a2 >> 1 >> 1;
    var a6 := a4 >> 1 >> 1;
    Unroll(a, 1, 8);
    Unroll(a >> 1, 2, 7);
    Unroll(a2, 4, 6);
    Unroll(a2 >> 1, 8, 5);
    Unroll(a4, 16, 4);
    Unroll(a4 >> 1, 32, 3);
    Unroll(a6, 64, 2);
    Unroll(a6 >> 1, 128, 1);
  }

  lemma MulComm(a: GF, b: GF)
    ensures Mul(a, b) == Mul(b, a)
  {
    PeasantCommute(a, b, 1, 8);
    hide Peasant;
    MulOne(a);
    MulOne(b);
  }

  lemma MulAssoc(a: GF, b: GF, c: GF)
    ensures Mul(Mul(a, b), c) == Mul(a, Mul(b, c))
  {
    PeasantCommute(c, a, b, 8);
    hide Peasant;
    MulComm(Mul(a, b), c);
    MulComm(b, c);
  }

  lemma MulDouble(a: GF, b: GF)
    ensures Mul(Double(a), b) == Double(Mul(a, b))
  {
    PeasantDoubleRight(b, a, 8);
    hide Peasant, Double;
    MulComm(Double(a), b);
    MulComm(a, b);
  }

  lemma {:induction false} MulExp(n: nat, b: GF)
    ensures Mul(Exp(n), b) == Iterate(n, b)
  {
    hide Double, Add;
    if n > 0 {
      MulExp(n - 1, b);
      hide Mul;
      MulDouble(Exp(n - 1), b);
    } else {
      MulComm(1, b);
      MulOne(b);
      hide Mul;
    }
  }

  lemma ExpAdd(m: nat, n: nat)
    ensures Exp(m + n) == Mul(Exp(m), Exp(n))
  {
    hide Double, Mul;
    IterateAdd(m, n, 1);
    MulExp(m, Exp(n));
  }

  // ----- x generates the nonzero elements: its order is exactly 255

  lemma EvaluateMul(a: GF, b: GF, b1: GF, b2: GF, b3: GF, b4: GF, b5: GF, b6: GF, b7: GF, r: GF)
    requires b1 == Double(b) && b2 == Double(b1) && b3 == Double(b2) && b4 == Double(b3)
    requires b5 == Double(b4) && b6 == Double(b5) && b7 == Double(b6)
    requires r == Combination(a, b, b1, b2, b3, b4, b5, b6, b7)
    ensures Mul(a, b) == r
  {
    hide Double, Select, Add;
    var a2 := a >> 1 >> 1;
    var a4 := a2 >> 1 >> 1;
    var a6 := a4 >> 1 >> 1;
    Unroll(a, b, 8);
    Unroll(a >> 1, b1, 7);
    Unroll(a2, b2, 6);
    Unroll(a2 >> 1, b3, 5);
    Unroll(a4, b4, 4);
    Unroll(a4 >> 1, b5, 3);
    Unroll(a6, b6, 2);
    Unroll(a6 >> 1, b7, 1);
  }

  lemma SampleProducts()
    ensures Mul(29, 128) == 38 && Mul(38, 2) == 76 && Mul(76, 2) == 152
    ensures Mul(152, 152) == 78 && Mul(78, 152) == 10
    ensures Mul(10, 78) == 214 && Mul(214, 214) == 215 && Mul(215, 214) == 1
  {
    EvaluateMul(29, 128, 29, 58, 116, 232, 205, 135, 19, 38);
    EvaluateMul(38, 2, 4, 8, 16, 32, 64, 128, 29, 76);
    EvaluateMul(76, 2, 4, 8, 16, 32, 64, 128, 29, 152);
    EvaluateMul(152, 152, 45, 90, 180, 117, 234, 201, 143, 78);
    EvaluateMul(78, 152, 45, 90, 180, 117, 234, 201, 143, 10);
    EvaluateMul(10, 78, 156, 37, 74, 148, 53, 106, 212, 214);
    EvaluateMul(214, 214, 177, 127, 254, 225, 223, 163, 91, 215);
    EvaluateMul(215, 214, 177, 127, 254, 225, 223, 163, 91, 1);
  }

  lemma ProperDivisorsFail()
    ensures Exp(255) == 1
    ensures Exp(85) != 1 && Exp(51) != 1 && Exp(15) != 1
  {
    PowersBelow8();
    assert Exp(4) == 16 && Exp(1) == 2;
    assert Exp(7) == Double(Double(Double(Exp(4))));
    assert Exp(8) == Double(Double(Double(Double(Exp(4)))));
    SampleProducts();
    hide Exp, Mul;
    ExpAdd(8, 7);
    ExpAdd(15, 1);
    ExpAdd(16, 1);
    ExpAdd(17, 17);
    ExpAdd(34, 17);
    ExpAdd(51, 34);
    ExpAdd(85, 85);
    ExpAdd(170, 85);
  }

  lemma PeriodDifference(m: nat, n: nat)
    requires n <= m && Exp(m) == Exp(n)
    ensures Exp(m - n) == 1
  {
    hide Double;
    IterateAdd(n, m - n, 1);
    IterateInjective(n, Exp(m - n), 1);
  }

  lemma {:induction false} PeriodMultiple(d: nat, k: nat)
    requires Exp(d) == 1
    ensures Exp(d * k) == 1
  {
    hide Double;
    if k > 0 {
      PeriodMultiple(d, k - 1);
      IterateAdd(d * (k - 1), d, 1);
      assert d * k == d * (k - 1) + d;
    }
  }

  /** The least period d' <= d. */
  lemma {:induction false} LeastPeriod(d: nat) returns (d': nat)
    requires 0 < d && Exp(d) == 1
    ensures 0 < d' <= d && Exp(d') == 1
    ensures forall n: nat :: 0 < n < d' ==> Exp(n) != 1
  {
    hide Exp;
    if n: nat :| 0 < n < d && Exp(n) == 1 {
      d' := LeastPeriod(n);
    } else {
      d' := d;
    }
  }

  lemma ResidueProduct(q: nat, d: nat, k: nat)
    requires q > 0
    ensures exists m: int :: d * k == q * m + (d % q) * (k % q)
  {
    var a, r, b, s := d / q, d % q, k / q, k % q;
    calc {
      d * k;
      (q * a + r) * k;
      q * (a * k) + r * (q * b + s);
      q * (a * k + r * b) + r * s;
    }
  }

  lemma Prime3(d: nat, k: nat)
    ensures d % 3 != 0 && k % 3 != 0 ==> d * k % 3 != 0
  {
    ResidueProduct(3, d, k);
    var r, s := d % 3, k % 3;
    assert r == 0 || r == 1 || r == 2;
  }

  lemma Prime5(d: nat, k: nat)
    ensures d % 5 != 0 && k % 5 != 0 ==> d * k % 5 != 0
  {
    ResidueProduct(5, d, k);
    var r, s := d % 5, k % 5;
    assert r == 0 || r == 1 || r == 2 || r == 3 || r == 4;
  }

  lemma Prime17(e: nat, k: nat)
    ensures e > 1 && k > 1 ==> e * k != 17
  {
    if e > 8 && k > 1 {
      assert e * k >= 9 * k;
    } else {
      assert e == 0 || e == 1 || e == 2 || e == 3 || e == 4 || e == 5 || e == 6 || e == 7 || e == 8 || k <= 1;
    }
  }

  lemma FactorsOf255(d: nat, k: nat)
    requires d * k == 255 && k > 1
    ensures (exists j: nat :: d * j == 85) || (exists j: nat :: d * j == 51) || (exists j: nat :: d * j == 15)
  {
    Prime3(d, k);
    if k % 3 == 0 {
      assert d * (k / 3) == 85;
    } else {
      var b := d / 3;
      assert b * k == 85;
      Prime5(b, k);
      if k % 5 == 0 {
        assert b * (k / 5) == 17;
        assert d * (k / 5) == 51;
      } else {
        assert (b / 5) * k == 17;
        Prime17(b / 5, k);
        assert d * 1 == 15;
      }
    }
  }

  lemma OrderIs255(d: nat)
    requires 0 < d < 255
    ensures Exp(d) != 1
  {
    hide Exp;
    ProperDivisorsFail();
    if Exp(d) == 1 {
      var p := LeastPeriod(d);
      var k := 255 / p;
      PeriodMultiple(p, k);
      assert p * k <= 255 && 255 - p * k < p;
      PeriodDifference(255, p * k);
      FactorsOf255(p, k);
      forall j: nat ensures Exp(p * j) == 1 {
        PeriodMultiple(p, j);
      }
    }
  }

  // ----- Discrete logarithms

  lemma {:induction false} Pigeonhole(s: seq<nat>, n: nat)
    requires forall i :: 0 <= i < |s| ==> s[i] < n
    requires forall i, j :: 0 <= i < j < |s| ==> s[i] != s[j]
    ensures |s| <= n
    decreases n
  {
    assert |s| > 0 ==> s[0] < n;
    if n > 0 {
      if i :| 0 <= i < |s| && s[i] == n - 1 {
        Pigeonhole(s[..i] + s[i + 1..], n - 1);
      } else {
        Pigeonhole(s, n - 1);
      }
    }
  }

  lemma ByteToInt(x: GF, y: GF)
    ensures 0 <= x as int < 256
    ensures x as int == y as int ==> x == y
  {}

  lemma ExpNonzero(n: nat)
    ensures Exp(n) != 0
  {
    hide Double;
    IterateZero(n);
    if Exp(n) == 0 {
      IterateInjective(n, 1, 0);
    }
  }

  lemma ExpInjective(m: nat, n: nat)
    requires m < 255 && n < 255 && Exp(m) == Exp(n)
    ensures m == n
  {
    hide Exp;
    if m < n {
      PeriodDifference(n, m);
      OrderIs255(n - m);
    } else if n < m {
      PeriodDifference(m, n);
      OrderIs255(m - n);
    }
  }

  /** The 255 powers of x, then 0, then a. */
  function Candidate(a: GF, i: nat): GF {
    if i < 255 then Exp(i) else if i == 255 then 0 else a
  }

  lemma CandidatesDiffer(a: GF, i: nat, j: nat)
    requires a != 0 && (forall n: nat :: n < 255 ==> Exp(n) != a)
    requires i < j < 257
    ensures Candidate(a, i) as int != Candidate(a, j) as int
  {
    hide Exp;
    ByteToInt(Candidate(a, i), Candidate(a, j));
    if j < 255 {
      if Exp(i) == Exp(j) {
        ExpInjective(i, j);
      }
    } else if i < 255 {
      ExpNonzero(i);
    }
  }

  lemma LogExists(a: GF)
    requires a != 0
    ensures exists n: nat :: n < 255 && Exp(n) == a
  {
    hide Exp;
    if forall n: nat :: n < 255 ==> Exp(n) != a {
      hide Candidate;
      forall i: nat ensures Candidate(a, i) as int < 256 {
        ByteToInt(Candidate(a, i), 0);
      }
      var s: seq<nat> := seq(257, i requires 0 <= i < 257 => Candidate(a, i) as int);
      forall i, j | 0 <= i < j < 257 ensures s[i] != s[j] {
        CandidatesDiffer(a, i, j);
      }
      Pigeonhole(s, 256);
    }
  }

  ghost function Log(a: GF): (n: nat)
    requires a != 0
    ensures n < 255 && Exp(n) == a
  {
    LogExists(a);
    var n: nat :| n < 255 && Exp(n) == a;
    n
  }

  lemma LogExp(n: nat)
    requires n < 255
    ensures Exp(n) != 0 && Log(Exp(n)) == n
  {
    hide Exp;
    ExpNonzero(n);
    ExpInjective(n, Log(Exp(n)));
  }

  lemma ExpMod(n: nat)
    ensures Exp(n % 255) == Exp(n)
  {
    ProperDivisorsFail();
    PeriodMultiple(255, n / 255);
    ExpAdd(n % 255, 255 * (n / 255));
    MulExp(n % 255, 1);
    hide Double, Mul;
  }

  // ----- The multiplicative group

  lemma MulZero(a: GF, b: GF)
    ensures Mul(a, 0) == 0 && Mul(0, a) == 0
    ensures Mul(a, b) == 0 <==> a == 0 || b == 0
  {
    PeasantZero(a, 8);
    PeasantZero(b, 8);
    hide Double, Peasant;
    if a != 0 && b != 0 {
      MulExp(Log(a), b);
      IterateZero(Log(a));
      if Mul(a, b) == 0 {
        IterateInjective(Log(a), b, 0);
      }
    }
  }

  ghost function Inverse(a: GF): GF
    requires a != 0
  {
    Exp(255 - Log(a))
  }

  lemma MulInverse(a: GF)
    requires a != 0
    ensures Mul(a, Inverse(a)) == 1 && Mul(Inverse(a), a) == 1 && Inverse(a) != 0
  {
    hide Mul, Exp;
    ExpAdd(Log(a), 255 - Log(a));
    ProperDivisorsFail();
    MulComm(a, Inverse(a));
    MulZero(a, Inverse(a));
  }
}

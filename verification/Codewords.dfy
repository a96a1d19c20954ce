/** Received words as polynomials: their syndromes, the error list of the difference of two
    words, Hamming distance, and the minimum distance of the code. */
module Codewords {
  import opened GaloisField
  import opened Polynomials
  import opened PolynomialRoots
  import opened KeyEquation
  import opened ErrorLocation

  /** All m syndromes vanish: the values at x^0, ..., x^(m-1). */
  ghost predicate IsCodeword(w: Poly, m: nat) {
    forall j: nat :: j < m ==> Eval(w, Exp(j)) == 0
  }

  /** The number of positions at which two words of one length differ. */
  function Distance(a: Poly, b: Poly): nat
    requires |a| == |b|
  {
    if |a| == 0 then 0
    else Distance(Tail(a), Tail(b)) + if a[|a| - 1] != b[|a| - 1] then 1 else 0
  }

  function Difference(a: Poly, b: Poly): Poly
    requires |a| == |b|
  {
    seq(|a|, i requires 0 <= i < |a| => Add(a[i], b[i]))
  }

  /** The locators of the nonzero entries of e, whose last entry stands at power d. */
  function Locators(e: Poly, d: nat): seq<GF> {
    if |e| == 0 then [] else Locators(Tail(e), d + 1) + if Coef(e, 0) != 0 then [Exp(d)] else []
  }

  function Magnitudes(e: Poly): seq<GF> {
    if |e| == 0 then [] else Magnitudes(Tail(e)) + if Coef(e, 0) != 0 then [Coef(e, 0)] else []
  }

  // ----- Powers of powers

  lemma {:induction false} PowExp(d: nat, j: nat)
    ensures Pow(Exp(d), j) == Exp(d * j)
  {
    hide Mul, Exp;
    if j > 0 {
      PowExp(d, j - 1);
      ExpAdd(d, d * (j - 1));
      assert d + d * (j - 1) == d * j;
    } else {
      assert d * 0 == 0;
      ExpZero();
    }
  }

  lemma ExpZero()
    ensures Exp(0) == 1
  {}

  lemma PowSwap(d: nat, j: nat)
    ensures Pow(Exp(d), j) == Pow(Exp(j), d)
  {
    hide Mul, Exp, Pow;
    PowExp(d, j);
    PowExp(j, d);
    assert d * j == j * d;
  }

  lemma PowNext(d: nat, j: nat)
    ensures Mul(Pow(Exp(d), j), Exp(j)) == Pow(Exp(d + 1), j)
  {
    hide Mul, Exp, Pow;
    PowExp(d, j);
    PowExp(d + 1, j);
    ExpAdd(d * j, j);
    assert (d + 1) * j == d * j + j;
  }

  // ----- The error list of a word

  lemma {:induction false} LocatorsShape(e: Poly, d: nat)
    requires d + |e| <= 255
    ensures ErrorList(Locators(e, d), Magnitudes(e))
    ensures forall k :: 0 <= k < |Magnitudes(e)| ==> Magnitudes(e)[k] != 0
    ensures forall k :: 0 <= k < |Locators(e, d)| ==> exists i: nat :: d <= i < d + |e| && Locators(e, d)[k] == Exp(i)
  {
    hide Exp;
    if |e| > 0 {
      LocatorsShape(Tail(e), d + 1);
      ExpNonzero(d);
      forall i: nat | d + 1 <= i < d + |e| ensures Exp(i) != Exp(d) {
        if Exp(i) == Exp(d) {
          ExpInjective(i, d);
        }
      }
    }
  }

  lemma {:induction false} SyndromePrefix(xs: seq<GF>, ys: seq<GF>, x: GF, y: GF, n: nat, j: nat)
    requires n <= |xs| == |ys|
    ensures Syndrome(xs + [x], ys + [y], n, j) == Syndrome(xs, ys, n, j)
  {
    hide Add, Mul, Pow;
    if n > 0 {
      SyndromePrefix(xs, ys, x, y, n - 1, j);
    }
  }

  lemma {:induction false} WordSyndrome(e: Poly, d: nat, j: nat)
    requires |Locators(e, d)| == |Magnitudes(e)|
    ensures Mul(Pow(Exp(d), j), Eval(e, Exp(j))) == Syndrome(Locators(e, d), Magnitudes(e), |Magnitudes(e)|, j)
  {
    hide Add, Mul, Exp, Pow;
    var p, a := Pow(Exp(d), j), Exp(j);
    if |e| == 0 {
      MulZero(p, 0);
    } else {
      var t, c := Tail(e), Coef(e, 0);
      var xs, ys := Locators(t, d + 1), Magnitudes(t);
      WordSyndrome(t, d + 1, j);
      MulAdd(p, Mul(a, Eval(t, a)), c);
      MulAssoc(p, a, Eval(t, a));
      PowNext(d, j);
      if c == 0 {
        MulZero(p, 0);
        AddZero(Mul(p, Mul(a, Eval(t, a))));
        assert Locators(e, d) == xs && Magnitudes(e) == ys;
      } else {
        SyndromePrefix(xs, ys, Exp(d), c, |ys|, j);
        MulComm(p, c);
      }
    }
  }

  lemma WordSyndromeAtZero(e: Poly, j: nat)
    requires |Locators(e, 0)| == |Magnitudes(e)|
    ensures Eval(e, Exp(j)) == Syndrome(Locators(e, 0), Magnitudes(e), |Magnitudes(e)|, j)
  {
    hide Add, Mul, Exp, Pow, Eval, Locators, Magnitudes, Syndrome;
    WordSyndrome(e, 0, j);
    PowExp(0, j);
    ExpZero();
    assert 0 * j == 0;
    MulOne(Eval(e, Exp(j)));
    MulComm(1, Eval(e, Exp(j)));
  }

  // ----- Distance

  lemma {:induction false} LocatorsCount(a: Poly, b: Poly, d: nat)
    requires |a| == |b|
    ensures |Locators(Difference(a, b), d)| == Distance(a, b) == |Magnitudes(Difference(a, b))|
  {
    hide Add, Exp;
    if |a| > 0 {
      var e := Difference(a, b);
      assert Tail(e) == Difference(Tail(a), Tail(b));
      LocatorsCount(Tail(a), Tail(b), d + 1);
      AddCancel(a[|a| - 1], b[|a| - 1]);
    }
  }

  lemma {:induction false} DistanceZero(a: Poly, b: Poly)
    requires |a| == |b| && Distance(a, b) == 0
    ensures a == b
  {
    if |a| > 0 {
      DistanceZero(Tail(a), Tail(b));
      assert a == Tail(a) + [a[|a| - 1]] && b == Tail(b) + [b[|a| - 1]];
    }
  }

  lemma {:induction false} DistanceSelf(a: Poly)
    ensures Distance(a, a) == 0
  {
    if |a| > 0 {
      DistanceSelf(Tail(a));
    }
  }

  lemma {:induction false} DistanceTriangle(a: Poly, b: Poly, c: Poly)
    requires |a| == |b| == |c|
    ensures Distance(a, c) <= Distance(a, b) + Distance(b, c)
    ensures Distance(a, b) == Distance(b, a)
  {
    if |a| > 0 {
      DistanceTriangle(Tail(a), Tail(b), Tail(c));
    }
  }

  lemma {:induction false} DistanceUpdate(a: Poly, b: Poly, i: nat, v: GF)
    requires |a| == |b| && i < |b|
    ensures Distance(a, b[i := v]) <= Distance(a, b) + 1
  {
    if i == |b| - 1 {
      assert Tail(b[i := v]) == Tail(b);
    } else {
      assert Tail(b[i := v]) == Tail(b)[i := v];
      DistanceUpdate(Tail(a), Tail(b), i, v);
    }
  }

  /** The code with m check symbols has minimum distance at least m + 1. */
  lemma MinimumDistance(a: Poly, b: Poly, m: nat)
    requires |a| == |b| <= 255
    requires IsCodeword(a, m) && IsCodeword(b, m)
    requires Distance(a, b) <= m
    ensures a == b
  {
    hide Add, Mul, Exp, Eval, Locators, Magnitudes, Syndrome, Distance;
    var e := Difference(a, b);
    LocatorsCount(a, b, 0);
    LocatorsShape(e, 0);
    forall j: nat | j < m ensures Syndrome(Locators(e, 0), Magnitudes(e), |Locators(e, 0)|, j) == 0 {
      WordSyndromeAtZero(e, j);
      DifferenceEval(a, b, Exp(j));
      AddZero(0);
    }
    VanishingSyndromes(Locators(e, 0), Magnitudes(e), m);
    DistanceZero(a, b);
  }

  lemma DifferenceEval(a: Poly, b: Poly, x: GF)
    requires |a| == |b|
    ensures Eval(Difference(a, b), x) == Add(Eval(a, x), Eval(b, x))
  {
    hide Add, Eval, Coef, Difference;
    forall i: nat ensures Coef(Difference(a, b), i) == Add(Coef(a, i), Coef(b, i)) {
      DifferenceCoef(a, b, i);
    }
    EvalPlus(Difference(a, b), a, b, x);
  }

  lemma DifferenceCoef(a: Poly, b: Poly, i: nat)
    requires |a| == |b|
    ensures Coef(Difference(a, b), i) == Add(Coef(a, i), Coef(b, i))
  {
    hide Add;
    AddZero(0);
  }

  /** At most one codeword lies within half the number of check symbols of a word. */
  lemma UniqueCorrection(a: Poly, b: Poly, w: Poly, m: nat)
    requires |a| == |b| == |w| <= 255
    requires IsCodeword(a, m) && IsCodeword(b, m)
    requires 2 * Distance(a, w) <= m && 2 * Distance(b, w) <= m
    ensures a == b
  {
    hide Eval, Exp, Distance;
    DistanceTriangle(a, w, b);
    DistanceTriangle(w, b, a);
    MinimumDistance(a, b, m);
  }

  /** A codeword is determined by its data symbols: the other m symbols are its check symbols. */
  lemma DataDetermineCodeword(a: Poly, b: Poly, m: nat)
    requires m <= |a| == |b| <= 255
    requires IsCodeword(a, m) && IsCodeword(b, m)
    requires a[..|a| - m] == b[..|a| - m]
    ensures a == b
  {
    hide Eval, Exp, Distance;
    DistanceOfSuffix(a, b, m);
    MinimumDistance(a, b, m);
  }

  lemma {:induction false} DistanceOfSuffix(a: Poly, b: Poly, m: nat)
    requires m <= |a| == |b| && a[..|a| - m] == b[..|a| - m]
    ensures Distance(a, b) <= m
  {
    if m == 0 {
      assert a == a[..|a|] && b == b[..|a|];
      DistanceSelf(a);
    } else {
      assert Tail(a)[..|a| - m] == a[..|a| - m] && Tail(b)[..|a| - m] == b[..|a| - m];
      DistanceOfSuffix(Tail(a), Tail(b), m - 1);
    }
  }

  // ----- Changing one symbol

  lemma {:induction false} EvalUpdate(w: Poly, i: nat, y: GF, a: GF)
    requires i < |w|
    ensures Eval(w[i := Add(w[i], y)], a) == Add(Eval(w, a), Mul(y, Pow(a, |w| - 1 - i)))
  {
    hide Add, Mul;
    var w' := w[i := Add(w[i], y)];
    var t, c := Tail(w), Coef(w, 0);
    if i == |w| - 1 {
      assert Tail(w') == t;
      MulOne(y);
      AddAssoc(Mul(a, Eval(t, a)), c, y);
    } else {
      assert Tail(w') == t[i := Add(t[i], y)];
      EvalUpdate(t, i, y, a);
      var p := Pow(a, |t| - 1 - i);
      MulAdd(a, Eval(t, a), Mul(y, p));
      MulAssoc(a, y, p);
      MulComm(a, y);
      MulAssoc(y, a, p);
      assert Pow(a, |w| - 1 - i) == Mul(a, p);
      var u, z := Mul(a, Eval(t, a)), Mul(y, Mul(a, p));
      AddAssoc(u, z, c);
      AddComm(z, c);
      AddAssoc(u, c, z);
    }
  }

  // ----- Codewords are the multiples of the generator polynomial (Annex A of ISO/IEC 18004:2015)

  /** The product of x - x^j, j < m, over the field's own generator x. */
  function Generator(m: nat): Poly {
    if m == 0 then [1] else Prod([1, Exp(m - 1)], Generator(m - 1))
  }

  lemma RootFactorEval(a: GF, b: GF)
    ensures Eval([1, a], b) == Add(b, a)
  {
    hide Add, Mul;
    EvalStep([1, a], b);
    assert Tail([1, a]) == [1];
    EvalStep([1], b);
    EvalStep(Tail([1]), b);
    MulZero(b, 0);
    AddZero(1);
    MulOne(b);
  }

  lemma {:induction false} GeneratorRoots(m: nat, j: nat)
    requires j < m
    ensures Eval(Generator(m), Exp(j)) == 0
  {
    hide Add, Mul, Exp, Prod;
    EvalProd([1, Exp(m - 1)], Generator(m - 1), Exp(j));
    RootFactorEval(Exp(m - 1), Exp(j));
    if j == m - 1 {
      AddZero(Exp(j));
      MulZero(Eval(Generator(m - 1), Exp(j)), 0);
    } else {
      GeneratorRoots(m - 1, j);
      MulZero(Add(Exp(j), Exp(m - 1)), 0);
    }
  }

  /** Synthetic division: p = (x + a) quotient + p(a). */
  lemma {:induction false} QuotientConv(p: Poly, a: GF, n: nat)
    requires Eval(p, a) == 0
    ensures Coef(p, n) == Conv([1, a], Quotient(p, a), n)
  {
    hide Add, Mul, Quotient;
    var q := Quotient(p, a);
    QuotientCoef(p, a, n);
    LinearConv(a, q, n);
    AddZero(Conv([1, a], q, n));
  }

  lemma LinearConv(a: GF, q: Poly, n: nat)
    ensures Conv([1, a], q, n) == Add(Mul(a, Coef(q, n)), if n == 0 then 0 else Coef(q, n - 1))
  {
    hide Add, Mul;
    var f: Poly := [1, a];
    assert Tail(f) == [1];
    if n > 0 {
      ConvComm([1], q, n - 1);
      ConvOne(q, n - 1);
    }
  }

  lemma {:induction false} QuotientCoef(p: Poly, a: GF, n: nat)
    ensures Coef(p, n) == Add(Add(Mul(a, Coef(Quotient(p, a), n)), if n == 0 then 0 else Coef(Quotient(p, a), n - 1)),
                              if n == 0 then Eval(p, a) else 0)
    decreases n
  {
    hide Add, Mul;
    var q := Quotient(p, a);
    EvalStep(p, a);
    MulZero(a, 0);
    AddZero(0);
    var t := Tail(p);
    assert Tail(q) == Quotient(t, a);
    assert Coef(q, 0) == Eval(t, a);
    AddZero(Mul(a, Eval(t, a)));
    AddCancel(Mul(a, Eval(t, a)), Coef(p, 0));
    if n > 0 {
      QuotientCoef(t, a, n - 1);
      TailCoef(p, n - 1);
      TailCoef(q, n - 1);
      AddZero(Add(Mul(a, Coef(q, n)), Coef(q, n - 1)));
      if n == 1 {
        AddZero(Mul(a, Coef(q, 1)));
      } else {
        TailCoef(q, n - 2);
      }
    }
  }

  lemma {:induction false} CodewordFactors(w: Poly, m: nat) returns (q: Poly)
    requires m <= 255 && IsCodeword(w, m)
    ensures Same(w, Prod(q, Generator(m)))
    decreases m
  {
    hide Add, Mul, Exp, Eval, Prod, Conv, Quotient;
    if m == 0 {
      q := w;
      forall n: nat ensures Coef(w, n) == Coef(Prod(w, [1]), n) {
        ProdCoef(w, [1], n);
        ConvOne(w, n);
      }
    } else {
      var a := Exp(m - 1);
      var f: Poly, w', g := [1, a], Quotient(w, a), Generator(m - 1);
      forall j: nat | j < m - 1 ensures Eval(w', Exp(j)) == 0 {
        QuotientEval(w, a, Exp(j));
        AddZero(0);
        AddCancel(Exp(j), a);
        if Exp(j) == a {
          ExpInjective(j, m - 1);
        }
        MulZero(Add(Exp(j), a), Eval(w', Exp(j)));
      }
      q := CodewordFactors(w', m - 1);
      forall n: nat ensures Coef(w, n) == Coef(Prod(q, Prod(f, g)), n) {
        QuotientConv(w, a, n);
        MultipleOfProduct(f, q, g, w', n);
      }
    }
  }

  lemma MultipleOfProduct(f: Poly, q: Poly, g: Poly, w': Poly, n: nat)
    requires Same(w', Prod(q, g))
    ensures Conv(f, w', n) == Coef(Prod(q, Prod(f, g)), n)
  {
    hide Add, Mul, Prod, Conv;
    forall i: nat
      ensures Coef(w', i) == Conv(g, q, i)
      ensures Coef(Prod(f, g), i) == Conv(f, g, i)
    {
      ProdCoef(q, g, i);
      ConvComm(q, g, i);
      ProdCoef(f, g, i);
    }
    ConvAssoc(f, g, q, Prod(f, g), w', n);
    ConvComm(Prod(f, g), q, n);
    ProdCoef(q, Prod(f, g), n);
  }

  /** The code of the decoder is the code of the standard. */
  lemma CodewordsAreMultiples(w: Poly, m: nat)
    requires m <= 255
    ensures IsCodeword(w, m) <==> exists q: Poly :: Same(w, Prod(q, Generator(m)))
  {
    hide Add, Mul, Exp, Eval, Prod, Conv, Generator, Coef;
    if IsCodeword(w, m) {
      var q := CodewordFactors(w, m);
    }
    if q: Poly :| Same(w, Prod(q, Generator(m))) {
      forall j: nat | j < m ensures Eval(w, Exp(j)) == 0 {
        EvalSame(w, Prod(q, Generator(m)), Exp(j));
        EvalProd(q, Generator(m), Exp(j));
        GeneratorRoots(m, j);
        MulZero(Eval(q, Exp(j)), 0);
      }
    }
  }

  // ----- Systematic encoding

  /** The generator has degree m and leading coefficient 1. */
  lemma {:induction false} GeneratorLead(m: nat)
    ensures Coef(Generator(m), m) == 1 && DegreeBelow(Generator(m), m + 1)
  {
    hide Add, Mul, Exp, Prod, Conv;
    if m > 0 {
      var f: Poly, g := [1, Exp(m - 1)], Generator(m - 1);
      GeneratorLead(m - 1);
      forall i: nat | i >= m ensures Coef(Generator(m), i) == if i == m then 1 else 0 {
        ProdCoef(f, g, i);
        ConvDegree(f, g, 1, m - 1, i);
        MulOne(1);
      }
    }
  }

  /** A codeword of m + 1 symbols that begins with 1. */
  lemma MonicCodeword(m: nat) returns (g: Poly)
    ensures |g| == m + 1 && g[0] == 1 && IsCodeword(g, m)
  {
    hide Add, Mul, Exp, Eval, Generator, Coef;
    var gen := Generator(m);
    g := seq(m + 1, i requires 0 <= i <= m => Coef(gen, m - i));
    GeneratorLead(m);
    forall i: nat ensures Coef(g, i) == Coef(gen, i) {
      CoefAt(g, i);
    }
    forall j: nat | j < m ensures Eval(g, Exp(j)) == 0 {
      EvalSame(g, gen, Exp(j));
      GeneratorRoots(m, j);
    }
  }

  lemma CoefAt(p: Poly, i: nat)
    ensures Coef(p, i) == if i < |p| then p[|p| - 1 - i] else 0
  {}

  /** A codeword times x, plus a multiple of another, is a codeword. */
  lemma AddMultiple(v: Poly, g: Poly, n: nat, k: GF, m: nat) returns (r: Poly)
    requires |v| == n + m && IsCodeword(v, m) && |g| == m + 1 && IsCodeword(g, m)
    ensures |r| == n + m + 1 && IsCodeword(r, m)
    ensures r[..n] == v[..n] && r[n] == Add((v + [0])[n], Mul(k, g[0]))
  {
    hide Add, Mul, Exp, Eval, Coef;
    var w: Poly := v + [0];
    var scaled := seq(m + 1, i requires 0 <= i <= m => Mul(k, g[i]));
    r := seq(n + m + 1, i requires 0 <= i <= n + m => if i < n then w[i] else Add(w[i], scaled[i - n]));
    forall i: nat
      ensures Coef(scaled, i) == Mul(k, Coef(g, i)) && Coef(r, i) == Add(Coef(w, i), Coef(scaled, i))
    {
      CoefAt(scaled, i);
      CoefAt(g, i);
      CoefAt(r, i);
      CoefAt(w, i);
      MulZero(k, 0);
      AddZero(Coef(w, i));
    }
    forall j: nat | j < m ensures Eval(r, Exp(j)) == 0 {
      var a := Exp(j);
      EvalPlus(r, w, scaled, a);
      EvalScale(scaled, k, g, a);
      EvalStep(w, a);
      assert Tail(w) == v;
      CoefAt(w, 0);
      MulZero(a, 0);
      MulZero(k, 0);
      AddZero(0);
    }
  }

  /** Every sequence of data symbols has check symbols that complete it to a codeword. */
  lemma {:induction false} CheckSymbols(data: Poly, m: nat) returns (check: Poly)
    ensures |check| == m && IsCodeword(data + check, m)
    decreases |data|
  {
    hide Add, Mul, Exp, Eval, Generator;
    if data == [] {
      check := seq(m, _ => 0);
      assert data + check == check;
      forall j: nat | j < m ensures Eval(check, Exp(j)) == 0 {
        EvalZero(check, Exp(j));
      }
    } else {
      var n := |data| - 1;
      var before := CheckSymbols(data[..n], m);
      var g := MonicCodeword(m);
      var v := data[..n] + before;
      var next := (v + [0])[n];
      var k := Add(next, data[n]);
      var r := AddMultiple(v, g, n, k, m);
      MulOne(k);
      AddCancel(next, data[n]);
      check := r[n + 1..];
      assert r[..n] == data[..n] && r == r[..n] + [r[n]] + check;
      assert data == data[..n] + [data[n]];
    }
  }
}

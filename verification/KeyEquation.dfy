/** The algebra behind Reed-Solomon decoding (Annex B of ISO/IEC 18004:2015): locator and
    evaluator polynomials of an error list, the key equation that ties them to the syndromes,
    Forney's formula, and why a short error list is determined by its syndromes. */
module KeyEquation {
  import opened GaloisField
  import opened Polynomials
  import opened PolynomialRoots

  // An error list is a pair of sequences: xs holds the locators, ys the magnitudes.

  /** The factor 1 + c x. */
  function Factor(c: GF): Poly {
    [c, 1]
  }

  /** The locator: the product of 1 + xs[k] x for k < n. */
  function Locator(xs: seq<GF>, n: nat): Poly
    requires n <= |xs|
  {
    if n == 0 then [1] else Prod(Factor(xs[n - 1]), Locator(xs, n - 1))
  }

  /** The evaluator: the sum of ys[k] times the product of the other factors. */
  function Evaluator(xs: seq<GF>, ys: seq<GF>, n: nat): Poly
    requires n <= |xs| == |ys|
  {
    if n == 0 then []
    else Plus(Prod(Factor(xs[n - 1]), Evaluator(xs, ys, n - 1)), Scale(ys[n - 1], Locator(xs, n - 1)))
  }

  /** The j-th syndrome: the sum of ys[k] * xs[k]^j. */
  function Syndrome(xs: seq<GF>, ys: seq<GF>, n: nat, j: nat): GF
    requires n <= |xs| == |ys|
  {
    if n == 0 then 0 else Add(Syndrome(xs, ys, n - 1, j), Mul(ys[n - 1], Pow(xs[n - 1], j)))
  }

  /** The product of 1 + xs[l] a over l < n other than k. */
  function Others(xs: seq<GF>, k: nat, a: GF, n: nat): GF
    requires n <= |xs|
  {
    if n == 0 then 1
    else if n - 1 == k then Others(xs, k, a, n - 1)
    else Mul(Others(xs, k, a, n - 1), Add(1, Mul(xs[n - 1], a)))
  }

  function SyndromeSeries(xs: seq<GF>, ys: seq<GF>, n: nat, m: nat): Poly
    requires n <= |xs| == |ys|
  {
    seq(m, k requires 0 <= k < m => Syndrome(xs, ys, n, m - 1 - k))
  }

  function Geometric(c: GF, m: nat): Poly {
    seq(m, k requires 0 <= k < m => Pow(c, m - 1 - k))
  }

  lemma SeriesCoef(xs: seq<GF>, ys: seq<GF>, n: nat, m: nat, j: nat)
    requires n <= |xs| == |ys| && j < m
    ensures Coef(SyndromeSeries(xs, ys, n, m), j) == Syndrome(xs, ys, n, j)
  {
    hide Syndrome;
    var s := SyndromeSeries(xs, ys, n, m);
    assert Coef(s, j) == s[m - 1 - j];
  }

  lemma GeometricCoef(c: GF, m: nat, j: nat)
    requires j < m
    ensures Coef(Geometric(c, m), j) == Pow(c, j)
  {
    hide Pow;
    var g := Geometric(c, m);
    assert Coef(g, j) == g[m - 1 - j];
  }

  ghost predicate ErrorList(xs: seq<GF>, ys: seq<GF>) {
    |xs| == |ys| && Distinct(xs) && (forall k :: 0 <= k < |xs| ==> xs[k] != 0)
  }

  // ----- Multiplication by one factor

  lemma FactorConv(c: GF, p: Poly, n: nat)
    ensures Conv(Factor(c), p, n) == Add(Coef(p, n), if n == 0 then 0 else Mul(c, Coef(p, n - 1)))
  {
    hide Add, Mul;
    var f := Factor(c);
    MulOne(Coef(p, n));
    MulComm(1, Coef(p, n));
    if n > 0 {
      assert Tail(f) == [c];
      assert Coef(Tail(f), 0) == c;
      AddZero(Mul(c, Coef(p, n - 1)));
      if n > 1 {
        ConvZero(Tail(Tail(f)), p, n - 2);
      }
    }
  }

  lemma FactorEval(c: GF, a: GF)
    ensures Eval(Factor(c), a) == Add(1, Mul(c, a))
  {
    hide Add, Mul;
    var f := Factor(c);
    EvalStep(f, a);
    assert Tail(f) == [c];
    EvalStep([c], a);
    EvalStep(Tail([c]), a);
    MulZero(a, 0);
    AddZero(c);
    MulComm(a, c);
    AddComm(Mul(c, a), 1);
  }

  /** (1 + c x) (1 + c x + c^2 x^2 + ...) = 1, up to x^m. */
  lemma GeometricInverse(c: GF, m: nat, i: nat)
    requires i < m
    ensures Coef(Prod(Factor(c), Geometric(c, m)), i) == Coef([1], i)
  {
    hide Add, Mul, Prod;
    var g := Geometric(c, m);
    ProdCoef(Factor(c), g, i);
    FactorConv(c, g, i);
    AddZero(1);
    GeometricCoef(c, m, i);
    if i > 0 {
      GeometricCoef(c, m, i - 1);
      AddZero(Coef(g, i));
    }
  }

  // ----- Shape of the locator and the evaluator

  lemma {:induction false} LocatorShape(xs: seq<GF>, n: nat)
    requires n <= |xs| && forall k :: 0 <= k < |xs| ==> xs[k] != 0
    ensures Coef(Locator(xs, n), 0) == 1
    ensures DegreeBelow(Locator(xs, n), n + 1) && Coef(Locator(xs, n), n) != 0
  {
    hide Add, Mul, Prod;
    if n > 0 {
      var c, p := xs[n - 1], Locator(xs, n - 1);
      LocatorShape(xs, n - 1);
      forall i: nat
        ensures Coef(Locator(xs, n), i) == Add(Coef(p, i), if i == 0 then 0 else Mul(c, Coef(p, i - 1)))
        ensures i > n ==> Coef(Locator(xs, n), i) == 0
      {
        ProdCoef(Factor(c), p, i);
        FactorConv(c, p, i);
        AddZero(0);
        MulZero(c, 0);
      }
      ProdCoef(Factor(c), p, 0);
      FactorConv(c, p, 0);
      AddZero(1);
      MulZero(c, Coef(p, n - 1));
      AddZero(Mul(c, Coef(p, n - 1)));
    }
  }

  lemma {:induction false} EvaluatorDegree(xs: seq<GF>, ys: seq<GF>, n: nat)
    requires n <= |xs| == |ys| && forall k :: 0 <= k < |xs| ==> xs[k] != 0
    ensures DegreeBelow(Evaluator(xs, ys, n), n)
  {
    hide Add, Mul, Prod, Plus, Scale, Locator;
    if n > 0 {
      var c, p, l := xs[n - 1], Evaluator(xs, ys, n - 1), Locator(xs, n - 1);
      EvaluatorDegree(xs, ys, n - 1);
      LocatorShape(xs, n - 1);
      AddZero(0);
      MulZero(c, 0);
      MulZero(ys[n - 1], 0);
      forall i: nat | i >= n ensures Coef(Evaluator(xs, ys, n), i) == 0 {
        PlusCoef(Prod(Factor(c), p), Scale(ys[n - 1], l), i);
        ProdCoef(Factor(c), p, i);
        FactorConv(c, p, i);
        ScaleCoef(ys[n - 1], l, i);
      }
    }
  }

  // ----- The key equation: locator times syndromes is the evaluator, up to x^m

  lemma {:induction false} KeyEquationHolds(xs: seq<GF>, ys: seq<GF>, n: nat, m: nat, i: nat)
    requires n <= |xs| == |ys| && i < m
    ensures Conv(Locator(xs, n), SyndromeSeries(xs, ys, n, m), i) == Coef(Evaluator(xs, ys, n), i)
    decreases n
  {
    hide Add, Mul, Prod, Plus, Scale, Conv;
    var s := SyndromeSeries(xs, ys, n, m);
    if n == 0 {
      forall j: nat | j <= i ensures Coef(s, j) == 0 {
        SeriesCoef(xs, ys, 0, m, j);
      }
      ConvZero(Locator(xs, n), s, i);
    } else {
      var c, y := xs[n - 1], ys[n - 1];
      var f, l, e := Factor(c), Locator(xs, n - 1), Evaluator(xs, ys, n - 1);
      var s', g := SyndromeSeries(xs, ys, n - 1, m), Geometric(c, m);
      var yg := Scale(y, g);
      forall j: nat | j <= i ensures Coef(s, j) == Add(Coef(s', j), Coef(yg, j)) && Coef(yg, j) == Mul(y, Coef(g, j)) {
        ScaleCoef(y, g, j);
        SeriesCoef(xs, ys, n, m, j);
        SeriesCoef(xs, ys, n - 1, m, j);
        GeometricCoef(c, m, j);
      }
      ConvComm(Locator(xs, n), s, i);
      ConvAddLeft(s, s', yg, Locator(xs, n), i);
      ConvComm(s', Locator(xs, n), i);
      ConvScaleLeft(y, yg, g, Locator(xs, n), i);
      ConvComm(g, Locator(xs, n), i);
      KeyEquationOldErrors(xs, ys, n, m, i);
      KeyEquationNewError(xs, n, m, i);
      PlusCoef(Prod(f, e), Scale(y, l), i);
      ScaleCoef(y, l, i);
    }
  }

  lemma KeyEquationOldErrors(xs: seq<GF>, ys: seq<GF>, n: nat, m: nat, i: nat)
    requires 0 < n <= |xs| == |ys| && i < m
    ensures Conv(Locator(xs, n), SyndromeSeries(xs, ys, n - 1, m), i)
         == Coef(Prod(Factor(xs[n - 1]), Evaluator(xs, ys, n - 1)), i)
    decreases n, 0
  {
    hide Add, Mul, Prod, Plus, Scale, Conv, SyndromeSeries, Evaluator;
    var f, l, e := Factor(xs[n - 1]), Locator(xs, n - 1), Evaluator(xs, ys, n - 1);
    var s' := SyndromeSeries(xs, ys, n - 1, m);
    forall j: nat | j <= i
      ensures Coef(Locator(xs, n), j) == Conv(f, l, j)
      ensures Coef(e, j) == Conv(l, s', j)
    {
      ProdCoef(f, l, j);
      KeyEquationHolds(xs, ys, n - 1, m, j);
    }
    ConvAssoc(f, l, s', Locator(xs, n), e, i);
    ProdCoef(f, e, i);
  }

  lemma KeyEquationNewError(xs: seq<GF>, n: nat, m: nat, i: nat)
    requires 0 < n <= |xs| && i < m
    ensures Conv(Locator(xs, n), Geometric(xs[n - 1], m), i) == Coef(Locator(xs, n - 1), i)
  {
    hide Add, Mul, Prod, Conv, Geometric;
    var c, l := xs[n - 1], Locator(xs, n - 1);
    var f, g := Factor(c), Geometric(c, m);
    forall j: nat | j <= i
      ensures Coef(Locator(xs, n), j) == Conv(l, f, j)
      ensures Coef(Prod(f, g), j) == Conv(f, g, j)
      ensures Coef(Prod(f, g), j) == Coef([1], j)
    {
      ProdCoef(f, l, j);
      ConvComm(f, l, j);
      ProdCoef(f, g, j);
      GeometricInverse(c, m, j);
    }
    ConvAssoc(l, f, g, Locator(xs, n), Prod(f, g), i);
    ConvAgree(l, l, Prod(f, g), [1], i);
    ConvOne(l, i);
  }

  lemma ConvOne(p: Poly, n: nat)
    ensures Conv(p, [1], n) == Coef(p, n)
  {
    hide Add, Mul;
    ConvSplitRight(p, [1], n);
    MulOne(Coef(p, n));
    AddZero(Coef(p, n));
    if n > 0 {
      ConvZero(p, Tail([1]), n - 1);
    }
  }

  // ----- Values at the inverse locators

  lemma {:induction false} LocatorValue(xs: seq<GF>, k: nat, a: GF, n: nat)
    requires n <= |xs|
    ensures Eval(Locator(xs, n), a) == if k < n then Mul(Others(xs, k, a, n), Add(1, Mul(xs[k], a)))
                                       else Others(xs, k, a, n)
  {
    hide Add, Mul, Prod;
    if n == 0 {
      EvalStep([1], a);
      EvalStep(Tail([1]), a);
      MulZero(a, 0);
      AddZero(1);
    } else {
      var v := Add(1, Mul(xs[n - 1], a));
      var w, o := Eval(Locator(xs, n - 1), a), Others(xs, k, a, n - 1);
      EvalProd(Factor(xs[n - 1]), Locator(xs, n - 1), a);
      FactorEval(xs[n - 1], a);
      LocatorValue(xs, k, a, n - 1);
      MulComm(v, w);
      if k < n - 1 {
        var z := Add(1, Mul(xs[k], a));
        MulAssoc(o, z, v);
        MulComm(z, v);
        MulAssoc(o, v, z);
      }
    }
  }

  lemma RootFactor(c: GF)
    requires c != 0
    ensures Add(1, Mul(c, Inverse(c))) == 0
  {
    hide Add, Mul, Inverse;
    MulInverse(c);
    AddZero(1);
  }

  lemma LocatorRoot(xs: seq<GF>, k: nat, n: nat)
    requires k < n <= |xs| && xs[k] != 0
    ensures Eval(Locator(xs, n), Inverse(xs[k])) == 0
  {
    hide Add, Mul, Inverse, Locator, Others;
    LocatorValue(xs, k, Inverse(xs[k]), n);
    RootFactor(xs[k]);
    MulZero(Others(xs, k, Inverse(xs[k]), n), 0);
  }

  lemma {:induction false} EvaluatorValue(xs: seq<GF>, ys: seq<GF>, k: nat, n: nat)
    requires k < n <= |xs| == |ys| && xs[k] != 0
    ensures Eval(Evaluator(xs, ys, n), Inverse(xs[k])) == Mul(ys[k], Others(xs, k, Inverse(xs[k]), n))
  {
    hide Add, Mul, Prod, Plus, Scale, Inverse, Locator;
    var a := Inverse(xs[k]);
    var c, y := xs[n - 1], ys[n - 1];
    var e, l := Evaluator(xs, ys, n - 1), Locator(xs, n - 1);
    var u, v := Eval(e, a), Eval(l, a);
    forall i: nat
      ensures Coef(Evaluator(xs, ys, n), i) == Add(Coef(Prod(Factor(c), e), i), Coef(Scale(y, l), i))
      ensures Coef(Scale(y, l), i) == Mul(y, Coef(l, i))
    {
      PlusCoef(Prod(Factor(c), e), Scale(y, l), i);
      ScaleCoef(y, l, i);
    }
    EvalPlus(Evaluator(xs, ys, n), Prod(Factor(c), e), Scale(y, l), a);
    EvalScale(Scale(y, l), y, l, a);
    EvalProd(Factor(c), e, a);
    FactorEval(c, a);
    if k == n - 1 {
      RootFactor(c);
      MulZero(u, u);
      LocatorValue(xs, k, a, n - 1);
      AddZero(Mul(y, v));
    } else {
      EvaluatorValue(xs, ys, k, n - 1);
      LocatorRoot(xs, k, n - 1);
      MulZero(y, y);
      AddZero(Mul(Add(1, Mul(c, a)), u));
      MulComm(Add(1, Mul(c, a)), u);
      MulAssoc(ys[k], Others(xs, k, a, n - 1), Add(1, Mul(c, a)));
    }
  }

  lemma {:induction false} OthersNonzero(xs: seq<GF>, k: nat, n: nat)
    requires k < |xs| && n <= |xs| && xs[k] != 0 && Distinct(xs)
    ensures Others(xs, k, Inverse(xs[k]), n) != 0
  {
    hide Add, Mul, Inverse;
    var a := Inverse(xs[k]);
    if n > 0 {
      OthersNonzero(xs, k, n - 1);
      if n - 1 != k {
        var d := xs[n - 1];
        AddCancel(1, Mul(d, a));
        if Mul(d, a) == 1 {
          // then d = d (a c) = c
          MulInverse(xs[k]);
          MulAssoc(d, a, xs[k]);
          MulOne(d);
          MulOne(xs[k]);
          MulComm(1, xs[k]);
        }
        MulZero(Others(xs, k, a, n - 1), Add(1, Mul(d, a)));
      }
    }
  }

  lemma InverseInjective(a: GF, b: GF)
    requires a != 0 && b != 0 && Inverse(a) == Inverse(b)
    ensures a == b
  {
    hide Mul, Inverse;
    MulInverse(a);
    MulInverse(b);
    MulAssoc(a, Inverse(b), b);
    MulOne(a);
    MulOne(b);
    MulComm(1, b);
  }
}

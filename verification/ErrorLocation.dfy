/** Why the decoder's steps recover the errors: the Euclidean algorithm stops at the locator of
    any short error list, Forney's formula yields magnitudes that explain the syndromes, and no
    nonempty list of at most m errors has m vanishing syndromes. */
module ErrorLocation {
  import opened GaloisField
  import opened Polynomials
  import opened PolynomialRoots
  import opened KeyEquation

  /** t * s = r up to x^m. */
  ghost predicate Solves(t: Poly, r: Poly, s: Poly, m: nat) {
    forall n: nat :: n < m ==> Conv(t, s, n) == Coef(r, n)
  }

  ghost predicate Normal(p: Poly) {
    |p| > 0 && (|p| > 1 ==> p[0] != 0)
  }

  /** What the Euclidean algorithm on x^m and s maintains for two consecutive rows. */
  ghost predicate EuclidRows(s: Poly, m: nat, tLast: Poly, rLast: Poly, t: Poly, r: Poly) {
    && Normal(t) && Normal(r) && Normal(rLast)
    && t[0] != 0 && rLast[0] != 0
    && |t| + |rLast| == m + 2
    && DegreeBelow(tLast, |t| - 1)
    && 2 * (|rLast| - 1) >= m
    && |r| < |rLast|
    && Solves(t, r, s, m)
    && Solves(tLast, rLast, s, m)
  }

  ghost predicate Explains(xs: seq<GF>, ys: seq<GF>, s: Poly, m: nat)
    requires |xs| == |ys|
  {
    forall j: nat :: j < m ==> Coef(s, j) == Syndrome(xs, ys, |xs|, j)
  }

  lemma LengthDegree(p: Poly)
    ensures DegreeBelow(p, |p|)
    ensures |p| > 0 ==> Coef(p, |p| - 1) == p[0]
  {}

  lemma LocatorSolves(xs: seq<GF>, ys: seq<GF>, s: Poly, m: nat)
    requires |xs| == |ys| && Explains(xs, ys, s, m)
    ensures Solves(Locator(xs, |xs|), Evaluator(xs, ys, |xs|), s, m)
  {
    hide Add, Mul, Conv, Locator, Evaluator, SyndromeSeries, Syndrome;
    var l, s' := Locator(xs, |xs|), SyndromeSeries(xs, ys, |xs|, m);
    forall n: nat | n < m ensures Conv(l, s, n) == Coef(Evaluator(xs, ys, |xs|), n) {
      KeyEquationHolds(xs, ys, |xs|, m, n);
      forall j: nat | j < n + 1 ensures Coef(s, j) == Coef(s', j) {
        SeriesCoef(xs, ys, |xs|, m, j);
      }
      ConvAgree(l, l, s, s', n);
    }
  }

  /** Two solutions of the key equation agree crosswise. */
  lemma CrossProduct(t: Poly, r: Poly, l: Poly, e: Poly, s: Poly, m: nat, n: nat)
    requires Solves(t, r, s, m) && Solves(l, e, s, m) && n < m
    ensures Conv(t, e, n) == Conv(l, r, n)
  {
    hide Add, Mul, Conv, Prod;
    forall i: nat | i < n + 1
      ensures Coef(Prod(t, l), i) == Conv(t, l, i)
      ensures Coef(Prod(l, t), i) == Conv(l, t, i)
      ensures Coef(Prod(t, l), i) == Coef(Prod(l, t), i)
    {
      ProdCoef(t, l, i);
      ProdCoef(l, t, i);
      ConvComm(t, l, i);
    }
    ConvAssoc(t, l, s, Prod(t, l), e, n);
    ConvAssoc(l, t, s, Prod(l, t), r, n);
    ConvAgree(Prod(t, l), Prod(l, t), s, s, n);
  }

  // ----- The Euclidean algorithm finds the locator of every short error list

  ghost predicate ShortErrors(xs: seq<GF>, ys: seq<GF>, s: Poly, m: nat) {
    && ErrorList(xs, ys)
    && (forall k :: 0 <= k < |ys| ==> ys[k] != 0)
    && 1 <= |xs| && 2 * |xs| <= m
    && Explains(xs, ys, s, m)
  }

  lemma DegreeAtMostErrors(xs: seq<GF>, ys: seq<GF>, s: Poly, m: nat, tLast: Poly, rLast: Poly, t: Poly, r: Poly)
    requires ShortErrors(xs, ys, s, m) && EuclidRows(s, m, tLast, rLast, t, r)
    ensures |t| <= |xs| + 1
  {
    hide Add, Mul, Conv, Locator, Evaluator, Syndrome;
    var v, d := |xs|, |rLast| - 1;
    var l, e := Locator(xs, v), Evaluator(xs, ys, v);
    if |t| > v + 1 {
      LocatorSolves(xs, ys, s, m);
      CrossProduct(tLast, rLast, l, e, s, m, v + d);
      LocatorShape(xs, v);
      LengthDegree(rLast);
      ConvDegree(l, rLast, v, d, v + d);
      MulZero(Coef(l, v), Coef(rLast, d));
      EvaluatorDegree(xs, ys, v);
      ConvDegree(tLast, e, |t| - 2, v - 1, v + d);
    }
  }

  lemma CrossProductsEqual(xs: seq<GF>, ys: seq<GF>, s: Poly, m: nat, t: Poly, r: Poly, n: nat)
    requires ShortErrors(xs, ys, s, m) && Solves(t, r, s, m)
    requires 0 < |t| <= |xs| + 1 && 0 < |r| && 2 * (|r| - 1) < m
    ensures Conv(t, Evaluator(xs, ys, |xs|), n) == Conv(Locator(xs, |xs|), r, n)
  {
    hide Add, Mul, Conv, Locator, Evaluator, Syndrome;
    var v := |xs|;
    var l, e := Locator(xs, v), Evaluator(xs, ys, v);
    LocatorSolves(xs, ys, s, m);
    if n < m {
      CrossProduct(t, r, l, e, s, m, n);
    } else {
      EvaluatorDegree(xs, ys, v);
      LocatorShape(xs, v);
      LengthDegree(t);
      LengthDegree(r);
      ConvDegree(t, e, v, v - 1, n);
      ConvDegree(l, r, v, |r| - 1, n);
    }
  }

  lemma VanishesAtErrors(xs: seq<GF>, ys: seq<GF>, s: Poly, m: nat, t: Poly, r: Poly, k: nat)
    requires ShortErrors(xs, ys, s, m) && Solves(t, r, s, m)
    requires 0 < |t| <= |xs| + 1 && 0 < |r| && 2 * (|r| - 1) < m
    requires k < |xs|
    ensures Eval(t, Inverse(xs[k])) == 0
  {
    hide Add, Mul, Conv, Prod, Locator, Evaluator, Syndrome, Inverse, Others;
    var v, a := |xs|, Inverse(xs[k]);
    var l, e := Locator(xs, v), Evaluator(xs, ys, v);
    forall n: nat ensures Coef(Prod(t, e), n) == Coef(Prod(l, r), n) {
      CrossProductsEqual(xs, ys, s, m, t, r, n);
      ProdCoef(t, e, n);
      ProdCoef(l, r, n);
    }
    EvalSame(Prod(t, e), Prod(l, r), a);
    EvalProd(t, e, a);
    EvalProd(l, r, a);
    LocatorRoot(xs, k, v);
    MulZero(Eval(r, a), 0);
    EvaluatorValue(xs, ys, k, v);
    OthersNonzero(xs, k, v);
    MulZero(ys[k], Others(xs, k, a, v));
    MulZero(Eval(t, a), Eval(e, a));
  }

  ghost function Inverses(xs: seq<GF>): seq<GF>
    requires forall k :: 0 <= k < |xs| ==> xs[k] != 0
  {
    seq(|xs|, k requires 0 <= k < |xs| => Inverse(xs[k]))
  }

  lemma InversesDistinct(xs: seq<GF>)
    requires Distinct(xs) && forall k :: 0 <= k < |xs| ==> xs[k] != 0
    ensures Distinct(Inverses(xs)) && Distinct(Inverses(xs) + [0])
  {
    hide Inverse;
    var inv := Inverses(xs);
    forall i, j | 0 <= i < j < |xs| + 1 ensures (inv + [0])[i] != (inv + [0])[j] {
      MulInverse(xs[i]);
      if j < |xs| && inv[i] == inv[j] {
        InverseInjective(xs[i], xs[j]);
      }
    }
    forall i, j | 0 <= i < j < |xs| ensures inv[i] != inv[j] {
      assert (inv + [0])[i] != (inv + [0])[j];
    }
  }

  /** For a short error list, the row at which the algorithm stops is, up to a constant, its locator. */
  lemma EuclidFindsLocator(xs: seq<GF>, ys: seq<GF>, s: Poly, m: nat, tLast: Poly, rLast: Poly, t: Poly, r: Poly)
    requires ShortErrors(xs, ys, s, m) && EuclidRows(s, m, tLast, rLast, t, r) && 2 * (|r| - 1) < m
    ensures |t| == |xs| + 1 && Coef(t, 0) != 0
    ensures forall k :: 0 <= k < |xs| ==> Eval(t, Inverse(xs[k])) == 0
    ensures DegreeBelow(r, |xs|)
  {
    hide Add, Mul, Conv, Locator, Evaluator, Syndrome, Inverse, Eval;
    var v := |xs|;
    DegreeAtMostErrors(xs, ys, s, m, tLast, rLast, t, r);
    var inv := Inverses(xs);
    forall k | 0 <= k < v ensures Eval(t, Inverse(xs[k])) == 0 && Eval(t, inv[k]) == 0 {
      VanishesAtErrors(xs, ys, s, m, t, r, k);
    }
    InversesDistinct(xs);
    LengthDegree(t);
    if |t| <= v {
      TooManyRoots(t, inv);
    } else if Coef(t, 0) == 0 {
      EvalAtZero(t);
      TooManyRoots(t, inv + [0]);
    }
    EvaluatorDegreeBound(xs, ys, s, m, t, r);
  }

  lemma EvalAtZero(p: Poly)
    ensures Eval(p, 0) == Coef(p, 0)
  {
    hide Add, Mul, Eval;
    EvalStep(p, 0);
    MulZero(Eval(Tail(p), 0), 0);
    AddZero(Coef(p, 0));
  }

  lemma EvaluatorDegreeBound(xs: seq<GF>, ys: seq<GF>, s: Poly, m: nat, t: Poly, r: Poly)
    requires ShortErrors(xs, ys, s, m) && Solves(t, r, s, m) && Normal(r)
    requires 0 < |t| <= |xs| + 1 && 2 * (|r| - 1) < m
    ensures DegreeBelow(r, |xs|)
  {
    hide Add, Mul, Conv, Locator, Evaluator, Syndrome;
    var v, d := |xs|, |r| - 1;
    LengthDegree(r);
    if d >= v {
      var l, e := Locator(xs, v), Evaluator(xs, ys, v);
      CrossProductsEqual(xs, ys, s, m, t, r, v + d);
      EvaluatorDegree(xs, ys, v);
      LocatorShape(xs, v);
      LengthDegree(t);
      ConvDegree(t, e, v, v - 1, v + d);
      ConvDegree(l, r, v, d, v + d);
      MulZero(Coef(l, v), Coef(r, d));
    }
  }

  // ----- Few errors cannot have vanishing syndromes

  lemma VanishingSyndromes(xs: seq<GF>, ys: seq<GF>, m: nat)
    requires ErrorList(xs, ys) && |xs| <= m
    requires forall k :: 0 <= k < |ys| ==> ys[k] != 0
    requires forall j: nat :: j < m ==> Syndrome(xs, ys, |xs|, j) == 0
    ensures xs == []
  {
    hide Add, Mul, Conv, Locator, Evaluator, Syndrome, Inverse, Others;
    var v := |xs|;
    if v > 0 {
      var l, e := Locator(xs, v), Evaluator(xs, ys, v);
      LocatorSolves(xs, ys, [], m);
      EvaluatorDegree(xs, ys, v);
      forall n: nat ensures Coef(e, n) == 0 {
        ConvZero(l, [], n);
      }
      EvalZero(e, Inverse(xs[0]));
      EvaluatorValue(xs, ys, 0, v);
      OthersNonzero(xs, 0, v);
      MulZero(ys[0], Others(xs, 0, Inverse(xs[0]), v));
    }
  }

  // ----- Forney's formula

  ghost function Magnitude(omega: Poly, xs: seq<GF>, k: nat): GF
    requires k < |xs| && xs[k] != 0 && Distinct(xs)
  {
    var a := Inverse(xs[k]);
    OthersNonzero(xs, k, |xs|);
    Mul(Eval(omega, a), Inverse(Others(xs, k, a, |xs|)))
  }

  lemma SameByRoots(p: Poly, q: Poly, points: seq<GF>)
    requires DegreeBelow(p, |points|) && DegreeBelow(q, |points|) && Distinct(points)
    requires forall k :: 0 <= k < |points| ==> Eval(p, points[k]) == Eval(q, points[k])
    ensures Same(p, q)
  {
    hide Add, Mul, Eval, Plus;
    var d := Plus(p, q);
    AddZero(0);
    forall i: nat ensures Coef(d, i) == Add(Coef(p, i), Coef(q, i)) {
      PlusCoef(p, q, i);
    }
    forall k | 0 <= k < |points| ensures Eval(d, points[k]) == 0 {
      EvalPlus(d, p, q, points[k]);
      AddZero(Eval(p, points[k]));
    }
    TooManyRoots(d, points);
    forall i: nat ensures Coef(p, i) == Coef(q, i) {
      AddCancel(Coef(p, i), Coef(q, i));
    }
  }

  /** A polynomial with the locator's roots, degree and constant term is the locator. */
  lemma LocatorByRoots(xs: seq<GF>, sigma: Poly)
    requires Distinct(xs) && forall k :: 0 <= k < |xs| ==> xs[k] != 0
    requires DegreeBelow(sigma, |xs| + 1) && Coef(sigma, 0) == 1
    requires forall k :: 0 <= k < |xs| ==> Eval(sigma, Inverse(xs[k])) == 0
    ensures Same(sigma, Locator(xs, |xs|))
  {
    hide Add, Mul, Eval, Locator, Inverse;
    var l, points := Locator(xs, |xs|), Inverses(xs) + [0];
    LocatorShape(xs, |xs|);
    InversesDistinct(xs);
    EvalAtZero(sigma);
    EvalAtZero(l);
    forall k | 0 <= k < |points| ensures Eval(sigma, points[k]) == Eval(l, points[k]) {
      if k < |xs| {
        LocatorRoot(xs, k, |xs|);
      }
    }
    SameByRoots(sigma, l, points);
  }

  /** Series with the same product with a unit agree. */
  lemma {:induction false} CancelUnit(l: Poly, s: Poly, s': Poly, m: nat)
    requires Coef(l, 0) == 1
    requires forall n: nat :: n < m ==> Conv(l, s, n) == Conv(l, s', n)
    ensures Agree(s, s', m)
  {
    hide Add, Mul;
    if m > 0 {
      var n := m - 1;
      CancelUnit(l, s, s', n);
      MulOne(Coef(s, n));
      MulOne(Coef(s', n));
      MulComm(1, Coef(s, n));
      MulComm(1, Coef(s', n));
      if n > 0 {
        var c := Conv(Tail(l), s, n - 1);
        ConvAgree(Tail(l), Tail(l), s, s', n - 1);
        assert Conv(l, s, n) == Add(Coef(s, n), c) && Conv(l, s', n) == Add(Coef(s', n), c);
        AddCancel(c, Coef(s, n));
        AddCancel(c, Coef(s', n));
      } else {
        assert Conv(l, s, n) == Add(Coef(s, n), 0) && Conv(l, s', n) == Add(Coef(s', n), 0);
        AddZero(Coef(s, n));
        AddZero(Coef(s', n));
      }
    }
  }

  /** Forney's formula is sound: with all roots found and deg omega < deg sigma, the computed
      magnitudes at the found locators have exactly the syndromes s. */
  lemma ForneySound(xs: seq<GF>, ys: seq<GF>, sigma: Poly, omega: Poly, s: Poly, m: nat)
    requires ErrorList(xs, ys)
    requires DegreeBelow(sigma, |xs| + 1) && Coef(sigma, 0) == 1
    requires forall k :: 0 <= k < |xs| ==> Eval(sigma, Inverse(xs[k])) == 0
    requires DegreeBelow(omega, |xs|)
    requires forall k :: 0 <= k < |xs| ==> ys[k] == Magnitude(omega, xs, k)
    requires Solves(sigma, omega, s, m)
    ensures Explains(xs, ys, s, m)
  {
    hide Add, Mul, Eval, Locator, Evaluator, Inverse, Others, Conv, Syndrome, SyndromeSeries;
    var v := |xs|;
    var l, e, s' := Locator(xs, v), Evaluator(xs, ys, v), SyndromeSeries(xs, ys, v, m);
    LocatorByRoots(xs, sigma);
    EvaluatorDegree(xs, ys, v);
    InversesDistinct(xs);
    var points := Inverses(xs);
    forall k | 0 <= k < v ensures Eval(omega, points[k]) == Eval(e, points[k]) {
      var a, o := Inverse(xs[k]), Others(xs, k, Inverse(xs[k]), v);
      EvaluatorValue(xs, ys, k, v);
      OthersNonzero(xs, k, v);
      MulInverse(o);
      MulAssoc(Eval(omega, a), Inverse(o), o);
      MulOne(Eval(omega, a));
    }
    SameByRoots(omega, e, points);
    forall n: nat | n < m ensures Conv(l, s, n) == Conv(l, s', n) {
      KeyEquationHolds(xs, ys, v, m, n);
      ConvAgree(sigma, l, s, s, n);
    }
    LocatorShape(xs, v);
    CancelUnit(l, s, s', m);
    forall j: nat | j < m ensures Coef(s, j) == Syndrome(xs, ys, v, j) {
      SeriesCoef(xs, ys, v, m, j);
    }
  }

  /** The converse: if some magnitudes at the found locators explain s, then deg omega < deg sigma. */
  lemma ForneyComplete(xs: seq<GF>, ys: seq<GF>, sigma: Poly, omega: Poly, s: Poly, m: nat)
    requires ErrorList(xs, ys)
    requires DegreeBelow(sigma, |xs| + 1) && Coef(sigma, 0) == 1
    requires forall k :: 0 <= k < |xs| ==> Eval(sigma, Inverse(xs[k])) == 0
    requires DegreeBelow(omega, m)
    requires Solves(sigma, omega, s, m)
    requires Explains(xs, ys, s, m)
    ensures DegreeBelow(omega, |xs|)
  {
    hide Add, Mul, Eval, Locator, Evaluator, Inverse, Conv, Syndrome;
    var v := |xs|;
    var l, e := Locator(xs, v), Evaluator(xs, ys, v);
    LocatorByRoots(xs, sigma);
    LocatorSolves(xs, ys, s, m);
    EvaluatorDegree(xs, ys, v);
    forall n: nat | n >= v ensures Coef(omega, n) == 0 {
      if n < m {
        ConvAgree(sigma, l, s, s, n);
      }
    }
  }

  /** With all roots found, Forney's magnitudes explain the syndromes exactly when deg omega < deg sigma. */
  lemma ForneyExact(xs: seq<GF>, ys: seq<GF>, sigma: Poly, omega: Poly, s: Poly, m: nat)
    requires ErrorList(xs, ys)
    requires DegreeBelow(sigma, |xs| + 1) && Coef(sigma, 0) == 1
    requires forall k :: 0 <= k < |xs| ==> Eval(sigma, Inverse(xs[k])) == 0
    requires DegreeBelow(omega, m)
    requires forall k :: 0 <= k < |xs| ==> ys[k] == Magnitude(omega, xs, k)
    requires Solves(sigma, omega, s, m)
    ensures Explains(xs, ys, s, m) <==> DegreeBelow(omega, |xs|)
  {
    hide Add, Mul, Eval, Inverse, Conv, Syndrome, Solves;
    if DegreeBelow(omega, |xs|) {
      ForneySound(xs, ys, sigma, omega, s, m);
    }
    if Explains(xs, ys, s, m) {
      ForneyComplete(xs, ys, sigma, omega, s, m);
    }
  }
}

/** The Reed-Solomon decoder of the QR scanner: syndromes, the Euclidean algorithm, Chien's
    search and Forney's formula, proved to correct every word within half the check length. */
module ReedSolomon {
  import opened Wrappers
  import opened GaloisField
  import opened Polynomials
  import opened PolynomialRoots
  import opened KeyEquation
  import opened ErrorLocation
  import opened Codewords
  import opened TableField
  import opened PolyOps

  // ----- The Euclidean algorithm

  /** r is what is left of dividend after subtracting q * divisor. */
  ghost predicate DivisionState(dividend: Poly, divisor: Poly, q: Poly, r: Poly) {
    forall n: nat :: Coef(dividend, n) == Add(Conv(q, divisor, n), Coef(r, n))
  }

  lemma DivisionStart(dividend: Poly, divisor: Poly)
    ensures DivisionState(dividend, divisor, [0], dividend)
  {
    hide Add, Mul, Conv;
    forall n: nat ensures Coef(dividend, n) == Add(Conv([0], divisor, n), Coef(dividend, n)) {
      ConvZero([0], divisor, n);
      AddZero(Coef(dividend, n));
    }
  }

  /** Conv of a monomial. */
  lemma {:induction false} ConvMonomial(mono: Poly, d: nat, c: GF, p: Poly, n: nat)
    requires forall i: nat :: Coef(mono, i) == if i == d then c else 0
    ensures Conv(mono, p, n) == if n < d then 0 else Mul(c, Coef(p, n - d))
    decreases d
  {
    hide Add, Mul;
    MulZero(Coef(p, n), 0);
    AddZero(0);
    if d == 0 {
      AddZero(Mul(c, Coef(p, n)));
      if n > 0 {
        forall i: nat ensures Coef(Tail(mono), i) == 0 {
          TailCoef(mono, i);
        }
        ConvZero(Tail(mono), p, n - 1);
      }
    } else if n > 0 {
      forall i: nat ensures Coef(Tail(mono), i) == if i == d - 1 then c else 0 {
        TailCoef(mono, i);
      }
      ConvMonomial(Tail(mono), d - 1, c, p, n - 1);
      AddZero(Conv(Tail(mono), p, n - 1));
    }
  }

  lemma DivisionStep(dividend: Poly, divisor: Poly, q: Poly, r: Poly, mono: Poly, d: nat, c: GF, q': Poly, r': Poly)
    requires DivisionState(dividend, divisor, q, r)
    requires forall i: nat :: Coef(mono, i) == if i == d then c else 0
    requires forall i: nat :: Coef(q', i) == Add(Coef(q, i), Coef(mono, i))
    requires forall i: nat :: Coef(r', i) == Add(Coef(r, i), if i < d then 0 else Mul(c, Coef(divisor, i - d)))
    ensures DivisionState(dividend, divisor, q', r')
  {
    hide Add, Mul, Conv;
    forall n: nat ensures Coef(dividend, n) == Add(Conv(q', divisor, n), Coef(r', n)) {
      ConvAddLeft(q', q, mono, divisor, n);
      ConvMonomial(mono, d, c, divisor, n);
      var u, v, w := Conv(q, divisor, n), Conv(mono, divisor, n), Coef(r, n);
      AddComm(w, v);
      AddAssoc(u, v, Add(v, w));
      AddCancel(v, w);
    }
  }

  /** Subtracting the matching multiple of the divisor removes the leading term. */
  lemma LeadingTermCancels(divisor: Poly, r: Poly, r': Poly, c: GF)
    requires Normal(divisor) && divisor[0] != 0 && Normal(r) && Normal(r')
    requires |divisor| <= |r| && 1 < |r|
    requires c == Mul(r[0], Inverse(divisor[0]))
    requires forall i: nat ::
               Coef(r', i) == Add(Coef(r, i), if i < |r| - |divisor| then 0
                                  else Mul(c, Coef(divisor, i - (|r| - |divisor|))))
    ensures |r'| < |r|
  {
    hide Add, Mul, Inverse;
    var top, d := |r| - 1, |r| - |divisor|;
    MulInverse(divisor[0]);
    MulAssoc(r[0], Inverse(divisor[0]), divisor[0]);
    MulOne(r[0]);
    assert Coef(divisor, top - d) == divisor[0];
    AddZero(r[0]);
    forall i: nat | i >= top ensures Coef(r', i) == 0 {
      if i > top {
        MulZero(c, 0);
        AddZero(0);
      }
    }
    assert Coef(r', |r'| - 1) == r'[0];
  }

  method Divide(field: GenericGF, dividend: Poly, divisor: Poly) returns (q: Poly, r: Poly)
    requires field.Valid() && Normal(dividend) && Normal(divisor)
    requires 1 < |divisor| < |dividend| && dividend[0] != 0
    ensures Normal(q) && Normal(r)
    ensures DivisionState(dividend, divisor, q, r)
    ensures |r| < |divisor|
    ensures |q| == |dividend| - |divisor| + 1 && q[0] != 0
  {
    hide Add, Mul, Conv, DivisionState, Inverse;
    r := dividend;
    q := [0];
    DivisionStart(dividend, divisor);
    var dltInverse := field.InverseOf(Coef(divisor, |divisor| - 1));
    while |r| >= |divisor| && !IsZeroPoly(r)
      invariant Normal(q) && Normal(r)
      invariant DivisionState(dividend, divisor, q, r)
      invariant (q == [0] && r == dividend)
                || (|q| == |dividend| - |divisor| + 1 && q[0] != 0 && |r| < |dividend|)
      decreases |r|
    {
      var degreeDiff := |r| - |divisor|;
      var scale := field.Multiply(Coef(r, |r| - 1), dltInverse);
      MulInverse(divisor[0]);
      MulZero(r[0], Inverse(divisor[0]));
      var mono := BuildMonomial(degreeDiff, scale);
      var q' := AddOrSubtract(q, mono);
      var multiple := TimesMonomial(field, divisor, degreeDiff, scale);
      var r' := AddOrSubtract(r, multiple);
      DivisionStep(dividend, divisor, q, r, mono, degreeDiff, scale, q', r');
      LeadingTermCancels(divisor, r, r', scale);
      QuotientLeads(q, mono, q', |dividend| - |divisor|);
      q := q';
      r := r';
    }
  }

  lemma QuotientLeads(q: Poly, mono: Poly, q': Poly, top: nat)
    requires Normal(q) && Normal(mono) && Normal(q') && mono[0] != 0
    requires (q == [0] && |mono| == top + 1) || (|q| == top + 1 && q[0] != 0 && |mono| < |q|)
    requires |q'| <= top + 1
    requires forall i: nat :: Coef(q', i) == Add(Coef(q, i), Coef(mono, i))
    ensures |q'| == top + 1 && q'[0] != 0
  {
    hide Add;
    AddZero(Coef(q, top));
    AddZero(Coef(mono, top));
    assert Coef(q', top) != 0;
  }

  lemma FirstRows(s: Poly, m: nat, xm: Poly)
    requires Normal(s) && |s| <= m
    requires Normal(xm) && |xm| == m + 1 && xm[0] != 0
    requires forall i: nat :: Coef(xm, i) == if i == m then 1 else 0
    ensures EuclidRows(s, m, [0], xm, [1], s)
  {
    hide Add, Mul, Conv;
    forall n: nat | n < m ensures Conv([0], s, n) == Coef(xm, n) {
      ConvZero([0], s, n);
    }
    forall n: nat | n < m ensures Conv([1], s, n) == Coef(s, n) {
      ConvComm([1], s, n);
      ConvOne(s, n);
    }
  }

  lemma NextRowSolves(s: Poly, m: nat, tLast: Poly, rLast: Poly, t: Poly, r: Poly, q: Poly, t': Poly, r': Poly)
    requires Solves(t, r, s, m) && Solves(tLast, rLast, s, m)
    requires DivisionState(rLast, r, q, r')
    requires forall n: nat :: Coef(t', n) == Add(Conv(q, t, n), Coef(tLast, n))
    ensures Solves(t', r', s, m)
  {
    hide Add, Mul, Conv, Prod;
    var qt := Prod(q, t);
    forall n: nat ensures Coef(qt, n) == Conv(q, t, n) {
      ProdCoef(q, t, n);
    }
    forall n: nat | n < m ensures Conv(t', s, n) == Coef(r', n) {
      ConvAddLeft(t', qt, tLast, s, n);
      ConvAssoc(q, t, s, qt, r, n);
      AddCancel(Conv(q, r, n), Coef(r', n));
    }
  }

  lemma NextRows(s: Poly, m: nat, tLast: Poly, rLast: Poly, t: Poly, r: Poly, q: Poly, t': Poly, r': Poly)
    requires EuclidRows(s, m, tLast, rLast, t, r) && 2 * (|r| - 1) >= m >= 1
    requires DivisionState(rLast, r, q, r') && Normal(r') && |r'| < |r|
    requires |q| == |rLast| - |r| + 1 && q[0] != 0
    requires Normal(t') && forall n: nat :: Coef(t', n) == Add(Conv(q, t, n), Coef(tLast, n))
    ensures EuclidRows(s, m, t, r, t', r')
  {
    hide Add, Mul, Conv, DivisionState, Solves;
    NextRowSolves(s, m, tLast, rLast, t, r, q, t', r');
    var a, b := |q| - 1, |t| - 1;
    LengthDegree(q);
    LengthDegree(t);
    forall i: nat | i >= a + b ensures Coef(t', i) == Conv(q, t, i) {
      AddZero(Conv(q, t, i));
    }
    ConvDegree(q, t, a, b, a + b);
    MulZero(q[0], t[0]);
    forall i: nat | i > a + b ensures Coef(t', i) == 0 {
      ConvDegree(q, t, a, b, i);
    }
    assert Coef(t', a + b) != 0;
    assert Coef(t', |t'| - 1) == t'[0];
  }

  /** A solution of the key equation as the algorithm returns it: constant term 1, at most R/2 errors, and
      an evaluator of degree below R/2. */
  ghost predicate IsKeySolution(sigma: Poly, omega: Poly, s: Poly, m: nat) {
    Coef(sigma, 0) == 1 && 2 * (|sigma| - 1) <= m && 2 * (|omega| - 1) < m && Solves(sigma, omega, s, m)
  }

  /** Runs the Euclidean algorithm on x^R and the syndrome polynomial until the remainder has
      degree below R/2. The two consecutive rows at which it stops are returned as ghosts: the
      only failure is a cofactor t divisible by x. */
  method RunEuclideanAlgorithm(field: GenericGF, a: Poly, b: Poly, R: nat)
    returns (sigmaOmega: Option<(Poly, Poly)>, ghost tLast: Poly, ghost rLast: Poly, ghost t: Poly, ghost r: Poly)
    requires field.Valid() && R >= 1
    requires Normal(a) && |a| == R + 1 && a[0] != 0
    requires forall i: nat :: Coef(a, i) == if i == R then 1 else 0
    requires Normal(b) && |b| <= R
    ensures EuclidRows(b, R, tLast, rLast, t, r) && 2 * (|r| - 1) < R
    ensures sigmaOmega == None <==> Coef(t, 0) == 0
    ensures sigmaOmega.Some? ==> IsScaled(sigmaOmega.value.0, sigmaOmega.value.1, t, r)
    ensures sigmaOmega.Some? ==> IsKeySolution(sigmaOmega.value.0, sigmaOmega.value.1, b, R)
    ensures 2 * (|b| - 1) < R ==> t == [1]
  {
    hide Add, Mul, Conv, DivisionState, Inverse, EuclidRows, IsKeySolution, IsScaled;
    var a, b := a, b;
    if |a| < |b| {
      a, b := b, a;
    }
    var rPrevious, rCurrent := a, b;
    var tPrevious: Poly, tCurrent: Poly := [0], [1];
    FirstRows(b, R, a);
    while 2 * (|rCurrent| - 1) >= R
      invariant EuclidRows(b, R, tPrevious, rPrevious, tCurrent, rCurrent) && Normal(tPrevious)
      invariant 2 * (|b| - 1) < R ==> tCurrent == [1] && rCurrent == b
      decreases |rCurrent|
    {
      RowShapes(b, R, tPrevious, rPrevious, tCurrent, rCurrent);
      var rLastLast, tLastLast := rPrevious, tPrevious;
      ghost var t0, r0 := tCurrent, rCurrent;
      rPrevious, tPrevious := rCurrent, tCurrent;
      if IsZeroPoly(rPrevious) {
        assert false;  // the null return for an exhausted algorithm is never reached
      }
      var q, remainder := Divide(field, rLastLast, rPrevious);
      var product := MultiplyPoly(field, q, tPrevious);
      tCurrent := AddOrSubtract(product, tLastLast);
      rCurrent := remainder;
      NextRows(b, R, tLastLast, rLastLast, t0, r0, q, tCurrent, rCurrent);
      if |rCurrent| >= |rPrevious| {
        assert false;  // nor is the null return for a remainder that failed to shrink
      }
    }
    RowShapes(b, R, tPrevious, rPrevious, tCurrent, rCurrent);
    tLast, rLast, t, r := tPrevious, rPrevious, tCurrent, rCurrent;
    var sigmaTildeAtZero := Coef(tCurrent, 0);
    if sigmaTildeAtZero == 0 {
      sigmaOmega := None;
      return;
    }
    var inverse := field.InverseOf(sigmaTildeAtZero);
    var sigma := MultiplyScalar(field, tCurrent, inverse);
    var omega := MultiplyScalar(field, rCurrent, inverse);
    sigmaOmega := Some((sigma, omega));
    ScaledIs(sigma, omega, t, r);
    ScaledIsKeySolution(sigma, omega, b, R, tLast, rLast, t, r);
  }

  /** The normalised pair: both rows divided by the constant term of t. */
  ghost predicate IsScaled(sigma: Poly, omega: Poly, t: Poly, r: Poly) {
    && Normal(sigma) && Normal(omega) && |sigma| <= |t| && |omega| <= |r|
    && Coef(t, 0) != 0
    && (forall i: nat :: Coef(sigma, i) == Mul(Inverse(Coef(t, 0)), Coef(t, i)))
    && (forall i: nat :: Coef(omega, i) == Mul(Inverse(Coef(t, 0)), Coef(r, i)))
  }

  lemma ScaledIs(sigma: Poly, omega: Poly, t: Poly, r: Poly)
    requires Normal(sigma) && Normal(omega) && |sigma| <= |t| && |omega| <= |r| && Coef(t, 0) != 0
    requires forall i: nat :: Coef(sigma, i) == Mul(Inverse(Coef(t, 0)), Coef(t, i))
    requires forall i: nat :: Coef(omega, i) == Mul(Inverse(Coef(t, 0)), Coef(r, i))
    ensures IsScaled(sigma, omega, t, r)
  {}

  lemma ScaledIsKeySolution(sigma: Poly, omega: Poly, s: Poly, m: nat, tLast: Poly, rLast: Poly, t: Poly, r: Poly)
    requires IsScaled(sigma, omega, t, r) && EuclidRows(s, m, tLast, rLast, t, r) && 2 * (|r| - 1) < m
    ensures IsKeySolution(sigma, omega, s, m)
  {
    hide Mul, Inverse, Solves;
    FewCorrections(s, m, tLast, rLast, t, r);
    ScaledSolution(sigma, omega, t, r, s, m);
  }

  lemma RowShapes(s: Poly, m: nat, tLast: Poly, rLast: Poly, t: Poly, r: Poly)
    requires EuclidRows(s, m, tLast, rLast, t, r)
    ensures Normal(t) && Normal(r) && Normal(rLast) && |r| < |rLast| && rLast[0] != 0
  {}

  /** sigma is a solution of the key equation with constant term 1. */
  lemma ScaledSolution(sigma: Poly, omega: Poly, t: Poly, r: Poly, s: Poly, m: nat)
    requires IsScaled(sigma, omega, t, r) && Solves(t, r, s, m)
    ensures Coef(sigma, 0) == 1 && Solves(sigma, omega, s, m)
  {
    hide Add, Mul, Conv, Inverse;
    var c := Inverse(Coef(t, 0));
    MulInverse(Coef(t, 0));
    forall n: nat | n < m ensures Conv(sigma, s, n) == Coef(omega, n) {
      ConvScaleLeft(c, sigma, t, s, n);
    }
  }

  lemma ScaledShape(sigma: Poly, omega: Poly, t: Poly, r: Poly)
    requires IsScaled(sigma, omega, t, r) && t != [] && t[0] != 0
    ensures Normal(sigma) && Normal(omega) && |sigma| == |t|
    ensures forall n: nat :: DegreeBelow(r, n) ==> DegreeBelow(omega, n)
    ensures forall a: GF :: Eval(t, a) == 0 ==> Eval(sigma, a) == 0
  {
    hide Add, Mul, Inverse, Eval;
    var c := Inverse(Coef(t, 0));
    MulInverse(Coef(t, 0));
    MulZero(c, 0);
    MulZero(c, t[0]);
    assert Coef(t, |t| - 1) == t[0];
    assert Coef(sigma, |t| - 1) != 0;
    forall a: GF | Eval(t, a) == 0 ensures Eval(sigma, a) == 0 {
      EvalScale(sigma, c, t, a);
    }
  }

  // ----- Chien's search

  ghost predicate RootsFound(sigma: Poly, xs: seq<GF>) {
    && Distinct(xs)
    && (forall k :: 0 <= k < |xs| ==> xs[k] != 0 && Eval(sigma, Inverse(xs[k])) == 0)
  }

  lemma {:induction false} DistinctSubset(xs: seq<GF>, ys: seq<GF>)
    requires Distinct(xs) && forall k :: 0 <= k < |xs| ==> xs[k] in ys
    ensures |xs| <= |ys|
  {
    if |xs| > 0 {
      var i :| 0 <= i < |ys| && ys[i] == xs[0];
      var ys' := ys[..i] + ys[i + 1..];
      forall k | 0 <= k < |xs[1..]| ensures xs[1..][k] in ys' {
        var j :| 0 <= j < |ys| && ys[j] == xs[k + 1];
        assert if j < i then ys'[j] == ys[j] else ys'[j - 1] == ys[j];
      }
      DistinctSubset(xs[1..], ys');
    }
  }

  lemma LinearLocator(sigma: Poly)
    requires |sigma| == 2 && sigma[0] != 0 && Coef(sigma, 0) == 1
    ensures RootsFound(sigma, [Coef(sigma, 1)])
  {
    hide Add, Mul, Inverse, Eval;
    var c := Coef(sigma, 1);
    assert sigma == Factor(c);
    FactorEval(c, Inverse(c));
    RootFactor(c);
  }

  /** a is one of 1, ..., i - 1. */
  predicate Tried(a: GF, i: bv16) {
    0 < a as bv16 < i
  }

  lemma TriedNext(a: GF, b: GF, i: bv16)
    requires 1 <= i < 256 && b == i as GF
    ensures Tried(a, i + 1) <==> Tried(a, i) || a == b
    ensures i < i + 1 <= 256 && b != 0 && !Tried(b, i)
  {}

  lemma AllTried(a: GF)
    ensures Tried(a, 256) <==> a != 0
    ensures !Tried(a, 1)
  {}

  /** roots lists the roots of sigma among 1, ..., i - 1. */
  ghost predicate RootsBelow(sigma: Poly, i: bv16, roots: seq<GF>) {
    && Distinct(roots)
    && (forall k :: 0 <= k < |roots| ==> Tried(roots[k], i) && Eval(sigma, roots[k]) == 0)
    && (forall a: GF :: Tried(a, i) && Eval(sigma, a) == 0 ==> a in roots)
  }

  lemma RootsBelowNext(sigma: Poly, i: bv16, roots: seq<GF>)
    requires 1 <= i < 256 && RootsBelow(sigma, i, roots)
    ensures i as GF != 0
    ensures RootsBelow(sigma, i + 1, if Eval(sigma, i as GF) == 0 then roots + [i as GF] else roots)
  {
    hide Eval, Tried;
    var b := i as GF;
    TriedNext(b, b, i);
    forall a: GF ensures Tried(a, i + 1) <==> Tried(a, i) || a == b {
      TriedNext(a, b, i);
    }
  }

  lemma InversesOfRoots(sigma: Poly, i: bv16, roots: seq<GF>, xs: seq<GF>)
    requires RootsBelow(sigma, i, roots) && |xs| == |roots|
    requires forall k :: 0 <= k < |roots| ==> roots[k] != 0 && xs[k] == Inverse(roots[k])
    ensures RootsFound(sigma, xs)
  {
    hide Eval, Inverse;
    forall j, k | 0 <= j < k < |xs| ensures xs[j] != xs[k] {
      if xs[j] == xs[k] {
        InverseInjective(roots[j], roots[k]);
      }
    }
    forall k | 0 <= k < |xs| ensures xs[k] != 0 && Eval(sigma, Inverse(xs[k])) == 0 {
      InverseTwice(roots[k]);
    }
  }

  lemma AllRootsListed(sigma: Poly, roots: seq<GF>, xs: seq<GF>)
    requires RootsBelow(sigma, 256, roots) && RootsFound(sigma, xs)
    ensures |xs| <= |roots|
  {
    hide Eval, Inverse;
    var inv := Inverses(xs);
    InversesDistinct(xs);
    forall k | 0 <= k < |xs| ensures inv[k] in roots {
      InverseTwice(xs[k]);
      AllTried(inv[k]);
    }
    DistinctSubset(inv, roots);
  }

  /** The inverses of all roots of sigma, or None when it has fewer nonzero roots than its degree. */
  method FindErrorLocations(field: GenericGF, sigma: Poly) returns (result: Option<seq<GF>>)
    requires field.Valid() && Normal(sigma) && Coef(sigma, 0) == 1
    ensures result.Some? ==> |result.value| == |sigma| - 1 && RootsFound(sigma, result.value)
    ensures result == None ==> forall xs: seq<GF> :: RootsFound(sigma, xs) ==> |xs| < |sigma| - 1
  {
    hide Add, Mul, Inverse, Eval, RootsBelow, RootsFound;
    var numErrors := |sigma| - 1;
    if numErrors == 1 {
      LinearLocator(sigma);
      return Some([Coef(sigma, 1)]);
    }
    var found := new GF[numErrors];
    var errorCount := 0;
    ghost var roots: seq<GF> := [];
    var i: bv16 := 1;
    NoRootsBelowOne(sigma);
    while i < 256 && errorCount < numErrors
      invariant 1 <= i <= 256 && errorCount == |roots| <= numErrors
      invariant RootsBelow(sigma, i, roots)
      invariant forall k :: 0 <= k < errorCount ==> roots[k] != 0 && found[k] == Inverse(roots[k])
      decreases 256 - i
    {
      RootsBelowNext(sigma, i, roots);
      var value := EvaluateAt(field, sigma, i as GF);
      if value == 0 {
        found[errorCount] := field.InverseOf(i as GF);
        errorCount := errorCount + 1;
        roots := roots + [i as GF];
      }
      i := i + 1;
    }
    if errorCount != numErrors {
      forall xs: seq<GF> | RootsFound(sigma, xs) ensures |xs| < numErrors {
        AllRootsListed(sigma, roots, xs);
      }
      return None;
    }
    InversesOfRoots(sigma, i, roots, found[..]);
    return Some(found[..]);
  }

  lemma NoRootsBelowOne(sigma: Poly)
    ensures RootsBelow(sigma, 1, [])
  {
    hide Eval, Tried;
    forall a: GF ensures !Tried(a, 1) {
      AllTried(a);
    }
  }

  lemma InverseTwice(a: GF)
    requires a != 0
    ensures Inverse(a) != 0 && Inverse(Inverse(a)) == a
  {
    hide Mul, Inverse;
    var b := Inverse(a);
    MulInverse(a);
    MulInverse(b);
    MulAssoc(a, b, Inverse(b));
    MulOne(a);
    MulOne(Inverse(b));
    MulComm(1, Inverse(b));
  }

  // ----- Forney's formula

  method FindErrorMagnitudes(field: GenericGF, omega: Poly, xs: seq<GF>) returns (ys: seq<GF>)
    requires field.Valid() && |omega| > 0
    requires Distinct(xs) && forall k :: 0 <= k < |xs| ==> xs[k] != 0
    ensures |ys| == |xs| && forall k :: 0 <= k < |xs| ==> ys[k] == Magnitude(omega, xs, k)
  {
    hide Add, Mul, Inverse, Eval;
    var result := new GF[|xs|];
    for i := 0 to |xs|
      invariant forall k :: 0 <= k < i ==> result[k] == Magnitude(omega, xs, k)
    {
      var xiInverse := field.InverseOf(xs[i]);
      var denominator: GF := 1;
      for j := 0 to |xs|
        invariant denominator == Others(xs, i, xiInverse, j)
        invariant forall k :: 0 <= k < i ==> result[k] == Magnitude(omega, xs, k)
      {
        if i != j {
          var product := field.Multiply(xs[j], xiInverse);
          denominator := field.Multiply(denominator, Add(1, product));
        }
      }
      OthersNonzero(xs, i, |xs|);
      var value := EvaluateAt(field, omega, xiInverse);
      var inverse := field.InverseOf(denominator);
      result[i] := field.Multiply(value, inverse);
    }
    ys := result[..];
  }

  // ----- Words near a codeword

  ghost predicate Near(c: Poly, w: Poly, m: nat) {
    |c| == |w| <= 255 && IsCodeword(c, m) && 2 * Distance(c, w) <= m
  }

  /** s holds the syndromes of w. */
  ghost predicate HasSyndromes(w: Poly, s: Poly, m: nat) {
    forall j: nat :: j < m ==> Coef(s, j) == Eval(w, Exp(j))
  }

  ghost function ErrorLocators(c: Poly, w: Poly): seq<GF>
    requires |c| == |w|
  {
    Locators(Difference(c, w), 0)
  }

  lemma NearErrors(c: Poly, w: Poly, m: nat, s: Poly)
    requires Near(c, w, m) && HasSyndromes(w, s, m) && !IsCodeword(w, m)
    ensures ShortErrors(ErrorLocators(c, w), Magnitudes(Difference(c, w)), s, m)
    ensures forall k :: 0 <= k < |ErrorLocators(c, w)| ==> Log(ErrorLocators(c, w)[k]) < |w|
  {
    hide Add, Mul, Exp, Eval, Locators, Magnitudes, Syndrome, Distance, Difference;
    var e := Difference(c, w);
    var xs, ys := Locators(e, 0), Magnitudes(e);
    LocatorsCount(c, w, 0);
    DifferenceLength(c, w);
    LocatorsShape(e, 0);
    forall j: nat | j < m ensures Coef(s, j) == Syndrome(xs, ys, |xs|, j) {
      WordSyndromeAtZero(e, j);
      DifferenceEval(c, w, Exp(j));
      AddZero(Eval(w, Exp(j)));
    }
    if |xs| == 0 {
      DistanceZero(c, w);
    }
    forall k | 0 <= k < |xs| ensures Log(xs[k]) < |w| {
      var i: nat :| i < |w| && xs[k] == Exp(i);
      LogExp(i);
    }
  }

  lemma DifferenceLength(c: Poly, w: Poly)
    requires |c| == |w|
    ensures |Difference(c, w)| == |w|
  {}

  /** Near a codeword the Euclidean algorithm does not fail and yields the locator of the errors. */
  lemma NearRows(c: Poly, w: Poly, m: nat, s: Poly, tLast: Poly, rLast: Poly, t: Poly, r: Poly)
    requires Near(c, w, m) && HasSyndromes(w, s, m) && !IsCodeword(w, m)
    requires EuclidRows(s, m, tLast, rLast, t, r) && 2 * (|r| - 1) < m
    ensures Coef(t, 0) != 0 && |ErrorLocators(c, w)| == |t| - 1
    ensures RootsFound(t, ErrorLocators(c, w))
    ensures DegreeBelow(r, |t| - 1)
  {
    hide Add, Mul, Exp, Eval, Inverse, Difference, Solves, Explains;
    NearErrors(c, w, m, s);
    EuclidFindsLocator(ErrorLocators(c, w), Magnitudes(Difference(c, w)), s, m, tLast, rLast, t, r);
  }

  lemma NearSigma(c: Poly, w: Poly, m: nat, s: Poly, tLast: Poly, rLast: Poly, t: Poly, r: Poly, sigma: Poly,
                  omega: Poly)
    requires Near(c, w, m) && HasSyndromes(w, s, m) && !IsCodeword(w, m)
    requires EuclidRows(s, m, tLast, rLast, t, r) && 2 * (|r| - 1) < m
    requires IsScaled(sigma, omega, t, r)
    ensures |ErrorLocators(c, w)| == |sigma| - 1
    ensures RootsFound(sigma, ErrorLocators(c, w))
    ensures DegreeBelow(omega, |sigma| - 1)
  {
    hide Add, Mul, Exp, Eval, Inverse, Solves, ErrorLocators, DegreeBelow, IsScaled, Near, HasSyndromes,
      IsCodeword, Coef;
    NearRows(c, w, m, s, tLast, rLast, t, r);
    ScaledShape(sigma, omega, t, r);
  }

  /** All roots of sigma are then error locators, so every position lies in the word. */
  lemma NearPositions(c: Poly, w: Poly, m: nat, s: Poly, sigma: Poly, found: seq<GF>)
    requires Near(c, w, m) && HasSyndromes(w, s, m) && !IsCodeword(w, m)
    requires |ErrorLocators(c, w)| == |sigma| - 1 == |found| && Coef(sigma, 0) == 1
    requires RootsFound(sigma, ErrorLocators(c, w)) && RootsFound(sigma, found)
    ensures forall k :: 0 <= k < |found| ==> Log(found[k]) < |w|
  {
    hide Add, Mul, Exp, Eval, Inverse, Difference, Locators, Log;
    var xs := ErrorLocators(c, w);
    NearErrors(c, w, m, s);
    forall k | 0 <= k < |found| ensures Log(found[k]) < |w| {
      if found[k] !in xs {
        var more := xs + [found[k]];
        InversesDistinct(more);
        LengthDegree(sigma);
        TooManyRoots(sigma, Inverses(more));
      }
    }
  }

  // ----- The decoder

  /** out is w with the first n found errors removed. */
  ghost predicate PartlyCorrected(w: Poly, out: Poly, xs: seq<GF>, ys: seq<GF>, n: nat)
    requires n <= |xs| == |ys|
  {
    && |out| == |w|
    && Distance(w, out) <= n
    && forall j: nat :: Eval(out, Exp(j)) == Add(Eval(w, Exp(j)), Syndrome(xs, ys, n, j))
  }

  lemma CorrectionStart(w: Poly, xs: seq<GF>, ys: seq<GF>)
    requires |xs| == |ys|
    ensures PartlyCorrected(w, w, xs, ys, 0)
  {
    hide Add, Exp, Eval;
    DistanceSelf(w);
    forall j: nat ensures Add(Eval(w, Exp(j)), 0) == Eval(w, Exp(j)) {
      AddZero(Eval(w, Exp(j)));
    }
  }

  lemma CorrectionStep(w: Poly, out: Poly, xs: seq<GF>, ys: seq<GF>, n: nat)
    requires n < |xs| == |ys| && PartlyCorrected(w, out, xs, ys, n)
    requires xs[n] != 0 && Log(xs[n]) < |w|
    ensures var i := |out| - 1 - Log(xs[n]);
            PartlyCorrected(w, out[i := Add(out[i], ys[n])], xs, ys, n + 1)
  {
    hide Add, Mul, Exp, Eval, Log, Pow, Distance;
    var d := Log(xs[n]);
    var i := |out| - 1 - d;
    var out' := out[i := Add(out[i], ys[n])];
    DistanceUpdate(w, out, i, Add(out[i], ys[n]));
    forall j: nat ensures Eval(out', Exp(j)) == Add(Eval(w, Exp(j)), Syndrome(xs, ys, n + 1, j)) {
      EvalUpdate(out, i, ys[n], Exp(j));
      PowSwap(d, j);
      AddAssoc(Eval(w, Exp(j)), Syndrome(xs, ys, n, j), Mul(ys[n], Pow(xs[n], j)));
    }
  }

  /** The corrected word is a codeword exactly when the found errors explain the syndromes. */
  lemma CorrectedIsCodeword(w: Poly, out: Poly, xs: seq<GF>, ys: seq<GF>, s: Poly, m: nat)
    requires |xs| == |ys| && PartlyCorrected(w, out, xs, ys, |xs|) && HasSyndromes(w, s, m)
    ensures IsCodeword(out, m) <==> Explains(xs, ys, s, m)
  {
    hide Add, Mul, Exp, Eval, Distance, Syndrome;
    forall j: nat | j < m ensures Eval(out, Exp(j)) == 0 <==> Coef(s, j) == Syndrome(xs, ys, |xs|, j) {
      AddCancel(Coef(s, j), Syndrome(xs, ys, |xs|, j));
    }
  }

  lemma CodewordNear(c: Poly, w: Poly, m: nat)
    requires Near(c, w, m) && IsCodeword(w, m)
    ensures c == w
  {
    hide Exp, Eval, Distance, IsCodeword;
    DistanceSelf(w);
    UniqueCorrection(c, w, w, m);
  }

  /** The number of corrections is at most half the number of check symbols. */
  lemma FewCorrections(s: Poly, m: nat, tLast: Poly, rLast: Poly, t: Poly, r: Poly)
    requires EuclidRows(s, m, tLast, rLast, t, r)
    ensures 2 * (|t| - 1) <= m && t != [] && t[0] != 0 && Solves(t, r, s, m)
  {}

  method Syndromes(field: GenericGF, bytes: seq<GF>, twoS: nat) returns (syndromes: seq<GF>, error: bool)
    requires field.Valid() && |bytes| > 0 && twoS <= 256
    ensures |syndromes| == twoS && HasSyndromes(bytes, syndromes, twoS)
    ensures error <==> !IsCodeword(bytes, twoS)
  {
    hide Exp, Eval;
    var poly := Normalise(bytes);
    var syndromeCoefficients := new GF[twoS](_ => 0);
    error := false;
    for s := 0 to twoS
      invariant forall j: nat :: j < s ==> syndromeCoefficients[twoS - 1 - j] == Eval(bytes, Exp(j))
      invariant error <==> exists j: nat :: j < s && Eval(bytes, Exp(j)) != 0
    {
      var power := field.PowerOf(s);
      var evaluation := EvaluateAt(field, poly, power);
      EvalSame(poly, bytes, power);
      syndromeCoefficients[twoS - 1 - s] := evaluation;
      if evaluation != 0 {
        error := true;
      }
    }
    syndromes := syndromeCoefficients[..];
  }

  lemma CodewordIsNear(out: Poly, w: Poly, m: nat)
    requires |out| == |w| && 2 * Distance(w, out) <= m
    ensures |w| <= 255 && IsCodeword(out, m) ==> Near(out, w, m)
  {
    hide Exp, Eval, Distance;
    DistanceTriangle(w, out, w);
  }

  lemma NearIsCodeword(c: Poly, w: Poly, m: nat)
    requires Near(c, w, m)
    ensures IsCodeword(c, m)
  {}

  lemma NoSyndromes(w: Poly, m: nat)
    ensures m == 0 ==> IsCodeword(w, m)
  {}

  lemma NoChange(w: Poly)
    ensures Distance(w, w) == 0
  {
    DistanceSelf(w);
  }

  /** Only syndromes of index below twoS/2 may differ from zero. */
  ghost predicate LowSyndromes(w: Poly, m: nat) {
    forall j: nat :: j < m && 2 * j >= m ==> Eval(w, Exp(j)) == 0
  }

  /** A word like that: x + 2 vanishes at the second power of the generator only, so with two check symbols
      the decoder returns it unchanged though it is no codeword. */
  lemma LowSyndromesNoCodeword()
    ensures LowSyndromes([1, 2], 2) && !IsCodeword([1, 2], 2)
  {
    hide Eval, Add, Mul;
    ExpZero();
    FirstPower();
    RootFactorEval(2, 1);
    RootFactorEval(2, 2);
    AddZero(2);
    AddCancel(1, 2);
    assert Eval([1, 2], Exp(0)) != 0;
  }

  lemma FirstPower()
    ensures Exp(1) == 2
  {}

  lemma SyndromesNormalised(w: Poly, raw: Poly, s: Poly, m: nat)
    requires |raw| == m && HasSyndromes(w, raw, m) && Same(s, raw) && Normal(s) && |s| <= m
    ensures HasSyndromes(w, s, m)
    ensures LowSyndromes(w, m) ==> 2 * (|s| - 1) < m
  {
    hide Eval, Exp;
    assert Coef(s, |s| - 1) == s[0];
  }

  /** With every root found and deg omega < deg sigma, the corrected word is the codeword nearby. */
  lemma CorrectedEqualsNear(c: Poly, w: Poly, out: Poly, xs: seq<GF>, ys: seq<GF>, s: Poly, m: nat, sigma: Poly,
                            omega: Poly)
    requires Near(c, w, m) && HasSyndromes(w, s, m)
    requires RootsFound(sigma, xs) && |xs| == |sigma| - 1 == |ys| && Coef(sigma, 0) == 1
    requires 2 * |xs| <= m && DegreeBelow(omega, |xs|) && Solves(sigma, omega, s, m)
    requires forall k :: 0 <= k < |xs| ==> ys[k] == Magnitude(omega, xs, k)
    requires PartlyCorrected(w, out, xs, ys, |xs|)
    ensures out == c
  {
    hide Add, Mul, Exp, Eval, Inverse, Distance, Solves, Coef;
    LengthDegree(sigma);
    ForneySound(xs, ys, sigma, omega, s, m);
    CorrectedIsCodeword(w, out, xs, ys, s, m);
    DistanceTriangle(w, out, w);
    UniqueCorrection(c, out, w, m);
  }

  /** Locating and correcting the errors of a word whose syndromes do not all vanish. */
  method Correct(field: GenericGF, bytes: seq<GF>, twoS: nat, syndromeCoefficients: seq<GF>)
    returns (r: Option<seq<GF>>)
    requires field.Valid() && |bytes| > 0
    requires |syndromeCoefficients| == twoS > 0 && HasSyndromes(bytes, syndromeCoefficients, twoS)
    requires !IsCodeword(bytes, twoS)
    ensures forall c: seq<GF> :: Near(c, bytes, twoS) ==> r == Some(c)
    ensures r.Some? ==> |r.value| == |bytes| && 2 * Distance(bytes, r.value) <= twoS
    ensures LowSyndromes(bytes, twoS) ==> r == Some(bytes)
  {
    hide Add, Mul, Exp, Eval, Log, Inverse, Distance, IsCodeword, HasSyndromes, EuclidRows, IsScaled, Solves,
      PartlyCorrected, DegreeBelow, Coef, LowSyndromes, ErrorLocators, Magnitude;
    var syndrome := Normalise(syndromeCoefficients);
    SyndromesNormalised(bytes, syndromeCoefficients, syndrome, twoS);
    var xToR := BuildMonomial(twoS, 1);
    var sigmaOmega;
    ghost var tLast, rLast, t, rem;
    sigmaOmega, tLast, rLast, t, rem := RunEuclideanAlgorithm(field, xToR, syndrome, twoS);
    if sigmaOmega == None {
      forall c: seq<GF> | Near(c, bytes, twoS) ensures false {
        NearRows(c, bytes, twoS, syndrome, tLast, rLast, t, rem);
      }
      ConstantOne();
      return None;
    }
    var (sigma, omega) := sigmaOmega.value;
    FewCorrections(syndrome, twoS, tLast, rLast, t, rem);
    ScaledSolution(sigma, omega, t, rem, syndrome, twoS);
    ScaledShape(sigma, omega, t, rem);
    forall c: seq<GF> | Near(c, bytes, twoS)
      ensures |ErrorLocators(c, bytes)| == |sigma| - 1
      ensures RootsFound(sigma, ErrorLocators(c, bytes))
      ensures DegreeBelow(omega, |sigma| - 1)
    {
      NearSigma(c, bytes, twoS, syndrome, tLast, rLast, t, rem, sigma, omega);
    }
    var errorLocations := FindErrorLocations(field, sigma);
    if errorLocations == None {
      NoRootsNeeded(sigma);
      return None;
    }
    var xs := errorLocations.value;
    forall c: seq<GF> | Near(c, bytes, twoS) ensures forall k :: 0 <= k < |xs| ==> Log(xs[k]) < |bytes| {
      NearPositions(c, bytes, twoS, syndrome, sigma, xs);
    }
    var ys := FindErrorMagnitudes(field, omega, xs);
    r := ApplyCorrections(field, bytes, xs, ys);
    if r.Some? {
      forall c: seq<GF> | Near(c, bytes, twoS) ensures r.value == c {
        CorrectedEqualsNear(c, bytes, r.value, xs, ys, syndrome, twoS, sigma, omega);
      }
    }
  }

  lemma ConstantOne()
    ensures Coef([1], 0) == 1
  {}

  lemma NoRootsNeeded(sigma: Poly)
    ensures RootsFound(sigma, [])
  {}

  lemma CorrectionDistance(w: Poly, out: Poly, xs: seq<GF>, ys: seq<GF>, n: nat)
    requires n <= |xs| == |ys| && PartlyCorrected(w, out, xs, ys, n)
    ensures |out| == |w| && Distance(w, out) <= n
  {}

  /** Adds the magnitudes at the located positions, or fails at the first position outside the word. */
  method ApplyCorrections(field: GenericGF, bytes: seq<GF>, xs: seq<GF>, ys: seq<GF>) returns (r: Option<seq<GF>>)
    requires field.Valid() && |xs| == |ys| && forall k :: 0 <= k < |xs| ==> xs[k] != 0
    ensures r.Some? ==> PartlyCorrected(bytes, r.value, xs, ys, |xs|)
    ensures r.Some? ==> |r.value| == |bytes| && Distance(bytes, r.value) <= |xs|
    ensures r == None <==> exists k :: 0 <= k < |xs| && Log(xs[k]) >= |bytes|
    ensures xs == [] ==> r == Some(bytes)
  {
    hide Add, Mul, Exp, Eval, Log, Distance, PartlyCorrected;
    var outputBytes := new GF[|bytes|](i requires 0 <= i < |bytes| => bytes[i]);
    CorrectionStart(bytes, xs, ys);
    assert outputBytes[..] == bytes;
    for i := 0 to |xs|
      invariant PartlyCorrected(bytes, outputBytes[..], xs, ys, i)
      invariant forall k :: 0 <= k < i ==> Log(xs[k]) < |bytes|
      invariant i == 0 ==> outputBytes[..] == bytes
    {
      var log := field.LogarithmOf(xs[i]);
      var position := outputBytes.Length - 1 - log;
      if position < 0 {
        return None;
      }
      CorrectionStep(bytes, outputBytes[..], xs, ys, i);
      ghost var before := outputBytes[..];
      outputBytes[position] := Add(outputBytes[position], ys[i]);
      assert outputBytes[..] == before[position := Add(before[position], ys[i])];
    }
    CorrectionDistance(bytes, outputBytes[..], xs, ys, |xs|);
    return Some(outputBytes[..]);
  }

  /** Corrects a received block with twoS check symbols; None stands for the null result. A word
      within twoS/2 errors of a codeword becomes that codeword, no word is changed in more than
      twoS/2 places, and a word whose upper half of syndromes vanishes is returned unchanged, codeword
      or not. So the result is a codeword exactly when there is one within twoS/2 errors. */
  method Decode(bytes: seq<GF>, twoS: nat) returns (r: Option<seq<GF>>)
    requires |bytes| > 0 && twoS <= 256
    ensures forall c: seq<GF> :: Near(c, bytes, twoS) ==> r == Some(c)
    ensures r.Some? ==> |r.value| == |bytes| && 2 * Distance(bytes, r.value) <= twoS
    ensures LowSyndromes(bytes, twoS) ==> r == Some(bytes)
    ensures |bytes| <= 255 ==>
              ((r.Some? && IsCodeword(r.value, twoS)) <==> exists c: seq<GF> :: Near(c, bytes, twoS))
  {
    hide *;
    var field := new GenericGF();
    var syndromeCoefficients, error := Syndromes(field, bytes, twoS);
    if !error {
      forall c: seq<GF> | Near(c, bytes, twoS) ensures c == bytes {
        CodewordNear(c, bytes, twoS);
      }
      NoChange(bytes);
      CodewordIsNear(bytes, bytes, twoS);
      return Some(bytes);
    }
    NoSyndromes(bytes, twoS);
    r := Correct(field, bytes, twoS, syndromeCoefficients);
    if r.Some? {
      CodewordIsNear(r.value, bytes, twoS);
    }
    forall c: seq<GF> | Near(c, bytes, twoS) ensures IsCodeword(c, twoS) {
      NearIsCodeword(c, bytes, twoS);
    }
  }
}

/** Polynomials over GF(2^8), in the decoder's own layout: a sequence of coefficients with the
    highest power first. Leading zeros are allowed; two sequences denote the same polynomial
    when all their coefficients agree. */
module Polynomials {
  import opened GaloisField

  type Poly = seq<GF>

  function Coef(p: Poly, i: nat): GF {
    if i < |p| then p[|p| - 1 - i] else 0
  }

  /** The quotient of p by x. */
  function Tail(p: Poly): Poly {
    if |p| == 0 then p else p[..|p| - 1]
  }

  /** The coefficient of x^n in the product of p and q. */
  function Conv(p: Poly, q: Poly, n: nat): GF
    decreases n
  {
    Add(Mul(Coef(p, 0), Coef(q, n)), if n == 0 then 0 else Conv(Tail(p), q, n - 1))
  }

  ghost predicate Agree(p: Poly, q: Poly, n: nat) {
    forall i: nat :: i < n ==> Coef(p, i) == Coef(q, i)
  }

  ghost predicate Same(p: Poly, q: Poly) {
    forall i: nat :: Coef(p, i) == Coef(q, i)
  }

  ghost predicate IsZero(p: Poly) {
    forall i: nat :: Coef(p, i) == 0
  }

  ghost predicate DegreeBelow(p: Poly, n: nat) {
    forall i: nat :: i >= n ==> Coef(p, i) == 0
  }

  lemma TailCoef(p: Poly, i: nat)
    ensures Coef(Tail(p), i) == Coef(p, i + 1)
  {}

  // ----- The product, coefficient by coefficient

  lemma {:induction false} ConvAgree(p: Poly, p': Poly, q: Poly, q': Poly, n: nat)
    requires Agree(p, p', n + 1) && Agree(q, q', n + 1)
    ensures Conv(p, q, n) == Conv(p', q', n)
    decreases n
  {
    hide Add, Mul;
    if n > 0 {
      forall i: nat | i < n ensures Coef(Tail(p), i) == Coef(Tail(p'), i) {
        TailCoef(p, i);
        TailCoef(p', i);
      }
      ConvAgree(Tail(p), Tail(p'), q, q', n - 1);
    }
  }

  lemma {:induction false} ConvZero(p: Poly, q: Poly, n: nat)
    requires (forall i: nat :: i <= n ==> Coef(p, i) == 0) || (forall i: nat :: i <= n ==> Coef(q, i) == 0)
    ensures Conv(p, q, n) == 0
    decreases n
  {
    hide Add, Mul;
    MulZero(Coef(p, 0), Coef(q, n));
    AddZero(0);
    if n > 0 {
      forall i: nat | i <= n - 1 ensures Coef(Tail(p), i) == Coef(p, i + 1) {
        TailCoef(p, i);
      }
      ConvZero(Tail(p), q, n - 1);
    }
  }

  lemma {:induction false} ConvAddLeft(s: Poly, p: Poly, p': Poly, q: Poly, n: nat)
    requires forall i: nat :: i <= n ==> Coef(s, i) == Add(Coef(p, i), Coef(p', i))
    ensures Conv(s, q, n) == Add(Conv(p, q, n), Conv(p', q, n))
    decreases n
  {
    hide Add, Mul;
    MulAdd(Coef(p, 0), Coef(p', 0), Coef(q, n));
    if n > 0 {
      forall i: nat | i <= n - 1 ensures Coef(Tail(s), i) == Add(Coef(Tail(p), i), Coef(Tail(p'), i)) {
        TailCoef(s, i);
        TailCoef(p, i);
        TailCoef(p', i);
      }
      ConvAddLeft(Tail(s), Tail(p), Tail(p'), q, n - 1);
      Interchange(Mul(Coef(p, 0), Coef(q, n)), Mul(Coef(p', 0), Coef(q, n)),
                  Conv(Tail(p), q, n - 1), Conv(Tail(p'), q, n - 1));
    } else {
      AddZero(Conv(s, q, n));
      AddZero(Conv(p, q, n));
      AddZero(Mul(Coef(p, 0), Coef(q, n)));
      AddZero(Mul(Coef(p', 0), Coef(q, n)));
      AddZero(Mul(Coef(s, 0), Coef(q, n)));
    }
  }

  lemma {:induction false} ConvScaleLeft(c: GF, s: Poly, p: Poly, q: Poly, n: nat)
    requires forall i: nat :: i <= n ==> Coef(s, i) == Mul(c, Coef(p, i))
    ensures Conv(s, q, n) == Mul(c, Conv(p, q, n))
    decreases n
  {
    hide Add, Mul;
    MulAssoc(c, Coef(p, 0), Coef(q, n));
    if n > 0 {
      forall i: nat | i <= n - 1 ensures Coef(Tail(s), i) == Mul(c, Coef(Tail(p), i)) {
        TailCoef(s, i);
        TailCoef(p, i);
      }
      ConvScaleLeft(c, Tail(s), Tail(p), q, n - 1);
      MulAdd(c, Mul(Coef(p, 0), Coef(q, n)), Conv(Tail(p), q, n - 1));
    } else {
      MulAdd(c, Mul(Coef(p, 0), Coef(q, n)), 0);
      MulZero(c, 0);
    }
  }

  lemma {:induction false} ConvSplitRight(p: Poly, q: Poly, n: nat)
    ensures Conv(p, q, n) == Add(Mul(Coef(p, n), Coef(q, 0)), if n == 0 then 0 else Conv(p, Tail(q), n - 1))
    decreases n
  {
    hide Add, Mul;
    if n > 0 {
      ConvSplitRight(Tail(p), q, n - 1);
      TailCoef(p, n - 1);
      TailCoef(q, n - 1);
      var u, v := Mul(Coef(p, 0), Coef(q, n)), Mul(Coef(p, n), Coef(q, 0));
      var w := if n == 1 then 0 else Conv(Tail(p), Tail(q), n - 2);
      assert Conv(p, q, n) == Add(u, Add(v, w));
      assert Conv(p, Tail(q), n - 1) == Add(u, w);
      AddAssoc(u, v, w);
      AddComm(u, v);
      AddAssoc(v, u, w);
    }
  }

  lemma {:induction false} ConvComm(p: Poly, q: Poly, n: nat)
    ensures Conv(p, q, n) == Conv(q, p, n)
    decreases n
  {
    hide Add, Mul;
    ConvSplitRight(q, p, n);
    MulComm(Coef(p, 0), Coef(q, n));
    if n > 0 {
      ConvComm(Tail(p), q, n - 1);
    }
  }

  lemma {:induction false} ConvBeyond(p: Poly, q: Poly, n: nat)
    requires n + 1 >= |p| + |q|
    ensures Conv(p, q, n) == 0
    decreases n
  {
    hide Add, Mul;
    AddZero(0);
    MulZero(Coef(p, 0), 0);
    MulZero(0, Coef(q, n));
    if n > 0 {
      if |p| == 0 {
        ConvZero(Tail(p), q, n - 1);
      } else {
        ConvBeyond(Tail(p), q, n - 1);
      }
    }
  }

  function Prod(p: Poly, q: Poly): Poly {
    seq(|p| + |q|, k requires 0 <= k < |p| + |q| => Conv(p, q, |p| + |q| - 1 - k))
  }

  lemma ProdCoef(p: Poly, q: Poly, n: nat)
    ensures Coef(Prod(p, q), n) == Conv(p, q, n)
  {
    hide Add, Mul, Conv;
    if n >= |p| + |q| {
      ConvBeyond(p, q, n);
    }
  }

  function Scale(c: GF, p: Poly): Poly {
    seq(|p|, k requires 0 <= k < |p| => Mul(c, p[k]))
  }

  lemma ScaleCoef(c: GF, p: Poly, i: nat)
    ensures Coef(Scale(c, p), i) == Mul(c, Coef(p, i))
  {
    hide Mul;
    MulZero(c, 0);
  }

  /** The coefficients of p * q above the lowest: p(0) * (q / x) plus (p / x) * q. */
  lemma ProductTail(p: Poly, q: Poly, s: Poly, i: nat)
    requires Coef(s, i + 1) == Conv(p, q, i + 1)
    ensures Coef(Tail(s), i) == Add(Coef(Scale(Coef(p, 0), Tail(q)), i), Coef(Prod(Tail(p), q), i))
  {
    hide Add, Mul, Scale, Prod;
    ProdCoef(Tail(p), q, i);
    ScaleCoef(Coef(p, 0), Tail(q), i);
    TailCoef(s, i);
    TailCoef(q, i);
  }

  /** s and u hold the low coefficients of p * q and q * r. */
  lemma {:induction false} ConvAssoc(p: Poly, q: Poly, r: Poly, s: Poly, u: Poly, n: nat)
    requires forall i: nat :: i <= n ==> Coef(s, i) == Conv(p, q, i)
    requires forall i: nat :: i <= n ==> Coef(u, i) == Conv(q, r, i)
    ensures Conv(s, r, n) == Conv(p, u, n)
    decreases n
  {
    hide Add, Mul, Prod, Scale, Coef;
    var a, b, c := Coef(p, 0), Coef(q, 0), Coef(r, n);
    assert Coef(s, 0) == Add(Mul(a, b), 0);
    AddZero(Mul(a, b));
    MulAssoc(a, b, c);
    if n > 0 {
      var v, aq := Prod(Tail(p), q), Scale(a, Tail(q));
      forall i: nat | i <= n - 1
        ensures Coef(v, i) == Conv(Tail(p), q, i)
        ensures Coef(aq, i) == Mul(a, Coef(Tail(q), i))
        ensures Coef(Tail(s), i) == Add(Coef(aq, i), Coef(v, i))
      {
        ProdCoef(Tail(p), q, i);
        ScaleCoef(a, Tail(q), i);
        ProductTail(p, q, s, i);
      }
      ConvAddLeft(Tail(s), aq, v, r, n - 1);
      ConvScaleLeft(a, aq, Tail(q), r, n - 1);
      ConvAssoc(Tail(p), q, r, v, u, n - 1);
      var e, f := Conv(Tail(q), r, n - 1), Conv(Tail(p), u, n - 1);
      AddAssoc(Mul(a, Mul(b, c)), Mul(a, e), f);
      MulAdd(a, Mul(b, c), e);
    } else {
      AddZero(Mul(b, c));
      AddZero(Mul(a, Mul(b, c)));
    }
  }
}

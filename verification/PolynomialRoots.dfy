/** Values, degrees and roots of polynomials over GF(2^8). */
module PolynomialRoots {
  import opened GaloisField
  import opened Polynomials

  function Pow(a: GF, n: nat): GF
    decreases n
  {
    if n == 0 then 1 else Mul(a, Pow(a, n - 1))
  }

  /** Horner's rule. */
  function Eval(p: Poly, a: GF): GF {
    if |p| == 0 then 0 else Add(Mul(a, Eval(Tail(p), a)), Coef(p, 0))
  }

  /** The sum of the terms of p of degree below n. */
  function PowerSum(p: Poly, a: GF, n: nat): GF
    decreases n
  {
    if n == 0 then 0 else Add(PowerSum(p, a, n - 1), Mul(Coef(p, n - 1), Pow(a, n - 1)))
  }

  function Plus(p: Poly, q: Poly): Poly {
    var n := if |p| < |q| then |q| else |p|;
    seq(n, k requires 0 <= k < n => Add(Coef(p, n - 1 - k), Coef(q, n - 1 - k)))
  }

  lemma PlusCoef(p: Poly, q: Poly, i: nat)
    ensures Coef(Plus(p, q), i) == Add(Coef(p, i), Coef(q, i))
  {
    AddZero(0);
    hide Add;
  }

  // ----- Evaluation is a ring homomorphism

  lemma EvalStep(p: Poly, a: GF)
    ensures Eval(p, a) == Add(Mul(a, Eval(Tail(p), a)), Coef(p, 0))
  {
    hide Add, Mul;
    MulZero(a, 0);
    AddZero(0);
  }

  lemma {:induction false} EvalZero(p: Poly, a: GF)
    requires IsZero(p)
    ensures Eval(p, a) == 0
  {
    hide Add, Mul;
    if |p| > 0 {
      forall i: nat ensures Coef(Tail(p), i) == 0 {
        TailCoef(p, i);
      }
      EvalZero(Tail(p), a);
      MulZero(a, 0);
      AddZero(0);
    }
  }

  lemma {:induction false} EvalSame(p: Poly, q: Poly, a: GF)
    requires Same(p, q)
    ensures Eval(p, a) == Eval(q, a)
    decreases |p| + |q|
  {
    hide Add, Mul;
    EvalStep(p, a);
    EvalStep(q, a);
    if |p| + |q| > 0 {
      forall i: nat ensures Coef(Tail(p), i) == Coef(Tail(q), i) {
        TailCoef(p, i);
        TailCoef(q, i);
      }
      EvalSame(Tail(p), Tail(q), a);
    }
  }

  lemma {:induction false} EvalPlus(s: Poly, p: Poly, q: Poly, a: GF)
    requires forall i: nat :: Coef(s, i) == Add(Coef(p, i), Coef(q, i))
    ensures Eval(s, a) == Add(Eval(p, a), Eval(q, a))
    decreases |s| + |p| + |q|
  {
    hide Add, Mul;
    EvalStep(s, a);
    EvalStep(p, a);
    EvalStep(q, a);
    if |s| + |p| + |q| > 0 {
      forall i: nat ensures Coef(Tail(s), i) == Add(Coef(Tail(p), i), Coef(Tail(q), i)) {
        TailCoef(s, i);
        TailCoef(p, i);
        TailCoef(q, i);
      }
      EvalPlus(Tail(s), Tail(p), Tail(q), a);
      MulAdd(a, Eval(Tail(p), a), Eval(Tail(q), a));
      Interchange(Mul(a, Eval(Tail(p), a)), Mul(a, Eval(Tail(q), a)), Coef(p, 0), Coef(q, 0));
    } else {
      AddZero(0);
    }
  }

  lemma {:induction false} EvalScale(s: Poly, c: GF, p: Poly, a: GF)
    requires forall i: nat :: Coef(s, i) == Mul(c, Coef(p, i))
    ensures Eval(s, a) == Mul(c, Eval(p, a))
    decreases |s| + |p|
  {
    hide Add, Mul;
    EvalStep(s, a);
    EvalStep(p, a);
    if |s| + |p| > 0 {
      forall i: nat ensures Coef(Tail(s), i) == Mul(c, Coef(Tail(p), i)) {
        TailCoef(s, i);
        TailCoef(p, i);
      }
      EvalScale(Tail(s), c, Tail(p), a);
      var e := Eval(Tail(p), a);
      MulAdd(c, Mul(a, e), Coef(p, 0));
      MulAssoc(a, c, e);
      MulAssoc(c, a, e);
      MulComm(a, c);
    } else {
      MulZero(c, 0);
    }
  }

  lemma {:induction false} EvalProd(p: Poly, q: Poly, a: GF)
    ensures Eval(Prod(p, q), a) == Mul(Eval(p, a), Eval(q, a))
  {
    hide Add, Mul, Prod, Conv, Scale;
    if |p| == 0 {
      forall i: nat ensures Coef(Prod(p, q), i) == 0 {
        ProdCoef(p, q, i);
        ConvZero(p, q, i);
      }
      EvalZero(Prod(p, q), a);
      MulZero(Eval(q, a), 0);
    } else {
      EvalProdStep(p, q, a);
      EvalProd(Tail(p), q, a);
      var c, t, e := Coef(p, 0), Eval(Tail(p), a), Eval(q, a);
      MulAdd(Mul(a, t), c, e);
      MulAssoc(a, t, e);
      AddComm(Mul(c, e), Mul(a, Mul(t, e)));
    }
  }

  lemma EvalProdStep(p: Poly, q: Poly, a: GF)
    ensures Eval(Prod(p, q), a) == Add(Mul(Coef(p, 0), Eval(q, a)), Mul(a, Eval(Prod(Tail(p), q), a)))
  {
    hide Add, Mul, Prod, Scale;
    var c, v := Coef(p, 0), Prod(Tail(p), q);
    var w := v + [0];
    assert Tail(w) == v;
    forall i: nat ensures Coef(Prod(p, q), i) == Add(Coef(Scale(c, q), i), Coef(w, i))
    {
      ProdCoef(p, q, i);
      ScaleCoef(c, q, i);
      if i > 0 {
        ProdCoef(Tail(p), q, i - 1);
        TailCoef(w, i - 1);
      }
    }
    EvalPlus(Prod(p, q), Scale(c, q), w, a);
    forall i: nat ensures Coef(Scale(c, q), i) == Mul(c, Coef(q, i)) {
      ScaleCoef(c, q, i);
    }
    EvalScale(Scale(c, q), c, q, a);
    EvalStep(w, a);
    AddZero(Mul(a, Eval(v, a)));
  }

  // ----- Degrees

  lemma {:induction false} ConvDegree(p: Poly, q: Poly, m: nat, n: nat, k: nat)
    requires DegreeBelow(p, m + 1) && DegreeBelow(q, n + 1)
    requires k >= m + n
    ensures Conv(p, q, k) == if k == m + n then Mul(Coef(p, m), Coef(q, n)) else 0
    decreases m
  {
    hide Add, Mul;
    var c := Coef(p, 0);
    AddZero(Mul(c, Coef(q, k)));
    AddZero(0);
    MulZero(c, 0);
    forall i: nat ensures Coef(Tail(p), i) == Coef(p, i + 1) {
      TailCoef(p, i);
    }
    if m == 0 {
      if k > 0 {
        ConvZero(Tail(p), q, k - 1);
      }
    } else {
      assert Coef(q, k) == 0;
      ConvDegree(Tail(p), q, m - 1, n, k - 1);
      AddZero(Conv(Tail(p), q, k - 1));
    }
  }

  // ----- A polynomial with more roots than its degree is zero

  /** The quotient of p by x - a (the partial values of Horner's rule). */
  function Quotient(p: Poly, a: GF): Poly {
    if |p| <= 1 then [] else Quotient(Tail(p), a) + [Eval(Tail(p), a)]
  }

  lemma {:induction false} QuotientEval(p: Poly, a: GF, b: GF)
    ensures Add(Eval(p, b), Eval(p, a)) == Mul(Add(b, a), Eval(Quotient(p, a), b))
  {
    hide Add, Mul;
    EvalStep(p, a);
    EvalStep(p, b);
    var t := Tail(p);
    var u, v, w := Eval(t, b), Eval(t, a), Eval(Quotient(t, a), b);
    var c := Coef(p, 0);
    // p(b) + p(a) = b u + a v, since the constant terms cancel
    Interchange(Mul(b, u), c, Mul(a, v), c);
    AddZero(c);
    AddZero(Add(Mul(b, u), Mul(a, v)));
    if |p| <= 1 {
      assert u == v == 0;
      MulZero(a, 0);
      MulZero(b, 0);
      MulZero(Add(b, a), 0);
      AddZero(0);
    } else {
      QuotientEval(t, a, b);
      var q := Quotient(p, a);
      assert Tail(q) == Quotient(t, a) && Coef(q, 0) == v;
      EvalStep(q, b);
      // (b + a)(b w + v) = b ((b + a) w) + (b + a) v = b (u + v) + b v + a v
      MulAdd(Add(b, a), Mul(b, w), v);
      MulAssoc(Add(b, a), b, w);
      MulAssoc(b, Add(b, a), w);
      MulComm(Add(b, a), b);
      MulAdd(b, u, v);
      MulAdd(b, a, v);
      var x, y, z := Mul(b, u), Mul(b, v), Mul(a, v);
      AddAssoc(x, y, Add(y, z));
      AddCancel(y, z);
    }
  }

  lemma {:induction false} QuotientDegree(p: Poly, a: GF, n: nat)
    requires DegreeBelow(p, n + 1)
    ensures DegreeBelow(Quotient(p, a), n)
  {
    hide Add, Mul;
    forall i: nat ensures Coef(Tail(p), i) == Coef(p, i + 1) {
      TailCoef(p, i);
    }
    if |p| > 1 {
      if n == 0 {
        EvalZero(Tail(p), a);
        QuotientDegree(Tail(p), a, 0);
      } else {
        QuotientDegree(Tail(p), a, n - 1);
      }
      var q := Quotient(p, a);
      assert Tail(q) == Quotient(Tail(p), a);
      forall i: nat | i >= n ensures Coef(q, i) == 0 {
        if i > 0 {
          TailCoef(q, i - 1);
        }
      }
    }
  }

  lemma {:induction false} QuotientZero(p: Poly, a: GF)
    requires IsZero(Quotient(p, a)) && Eval(p, a) == 0
    ensures IsZero(p)
  {
    hide Add, Mul;
    EvalStep(p, a);
    MulZero(a, 0);
    AddZero(Coef(p, 0));
    if |p| <= 1 {
      assert Eval(Tail(p), a) == 0;
    } else {
      var q := Quotient(p, a);
      assert Tail(q) == Quotient(Tail(p), a);
      assert Coef(q, 0) == Eval(Tail(p), a);
      forall i: nat ensures Coef(Tail(q), i) == 0 {
        TailCoef(q, i);
      }
      QuotientZero(Tail(p), a);
      forall i: nat ensures Coef(p, i) == 0 {
        if i > 0 {
          TailCoef(p, i - 1);
        }
      }
    }
  }

  ghost predicate Distinct(s: seq<GF>) {
    forall i, j :: 0 <= i < j < |s| ==> s[i] != s[j]
  }

  lemma {:induction false} TooManyRoots(p: Poly, roots: seq<GF>)
    requires DegreeBelow(p, |roots|) && Distinct(roots)
    requires forall k :: 0 <= k < |roots| ==> Eval(p, roots[k]) == 0
    ensures IsZero(p)
    decreases |roots|
  {
    if |roots| > 0 {
      hide Add, Mul, Eval, Quotient;
      var a, rest := roots[0], roots[1..];
      var q := Quotient(p, a);
      QuotientDegree(p, a, |rest|);
      forall k | 0 <= k < |rest| ensures Eval(q, rest[k]) == 0 {
        QuotientEval(p, a, rest[k]);
        AddZero(0);
        AddCancel(rest[k], a);
        MulZero(Add(rest[k], a), Eval(q, rest[k]));
        assert roots[k + 1] == rest[k];
      }
      TooManyRoots(q, rest);
      QuotientZero(p, a);
    }
  }

  // ----- Horner's rule is the sum of the terms

  lemma {:induction false} PowerSumTail(p: Poly, a: GF, n: nat)
    ensures PowerSum(p, a, n + 1) == Add(Coef(p, 0), Mul(a, PowerSum(Tail(p), a, n)))
    decreases n
  {
    hide Add, Mul;
    var c := Coef(p, 0);
    if n == 0 {
      MulZero(a, 0);
      MulOne(c);
      AddZero(c);
      assert Pow(a, 0) == 1;
      assert PowerSum(p, a, 0) == 0;
    } else {
      PowerSumTail(p, a, n - 1);
      TailCoef(p, n - 1);
      var d, e := Coef(p, n), Pow(a, n - 1);
      MulAdd(a, PowerSum(Tail(p), a, n - 1), Mul(d, e));
      MulAssoc(a, d, e);
      MulComm(a, d);
      MulAssoc(d, a, e);
      AddAssoc(c, Mul(a, PowerSum(Tail(p), a, n - 1)), Mul(d, Pow(a, n)));
    }
  }

  lemma {:induction false} EvalIsPowerSum(p: Poly, a: GF)
    ensures Eval(p, a) == PowerSum(p, a, |p|)
    decreases |p|
  {
    hide Add, Mul;
    if |p| > 0 {
      EvalIsPowerSum(Tail(p), a);
      PowerSumTail(p, a, |p| - 1);
      AddComm(Coef(p, 0), Mul(a, Eval(Tail(p), a)));
    }
  }
}

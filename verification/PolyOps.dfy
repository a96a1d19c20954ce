/** The decoder's polynomial operations: loops over coefficient buffers, proved against the
    coefficient-wise sum, the convolution product and Horner's rule. */
module PolyOps {
  import opened GaloisField
  import opened Polynomials
  import opened PolynomialRoots
  import opened ErrorLocation
  import opened TableField

  /** Drops leading zeros, keeping a single one for the zero polynomial. */
  method Normalise(c: seq<GF>) returns (p: Poly)
    requires |c| > 0
    ensures Normal(p) && |p| <= |c| && Same(p, c)
  {
    if |c| > 1 && c[0] == 0 {
      var firstNonZero := 1;
      while firstNonZero < |c| && c[firstNonZero] == 0
        invariant 1 <= firstNonZero <= |c|
        invariant forall k :: 0 <= k < firstNonZero ==> c[k] == 0
      {
        firstNonZero := firstNonZero + 1;
      }
      if firstNonZero == |c| {
        p := [0];
      } else {
        var coefficients := new GF[|c| - firstNonZero];
        for i := 0 to coefficients.Length
          invariant forall k :: 0 <= k < i ==> coefficients[k] == c[firstNonZero + k]
        {
          coefficients[i] := c[firstNonZero + i];
        }
        p := coefficients[..];
      }
    } else {
      p := c;
    }
  }

  predicate IsZeroPoly(p: Poly)
    requires |p| > 0
  {
    p[0] == 0
  }

  method AddOrSubtract(p: Poly, q: Poly) returns (r: Poly)
    requires Normal(p) && Normal(q)
    ensures Normal(r) && |r| <= if |p| < |q| then |q| else |p|
    ensures forall i: nat :: Coef(r, i) == Add(Coef(p, i), Coef(q, i))
  {
    hide Add;
    if IsZeroPoly(p) {
      forall i: nat ensures Coef(q, i) == Add(Coef(p, i), Coef(q, i)) {
        AddZero(Coef(q, i));
      }
      return q;
    }
    if IsZeroPoly(q) {
      forall i: nat ensures Coef(p, i) == Add(Coef(p, i), Coef(q, i)) {
        AddZero(Coef(p, i));
      }
      return p;
    }
    var smaller, larger := p, q;
    if |smaller| > |larger| {
      smaller, larger := larger, smaller;
    }
    var sumDiff := new GF[|larger|];
    var lengthDiff := |larger| - |smaller|;
    for i := 0 to lengthDiff
      invariant forall k :: 0 <= k < i ==> sumDiff[k] == larger[k]
    {
      sumDiff[i] := larger[i];
    }
    for i := lengthDiff to |larger|
      invariant forall k :: 0 <= k < lengthDiff ==> sumDiff[k] == larger[k]
      invariant forall k :: lengthDiff <= k < i ==> sumDiff[k] == Add(smaller[k - lengthDiff], larger[k])
    {
      sumDiff[i] := Add(smaller[i - lengthDiff], larger[i]);
    }
    ghost var sum := sumDiff[..];
    forall i: nat ensures Coef(sum, i) == Add(Coef(p, i), Coef(q, i)) {
      AddComm(Coef(p, i), Coef(q, i));
      AddZero(Coef(larger, i));
      AddZero(0);
    }
    r := Normalise(sumDiff[..]);
  }

  method MultiplyScalar(field: GenericGF, p: Poly, scalar: GF) returns (r: Poly)
    requires field.Valid() && Normal(p)
    ensures Normal(r) && |r| <= |p|
    ensures forall i: nat :: Coef(r, i) == Mul(scalar, Coef(p, i))
  {
    hide Mul;
    forall i: nat ensures Mul(0, Coef(p, i)) == 0 && Mul(1, Coef(p, i)) == Coef(p, i) {
      MulZero(Coef(p, i), 0);
      MulOne(Coef(p, i));
      MulComm(1, Coef(p, i));
    }
    if scalar == 0 {
      return [0];
    }
    if scalar == 1 {
      return p;
    }
    var product := new GF[|p|];
    for i := 0 to |p|
      invariant forall k :: 0 <= k < i ==> product[k] == Mul(scalar, p[k])
    {
      MulComm(p[i], scalar);
      product[i] := field.Multiply(p[i], scalar);
    }
    ghost var whole := product[..];
    MulZero(scalar, 0);
    forall i: nat ensures Coef(whole, i) == Mul(scalar, Coef(p, i)) {
    }
    r := Normalise(product[..]);
  }

  /** The product with coefficient * x^degree. */
  method TimesMonomial(field: GenericGF, p: Poly, degree: nat, coefficient: GF) returns (r: Poly)
    requires field.Valid() && Normal(p)
    ensures Normal(r) && |r| <= |p| + degree
    ensures forall i: nat :: Coef(r, i) == if i < degree then 0 else Mul(coefficient, Coef(p, i - degree))
  {
    hide Mul;
    forall i: nat ensures Mul(0, Coef(p, i)) == 0 {
      MulZero(Coef(p, i), 0);
    }
    if coefficient == 0 {
      return [0];
    }
    var product := new GF[|p| + degree](_ => 0);
    for i := 0 to |p|
      invariant forall k :: 0 <= k < i ==> product[k] == Mul(coefficient, p[k])
      invariant forall k :: i <= k < product.Length ==> product[k] == 0
    {
      MulComm(p[i], coefficient);
      product[i] := field.Multiply(p[i], coefficient);
    }
    ghost var whole := product[..];
    MulZero(coefficient, 0);
    forall i: nat ensures Coef(whole, i) == if i < degree then 0 else Mul(coefficient, Coef(p, i - degree)) {
    }
    r := Normalise(product[..]);
  }

  method BuildMonomial(degree: nat, coefficient: GF) returns (r: Poly)
    ensures Normal(r) && |r| == if coefficient == 0 then 1 else degree + 1
    ensures forall i: nat :: Coef(r, i) == if i == degree then coefficient else 0
    ensures r[0] == coefficient
  {
    if coefficient == 0 {
      return [0];
    }
    var coefficients := new GF[degree + 1](_ => 0);
    coefficients[0] := coefficient;
    r := coefficients[..];
  }

  /** The entry at index k of the product buffer once i rows have been added. */
  ghost function Partial(p: Poly, q: Poly, i: nat, k: nat): GF
    requires i <= |p| && |q| > 0
  {
    if i == 0 || k > i + |q| - 2 then 0 else Conv(p[..i], q, i + |q| - 2 - k)
  }

  lemma PartialNext(p: Poly, q: Poly, i: nat, k: nat)
    requires i < |p| && |q| > 0
    ensures Partial(p, q, i + 1, k) == if i <= k < i + |q| then Add(Partial(p, q, i, k), Mul(p[i], q[k - i]))
                                       else Partial(p, q, i, k)
  {
    hide Add, Mul;
    assert Tail(p[..i + 1]) == p[..i];
    assert Coef(p[..i + 1], 0) == p[i];
    MulZero(p[i], 0);
    if k <= i + |q| - 1 {
      var n := i + |q| - 1 - k;
      var m := Mul(p[i], Coef(q, n));
      AddZero(m);
      AddZero(if n == 0 then 0 else Conv(p[..i], q, n - 1));
      if n > 0 {
        AddComm(m, Conv(p[..i], q, n - 1));
        if i == 0 {
          ConvZero(p[..0], q, n - 1);
        }
      }
    }
  }

  method MultiplyPoly(field: GenericGF, p: Poly, q: Poly) returns (r: Poly)
    requires field.Valid() && Normal(p) && Normal(q)
    ensures Normal(r) && |r| <= |p| + |q| - 1
    ensures forall n: nat :: Coef(r, n) == Conv(p, q, n)
  {
    hide Add, Mul, Conv;
    if IsZeroPoly(p) || IsZeroPoly(q) {
      forall n: nat ensures Conv(p, q, n) == 0 {
        ConvZero(p, q, n);
      }
      return [0];
    }
    var product := new GF[|p| + |q| - 1](_ => 0);
    for i := 0 to |p|
      invariant forall k: nat :: k < product.Length ==> product[k] == Partial(p, q, i, k)
    {
      for j := 0 to |q|
        invariant forall k: nat :: i <= k < i + j ==> product[k] == Partial(p, q, i + 1, k)
        invariant forall k: nat :: k < product.Length && !(i <= k < i + j) ==> product[k] == Partial(p, q, i, k)
      {
        var c := field.Multiply(p[i], q[j]);
        PartialNext(p, q, i, i + j);
        product[i + j] := Add(product[i + j], c);
      }
      forall k: nat | k < product.Length ensures product[k] == Partial(p, q, i + 1, k) {
        PartialNext(p, q, i, k);
      }
    }
    ghost var whole := product[..];
    forall n: nat ensures Coef(whole, n) == Conv(p, q, n) {
      assert p[..|p|] == p;
      if n + 1 >= |p| + |q| {
        ConvBeyond(p, q, n);
      }
    }
    r := Normalise(product[..]);
  }

  method EvaluateAt(field: GenericGF, p: Poly, a: GF) returns (result: GF)
    requires field.Valid() && |p| > 0
    ensures result == Eval(p, a)
  {
    hide Add, Mul;
    if a == 0 {
      EvalAtZero(p);
      return Coef(p, 0);
    }
    result := 0;
    if a == 1 {
      for i := 0 to |p|
        invariant result == Eval(p[..i], 1)
      {
        assert Tail(p[..i + 1]) == p[..i];
        MulOne(result);
        MulComm(1, result);
        result := Add(result, p[i]);
      }
      assert p[..|p|] == p;
      return;
    }
    result := p[0];
    assert Tail([p[0]]) == [];
    EvalStep([p[0]], a);
    MulZero(a, 0);
    AddZero(p[0]);
    assert p[..1] == [p[0]];
    for i := 1 to |p|
      invariant result == Eval(p[..i], a)
    {
      assert Tail(p[..i + 1]) == p[..i];
      var product := field.Multiply(a, result);
      result := Add(product, p[i]);
    }
    assert p[..|p|] == p;
  }
}

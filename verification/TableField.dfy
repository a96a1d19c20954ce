/** The decoder's field object: exponent and logarithm tables, and products through them. */
module TableField {
  import opened GaloisField

  class GenericGF {
    const expTable: array<GF>
    const logTable: array<nat>

    ghost predicate Valid()
      reads expTable, logTable
    {
      && expTable.Length == 256 && logTable.Length == 256
      && (forall i: nat :: i < 256 ==> expTable[i] == Exp(i))
      && (forall i: nat :: i < 255 ==> logTable[Exp(i) as int] == i)
    }

    constructor ()
      ensures Valid() && fresh(expTable) && fresh(logTable)
    {
      hide Exp;
      var exps := PowersOfX();
      var logs := Logarithms(exps);
      expTable := exps;
      logTable := logs;
    }

    static method PowersOfX() returns (exps: array<GF>)
      ensures fresh(exps) && exps.Length == 256
      ensures forall k: nat :: k < 256 ==> exps[k] == Exp(k)
    {
      hide Exp, Double;
      exps := new GF[256];
      var x: bv16 := 1;
      ExpStart();
      for i := 0 to 256
        invariant x < 256 && x as GF == Exp(i)
        invariant forall k: nat :: k < i ==> exps[k] == Exp(k)
      {
        exps[i] := x as GF;
        ExpStep(i);
        x := TimesX(x);
      }
    }

    static method TimesX(x: bv16) returns (y: bv16)
      requires x < 256
      ensures y < 256 && y as GF == Double(x as GF)
    {
      DoublingStep(x);
      hide Double;
      y := x * 2;
      if y >= 256 {
        y := (y ^ 0x11D) & 0xFF;
      }
    }

    static method Logarithms(exps: array<GF>) returns (logs: array<nat>)
      requires exps.Length == 256 && forall k: nat :: k < 256 ==> exps[k] == Exp(k)
      ensures fresh(logs) && logs.Length == 256
      ensures forall k: nat :: k < 255 ==> 0 <= Exp(k) as int < 256 && logs[Exp(k) as int] == k
    {
      hide Exp;
      logs := new nat[256];
      for i := 0 to 255
        invariant forall k: nat :: k < i ==> 0 <= Exp(k) as int < 256 && logs[Exp(k) as int] == k
      {
        forall k: nat | k < i ensures Exp(k) as int != Exp(i) as int {
          LogEntriesDiffer(k, i);
        }
        ByteToInt(exps[i], 0);
        logs[exps[i] as int] := i;
      }
    }

    lemma LogOf(a: GF)
      requires Valid() && a != 0
      ensures a as int < 256 && logTable[a as int] == Log(a)
    {
      hide Exp, Log;
      ByteToInt(a, 0);
      var n := Log(a);
      assert Exp(n) == a by { hide Valid; }
    }

    method Multiply(a: GF, b: GF) returns (r: GF)
      requires Valid()
      ensures r == Mul(a, b)
    {
      hide Exp, Log, Mul;
      MulZero(a, b);
      if a == 0 || b == 0 {
        return 0;
      }
      LogOf(a);
      LogOf(b);
      ExpAdd(Log(a), Log(b));
      ExpMod(Log(a) + Log(b));
      return expTable[(logTable[a as int] + logTable[b as int]) % 255];
    }

    method LogarithmOf(a: GF) returns (n: nat)
      requires Valid() && a != 0
      ensures n == Log(a)
    {
      hide Exp, Log;
      LogOf(a);
      return logTable[a as int];
    }

    method PowerOf(n: nat) returns (r: GF)
      requires Valid() && n < 256
      ensures r == Exp(n)
    {
      hide Exp;
      return expTable[n];
    }

    method InverseOf(a: GF) returns (r: GF)
      requires Valid() && a != 0
      ensures r == Inverse(a)
    {
      hide Exp, Log;
      LogOf(a);
      return expTable[256 - logTable[a as int] - 1];
    }
  }

  lemma DoublingStep(x: bv16)
    requires x < 256
    ensures x * 2 < 256 ==> (x * 2) as GF == Double(x as GF)
    ensures x * 2 >= 256 ==> ((x * 2) ^ 0x11D) & 0xFF < 256 && (((x * 2) ^ 0x11D) & 0xFF) as GF == Double(x as GF)
  {}

  lemma ExpStart()
    ensures Exp(0) == 1
  {}

  lemma ExpStep(n: nat)
    ensures Exp(n + 1) == Double(Exp(n))
  {}

  lemma LogEntriesDiffer(k: nat, i: nat)
    requires k < i < 255
    ensures Exp(k) as int != Exp(i) as int
  {
    hide Exp;
    ByteToInt(Exp(k), Exp(i));
    if Exp(k) == Exp(i) {
      ExpInjective(k, i);
    }
  }
}

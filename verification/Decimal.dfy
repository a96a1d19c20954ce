/** Decimal numerals: their value, the digits of a number, and the unsigned integer parser of the Rust
    standard library, which accepts a leading plus sign. */
module Decimal {
  import opened Wrappers

  predicate IsDigit(c: char) {
    '0' <= c <= '9'
  }

  predicate AllDigits(s: string) {
    forall i :: 0 <= i < |s| ==> IsDigit(s[i])
  }

  function DigitValue(c: char): (d: nat)
    requires IsDigit(c)
    ensures d <= 9
  {
    c as int - '0' as int
  }

  function Value(s: string): nat
    requires AllDigits(s)
  {
    if s == [] then 0 else 10 * Value(s[..|s| - 1]) + DigitValue(s[|s| - 1])
  }

  function Pow10(n: nat): (p: nat)
    ensures p >= 1
  {
    if n == 0 then 1 else 10 * Pow10(n - 1)
  }

  /** The numeral of a number, without leading zeros. */
  function Digits(n: nat): string {
    if n < 10 then [('0' as int + n) as char] else Digits(n / 10) + [('0' as int + n % 10) as char]
  }

  /** The number that the parser reads, if the text is a numeral within range. */
  function ParseUnsigned(s: string, max: nat): Option<nat> {
    var digits := if |s| > 1 && s[0] == '+' then s[1..] else s;
    if digits == [] || !AllDigits(digits) || Value(digits) > max then None else Some(Value(digits))
  }

  lemma {:induction false} DigitsAreDigits(n: nat)
    ensures Digits(n) != [] && AllDigits(Digits(n)) && Value(Digits(n)) == n
    ensures n >= 10 ==> Digits(n)[0] != '0'
    ensures forall c <- Digits(n) :: IsDigit(c)
  {
    if n < 10 {
      assert Value([]) == 0;
      assert Digits(n)[..0] == [];
    } else {
      DigitsAreDigits(n / 10);
      var s := Digits(n);
      assert s[..|s| - 1] == Digits(n / 10);
      assert n / 10 >= 1;
      if n / 10 < 10 {
        assert Digits(n / 10)[0] == ('0' as int + n / 10) as char;
      }
    }
  }

  lemma ParseDigits(n: nat, max: nat)
    requires n <= max
    ensures ParseUnsigned(Digits(n), max) == Some(n)
  {
    hide Digits, Value;
    DigitsAreDigits(n);
    assert IsDigit(Digits(n)[0]);
  }

  lemma {:induction false} ValueAppend(a: string, b: string)
    requires AllDigits(a) && AllDigits(b)
    ensures AllDigits(a + b) && Value(a + b) == Value(a) * Pow10(|b|) + Value(b)
    decreases |b|
  {
    if b == [] {
      assert a + b == a;
    } else {
      var n := |b| - 1;
      var s := a + b;
      assert s[..|s| - 1] == a + b[..n];
      ValueAppend(a, b[..n]);
      Rearrange(Value(a), Pow10(n), Value(b[..n]), DigitValue(b[n]));
    }
  }

  lemma Rearrange(a: nat, p: nat, v: nat, d: nat)
    ensures 10 * (a * p + v) + d == a * (10 * p) + (10 * v + d)
  {}

  lemma {:induction false} ValueBound(s: string)
    requires AllDigits(s)
    ensures Value(s) < Pow10(|s|)
  {
    if s != [] {
      ValueBound(s[..|s| - 1]);
    }
  }

  lemma {:induction false} Pow10Add(m: nat, n: nat)
    ensures Pow10(m + n) == Pow10(m) * Pow10(n)
  {
    if m > 0 {
      Pow10Add(m - 1, n);
      assert Pow10(m + n) == 10 * Pow10(m + n - 1);
      Associate(Pow10(m - 1), Pow10(n));
    }
  }

  lemma Associate(a: nat, b: nat)
    ensures 10 * (a * b) == 10 * a * b
  {}

  function Zeros(n: nat): (s: string)
    ensures |s| == n && AllDigits(s)
  {
    seq(n, _ => '0')
  }

  lemma {:induction false} ValueZeros(n: nat)
    ensures Value(Zeros(n)) == 0
  {
    if n > 0 {
      assert Zeros(n)[..n - 1] == Zeros(n - 1);
      ValueZeros(n - 1);
    }
  }
}

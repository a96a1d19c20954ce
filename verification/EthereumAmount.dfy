/** Conversion of a decimal amount of ether to wei, as the Ethereum protocol does it. */
module EthereumAmount {
  import opened Decimal
  import opened Text
  import opened Wrappers

  const U64_MAX := 0xFFFF_FFFF_FFFF_FFFF
  const DECIMALS := 18
  const WEI: nat := 1_000_000_000_000_000_000

  /** The length of a character in UTF-8. */
  function Width(c: char): (w: nat)
    ensures 1 <= w <= 4
  {
    if c as int < 0x80 then 1 else if c as int < 0x800 then 2 else if c as int < 0x1_0000 then 3 else 4
  }

  /** The characters in the first n bytes, or none if those end within a character, where the slice of
      the source panics. */
  function FirstBytes(s: string, n: nat): (r: Option<string>)
    ensures r.Some? ==> r.value <= s
    decreases |s|
  {
    if n == 0 then Some([])
    else if s == [] || Width(s[0]) > n then None
    else
      match FirstBytes(s[1..], n - Width(s[0]))
      case None => None
      case Some(rest) => Some([s[0]] + rest)
  }

  /** At least 18 characters: zeros are added on the right. */
  function PadRight(s: string): (r: string)
    ensures |r| >= DECIMALS && s <= r
  {
    if |s| < DECIMALS then s + Zeros(DECIMALS - |s|) else s
  }

  datatype Amount = Wei(wei: nat) | Invalid(message: string) | Panics

  function ParseAmount(amount: string): Amount {
    var parts := Split(amount, '.');
    if |parts| == 1 then
      match ParseUnsigned(parts[0], U64_MAX)
      case None => Invalid("invalid amount")
      case Some(v) => Wei(WEI * v)
    else if |parts| == 2 then
      match ParseUnsigned(parts[0], U64_MAX)
      case None => Invalid("invalid amount")
      case Some(whole) =>
        match FirstBytes(PadRight(parts[1]), DECIMALS)
        case None => Panics
        case Some(digits) =>
          match ParseUnsigned(digits, U64_MAX)
          case None => Invalid("invalid amount")
          case Some(fraction) => Wei(WEI * whole + fraction)
    else Invalid("invalid amount format")
  }

  /** A decimal numeral: digits, and perhaps a point and more digits. */
  datatype Numeral = Numeral(whole: string, fraction: Option<string>)
  {
    predicate Valid() {
      whole != [] && AllDigits(whole) && (fraction.Some? ==> AllDigits(fraction.value))
    }

    function Print(): string {
      match fraction
      case None => whole
      case Some(f) => whole + ['.'] + f
    }

    function Places(): nat {
      if fraction.Some? then |fraction.value| else 0
    }

    /** The value times ten to the number of places. */
    function Scaled(): nat
      requires Valid()
    {
      if fraction.Some? then Value(whole + fraction.value) else Value(whole)
    }
  }

  // ----- What a numeral parses to

  predicate Ascii(s: string) {
    forall i :: 0 <= i < |s| ==> Width(s[i]) == 1
  }

  lemma {:induction false} FirstBytesOfAscii(s: string, n: nat)
    requires n <= |s| && Ascii(s[..n])
    ensures FirstBytes(s, n) == Some(s[..n])
  {
    if n > 0 {
      assert Width(s[..n][0]) == 1;
      assert s[1..][..n - 1] == s[..n][1..];
      FirstBytesOfAscii(s[1..], n - 1);
      assert s[..n] == [s[0]] + s[1..][..n - 1];
    }
  }

  lemma Pow18()
    ensures Pow10(18) == WEI && Pow10(9) == 1_000_000_000
  {
    assert Pow10(3) == 1000;
    Pow10Add(3, 3);
    Pow10Add(6, 3);
    Pow10Add(9, 9);
  }

  /** The first 18 digits of a fraction, zeros added. */
  function Fraction18(f: string): (r: string)
    requires AllDigits(f)
    ensures |r| == DECIMALS && AllDigits(r)
  {
    PadRight(f)[..DECIMALS]
  }

  lemma ParseNumeral(n: Numeral)
    requires n.Valid()
    ensures ParseAmount(n.Print()) ==
            if Value(n.whole) > U64_MAX then Invalid("invalid amount")
            else Wei(WEI * Value(n.whole) + (if n.fraction.Some? then Value(Fraction18(n.fraction.value)) else 0))
  {
    hide Value, Split, Pow10;
    assert '.' !in n.whole;
    assert IsDigit(n.whole[0]);
    match n.fraction
    case None =>
      NoSeparator(n.whole, '.');
    case Some(f) =>
      SplitTwo(n.whole, '.', f);
      FirstBytesOfAscii(PadRight(f), DECIMALS);
      ValueBound(Fraction18(f));
      Pow18();
      assert IsDigit(Fraction18(f)[0]);
  }

  // ----- The amount is the value times 10^18, rounded down

  /** a is the largest number with a / wei <= v / p. */
  predicate IsFloor(a: nat, v: nat, p: nat) {
    a * p <= v * WEI < (a + 1) * p
  }

  lemma FractionIsFloor(f: string)
    requires AllDigits(f)
    ensures IsFloor(Value(Fraction18(f)), Value(f), Pow10(|f|))
  {
    hide *;
    if |f| <= DECIMALS {
      ShortFraction(f);
    } else {
      LongFraction(f);
    }
  }

  lemma ShortFraction(f: string)
    requires AllDigits(f) && |f| <= DECIMALS
    ensures IsFloor(Value(Fraction18(f)), Value(f), Pow10(|f|))
  {
    hide Value, Pow10, IsFloor, PadRight;
    PaddedValue(f);
    WeiFactors(|f|);
    ScaleUp(Value(Fraction18(f)), Value(f), Pow10(DECIMALS - |f|), Pow10(|f|));
  }

  lemma PaddedValue(f: string)
    requires AllDigits(f) && |f| <= DECIMALS
    ensures Value(Fraction18(f)) == Value(f) * Pow10(DECIMALS - |f|)
  {
    hide Value, Pow10;
    var k := DECIMALS - |f|;
    assert Fraction18(f) == f + Zeros(k);
    ValueAppend(f, Zeros(k));
    ValueZeros(k);
  }

  lemma WeiFactors(n: nat)
    requires n <= DECIMALS
    ensures Pow10(DECIMALS - n) * Pow10(n) == WEI
  {
    hide Pow10;
    Pow10Add(DECIMALS - n, n);
    Pow18();
  }

  lemma LongFraction(f: string)
    requires AllDigits(f) && |f| > DECIMALS
    ensures IsFloor(Value(Fraction18(f)), Value(f), Pow10(|f|))
  {
    hide Value, Pow10, IsFloor;
    var a, b := f[..DECIMALS], f[DECIMALS..];
    assert f == a + b && Fraction18(f) == a;
    ValueAppend(a, b);
    ValueBound(b);
    Pow10Add(DECIMALS, |b|);
    Pow18();
    ScaleDown(Value(a), Value(b), Pow10(|b|));
  }

  lemma ScaleUp(x: nat, v: nat, q: nat, p: nat)
    requires x == v * q && q * p == WEI && p >= 1
    ensures IsFloor(x, v, p)
  {
    assert v * q * p == v * (q * p);
    assert (x + 1) * p == x * p + p;
  }

  lemma ScaleDown(a: nat, b: nat, q: nat)
    requires b < q
    ensures IsFloor(a, a * q + b, WEI * q)
  {
    assert a * (WEI * q) == (a * q) * WEI;
    assert (a * q + b) * WEI == (a * q) * WEI + b * WEI;
    assert (a + 1) * (WEI * q) == a * (WEI * q) + WEI * q;
  }

  lemma AddWhole(w: nat, x: nat, v: nat, p: nat)
    requires IsFloor(x, v, p)
    ensures IsFloor(WEI * w + x, w * p + v, p)
  {
    assert (WEI * w + x) * p == WEI * (w * p) + x * p;
    assert (w * p + v) * WEI == WEI * (w * p) + v * WEI;
    assert (WEI * w + x + 1) * p == (WEI * w + x) * p + p;
    assert (x + 1) * p == x * p + p;
  }

  /** For every numeral with its whole part in 64 bits the parser gives the value times 10^18, cut
      after 18 places, and never 2^124 or more. It refuses every other numeral. */
  lemma AmountIsFloor(n: Numeral)
    requires n.Valid()
    ensures
      var r := ParseAmount(n.Print());
      if Value(n.whole) > U64_MAX then r.Invalid?
      else r.Wei? && IsFloor(r.wei, n.Scaled(), Pow10(n.Places())) && r.wei < 0x1000_0000_0000_0000_0000_0000_0000_0000
  {
    hide Value, Pow10, ParseAmount, IsFloor;
    ParseNumeral(n);
    Pow18();
    match n.fraction
    case None =>
      assert Pow10(0) == 1 by { PowZero(); }
      WholeIsFloor(Value(n.whole));
    case Some(f) =>
      FractionIsFloor(f);
      ValueBound(Fraction18(f));
      ValueAppend(n.whole, f);
      AddWhole(Value(n.whole), Value(Fraction18(f)), Value(f), Pow10(|f|));
  }

  lemma PowZero()
    ensures Pow10(0) == 1
  {}

  lemma WholeIsFloor(w: nat)
    ensures IsFloor(WEI * w, w, 1)
  {}

  // ----- It is monotone in the value

  function Times(a: nat, b: nat): nat {
    a * b
  }

  lemma FloorInTimes(a: nat, v: nat, p: nat)
    requires IsFloor(a, v, p)
    ensures Times(a, p) <= Times(v, WEI) < Times(a + 1, p)
  {}

  lemma Swap(x: nat, y: nat, z: nat)
    ensures Times(Times(x, y), z) == Times(Times(x, z), y)
  {
    assert x * y * z == x * z * y;
  }

  lemma Scale(x: nat, y: nat, k: nat)
    requires k >= 1
    ensures x <= y <==> Times(x, k) <= Times(y, k)
    ensures x < y <==> Times(x, k) < Times(y, k)
  {}

  lemma FloorMonotone(a: nat, v: nat, p: nat, b: nat, u: nat, q: nat)
    requires IsFloor(a, v, p) && IsFloor(b, u, q) && p >= 1 && q >= 1
    requires v * q <= u * p
    ensures a <= b
  {
    hide IsFloor, Times;
    FloorInTimes(a, v, p);
    FloorInTimes(b, u, q);
    assert Times(v, q) <= Times(u, p) by { AsTimes(v, q); AsTimes(u, p); }
    Scale(Times(a, p), Times(v, WEI), q);
    Swap(v, WEI, q);
    Scale(Times(v, q), Times(u, p), WEI);
    Swap(u, p, WEI);
    Scale(Times(u, WEI), Times(b + 1, q), p);
    Swap(b + 1, q, p);
    Scale(Times(a, p), Times(b + 1, p), q);
    Scale(a, b + 1, p);
  }

  lemma AsTimes(x: nat, y: nat)
    ensures Times(x, y) == x * y
  {}

  /** A larger value never gives a smaller amount. */
  lemma AmountMonotone(m: Numeral, n: Numeral)
    requires m.Valid() && n.Valid() && Value(m.whole) <= U64_MAX && Value(n.whole) <= U64_MAX
    requires m.Scaled() * Pow10(n.Places()) <= n.Scaled() * Pow10(m.Places())
    ensures ParseAmount(m.Print()).Wei? && ParseAmount(n.Print()).Wei?
    ensures ParseAmount(m.Print()).wei <= ParseAmount(n.Print()).wei
  {
    hide Value, Pow10, ParseAmount, IsFloor;
    AmountIsFloor(m);
    AmountIsFloor(n);
    FloorMonotone(ParseAmount(m.Print()).wei, m.Scaled(), Pow10(m.Places()),
                  ParseAmount(n.Print()).wei, n.Scaled(), Pow10(n.Places()));
  }

  // ----- It inverts a printer with 18 places

  function Pad18(s: string): (r: string)
    requires AllDigits(s) && |s| <= DECIMALS
    ensures |r| == DECIMALS && AllDigits(r)
  {
    Zeros(DECIMALS - |s|) + s
  }

  lemma {:induction false} DigitsShort(n: nat, k: nat)
    requires n < Pow10(k) && k >= 1
    ensures |Digits(n)| <= k
    decreases k
  {
    if n >= 10 {
      assert Pow10(1) == 10;
      DigitsShort(n / 10, k - 1);
    }
  }

  /** The numeral with 18 places of an amount in wei. */
  function PrintAmount(wei: nat): Numeral {
    DigitsShortEnough(wei % WEI);
    Numeral(Digits(wei / WEI), Some(Pad18(Digits(wei % WEI))))
  }

  lemma DigitsShortEnough(n: nat)
    requires n < WEI
    ensures AllDigits(Digits(n)) && |Digits(n)| <= DECIMALS
  {
    hide Digits, Pow10;
    DigitsAreDigits(n);
    Pow18();
    DigitsShort(n, DECIMALS);
  }

  /** Parsing inverts printing for exactly the amounts whose whole part is in 64 bits. */
  lemma PrintedAmountParses(wei: nat)
    ensures PrintAmount(wei).Valid()
    ensures ParseAmount(PrintAmount(wei).Print()) == Wei(wei) <==> wei / WEI <= U64_MAX
  {
    hide Digits, Value, ParseAmount;
    var n := PrintAmount(wei);
    var w, f := wei / WEI, wei % WEI;
    DigitsShortEnough(f);
    DigitsAreDigits(w);
    DigitsAreDigits(f);
    ParseNumeral(n);
    assert Fraction18(n.fraction.value) == Pad18(Digits(f));
    ValueAppend(Zeros(DECIMALS - |Digits(f)|), Digits(f));
    ValueZeros(DECIMALS - |Digits(f)|);
  }

  // ----- What else is accepted

  /** A numeral within 64 bits, perhaps with a plus sign before it. */
  predicate Unsigned(s: string) {
    var digits := if |s| > 1 && s[0] == '+' then s[1..] else s;
    digits != [] && AllDigits(digits) && Value(digits) <= U64_MAX
  }

  /** The first 18 characters of a fraction, as far as there are that many. */
  function Leading(f: string): string {
    if |f| < DECIMALS then f else f[..DECIMALS]
  }

  predicate SignedDigits(s: string) {
    AllDigits(s) || (s != [] && s[0] == '+' && AllDigits(s[1..]))
  }

  /** The parser accepts exactly a number in 64 bits with perhaps a sign, alone or with a point and a
      fraction whose first 18 characters are digits with perhaps a sign; what follows those is ignored. */
  lemma AcceptedIff(s: string)
    ensures
      var parts := Split(s, '.');
      ParseAmount(s).Wei? <==>
      Unsigned(parts[0]) && (|parts| == 1 || (|parts| == 2 && SignedDigits(Leading(parts[1]))))
  {
    hide Value, Split, Pow10, FirstBytes, PadRight;
    var parts := Split(s, '.');
    if |parts| == 2 {
      FractionAcceptedIff(parts[1]);
    }
  }

  lemma FractionAcceptedIff(f: string)
    ensures
      var digits := FirstBytes(PadRight(f), DECIMALS);
      digits.Some? && ParseUnsigned(digits.value, U64_MAX).Some? <==> SignedDigits(Leading(f))
  {
    hide Value, Pow10, FirstBytes, PadRight;
    var p := PadRight(f);
    var digits := p[..DECIMALS];
    LeadingPadded(f);
    if Ascii(digits) {
      FirstBytesOfAscii(p, DECIMALS);
      if AllDigits(digits) {
        FitsU64(digits);
      } else if digits[0] == '+' && AllDigits(digits[1..]) {
        FitsU64(digits[1..]);
      }
    } else {
      var i :| 0 <= i < DECIMALS && Width(digits[i]) != 1;
      WideIsKept(p, DECIMALS, i);
      assert !IsDigit(digits[i]) && digits[i] != '+';
      assert i > 0 ==> digits[1..][i - 1] == digits[i];
    }
  }

  /** A character of more than one byte among the first n is among those in the first n bytes, or there
      are no such characters. */
  lemma {:induction false} WideIsKept(s: string, n: nat, i: nat)
    requires i < n <= |s| && Width(s[i]) > 1
    ensures FirstBytes(s, n).Some? ==> exists c <- FirstBytes(s, n).value :: Width(c) > 1
  {
    if FirstBytes(s, n).Some? && Width(s[0]) == 1 {
      WideIsKept(s[1..], n - 1, i - 1);
      var c :| c in FirstBytes(s[1..], n - 1).value && Width(c) > 1;
      assert c in FirstBytes(s, n).value;
    }
  }

  lemma LeadingPadded(f: string)
    ensures var digits := PadRight(f)[..DECIMALS];
            && (AllDigits(digits) <==> AllDigits(Leading(f)))
            && (digits[0] == '+' && AllDigits(digits[1..]) <==> f != [] && f[0] == '+' && AllDigits(Leading(f)[1..]))
  {
    var g, p := Leading(f), PadRight(f);
    assert forall i :: 0 <= i < |g| ==> p[..DECIMALS][i] == g[i];
    assert forall i :: |g| <= i < DECIMALS ==> p[..DECIMALS][i] == '0';
    if f != [] {
      assert forall i :: 0 <= i < |g| - 1 ==> p[..DECIMALS][1..][i] == g[1..][i];
    }
  }

  lemma FitsU64(s: string)
    requires AllDigits(s) && |s| <= DECIMALS
    ensures Value(s) <= U64_MAX
  {
    hide Value, Pow10;
    ValueBound(s);
    Pow18();
    Pow10Grows(|s|, DECIMALS);
  }

  lemma {:induction false} Pow10Grows(m: nat, n: nat)
    requires m <= n
    ensures Pow10(m) <= Pow10(n)
    decreases n
  {
    if m < n {
      Pow10Grows(m, n - 1);
    }
  }

  /** A sign at the start of the fraction is read as a zero: "1.+5" is 1.05. */
  lemma SignedFraction(whole: string, f: string)
    requires '.' !in whole && '.' !in f
    ensures ParseAmount(whole + ['.'] + (['+'] + f)) == ParseAmount(whole + ['.'] + (['0'] + f))
  {
    hide Value, Split, Pow10, FirstBytes, ParseUnsigned;
    var g, z := ['+'] + f, ['0'] + f;
    SplitTwo(whole, '.', g);
    SplitTwo(whole, '.', z);
    var p, q := PadRight(g), PadRight(z);
    assert p[1..] == q[1..];
    var rest := FirstBytes(p[1..], DECIMALS - 1);
    FirstBytesNext(p, DECIMALS);
    FirstBytesNext(q, DECIMALS);
    if rest.Some? {
      SignIsZero(rest.value);
    }
  }

  /** So the amount is the value with the sign replaced by a zero, cut after 18 places. */
  lemma SignedFractionIsFloor(n: Numeral, f: string)
    requires n.Valid() && n.fraction == Some(['0'] + f) && Value(n.whole) <= U64_MAX
    ensures
      var r := ParseAmount(n.whole + ['.'] + (['+'] + f));
      r.Wei? && IsFloor(r.wei, n.Scaled(), Pow10(n.Places()))
  {
    hide Value, ParseAmount, IsFloor, Pow10;
    assert forall i :: 0 <= i < |f| ==> f[i] == n.fraction.value[i + 1];
    assert '.' !in n.whole && '.' !in f;
    SignedFraction(n.whole, f);
    AmountIsFloor(n);
  }

  lemma FirstBytesNext(s: string, n: nat)
    requires s != [] && n > 1 && Width(s[0]) == 1
    ensures var rest := FirstBytes(s[1..], n - 1);
            FirstBytes(s, n) == if rest.None? then None else Some([s[0]] + rest.value)
    ensures var rest := FirstBytes(s[1..], n - 1);
            rest.Some? ==> rest.value != []
  {}

  lemma SignIsZero(s: string)
    requires s != []
    ensures ParseUnsigned(['+'] + s, U64_MAX) == ParseUnsigned(['0'] + s, U64_MAX)
  {
    hide Value, Pow10;
    assert (['+'] + s)[1..] == s;
    assert (['0'] + s)[1..] == s;
    if AllDigits(s) {
      ValueAppend(['0'], s);
      ValueZero();
    }
  }

  lemma ValueZero()
    ensures Value(['0']) == 0
  {
    assert Zeros(1) == ['0'];
    ValueZeros(1);
  }

  // ----- When the parser panics

  function Utf8Length(s: string): (n: nat)
    ensures n >= |s|
  {
    if s == [] then 0 else Width(s[0]) + Utf8Length(s[1..])
  }

  /** The bytes of some character stand on both sides of the n-th. */
  predicate Straddles(s: string, n: nat) {
    exists k :: 0 <= k < |s| && Utf8Length(s[..k]) < n < Utf8Length(s[..k]) + Width(s[k])
  }

  lemma StraddlesNext(s: string, n: nat)
    requires s != [] && n > 0
    ensures Straddles(s, n) <==> n < Width(s[0]) || (Width(s[0]) <= n && Straddles(s[1..], n - Width(s[0])))
  {
    var c, rest := Width(s[0]), s[1..];
    forall k | 0 < k < |s| ensures Utf8Length(s[..k]) == c + Utf8Length(rest[..k - 1]) && s[k] == rest[k - 1] {
      assert s[..k][1..] == rest[..k - 1];
    }
    assert s[..0] == [];
    if n < c {
      assert Utf8Length(s[..0]) < n < Utf8Length(s[..0]) + Width(s[0]);
    } else if Straddles(rest, n - c) {
      var k :| 0 <= k < |rest| && Utf8Length(rest[..k]) < n - c < Utf8Length(rest[..k]) + Width(rest[k]);
      assert Utf8Length(s[..k + 1]) < n < Utf8Length(s[..k + 1]) + Width(s[k + 1]);
    }
    if Straddles(s, n) {
      var k :| 0 <= k < |s| && Utf8Length(s[..k]) < n < Utf8Length(s[..k]) + Width(s[k]);
      if k > 0 {
        assert Utf8Length(rest[..k - 1]) < n - c < Utf8Length(rest[..k - 1]) + Width(rest[k - 1]);
      }
    }
  }

  /** The slice fails exactly when the text is too short or a character straddles its end. */
  lemma {:induction false} NoFirstBytesIff(s: string, n: nat)
    ensures FirstBytes(s, n).None? <==> Utf8Length(s) < n || Straddles(s, n)
  {
    hide Straddles;
    if n == 0 {
      assert !Straddles(s, 0) by { NoneBeforeZero(s); }
    } else if s == [] {
      assert !Straddles(s, n) by { NoneInNothing(n); }
    } else {
      StraddlesNext(s, n);
      if Width(s[0]) <= n {
        NoFirstBytesIff(s[1..], n - Width(s[0]));
      }
    }
  }

  lemma NoneBeforeZero(s: string)
    ensures !Straddles(s, 0)
  {}

  lemma NoneInNothing(n: nat)
    ensures !Straddles([], n)
  {}

  /** The zeros added on the right straddle nothing. */
  lemma PaddedStraddles(s: string, zeros: nat, n: nat)
    ensures Straddles(s + Zeros(zeros), n) <==> Straddles(s, n)
  {
    var all := s + Zeros(zeros);
    assert forall k :: 0 <= k < |s| ==> all[..k] == s[..k] && all[k] == s[k];
    if Straddles(all, n) {
      var k :| 0 <= k < |all| && Utf8Length(all[..k]) < n < Utf8Length(all[..k]) + Width(all[k]);
      assert all[k] == '0' || k < |s|;
    }
  }

  /** The parser panics exactly on two parts of which the first is a number in 64 bits and the second has
      a character whose bytes stand on both sides of the eighteenth. */
  lemma PanicsIff(s: string)
    ensures
      var parts := Split(s, '.');
      ParseAmount(s).Panics? <==> |parts| == 2 && Unsigned(parts[0]) && Straddles(parts[1], DECIMALS)
  {
    hide Value, Split, Straddles, FirstBytes, Utf8Length;
    var parts := Split(s, '.');
    if |parts| == 2 {
      var f := parts[1];
      NoFirstBytesIff(PadRight(f), DECIMALS);
      if |f| < DECIMALS {
        PaddedStraddles(f, DECIMALS - |f|, DECIMALS);
      }
    }
  }

  /** Seventeen digits and an accented letter of two bytes. */
  lemma PanicsOnce()
    ensures ParseAmount("1." + "00000000000000000\U{00E9}").Panics?
  {
    hide Split, FirstBytes;
    var f := "00000000000000000\U{00E9}";
    SplitTwo("1", '.', f);
    assert "1." + f == "1" + ['.'] + f;
    assert Straddles(f, DECIMALS) by {
      ZerosLength(17);
      assert f[..17] == Zeros(17);
      assert Utf8Length(f[..17]) < DECIMALS < Utf8Length(f[..17]) + Width(f[17]);
    }
    PanicsIff("1." + f);
    assert Unsigned("1");
  }

  lemma {:induction false} ZerosLength(n: nat)
    ensures Utf8Length(Zeros(n)) == n
  {
    if n > 0 {
      assert Zeros(n)[1..] == Zeros(n - 1);
      ZerosLength(n - 1);
    }
  }
}

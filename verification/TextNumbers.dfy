/** Numbers in the text of a sentence, as atof and atoi of the C library read them: plain decimal
    numbers with sign, fraction and exponent. */
module TextNumbers {
  import opened Words

  const PLUS: u8 := 43
  const COMMA: u8 := 44
  const MINUS: u8 := 45
  const POINT: u8 := 46

  /** The characters of a text as bytes. */
  function Ascii(s: string): (b: seq<u8>)
    requires forall k :: 0 <= k < |s| ==> s[k] < 128 as char
    ensures |b| == |s|
  {
    seq(|s|, k requires 0 <= k < |s| => s[k] as int)
  }

  predicate IsSpace(c: u8) {
    c == 32 || 9 <= c <= 13
  }

  function SkipSpace(s: seq<u8>): seq<u8> {
    if s != [] && IsSpace(s[0]) then SkipSpace(s[1..]) else s
  }

  predicate IsDigit(c: u8) {
    48 <= c <= 57
  }

  predicate AllDigits(s: seq<u8>) {
    forall k :: 0 <= k < |s| ==> IsDigit(s[k])
  }

  /** How many digits s starts with. */
  function DigitRun(s: seq<u8>): (n: nat)
    ensures n <= |s| && AllDigits(s[..n])
    ensures n < |s| ==> !IsDigit(s[n])
  {
    if s == [] || !IsDigit(s[0]) then 0
    else
      var n := DigitRun(s[1..]);
      assert forall k :: 0 < k < n + 1 ==> s[k] == s[1..][..n][k - 1];
      1 + n
  }

  function Natural(digits: seq<u8>): (n: nat)
    requires AllDigits(digits)
  {
    if digits == [] then 0 else Natural(digits[..|digits| - 1]) * 10 + (digits[|digits| - 1] - 48)
  }

  function Power10(n: nat): (p: nat)
    ensures p >= 1
  {
    if n == 0 then 1 else 10 * Power10(n - 1)
  }

  predicate Negative(s: seq<u8>) {
    s != [] && s[0] == MINUS
  }

  function AfterSign(s: seq<u8>): seq<u8> {
    if s != [] && (s[0] == PLUS || s[0] == MINUS) then s[1..] else s
  }

  /** The value of the digits that s starts with. */
  function LeadingNatural(s: seq<u8>): nat {
    Natural(s[..DigitRun(s)])
  }

  /** x times the power of ten that the text goes on with, if any. */
  function Scaled(x: real, s: seq<u8>): real {
    if s == [] || (s[0] != 69 && s[0] != 101) then x
    else
      var n := LeadingNatural(AfterSign(s[1..]));
      if Negative(s[1..]) then TensBelow(x, n) else TensAbove(x, n)
  }

  /** x times ten, n times over. */
  function TensAbove(x: real, n: nat): real {
    if n == 0 then x else TensAbove(x, n - 1) * 10.0
  }

  /** x over ten, n times over. */
  function TensBelow(x: real, n: nat): real {
    if n == 0 then x else TensBelow(x, n - 1) / 10.0
  }

  /** The digits before and behind the point, and what follows. */
  datatype Parts = Parts(whole: seq<u8>, fraction: seq<u8>, rest: seq<u8>)

  function PartsOf(s: seq<u8>): (p: Parts)
    ensures AllDigits(p.whole) && AllDigits(p.fraction)
  {
    var n := DigitRun(s);
    var t := s[n..];
    if t != [] && t[0] == POINT then Parts(s[..n], t[1..][..DigitRun(t[1..])], t[1..][DigitRun(t[1..])..])
    else Parts(s[..n], [], t)
  }

  function Mantissa(whole: seq<u8>, fraction: seq<u8>): real
    requires AllDigits(whole) && AllDigits(fraction)
  {
    Natural(whole) as real + Over(Natural(fraction), Power10(|fraction|))
  }

  function Over(n: nat, p: nat): real
    requires p >= 1
  {
    n as real / p as real
  }

  function Unsigned(p: Parts): real
    requires AllDigits(p.whole) && AllDigits(p.fraction)
  {
    if p.whole == [] && p.fraction == [] then 0.0 else Scaled(Mantissa(p.whole, p.fraction), p.rest)
  }

  function Atof(s: seq<u8>): real {
    var t := SkipSpace(s);
    var x := Unsigned(PartsOf(AfterSign(t)));
    if Negative(t) then -x else x
  }

  const LONG_MAX: int := 0x7FFF_FFFF

  function Min(a: int, b: int): int {
    if a < b then a else b
  }

  /** Too large numbers saturate. */
  function Atoi(s: seq<u8>): int {
    var t := SkipSpace(s);
    var n := LeadingNatural(AfterSign(t));
    if Negative(t) then -Min(n, LONG_MAX + 1) else Min(n, LONG_MAX)
  }

  // ----- Reading stops at a comma

  predicate StartsWithComma(t: seq<u8>) {
    t != [] && t[0] == COMMA
  }

  lemma {:induction false} DigitRunStops(s: seq<u8>, t: seq<u8>)
    requires StartsWithComma(t)
    ensures DigitRun(s + t) == DigitRun(s)
    ensures (s + t)[..DigitRun(s)] == s[..DigitRun(s)]
  {
    if s == [] {
      assert s + t == t;
    } else {
      DigitRunStops(s[1..], t);
      assert (s + t)[1..] == s[1..] + t;
    }
  }

  lemma {:induction false} SkipSpaceStops(s: seq<u8>, t: seq<u8>)
    requires StartsWithComma(t)
    ensures SkipSpace(s + t) == SkipSpace(s) + t
  {
    if s == [] {
      assert s + t == t;
    } else {
      SkipSpaceStops(s[1..], t);
      assert (s + t)[1..] == s[1..] + t;
    }
  }

  lemma TailOf(s: seq<u8>, t: seq<u8>, n: nat)
    requires n <= |s|
    ensures (s + t)[n..] == s[n..] + t
  {
  }

  lemma AfterSignStops(s: seq<u8>, t: seq<u8>)
    requires StartsWithComma(t)
    ensures AfterSign(s + t) == AfterSign(s) + t && Negative(s + t) == Negative(s)
  {
    if s == [] {
      assert s + t == t;
    } else {
      TailOf(s, t, 1);
    }
  }

  lemma ScaledStops(x: real, s: seq<u8>, t: seq<u8>)
    requires StartsWithComma(t)
    ensures Scaled(x, s + t) == Scaled(x, s)
  {
    if s == [] {
      assert s + t == t;
    } else {
      TailOf(s, t, 1);
      AfterSignStops(s[1..], t);
      DigitRunStops(AfterSign(s[1..]), t);
    }
  }

  lemma PartsStop(s: seq<u8>, t: seq<u8>)
    requires StartsWithComma(t)
    ensures PartsOf(s + t) == PartsOf(s).(rest := PartsOf(s).rest + t)
  {
    var n := DigitRun(s);
    DigitRunStops(s, t);
    TailOf(s, t, n);
    var r := s[n..];
    if r == [] {
      assert r + t == t;
    } else {
      TailOf(r, t, 1);
      DigitRunStops(r[1..], t);
      TailOf(r[1..], t, DigitRun(r[1..]));
    }
  }

  /** What follows a comma does not matter. */
  lemma NumberStops(s: seq<u8>, t: seq<u8>)
    requires StartsWithComma(t)
    ensures Atof(s + t) == Atof(s) && Atoi(s + t) == Atoi(s)
  {
    SkipSpaceStops(s, t);
    var u := SkipSpace(s);
    AfterSignStops(u, t);
    DigitRunStops(AfterSign(u), t);
    PartsStop(AfterSign(u), t);
    UnsignedStops(PartsOf(AfterSign(u)), t);
  }

  lemma UnsignedStops(p: Parts, t: seq<u8>)
    requires AllDigits(p.whole) && AllDigits(p.fraction) && StartsWithComma(t)
    ensures Unsigned(p.(rest := p.rest + t)) == Unsigned(p)
  {
    ScaledStops(Mantissa(p.whole, p.fraction), p.rest, t);
  }

  // ----- Decimal numbers

  lemma {:induction false} DigitRunOf(digits: seq<u8>, rest: seq<u8>)
    requires AllDigits(digits) && (rest == [] || !IsDigit(rest[0]))
    ensures DigitRun(digits + rest) == |digits|
  {
    if digits == [] {
      assert digits + rest == rest;
    } else {
      DigitRunOf(digits[1..], rest);
      assert (digits + rest)[1..] == digits[1..] + rest;
    }
  }

  lemma {:induction false} NaturalConcat(a: seq<u8>, b: seq<u8>)
    requires AllDigits(a) && AllDigits(b)
    ensures AllDigits(a + b) && Natural(a + b) == Natural(a) * Power10(|b|) + Natural(b)
  {
    if b == [] {
      assert a + b == a;
    } else {
      var front := b[..|b| - 1];
      NaturalConcat(a, front);
      assert (a + b)[..|a + b| - 1] == a + front;
      Regroup(Natural(a), Power10(|front|), Natural(front));
    }
  }

  lemma Regroup(a: nat, p: nat, n: nat)
    ensures (a * p + n) * 10 == a * (10 * p) + n * 10
  {
  }

  /** Digits, a point and more digits mean the digits over a power of ten. */
  lemma DecimalRead(whole: seq<u8>, fraction: seq<u8>)
    requires AllDigits(whole) && AllDigits(fraction) && whole != []
    ensures AllDigits(whole + fraction)
    ensures Atof(whole + [POINT] + fraction) == Over(Natural(whole + fraction), Power10(|fraction|))
  {
    PlainDecimal(whole, fraction);
    NaturalConcat(whole, fraction);
    OverPower(Natural(whole), Natural(fraction), Power10(|fraction|));
  }

  lemma PlainDecimal(whole: seq<u8>, fraction: seq<u8>)
    requires AllDigits(whole) && AllDigits(fraction) && whole != []
    ensures Atof(whole + [POINT] + fraction) == Mantissa(whole, fraction)
  {
    var s := whole + [POINT] + fraction;
    assert IsDigit(s[0]);
    assert SkipSpace(s) == s && AfterSign(s) == s && !Negative(s);
    DecimalParts(whole, fraction);
  }

  lemma DecimalParts(whole: seq<u8>, fraction: seq<u8>)
    requires AllDigits(whole) && AllDigits(fraction)
    ensures PartsOf(whole + [POINT] + fraction) == Parts(whole, fraction, [])
  {
    var s, t := whole + [POINT] + fraction, [POINT] + fraction;
    assert s == whole + t && t[1..] == fraction == fraction + [];
    DigitRunOf(whole, t);
    DigitRunOf(fraction, []);
    assert s[..|whole|] == whole && s[|whole|..] == t;
  }

  lemma OverPower(a: nat, b: nat, p: nat)
    requires p >= 1
    ensures a as real + Over(b, p) == Over(a * p + b, p)
  {
    assert (a * p + b) as real == a as real * p as real + b as real;
  }

  /** The decimal digits of a number. */
  function Printed(n: nat): (s: seq<u8>)
    ensures s != []
  {
    if n < 10 then [48 + n] else Printed(n / 10) + [48 + n % 10]
  }

  lemma {:induction false} PrintedRead(n: nat)
    ensures AllDigits(Printed(n)) && Natural(Printed(n)) == n
  {
    if n < 10 {
      assert Printed(n)[..0] == [];
    } else {
      PrintedRead(n / 10);
      assert Printed(n)[..|Printed(n)| - 1] == Printed(n / 10);
    }
  }

  lemma StartsWithDigit(digits: seq<u8>, rest: seq<u8>)
    requires AllDigits(digits) && digits != []
    ensures var s := digits + rest; SkipSpace(s) == s && AfterSign(s) == s && !Negative(s)
  {
    assert IsDigit((digits + rest)[0]);
  }

  lemma LeadingDigits(digits: seq<u8>, rest: seq<u8>)
    requires AllDigits(digits) && (rest == [] || !IsDigit(rest[0]))
    ensures LeadingNatural(digits + rest) == Natural(digits)
  {
    DigitRunOf(digits, rest);
    assert (digits + rest)[..|digits|] == digits;
  }

  /** A whole number, with or without a minus sign, is read up to what fits 32 bits. */
  lemma AtoiDigits(digits: seq<u8>, rest: seq<u8>)
    requires AllDigits(digits) && digits != [] && (rest == [] || !IsDigit(rest[0]))
    ensures Atoi(digits + rest) == Min(Natural(digits), 0x7FFF_FFFF)
    ensures Atoi([MINUS] + (digits + rest)) == -Min(Natural(digits), 0x8000_0000)
  {
    var s := digits + rest;
    StartsWithDigit(digits, rest);
    LeadingDigits(digits, rest);
    assert ([MINUS] + s)[1..] == s;
  }

  lemma AtoiPrinted(n: nat, rest: seq<u8>)
    requires n < 0x8000_0000 && (rest == [] || !IsDigit(rest[0]))
    ensures Atoi(Printed(n) + rest) == n && Atoi([MINUS] + (Printed(n) + rest)) == 0 - n
  {
    var digits := Printed(n);
    PrintedRead(n);
    AtoiDigits(digits, rest);
  }

  /** A printed number with a point and more digits behind it is read as the number and the
      digits over a power of ten. */
  lemma AtofPrinted(n: nat, fraction: seq<u8>)
    requires AllDigits(fraction)
    ensures Atof(Printed(n) + [POINT] + fraction) == n as real + Over(Natural(fraction), Power10(|fraction|))
  {
    var digits := Printed(n);
    PrintedRead(n);
    PlainDecimal(digits, fraction);
  }

  const EXPONENT: u8 := 101

  /** An exponent multiplies by a power of ten, a negative one divides. */
  lemma ExponentRead(whole: seq<u8>, fraction: seq<u8>, digits: seq<u8>)
    requires AllDigits(whole) && AllDigits(fraction) && whole != [] && AllDigits(digits) && digits != []
    ensures var m := whole + [POINT] + fraction;
      && Atof(m + ([EXPONENT] + digits)) == TensAbove(Atof(m), Natural(digits))
      && Atof(m + ([EXPONENT, MINUS] + digits)) == TensBelow(Atof(m), Natural(digits))
  {
    PlainDecimal(whole, fraction);
    ExponentPart(whole, fraction, [EXPONENT] + digits);
    ExponentPart(whole, fraction, [EXPONENT, MINUS] + digits);
    ScaledBy(Mantissa(whole, fraction), digits);
  }

  lemma ExponentPart(whole: seq<u8>, fraction: seq<u8>, rest: seq<u8>)
    requires AllDigits(whole) && AllDigits(fraction) && whole != [] && rest != [] && rest[0] == EXPONENT
    ensures Atof(whole + [POINT] + fraction + rest) == Scaled(Mantissa(whole, fraction), rest)
  {
    var s, t := whole + [POINT] + fraction + rest, [POINT] + (fraction + rest);
    assert s == whole + t && t[1..] == fraction + rest;
    StartsWithDigit(whole, t);
    DigitRunOf(whole, t);
    DigitRunOf(fraction, rest);
    assert s[..|whole|] == whole && s[|whole|..] == t;
    assert t[1..][..|fraction|] == fraction && t[1..][|fraction|..] == rest;
    assert PartsOf(s) == Parts(whole, fraction, rest);
  }

  lemma ScaledBy(x: real, digits: seq<u8>)
    requires AllDigits(digits) && digits != []
    ensures Scaled(x, [EXPONENT] + digits) == TensAbove(x, Natural(digits))
    ensures Scaled(x, [EXPONENT, MINUS] + digits) == TensBelow(x, Natural(digits))
  {
    StartsWithDigit(digits, []);
    LeadingDigits(digits, []);
    assert digits + [] == digits;
    assert ([EXPONENT] + digits)[1..] == digits;
    assert ([EXPONENT, MINUS] + digits)[1..] == [MINUS] + digits && ([MINUS] + digits)[1..] == digits;
  }

  /** A sign before a number negates it or does nothing. */
  lemma SignRead(s: seq<u8>)
    requires s != [] && !IsSpace(s[0]) && s[0] != MINUS && s[0] != PLUS
    ensures Atof([MINUS] + s) == -Atof(s) && Atof([PLUS] + s) == Atof(s)
  {
    assert ([MINUS] + s)[1..] == s && ([PLUS] + s)[1..] == s;
  }
}

/** itoa of the basic design exerciser: an integer as text in a radix from 2 to 36. Radix 10 is
    signed; other radices show the value modulo 2^32. */
module Numerals {
  import opened Words

  datatype Text = NoText | Text(chars: string)

  const SCRATCH: nat := 33

  predicate GoodRadix(radix: int) {
    1 < radix <= 36
  }

  function DigitChar(i: int): (c: char)
    requires 0 <= i < 36
  {
    if i < 10 then (i + '0' as int) as char else (i + 'a' as int - 10) as char
  }

  /** The value of a digit; other characters have none and give 36. */
  function DigitValue(c: char): (i: int)
    ensures 0 <= i <= 36
  {
    if '0' <= c <= '9' then c as int - '0' as int
    else if 'a' <= c <= 'z' then c as int - 'a' as int + 10
    else 36
  }

  /** The value of a text, from its digits. */
  function Value(s: string, radix: nat): (v: nat) {
    if s == "" then 0 else Value(s[..|s| - 1], radix) * radix + DigitValue(s[|s| - 1])
  }

  /** Digits of the radix, at least one, and no leading zero but in "0" itself. */
  predicate Numeral(s: string, radix: nat) {
    && s != ""
    && (forall k :: 0 <= k < |s| ==> DigitValue(s[k]) < radix)
    && (s[0] == '0' ==> |s| == 1)
  }

  // ----- Specification

  function Digits(v: nat, radix: nat): (s: string)
    requires GoodRadix(radix)
    decreases v
  {
    if v < radix then [DigitChar(v)]
    else
      SmallerQuotient(v, radix);
      Digits(v / radix, radix) + [DigitChar(v % radix)]
  }

  lemma SmallerQuotient(v: nat, radix: nat)
    requires radix > 1
    ensures v > 0 ==> v / radix < v
    ensures 0 <= v / radix && 0 <= v % radix < radix
    ensures v / radix * radix + v % radix == v
    ensures v >= radix ==> v / radix >= 1
    ensures 2 * (v / radix) <= v
  {
    var q, r := v / radix, v % radix;
    assert v == q * radix + r;
    assert q * radix >= 2 * q by {
      assert q >= 0;
      assert q * (radix - 2) >= 0;
    }
  }

  function Magnitude(value: int, radix: int): (v: nat)
    ensures v < 0x1_0000_0000
  {
    if radix == 10 && value < 0 then -value % 0x1_0000_0000 else value % 0x1_0000_0000
  }

  function TextOf(value: int, radix: int): Text {
    if !GoodRadix(radix) then NoText
    else
      var digits := Digits(Magnitude(value, radix), radix);
      Text(if radix == 10 && value < 0 then ['-'] + digits else digits)
  }

  // ----- What the text means

  lemma {:induction false} DigitsAreNumeral(v: nat, radix: nat)
    requires GoodRadix(radix)
    ensures Value(Digits(v, radix), radix) == v
    ensures Numeral(Digits(v, radix), radix)
    ensures v > 0 ==> Digits(v, radix)[0] != '0'
    decreases v
  {
    if v < radix {
      assert Digits(v, radix)[..0] == "";
      assert Value("", radix) * radix == 0;
    } else {
      SmallerQuotient(v, radix);
      DigitsAreNumeral(v / radix, radix);
      var upper := Digits(v / radix, radix);
      assert Digits(v, radix)[..|upper|] == upper;
    }
  }

  lemma {:induction false} NumeralPositive(s: string, radix: nat)
    requires GoodRadix(radix) && Numeral(s, radix) && s != "0"
    ensures Value(s, radix) > 0
  {
    var upper := s[..|s| - 1];
    if |s| == 1 {
      assert Value(upper, radix) * radix == 0;
    } else {
      NumeralPositive(upper, radix);
      assert Value(upper, radix) * radix > 0;
    }
  }

  lemma DigitsOfLonger(u: nat, last: nat, radix: nat)
    requires GoodRadix(radix) && u > 0 && last < radix
    ensures Digits(u * radix + last, radix) == Digits(u, radix) + [DigitChar(last)]
  {
    Unpack(u, radix, last);
    MultipleIsFar(u, radix);
  }

  /** There is only one numeral for each value, and it is what Digits gives. */
  lemma {:induction false} NumeralIsDigits(s: string, radix: nat)
    requires GoodRadix(radix) && Numeral(s, radix)
    ensures s == Digits(Value(s, radix), radix)
    decreases |s|
  {
    var upper, last := s[..|s| - 1], DigitValue(s[|s| - 1]);
    assert s == upper + [DigitChar(last)];
    if |s| == 1 {
      assert Value(upper, radix) * radix == 0;
    } else {
      assert upper != "0";
      NumeralPositive(upper, radix);
      NumeralIsDigits(upper, radix);
      DigitsOfLonger(Value(upper, radix), last, radix);
    }
  }

  /** In radix 10 the text evaluates back to the value. */
  lemma DecimalMeansValue(value: int)
    requires -0x8000_0000 <= value < 0x8000_0000
    ensures var chars := TextOf(value, 10).chars;
      if value < 0 then
        |chars| > 1 && chars[0] == '-' && Numeral(chars[1..], 10) && value == 0 - Value(chars[1..], 10)
      else
        Numeral(chars, 10) && value == Value(chars, 10)
  {
    var v := if value < 0 then -value else value;
    MagnitudeInRange(value);
    DigitsAreNumeral(v, 10);
    assert TextOf(value, 10).chars == (if value < 0 then "-" else "") + Digits(v, 10);
  }

  lemma MagnitudeInRange(value: int)
    requires -0x8000_0000 <= value < 0x8000_0000
    ensures Magnitude(value, 10) == if value < 0 then -value else value
  {
  }

  /** In every other radix it evaluates to the value modulo 2^32. */
  lemma TextMeansUnsigned(value: int, radix: int)
    requires 2 <= radix <= 36 && radix != 10
    ensures var chars := TextOf(value, radix).chars;
      Numeral(chars, radix) && Value(chars, radix) == value % 0x1_0000_0000
  {
    DigitsAreNumeral(Magnitude(value, radix), radix);
  }

  // ----- The program

  function Reversed(s: string): (r: string)
    ensures |r| == |s|
  {
    seq(|s|, i requires 0 <= i < |s| => s[|s| - 1 - i])
  }

  /** The digits still to come before n digits have been stored. */
  function Upper(v: nat, n: nat, radix: nat): string
    requires GoodRadix(radix)
  {
    if v == 0 && n > 0 then "" else Digits(v, radix)
  }

  lemma OneDigit(v: nat, n: nat, radix: nat)
    requires GoodRadix(radix) && (v > 0 || n == 0)
    ensures Upper(v, n, radix) == Upper(v / radix, n + 1, radix) + [DigitChar(v % radix)]
  {
    SmallerQuotient(v, radix);
    if v < radix {
      Unpack(0, radix, v);
    }
  }

  lemma ReversedAppend(s: string, c: char)
    ensures Reversed(s + [c]) == [c] + Reversed(s)
  {
  }

  /** One turn of the loop: one digit more is stored and one less is to come. */
  lemma DigitStored(v: nat, n: nat, radix: nat, stored: string)
    requires GoodRadix(radix) && (v > 0 || n == 0) && n <= 32 && v < Pow2(32 - n)
    ensures n < 32 && 0 <= v / radix < Pow2(31 - n) && 0 <= v % radix < radix && (v > 0 ==> v / radix < v)
    ensures Upper(v, n, radix) + Reversed(stored)
         == Upper(v / radix, n + 1, radix) + Reversed(stored + [DigitChar(v % radix)])
  {
    SmallerQuotient(v, radix);
    OneDigit(v, n, radix);
    ReversedAppend(stored, DigitChar(v % radix));
  }

  lemma Pow2Add(m: nat, n: nat)
    ensures Pow2(m + n) == Pow2(m) * Pow2(n)
  {
    if m > 0 {
      Pow2Add(m - 1, n);
    }
  }

  lemma Pow2Of32()
    ensures Pow2(32) == 0x1_0000_0000
  {
    assert Pow2(4) == 16;
    Pow2Add(4, 4);
    Pow2Add(8, 8);
    Pow2Add(16, 16);
  }

  /** Stores the digits of v, the last one first; the scratch array is always large enough. */
  method StoreDigits(v0: u32, radix: int, tmp: array<char>) returns (tp: nat)
    requires GoodRadix(radix) && tmp.Length == SCRATCH
    modifies tmp
    ensures 0 < tp < SCRATCH && Reversed(tmp[..tp]) == Digits(v0, radix)
  {
    var v: nat := v0;
    tp := 0;
    Pow2Of32();
    while v != 0 || tp == 0
      invariant 0 <= tp <= 32 && v < Pow2(32 - tp)
      invariant Digits(v0, radix) == Upper(v, tp, radix) + Reversed(tmp[..tp])
      decreases v, 1 - tp
    {
      ghost var stored := tmp[..tp];
      DigitStored(v, tp, radix, stored);
      var i := v % radix;
      v := v / radix;
      tmp[tp] := if i < 10 then (i + '0' as int) as char else (i + 'a' as int - 10) as char;
      tp := tp + 1;
      assert tmp[..tp] == stored + [DigitChar(i)];
    }
  }

  /** itoa: no text for a bad radix, otherwise the sign if any and then the digits. */
  method Itoa(value: int, radix: int) returns (text: Text)
    requires -0x8000_0000 <= value < 0x8000_0000
    ensures text == TextOf(value, radix)
    ensures text.NoText? <==> radix < 2 || radix > 36
  {
    if radix > 36 || radix <= 1 {
      return NoText;
    }
    var tmp := new char[SCRATCH](_ => '0');
    var sign := radix == 10 && value < 0;
    var v := if sign then -value % 0x1_0000_0000 else value % 0x1_0000_0000;
    var tp := StoreDigits(v, radix, tmp);
    var sp := CopyReversed(tmp, tp, if sign then ['-'] else []);
    text := Text(sp);
  }

  /** The digits are copied in reverse, after what is there already. */
  method CopyReversed(tmp: array<char>, length: nat, prefix: string) returns (sp: string)
    requires length <= tmp.Length
    ensures sp == prefix + Reversed(tmp[..length])
  {
    var tp := length;
    sp := prefix;
    while tp > 0
      invariant 0 <= tp <= length
      invariant sp == prefix + Reversed(tmp[..length])[..length - tp]
    {
      tp := tp - 1;
      sp := sp + [tmp[tp]];
    }
  }
}

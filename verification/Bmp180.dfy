/** Compensation of the BMP180 pressure and temperature sensor (section 3.5 of its data sheet), as
    lago_v1_2 computes it. Shifts to the right round down; the C division truncates. */
module Bmp180 {
  import opened Words

  datatype Calibration = Calibration(
    ac1: int, ac2: int, ac3: int, ac4: int, ac5: int, ac6: int,
    b1: int, b2: int, mb: int, mc: int, md: int)

  /** C division: the quotient is truncated toward zero. */
  function CDiv(a: int, b: int): int
    requires b != 0
  {
    if (a >= 0) == (b > 0) then Abs(a) / Abs(b) else -(Abs(a) / Abs(b))
  }

  function Abs(a: int): (r: nat) {
    if a < 0 then -a else a
  }

  // ----- Temperature

  function X1(c: Calibration, ut: int): int {
    (ut - c.ac6) * c.ac5 / 0x8000
  }

  function Divisor(c: Calibration, ut: int): int {
    X1(c, ut) + c.md
  }

  /** The compensated temperature that pressure and temperature share; dividing by zero traps. */
  function B5(c: Calibration, ut: int): int
    requires Divisor(c, ut) != 0
  {
    X1(c, ut) + CDiv(c.mc * 0x800, Divisor(c, ut))
  }

  /** Tenths of a degree Celsius. */
  function Temperature(c: Calibration, ut: int): int
    requires Divisor(c, ut) != 0
  {
    (B5(c, ut) + 8) / 16
  }

  lemma FloorBounds(a: int, d: int)
    requires d > 0
    ensures a / d * d <= a < (a / d + 1) * d
  {
    assert a == a / d * d + a % d;
    assert (a / d + 1) * d == a / d * d + d;
  }

  lemma CompareMultiples(q: int, s: int, d: int)
    requires d > 0
    ensures q < s <==> q * d < s * d
  {
    MultipleIsFar(s - q, d);
    assert (s - q) * d == s * d - q * d;
  }

  lemma FloorMonotone(a: int, b: int, d: int)
    requires a <= b && d > 0
    ensures a / d <= b / d
  {
    FloorBounds(a, d);
    FloorBounds(b, d);
    CompareMultiples(a / d, b / d + 1, d);
  }

  lemma QuotientAntitone(n: nat, d: int, e: int)
    requires 0 < d <= e
    ensures n / e <= n / d
  {
    var q := n / e;
    FloorBounds(n, e);
    FloorBounds(n, d);
    assert q >= 0 by {
      CompareMultiples(-1, q + 1, e);
      CompareMultiples(-1, q, e);
      CompareMultiples(0, q + 1, e);
    }
    assert q * d + q * (e - d) == q * e;
    assert q * (e - d) >= 0;
    CompareMultiples(q, n / d + 1, d);
  }

  /** A higher raw reading never gives a lower temperature, for every calibration of this kind. */
  lemma TemperatureMonotone(c: Calibration, ut1: int, ut2: int)
    requires c.ac5 >= 0 && c.mc <= 0 && ut1 <= ut2
    requires Divisor(c, ut1) > 0
    ensures Divisor(c, ut2) > 0
    ensures Temperature(c, ut1) <= Temperature(c, ut2)
  {
    X1Monotone(c, ut1, ut2);
    TruncationAntitone(-c.mc * 0x800, Divisor(c, ut1), Divisor(c, ut2));
    FloorMonotone(B5(c, ut1) + 8, B5(c, ut2) + 8, 16);
  }

  lemma X1Monotone(c: Calibration, ut1: int, ut2: int)
    requires c.ac5 >= 0 && ut1 <= ut2
    ensures X1(c, ut1) <= X1(c, ut2)
  {
    assert (ut2 - ut1) * c.ac5 >= 0;
    assert (ut2 - c.ac6) * c.ac5 == (ut1 - c.ac6) * c.ac5 + (ut2 - ut1) * c.ac5;
    FloorMonotone((ut1 - c.ac6) * c.ac5, (ut2 - c.ac6) * c.ac5, 0x8000);
  }

  /** A negative number over a larger divisor is closer to zero. */
  lemma TruncationAntitone(n: int, d: int, e: int)
    requires n >= 0 && 0 < d <= e
    ensures CDiv(-n, d) <= CDiv(-n, e)
  {
    QuotientAntitone(n, d, e);
    assert n == 0 ==> n / d == 0 && n / e == 0;
  }

  lemma TruncationAntitoneBelow(n: int, d: int, e: int)
    requires n >= 0 && d <= e < 0
    ensures CDiv(-n, d) <= CDiv(-n, e)
  {
    QuotientAntitone(n, -e, -d);
    assert n == 0 ==> n / -d == 0 && n / -e == 0;
  }

  /** Where the divisor stays negative the order is kept, too. */
  lemma TemperatureMonotoneBelow(c: Calibration, ut1: int, ut2: int)
    requires c.ac5 >= 0 && c.mc <= 0 && ut1 <= ut2
    requires Divisor(c, ut2) < 0
    ensures Divisor(c, ut1) < 0
    ensures Temperature(c, ut1) <= Temperature(c, ut2)
  {
    X1Monotone(c, ut1, ut2);
    TruncationAntitoneBelow(-c.mc * 0x800, Divisor(c, ut1), Divisor(c, ut2));
    FloorMonotone(B5(c, ut1) + 8, B5(c, ut2) + 8, 16);
  }

  /** One more count of the raw reading moves X1 by 2 at most. */
  lemma X1Step(c: Calibration, ut: int)
    requires 0 <= c.ac5 < 0x1_0000
    ensures X1(c, ut) <= X1(c, ut + 1) <= X1(c, ut) + 2
  {
    X1Monotone(c, ut, ut + 1);
    var a := (ut - c.ac6) * c.ac5;
    assert (ut + 1 - c.ac6) * c.ac5 == a + c.ac5;
    FloorBounds(a, 0x8000);
    FloorBounds(a + c.ac5, 0x8000);
  }

  /** The last reading with a negative divisor. */
  lemma {:induction false} LastNegative(c: Calibration, lo: int, hi: int) returns (u: int)
    requires 0 <= c.ac5 < 0x1_0000 && lo <= hi && Divisor(c, lo) < 0 <= Divisor(c, hi)
    ensures lo <= u < hi && -2 <= Divisor(c, u) < 0
    decreases hi - lo
  {
    X1Step(c, hi - 1);
    if Divisor(c, hi - 1) < 0 {
      u := hi - 1;
    } else {
      u := LastNegative(c, lo, hi - 1);
    }
  }

  /** The first reading with a positive divisor. */
  lemma {:induction false} FirstPositive(c: Calibration, lo: int, hi: int) returns (v: int)
    requires 0 <= c.ac5 < 0x1_0000 && lo <= hi && Divisor(c, lo) <= 0 < Divisor(c, hi)
    ensures lo < v <= hi && 0 < Divisor(c, v) <= 2
    decreases hi - lo
  {
    X1Step(c, lo);
    if Divisor(c, lo + 1) > 0 {
      v := lo + 1;
    } else {
      v := FirstPositive(c, lo + 1, hi);
    }
  }

  lemma NearZeroQuotient(n: int, d: int)
    requires n >= 0x800 && (-2 <= d < 0 || 0 < d <= 2)
    ensures if d < 0 then CDiv(-n, d) >= 1024 else CDiv(-n, d) <= -1024
  {
    QuotientAntitone(n, Abs(d), 2);
  }

  /** Across a change of sign of the divisor a higher reading gives a lower temperature. */
  lemma SignChangeCools(c: Calibration, lo: int, hi: int) returns (u: int, v: int)
    requires 0 <= c.ac5 < 0x1_0000 && c.mc < 0 && lo <= hi
    requires Divisor(c, lo) < 0 < Divisor(c, hi)
    ensures lo <= u < v <= hi && Divisor(c, u) < 0 < Divisor(c, v)
    ensures Temperature(c, u) > Temperature(c, v)
  {
    u := LastNegative(c, lo, hi);
    v := FirstPositive(c, u, hi);
    NearZeroQuotient(-c.mc * 0x800, Divisor(c, u));
    NearZeroQuotient(-c.mc * 0x800, Divisor(c, v));
    FloorMonotone(B5(c, v) + 8 + 16, B5(c, u) + 8, 16);
  }

  /** Over a range of readings, but for those where the program divides by zero, no higher
      reading gives a lower temperature. */
  ghost predicate MonotoneOn(c: Calibration, lo: int, hi: int) {
    forall a, b :: lo <= a <= b <= hi && Divisor(c, a) != 0 && Divisor(c, b) != 0 ==>
      Temperature(c, a) <= Temperature(c, b)
  }

  /** That holds exactly when the divisor has one sign at both ends (or mc is 0). */
  lemma MonotoneIff(c: Calibration, lo: int, hi: int)
    requires 0 <= c.ac5 < 0x1_0000 && c.mc <= 0 && lo <= hi
    requires Divisor(c, lo) != 0 && Divisor(c, hi) != 0
    ensures MonotoneOn(c, lo, hi) <==> Divisor(c, lo) > 0 || Divisor(c, hi) < 0 || c.mc == 0
  {
    if Divisor(c, lo) < 0 < Divisor(c, hi) && c.mc < 0 {
      var u, v := SignChangeCools(c, lo, hi);
    } else {
      forall a, b | lo <= a <= b <= hi && Divisor(c, a) != 0 && Divisor(c, b) != 0
        ensures Temperature(c, a) <= Temperature(c, b)
      {
        OrderKept(c, lo, hi, a, b);
      }
    }
  }

  lemma OrderKept(c: Calibration, lo: int, hi: int, a: int, b: int)
    requires c.ac5 >= 0 && c.mc <= 0 && lo <= a <= b <= hi
    requires Divisor(c, a) != 0 && Divisor(c, b) != 0
    requires Divisor(c, lo) > 0 || Divisor(c, hi) < 0 || c.mc == 0
    ensures Temperature(c, a) <= Temperature(c, b)
  {
    X1Monotone(c, lo, a);
    X1Monotone(c, b, hi);
    if Divisor(c, a) > 0 {
      TemperatureMonotone(c, a, b);
    } else if Divisor(c, b) < 0 {
      TemperatureMonotoneBelow(c, a, b);
    } else {
      X1Monotone(c, a, b);
      ZeroQuotient(Divisor(c, a));
      ZeroQuotient(Divisor(c, b));
      FloorMonotone(B5(c, a) + 8, B5(c, b) + 8, 16);
    }
  }

  lemma ZeroQuotient(d: int)
    requires d != 0
    ensures CDiv(0, d) == 0
  {
    Unpack(0, Abs(d), 0);
  }

  /** A calibration and two readings where it fails: the divisor changes its sign in between. */
  lemma HigherReadingColder()
    ensures var c := Calibration(0, 0, 0, 0, 0x8000, 0, 0, 0, 0, -100, -10);
      Divisor(c, 5) < 0 < Divisor(c, 15) && Temperature(c, 5) > Temperature(c, 15)
  {
    var c := Calibration(0, 0, 0, 0, 0x8000, 0, 0, 0, 0, -100, -10);
    assert X1(c, 5) == 5 && X1(c, 15) == 15;
    assert B5(c, 5) == 5 + 40960 && B5(c, 15) == 15 - 40960;
  }

  // ----- Pressure

  /** The two branches keep 2 * B7 within 32 bits when they can. */
  function Quotient(b7: u32, b4: u32): nat
    requires b4 > 0
  {
    if b7 < 0x8000_0000 then b7 * 2 / b4 else b7 / b4 * 2
  }

  /** The quotient is never above 2 * B7 / B4 and stays within 2 of it. */
  lemma QuotientClose(b7: u32, b4: u32)
    requires b4 > 0
    ensures Quotient(b7, b4) * b4 <= 2 * b7 < (Quotient(b7, b4) + 2) * b4
  {
    var q := b7 / b4;
    if b7 < 0x8000_0000 {
      FloorBounds(b7 * 2, b4);
      assert (Quotient(b7, b4) + 2) * b4 == (Quotient(b7, b4) + 1) * b4 + b4;
    } else {
      FloorBounds(b7, b4);
      assert q * 2 * b4 == 2 * (q * b4);
      assert (q * 2 + 2) * b4 == 2 * ((q + 1) * b4);
    }
  }

  /** Neither branch exceeds 32 bits but for B4 = 1 and a large B7: then the doubled quotient does. */
  lemma QuotientFits(b7: u32, b4: u32)
    requires b4 > 0
    ensures (if b7 < 0x8000_0000 then b7 * 2 < 0x1_0000_0000 else b7 / b4 * 2 < 0x1_0000_0000)
       <==> b7 < 0x8000_0000 || b4 >= 2
  {
    if b4 >= 2 {
      QuotientAntitone(b7, 2, b4);
    } else {
      Unpack(b7, 1, 0);
    }
  }

  /** As a signed number the pressure fits 32 bits exactly when B7 < 2^30 * B4. */
  lemma QuotientFitsSigned(b7: u32, b4: u32)
    requires b4 > 0
    ensures Quotient(b7, b4) < 0x8000_0000 <==> b7 < 0x4000_0000 * b4
  {
    var n: nat, k: int := if b7 < 0x8000_0000 then b7 * 2 else b7, if b7 < 0x8000_0000 then 0x8000_0000 else 0x4000_0000;
    FloorBounds(n, b4);
    assert n / b4 < k <==> n < k * b4 by {
      if n / b4 < k {
        assert (n / b4 + 1) * b4 <= k * b4 by {
          assert (k - (n / b4 + 1)) * b4 >= 0;
        }
      } else {
        assert k * b4 <= n / b4 * b4 by {
          assert (n / b4 - k) * b4 >= 0;
        }
      }
    }
  }

  /** Pascal, from the raw readings; B4 and B7 are unsigned 32-bit numbers. */
  function Pressure(c: Calibration, oss: nat, ut: int, up: int): int
    requires oss <= 3 && Divisor(c, ut) != 0 && B4(c, ut) != 0
  {
    Corrected(Signed32(Quotient(B7(c, oss, ut, up), B4(c, ut))))
  }

  function Corrected(p: int): int {
    var x1 := (p / 0x100) * (p / 0x100) * 3038 / 0x1_0000;
    var x2 := -7357 * p / 0x1_0000;
    p + (x1 + x2 + 3791) / 16
  }

  /** X3 of the data sheet, for B4. */
  function X3(c: Calibration, b6: int): int {
    var x1 := c.ac3 * b6 / 0x2000;
    var x2 := c.b1 * (b6 * b6 / 0x1000) / 0x1_0000;
    (x1 + x2 + 2) / 4
  }

  function B4(c: Calibration, ut: int): u32
    requires Divisor(c, ut) != 0
  {
    c.ac4 * ((X3(c, B5(c, ut) - 4000) + 0x8000) % 0x1_0000_0000) % 0x1_0000_0000 / 0x8000
  }

  function B3(c: Calibration, oss: nat, b6: int): int {
    var x1 := c.b2 * (b6 * b6) / 0x1000 / 0x800;
    var x2 := c.ac2 * b6 / 0x800;
    CDiv((c.ac1 * 4 + (x1 + x2)) * Pow2(oss) + 2, 4)
  }

  /** The shifts by the oversampling setting. */
  lemma Shifts(oss: nat)
    requires oss <= 3
    ensures Pow2(oss) == [1, 2, 4, 8][oss] && 50000 / Pow2(oss) == [50000, 25000, 12500, 6250][oss]
  {
    assert Pow2(0) == 1 && Pow2(1) == 2 && Pow2(2) == 4 && Pow2(3) == 8;
  }

  /** B7 before it wraps around. */
  function Raw(c: Calibration, oss: nat, ut: int, up: int): int
    requires oss <= 3 && Divisor(c, ut) != 0
  {
    (up - B3(c, oss, B5(c, ut) - 4000)) * (50000 / Pow2(oss))
  }

  function B7(c: Calibration, oss: nat, ut: int, up: int): u32
    requires oss <= 3 && Divisor(c, ut) != 0
  {
    Raw(c, oss, ut, up) % 0x1_0000_0000
  }

  const EXAMPLE: Calibration :=
    Calibration(408, -72, -14383, 32741, 32757, 23153, 6190, 4, -32768, -8711, 2868)

  lemma ExampleB5()
    ensures Divisor(EXAMPLE, 27898) == 7611 && B5(EXAMPLE, 27898) == 2400
  {
    assert X1(EXAMPLE, 27898) == 4743;
    assert CDiv(-8711 * 0x800, 7611) == -2343;
  }

  lemma ExampleB4()
    requires Divisor(EXAMPLE, 27898) == 7611 && B5(EXAMPLE, 27898) == 2400
    ensures B4(EXAMPLE, 27898) == 33457
  {
    assert -14383 * -1600 / 0x2000 == 2809;
    assert 6190 * (-1600 * -1600 / 0x1000) / 0x1_0000 == 59;
  }

  lemma ExampleB7()
    requires Divisor(EXAMPLE, 27898) == 7611 && B5(EXAMPLE, 27898) == 2400
    ensures B7(EXAMPLE, 0, 27898, 23843) == 1171050000
  {
    Shifts(0);
    assert 4 * (-1600 * -1600) / 0x1000 / 0x800 == 1;
    assert -72 * -1600 / 0x800 == 56;
    assert CDiv((408 * 4 + 57) * 1 + 2, 4) == 422;
  }

  /** The worked example of the data sheet: 15.0 degrees and 69964 Pa. */
  lemma DataSheetExample()
    ensures Divisor(EXAMPLE, 27898) != 0 && B4(EXAMPLE, 27898) != 0
    ensures Temperature(EXAMPLE, 27898) == 150 && Pressure(EXAMPLE, 0, 27898, 23843) == 69964
  {
    ExampleB5();
    ExampleB4();
    ExampleB7();
    assert Quotient(1171050000, 33457) == 70003;
    assert 273 * 273 * 3038 / 0x1_0000 == 3454;
    assert -7357 * 70003 / 0x1_0000 == -7859;
  }

  /** The example's calibration but for ac4. */
  const SMALL_AC4: Calibration :=
    Calibration(408, -72, -14383, 1, 32757, 23153, 6190, 4, -32768, -8711, 2868)

  lemma SmallB5()
    ensures Divisor(SMALL_AC4, 27898) == 7611 && B5(SMALL_AC4, 27898) == 2400
  {
    assert X1(SMALL_AC4, 27898) == 4743;
    assert CDiv(-8711 * 0x800, 7611) == -2343;
  }

  lemma SmallB4()
    requires Divisor(SMALL_AC4, 27898) == 7611 && B5(SMALL_AC4, 27898) == 2400
    ensures B4(SMALL_AC4, 27898) == 1
  {
    assert -14383 * -1600 / 0x2000 == 2809;
    assert 6190 * (-1600 * -1600 / 0x1000) / 0x1_0000 == 59;
  }

  lemma SmallB7()
    requires Divisor(SMALL_AC4, 27898) == 7611 && B5(SMALL_AC4, 27898) == 2400
    ensures B7(SMALL_AC4, 0, 27898, 50000) == 2478900000
  {
    Shifts(0);
    assert 4 * (-1600 * -1600) / 0x1000 / 0x800 == 1;
    assert -72 * -1600 / 0x800 == 56;
    assert CDiv((408 * 4 + 57) * 1 + 2, 4) == 422;
  }

  /** A calibration and readings for which the doubled quotient exceeds 32 bits: 4957800000. */
  lemma QuotientOverflows()
    ensures Divisor(SMALL_AC4, 27898) != 0 && B4(SMALL_AC4, 27898) == 1
    ensures B7(SMALL_AC4, 0, 27898, 50000) == 2478900000 && Quotient(2478900000, 1) == 4957800000
  {
    SmallB5();
    SmallB4();
    SmallB7();
  }

  // ----- Calibration registers

  /** Swaps the bytes of a register word and, for signed coefficients, extends the sign. */
  function Stored(word: u16, signed: bool): (v: int)
  {
    var v := word * 0x100 / 0x100 % 0x100 * 0x100 + word / 0x100;
    if signed && v > 32767 then v - 65536 else v
  }

  lemma Halves(high: u8, low: u8)
    ensures var word := low * 0x100 + high;
      word * 0x100 / 0x100 % 0x100 == high && word / 0x100 == low
  {
    var word := low * 0x100 + high;
    Unpack(low, 0x100, high);
    Unpack(word, 0x100, 0);
  }

  /** The bus read gives the byte at the lower address, the high one, in the low half of the word. */
  lemma BytesSwapped(high: u8, low: u8)
    ensures Stored(low * 0x100 + high, false) == high * 0x100 + low
    ensures Stored(low * 0x100 + high, true) == Signed16(high * 0x100 + low)
  {
    Halves(high, low);
    Unpack(0, 0x1_0000, high * 0x100 + low);
  }

  /** A coefficient stored with its high byte first comes back, signed or not. */
  lemma CoefficientReadBack(v: int, signed: bool)
    requires InRange(v, signed)
    ensures Stored(Register(v), signed) == v
  {
    var raw := v % 0x1_0000;
    BytesSwapped(raw / 0x100, raw % 0x100);
    SignedBack(v);
  }

  lemma SignedBack(v: int)
    requires -0x8000 <= v < 0x1_0000
    ensures v % 0x1_0000 == if v < 0 then v + 0x1_0000 else v
  {
    if v < 0 {
      Unpack(-1, 0x1_0000, v + 0x1_0000);
    } else {
      Unpack(0, 0x1_0000, v);
    }
  }

  const SIGNED: seq<bool> := [true, true, true, false, false, false, true, true, true, true, true]

  function Coefficients(c: Calibration): (vs: seq<int>)
    ensures |vs| == 11
  {
    [c.ac1, c.ac2, c.ac3, c.ac4, c.ac5, c.ac6, c.b1, c.b2, c.mb, c.mc, c.md]
  }

  predicate InRange(v: int, signed: bool) {
    if signed then -0x8000 <= v < 0x8000 else 0 <= v < 0x1_0000
  }

  predicate Signed16Bits(v: int) {
    -0x8000 <= v < 0x8000
  }

  predicate Unsigned16Bits(v: int) {
    0 <= v < 0x1_0000
  }

  /** Each coefficient fits its 16 bits: ac4, ac5 and ac6 without sign, the others with. */
  predicate Storable(c: Calibration) {
    && Signed16Bits(c.ac1) && Signed16Bits(c.ac2) && Signed16Bits(c.ac3)
    && Unsigned16Bits(c.ac4) && Unsigned16Bits(c.ac5) && Unsigned16Bits(c.ac6)
    && Signed16Bits(c.b1) && Signed16Bits(c.b2)
    && Signed16Bits(c.mb) && Signed16Bits(c.mc) && Signed16Bits(c.md)
  }

  /** A register that holds v with its high byte first, as the little-endian bus read gives it. */
  function Register(v: int): (word: u16) {
    var high, low := v % 0x1_0000 / 0x100, v % 0x1_0000 % 0x100;
    low * 0x100 + high
  }

  /** The sensor's eleven registers, in the order of their addresses. */
  function Registers(c: Calibration): (words: seq<u16>)
    ensures |words| == 11
  {
    [Register(c.ac1), Register(c.ac2), Register(c.ac3), Register(c.ac4), Register(c.ac5), Register(c.ac6),
     Register(c.b1), Register(c.b2), Register(c.mb), Register(c.mc), Register(c.md)]
  }

  /** Every calibration that the sensor can hold is read back. */
  lemma CalibrationReadBack(c: Calibration, i: nat)
    requires Storable(c) && i < 11
    ensures Stored(Registers(c)[i], SIGNED[i]) == Coefficients(c)[i]
  {
    CoefficientReadBack(Coefficients(c)[i], SIGNED[i]);
  }

  class Sensor {
    /** ac1 to ac6, b1, b2, mb, mc, md */
    const coefficients: array<int>

    constructor ()
      ensures coefficients.Length == 11 && fresh(coefficients)
    {
      coefficients := new int[11](_ => 0);
    }

    /** After reading a sensor that holds a calibration, the fields are that calibration. */
    method ReadEprom(registers: seq<u16>)
      requires coefficients.Length == 11 && |registers| == 11
      modifies coefficients
      ensures forall c :: Storable(c) && registers == Registers(c) ==>
        coefficients[..] == [c.ac1, c.ac2, c.ac3, c.ac4, c.ac5, c.ac6, c.b1, c.b2, c.mb, c.mc, c.md]
      ensures forall i :: 0 <= i < 11 ==> coefficients[i] == Stored(registers[i], SIGNED[i])
    {
      for i := 0 to 11
        invariant forall k :: 0 <= k < i ==> coefficients[k] == Stored(registers[k], SIGNED[k])
      {
        coefficients[i] := Stored(registers[i], SIGNED[i]);
      }
      forall c, i: nat | Storable(c) && registers == Registers(c) && i < 11
        ensures coefficients[i] == Coefficients(c)[i]
      {
        CalibrationReadBack(c, i);
      }
    }
  }
}

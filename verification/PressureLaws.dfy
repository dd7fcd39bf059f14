/** What the compensation of the BMP180 computes: how far its rounded steps are from the formulas
    of section 3.5 of the data sheet in exact arithmetic, how the pressure moves with the raw
    reading, and what the oversampling setting changes. */
module PressureLaws {
  import opened Words
  import opened Bmp180

  predicate Within(x: real, y: real, e: real) {
    -e <= x - y <= e
  }

  // ----- The rounded steps

  lemma FloorClose(a: int, d: int)
    requires d > 0
    ensures var q := a / d; q * d <= a <= q * d + d - 1
  {
    FloorBounds(a, d);
    assert (a / d + 1) * d == a / d * d + d;
  }

  /** A truncated quotient is less than 1 away from the quotient, toward zero. */
  lemma TruncatedClose(a: int, b: int)
    requires b != 0
    ensures var r := a - CDiv(a, b) * b; Abs(r) < Abs(b) && (a >= 0 ==> r >= 0) && (a <= 0 ==> r <= 0)
  {
    var q := Abs(a) / Abs(b);
    FloorClose(Abs(a), Abs(b));
    assert q * Abs(b) == q * b || q * Abs(b) == -(q * b);
    assert -q * b == -(q * b);
    assert (-q) * b == -(q * b);
  }

  /** X1 is the product over 32768, rounded down; the temperature in tenths of a degree is a
      sixteenth of B5 to the nearest, and B5 is X1 + mc * 2048 / (X1 + md), truncated. */
  lemma TemperatureClose(c: Calibration, ut: int)
    requires Divisor(c, ut) != 0
    ensures var x1, d, t := X1(c, ut), X1(c, ut) + c.md, Temperature(c, ut);
      && x1 * 32768 <= (ut - c.ac6) * c.ac5 < x1 * 32768 + 32768
      && 16 * t - 8 <= B5(c, ut) < 16 * t + 8
      && var r := c.mc * 2048 - (B5(c, ut) - x1) * d;
         Abs(r) < Abs(d) && (c.mc >= 0 ==> r >= 0) && (c.mc <= 0 ==> r <= 0)
  {
    FloorClose((ut - c.ac6) * c.ac5, 32768);
    FloorClose(B5(c, ut) + 8, 16);
    TruncatedClose(c.mc * 2048, Divisor(c, ut));
  }

  const TWO30: int := 0x4000_0000

  /** The exact value behind X3, (ac3 * B6 / 2^13 + b1 * B6^2 / 2^28 + 2) / 4, times 2^30. */
  function ExactX3(c: Calibration, b6: int): int {
    32768 * (c.ac3 * b6) + c.b1 * (b6 * b6) + TWO30 / 2
  }

  lemma SquareTerm(b1: int, square: nat)
    requires -0x8000 <= b1 < 0x8000
    ensures var rest := b1 * square - b1 * (square / 4096) * 4096; -0x8000 * 4096 <= rest <= 0x8000 * 4096
  {
    var i, m := square / 4096, square % 4096;
    Distributed(b1, i * 4096, m);
    assert b1 * (i * 4096) == b1 * i * 4096;
    Product(b1, m);
  }

  lemma Distributed(k: int, x: int, y: int)
    ensures k * (x + y) == k * x + k * y
  {
  }

  lemma Product(b1: int, m: nat)
    requires -0x8000 <= b1 < 0x8000 && m < 4096
    ensures -0x8000 * 4096 <= b1 * m <= 0x8000 * 4096
  {
    NotNegative(b1 + 0x8000, m);
    NotNegative(0x8000 - b1, m);
    Distributed(m, b1, 0x8000);
    Distributed(m, 0x8000, -b1);
    assert m * -b1 == -(m * b1);
  }

  /** X3 is its exact value to 1.625, that is 1744830464 / 2^30. */
  lemma X3Close(c: Calibration, b6: int)
    requires -0x8000 <= c.b1 < 0x8000
    ensures -1744830464 <= X3(c, b6) * TWO30 - ExactX3(c, b6) <= 1744830464
  {
    var square := b6 * b6;
    SquareTerm(c.b1, square);
    FloorClose(c.ac3 * b6, 0x2000);
    FloorClose(c.b1 * (square / 0x1000), 0x1_0000);
  }

  /** B4 is ac4 * (X3 + 2^15) / 2^15 with the exact X3, to 4.25; both sides times 2^45. */
  lemma B4Close(c: Calibration, ut: int)
    requires Divisor(c, ut) != 0 && 0 <= c.ac4 < 0x1_0000 && -0x8000 <= c.b1 < 0x8000
    requires var x3 := X3(c, B5(c, ut) - 4000);
      0 <= x3 + 0x8000 < 0x1_0000_0000 && c.ac4 * (x3 + 0x8000) < 0x1_0000_0000
    ensures var exact := c.ac4 * (ExactX3(c, B5(c, ut) - 4000) + 32768 * TWO30);
      Abs(B4(c, ut) * 32768 * TWO30 - exact) * 4 <= 17 * 32768 * TWO30
  {
    var b6 := B5(c, ut) - 4000;
    X3Close(c, b6);
    B4From(c, ut, X3(c, b6), ExactX3(c, b6));
  }

  lemma B4From(c: Calibration, ut: int, x3: int, y: int)
    requires Divisor(c, ut) != 0 && 0 <= c.ac4 < 0x1_0000
    requires x3 == X3(c, B5(c, ut) - 4000) && 0 <= x3 + 0x8000 < 0x1_0000_0000
    requires c.ac4 * (x3 + 0x8000) < 0x1_0000_0000 && -1744830464 <= x3 * TWO30 - y <= 1744830464
    ensures Abs(B4(c, ut) * 32768 * TWO30 - c.ac4 * (y + 32768 * TWO30)) * 4 <= 17 * 32768 * TWO30
  {
    NotNegative(c.ac4, x3 + 0x8000);
    B4NoWrap(c, ut);
    ScaledClose(c.ac4, x3 + 0x8000, y + 32768 * TWO30);
  }

  lemma NotNegative(k: nat, x: nat)
    ensures k * x >= 0
  {
  }

  lemma B4NoWrap(c: Calibration, ut: int)
    requires Divisor(c, ut) != 0
    requires var x3 := X3(c, B5(c, ut) - 4000);
      0 <= x3 + 0x8000 < 0x1_0000_0000 && 0 <= c.ac4 * (x3 + 0x8000) < 0x1_0000_0000
    ensures B4(c, ut) == c.ac4 * (X3(c, B5(c, ut) - 4000) + 0x8000) / 0x8000
  {
    var x3 := X3(c, B5(c, ut) - 4000);
    Unpack(0, 0x1_0000_0000, x3 + 0x8000);
    Unpack(0, 0x1_0000_0000, c.ac4 * (x3 + 0x8000));
  }

  lemma ScaledClose(k: int, x: int, y: int)
    requires 0 <= k < 0x1_0000 && -1744830464 <= x * TWO30 - y <= 1744830464
    ensures Abs(k * x / 0x8000 * 32768 * TWO30 - k * y) * 4 <= 17 * 32768 * TWO30
  {
    FloorClose(k * x, 0x8000);
    var e := x * TWO30 - y;
    assert k * y == k * x * TWO30 - k * e;
    Bounded(k, e);
  }

  lemma Bounded(k: int, e: int)
    requires 0 <= k < 0x1_0000 && -1744830464 <= e <= 1744830464
    ensures -0x1_0000 * 1744830464 <= k * e <= 0x1_0000 * 1744830464
  {
    assert k * (e + 1744830464) >= 0 && k * (1744830464 - e) >= 0;
  }

  /** The exact value behind X3 of the second sum: 4 * ac1 + b2 * B6^2 / 2^23 + ac2 * B6 / 2^11. */
  function ExactSum(c: Calibration, b6: int): real {
    (4 * c.ac1) as real + (c.b2 * (b6 * b6)) as real / 8388608.0 + (c.ac2 * b6) as real / 2048.0
  }

  /** B3 is that sum times 1, 2, 4 or 8 for the oversampling setting, over 4, to less than 6. */
  lemma B3Close(c: Calibration, oss: nat, b6: int)
    requires oss <= 3
    ensures Within(B3(c, oss, b6) as real, ExactSum(c, b6) * [1.0, 2.0, 4.0, 8.0][oss] / 4.0, 6.0)
  {
    Shifts(oss);
    FloorClose(c.b2 * (b6 * b6), 0x1000);
    FloorClose(c.b2 * (b6 * b6) / 0x1000, 0x800);
    FloorClose(c.ac2 * b6, 0x800);
    var m := c.ac1 * 4 + (c.b2 * (b6 * b6) / 0x1000 / 0x800 + c.ac2 * b6 / 0x800);
    assert ExactSum(c, b6) - 3.0 < m as real <= ExactSum(c, b6);
    Quarter(m * Pow2(oss) + 2);
  }

  lemma Quarter(v: int)
    ensures v - 3 <= CDiv(v, 4) * 4 <= v + 3
  {
    TruncatedClose(v, 4);
  }

  /** B7 is (UP - B3) times 50000, 25000, 12500 or 6250, modulo 2^32. */
  lemma B7Is(c: Calibration, oss: nat, ut: int, up: int)
    requires oss <= 3 && Divisor(c, ut) != 0
    ensures var raw := (up - B3(c, oss, B5(c, ut) - 4000)) * [50000, 25000, 12500, 6250][oss];
      B7(c, oss, ut, up) == raw % 0x1_0000_0000
  {
    Shifts(oss);
  }

  /** The last step adds ((p / 2^8)^2 * 3038 / 2^16 - 7357 * p / 2^16 + 3791) / 16. */
  lemma CorrectedClose(p: int)
    ensures var k := p / 256;
      256 * k <= p < 256 * k + 256
      && Within(Corrected(p) as real,
                p as real + ((k * k * 3038) as real / 65536.0 - (7357 * p) as real / 65536.0 + 3791.0) / 16.0, 1.125)
  {
    var k := p / 256;
    FloorClose(p, 256);
    FloorClose(k * k * 3038, 0x1_0000);
    FloorClose(-7357 * p, 0x1_0000);
  }

  // ----- Pressure and raw reading

  /** With a larger B7 the quotient is not smaller, except between the two branches when the
      halved quotient loses its last bit. */
  lemma QuotientOrder(a: u32, b: u32, b4: u32)
    requires a <= b && b4 > 0
    ensures Quotient(a, b4) <= Quotient(b, b4)
       <==> !(a < 0x8000_0000 <= b && a / b4 == b / b4 && a % b4 * 2 >= b4)
    ensures Quotient(a, b4) <= Quotient(b, b4) + 1
  {
    FloorMonotone(a, b, b4);
    FloorMonotone(a * 2, b * 2, b4);
    if a < 0x8000_0000 {
      Doubled(a, b4);
    }
  }

  lemma Doubled(a: nat, b4: nat)
    requires b4 > 0
    ensures a * 2 / b4 == a / b4 * 2 + if a % b4 * 2 >= b4 then 1 else 0
  {
    var q, r := a / b4, a % b4;
    assert a == q * b4 + r;
    if r * 2 >= b4 {
      assert a * 2 == (2 * q + 1) * b4 + (2 * r - b4);
      Unpack(2 * q + 1, b4, 2 * r - b4);
    } else {
      assert a * 2 == 2 * q * b4 + 2 * r;
      Unpack(2 * q, b4, 2 * r);
    }
  }

  lemma SquareGrows(k: nat, m: nat)
    requires k <= m
    ensures k * k * 3038 <= m * m * 3038
  {
    assert m * m - k * k == (m - k) * (m + k);
  }

  lemma CorrectedMonotone(p: nat, q: nat)
    requires p <= q
    ensures Corrected(p) <= Corrected(q)
  {
    FloorMonotone(p, q, 256);
    SquareGrows(p / 256, q / 256);
    FloorMonotone(p / 256 * (p / 256) * 3038, q / 256 * (q / 256) * 3038, 0x1_0000);
    FloorClose(-7357 * p, 0x1_0000);
    FloorClose(-7357 * q, 0x1_0000);
    var s := p / 256 * (p / 256) * 3038 / 0x1_0000 + -7357 * p / 0x1_0000 + 3791;
    var t := q / 256 * (q / 256) * 3038 / 0x1_0000 + -7357 * q / 0x1_0000 + 3791;
    assert t >= s - (q - p);
    FloorMonotone(s - 16 * (q - p), t, 16);
  }

  lemma RawMonotone(c: Calibration, oss: nat, ut: int, up1: int, up2: int)
    requires oss <= 3 && Divisor(c, ut) != 0 && up1 <= up2
    ensures Raw(c, oss, ut, up1) <= Raw(c, oss, ut, up2)
  {
    Shifts(oss);
  }

  /** No 32-bit number wraps around for this reading. */
  predicate InRangeAt(c: Calibration, oss: nat, ut: int, up: int)
    requires oss <= 3 && Divisor(c, ut) != 0
  {
    && B4(c, ut) > 0 && 0 <= Raw(c, oss, ut, up) < 0x1_0000_0000
    && Quotient(Raw(c, oss, ut, up), B4(c, ut)) < 0x8000_0000
  }

  lemma PressureInRange(c: Calibration, oss: nat, ut: int, up: int)
    requires oss <= 3 && Divisor(c, ut) != 0 && InRangeAt(c, oss, ut, up)
    ensures Pressure(c, oss, ut, up) == Corrected(Quotient(Raw(c, oss, ut, up), B4(c, ut)))
  {
    Unpack(0, 0x1_0000_0000, Raw(c, oss, ut, up));
    Unpack(0, 0x1_0000_0000, Quotient(Raw(c, oss, ut, up), B4(c, ut)));
  }

  /** For every calibration and oversampling setting, a higher raw reading never gives a lower
      pressure while no number wraps around and both take the same branch of the quotient. */
  lemma PressureMonotone(c: Calibration, oss: nat, ut: int, up1: int, up2: int)
    requires oss <= 3 && Divisor(c, ut) != 0 && up1 <= up2
    requires InRangeAt(c, oss, ut, up1) && InRangeAt(c, oss, ut, up2)
    requires Raw(c, oss, ut, up1) >= 0x8000_0000 || Raw(c, oss, ut, up2) < 0x8000_0000
    ensures Pressure(c, oss, ut, up1) <= Pressure(c, oss, ut, up2)
  {
    PressureInRange(c, oss, ut, up1);
    PressureInRange(c, oss, ut, up2);
    RawMonotone(c, oss, ut, up1, up2);
    QuotientOrder(Raw(c, oss, ut, up1), Raw(c, oss, ut, up2), B4(c, ut));
    CorrectedMonotone(Quotient(Raw(c, oss, ut, up1), B4(c, ut)), Quotient(Raw(c, oss, ut, up2), B4(c, ut)));
  }

  // ----- Oversampling

  /** A reading with oversampling counts 1, 2, 4 or 8 times as fine: the same pressure read both
      ways gives B7 to within 62500, that is 1.25 counts of the reading without. */
  lemma OversamplingClose(c: Calibration, oss: nat, ut: int, up: int)
    requires oss <= 3 && Divisor(c, ut) != 0
    ensures -62500 <= Raw(c, oss, ut, up * [1, 2, 4, 8][oss]) - Raw(c, 0, ut, up) <= 62500
  {
    Shifts(oss);
    Shifts(0);
    var b6 := B5(c, ut) - 4000;
    var m := c.ac1 * 4 + (c.b2 * (b6 * b6) / 0x1000 / 0x800 + c.ac2 * b6 / 0x800);
    Quarter(m * Pow2(oss) + 2);
    Quarter(m + 2);
  }

  // ----- Readings

  /** The data sheet's example, read with each oversampling setting. */
  lemma OversampledExamples()
    ensures Divisor(EXAMPLE, 27898) != 0 && B4(EXAMPLE, 27898) != 0
    ensures Pressure(EXAMPLE, 0, 27898, 23843) == 69964
    ensures Pressure(EXAMPLE, 1, 27898, 47686) == 69962
    ensures Pressure(EXAMPLE, 2, 27898, 95372) == 69963
    ensures Pressure(EXAMPLE, 3, 27898, 190744) == 69963
  {
    DataSheetExample();
    ExampleB5();
    ExampleB4();
    CorrectedExamples();
    ExamplePressure(1, 845, 47686);
    ExamplePressure(2, 1689, 95372);
    ExamplePressure(3, 3378, 190744);
  }

  lemma ExamplePressure(oss: nat, b3: int, up: int)
    requires Divisor(EXAMPLE, 27898) == 7611 && B5(EXAMPLE, 27898) == 2400 && B4(EXAMPLE, 27898) == 33457
    requires 1 <= oss <= 3 && b3 == [422, 845, 1689, 3378][oss]
    requires 0 <= (up - b3) * [50000, 25000, 12500, 6250][oss] < 0x8000_0000
    ensures Pressure(EXAMPLE, oss, 27898, up)
         == Corrected(Quotient((up - b3) * [50000, 25000, 12500, 6250][oss], 33457))
  {
    ExampleRaw(oss, b3, up);
    var b7 := (up - b3) * [50000, 25000, 12500, 6250][oss];
    FloorClose(b7 * 2, 33457);
    Unpack(0, 0x1_0000_0000, Quotient(b7, 33457));
  }

  lemma ExampleRaw(oss: nat, b3: int, up: int)
    requires Divisor(EXAMPLE, 27898) == 7611 && B5(EXAMPLE, 27898) == 2400
    requires 1 <= oss <= 3 && b3 == [422, 845, 1689, 3378][oss]
    requires 0 <= (up - b3) * [50000, 25000, 12500, 6250][oss] < 0x1_0000_0000
    ensures B7(EXAMPLE, oss, 27898, up) == (up - b3) * [50000, 25000, 12500, 6250][oss]
  {
    Shifts(oss);
    assert 4 * (-1600 * -1600) / 0x1000 / 0x800 == 1;
    assert -72 * -1600 / 0x800 == 56;
    assert CDiv(1689 * 2 + 2, 4) == 845 && CDiv(1689 * 4 + 2, 4) == 1689 && CDiv(1689 * 8 + 2, 4) == 3378;
  }

  lemma CorrectedExamples()
    ensures Quotient(1171025000, 33457) == 70001 && Corrected(70001) == 69962
    ensures Quotient(1171037500, 33457) == 70002 && Corrected(70002) == 69963
  {
    assert 273 * 273 * 3038 / 0x1_0000 == 3454;
    assert -7357 * 70001 / 0x1_0000 == -7859;
    assert -7357 * 70002 / 0x1_0000 == -7859;
  }

  /** The data sheet's calibration but for ac4. */
  const LOW_AC4: Calibration :=
    Calibration(408, -72, -14383, 20003, 32757, 23153, 6190, 4, -32768, -8711, 2868)

  lemma LowAc4()
    ensures Divisor(LOW_AC4, 27898) == 7611 && B5(LOW_AC4, 27898) == 2400 && B4(LOW_AC4, 27898) == 20440
  {
    assert X1(LOW_AC4, 27898) == 4743;
    assert CDiv(-8711 * 0x800, 7611) == -2343;
    LowB4();
  }

  lemma LowB4()
    requires Divisor(LOW_AC4, 27898) == 7611 && B5(LOW_AC4, 27898) == 2400
    ensures B4(LOW_AC4, 27898) == 20440
  {
    assert -14383 * -1600 / 0x2000 == 2809;
    assert 6190 * (-1600 * -1600 / 0x1000) / 0x1_0000 == 59;
  }

  lemma LowRaw(up: int)
    requires Divisor(LOW_AC4, 27898) == 7611 && B5(LOW_AC4, 27898) == 2400
    requires 3378 <= up < 500000
    ensures B7(LOW_AC4, 3, 27898, up) == (up - 3378) * 6250
  {
    Shifts(3);
    assert 4 * (-1600 * -1600) / 0x1000 / 0x800 == 1;
    assert -72 * -1600 / 0x800 == 56;
    assert CDiv(1689 * 8 + 2, 4) == 3378;
  }

  /** Between the branches a higher raw reading can give a lower pressure, by 1 Pa here. */
  lemma PressureFalls()
    ensures Divisor(LOW_AC4, 27898) != 0 && B4(LOW_AC4, 27898) != 0
    ensures Pressure(LOW_AC4, 3, 27898, 346975) == 210835
    ensures Pressure(LOW_AC4, 3, 27898, 346976) == 210834
  {
    LowAc4();
    LowRaw(346975);
    LowRaw(346976);
    assert Quotient(2147481250, 20440) == 210125 && Quotient(2147487500, 20440) == 210124;
    assert 820 * 820 * 3038 / 0x1_0000 == 31169;
    assert -7357 * 210125 / 0x1_0000 == -23589 && -7357 * 210124 / 0x1_0000 == -23589;
  }
}

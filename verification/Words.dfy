/** Fixed-width unsigned integers, written as bounded mathematical integers. */
module Words {

  type u8 = x: int | 0 <= x < 0x100

  type u16 = x: int | 0 <= x < 0x1_0000

  type u32 = x: int | 0 <= x < 0x1_0000_0000

  /** The value a C cast to a signed 32-bit integer gives. */
  function Signed32(x: int): (r: int)
    ensures -0x8000_0000 <= r < 0x8000_0000
    ensures (r - x) % 0x1_0000_0000 == 0
  {
    var m := x % 0x1_0000_0000;
    if m < 0x8000_0000 then m else m - 0x1_0000_0000
  }

  /** The value a C cast to a signed 16-bit integer gives. */
  function Signed16(x: int): (r: int)
    ensures -0x8000 <= r < 0x8000
    ensures (r - x) % 0x1_0000 == 0
  {
    var m := x % 0x1_0000;
    if m < 0x8000 then m else m - 0x1_0000
  }

  lemma MultipleIsFar(k: int, m: int)
    requires m > 0
    ensures k >= 1 ==> k * m >= m
    ensures k <= -1 ==> k * m <= -m
  {
    assert k * m == m + (k - 1) * m == -m + (k + 1) * m;
  }

  /** Shifting and masking undo packing. */
  lemma Unpack(q: int, m: int, r: int)
    requires 0 <= r < m
    ensures (q * m + r) / m == q && (q * m + r) % m == r
  {
    var x := q * m + r;
    var d, e := x / m, x % m;
    assert x == d * m + e && 0 <= e < m;
    assert (d - q) * m == d * m - q * m == r - e;
    MultipleIsFar(d - q, m);
  }

  function BigEndian(b: seq<u8>): (wo: u32)
    requires |b| == 4
  {
    ((b[0] as int * 0x100 + b[1]) * 0x100 + b[2]) * 0x100 + b[3]
  }

  lemma BigEndianIs(a: u8, b: u8, c: u8, d: u8)
    ensures BigEndian([a, b, c, d]) == a as int * 0x100_0000 + b as int * 0x1_0000 + c as int * 0x100 + d
  {
  }

  function ToBytes(wo: u32): (b: seq<u8>)
    ensures |b| == 4 && BigEndian(b) == wo
  {
    var hi := wo / 0x100;
    [hi / 0x100 / 0x100, hi / 0x100 % 0x100, hi % 0x100, wo % 0x100]
  }

  lemma ToBytesBigEndian(b: seq<u8>)
    requires |b| == 4
    ensures ToBytes(BigEndian(b)) == b
  {
    Unpack((b[0] as int * 0x100 + b[1]) * 0x100 + b[2], 0x100, b[3]);
    Unpack(b[0] as int * 0x100 + b[1], 0x100, b[2]);
    Unpack(b[0], 0x100, b[1]);
  }

  function Pow2(n: nat): (p: nat)
    ensures p >= 1
  {
    if n == 0 then 1 else 2 * Pow2(n - 1)
  }
}

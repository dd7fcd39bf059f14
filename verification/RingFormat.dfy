/** The 32-bit words of the memory ring (lago_v1_2), where they differ from WordFormat: two
    14-bit samples to a word, signed coordinates and unsigned rates of 24 bits. */
module RingFormat {
  import opened Words
  import opened MemoryRing

  /** The upper and lower half of a word, read as signed 16-bit numbers from a
      little-endian memory. */
  function Half(wo: u32, upper: bool): (ch: int)
    ensures -0x8000 <= ch < 0x8000
  {
    Signed16(if upper then wo / 0x1_0000 else wo % 0x1_0000)
  }

  /** ((ch >> 13) << 14) + ((ch >> 13) << 15) + ch, printed as a short. */
  function PrintedSample(ch: int): (v: int)
    ensures -0x8000 <= v < 0x8000
  {
    var sign := ch / 0x2000;
    Signed16(sign * 0x4000 + sign * 0x8000 + ch)
  }

  /** The 14-bit two's complement of a sample. */
  function SampleBits(v: int): (bits: nat)
    ensures bits < 0x4000
  {
    v % 0x4000
  }

  function EncodeSamples(v1: int, v2: int): (wo: u32) {
    SampleBits(v2) * 0x1_0000 + SampleBits(v1)
  }

  /** With the upper two bits clear, bit 13 is the sign. */
  lemma PrintedSampleIs(ch: int)
    requires 0 <= ch < 0x4000
    ensures PrintedSample(ch) == if ch < 0x2000 then ch else ch - 0x4000
  {
    if ch < 0x2000 {
      assert ch / 0x2000 == 0;
    } else {
      assert ch / 0x2000 == 1;
    }
  }

  lemma SampleBitsOf(v: int)
    requires -0x2000 <= v < 0x2000
    ensures SampleBits(v) == if v < 0 then v + 0x4000 else v
  {
    if v < 0 {
      Unpack(-1, 0x4000, v + 0x4000);
    } else {
      Unpack(0, 0x4000, v);
    }
  }

  /** The shift-and-add sign extension turns a half into a number whose 14-bit two's complement
      is the half, exactly when the upper two bits of the half are clear. */
  lemma PrintedSampleExact(ch: int)
    requires -0x8000 <= ch < 0x8000
    ensures SampleBits(PrintedSample(ch)) == ch <==> 0 <= ch < 0x4000
  {
    if 0 <= ch < 0x4000 {
      PrintedSampleIs(ch);
      SampleBitsOf(PrintedSample(ch));
    }
  }

  lemma PrintedSampleOfBits(v: int)
    requires -0x2000 <= v < 0x2000
    ensures PrintedSample(SampleBits(v)) == v
  {
    SampleBitsOf(v);
    PrintedSampleIs(SampleBits(v));
  }

  lemma HalvesOf(v1: int, v2: int)
    ensures var wo := EncodeSamples(v1, v2);
      wo / 0x4000_0000 == 0 && Half(wo, false) == SampleBits(v1) && Half(wo, true) == SampleBits(v2)
  {
    Unpack(SampleBits(v2), 0x1_0000, SampleBits(v1));
  }

  /** A pair of signed 14-bit samples is tagged as samples and printed as it was. */
  lemma SamplesRoundTrip(v1: int, v2: int)
    requires -0x2000 <= v1 < 0x2000 && -0x2000 <= v2 < 0x2000
    ensures var wo := EncodeSamples(v1, v2);
      && wo / 0x4000_0000 == 0
      && PrintedSample(Half(wo, false)) == v1 && PrintedSample(Half(wo, true)) == v2
  {
    HalvesOf(v1, v2);
    PrintedSampleOfBits(v1);
    PrintedSampleOfBits(v2);
  }

  lemma HalvesIs(low: nat, high: nat)
    requires low < 0x4000 && high < 0x4000
    ensures Half(high * 0x1_0000 + low, false) == low && Half(high * 0x1_0000 + low, true) == high
  {
    Unpack(high, 0x1_0000, low);
    Unpack(0, 0x1_0000, low);
    Unpack(0, 0x1_0000, high);
  }

  /** The first sample printed is the one in the low half of the word. */
  lemma LowHalfFirst(low: nat, high: nat)
    requires low < 0x4000 && high < 0x4000
    ensures var p := PrintedPairs([high * 0x1_0000 + low])[0];
      p.0 == (if low < 0x2000 then low else low - 0x4000) && p.1 == (if high < 0x2000 then high else high - 0x4000)
  {
    HalvesIs(low, high);
    PrintedSampleIs(low);
    PrintedSampleIs(high);
  }

  /** What is printed for a stream of sample words. */
  function PrintedPairs(ws: seq<u32>): (ps: seq<(int, int)>)
    ensures |ps| == |ws|
  {
    seq(|ws|, k requires 0 <= k < |ws| => (PrintedSample(Half(ws[k], false)), PrintedSample(Half(ws[k], true))))
  }

  function EncodedPairs(ps: seq<(int, int)>): (ws: seq<u32>)
    ensures |ws| == |ps|
  {
    seq(|ps|, k requires 0 <= k < |ps| => EncodeSamples(ps[k].0, ps[k].1))
  }

  /** In every interleaving of writer, sampler and reader without overrun, the pairs printed are
      the first pairs that the converter produced, once and in order. */
  lemma SamplesDelivered(states: seq<Ring>, actions: seq<Action>, k: nat, ps: seq<(int, int)>)
    requires IsRun(states, actions) && k < |states|
    requires states[k].history == EncodedPairs(ps)
    requires forall j :: 0 <= j < |ps| ==> -0x2000 <= ps[j].0 < 0x2000 && -0x2000 <= ps[j].1 < 0x2000
    ensures PrintedPairs(states[k].out) <= ps
  {
    DeliveredInOrder(states, actions, k);
    var out := states[k].out;
    forall j | 0 <= j < |out|
      ensures PrintedPairs(out)[j] == ps[j]
    {
      assert out[j] == states[k].history[j];
      SamplesRoundTrip(ps[j].0, ps[j].1);
    }
  }

  /** (x << 8) >> 8 on the low 24 bits: a signed 24-bit number. */
  function Signed24(wo: u32): (v: int) {
    Signed32(wo % 0x100_0000 * 0x100) / 0x100
  }

  /** A coordinate has 8 bits before the binary point and 16 behind it. */
  function Coordinate24(wo: u32): real {
    Signed24(wo) as real / 65536.0
  }

  lemma Signed24RoundTrip(v: int, tag: nat)
    requires -0x80_0000 <= v < 0x80_0000 && tag < 0x100
    ensures Signed24(tag * 0x100_0000 + v % 0x100_0000) == v
  {
    Unpack(tag, 0x100_0000, v % 0x100_0000);
  }

  /** A coordinate between -128 and 128 comes back, rounded down to a multiple of 1 / 65536,
      whatever the tag above it. */
  lemma CoordinateRoundTrip(c: real, tag: nat)
    requires -128.0 <= c < 128.0 && tag < 0x100
    ensures var r := Coordinate24(tag * 0x100_0000 + (c * 65536.0).Floor % 0x100_0000);
      r <= c < r + 1.0 / 65536.0
  {
    var v := (c * 65536.0).Floor;
    Signed24RoundTrip(v, tag);
  }

  /** The rate of a channel is masked, without sign extension. */
  function Rate(wo: u32): (n: nat) {
    wo % 0x100_0000
  }

  /** Rates of 24 bits come back whatever the tag; read as a coordinate is they would not. */
  lemma RateRoundTrip(n: nat, tag: nat)
    requires n < 0x100_0000 && tag < 0x100
    ensures Rate(tag * 0x100_0000 + n) == n
    ensures Signed24(tag * 0x100_0000 + n) == n <==> n < 0x80_0000
  {
    Unpack(tag, 0x100_0000, n);
  }
}

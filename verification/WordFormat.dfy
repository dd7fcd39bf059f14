/** The tagged 32-bit words that the front end writes (lago_test, data version 5). */
module WordFormat {
  import opened Words

  datatype Word =
    | Sample(ch1: nat, ch2: nat, ch3: nat)
    | Trigger(condition: nat, clock: nat)
    | Counter(count: nat)
    | Frequency(hertz: nat)
    | RawD2(raw: nat)
    | RawD1(raw: nat)
    | Pps(hour: nat, minute: nat, second: nat)
    | Coordinate(part: nat, bits: nat)
    | BaselineHigh(b1: nat, b2: nat, b3: nat)
    | BaselineLow(b1: nat, b2: nat, b3: nat)
    | Unknown(tag: nat)
  {
    /** The fields fit the bits that the format gives them. */
    predicate Valid() {
      match this
      case Sample(a, b, c) => a < 0x400 && b < 0x400 && c < 0x400
      case Trigger(k, t) => k < 8 && t < 0x800_0000
      case Counter(n) => n < 0x4000_0000
      case Frequency(f) => f < 0x400_0000
      case RawD2(v) => v < 0x1_0000
      case RawD1(v) => v < 0x1_0000
      case Pps(h, m, s) => h < 0x100 && m < 0x100 && s < 0x100
      case Coordinate(p, v) => p < 8 && v < 0x100_0000
      case BaselineHigh(a, b, c) => a < 0x200 && b < 0x200 && c < 0x200
      case BaselineLow(a, b, c) => a < 0x200 && b < 0x200 && c < 0x200
      case Unknown(t) => t == 0x1D
    }
  }

  function Decode(wo: u32): (w: Word)
    ensures w.Valid()
  {
    var kind := wo / 0x4000_0000;
    if kind == 0 then
      Sample(wo / 0x10_0000 % 0x400, wo / 0x400 % 0x400, wo % 0x400)
    else if kind == 1 then
      Trigger(wo / 0x800_0000 % 8, wo % 0x800_0000)
    else if kind == 2 then
      Counter(wo % 0x4000_0000)
    else
      DecodeTagged(wo)
  }

  /** The words whose two top bits are set: five bits of tag. */
  function DecodeTagged(wo: u32): (w: Word)
    requires wo / 0x4000_0000 == 3
    ensures w.Valid()
  {
    var tag := wo / 0x800_0000;
    match tag
    case 0x18 => Frequency(wo % 0x400_0000)
    case 0x19 => RawD2(wo % 0x1_0000)
    case 0x1A => RawD1(wo % 0x1_0000)
    case 0x1B => Pps(wo / 0x1_0000 % 0x100, wo / 0x100 % 0x100, wo % 0x100)
    case 0x1C => Coordinate(wo / 0x100_0000 % 8, wo % 0x100_0000)
    case 0x1F => BaselineHigh(wo / 0x4_0000 % 0x200, wo / 0x200 % 0x200, wo % 0x200)
    case 0x1E => BaselineLow(wo / 0x4_0000 % 0x200, wo / 0x200 % 0x200, wo % 0x200)
    case _ => Unknown(tag)
  }

  /** What the front end has to send for Decode to see w; unused bits are 0. */
  function Encode(w: Word): (wo: u32)
    requires w.Valid()
  {
    match w
    case Sample(a, b, c) => a * 0x10_0000 + b * 0x400 + c
    case Trigger(k, t) => 0x4000_0000 + k * 0x800_0000 + t
    case Counter(n) => 0x8000_0000 + n
    case Frequency(f) => 0x18 * 0x800_0000 + f
    case RawD2(v) => 0x19 * 0x800_0000 + v
    case RawD1(v) => 0x1A * 0x800_0000 + v
    case Pps(h, m, s) => 0x1B * 0x800_0000 + h * 0x1_0000 + m * 0x100 + s
    case Coordinate(p, v) => 0x1C * 0x800_0000 + p * 0x100_0000 + v
    case BaselineHigh(a, b, c) => 0x1F * 0x800_0000 + a * 0x4_0000 + b * 0x200 + c
    case BaselineLow(a, b, c) => 0x1E * 0x800_0000 + a * 0x4_0000 + b * 0x200 + c
    case Unknown(t) => t * 0x800_0000
  }

  lemma DecodeEncode(w: Word)
    requires w.Valid()
    ensures Decode(Encode(w)) == w
  {
    match w
    case Sample(a, b, c) => SampleRoundTrip(a, b, c);
    case Trigger(k, t) => TriggerRoundTrip(k, t);
    case Counter(n) => Unpack(2, 0x4000_0000, n);
    case Pps(h, m, s) => PpsRoundTrip(h, m, s);
    case BaselineHigh(a, b, c) => BaselineRoundTrip(0x1F, a, b, c);
    case BaselineLow(a, b, c) => BaselineRoundTrip(0x1E, a, b, c);
    case Coordinate(p, v) => CoordinateRoundTrip(p, v);
    case _ => ShortRoundTrip(w);
  }

  lemma SampleRoundTrip(a: nat, b: nat, c: nat)
    requires Sample(a, b, c).Valid()
    ensures Decode(Encode(Sample(a, b, c))) == Sample(a, b, c)
  {
    Unpack(0, 0x4000_0000, Encode(Sample(a, b, c)));
    Unpack(a * 0x400 + b, 0x400, c);
    Unpack(a, 0x400, b);
    Unpack(a, 0x10_0000, b * 0x400 + c);
    Unpack(0, 0x400, a);
  }

  lemma TriggerRoundTrip(k: nat, t: nat)
    requires Trigger(k, t).Valid()
    ensures Decode(Encode(Trigger(k, t))) == Trigger(k, t)
  {
    Unpack(1, 0x4000_0000, k * 0x800_0000 + t);
    Unpack(8 + k, 0x800_0000, t);
    assert Encode(Trigger(k, t)) == (8 + k) * 0x800_0000 + t;
  }

  /** The words with one field of 26 or 16 bits, or none. */
  lemma ShortRoundTrip(w: Word)
    requires w.Valid() && (w.Frequency? || w.RawD2? || w.RawD1? || w.Unknown?)
    ensures Decode(Encode(w)) == w
  {
    match w
    case Frequency(f) => Tagged(0x18, f);
    case RawD2(v) => Tagged(0x19, v);
    case RawD1(v) => Tagged(0x1A, v);
    case Unknown(t) => Tagged(t, 0);
  }

  lemma PpsRoundTrip(h: nat, m: nat, s: nat)
    requires Pps(h, m, s).Valid()
    ensures Decode(Encode(Pps(h, m, s))) == Pps(h, m, s)
  {
    Tagged(0x1B, h * 0x1_0000 + m * 0x100 + s);
    Unpack((0xD800 + h) * 0x100 + m, 0x100, s);
    Unpack(0xD800 + h, 0x100, m);
    Unpack(0xD800 + h, 0x1_0000, m * 0x100 + s);
    Unpack(0xD8, 0x100, h);
  }

  lemma CoordinateRoundTrip(p: nat, v: nat)
    requires Coordinate(p, v).Valid()
    ensures Decode(Encode(Coordinate(p, v))) == Coordinate(p, v)
  {
    Tagged(0x1C, p * 0x100_0000 + v);
    Unpack(0x1C * 8 + p, 0x100_0000, v);
    Unpack(0x1C, 8, p);
  }

  lemma BaselineRoundTrip(tag: nat, a: nat, b: nat, c: nat)
    requires (tag == 0x1E || tag == 0x1F) && a < 0x200 && b < 0x200 && c < 0x200
    ensures var wo := tag * 0x800_0000 + a * 0x4_0000 + b * 0x200 + c;
      Decode(wo) == if tag == 0x1F then BaselineHigh(a, b, c) else BaselineLow(a, b, c)
  {
    Tagged(tag, a * 0x4_0000 + b * 0x200 + c);
    Unpack((tag * 0x200 + a) * 0x200 + b, 0x200, c);
    Unpack(tag * 0x200 + a, 0x200, b);
    Unpack(tag * 0x200 + a, 0x4_0000, b * 0x200 + c);
    Unpack(tag, 0x200, a);
  }

  lemma Tagged(tag: int, v: int)
    requires 0x18 <= tag < 0x20 && 0 <= v < 0x800_0000
    ensures (tag * 0x800_0000 + v) / 0x4000_0000 == 3
    ensures (tag * 0x800_0000 + v) / 0x800_0000 == tag
    ensures (tag * 0x800_0000 + v) % 0x800_0000 == v
  {
    Unpack(tag, 0x800_0000, v);
    Unpack(3, 0x4000_0000, (tag - 0x18) * 0x800_0000 + v);
  }

  /** Where the fields are: samples of 10 bits from the highest, a 3-bit condition above 27 bits of
      clock, 30 bits of counter. */
  lemma LayoutOfData(a: nat, b: nat, c: nat, k: nat, t: nat, n: nat)
    requires a < 1024 && b < 1024 && c < 1024 && k < 8 && t < 0x800_0000 && n < 0x4000_0000
    ensures Decode(a * 0x10_0000 + b * 0x400 + c) == Sample(a, b, c)
    ensures Decode(0x4000_0000 + k * 0x800_0000 + t) == Trigger(k, t)
    ensures Decode(0x8000_0000 + n) == Counter(n)
  {
    DecodeEncode(Sample(a, b, c));
    DecodeEncode(Trigger(k, t));
    DecodeEncode(Counter(n));
  }

  /** The tagged words: five bits of tag, then bytes for the time, 3 and 24 bits for a coordinate,
      16 bits for a reading, three times 9 bits for the baselines. */
  lemma LayoutOfTagged(h: u8, m: u8, s: u8, part: nat, bits: nat, v: u16, f: nat)
    requires part < 8 && bits < 0x100_0000 && f < 0x400_0000
    ensures Decode(0xC000_0000 + f) == Frequency(f)
    ensures Decode(0xC800_0000 + v) == RawD2(v)
    ensures Decode(0xD000_0000 + v) == RawD1(v)
    ensures Decode(0xD800_0000 + h as int * 0x1_0000 + m as int * 0x100 + s) == Pps(h, m, s)
    ensures Decode(0xE000_0000 + part * 0x100_0000 + bits) == Coordinate(part, bits)
    ensures Decode(0xE800_0000) == Unknown(0x1D)
  {
    DecodeEncode(Frequency(f));
    DecodeEncode(RawD2(v));
    DecodeEncode(RawD1(v));
    DecodeEncode(Pps(h, m, s));
    DecodeEncode(Coordinate(part, bits));
    DecodeEncode(Unknown(0x1D));
  }

  lemma LayoutOfBaselines(a: nat, b: nat, c: nat)
    requires a < 512 && b < 512 && c < 512
    ensures Decode(0xF000_0000 + a * 0x4_0000 + b * 0x200 + c) == BaselineLow(a, b, c)
    ensures Decode(0xF800_0000 + a * 0x4_0000 + b * 0x200 + c) == BaselineHigh(a, b, c)
  {
    DecodeEncode(BaselineLow(a, b, c));
    DecodeEncode(BaselineHigh(a, b, c));
  }

  function DecodeAll(ws: seq<u32>): (r: seq<Word>)
    ensures |r| == |ws|
    ensures forall k :: 0 <= k < |r| ==> r[k].Valid()
  {
    seq(|ws|, k requires 0 <= k < |ws| => Decode(ws[k]))
  }

  function EncodeAll(ws: seq<Word>): (r: seq<u32>)
    requires forall k :: 0 <= k < |ws| ==> ws[k].Valid()
    ensures |r| == |ws|
  {
    seq(|ws|, k requires 0 <= k < |ws| => Encode(ws[k]))
  }

  /** Decoding recovers every field of every word of a stream. */
  lemma DecodeEncodeAll(ws: seq<Word>)
    requires forall k :: 0 <= k < |ws| ==> ws[k].Valid()
    ensures DecodeAll(EncodeAll(ws)) == ws
  {
    forall k | 0 <= k < |ws|
      ensures Decode(Encode(ws[k])) == ws[k]
    {
      DecodeEncode(ws[k]);
    }
  }
}

/** GPS coordinates: signed 32-bit numbers sent as 24 and 8 bits in two words. */
module Positions {
  import opened Words
  import opened WordFormat
  import opened Clock
  import opened WordMachine

  /** The coordinate whose upper bits come in words of this part: 0 latitude, 2 longitude, 4 height. */
  predicate IsUpper(part: nat) {
    part == 0 || part == 2 || part == 4
  }

  function Upper(f: Fix, part: nat): int
    requires IsUpper(part)
  {
    if part == 0 then f.upperLat else if part == 2 then f.upperLon else f.upperHeight
  }

  function Value(f: Fix, part: nat): real
    requires IsUpper(part)
  {
    if part == 0 then f.lat else if part == 2 then f.lon else f.height
  }

  function Units(part: nat): (u: real)
    requires IsUpper(part)
    ensures u > 0.0
  {
    if part == 4 then HEIGHT_UNITS else LAT_LON_UNITS
  }

  /** The 24 upper and the 8 lower bits of the two's complement of v. */
  function UpperBits(v: int): (bits: nat)
    ensures bits < 0x100_0000
  {
    v % 0x1_0000_0000 / 0x100
  }

  function LowerBits(v: int): (bits: nat)
    ensures bits < 0x100
  {
    v % 0x1_0000_0000 % 0x100
  }

  lemma SplitSigned(v: int)
    requires -0x8000_0000 <= v < 0x8000_0000
    ensures Signed32(Signed32(UpperBits(v) * 0x100) + LowerBits(v)) == v
  {
    var m := v % 0x1_0000_0000;
    TwosComplement(v);
    var u, l := m / 0x100, m % 0x100;
    assert m == u * 0x100 + l;
    Unpack(0, 0x1_0000_0000, u * 0x100);
    if u * 0x100 < 0x8000_0000 {
      Unpack(0, 0x1_0000_0000, m);
    } else {
      Unpack(-1, 0x1_0000_0000, m);
    }
  }

  lemma TwosComplement(v: int)
    requires -0x8000_0000 <= v < 0x8000_0000
    ensures v % 0x1_0000_0000 == if v < 0 then v + 0x1_0000_0000 else v
  {
    if v < 0 {
      Unpack(-1, 0x1_0000_0000, v + 0x1_0000_0000);
    } else {
      Unpack(0, 0x1_0000_0000, v);
    }
  }

  predicate AllValid(ws: seq<Word>) {
    forall k :: 0 <= k < |ws| ==> ws[k].Valid()
  }

  /** No word of ws sends upper bits of this coordinate. */
  predicate Leaves(ws: seq<Word>, part: nat) {
    forall k :: 0 <= k < |ws| ==> !(ws[k].Coordinate? && ws[k].part == part)
  }

  lemma {:induction false} UpperStays(mode: Mode, s: State, ws: seq<Word>, part: nat)
    requires s.sums.Valid() && AllValid(ws) && IsUpper(part) && Leaves(ws, part)
    ensures Upper(Run(mode, s, ws).fix, part) == Upper(s.fix, part)
  {
    if ws != [] {
      UpperStays(mode, s, ws[..|ws| - 1], part);
    }
  }

  /** Whatever other words come in between, and whatever is in the unused bits of the second
      word, the two words give the coordinate back. */
  lemma CoordinateReceived(mode: Mode, s: State, v: int, part: nat, between: seq<Word>, unused: nat)
    requires s.sums.Valid() && IsUpper(part) && -0x8000_0000 <= v < 0x8000_0000
    requires AllValid(between) && Leaves(between, part) && unused < 0x1_0000
    ensures var first, second := Coordinate(part, UpperBits(v)), Coordinate(part + 1, unused * 0x100 + LowerBits(v));
      && first.Valid() && second.Valid()
      && var f := Step(mode, Run(mode, Step(mode, s, first), between), second).fix;
         && (part == 0 ==> f.lat == v as real / 3600000.0)
         && (part == 2 ==> f.lon == v as real / 3600000.0)
         && (part == 4 ==> f.height == v as real / 100.0)
  {
    var s1 := Step(mode, s, Coordinate(part, UpperBits(v)));
    var s2 := Run(mode, s1, between);
    UpperStays(mode, s1, between, part);
    Unpack(unused, 0x100, LowerBits(v));
    ValueComplete(mode, s2, part, unused * 0x100 + LowerBits(v));
    SplitSigned(v);
  }

  /** The second word adds its low eight bits to what the first one left. */
  lemma ValueComplete(mode: Mode, s: State, part: nat, bits: nat)
    requires s.sums.Valid() && IsUpper(part) && bits < 0x100_0000
    ensures Value(Step(mode, s, Coordinate(part + 1, bits)).fix, part)
         == Signed32(Upper(s.fix, part) + bits % 0x100) as real / Units(part)
  {
  }
}

/** The lines that lago_test prints, read directly from the stream of words: what each word adds,
    from the words before it alone. */
module Printout {
  import opened Words
  import opened WordFormat
  import opened Clock
  import opened WordMachine
  import opened Statistics
  import opened Ledger
  import opened Conservation
  import opened Accounts
  import opened Positions

  // ----- What the words before have left behind

  /** The last D2 reading, 0 before the first. */
  function LatestD2(ws: seq<Word>): nat {
    if ws == [] then 0
    else
      var w := ws[|ws| - 1];
      if w.RawD2? then w.raw else LatestD2(ws[..|ws| - 1])
  }

  /** The bits of the last word that carries this part of a coordinate. */
  function LatestUpper(ws: seq<Word>, part: nat): nat {
    if ws == [] then 0
    else
      var w := ws[|ws| - 1];
      if w.Coordinate? && w.part == part then w.bits else LatestUpper(ws[..|ws| - 1], part)
  }

  /** The last complete coordinate whose upper bits come in words of this part: in milliseconds of
      arc for latitude (0) and longitude (2), in centimetres for the height (4). */
  function Latest(ws: seq<Word>, part: nat): int {
    if ws == [] then 0
    else
      var before, w := ws[..|ws| - 1], ws[|ws| - 1];
      if w.Coordinate? && w.part == part + 1 then Signed32(LatestUpper(before, part) * 256 + w.bits % 256)
      else Latest(before, part)
  }

  /** The baselines in units of 1 / 256: 512 for each count of the last high word, and the low
      words since. */
  function LatestBaselines(ws: seq<Word>): (nat, nat, nat) {
    if ws == [] then (0, 0, 0)
    else
      var before, w := LatestBaselines(ws[..|ws| - 1]), ws[|ws| - 1];
      if w.BaselineHigh? then (512 * w.b1, 512 * w.b2, 512 * w.b3)
      else if w.BaselineLow? then (before.0 + w.b1, before.1 + w.b2, before.2 + w.b3)
      else before
  }

  /** fileTime, from the pulse-per-second words alone. */
  function TimeAfter(mode: Mode, time: int, ws: seq<Word>): int {
    Timegm(AdvanceAll(mode, Gmtime(time), SecondsOf(ws)).date)
  }

  // ----- The lines

  /** What the last word of ws prints. */
  function LinesOfLast(mode: Mode, time: int, ws: seq<Word>): seq<Line>
    requires ws != []
  {
    var before, w := ws[..|ws| - 1], ws[|ws| - 1];
    match w
    case Sample(_, _, _) => [SampleLine(w.ch1, w.ch2, w.ch3)]
    case Trigger(_, _) => [TriggerLine(w.condition, w.clock)]
    case Counter(_) => [CounterLine(w.count)]
    case Frequency(_) => [FrequencyLine(w.hertz)]
    case RawD2(_) => [RawD2Line(w.raw)]
    case RawD1(_) => [RawD1Line(w.raw), PressureStart(w.raw, LatestD2(before))]
    case Pps(_, _, _) =>
      var t := TimeAfter(mode, time, ws);
      [TimeLine(Gmtime(t), t)]
    case Coordinate(_, _) =>
      if w.part == 5 then
        [LocationLine(Latest(ws, 0) as real / 3600000.0, Latest(ws, 2) as real / 3600000.0,
                      Latest(ws, 4) as real / 100.0)]
      else []
    case BaselineHigh(_, _, _) => []
    case BaselineLow(_, _, _) =>
      var b := LatestBaselines(ws);
      [BaselineLine(Baselines(b.0 as real / 256.0, b.1 as real / 256.0, b.2 as real / 256.0))]
    case Unknown(_) => [ErrorLine(w.tag)]
  }

  function Printed(mode: Mode, time: int, ws: seq<Word>): seq<Line> {
    if ws == [] then []
    else Printed(mode, time, ws[..|ws| - 1]) + LinesOfLast(mode, time, ws)
  }

  // ----- The word machine prints them

  ghost predicate Remembers(s: State, ws: seq<Word>) {
    && s.rawD2 == LatestD2(ws)
    && FixOf(s.fix, ws)
    && s.base == BaselinesOf(LatestBaselines(ws))
  }

  predicate FixOf(f: Fix, ws: seq<Word>) {
    && AngleOf(f.upperLat, f.lat, ws, 0, 3600000.0)
    && AngleOf(f.upperLon, f.lon, ws, 2, 3600000.0)
    && AngleOf(f.upperHeight, f.height, ws, 4, 100.0)
  }

  predicate AngleOf(upper: int, value: real, ws: seq<Word>, part: nat, units: real)
    requires units > 0.0
  {
    upper == Signed32(LatestUpper(ws, part) * 256) && value == Latest(ws, part) as real / units
  }

  function BaselinesOf(b: (nat, nat, nat)): Baselines {
    Baselines(b.0 as real / 256.0, b.1 as real / 256.0, b.2 as real / 256.0)
  }

  /** Adding the low bits before or after the wrap makes no difference. */
  lemma SignedSum(x: int, y: int)
    ensures Signed32(Signed32(x) + y) == Signed32(x + y)
  {
    var k := (Signed32(x) - x) / 0x1_0000_0000;
    assert Signed32(x) == x + k * 0x1_0000_0000;
    Shifted(x + y, k);
  }

  lemma Shifted(z: int, k: int)
    ensures (z + k * 0x1_0000_0000) % 0x1_0000_0000 == z % 0x1_0000_0000
  {
    var q, r := z / 0x1_0000_0000, z % 0x1_0000_0000;
    assert z + k * 0x1_0000_0000 == (q + k) * 0x1_0000_0000 + r;
    Unpack(q + k, 0x1_0000_0000, r);
  }

  /** How a coordinate word changes one of the three. */
  lemma LatestAfter(before: seq<Word>, w: Word, part: nat)
    requires w.Coordinate?
    ensures LatestUpper(before + [w], part) == if w.part == part then w.bits else LatestUpper(before, part)
    ensures Latest(before + [w], part)
         == if w.part == part + 1 then Signed32(Signed32(LatestUpper(before, part) * 256) + w.bits % 256)
            else Latest(before, part)
  {
    assert (before + [w])[..|before|] == before;
    SignedSum(LatestUpper(before, part) * 256, w.bits % 256);
  }

  lemma PositionRemembers(f: Fix, before: seq<Word>, w: Word)
    requires FixOf(f, before) && w.Coordinate? && w.Valid()
    ensures FixOf(Position(f, w), before + [w])
  {
    LatestAfter(before, w, 0);
    LatestAfter(before, w, 2);
    LatestAfter(before, w, 4);
  }

  lemma BaselinesRemember(b: (nat, nat, nat), w: Word)
    requires w.BaselineLow?
    ensures Low(BaselinesOf(b), w) == BaselinesOf((b.0 + w.b1, b.1 + w.b2, b.2 + w.b3))
  {
  }

  lemma StepRemembers(mode: Mode, s: State, before: seq<Word>, w: Word)
    requires s.sums.Valid() && w.Valid() && Remembers(s, before)
    ensures Remembers(Step(mode, s, w), before + [w])
  {
    var ws := before + [w];
    assert ws[..|ws| - 1] == before;
    match w
    case Coordinate(_, _) => PositionRemembers(s.fix, before, w);
    case BaselineLow(_, _, _) =>
      BaselinesRemember(LatestBaselines(before), w);
      FixStays(s.fix, before, w);
    case _ => FixStays(s.fix, before, w);
  }

  lemma FixStays(f: Fix, before: seq<Word>, w: Word)
    requires FixOf(f, before) && !w.Coordinate?
    ensures FixOf(f, before + [w])
  {
    assert (before + [w])[..|before|] == before;
  }

  lemma StepPrints(mode: Mode, time: int, s: State, before: seq<Word>, w: Word)
    requires s.sums.Valid() && w.Valid() && Remembers(s, before)
    requires Remembers(Step(mode, s, w), before + [w])
    requires w.Pps? ==>
      var t := TimeAfter(mode, time, before + [w]);
      Step(mode, s, w).time == t && Step(mode, s, w).date == Gmtime(t)
    ensures Step(mode, s, w).lines == s.lines + LinesOfLast(mode, time, before + [w])
  {
    var ws := before + [w];
    assert ws[..|ws| - 1] == before && ws[|ws| - 1] == w;
    assert s.lines + [] == s.lines;
  }

  lemma NormalAfter(mode: Mode, time: int, ws: seq<Word>)
    ensures var d := AdvanceAll(mode, Gmtime(time), SecondsOf(ws)).date; Gmtime(Timegm(d)) == d
  {
    GmtimeTimegm(AdvanceAll(mode, Gmtime(time), SecondsOf(ws)).date);
  }

  /** After every run the lines are those of the words, in the order of the stream. */
  lemma {:induction false} LinesPrinted(mode: Mode, time: int, ws: seq<Word>)
    requires forall k :: 0 <= k < |ws| ==> ws[k].Valid()
    ensures After(mode, time, ws).lines == Printed(mode, time, ws)
    ensures Remembers(After(mode, time, ws), ws)
  {
    if ws == [] {
    } else {
      var before, w := ws[..|ws| - 1], ws[|ws| - 1];
      assert ws == before + [w];
      LinesPrinted(mode, time, before);
      StepRemembers(mode, After(mode, time, before), before, w);
      RunOnTime(mode, time, ws);
      NormalAfter(mode, time, ws);
      StepPrints(mode, time, After(mode, time, before), before, w);
    }
  }

  // ----- What that means, word by word

  lemma {:induction false} PrintedPrefix(mode: Mode, time: int, ws: seq<Word>, n: nat)
    requires n <= |ws|
    ensures Printed(mode, time, ws[..n]) <= Printed(mode, time, ws)
    decreases |ws| - n
  {
    if n == |ws| {
      assert ws[..n] == ws;
    } else {
      assert ws[..n + 1][..n] == ws[..n];
      PrintedPrefix(mode, time, ws, n + 1);
    }
  }

  /** Word k prints its own line, with its own fields, right behind what the words before it
      printed, in every run. */
  lemma LineOfWord(mode: Mode, time: int, ws: seq<Word>, k: nat)
    requires forall j :: 0 <= j < |ws| ==> ws[j].Valid()
    requires k < |ws|
    ensures var lines, at, w := After(mode, time, ws).lines, |After(mode, time, ws[..k]).lines|, ws[k];
      && After(mode, time, ws[..k]).lines <= lines
      && (w.Sample? ==> at < |lines| && lines[at] == SampleLine(w.ch1, w.ch2, w.ch3))
      && (w.Trigger? ==> at < |lines| && lines[at] == TriggerLine(w.condition, w.clock))
      && (w.Counter? ==> at < |lines| && lines[at] == CounterLine(w.count))
      && (w.Frequency? ==> at < |lines| && lines[at] == FrequencyLine(w.hertz))
      && (w.RawD2? ==> at < |lines| && lines[at] == RawD2Line(w.raw))
      && (w.RawD1? ==> at + 1 < |lines| && lines[at] == RawD1Line(w.raw)
                       && lines[at + 1] == PressureStart(w.raw, LatestD2(ws[..k])))
      && (w.Unknown? ==> at < |lines| && lines[at] == ErrorLine(w.tag))
      && (w.Pps? ==> at < |lines| && lines[at].TimeLine? && lines[at].time == TimeAfter(mode, time, ws[..k + 1]))
  {
    var own := LinesOfLast(mode, time, ws[..k + 1]);
    assert ws[..k + 1][..k] == ws[..k] && ws[..k + 1][k] == ws[k];
    OwnLines(mode, time, ws, k);
    Behind(After(mode, time, ws).lines, After(mode, time, ws[..k]).lines, own);
  }

  lemma OwnLines(mode: Mode, time: int, ws: seq<Word>, k: nat)
    requires forall j :: 0 <= j < |ws| ==> ws[j].Valid()
    requires k < |ws|
    ensures After(mode, time, ws[..k]).lines + LinesOfLast(mode, time, ws[..k + 1]) <= After(mode, time, ws).lines
  {
    LinesPrinted(mode, time, ws);
    LinesPrinted(mode, time, ws[..k]);
    assert ws[..k + 1][..k] == ws[..k];
    PrintedPrefix(mode, time, ws, k + 1);
  }

  lemma Behind(lines: seq<Line>, before: seq<Line>, own: seq<Line>)
    requires before + own <= lines
    ensures before <= lines && |before| + |own| <= |lines|
    ensures forall i :: 0 <= i < |own| ==> lines[|before| + i] == own[i]
    ensures own != [] ==> lines[|before|] == own[0]
    ensures |own| > 1 ==> lines[|before| + 1] == own[1]
  {
    assert forall i :: 0 <= i < |own| ==> (before + own)[|before| + i] == own[i];
  }

  /** Without GPS the n-th pulse per second prints the time start + n. */
  lemma TimeLineWithoutGps(mode: Mode, time: int, ws: seq<Word>, k: nat)
    requires mode.falseGps && forall j :: 0 <= j < |ws| ==> ws[j].Valid()
    requires k < |ws| && ws[k].Pps?
    ensures var lines, at := After(mode, time, ws).lines, |After(mode, time, ws[..k]).lines|;
      at < |lines| && lines[at].TimeLine? && lines[at].time == time + |SecondsOf(ws[..k + 1])|
  {
    LineOfWord(mode, time, ws, k);
    FalseGpsClock(mode, Gmtime(time), SecondsOf(ws[..k + 1]));
  }

  /** With GPS words that carry the true times, each prints the true time. */
  lemma TimeLineWithGps(mode: Mode, time: int, ws: seq<Word>, ts: seq<int>, k: nat)
    requires !mode.falseGps && forall j :: 0 <= j < |ws| ==> ws[j].Valid()
    requires k < |ws| && ws[k].Pps?
    requires ts != [] && SecondsOf(ws[..k + 1]) == HmsOfAll(ts) && HoursAdvance(time, ts)
    ensures var lines, at := After(mode, time, ws).lines, |After(mode, time, ws[..k]).lines|;
      at < |lines| && lines[at].TimeLine? && lines[at].time == ts[|ts| - 1]
  {
    LineOfWord(mode, time, ws, k);
    GpsDates(mode, time, ts);
  }

  // ----- Coordinates and baselines

  predicate NoBaselines(ws: seq<Word>) {
    forall k :: 0 <= k < |ws| ==> !ws[k].BaselineHigh? && !ws[k].BaselineLow?
  }

  lemma {:induction false} BaselinesStay(ws: seq<Word>, between: seq<Word>)
    requires NoBaselines(between)
    ensures LatestBaselines(ws + between) == LatestBaselines(ws)
  {
    if between == [] {
      assert ws + between == ws;
    } else {
      BaselinesStay(ws, between[..|between| - 1]);
      assert (ws + between)[..|ws + between| - 1] == ws + between[..|between| - 1];
    }
  }

  /** A baseline split into its upper part over 512 and its lower nine bits is printed over 256,
      whatever comes in between. */
  lemma BaselinePrinted(mode: Mode, time: int, ws: seq<Word>, between: seq<Word>, v: (nat, nat, nat))
    requires NoBaselines(between) && v.0 < 0x4_0000 && v.1 < 0x4_0000 && v.2 < 0x4_0000
    ensures var high := BaselineHigh(v.0 / 512, v.1 / 512, v.2 / 512);
      var low := BaselineLow(v.0 % 512, v.1 % 512, v.2 % 512);
      && high.Valid() && low.Valid()
      && LinesOfLast(mode, time, ws + [high] + between + [low])
         == [BaselineLine(Baselines(v.0 as real / 256.0, v.1 as real / 256.0, v.2 as real / 256.0))]
  {
    var high := BaselineHigh(v.0 / 512, v.1 / 512, v.2 / 512);
    var low := BaselineLow(v.0 % 512, v.1 % 512, v.2 % 512);
    var all := ws + [high] + between + [low];
    assert all[..|all| - 1] == ws + [high] + between;
    assert (ws + [high])[..|ws|] == ws;
    BaselinesStay(ws + [high], between);
  }

  lemma {:induction false} UpperStaysLatest(ws: seq<Word>, between: seq<Word>, part: nat)
    requires Leaves(between, part)
    ensures LatestUpper(ws + between, part) == LatestUpper(ws, part)
  {
    if between == [] {
      assert ws + between == ws;
    } else {
      UpperStaysLatest(ws, between[..|between| - 1], part);
      assert (ws + between)[..|ws + between| - 1] == ws + between[..|between| - 1];
    }
  }

  lemma {:induction false} ValueStays(ws: seq<Word>, between: seq<Word>, part: nat)
    requires Leaves(between, part + 1)
    ensures Latest(ws + between, part) == Latest(ws, part)
  {
    if between == [] {
      assert ws + between == ws;
    } else {
      ValueStays(ws, between[..|between| - 1], part);
      assert (ws + between)[..|ws + between| - 1] == ws + between[..|between| - 1];
    }
  }

  /** A coordinate sent in two words is the latest one until the next is complete, whatever other
      words come between and after. */
  lemma CoordinateShown(ws: seq<Word>, v: int, part: nat, between: seq<Word>, unused: nat, after: seq<Word>)
    requires -0x8000_0000 <= v < 0x8000_0000 && unused < 0x1_0000
    requires Leaves(between, part) && Leaves(after, part + 1)
    ensures var first, second := Coordinate(part, UpperBits(v)), Coordinate(part + 1, unused * 0x100 + LowerBits(v));
      Latest(ws + [first] + between + [second] + after, part) == v
  {
    var first, second := Coordinate(part, UpperBits(v)), Coordinate(part + 1, unused * 0x100 + LowerBits(v));
    var all := ws + [first] + between + [second];
    ValueStays(all, after, part);
    assert all[..|all| - 1] == ws + [first] + between;
    UpperStaysLatest(ws + [first], between, part);
    assert (ws + [first])[..|ws|] == ws;
    Unpack(unused, 0x100, LowerBits(v));
    SplitSigned(v);
    SignedSum(UpperBits(v) * 256, LowerBits(v));
  }

  /** The six words of a position, sent one after another, print it: latitude and longitude over
      3600000, height over 100. */
  lemma LocationPrinted(mode: Mode, time: int, ws: seq<Word>, lat: int, lon: int, height: int)
    requires -0x8000_0000 <= lat < 0x8000_0000 && -0x8000_0000 <= lon < 0x8000_0000
    requires -0x8000_0000 <= height < 0x8000_0000
    ensures var six := [Coordinate(0, UpperBits(lat)), Coordinate(1, LowerBits(lat)),
                        Coordinate(2, UpperBits(lon)), Coordinate(3, LowerBits(lon)),
                        Coordinate(4, UpperBits(height)), Coordinate(5, LowerBits(height))];
      LinesOfLast(mode, time, ws + six)
      == [LocationLine(lat as real / 3600000.0, lon as real / 3600000.0, height as real / 100.0)]
  {
    var a, b := Coordinate(0, UpperBits(lat)), Coordinate(1, LowerBits(lat));
    var c, d := Coordinate(2, UpperBits(lon)), Coordinate(3, LowerBits(lon));
    var e, f := Coordinate(4, UpperBits(height)), Coordinate(5, LowerBits(height));
    var all := ws + [a, b, c, d, e, f];
    assert all == ws + [a] + [] + [b] + [c, d, e, f];
    CoordinateShown(ws, lat, 0, [], 0, [c, d, e, f]);
    assert all == (ws + [a, b]) + [c] + [] + [d] + [e, f];
    CoordinateShown(ws + [a, b], lon, 2, [], 0, [e, f]);
    assert all == (ws + [a, b, c, d]) + [e] + [] + [f] + [];
    CoordinateShown(ws + [a, b, c, d], height, 4, [], 0, []);
  }
}

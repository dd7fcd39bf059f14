/** What lago_test does with one 32-bit word: the printed line, the sums kept for the metadata
    file, the GPS position and the clock. The functions on State specify the class
    Machine, whose fields are the program's globals. */
module WordMachine {
  import opened Words
  import opened WordFormat
  import opened Clock

  const TRIGGER_CLASSES: nat := 8
  const CHANNELS: nat := 3

  /** Average, and the number whose square root is printed as the deviation; both are
      printed as -1 when there is no data. */
  datatype Moment = NoData | Moment(average: real, squaredDeviation: real)

  /** What is computed for the metadata file when it is closed. */
  datatype Report = Report(
    rates: seq<Moment>, baselines: seq<Moment>,
    daqTime: nat, pulses: nat, lost: int, lostFraction: real)

  datatype Sums = Sums(
    binIndex: nat, pulseCount: int, pulseBefore: int, gap: int, lost: int,
    seconds: nat, pulses: nat,
    r: seq<int>, rates: seq<int>, rates2: seq<int>, bl: seq<int>, bl2: seq<int>)
  {
    predicate Valid() {
      && |r| == |rates| == |rates2| == TRIGGER_CLASSES
      && |bl| == |bl2| == CHANNELS
    }
  }

  /** The halves of the coordinates received so far, and the coordinates. */
  datatype Fix = Fix(upperLat: int, upperLon: int, upperHeight: int, lat: real, lon: real, height: real)

  datatype Baselines = Baselines(b1: real, b2: real, b3: real)

  /** What is printed; PressureStart stands for what the calculation of pressure and temperature
      prints, which starts from the two raw readings. */
  datatype Line =
    | SampleLine(ch1: nat, ch2: nat, ch3: nat)
    | TriggerLine(condition: nat, clock: nat)
    | CounterLine(count: nat)
    | FrequencyLine(hertz: nat)
    | RawD2Line(raw: nat)
    | RawD1Line(raw: nat)
    | PressureStart(rawD1: nat, rawD2: nat)
    | TimeLine(date: Date, time: int)
    | LocationLine(lat: real, lon: real, height: real)
    | BaselineLine(base: Baselines)
    | ErrorLine(tag: nat)

  datatype State = State(
    sums: Sums, date: Date, time: int, fix: Fix, base: Baselines, rawD1: nat, rawD2: nat,
    lines: seq<Line>, reports: seq<Report>, files: seq<Date>)

  // ----- Specification

  function MomentOf(n: nat, s1: int, s2: int): Moment {
    if n == 0 then NoData
    else
      var average := s1 as real / n as real;
      Moment(average, s2 as real / n as real - average * average)
  }

  function Moments(n: nat, s1: seq<int>, s2: seq<int>): (m: seq<Moment>)
    requires |s1| == |s2|
    ensures |m| == |s1|
  {
    seq(|s1|, i requires 0 <= i < |s1| => MomentOf(n, s1[i], s2[i]))
  }

  function ReportOf(s: Sums): Report
    requires s.Valid()
  {
    Report(
      Moments(s.seconds, s.rates, s.rates2), Moments(s.pulses, s.bl, s.bl2), s.seconds, s.pulses, s.lost,
      if s.pulses == 0 then -1.0 else s.lost as real / s.pulses as real)
  }

  function Zeros(n: nat): (z: seq<int>)
    ensures |z| == n
  {
    seq(n, _ => 0)
  }

  function Reset(s: Sums): Sums {
    s.(seconds := 0, pulses := 0, lost := 0, rates := Zeros(TRIGGER_CLASSES), rates2 := Zeros(TRIGGER_CLASSES),
       bl := Zeros(CHANNELS), bl2 := Zeros(CHANNELS))
  }

  function Plus(a: seq<int>, b: seq<int>): (c: seq<int>)
    requires |a| == |b|
    ensures |c| == |a|
  {
    seq(|a|, i requires 0 <= i < |a| => a[i] + b[i])
  }

  function Squares(a: seq<int>): (c: seq<int>)
    ensures |c| == |a|
  {
    seq(|a|, i requires 0 <= i < |a| => a[i] * a[i])
  }

  /** Only the first sample after a trigger counts for the baselines. */
  function AddSample(s: Sums, w: Word): Sums
    requires s.Valid() && w.Sample?
  {
    var s1 := s.(binIndex := s.binIndex + 1);
    if s1.binIndex == 1 then
      var c := [w.ch1, w.ch2, w.ch3];
      s1.(bl := Plus(s.bl, c), bl2 := Plus(s.bl2, Squares(c)), pulses := s.pulses + 1)
    else s1
  }

  function AddTrigger(s: Sums, w: Word): Sums
    requires s.Valid() && w.Trigger? && w.Valid()
  {
    s.(r := s.r[w.condition := s.r[w.condition] + 1], binIndex := 0)
  }

  function AddCounter(s: Sums, w: Word): Sums
    requires w.Counter?
  {
    var gap := w.count - s.pulseCount - 1;
    s.(pulseBefore := s.pulseCount, pulseCount := w.count, gap := gap,
       lost := if gap > 0 && s.pulseCount != 0 then s.lost + gap else s.lost)
  }

  function EndSecond(s: Sums): Sums
    requires s.Valid()
  {
    s.(seconds := s.seconds + 1, rates := Plus(s.rates, s.r), rates2 := Plus(s.rates2, Squares(s.r)),
       r := Zeros(TRIGGER_CLASSES))
  }

  /** The sums and the closed reports after a change of date that may open a file. */
  function SumsAfter(s: Sums, t: Tick): (s': Sums)
    requires s.Valid()
    ensures s'.Valid()
  {
    if t.files == [] then s else Reset(s)
  }

  function ReportsAfter(reports: seq<Report>, s: Sums, t: Tick): seq<Report>
    requires s.Valid()
  {
    if t.files == [] then reports else reports + [ReportOf(s)]
  }

  /** A pulse-per-second word: the clock first, then the sums of the second that ended. */
  function Second(mode: Mode, s: State, w: Word): State
    requires s.sums.Valid() && w.Pps?
  {
    var t := Advance(mode, s.date, Hms(w.hour, w.minute, w.second));
    s.(sums := EndSecond(SumsAfter(s.sums, t)), reports := ReportsAfter(s.reports, s.sums, t),
       date := t.date, time := Timegm(t.date), files := s.files + t.files,
       lines := s.lines + [TimeLine(t.date, Timegm(t.date))])
  }

  const LAT_LON_UNITS: real := 3600000.0
  const HEIGHT_UNITS: real := 100.0

  function Position(f: Fix, w: Word): Fix
    requires w.Coordinate?
  {
    var upper := Signed32(w.bits * 0x100);
    match w.part
    case 0 => f.(upperLat := upper)
    case 1 => f.(lat := Signed32(f.upperLat + w.bits % 0x100) as real / LAT_LON_UNITS)
    case 2 => f.(upperLon := upper)
    case 3 => f.(lon := Signed32(f.upperLon + w.bits % 0x100) as real / LAT_LON_UNITS)
    case 4 => f.(upperHeight := upper)
    case 5 => f.(height := Signed32(f.upperHeight + w.bits % 0x100) as real / HEIGHT_UNITS)
    case _ => f
  }

  function High(w: Word): Baselines
    requires w.BaselineHigh?
  {
    Baselines((2 * w.b1) as real, (2 * w.b2) as real, (2 * w.b3) as real)
  }

  function Low(b: Baselines, w: Word): Baselines
    requires w.BaselineLow?
  {
    Baselines(b.b1 + w.b1 as real / 256.0, b.b2 + w.b2 as real / 256.0, b.b3 + w.b3 as real / 256.0)
  }

  function Step(mode: Mode, s: State, w: Word): (s': State)
    requires s.sums.Valid() && w.Valid()
    ensures s'.sums.Valid()
  {
    match w
    case Sample(a, b, c) => s.(sums := AddSample(s.sums, w), lines := s.lines + [SampleLine(a, b, c)])
    case Trigger(k, t) => s.(sums := AddTrigger(s.sums, w), lines := s.lines + [TriggerLine(k, t)])
    case Counter(n) => s.(sums := AddCounter(s.sums, w), lines := s.lines + [CounterLine(n)])
    case Frequency(f) => s.(lines := s.lines + [FrequencyLine(f)])
    case RawD2(v) => s.(rawD2 := v, lines := s.lines + [RawD2Line(v)])
    case RawD1(v) => s.(rawD1 := v, lines := s.lines + [RawD1Line(v), PressureStart(v, s.rawD2)])
    case Pps(_, _, _) => Second(mode, s, w)
    case Coordinate(p, _) =>
      var f := Position(s.fix, w);
      s.(fix := f, lines := s.lines + if p == 5 then [LocationLine(f.lat, f.lon, f.height)] else [])
    case BaselineHigh(_, _, _) => s.(base := High(w))
    case BaselineLow(_, _, _) =>
      var b := Low(s.base, w);
      s.(base := b, lines := s.lines + [BaselineLine(b)])
    case Unknown(tag) => s.(lines := s.lines + [ErrorLine(tag)])
  }

  /** Tagged words other than a pulse per second leave sums, clock and files alone. */
  lemma TaggedRest(mode: Mode, s: State, w: Word)
    requires s.sums.Valid() && w.Valid()
    requires !w.Sample? && !w.Trigger? && !w.Counter? && !w.Pps?
    ensures var t := Step(mode, s, w);
      t == s.(fix := t.fix, base := t.base, rawD1 := t.rawD1, rawD2 := t.rawD2, lines := t.lines)
  {
  }

  function Run(mode: Mode, s: State, ws: seq<Word>): (s': State)
    requires s.sums.Valid() && forall k :: 0 <= k < |ws| ==> ws[k].Valid()
    ensures s'.sums.Valid()
  {
    if ws == [] then s else Step(mode, Run(mode, s, ws[..|ws| - 1]), ws[|ws| - 1])
  }

  lemma RunAppend(mode: Mode, s: State, ws: seq<Word>, w: Word)
    requires s.sums.Valid() && w.Valid() && forall k :: 0 <= k < |ws| ==> ws[k].Valid()
    ensures Run(mode, s, ws + [w]) == Step(mode, Run(mode, s, ws), w)
  {
    assert (ws + [w])[..|ws|] == ws;
  }

  lemma RunOneMore(mode: Mode, s: State, ws: seq<u32>, wo: u32)
    requires s.sums.Valid()
    ensures Run(mode, s, DecodeAll(ws + [wo])) == Step(mode, Run(mode, s, DecodeAll(ws)), Decode(wo))
  {
    assert DecodeAll(ws + [wo]) == DecodeAll(ws) + [Decode(wo)];
    RunAppend(mode, s, DecodeAll(ws), Decode(wo));
  }

  /** Just after the first NewFile: the globals are zero and the first file is open. */
  function Start(mode: Mode, time: int): (s: State)
    ensures s.sums.Valid()
  {
    State(Sums(0, 0, 0, 0, 0, 0, 0, Zeros(TRIGGER_CLASSES), Zeros(TRIGGER_CLASSES), Zeros(TRIGGER_CLASSES),
               Zeros(CHANNELS), Zeros(CHANNELS)),
          Gmtime(time), time, Fix(0, 0, 0, 0.0, 0.0, 0.0), Baselines(0.0, 0.0, 0.0), 0, 0,
          [], [], if mode.toStdout then [] else [Gmtime(time)])
  }

  // ----- The program's globals and what it does to them

  class Machine {
    const mode: Mode
    var fileDate: Date
    var fileTime: int
    var seconds: nat
    var pulses: nat
    var binIndex: nat
    var gap: int
    var lost: int
    var pulseCount: int
    var pulseBefore: int
    const r: array<int>
    const rates: array<int>
    const rates2: array<int>
    const bl: array<int>
    const bl2: array<int>
    var fix: Fix
    var base: Baselines
    var rawD1: nat
    var rawD2: nat
    var lines: seq<Line>
    var reports: seq<Report>
    var files: seq<Date>

    /** The words processed so far. */
    ghost var heard: seq<u32>
    ghost const startTime: int

    ghost function Repr(): set<object> {
      {this, r, rates, rates2, bl, bl2}
    }

    /** The arrays are constants of the object, so this never changes. */
    ghost predicate Shape() {
      && r.Length == rates.Length == rates2.Length == TRIGGER_CLASSES
      && bl.Length == bl2.Length == CHANNELS
      && r != rates && r != rates2 && rates != rates2 && bl != bl2
    }

    /** The globals are what the specification makes of all words processed since the start. */
    ghost predicate Valid()
      reads Repr()
    {
      Shape() && Now() == Run(mode, Start(mode, startTime), DecodeAll(heard))
    }

    ghost function SumsNow(): (s: Sums)
      reads Repr()
      requires Shape()
      ensures s.Valid()
    {
      Sums(binIndex, pulseCount, pulseBefore, gap, lost, seconds, pulses,
           r[..], rates[..], rates2[..], bl[..], bl2[..])
    }

    ghost function Now(): (s: State)
      reads Repr()
      requires Shape()
      ensures s.sums.Valid()
    {
      State(SumsNow(), fileDate, fileTime, fix, base, rawD1, rawD2, lines, reports, files)
    }

    constructor (mode: Mode, time: int)
      ensures Valid() && fresh(Repr())
      ensures this.mode == mode && startTime == time && heard == []
    {
      this.mode, startTime, heard := mode, time, [];
      fileDate, fileTime := Gmtime(time), time;
      seconds, pulses, binIndex, gap, lost, pulseCount, pulseBefore := 0, 0, 0, 0, 0, 0, 0;
      r := new int[TRIGGER_CLASSES](_ => 0);
      rates := new int[TRIGGER_CLASSES](_ => 0);
      rates2 := new int[TRIGGER_CLASSES](_ => 0);
      bl := new int[CHANNELS](_ => 0);
      bl2 := new int[CHANNELS](_ => 0);
      fix, base := Fix(0, 0, 0, 0.0, 0.0, 0.0), Baselines(0.0, 0.0, 0.0);
      rawD1, rawD2 := 0, 0;
      lines, reports := [], [];
      files := if mode.toStdout then [] else [Gmtime(time)];
      new;
      assert SumsNow() == Start(mode, time).sums;
    }

    /** One word of the stream. */
    method Hear(wo: u32)
      requires Valid()
      modifies Repr()
      ensures Valid() && heard == old(heard) + [wo]
    {
      RunOneMore(mode, Start(mode, startTime), heard, wo);
      Process(wo);
      heard := heard + [wo];
    }

    /** What the clean call does to the counts of the current second; they are 0 then. */
    method ClearRates()
      requires Valid() && heard == []
      modifies Repr()
      ensures Valid() && heard == []
    {
      Clear(r);
      assert Now() == old(Now());
    }

    /** Closes the metadata file and opens the files of the hour in fileDate; with output to the
        terminal there are no files and only a header is printed. */
    method NewFile()
      requires Shape()
      modifies this`reports, this`fileDate, this`fileTime, this`files
      modifies this`seconds, this`pulses, this`lost, rates, rates2, bl, bl2
      ensures mode.toStdout ==> Now() == old(Now())
      ensures !mode.toStdout ==>
        && SumsNow() == Reset(old(SumsNow()))
        && reports == old(reports) + [ReportOf(old(SumsNow()))]
        && fileTime == Timegm(old(fileDate)) && fileDate == Gmtime(fileTime)
        && files == old(files) + [fileDate]
    {
      if !mode.toStdout {
        CloseMetadata();
        ResetSums();
        OpenFile();
      }
    }

    method OpenFile()
      modifies this`fileTime, this`fileDate, this`files
      ensures fileDate == Gmtime(fileTime) && fileTime == Timegm(old(fileDate))
      ensures files == old(files) + [fileDate]
    {
      fileTime := Timegm(fileDate);
      fileDate := Gmtime(fileTime);
      files := files + [fileDate];
    }

    method CloseMetadata()
      requires Shape()
      modifies this`reports
      ensures reports == old(reports) + [ReportOf(SumsNow())]
    {
      var rateMoments := AllMoments(seconds, rates, rates2);
      var baselineMoments := AllMoments(pulses, bl, bl2);
      var fraction := if pulses == 0 then -1.0 else lost as real / pulses as real;
      reports := reports + [Report(rateMoments, baselineMoments, seconds, pulses, lost, fraction)];
    }

    method ResetSums()
      requires Shape()
      modifies this`seconds, this`pulses, this`lost, rates, rates2, bl, bl2
      ensures SumsNow() == Reset(old(SumsNow()))
    {
      Clear(rates);
      Clear(rates2);
      Clear(bl);
      Clear(bl2);
      seconds, pulses, lost := 0, 0, 0;
    }

    method Process(wo: u32)
      requires Shape()
      modifies Repr()
      ensures Now() == Step(mode, old(Now()), Decode(wo)) && heard == old(heard)
    {
      if wo / 0x4000_0000 == 0 {
        OnSample(wo / 0x10_0000 % 0x400, wo / 0x400 % 0x400, wo % 0x400);
      } else if wo / 0x4000_0000 == 1 {
        OnTrigger(wo / 0x800_0000 % 8, wo % 0x800_0000);
      } else if wo / 0x4000_0000 == 2 {
        OnCounter(wo % 0x4000_0000);
      } else {
        OnSwitch(wo);
      }
    }

    method OnSwitch(wo: u32)
      requires Shape() && wo / 0x4000_0000 == 3
      modifies Repr()
      ensures Now() == Step(mode, old(Now()), DecodeTagged(wo)) && heard == old(heard)
    {
      if wo / 0x800_0000 == 0x1B {
        OnSecond(wo / 0x1_0000 % 0x100, wo / 0x100 % 0x100, wo % 0x100);
      } else {
        TaggedRest(mode, Now(), DecodeTagged(wo));
        OnTagged(wo);
        assert SumsNow() == old(SumsNow());
      }
    }

    method OnTrigger(condition: nat, clock: nat)
      requires Shape() && condition < 8 && clock < 0x800_0000
      modifies this`lines, this`binIndex, r
      ensures Now() == Step(mode, old(Now()), Trigger(condition, clock))
    {
      lines := lines + [TriggerLine(condition, clock)];
      r[condition] := r[condition] + 1;
      binIndex := 0;
    }

    method OnCounter(count: nat)
      requires Shape() && count < 0x4000_0000
      modifies this`pulseBefore, this`pulseCount, this`gap, this`lost, this`lines
      ensures SumsNow() == AddCounter(old(SumsNow()), Counter(count))
      ensures lines == old(lines) + [CounterLine(count)]
    {
      pulseBefore := pulseCount;
      pulseCount := count;
      gap := pulseCount - pulseBefore - 1;
      if gap > 0 && pulseBefore != 0 {
        lost := lost + gap;
      }
      lines := lines + [CounterLine(count)];
    }

    method OnSample(ch1: nat, ch2: nat, ch3: nat)
      requires Shape() && ch1 < 0x400 && ch2 < 0x400 && ch3 < 0x400
      modifies this`lines, this`binIndex, this`pulses, bl, bl2
      ensures Now() == Step(mode, old(Now()), Sample(ch1, ch2, ch3))
    {
      lines := lines + [SampleLine(ch1, ch2, ch3)];
      binIndex := binIndex + 1;
      if binIndex == 1 {
        AddToBaselines(ch1, ch2, ch3);
      }
    }

    method AddToBaselines(ch1: nat, ch2: nat, ch3: nat)
      requires Shape()
      modifies this`pulses, bl, bl2
      ensures bl[..] == Plus(old(bl[..]), [ch1, ch2, ch3])
      ensures bl2[..] == Plus(old(bl2[..]), Squares([ch1, ch2, ch3]))
      ensures pulses == old(pulses) + 1
    {
      bl[0] := bl[0] + ch1;
      bl2[0] := bl2[0] + ch1 * ch1;
      bl[1] := bl[1] + ch2;
      bl2[1] := bl2[1] + ch2 * ch2;
      bl[2] := bl[2] + ch3;
      bl2[2] := bl2[2] + ch3 * ch3;
      pulses := pulses + 1;
    }

    /** The tagged words that are not a pulse per second. */
    method OnTagged(wo: u32)
      requires Shape() && wo / 0x4000_0000 == 3 && wo / 0x800_0000 != 0x1B
      modifies this`lines, this`fix, this`base, this`rawD1, this`rawD2
      ensures var s := Step(mode, old(Now()), DecodeTagged(wo));
        fix == s.fix && base == s.base && rawD1 == s.rawD1 && rawD2 == s.rawD2 && lines == s.lines
    {
      match wo / 0x800_0000
      case 0x18 =>
        lines := lines + [FrequencyLine(wo % 0x400_0000)];
      case 0x19 =>
        OnRawD2(wo % 0x1_0000);
      case 0x1A =>
        OnRawD1(wo % 0x1_0000);
      case 0x1C =>
        OnCoordinate(wo / 0x100_0000 % 8, wo % 0x100_0000);
      case 0x1F =>
        OnBaselineHigh(wo / 0x4_0000 % 0x200, wo / 0x200 % 0x200, wo % 0x200);
      case 0x1E =>
        OnBaselineLow(wo / 0x4_0000 % 0x200, wo / 0x200 % 0x200, wo % 0x200);
      case _ =>
        lines := lines + [ErrorLine(wo / 0x800_0000)];
    }

    method OnRawD2(raw: nat)
      modifies this`lines, this`rawD2
      ensures rawD2 == raw && lines == old(lines) + [RawD2Line(raw)]
    {
      lines := lines + [RawD2Line(raw)];
      rawD2 := raw;
    }

    /** The second reading starts the calculation of pressure and temperature. */
    method OnRawD1(raw: nat)
      modifies this`lines, this`rawD1
      ensures rawD1 == raw && lines == old(lines) + [RawD1Line(raw), PressureStart(raw, rawD2)]
    {
      lines := lines + [RawD1Line(raw)];
      rawD1 := raw;
      lines := lines + [PressureStart(rawD1, rawD2)];
    }

    method OnBaselineHigh(h1: nat, h2: nat, h3: nat)
      requires h1 < 0x200 && h2 < 0x200 && h3 < 0x200
      modifies this`base
      ensures base == High(BaselineHigh(h1, h2, h3))
    {
      base := Baselines((2 * h1) as real, (2 * h2) as real, (2 * h3) as real);
    }

    method OnBaselineLow(l1: nat, l2: nat, l3: nat)
      requires l1 < 0x200 && l2 < 0x200 && l3 < 0x200
      modifies this`base, this`lines
      ensures base == Low(old(base), BaselineLow(l1, l2, l3)) && lines == old(lines) + [BaselineLine(base)]
    {
      base := Baselines(base.b1 + l1 as real / 256.0, base.b2 + l2 as real / 256.0, base.b3 + l3 as real / 256.0);
      lines := lines + [BaselineLine(base)];
    }

    method OnSecond(hour: nat, minute: nat, second: nat)
      requires Shape()
      modifies Repr()
      ensures Now() == Second(mode, old(Now()), Pps(hour, minute, second)) && heard == old(heard)
    {
      SetClock(hour, minute, second);
      seconds := seconds + 1;
      lines := lines + [TimeLine(fileDate, fileTime)];
      CountSecond();
      ghost var t := Advance(mode, old(fileDate), Hms(hour, minute, second));
      assert SumsNow() == EndSecond(SumsAfter(old(SumsNow()), t));
    }

    method SetClock(hour: nat, minute: nat, second: nat)
      requires Shape()
      modifies this`reports, this`fileDate, this`fileTime, this`files
      modifies this`seconds, this`pulses, this`lost, rates, rates2, bl, bl2
      ensures var t := Advance(mode, old(fileDate), Hms(hour, minute, second));
        && fileDate == t.date && fileTime == Timegm(t.date) && files == old(files) + t.files
        && SumsNow() == SumsAfter(old(SumsNow()), t)
        && reports == ReportsAfter(old(reports), old(SumsNow()), t)
    {
      if mode.falseGps {
        CountOneSecond();
      } else {
        FollowGps(hour, minute, second);
      }
      fileTime := Timegm(fileDate);
      fileDate := Gmtime(fileTime);
    }

    method CountOneSecond()
      requires Shape() && mode.falseGps
      modifies this`reports, this`fileDate, this`fileTime, this`files
      modifies this`seconds, this`pulses, this`lost, rates, rates2, bl, bl2
      ensures var t := CountSecondOf(mode, old(fileDate));
        && fileDate == t.date && files == old(files) + t.files
        && SumsNow() == SumsAfter(old(SumsNow()), t)
        && reports == ReportsAfter(old(reports), old(SumsNow()), t)
    {
      fileDate := fileDate.(second := fileDate.second + 1);
      if fileDate.second == 60 && fileDate.minute == 59 {
        if !mode.toStdout {
          NewFile();
        }
      } else {
        fileTime := Timegm(fileDate);
        fileDate := Gmtime(fileTime);
      }
    }

    method FollowGps(hour: nat, minute: nat, second: nat)
      requires Shape() && !mode.falseGps
      modifies this`reports, this`fileDate, this`fileTime, this`files
      modifies this`seconds, this`pulses, this`lost, rates, rates2, bl, bl2
      ensures var t := FollowWord(mode, old(fileDate), Hms(hour, minute, second));
        && fileDate == t.date && files == old(files) + t.files
        && SumsNow() == SumsAfter(old(SumsNow()), t)
        && reports == ReportsAfter(old(reports), old(SumsNow()), t)
    {
      if fileDate.hour != hour {
        if fileDate.hour > hour {
          fileDate := fileDate.(day := fileDate.day + 1);
        }
        fileDate := fileDate.(hour := hour);
        if !mode.toStdout {
          NewFile();
        }
      }
      fileDate := fileDate.(hour := hour, minute := minute, second := second);
    }

    /** Adds the rates of the second that ends to the sums and starts the next second. */
    method CountSecond()
      requires Shape()
      modifies r, rates, rates2
      ensures rates[..] == Plus(old(rates[..]), old(r[..]))
      ensures rates2[..] == Plus(old(rates2[..]), Squares(old(r[..])))
      ensures r[..] == Zeros(TRIGGER_CLASSES)
    {
      for i := 0 to TRIGGER_CLASSES
        invariant forall k :: 0 <= k < i ==> rates[k] == old(rates[k]) + old(r[k])
        invariant forall k :: 0 <= k < i ==> rates2[k] == old(rates2[k]) + old(r[k]) * old(r[k])
        invariant forall k :: 0 <= k < i ==> r[k] == 0
        invariant forall k :: i <= k < TRIGGER_CLASSES ==>
          rates[k] == old(rates[k]) && rates2[k] == old(rates2[k]) && r[k] == old(r[k])
      {
        rates[i] := rates[i] + r[i];
        rates2[i] := rates2[i] + r[i] * r[i];
        r[i] := 0;
      }
    }

    method OnCoordinate(part: nat, bits: nat)
      requires part < 8 && bits < 0x100_0000
      modifies this`fix, this`lines
      ensures fix == Position(old(fix), Coordinate(part, bits))
      ensures lines == old(lines) + if part == 5 then [LocationLine(fix.lat, fix.lon, fix.height)] else []
    {
      match part
      case 0 => fix := fix.(upperLat := Signed32(bits * 0x100));
      case 1 => fix := fix.(lat := Signed32(fix.upperLat + bits % 0x100) as real / LAT_LON_UNITS);
      case 2 => fix := fix.(upperLon := Signed32(bits * 0x100));
      case 3 => fix := fix.(lon := Signed32(fix.upperLon + bits % 0x100) as real / LAT_LON_UNITS);
      case 4 => fix := fix.(upperHeight := Signed32(bits * 0x100));
      case 5 =>
        fix := fix.(height := Signed32(fix.upperHeight + bits % 0x100) as real / HEIGHT_UNITS);
        lines := lines + [LocationLine(fix.lat, fix.lon, fix.height)];
      case _ =>
    }
  }

  method AllMoments(n: nat, s1: array<int>, s2: array<int>) returns (m: seq<Moment>)
    requires s1.Length == s2.Length
    ensures m == Moments(n, s1[..], s2[..])
  {
    m := [];
    for i := 0 to s1.Length
      invariant m == Moments(n, s1[..], s2[..])[..i]
    {
      m := m + [MomentOf(n, s1[i], s2[i])];
    }
  }

  method Clear(a: array<int>)
    modifies a
    ensures a[..] == Zeros(a.Length)
  {
    for i := 0 to a.Length
      invariant forall k :: 0 <= k < i ==> a[k] == 0
    {
      a[i] := 0;
    }
  }
}

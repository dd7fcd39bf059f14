/** The calendar behind fileTime and fileDate, and the hourly change of file. A calendar
    date is a day number: timegm and gmtime are used only through days of 86400 seconds. */
module Clock {
  import opened Words

  /** struct tm; the fields may be out of range until Gmtime fills them again. */
  datatype Date = Date(day: int, hour: int, minute: int, second: int) {
    predicate Normal() {
      0 <= hour < 24 && 0 <= minute < 60 && 0 <= second < 60
    }
  }

  function Timegm(d: Date): (t: int) {
    d.day * 86400 + d.hour * 3600 + d.minute * 60 + d.second
  }

  function Gmtime(t: int): (d: Date)
    ensures d.Normal() && Timegm(d) == t
  {
    var s := t % 86400;
    var s1 := s % 3600;
    Date(t / 86400, s / 3600, s1 / 60, s1 % 60)
  }

  lemma GmtimeTimegm(d: Date)
    requires d.Normal()
    ensures Gmtime(Timegm(d)) == d
  {
    Unpack(d.day, 86400, d.hour * 3600 + d.minute * 60 + d.second);
    Unpack(d.hour, 3600, d.minute * 60 + d.second);
    Unpack(d.minute, 60, d.second);
  }

  /** toStdout: the -o action, without files. falseGps: no receiver, the time comes from the PC. */
  datatype Mode = Mode(toStdout: bool, falseGps: bool)

  /** The hour, minute and second bytes of a pulse-per-second word. */
  datatype Hms = Hms(hour: nat, minute: nat, second: nat)

  /** The date after a pulse-per-second word, and the date of the file it opens, if it opens one. */
  datatype Tick = Tick(date: Date, files: seq<Date>)

  function NewHour(mode: Mode, d: Date): Tick {
    if mode.toStdout then Tick(d, []) else Tick(Gmtime(Timegm(d)), [Gmtime(Timegm(d))])
  }

  /** Without GPS: one more second. */
  function CountSecondOf(mode: Mode, d: Date): Tick {
    var d1 := d.(second := d.second + 1);
    if d1.second == 60 && d1.minute == 59 then NewHour(mode, d1)
    else Tick(Gmtime(Timegm(d1)), [])
  }

  /** With GPS: the time in the word; a smaller hour means a new day. */
  function FollowWord(mode: Mode, d: Date, w: Hms): Tick {
    var t :=
      if d.hour != w.hour then
        var d1 := if d.hour > w.hour then d.(day := d.day + 1) else d;
        NewHour(mode, d1.(hour := w.hour))
      else Tick(d, []);
    t.(date := t.date.(hour := w.hour, minute := w.minute, second := w.second))
  }

  function Advance(mode: Mode, d: Date, w: Hms): Tick {
    var t := if mode.falseGps then CountSecondOf(mode, d) else FollowWord(mode, d, w);
    t.(date := Gmtime(Timegm(t.date)))
  }

  function AdvanceAll(mode: Mode, d: Date, ws: seq<Hms>): (t: Tick)
    ensures ws != [] ==> t.date.Normal()
    ensures mode.toStdout ==> t.files == []
  {
    if ws == [] then Tick(d, [])
    else
      var before := AdvanceAll(mode, d, ws[..|ws| - 1]);
      var last := Advance(mode, before.date, ws[|ws| - 1]);
      Tick(last.date, before.files + last.files)
  }

  lemma AdvanceAllAppend(mode: Mode, d: Date, ws: seq<Hms>, w: Hms)
    ensures var before := AdvanceAll(mode, d, ws);
      var last := Advance(mode, before.date, w);
      AdvanceAll(mode, d, ws + [w]) == Tick(last.date, before.files + last.files)
  {
    assert (ws + [w])[..|ws|] == ws;
  }

  lemma AtMostOneFile(mode: Mode, d: Date, w: Hms)
    ensures |Advance(mode, d, w).files| <= 1
  {
  }

  // ----- No GPS: seconds are counted

  /** The whole hours in (start, start + n]. */
  function HourStarts(start: int, n: nat): seq<int> {
    if n == 0 then []
    else HourStarts(start, n - 1) + if (start + n) % 3600 == 0 then [start + n] else []
  }

  function Dates(ts: seq<int>): (r: seq<Date>) {
    seq(|ts|, k requires 0 <= k < |ts| => Gmtime(ts[k]))
  }

  lemma LastSecondOfHour(d: Date)
    requires d.Normal()
    ensures (d.minute == 59 && d.second == 59) <==> (Timegm(d) + 1) % 3600 == 0
  {
    assert Timegm(d) + 1 == (d.day * 24 + d.hour) * 3600 + (d.minute * 60 + d.second + 1);
  }

  lemma FalseGpsTick(mode: Mode, d: Date, w: Hms)
    requires mode.falseGps && d.Normal()
    ensures var t := Advance(mode, d, w);
      && t.date == Gmtime(Timegm(d) + 1)
      && t.files ==
         if !mode.toStdout && (Timegm(d) + 1) % 3600 == 0 then [Gmtime(Timegm(d) + 1)] else []
  {
    LastSecondOfHour(d);
    assert Timegm(d.(second := d.second + 1)) == Timegm(d) + 1;
  }

  /** Without GPS the clock counts the words. */
  lemma {:induction false} FalseGpsClock(mode: Mode, d: Date, ws: seq<Hms>)
    requires mode.falseGps && d.Normal()
    ensures AdvanceAll(mode, d, ws).date == Gmtime(Timegm(d) + |ws|)
  {
    if ws == [] {
      GmtimeTimegm(d);
    } else {
      var before := ws[..|ws| - 1];
      FalseGpsClock(mode, d, before);
      FalseGpsTick(mode, AdvanceAll(mode, d, before).date, ws[|ws| - 1]);
    }
  }

  /** Without GPS a file opens exactly on the whole hours. */
  lemma {:induction false} FalseGpsFiles(mode: Mode, d: Date, ws: seq<Hms>)
    requires mode.falseGps && !mode.toStdout && d.Normal()
    ensures AdvanceAll(mode, d, ws).files == Dates(HourStarts(Timegm(d), |ws|))
  {
    if ws != [] {
      var before, t := ws[..|ws| - 1], Timegm(d) + |ws|;
      FalseGpsFiles(mode, d, before);
      FalseGpsClock(mode, d, before);
      assert AdvanceAll(mode, d, before).date == Gmtime(t - 1);
      FalseGpsTick(mode, Gmtime(t - 1), ws[|ws| - 1]);
      DatesAppend(HourStarts(Timegm(d), |before|), if t % 3600 == 0 then [t] else []);
    }
  }

  lemma DatesAppend(a: seq<int>, b: seq<int>)
    ensures Dates(a + b) == Dates(a) + Dates(b)
  {
  }

  // ----- GPS: the words carry the hour, minute and second of the true time

  function Hour(t: int): int { t / 3600 }

  /** What the receiver sends at time t. */
  function HmsOf(t: int): Hms {
    Hms(t % 86400 / 3600, t % 3600 / 60, t % 60)
  }

  lemma HmsIsGmtime(t: int)
    ensures var d := Gmtime(t); HmsOf(t) == Hms(d.hour, d.minute, d.second)
  {
    var d, q := Gmtime(t), t / 86400;
    assert t == q * 86400 + t % 86400;
    assert t == (q * 24 + d.hour) * 3600 + (d.minute * 60 + d.second);
    Unpack(q * 24 + d.hour, 3600, d.minute * 60 + d.second);
    assert t == (q * 1440 + d.hour * 60 + d.minute) * 60 + d.second;
    Unpack(q * 1440 + d.hour * 60 + d.minute, 60, d.second);
    Unpack(d.hour, 3600, d.minute * 60 + d.second);
    Unpack(d.minute, 60, d.second);
  }

  function HmsOfAll(ts: seq<int>): (r: seq<Hms>) {
    seq(|ts|, k requires 0 <= k < |ts| => HmsOf(ts[k]))
  }

  /** The absolute hours that differ from the hour before them. */
  function HourChanges(t0: int, ts: seq<int>): seq<int> {
    if ts == [] then []
    else
      var n := |ts| - 1;
      HourChanges(t0, ts[..n]) + if Hour(ts[n]) != Hour(TimeBefore(t0, ts, n)) then [Hour(ts[n])] else []
  }

  function Hours(ds: seq<Date>): (r: seq<int>) {
    seq(|ds|, k requires 0 <= k < |ds| => Hour(Timegm(ds[k])))
  }

  /** The day that a word is taken to be in: a smaller hour means that midnight has passed. */
  function DayOf(d: Date, w: Hms): int {
    if d.hour > w.hour then d.day + 1 else d.day
  }

  lemma GpsAdvance(mode: Mode, d: Date, w: Hms)
    requires !mode.falseGps && d.Normal() && w.hour < 24 && w.minute < 60 && w.second < 60
    ensures var t := Advance(mode, d, w);
      && t.date == Date(DayOf(d, w), w.hour, w.minute, w.second)
      && t.files == if mode.toStdout || d.hour == w.hour then []
                    else [Date(DayOf(d, w), w.hour, d.minute, d.second)]
  {
    GmtimeTimegm(Date(DayOf(d, w), w.hour, d.minute, d.second));
    GmtimeTimegm(Date(DayOf(d, w), w.hour, w.minute, w.second));
  }

  lemma HourOfDate(d: Date)
    requires d.Normal()
    ensures Hour(Timegm(d)) == d.day * 24 + d.hour
  {
  }

  lemma SameDayIffHourAdvances(t0: int, t1: int)
    ensures DayOf(Gmtime(t0), HmsOf(t1)) == Gmtime(t1).day <==> 0 <= Hour(t1) - Hour(t0) < 24
  {
    HmsIsGmtime(t1);
    HourOfDate(Gmtime(t0));
    HourOfDate(Gmtime(t1));
  }

  /** One word rebuilds the true date exactly when the clock moved on by 0 to 23 hours,
      whatever the two times are. */
  lemma GpsTickExact(mode: Mode, t0: int, t1: int)
    requires !mode.falseGps
    ensures Advance(mode, Gmtime(t0), HmsOf(t1)).date == Gmtime(t1) <==> 0 <= Hour(t1) - Hour(t0) < 24
  {
    HmsIsGmtime(t1);
    GpsAdvance(mode, Gmtime(t0), HmsOf(t1));
    SameDayIffHourAdvances(t0, t1);
  }

  /** Such a word opens a file exactly when the hour changed, and names it after the new hour. */
  lemma GpsTickOpens(mode: Mode, t0: int, t1: int)
    requires !mode.falseGps && !mode.toStdout
    requires 0 <= Hour(t1) - Hour(t0) < 24
    ensures Hours(Advance(mode, Gmtime(t0), HmsOf(t1)).files)
         == if Hour(t1) != Hour(t0) then [Hour(t1)] else []
  {
    var d, w := Gmtime(t0), HmsOf(t1);
    HmsIsGmtime(t1);
    GpsAdvance(mode, d, w);
    SameDayIffHourAdvances(t0, t1);
    HourOfDate(d);
    HourOfDate(Gmtime(t1));
    HourOfDate(Date(DayOf(d, w), w.hour, d.minute, d.second));
  }

  lemma HoursAppend(a: seq<Date>, b: seq<Date>)
    ensures Hours(a + b) == Hours(a) + Hours(b)
  {
  }

  function TimeBefore(t0: int, ts: seq<int>, k: nat): int
    requires k <= |ts|
  {
    if k == 0 then t0 else ts[k - 1]
  }

  /** The absolute hour moves on by 0 to 23 from each word to the next. */
  ghost predicate HoursAdvance(t0: int, ts: seq<int>) {
    forall k :: 0 <= k < |ts| ==> 0 <= Hour(ts[k]) - Hour(TimeBefore(t0, ts, k)) < 24
  }

  lemma HoursAdvancePrefix(t0: int, ts: seq<int>, n: nat)
    requires n <= |ts| && HoursAdvance(t0, ts)
    ensures HoursAdvance(t0, ts[..n])
  {
    forall k | 0 <= k < n
      ensures 0 <= Hour(ts[..n][k]) - Hour(TimeBefore(t0, ts[..n], k)) < 24
    {
      assert TimeBefore(t0, ts[..n], k) == TimeBefore(t0, ts, k);
    }
  }

  /** With GPS words the date follows the true time. */
  lemma {:induction false} GpsDates(mode: Mode, t0: int, ts: seq<int>)
    requires !mode.falseGps
    requires HoursAdvance(t0, ts)
    ensures AdvanceAll(mode, Gmtime(t0), HmsOfAll(ts)).date == Gmtime(TimeBefore(t0, ts, |ts|))
  {
    if ts != [] {
      var n := |ts| - 1;
      HoursAdvancePrefix(t0, ts, n);
      GpsDates(mode, t0, ts[..n]);
      assert HmsOfAll(ts)[..n] == HmsOfAll(ts[..n]);
      GpsTickExact(mode, TimeBefore(t0, ts, n), ts[n]);
    }
  }

  /** With GPS words exactly one file opens for each change of the absolute hour. */
  lemma {:induction false} GpsFiles(mode: Mode, t0: int, ts: seq<int>)
    requires !mode.falseGps && !mode.toStdout
    requires HoursAdvance(t0, ts)
    ensures Hours(AdvanceAll(mode, Gmtime(t0), HmsOfAll(ts)).files) == HourChanges(t0, ts)
  {
    if ts != [] {
      var n := |ts| - 1;
      HoursAdvancePrefix(t0, ts, n);
      GpsDates(mode, t0, ts[..n]);
      GpsFiles(mode, t0, ts[..n]);
      assert HmsOfAll(ts)[..n] == HmsOfAll(ts[..n]);
      var before := AdvanceAll(mode, Gmtime(t0), HmsOfAll(ts[..n]));
      GpsTickOpens(mode, TimeBefore(t0, ts, n), ts[n]);
      HoursAppend(before.files, Advance(mode, before.date, HmsOf(ts[n])).files);
    }
  }
}

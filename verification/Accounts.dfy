/** What the printed metadata adds up to over a whole run of the word machine. */
module Accounts {
  import opened Words
  import opened WordFormat
  import opened Clock
  import opened WordMachine
  import opened Statistics
  import opened Ledger
  import opened Conservation

  function After(mode: Mode, time: int, ws: seq<Word>): (s: State)
    requires forall k :: 0 <= k < |ws| ==> ws[k].Valid()
    ensures s.sums.Valid()
  {
    Run(mode, Start(mode, time), ws)
  }

  // ----- Totals recovered from averages

  /** The total behind a printed average over n values. */
  function Total(m: Moment, n: nat): real {
    if m.NoData? then 0.0 else m.average * n as real
  }

  predicate FullReports(reports: seq<Report>) {
    forall j :: 0 <= j < |reports| ==>
      |reports[j].rates| == TRIGGER_CLASSES && |reports[j].baselines| == CHANNELS
  }

  function ReportedTriggers(reports: seq<Report>, k: nat): real
    requires FullReports(reports) && k < TRIGGER_CLASSES
  {
    if reports == [] then 0.0
    else
      var last := reports[|reports| - 1];
      ReportedTriggers(reports[..|reports| - 1], k) + Total(last.rates[k], last.daqTime)
  }

  function ReportedBaseline(reports: seq<Report>, i: nat): real
    requires FullReports(reports) && i < CHANNELS
  {
    if reports == [] then 0.0
    else
      var last := reports[|reports| - 1];
      ReportedBaseline(reports[..|reports| - 1], i) + Total(last.baselines[i], last.pulses)
  }

  function ReportedLosses(reports: seq<Report>): int {
    if reports == [] then 0
    else ReportedLosses(reports[..|reports| - 1]) + reports[|reports| - 1].lost
  }

  lemma {:induction false} SumConcat(a: seq<int>, b: seq<int>)
    ensures Sum(a + b) == Sum(a) + Sum(b)
  {
    if b == [] {
      assert a + b == a;
    } else {
      SumConcat(a, b[..|b| - 1]);
      assert (a + b)[..|a + b| - 1] == a + b[..|b| - 1];
    }
  }

  lemma CountsConcat(a: seq<seq<nat>>, b: seq<seq<nat>>, k: nat)
    ensures Sum(Counts(a + b, k)) == Sum(Counts(a, k)) + Sum(Counts(b, k))
  {
    assert Counts(a + b, k) == Counts(a, k) + Counts(b, k);
    SumConcat(Counts(a, k), Counts(b, k));
  }

  lemma ChannelConcat(a: seq<seq<int>>, b: seq<seq<int>>, i: nat)
    requires i < CHANNELS && AllPulses(a) && AllPulses(b)
    ensures Sum(Channel(a + b, i)) == Sum(Channel(a, i)) + Sum(Channel(b, i))
  {
    assert Channel(a + b, i) == Channel(a, i) + Channel(b, i);
    SumConcat(Channel(a, i), Channel(b, i));
  }

  lemma TotalOfList(xs: seq<int>)
    ensures Total(MomentOfList(xs), |xs|) == Sum(xs) as real
  {
  }

  lemma {:induction false} CountFlattened(seconds: seq<seq<nat>>, k: nat)
    ensures Sum(Counts(seconds, k)) == multiset(Flatten<nat>(seconds))[k]
  {
    if seconds != [] {
      var before, last := seconds[..|seconds| - 1], seconds[|seconds| - 1];
      CountFlattened(before, k);
      assert seconds == before + [last];
      CountsAppend(before, last, k);
      SumAppend(Counts(before, k), multiset(last)[k]);
    }
  }

  lemma ReportsPrefix(reports: seq<Report>, closed: seq<File>)
    requires ReportsOf(reports, closed) && reports != []
    ensures var n := |reports| - 1;
      && ReportsOf(reports[..n], closed[..n])
      && reports[n] == Summary(closed[n])
  {
  }

  lemma {:induction false} ReportedTriggersAre(reports: seq<Report>, closed: seq<File>, k: nat)
    requires ReportsOf(reports, closed) && k < TRIGGER_CLASSES
    ensures FullReports(reports)
    ensures ReportedTriggers(reports, k) == Sum(Counts(AllOf(closed, SecondsIn), k)) as real
  {
    if reports != [] {
      var n := |reports| - 1;
      ReportsPrefix(reports, closed);
      ReportedTriggersAre(reports[..n], closed[..n], k);
      var a, b := AllOf(closed[..n], SecondsIn), closed[n].seconds;
      TotalOfList(Counts(b, k));
      CountsConcat(a, b, k);
    }
  }

  lemma {:induction false} ReportedBaselineIs(reports: seq<Report>, closed: seq<File>, i: nat)
    requires ReportsOf(reports, closed) && i < CHANNELS
    ensures FullReports(reports)
    ensures AllPulses(AllOf(closed, PulsesIn))
    ensures ReportedBaseline(reports, i) == Sum(Channel(AllOf(closed, PulsesIn), i)) as real
  {
    if reports != [] {
      var n := |reports| - 1;
      ReportsPrefix(reports, closed);
      ReportedBaselineIs(reports[..n], closed[..n], i);
      var a, b := AllOf(closed[..n], PulsesIn), closed[n].pulses;
      TotalOfList(Channel(b, i));
      ChannelConcat(a, b, i);
    }
  }

  lemma {:induction false} ReportedLossesAre(reports: seq<Report>, closed: seq<File>)
    requires ReportsOf(reports, closed)
    ensures ReportedLosses(reports) == |AllOf(closed, LostIn)|
  {
    if reports != [] {
      ReportsPrefix(reports, closed);
      ReportedLossesAre(reports[..|reports| - 1], closed[..|reports| - 1]);
    }
  }

  lemma LedgerTriggers(mode: Mode, date: Date, ws: seq<Word>, k: nat)
    ensures var l := EnterAll(mode, date, ws);
      Sum(Counts(AllOf(l.closed, SecondsIn), k)) + Sum(Counts(l.file.seconds, k)) + multiset(l.pending)[k]
      == multiset(Triggers(ws))[k]
  {
    var l := EnterAll(mode, date, ws);
    TriggersKept(mode, date, ws);
    CountSplit(AllOf(l.closed, SecondsIn), l.file.seconds, l.pending, k);
  }

  lemma CountSplit(a: seq<seq<nat>>, b: seq<seq<nat>>, c: seq<nat>, k: nat)
    ensures Sum(Counts(a, k)) + Sum(Counts(b, k)) + multiset(c)[k] == multiset(Flatten<nat>(a + b) + c)[k]
  {
    CountsConcat(a, b, k);
    CountFlattened(a + b, k);
    CountConcat(Flatten<nat>(a + b), c, k);
  }

  lemma CountConcat(a: seq<nat>, b: seq<nat>, k: nat)
    ensures multiset(a + b)[k] == multiset(a)[k] + multiset(b)[k]
  {
  }

  lemma LedgerPulses(mode: Mode, date: Date, ws: seq<Word>, i: nat)
    requires i < CHANNELS
    requires AllPulses(AllOf(EnterAll(mode, date, ws).closed, PulsesIn))
    requires AllPulses(EnterAll(mode, date, ws).file.pulses)
    ensures var l := EnterAll(mode, date, ws);
      && AllPulses(FirstSamples(ws))
      && Sum(Channel(AllOf(l.closed, PulsesIn), i)) + Sum(Channel(l.file.pulses, i))
         == Sum(Channel(FirstSamples(ws), i))
  {
    var l := EnterAll(mode, date, ws);
    PulsesKept(mode, date, ws);
    ChannelConcat(AllOf(l.closed, PulsesIn), l.file.pulses, i);
  }

  // ----- Main results

  /** For each class: what closed files report, what the open file holds and the current
      second add up to the trigger words received. */
  lemma TriggersConserved(mode: Mode, time: int, ws: seq<Word>, k: nat)
    requires k < TRIGGER_CLASSES && forall j :: 0 <= j < |ws| ==> ws[j].Valid()
    ensures var s := After(mode, time, ws);
      && FullReports(s.reports)
      && ReportedTriggers(s.reports, k) + (s.sums.rates[k] + s.sums.r[k]) as real
         == multiset(Triggers(ws))[k] as real
  {
    MachineRefinesLedger(mode, time, ws);
    ReportedTriggersAre(After(mode, time, ws).reports, EnterAll(mode, Gmtime(time), ws).closed, k);
    LedgerTriggers(mode, Gmtime(time), ws, k);
  }

  /** For each channel: the reported baseline totals and the open file's sum add up to the first
      samples of all pulses. */
  lemma BaselinesConserved(mode: Mode, time: int, ws: seq<Word>, i: nat)
    requires i < CHANNELS && forall j :: 0 <= j < |ws| ==> ws[j].Valid()
    ensures var s := After(mode, time, ws);
      && FullReports(s.reports)
      && AllPulses(FirstSamples(ws))
      && ReportedBaseline(s.reports, i) + s.sums.bl[i] as real == Sum(Channel(FirstSamples(ws), i)) as real
  {
    MachineRefinesLedger(mode, time, ws);
    ReportedBaselineIs(After(mode, time, ws).reports, EnterAll(mode, Gmtime(time), ws).closed, i);
    LedgerPulses(mode, Gmtime(time), ws, i);
  }

  /** Over all files, wherever they change, the losses are the gaps of the counter stream. */
  lemma LossesConserved(mode: Mode, time: int, ws: seq<Word>)
    requires forall j :: 0 <= j < |ws| ==> ws[j].Valid()
    ensures var s := After(mode, time, ws);
      ReportedLosses(s.reports) + s.sums.lost == |Gaps(Counters(ws))|
  {
    var s, l := After(mode, time, ws), EnterAll(mode, Gmtime(time), ws);
    MachineRefinesLedger(mode, time, ws);
    ReportedLossesAre(s.reports, l.closed);
    LostKept(mode, Gmtime(time), ws);
  }

  /** With positive counters the total is last - first + 1 - count, the number of absent values,
      exactly when the counters increase strictly. */
  lemma LossesTelescope(mode: Mode, time: int, ws: seq<Word>)
    requires forall j :: 0 <= j < |ws| ==> ws[j].Valid()
    requires Counters(ws) != [] && Positive(Counters(ws))
    ensures var s, cs := After(mode, time, ws), Counters(ws);
      ReportedLosses(s.reports) + s.sums.lost == cs[|cs| - 1] - cs[0] + 1 - |cs| <==> Increasing(cs)
  {
    LossesConserved(mode, time, ws);
    LossTelescopes(Counters(ws));
  }

  /** At every file close the square roots have an argument that is not negative: each is the
      variance of one list, the per-second counts or the first samples of that file. */
  lemma DeviationsAreVariances(mode: Mode, time: int, ws: seq<Word>, j: nat)
    requires forall n :: 0 <= n < |ws| ==> ws[n].Valid()
    requires j < |After(mode, time, ws).reports|
    ensures var report, l := After(mode, time, ws).reports[j], EnterAll(mode, Gmtime(time), ws);
      && j < |l.closed| && AllPulses(l.closed[j].pulses) && report == Summary(l.closed[j])
      && (forall k :: 0 <= k < TRIGGER_CLASSES ==> NotNegative(report.rates[k]))
      && (forall i :: 0 <= i < CHANNELS ==> NotNegative(report.baselines[i]))
  {
    MachineRefinesLedger(mode, time, ws);
  }

  predicate NotNegative(m: Moment) {
    m.Moment? ==> m.squaredDeviation >= 0.0
  }

  // ----- The clock and the files

  ghost predicate OnTime(s: State, first: seq<Date>, t: Tick) {
    s.date == t.date && s.time == Timegm(t.date) && s.files == first + t.files
  }

  lemma StepOnTime(mode: Mode, s: State, first: seq<Date>, before: Tick, w: Word, after: Tick)
    requires s.sums.Valid() && w.Valid() && OnTime(s, first, before)
    requires w.Pps? ==>
      var last := Advance(mode, before.date, Hms(w.hour, w.minute, w.second));
      after == Tick(last.date, before.files + last.files)
    requires !w.Pps? ==> after == before
    ensures OnTime(Step(mode, s, w), first, after)
  {
  }

  lemma {:induction false} RunOnTime(mode: Mode, time: int, ws: seq<Word>)
    requires forall j :: 0 <= j < |ws| ==> ws[j].Valid()
    ensures OnTime(After(mode, time, ws), Start(mode, time).files,
                   AdvanceAll(mode, Gmtime(time), SecondsOf(ws)))
  {
    if ws != [] {
      var before, w := ws[..|ws| - 1], ws[|ws| - 1];
      RunOnTime(mode, time, before);
      if w.Pps? {
        AdvanceAllAppend(mode, Gmtime(time), SecondsOf(before), Hms(w.hour, w.minute, w.second));
        assert SecondsOf(ws) == SecondsOf(before) + [Hms(w.hour, w.minute, w.second)];
      } else {
        assert SecondsOf(ws) == SecondsOf(before);
      }
      StepOnTime(mode, After(mode, time, before), Start(mode, time).files,
                 AdvanceAll(mode, Gmtime(time), SecondsOf(before)), w,
                 AdvanceAll(mode, Gmtime(time), SecondsOf(ws)));
    }
  }

  /** Without GPS, after n pulse-per-second words, fileTime is start + n and the files opened
      are the first one and one for each whole hour in between. */
  lemma TimeWithoutGps(mode: Mode, time: int, ws: seq<Word>)
    requires mode.falseGps && forall j :: 0 <= j < |ws| ==> ws[j].Valid()
    ensures var s, n := After(mode, time, ws), |SecondsOf(ws)|;
      && s.time == time + n
      && s.files == if mode.toStdout then [] else [Gmtime(time)] + Dates(HourStarts(time, n))
  {
    RunOnTime(mode, time, ws);
    FalseGpsClock(mode, Gmtime(time), SecondsOf(ws));
    if !mode.toStdout {
      FalseGpsFiles(mode, Gmtime(time), SecondsOf(ws));
    }
  }

  /** With GPS words that carry the true times ts, and hours that move on by 0 to 23, fileTime is
      the last true time. */
  lemma TimeWithGps(mode: Mode, time: int, ws: seq<Word>, ts: seq<int>)
    requires !mode.falseGps && forall j :: 0 <= j < |ws| ==> ws[j].Valid()
    requires SecondsOf(ws) == HmsOfAll(ts) && HoursAdvance(time, ts)
    ensures After(mode, time, ws).time == TimeBefore(time, ts, |ts|)
  {
    RunOnTime(mode, time, ws);
    GpsDates(mode, time, ts);
  }

  /** Under the same conditions one file is opened for each change of the true hour, and named
      after the new hour. */
  lemma FilesWithGps(mode: Mode, time: int, ws: seq<Word>, ts: seq<int>)
    requires !mode.falseGps && forall j :: 0 <= j < |ws| ==> ws[j].Valid()
    requires SecondsOf(ws) == HmsOfAll(ts) && HoursAdvance(time, ts)
    ensures Hours(After(mode, time, ws).files)
         == if mode.toStdout then [] else [Hour(time)] + HourChanges(time, ts)
  {
    RunOnTime(mode, time, ws);
    if !mode.toStdout {
      GpsFiles(mode, time, ts);
      FirstFileFirst(time, AdvanceAll(mode, Gmtime(time), SecondsOf(ws)).files);
    }
  }

  lemma FirstFileFirst(time: int, others: seq<Date>)
    ensures Hours([Gmtime(time)] + others) == [Hour(time)] + Hours(others)
  {
    HoursAppend([Gmtime(time)], others);
  }
}

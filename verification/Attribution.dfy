/** Which trigger, pulse and absent counter value belongs to which second and to which file of a
    run of lago_test, by its place in the stream of words. */
module Attribution {
  import opened Words
  import opened WordFormat
  import opened Clock
  import opened WordMachine
  import opened Statistics
  import opened Ledger
  import opened Conservation
  import opened Accounts

  // ----- Seconds

  /** Where the second starts that is under way before word j: behind the last pulse per second. */
  function SecondStart(ws: seq<Word>, j: nat): (i: nat)
    requires j <= |ws|
    ensures i <= j
  {
    if j == 0 then 0 else if ws[j - 1].Pps? then j else SecondStart(ws, j - 1)
  }

  lemma {:induction false} SecondStartPrefix(ws: seq<Word>, n: nat, j: nat)
    requires j <= n <= |ws|
    ensures SecondStart(ws[..n], j) == SecondStart(ws, j)
  {
    if j > 0 {
      SecondStartPrefix(ws, n, j - 1);
    }
  }

  /** The current second holds the triggers since the last pulse per second. */
  lemma {:induction false} PendingHolds(mode: Mode, date: Date, ws: seq<Word>)
    ensures EnterAll(mode, date, ws).pending == Triggers(ws[SecondStart(ws, |ws|)..])
  {
    if ws != [] {
      var n := |ws| - 1;
      PendingHolds(mode, date, ws[..n]);
      SecondStartPrefix(ws, n, n);
      var i := SecondStart(ws, n);
      if !ws[n].Pps? {
        assert ws[i..][..|ws[i..]| - 1] == ws[..n][i..];
      } else {
        assert ws[|ws|..] == [];
      }
    }
  }

  lemma EnterSeconds(mode: Mode, l: Ledger, w: Word)
    ensures AllSeconds(Enter(mode, l, w)) == AllSeconds(l) + if w.Pps? then [l.pending] else []
  {
    if w.Pps? {
      SecondClosesSecond(mode, l, w);
    } else {
      assert AllSeconds(Enter(mode, l, w)) == AllSeconds(l);
    }
  }

  lemma {:induction false} SecondsGrow(mode: Mode, date: Date, ws: seq<Word>, n: nat)
    requires n <= |ws|
    ensures AllSeconds(EnterAll(mode, date, ws[..n])) <= AllSeconds(EnterAll(mode, date, ws))
    decreases |ws| - n
  {
    if n == |ws| {
      assert ws[..n] == ws;
    } else {
      assert ws[..n + 1][..n] == ws[..n];
      EnterSeconds(mode, EnterAll(mode, date, ws[..n]), ws[n]);
      SecondsGrow(mode, date, ws, n + 1);
    }
  }

  /** The second that pulse-per-second word j ends holds exactly the triggers between the pulse
      per second before and this one. */
  lemma SecondHolds(mode: Mode, date: Date, ws: seq<Word>, j: nat)
    requires j < |ws| && ws[j].Pps?
    ensures var seconds, k := AllSeconds(EnterAll(mode, date, ws)), |SecondsOf(ws[..j])|;
      k < |seconds| && seconds[k] == Triggers(ws[SecondStart(ws, j)..j])
  {
    var l := EnterAll(mode, date, ws[..j]);
    assert ws[..j + 1][..j] == ws[..j];
    EnterSeconds(mode, l, ws[j]);
    SecondsGrow(mode, date, ws, j + 1);
    SecondsKept(mode, date, ws[..j]);
    PendingHolds(mode, date, ws[..j]);
    SecondStartPrefix(ws, j, j);
    assert ws[..j][SecondStart(ws, j)..] == ws[SecondStart(ws, j)..j];
  }

  // ----- Files

  /** The number of files that the first n words have closed, by the clock alone. */
  function FilesClosed(mode: Mode, date: Date, ws: seq<Word>, n: nat): nat
    requires n <= |ws|
  {
    |AdvanceAll(mode, date, SecondsOf(ws[..n])).files|
  }

  /** Word i opens file m, or m is the first file and i the start. */
  predicate OpensFile(mode: Mode, date: Date, ws: seq<Word>, i: nat, m: nat)
    requires i < |ws|
  {
    if m == 0 then i == 0
    else FilesClosed(mode, date, ws, i) == m - 1 && FilesClosed(mode, date, ws, i + 1) == m
  }

  lemma ClosedCount(mode: Mode, date: Date, ws: seq<Word>, n: nat)
    requires n <= |ws|
    ensures |EnterAll(mode, date, ws[..n]).closed| == FilesClosed(mode, date, ws, n)
  {
    ClockKept(mode, date, ws[..n]);
  }

  /** A word closes the open file or none. */
  lemma EnterClosed(mode: Mode, l: Ledger, w: Word)
    ensures var closed := Enter(mode, l, w).closed; closed == l.closed || closed == l.closed + [l.file]
  {
  }

  lemma {:induction false} ClosedGrow(mode: Mode, date: Date, ws: seq<Word>, n: nat)
    requires n <= |ws|
    ensures EnterAll(mode, date, ws[..n]).closed <= EnterAll(mode, date, ws).closed
    decreases |ws| - n
  {
    if n == |ws| {
      assert ws[..n] == ws;
    } else {
      assert ws[..n + 1][..n] == ws[..n];
      EnterClosed(mode, EnterAll(mode, date, ws[..n]), ws[n]);
      ClosedGrow(mode, date, ws, n + 1);
    }
  }

  lemma ClosedBetween(mode: Mode, date: Date, ws: seq<Word>, i: nat, n: nat)
    requires i <= n <= |ws|
    ensures EnterAll(mode, date, ws[..i]).closed <= EnterAll(mode, date, ws[..n]).closed
  {
    assert ws[..n][..i] == ws[..i];
    ClosedGrow(mode, date, ws[..n], i);
  }

  /** Word j, which opens the next file, closes the file as it is before. */
  lemma ClosedBy(mode: Mode, date: Date, ws: seq<Word>, j: nat, m: nat)
    requires j < |ws| && OpensFile(mode, date, ws, j, m + 1)
    ensures var l, before := EnterAll(mode, date, ws), EnterAll(mode, date, ws[..j]);
      |before.closed| == m && m < |l.closed| && l.closed[m] == before.file
  {
    ClosedCount(mode, date, ws, j);
    ClosedCount(mode, date, ws, j + 1);
    assert ws[..j + 1][..j] == ws[..j];
    EnterClosed(mode, EnterAll(mode, date, ws[..j]), ws[j]);
    ClosedGrow(mode, date, ws, j + 1);
  }

  /** What was in all files before word i is in the files closed when it opens the next one. */
  lemma ClosedAt(mode: Mode, date: Date, ws: seq<Word>, i: nat, m: nat)
    requires i < |ws| && m > 0 && OpensFile(mode, date, ws, i, m)
    ensures var l, next := EnterAll(mode, date, ws[..i]), EnterAll(mode, date, ws[..i + 1]);
      && |next.closed| == m
      && AllOf(next.closed, SecondsIn) == AllSeconds(l)
      && AllOf(next.closed, PulsesIn) == AllPulsesOf(l)
      && AllOf(next.closed, LostIn) == AllLost(l)
  {
    ClosedCount(mode, date, ws, i);
    ClosedCount(mode, date, ws, i + 1);
    assert ws[..i + 1][..i] == ws[..i];
    var l := EnterAll(mode, date, ws[..i]);
    EnterClosed(mode, l, ws[i]);
    AllOfAppend(l.closed, l.file, SecondsIn);
    AllOfAppend(l.closed, l.file, PulsesIn);
    AllOfAppend(l.closed, l.file, LostIn);
  }

  /** While no other file opens, the open file holds what has been added since. */
  lemma OpenFileHolds(mode: Mode, date: Date, ws: seq<Word>, i: nat, n: nat, m: nat)
    requires i < |ws| && i <= n <= |ws| && (m > 0 ==> i < n)
    requires OpensFile(mode, date, ws, i, m) && FilesClosed(mode, date, ws, n) == m
    ensures var start, l := EnterAll(mode, date, ws[..i]), EnterAll(mode, date, ws[..n]);
      && AllSeconds(l) == AllSeconds(start) + l.file.seconds
      && AllPulsesOf(l) == AllPulsesOf(start) + l.file.pulses
      && AllLost(l) == AllLost(start) + l.file.lost
  {
    ClosedCount(mode, date, ws, n);
    if m == 0 {
      assert ws[..0] == [];
    } else {
      ClosedAt(mode, date, ws, i, m);
      SameClosed(mode, date, ws, i + 1, n);
    }
  }

  lemma SameClosed(mode: Mode, date: Date, ws: seq<Word>, i: nat, n: nat)
    requires i <= n <= |ws|
    requires |EnterAll(mode, date, ws[..i]).closed| == |EnterAll(mode, date, ws[..n]).closed|
    ensures EnterAll(mode, date, ws[..i]).closed == EnterAll(mode, date, ws[..n]).closed
  {
    ClosedBetween(mode, date, ws, i, n);
  }

  /** File m, opened by word i and closed by word j, holds exactly the first samples and the gaps
      of the words from i up to j, and as many seconds as pulses per second; the second that the
      word i ends is the first one of the new file. */
  lemma FileHolds(mode: Mode, date: Date, ws: seq<Word>, i: nat, j: nat, m: nat)
    requires i <= j < |ws| && (m > 0 ==> i < j)
    requires OpensFile(mode, date, ws, i, m) && OpensFile(mode, date, ws, j, m + 1)
    ensures var closed := EnterAll(mode, date, ws).closed;
      && m < |closed|
      && FirstSamples(ws[..j]) == FirstSamples(ws[..i]) + closed[m].pulses
      && Gaps(Counters(ws[..j])) == Gaps(Counters(ws[..i])) + closed[m].lost
      && AllSeconds(EnterAll(mode, date, ws[..j])) == AllSeconds(EnterAll(mode, date, ws[..i])) + closed[m].seconds
      && |closed[m].seconds| == |SecondsOf(ws[..j])| - |SecondsOf(ws[..i])|
  {
    ClosedBy(mode, date, ws, j, m);
    OpenFileHolds(mode, date, ws, i, j, m);
    PulsesKept(mode, date, ws[..i]);
    PulsesKept(mode, date, ws[..j]);
    LostKept(mode, date, ws[..i]);
    LostKept(mode, date, ws[..j]);
    SecondsKept(mode, date, ws[..i]);
    SecondsKept(mode, date, ws[..j]);
  }

  // ----- The metadata of a file

  /** What the metadata of a closed file says, from the lists of that file. */
  lemma ReportSays(mode: Mode, time: int, ws: seq<Word>, m: nat)
    requires forall k :: 0 <= k < |ws| ==> ws[k].Valid()
    requires m < |After(mode, time, ws).reports|
    ensures var report, closed := After(mode, time, ws).reports[m], EnterAll(mode, Gmtime(time), ws).closed;
      && m < |closed| && AllPulses(closed[m].pulses)
      && report.daqTime == |closed[m].seconds|
      && report.pulses == |closed[m].pulses|
      && report.lost == |closed[m].lost|
      && report.lostFraction == (if report.pulses == 0 then -1.0 else report.lost as real / report.pulses as real)
      && |report.rates| == 8 && |report.baselines| == 3
      && (forall k :: 0 <= k < 8 ==> report.rates[k] == MomentOfList(Counts(closed[m].seconds, k)))
      && (forall i :: 0 <= i < 3 ==> report.baselines[i] == MomentOfList(Channel(closed[m].pulses, i)))
  {
    MachineRefinesLedger(mode, time, ws);
  }

  // ----- The length of the files without GPS

  /** How the seconds are spread over the files, n pulses per second after the start. */
  ghost predicate HourlyFiles(l: Ledger, start: int, n: nat) {
    && |l.closed| == (start + n) / 3600 - start / 3600
    && |l.file.seconds| == (if l.closed == [] then n else (start + n) % 3600 + 1)
    && forall m :: 0 <= m < |l.closed| ==> |l.closed[m].seconds| == if m == 0 then 3599 - start % 3600 else 3600
  }

  lemma HourlyStep(mode: Mode, l: Ledger, w: Word, start: int, n: nat)
    requires mode.falseGps && !mode.toStdout && w.Pps?
    requires HourlyFiles(l, start, n) && l.date == Gmtime(start + n)
    ensures HourlyFiles(Enter(mode, l, w), start, n + 1)
  {
    FalseGpsTick(mode, l.date, Hms(w.hour, w.minute, w.second));
    NextHour(start + n);
  }

  lemma NextHour(t: int)
    ensures (t + 1) % 3600 == 0 ==> t % 3600 == 3599 && (t + 1) / 3600 == t / 3600 + 1
    ensures (t + 1) % 3600 != 0 ==> (t + 1) % 3600 == t % 3600 + 1 && (t + 1) / 3600 == t / 3600
  {
  }

  lemma {:induction false} FilesAreHourly(mode: Mode, date: Date, ws: seq<Word>)
    requires mode.falseGps && !mode.toStdout && date.Normal()
    ensures HourlyFiles(EnterAll(mode, date, ws), Timegm(date), |SecondsOf(ws)|)
  {
    if ws != [] {
      var before, w := ws[..|ws| - 1], ws[|ws| - 1];
      FilesAreHourly(mode, date, before);
      if w.Pps? {
        ClockKept(mode, date, before);
        FalseGpsClock(mode, date, SecondsOf(before));
        HourlyStep(mode, EnterAll(mode, date, before), w, Timegm(date), |SecondsOf(before)|);
      }
    }
  }

  /** Without GPS the metadata of every file but the first says 3600 seconds; the first file has
      those up to the first whole hour. */
  lemma DaqTimes(mode: Mode, time: int, ws: seq<Word>, m: nat)
    requires mode.falseGps && !mode.toStdout && forall k :: 0 <= k < |ws| ==> ws[k].Valid()
    requires m < |After(mode, time, ws).reports|
    ensures After(mode, time, ws).reports[m].daqTime == if m == 0 then 3599 - time % 3600 else 3600
    ensures |After(mode, time, ws).reports| == (time + |SecondsOf(ws)|) / 3600 - time / 3600
  {
    ReportSays(mode, time, ws, m);
    MachineRefinesLedger(mode, time, ws);
    FilesAreHourly(mode, Gmtime(time), ws);
  }
}

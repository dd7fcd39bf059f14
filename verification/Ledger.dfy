/** The word machine with lists instead of sums: which trigger belongs to which second of which
    file, which pulse and which absent counter value to which file. The lists are what the
    printed averages and deviations are about; WordMachine.Step keeps only their sums. */
module Ledger {
  import opened Words
  import opened WordFormat
  import opened Clock
  import opened WordMachine
  import opened Statistics

  /** One data file: the trigger conditions of each second, the first sample of each pulse,
      the counter values that are absent. */
  datatype File = File(seconds: seq<seq<nat>>, pulses: seq<seq<int>>, lost: seq<int>)

  datatype Ledger = Ledger(
    closed: seq<File>, file: File, pending: seq<nat>, first: bool, last: int, date: Date)

  /** The integers strictly between a and b, in order. */
  function Between(a: int, b: int): (r: seq<int>)
    ensures |r| == if b - a - 1 > 0 then b - a - 1 else 0
    ensures forall k :: 0 <= k < |r| ==> r[k] == a + 1 + k
  {
    seq(if b - a - 1 > 0 then b - a - 1 else 0, k => a + 1 + k)
  }

  function Enter(mode: Mode, l: Ledger, w: Word): Ledger {
    match w
    case Sample(a, b, c) =>
      if l.first then l.(file := l.file.(pulses := l.file.pulses + [[a, b, c]]), first := false) else l
    case Trigger(k, _) => l.(pending := l.pending + [k], first := true)
    case Counter(n) =>
      l.(file := l.file.(lost := l.file.lost + if l.last != 0 then Between(l.last, n) else []), last := n)
    case Pps(h, m, s) =>
      var t := Advance(mode, l.date, Hms(h, m, s));
      var l1 := if t.files == [] then l else l.(closed := l.closed + [l.file], file := File([], [], []));
      l1.(file := l1.file.(seconds := l1.file.seconds + [l.pending]), pending := [], date := t.date)
    case _ => l
  }

  function EnterAll(mode: Mode, date: Date, ws: seq<Word>): Ledger {
    if ws == [] then Ledger([], File([], [], []), [], true, 0, date)
    else Enter(mode, EnterAll(mode, date, ws[..|ws| - 1]), ws[|ws| - 1])
  }

  // ----- What the metadata of a file should say

  function Counts(seconds: seq<seq<nat>>, k: nat): (r: seq<int>)
    ensures |r| == |seconds|
  {
    seq(|seconds|, j requires 0 <= j < |seconds| => multiset(seconds[j])[k])
  }

  predicate AllPulses(pulses: seq<seq<int>>) {
    forall j :: 0 <= j < |pulses| ==> |pulses[j]| == CHANNELS
  }

  function Channel(pulses: seq<seq<int>>, i: nat): (r: seq<int>)
    requires i < CHANNELS && AllPulses(pulses)
    ensures |r| == |pulses|
  {
    seq(|pulses|, j requires 0 <= j < |pulses| => pulses[j][i])
  }

  function MomentOfList(xs: seq<int>): Moment {
    if xs == [] then NoData else Moment(Mean(xs), Variance(xs))
  }

  function Summary(f: File): Report
    requires AllPulses(f.pulses)
  {
    Report(
      seq(TRIGGER_CLASSES, k requires 0 <= k < TRIGGER_CLASSES => MomentOfList(Counts(f.seconds, k))),
      seq(CHANNELS, i requires 0 <= i < CHANNELS => MomentOfList(Channel(f.pulses, i))),
      |f.seconds|, |f.pulses|, |f.lost|,
      if f.pulses == [] then -1.0 else |f.lost| as real / |f.pulses| as real)
  }

  // ----- The sums are the sums of the lists

  ghost predicate SumsOf(s: Sums, l: Ledger)
    requires s.Valid()
  {
    && SumsOfFile(s, l.file)
    && (forall k :: 0 <= k < TRIGGER_CLASSES ==> s.r[k] == multiset(l.pending)[k])
    && s.pulseCount == l.last
    && (s.binIndex == 0 <==> l.first)
  }

  ghost predicate SumsOfFile(s: Sums, f: File)
    requires s.Valid()
  {
    && AllPulses(f.pulses)
    && s.seconds == |f.seconds| && s.pulses == |f.pulses| && s.lost == |f.lost|
    && (forall k :: 0 <= k < TRIGGER_CLASSES ==> s.rates[k] == Sum(Counts(f.seconds, k)))
    && (forall k :: 0 <= k < TRIGGER_CLASSES ==> s.rates2[k] == SumOfSquares(Counts(f.seconds, k)))
    && (forall i :: 0 <= i < CHANNELS ==> s.bl[i] == Sum(Channel(f.pulses, i)))
    && (forall i :: 0 <= i < CHANNELS ==> s.bl2[i] == SumOfSquares(Channel(f.pulses, i)))
  }

  ghost predicate ReportsOf(reports: seq<Report>, closed: seq<File>) {
    && |reports| == |closed|
    && forall j :: 0 <= j < |closed| ==> AllPulses(closed[j].pulses) && reports[j] == Summary(closed[j])
  }

  ghost predicate Keeps(s: State, l: Ledger)
    requires s.sums.Valid()
  {
    s.date == l.date && SumsOf(s.sums, l) && ReportsOf(s.reports, l.closed)
  }

  lemma MomentOfSums(xs: seq<int>)
    ensures MomentOf(|xs|, Sum(xs), SumOfSquares(xs)) == MomentOfList(xs)
  {
    if xs != [] {
      VarianceFromSums(xs);
    }
  }

  lemma ReportIsSummary(s: Sums, f: File)
    requires s.Valid() && SumsOfFile(s, f)
    ensures ReportOf(s) == Summary(f)
  {
    forall k | 0 <= k < TRIGGER_CLASSES
      ensures MomentOf(s.seconds, s.rates[k], s.rates2[k]) == MomentOfList(Counts(f.seconds, k))
    {
      MomentOfSums(Counts(f.seconds, k));
    }
    forall i | 0 <= i < CHANNELS
      ensures MomentOf(s.pulses, s.bl[i], s.bl2[i]) == MomentOfList(Channel(f.pulses, i))
    {
      MomentOfSums(Channel(f.pulses, i));
    }
    assert Moments(s.seconds, s.rates, s.rates2) == Summary(f).rates;
    assert Moments(s.pulses, s.bl, s.bl2) == Summary(f).baselines;
  }

  lemma CountsAppend(seconds: seq<seq<nat>>, sec: seq<nat>, k: nat)
    ensures Counts(seconds + [sec], k) == Counts(seconds, k) + [multiset(sec)[k]]
  {
  }

  lemma ChannelAppend(pulses: seq<seq<int>>, p: seq<int>, i: nat)
    requires i < CHANNELS && AllPulses(pulses) && |p| == CHANNELS
    ensures Channel(pulses + [p], i) == Channel(pulses, i) + [p[i]]
  {
  }

  lemma SampleKeeps(s: Sums, l: Ledger, mode: Mode, w: Word)
    requires s.Valid() && SumsOf(s, l) && w.Sample?
    ensures SumsOf(AddSample(s, w), Enter(mode, l, w))
  {
    if l.first {
      var p: seq<int> := [w.ch1, w.ch2, w.ch3];
      forall i | 0 <= i < CHANNELS
        ensures Channel(l.file.pulses + [p], i) == Channel(l.file.pulses, i) + [p[i]]
        ensures Sum(Channel(l.file.pulses + [p], i)) == Sum(Channel(l.file.pulses, i)) + p[i]
        ensures SumOfSquares(Channel(l.file.pulses + [p], i))
             == SumOfSquares(Channel(l.file.pulses, i)) + p[i] * p[i]
      {
        ChannelAppend(l.file.pulses, p, i);
        SumAppend(Channel(l.file.pulses, i), p[i]);
      }
    }
  }

  lemma TriggerKeeps(s: Sums, l: Ledger, mode: Mode, w: Word)
    requires s.Valid() && SumsOf(s, l) && w.Trigger? && w.Valid()
    ensures SumsOf(AddTrigger(s, w), Enter(mode, l, w))
  {
  }

  lemma CounterKeeps(s: Sums, l: Ledger, mode: Mode, w: Word)
    requires s.Valid() && SumsOf(s, l) && w.Counter?
    ensures SumsOf(AddCounter(s, w), Enter(mode, l, w))
  {
  }

  lemma EndSecondKeeps(s: Sums, f: File, pending: seq<nat>)
    requires s.Valid() && SumsOfFile(s, f)
    requires forall k :: 0 <= k < TRIGGER_CLASSES ==> s.r[k] == multiset(pending)[k]
    ensures SumsOfFile(EndSecond(s), f.(seconds := f.seconds + [pending]))
  {
    forall k | 0 <= k < TRIGGER_CLASSES
      ensures Sum(Counts(f.seconds + [pending], k)) == Sum(Counts(f.seconds, k)) + s.r[k]
      ensures SumOfSquares(Counts(f.seconds + [pending], k))
           == SumOfSquares(Counts(f.seconds, k)) + s.r[k] * s.r[k]
    {
      CountsAppend(f.seconds, pending, k);
      SumAppend(Counts(f.seconds, k), s.r[k]);
    }
  }

  lemma ResetKeeps(s: Sums)
    requires s.Valid()
    ensures SumsOfFile(Reset(s), File([], [], []))
  {
  }

  lemma SecondKeeps(mode: Mode, s: State, l: Ledger, w: Word)
    requires s.sums.Valid() && Keeps(s, l) && w.Pps?
    ensures Keeps(Second(mode, s, w), Enter(mode, l, w))
  {
    var t := Advance(mode, s.date, Hms(w.hour, w.minute, w.second));
    if t.files == [] {
      EndSecondKeeps(s.sums, l.file, l.pending);
    } else {
      ReportIsSummary(s.sums, l.file);
      ResetKeeps(s.sums);
      EndSecondKeeps(Reset(s.sums), File([], [], []), l.pending);
    }
  }

  lemma StepKeeps(mode: Mode, s: State, l: Ledger, w: Word)
    requires s.sums.Valid() && Keeps(s, l) && w.Valid()
    ensures Keeps(Step(mode, s, w), Enter(mode, l, w))
  {
    match w
    case Sample(_, _, _) => SampleKeeps(s.sums, l, mode, w);
    case Trigger(_, _) => TriggerKeeps(s.sums, l, mode, w);
    case Counter(_) => CounterKeeps(s.sums, l, mode, w);
    case Pps(_, _, _) => SecondKeeps(mode, s, l, w);
    case _ =>
  }

  /** The sums are those of the lists after every run, and every metadata report holds the
      exact averages and variances of the lists of its file. */
  lemma {:induction false} MachineRefinesLedger(mode: Mode, time: int, ws: seq<Word>)
    requires forall k :: 0 <= k < |ws| ==> ws[k].Valid()
    ensures Keeps(Run(mode, Start(mode, time), ws), EnterAll(mode, Gmtime(time), ws))
  {
    if ws != [] {
      MachineRefinesLedger(mode, time, ws[..|ws| - 1]);
      StepKeeps(mode, Run(mode, Start(mode, time), ws[..|ws| - 1]),
                EnterAll(mode, Gmtime(time), ws[..|ws| - 1]), ws[|ws| - 1]);
    }
  }
}

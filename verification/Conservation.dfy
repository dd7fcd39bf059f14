/** What the ledger, and so the program, keeps of the word stream: every trigger, every pulse and
    every absent counter value once, in order, over all the files of a run. */
module Conservation {
  import opened Words
  import opened WordFormat
  import opened Clock
  import opened WordMachine
  import opened Statistics
  import opened Ledger

  // ----- The stream, read directly

  /** The conditions of the trigger words, in order. */
  function Triggers(ws: seq<Word>): seq<nat> {
    if ws == [] then []
    else
      var w := ws[|ws| - 1];
      Triggers(ws[..|ws| - 1]) + if w.Trigger? then [w.condition] else []
  }

  /** Word k is the first sample since the last trigger, or since the start. */
  ghost predicate FirstSample(ws: seq<Word>, k: nat)
    requires k < |ws|
  {
    ws[k].Sample? && forall j :: 0 <= j < k && ws[j].Sample? ==> TriggerBetween(ws, j, k)
  }

  ghost predicate TriggerBetween(ws: seq<Word>, j: nat, k: nat)
    requires k <= |ws|
  {
    exists t :: j < t < k && ws[t].Trigger?
  }

  ghost function FirstSamples(ws: seq<Word>): seq<seq<int>> {
    if ws == [] then []
    else
      var n := |ws| - 1;
      FirstSamples(ws[..n])
      + if FirstSample(ws, n) then [[ws[n].ch1, ws[n].ch2, ws[n].ch3]] else []
  }

  function Counters(ws: seq<Word>): seq<int> {
    if ws == [] then []
    else
      var w := ws[|ws| - 1];
      Counters(ws[..|ws| - 1]) + if w.Counter? then [w.count] else []
  }

  function SecondsOf(ws: seq<Word>): seq<Hms> {
    if ws == [] then []
    else
      var w := ws[|ws| - 1];
      SecondsOf(ws[..|ws| - 1]) + if w.Pps? then [Hms(w.hour, w.minute, w.second)] else []
  }

  // ----- Over all files

  function AllOf<T>(closed: seq<File>, part: File -> seq<T>): seq<T> {
    if closed == [] then [] else AllOf(closed[..|closed| - 1], part) + part(closed[|closed| - 1])
  }

  function SecondsIn(f: File): seq<seq<nat>> { f.seconds }

  function PulsesIn(f: File): seq<seq<int>> { f.pulses }

  function LostIn(f: File): seq<int> { f.lost }

  function AllSeconds(l: Ledger): seq<seq<nat>> {
    AllOf(l.closed, SecondsIn) + l.file.seconds
  }

  function AllPulsesOf(l: Ledger): seq<seq<int>> {
    AllOf(l.closed, PulsesIn) + l.file.pulses
  }

  function AllLost(l: Ledger): seq<int> {
    AllOf(l.closed, LostIn) + l.file.lost
  }

  function Flatten<T>(xs: seq<seq<T>>): seq<T> {
    if xs == [] then [] else Flatten(xs[..|xs| - 1]) + xs[|xs| - 1]
  }

  lemma FlattenAppend<T>(xs: seq<seq<T>>, x: seq<T>)
    ensures Flatten(xs + [x]) == Flatten(xs) + x
  {
    assert (xs + [x])[..|xs|] == xs;
  }

  lemma AllOfAppend<T>(closed: seq<File>, f: File, part: File -> seq<T>)
    ensures AllOf(closed + [f], part) == AllOf(closed, part) + part(f)
  {
    assert (closed + [f])[..|closed|] == closed;
  }

  /** Closing a file moves its lists and loses nothing. */
  lemma CloseKeepsAll(l: Ledger)
    ensures var l1 := l.(closed := l.closed + [l.file], file := File([], [], []));
      AllSeconds(l1) == AllSeconds(l) && AllPulsesOf(l1) == AllPulsesOf(l) && AllLost(l1) == AllLost(l)
  {
    AllOfAppend(l.closed, l.file, SecondsIn);
    AllOfAppend(l.closed, l.file, PulsesIn);
    AllOfAppend(l.closed, l.file, LostIn);
  }

  lemma SecondClosesSecond(mode: Mode, l: Ledger, w: Word)
    requires w.Pps?
    ensures var l1 := Enter(mode, l, w);
      && AllSeconds(l1) == AllSeconds(l) + [l.pending]
      && AllPulsesOf(l1) == AllPulsesOf(l) && AllLost(l1) == AllLost(l)
      && l1.pending == [] && l1.last == l.last && l1.first == l.first
  {
    CloseKeepsAll(l);
  }

  /** The triggers that have been entered, in order. */
  function AllTriggers(l: Ledger): seq<nat> {
    Flatten<nat>(AllSeconds(l)) + l.pending
  }

  lemma EnterTrigger(mode: Mode, l: Ledger, w: Word)
    ensures AllTriggers(Enter(mode, l, w)) == AllTriggers(l) + if w.Trigger? then [w.condition] else []
  {
    if w.Pps? {
      SecondClosesSecond(mode, l, w);
      FlattenAppend<nat>(AllSeconds(l), l.pending);
    } else {
      assert AllSeconds(Enter(mode, l, w)) == AllSeconds(l);
    }
  }

  /** Every trigger word is in exactly one second of one file, or pending; the order is kept. */
  lemma {:induction false} TriggersKept(mode: Mode, date: Date, ws: seq<Word>)
    ensures var l := EnterAll(mode, date, ws);
      Flatten<nat>(AllSeconds(l)) + l.pending == Triggers(ws)
  {
    if ws != [] {
      var before := ws[..|ws| - 1];
      TriggersKept(mode, date, before);
      EnterTrigger(mode, EnterAll(mode, date, before), ws[|ws| - 1]);
    }
  }

  /** The ledger's clock is the clock fed with the pulse-per-second words, and a metadata file
      is closed for each data file that the clock opens. */
  ghost predicate FollowsClock(l: Ledger, t: Tick) {
    l.date == t.date && |l.closed| == |t.files|
  }

  lemma EnterFollowsClock(mode: Mode, l: Ledger, before: Tick, w: Word, after: Tick)
    requires FollowsClock(l, before)
    requires w.Pps? ==>
      var last := Advance(mode, before.date, Hms(w.hour, w.minute, w.second));
      after == Tick(last.date, before.files + last.files)
    requires !w.Pps? ==> after == before
    ensures FollowsClock(Enter(mode, l, w), after)
  {
    if w.Pps? {
      AtMostOneFile(mode, before.date, Hms(w.hour, w.minute, w.second));
    }
  }

  lemma {:induction false} ClockKept(mode: Mode, date: Date, ws: seq<Word>)
    ensures FollowsClock(EnterAll(mode, date, ws), AdvanceAll(mode, date, SecondsOf(ws)))
  {
    if ws != [] {
      var before, w := ws[..|ws| - 1], ws[|ws| - 1];
      ClockKept(mode, date, before);
      if w.Pps? {
        AdvanceAllAppend(mode, date, SecondsOf(before), Hms(w.hour, w.minute, w.second));
        assert SecondsOf(ws) == SecondsOf(before) + [Hms(w.hour, w.minute, w.second)];
      } else {
        assert SecondsOf(ws) == SecondsOf(before);
      }
      EnterFollowsClock(mode, EnterAll(mode, date, before), AdvanceAll(mode, date, SecondsOf(before)), w,
                        AdvanceAll(mode, date, SecondsOf(ws)));
    }
  }

  /** Every pulse-per-second word ends one second of one file. */
  lemma {:induction false} SecondsKept(mode: Mode, date: Date, ws: seq<Word>)
    ensures |AllSeconds(EnterAll(mode, date, ws))| == |SecondsOf(ws)|
  {
    if ws != [] {
      var before, w := ws[..|ws| - 1], ws[|ws| - 1];
      SecondsKept(mode, date, before);
      if w.Pps? {
        SecondClosesSecond(mode, EnterAll(mode, date, before), w);
      }
    }
  }

  /** The pulses of all files are the first samples after the triggers. */
  lemma {:induction false} PulsesKept(mode: Mode, date: Date, ws: seq<Word>)
    ensures var l := EnterAll(mode, date, ws);
      && AllPulsesOf(l) == FirstSamples(ws)
      && (l.first <==> forall j :: 0 <= j < |ws| && ws[j].Sample? ==> TriggerBetween(ws, j, |ws|))
  {
    if ws != [] {
      var n := |ws| - 1;
      var before, w := ws[..n], ws[n];
      var l := EnterAll(mode, date, before);
      PulsesKept(mode, date, before);
      forall j | 0 <= j < n
        ensures TriggerBetween(before, j, n) <==> TriggerBetween(ws, j, n)
        ensures TriggerBetween(ws, j, n + 1) <==> TriggerBetween(ws, j, n) || w.Trigger?
      {
        assert forall t :: j < t < n ==> before[t] == ws[t];
        assert w.Trigger? ==> TriggerBetween(ws, j, n + 1) by {
          assert j < n < n + 1;
        }
      }
      assert !TriggerBetween(ws, n, n + 1);
      if w.Pps? {
        SecondClosesSecond(mode, l, w);
      }
    }
  }

  // ----- Absent counter values

  /** The values missing between consecutive counters; a counter of 0 hides the gap after it. */
  function Gaps(cs: seq<int>): seq<int> {
    if cs == [] then []
    else
      var n := |cs| - 1;
      Gaps(cs[..n]) + if n > 0 && cs[n - 1] != 0 then Between(cs[n - 1], cs[n]) else []
  }

  lemma EnterLost(mode: Mode, l: Ledger, w: Word)
    ensures var l1 := Enter(mode, l, w);
      && AllLost(l1) == AllLost(l) + (if w.Counter? && l.last != 0 then Between(l.last, w.count) else [])
      && l1.last == if w.Counter? then w.count else l.last
  {
    if w.Pps? {
      SecondClosesSecond(mode, l, w);
    }
  }

  function LastOr(cs: seq<int>, none: int): int {
    if cs == [] then none else cs[|cs| - 1]
  }

  lemma GapsAppend(cs: seq<int>, c: int)
    ensures Gaps(cs + [c]) == Gaps(cs) + if LastOr(cs, 0) != 0 then Between(LastOr(cs, 0), c) else []
  {
    assert (cs + [c])[..|cs|] == cs;
  }

  /** The losses of all files are the gaps of the whole counter stream, wherever files change. */
  lemma {:induction false} LostKept(mode: Mode, date: Date, ws: seq<Word>)
    ensures var l := EnterAll(mode, date, ws);
      AllLost(l) == Gaps(Counters(ws)) && l.last == LastOr(Counters(ws), 0)
  {
    if ws != [] {
      var before, w := ws[..|ws| - 1], ws[|ws| - 1];
      LostKept(mode, date, before);
      EnterLost(mode, EnterAll(mode, date, before), w);
      if w.Counter? {
        GapsAppend(Counters(before), w.count);
        assert Counters(ws) == Counters(before) + [w.count];
      } else {
        assert Counters(ws) == Counters(before);
      }
    }
  }

  ghost predicate Positive(cs: seq<int>) {
    forall k :: 0 <= k < |cs| ==> cs[k] > 0
  }

  ghost predicate Increasing(cs: seq<int>) {
    forall k :: 0 < k < |cs| ==> cs[k - 1] < cs[k]
  }

  /** For positive counters the total loss telescopes to last - first + 1 - count exactly when
      the counters increase strictly; a counter that falls back makes it larger. */
  lemma {:induction false} LossTelescopes(cs: seq<int>)
    requires cs != [] && Positive(cs)
    ensures |Gaps(cs)| >= cs[|cs| - 1] - cs[0] + 1 - |cs|
    ensures |Gaps(cs)| == cs[|cs| - 1] - cs[0] + 1 - |cs| <==> Increasing(cs)
  {
    var n := |cs| - 1;
    if n == 0 {
      assert Gaps(cs[..n]) == [];
    } else {
      var before := cs[..n];
      LossTelescopes(before);
      assert Increasing(cs) <==> Increasing(before) && cs[n - 1] < cs[n];
    }
  }

  lemma {:induction false} IncreasingIsSorted(cs: seq<int>, j: nat, k: nat)
    requires Increasing(cs) && j < k < |cs|
    ensures cs[j] < cs[k]
    decreases k - j
  {
    if j + 1 < k {
      IncreasingIsSorted(cs, j + 1, k);
    }
  }

  lemma BetweenIs(a: int, b: int, v: int)
    ensures v in Between(a, b) <==> a < v < b
  {
    if a < v < b {
      assert Between(a, b)[v - a - 1] == v;
    }
  }

  lemma SortedMembers(cs: seq<int>, v: int)
    requires cs != [] && Increasing(cs) && v in cs
    ensures cs[0] <= v <= cs[|cs| - 1]
  {
    var k :| 0 <= k < |cs| && cs[k] == v;
    if 0 < k {
      IncreasingIsSorted(cs, 0, k);
    }
    if k < |cs| - 1 {
      IncreasingIsSorted(cs, k, |cs| - 1);
    }
  }

  lemma InGaps(cs: seq<int>, v: int)
    requires |cs| >= 2 && Positive(cs)
    ensures var n := |cs| - 1;
      v in Gaps(cs) <==> v in Gaps(cs[..n]) || cs[n - 1] < v < cs[n]
  {
    BetweenIs(cs[|cs| - 2], cs[|cs| - 1], v);
  }

  lemma InLonger(cs: seq<int>, v: int)
    requires cs != []
    ensures var n := |cs| - 1;
      v in cs <==> v in cs[..n] || v == cs[n]
  {
    assert cs == cs[..|cs| - 1] + [cs[|cs| - 1]];
  }

  /** The earlier counters lie between the first and the one before the last. */
  lemma Bounded(cs: seq<int>, v: int)
    requires cs != [] && Increasing(cs)
    ensures cs[0] <= cs[|cs| - 1] && (v in cs ==> cs[0] <= v <= cs[|cs| - 1])
    ensures v == cs[|cs| - 1] ==> v in cs
  {
    SortedMembers(cs, cs[0]);
    if v in cs {
      SortedMembers(cs, v);
    }
  }

  /** The values counted as lost are exactly the absent ones. */
  lemma {:induction false} LostIsAbsent(cs: seq<int>, v: int)
    requires cs != [] && Positive(cs) && Increasing(cs)
    ensures v in Gaps(cs) <==> cs[0] < v < cs[|cs| - 1] && v !in cs
  {
    var n := |cs| - 1;
    if n == 0 {
      assert Gaps(cs[..n]) == [];
    } else {
      LostIsAbsent(cs[..n], v);
      AbsentStep(cs, v);
    }
  }

  lemma AbsentStep(cs: seq<int>, v: int)
    requires |cs| >= 2 && Positive(cs) && Increasing(cs)
    ensures var before, last := cs[..|cs| - 1], cs[|cs| - 2];
      (v in Gaps(before) <==> cs[0] < v < last && v !in before) ==>
      (v in Gaps(cs) <==> cs[0] < v < cs[|cs| - 1] && v !in cs)
  {
    InGaps(cs, v);
    InLonger(cs, v);
    Bounded(cs[..|cs| - 1], v);
  }

  /** The losses at the end of the list lie between the last two counters. */
  lemma GapAt(cs: seq<int>, i: nat)
    requires Positive(cs) && i < |Gaps(cs)|
    ensures var n := |cs| - 1; var g := |Gaps(cs[..n])|;
      if i < g then Gaps(cs)[i] == Gaps(cs[..n])[i]
      else n > 0 && Gaps(cs)[i] == cs[n - 1] + 1 + (i - g)
  {
  }

  lemma EarlierGapSmaller(cs: seq<int>, i: nat)
    requires Positive(cs) && Increasing(cs) && i < |Gaps(cs)|
    ensures cs != [] && Gaps(cs)[i] < cs[|cs| - 1]
  {
    assert Gaps(cs)[i] in Gaps(cs);
    LostIsAbsent(cs, Gaps(cs)[i]);
  }

  /** No absent value is counted twice: the losses are listed in increasing order. */
  lemma {:induction false} LostOnce(cs: seq<int>, i: nat, j: nat)
    requires Positive(cs) && Increasing(cs) && i < j < |Gaps(cs)|
    ensures Gaps(cs)[i] < Gaps(cs)[j]
  {
    var n := |cs| - 1;
    var before := cs[..n];
    var g := |Gaps(before)|;
    GapAt(cs, i);
    GapAt(cs, j);
    if j < g {
      LostOnce(before, i, j);
    } else if i < g {
      EarlierGapSmaller(before, i);
    }
  }
}

/** lago_test from the first byte to the last report: what the acquisition loop decodes, and what
    the metadata files then say about it. */
module Acquisition {
  import opened Words
  import opened WordFormat
  import opened StreamSpec
  import opened Clock
  import opened WordMachine
  import opened Statistics
  import opened Ledger
  import opened Conservation
  import opened Accounts
  import opened FrontEnd
  import StreamReader

  /** The words that the program makes of the blocks of some calls. */
  ghost function WordsOf(calls: seq<StreamReader.Call>): (ws: seq<Word>)
    ensures forall k :: 0 <= k < |ws| ==> ws[k].Valid()
  {
    DecodeAll(Decoded(StreamReader.BlocksOf(calls)))
  }

  /** Every trigger and every counter gap in the blocks read is accounted for: reported in a
      closed file, held for the open one, or counted in the current second. */
  ghost predicate Accounted(s: State, ws: seq<Word>) {
    && s.sums.Valid() && FullReports(s.reports) && AllPulses(FirstSamples(ws))
    && (forall k: nat :: k < TRIGGER_CLASSES ==>
          ReportedTriggers(s.reports, k) + (s.sums.rates[k] + s.sums.r[k]) as real
          == multiset(Triggers(ws))[k] as real)
    && (forall i: nat :: i < CHANNELS ==>
          ReportedBaseline(s.reports, i) + s.sums.bl[i] as real == Sum(Channel(FirstSamples(ws), i)) as real)
    && ReportedLosses(s.reports) + s.sums.lost == |Gaps(Counters(ws))|
    && forall j :: 0 <= j < |s.reports| ==>
         (forall k :: 0 <= k < TRIGGER_CLASSES ==> NotNegative(s.reports[j].rates[k])) &&
         (forall i :: 0 <= i < CHANNELS ==> NotNegative(s.reports[j].baselines[i]))
  }

  /** The accounts hold for the bytes of every run of the acquisition loop. */
  lemma BlocksAccounted(mode: Mode, time: int, calls: seq<StreamReader.Call>)
    ensures Accounted(After(mode, time, WordsOf(calls)), WordsOf(calls))
  {
    var ws := WordsOf(calls);
    var s := After(mode, time, ws);
    TriggersConserved(mode, time, ws, 0);
    BaselinesConserved(mode, time, ws, 0);
    forall k: nat | k < TRIGGER_CLASSES
      ensures ReportedTriggers(s.reports, k) + (s.sums.rates[k] + s.sums.r[k]) as real
           == multiset(Triggers(ws))[k] as real
    {
      TriggersConserved(mode, time, ws, k);
    }
    forall i: nat | i < CHANNELS
      ensures ReportedBaseline(s.reports, i) + s.sums.bl[i] as real == Sum(Channel(FirstSamples(ws), i)) as real
    {
      BaselinesConserved(mode, time, ws, i);
    }
    LossesConserved(mode, time, ws);
    forall j | 0 <= j < |s.reports|
      ensures forall k :: 0 <= k < TRIGGER_CLASSES ==> NotNegative(s.reports[j].rates[k])
      ensures forall i :: 0 <= i < CHANNELS ==> NotNegative(s.reports[j].baselines[i])
    {
      DeviationsAreVariances(mode, time, ws, j);
    }
  }

  /** From the front end to the files: when the blocks carry encoded words behind a marker that is
      found, the accounts are those of the words sent. */
  lemma SentAccounted(mode: Mode, time: int, calls: seq<StreamReader.Call>, e: nat, ws: seq<Word>)
    requires forall k :: 0 <= k < |ws| ==> ws[k].Valid()
    requires var stream := StreamReader.BlocksOf(calls);
      && FirstMarker(stream, e) && e + 4 * |ws| < |stream| <= e + 4 * |ws| + 4
      && stream[e..e + 4 * |ws|] == Bytes(EncodeAll(ws))
    ensures WordsOf(calls) == ws && Accounted(After(mode, time, WordsOf(calls)), ws)
  {
    FieldsReceived(StreamReader.BlocksOf(calls), e, ws);
    BlocksAccounted(mode, time, calls);
  }

  /** The clean call and then the acquisition loop. */
  method Acquire(mode: Mode, time: int, cleaned: seq<u8>, calls: seq<StreamReader.Call>)
    returns (reader: StreamReader.Reader)
    requires |cleaned| == StreamReader.CLEAN
    requires forall k :: 0 <= k < |calls| ==> calls[k].Valid()
    ensures reader.Valid() && reader.machine.Now() == After(mode, time, WordsOf(calls))
    ensures Accounted(reader.machine.Now(), WordsOf(calls))
  {
    reader := new StreamReader.Reader(mode, time);
    var rc := reader.ReadBuffer(false, true, 0, cleaned);
    reader.Acquire(calls);
    BlocksAccounted(mode, time, calls);
  }
}

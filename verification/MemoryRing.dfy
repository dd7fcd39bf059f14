/** The memory-ring reader of lago_v1_2: the hardware writes an 8 MiB ring of 8-byte words, an
    interrupt samples how many it has written, the program reads 4-byte words from where it
    stopped. Addresses are bytes from the start of the ring; memory is a sequence of 4-byte words. */
module MemoryRing {
  import opened Words

  const LIMIT: int := 8388608
  const WORDS: int := 2097152
  const SLOTS: int := 1048576

  // ----- One call of read_buffer

  datatype Span = Span(start: int, end: int)

  /** current is the last address read; -4 stands for the end of the ring. */
  function Rewind(current: int): int {
    if current == LIMIT - 4 then -4 else current
  }

  /** The addresses one call reads, from a rewound current; pos is the sampled address. */
  function SpanOf(current: int, pos: int): Span {
    if current == pos then Span(0, 0)
    else if current < pos + 4 then Span(current + 4, pos)
    else Span(current + 4, LIMIT)
  }

  function NextCurrent(current: int, pos: int): int {
    var s := SpanOf(Rewind(current), pos);
    if s.start < s.end then s.end - 4 else Rewind(current)
  }

  /** The number of 4-byte words one call reads. */
  function Fetched(current: int, pos: int): int {
    var s := SpanOf(Rewind(current), pos);
    if s.start < s.end then (s.end - s.start) / 4 else 0
  }

  /** A word position of 8 bytes each ends in an address that is 4 modulo 8. */
  predicate GoodCurrent(current: int) {
    -4 <= current < LIMIT && current % 8 == 4
  }

  predicate GoodPosition(position: int) {
    0 <= position < SLOTS
  }

  /** current never equals the sampled address, the two branches cover all cases, and the new
      current is as good as the old one. */
  lemma CallKeepsCurrent(current: int, position: int)
    requires GoodCurrent(current) && GoodPosition(position)
    ensures var c, pos := Rewind(current), position * 8;
      && c != pos && (c < pos + 4 || c > pos)
      && 0 <= SpanOf(c, pos).start <= SpanOf(c, pos).end <= LIMIT
      && SpanOf(c, pos).start % 4 == 0 && SpanOf(c, pos).end % 4 == 0
      && GoodCurrent(NextCurrent(current, pos))
  {
    var n := current / 8 + 1;
    assert current == 8 * n - 4;
    EightFold(n);
    EightFold(position);
    EightFold(SLOTS);
  }

  lemma EightFold(n: int)
    ensures 8 * n % 8 == 0 && 8 * n % 4 == 0 && (8 * n - 4) % 8 == 4
  {
    Unpack(n, 8, 0);
    Unpack(2 * n, 4, 0);
    Unpack(n - 1, 8, 4);
  }

  /** A call ends caught up with pos or at the end of the ring, and a second call with the same
      pos always catches up. */
  lemma TwoCallsCatchUp(current: int, position: int)
    requires GoodCurrent(current) && GoodPosition(position)
    ensures var pos := position * 8; var c := NextCurrent(current, pos);
      (c == pos - 4 || c == LIMIT - 4) && NextCurrent(c, pos) == pos - 4
  {
  }

  /** Two calls read the lag modulo the ring, when read and written words are counted from the
      start: nothing is missed exactly when the lag is less than the ring, and a lag of one whole
      ring is the smallest that is taken for none. */
  lemma TwoCallsFetchLag(current: int, read: nat, written: nat)
    requires GoodCurrent(current) && read <= written && written % 2 == 0
    requires read % WORDS == (current + 4) / 4 % WORDS
    ensures var pos := written / 2 % SLOTS * 8;
      var n := Fetched(current, pos) + Fetched(NextCurrent(current, pos), pos);
      n == (written - read) % WORDS && (n == written - read <==> written - read < WORDS)
  {
    PositionOf(written);
    StartOf(current);
    LagModulo(read, written);
    TwoFetches(current, written / 2 % SLOTS);
  }

  /** current as a number of 8-byte words. */
  lemma InSlots(current: int) returns (n: int)
    requires GoodCurrent(current)
    ensures 0 <= n <= SLOTS && current == 8 * n - 4
  {
    n := current / 8 + 1;
  }

  lemma TwoFetches(current: int, position: int)
    requires GoodCurrent(current) && GoodPosition(position)
    ensures var pos := position * 8; var r := (Rewind(current) + 4) / 4;
      Fetched(current, pos) + Fetched(NextCurrent(current, pos), pos)
      == if r <= pos / 4 then pos / 4 - r else WORDS - r + pos / 4
  {
    var n := InSlots(current);
    if n != SLOTS {
      TwoFetchesAt(n, position);
    } else {
      TwoFetchesAt(0, position);
      assert Fetched(current, position * 8) == Fetched(-4, position * 8);
      assert NextCurrent(current, position * 8) == NextCurrent(-4, position * 8);
    }
  }

  lemma TwoFetchesAt(n: int, position: int)
    requires 0 <= n < SLOTS && GoodPosition(position)
    ensures var c, pos := 8 * n - 4, position * 8;
      && Fetched(c, pos) + Fetched(NextCurrent(c, pos), pos)
         == (if n <= position then 2 * position - 2 * n else WORDS - 2 * n + 2 * position)
      && (c + 4) / 4 == 2 * n && pos / 4 == 2 * position
  {
  }

  lemma PositionOf(written: nat)
    requires written % 2 == 0
    ensures GoodPosition(written / 2 % SLOTS)
    ensures written / 2 % SLOTS * 8 == written % WORDS * 4
  {
    var q := written / 2;
    assert written == q / SLOTS * WORDS + q % SLOTS * 2;
    Unpack(q / SLOTS, WORDS, q % SLOTS * 2);
  }

  lemma StartOf(current: int)
    requires GoodCurrent(current)
    ensures GoodCurrent(Rewind(current))
    ensures Rewind(current) + 4 == (current + 4) / 4 % WORDS * 4
  {
    var n := InSlots(current);
    assert (current + 4) / 4 == 2 * n;
    if n == SLOTS {
      Unpack(1, WORDS, 0);
    } else {
      Unpack(0, WORDS, 2 * n);
    }
  }

  lemma LagModulo(read: nat, written: nat)
    requires read <= written
    ensures var r, w := read % WORDS, written % WORDS;
      (written - read) % WORDS == if r <= w then w - r else WORDS - r + w
  {
  }

  /** The span of a call covers unread words only, and all of them unless it ends at the wrap. */
  lemma SpanCovers(current: int, read: nat, written: nat)
    requires GoodCurrent(current) && read <= written < read + WORDS && written % 2 == 0
    requires read % WORDS == (current + 4) / 4 % WORDS
    ensures var s := SpanOf(Rewind(current), written / 2 % SLOTS * 8);
      && s.start == Rewind(current) + 4 && s.start % 4 == 0
      && 0 <= s.start <= s.end <= LIMIT && s.end % 8 == 0
      && read + (s.end - s.start) / 4 <= written
      && (read + (s.end - s.start) / 4 == written || s.end == LIMIT)
  {
    PositionOf(written);
    StartOf(current);
    LagModulo(read, written);
  }

  // ----- Writer, sampler and reader, step by step

  datatype Activity = Idle | Reading(i: int, end: int)

  /** history and sampled are what an observer knows: all words ever written, and how many there
      were at the last sample. */
  datatype Ring = Ring(
    history: seq<u32>, mem: seq<u32>, position: int, sampled: nat,
    current: int, reader: Activity, out: seq<u32>)

  datatype Action = Write(lower: u32, upper: u32) | Sample | Enter | Read | Leave

  function Initial(mem: seq<u32>): Ring {
    Ring([], mem, 0, 0, -4, Idle, [])
  }

  /** The writer never overwrites an unread word, and at a sample less than a whole ring is
      unread: the assumption under which the reader works. */
  predicate Enabled(s: Ring, a: Action)
    requires |s.mem| == WORDS
  {
    match a
    case Write(_, _) => |s.history| + 2 - |s.out| <= WORDS
    case Sample => s.reader.Idle? && |s.history| - |s.out| < WORDS
    case Enter => s.reader.Idle?
    case Read => s.reader.Reading? && 0 <= s.reader.i < s.reader.end && s.reader.i / 4 < WORDS
    case Leave => s.reader.Reading? && s.reader.i >= s.reader.end
  }

  function Apply(s: Ring, a: Action): (s': Ring)
    requires |s.mem| == WORDS && Enabled(s, a)
    ensures |s'.mem| == WORDS
  {
    match a
    case Write(lower, upper) =>
      var at := |s.history|;
      s.(history := s.history + [lower, upper], mem := s.mem[at % WORDS := lower][(at + 1) % WORDS := upper])
    case Sample => s.(position := |s.history| / 2 % SLOTS, sampled := |s.history|)
    case Enter =>
      var c := Rewind(s.current);
      var span := SpanOf(c, s.position * 8);
      s.(current := c, reader := Reading(span.start, span.end))
    case Read =>
      var i := s.reader.i;
      s.(out := s.out + [s.mem[i / 4]], current := i, reader := Reading(i + 4, s.reader.end))
    case Leave => s.(reader := Idle)
  }

  /** The last WORDS words of the history are in memory. */
  ghost predicate InMemory(history: seq<u32>, mem: seq<u32>)
    requires |mem| == WORDS
  {
    forall j :: 0 <= j < |history| && |history| - WORDS <= j ==> mem[j % WORDS] == history[j]
  }

  ghost predicate Inv(s: Ring) {
    && |s.mem| == WORDS && InMemory(s.history, s.mem)
    && |s.history| % 2 == 0 && s.sampled % 2 == 0
    && |s.out| <= s.sampled <= |s.history| <= |s.out| + WORDS
    && s.sampled - |s.out| < WORDS
    && s.position == s.sampled / 2 % SLOTS
    && s.out == s.history[..|s.out|]
    && ReaderInv(|s.out|, s.sampled, s.current, s.reader)
  }

  /** read words so far, and where the reader stands in the ring. */
  ghost predicate ReaderInv(read: nat, sampled: nat, current: int, reader: Activity) {
    && read % WORDS == (current + 4) / 4 % WORDS
    && match reader
       case Idle => GoodCurrent(current)
       case Reading(i, end) =>
         && current == i - 4 && 0 <= i <= end <= LIMIT && i % 4 == 0 && end % 8 == 0
         && read + (end - i) / 4 <= sampled
         && (read + (end - i) / 4 == sampled || end == LIMIT)
  }

  lemma DistinctSlots(j: int, at: int)
    requires at + 2 - WORDS <= j < at && 0 <= j && at % 2 == 0
    ensures j % WORDS != at % WORDS && j % WORDS != (at + 1) % WORDS
  {
  }

  lemma WriteInMemory(history: seq<u32>, mem: seq<u32>, lower: u32, upper: u32)
    requires |mem| == WORDS && InMemory(history, mem) && |history| % 2 == 0
    ensures var at := |history|;
      InMemory(history + [lower, upper], mem[at % WORDS := lower][(at + 1) % WORDS := upper])
  {
    var at := |history|;
    assert (at + 1) % WORDS != at % WORDS;
    forall j | 0 <= j < at && at + 2 - WORDS <= j
      ensures mem[at % WORDS := lower][(at + 1) % WORDS := upper][j % WORDS] == history[j]
    {
      DistinctSlots(j, at);
    }
  }

  lemma Even(n: nat)
    requires n % 2 == 0
    ensures (n + 2) % 2 == 0
  {
  }

  lemma WriteKeeps(s: Ring, lower: u32, upper: u32)
    requires Inv(s) && Enabled(s, Write(lower, upper))
    ensures Inv(Apply(s, Write(lower, upper)))
  {
    WriteInMemory(s.history, s.mem, lower, upper);
    var s' := Apply(s, Write(lower, upper));
    assert s'.history[..|s.out|] == s.history[..|s.out|];
    Even(|s.history|);
  }

  lemma EnterKeeps(s: Ring)
    requires Inv(s) && Enabled(s, Enter)
    ensures Inv(Apply(s, Enter))
  {
    SpanCovers(s.current, |s.out|, s.sampled);
    StartOf(s.current);
  }

  lemma NextModulo(r: int, k: int)
    requires r % WORDS == k % WORDS
    ensures (r + 1) % WORDS == (k + 1) % WORDS
  {
  }

  lemma ReaderSteps(read: nat, sampled: nat, current: int, i: int, end: int)
    requires ReaderInv(read, sampled, current, Reading(i, end)) && i < end
    ensures ReaderInv(read + 1, sampled, i, Reading(i + 4, end))
    ensures i / 4 == read % WORDS && read < sampled
  {
    var k := i / 4;
    assert i == 4 * k && k % WORDS == k;
    NextModulo(read, k);
    assert (i + 4) / 4 == k + 1;
  }

  lemma ReadKeeps(s: Ring)
    requires Inv(s) && Enabled(s, Read)
    ensures Inv(Apply(s, Read))
  {
    var r := |s.out|;
    ReaderSteps(r, s.sampled, s.current, s.reader.i, s.reader.end);
    assert s.mem[r % WORDS] == s.history[r];
    assert s.history[..r + 1] == s.history[..r] + [s.history[r]];
  }

  lemma SampleKeeps(s: Ring)
    requires Inv(s) && Enabled(s, Sample)
    ensures Inv(Apply(s, Sample))
  {
  }

  lemma LeaveKeeps(s: Ring)
    requires Inv(s) && Enabled(s, Leave)
    ensures Inv(Apply(s, Leave))
  {
    assert (s.reader.i - 4) % 8 == 4 by {
      assert s.reader.i == s.reader.end;
      Unpack(s.reader.end / 8 - 1, 8, 4);
    }
  }

  lemma ApplyKeeps(s: Ring, a: Action)
    requires Inv(s) && Enabled(s, a)
    ensures Inv(Apply(s, a))
  {
    match a
    case Write(lower, upper) => WriteKeeps(s, lower, upper);
    case Sample => SampleKeeps(s);
    case Enter => EnterKeeps(s);
    case Read => ReadKeeps(s);
    case Leave => LeaveKeeps(s);
  }

  /** states is a run: it starts empty and every step is one of the actions. */
  ghost predicate IsRun(states: seq<Ring>, actions: seq<Action>) {
    && |states| == |actions| + 1
    && (exists mem: seq<u32> :: |mem| == WORDS && states[0] == Initial(mem))
    && forall k :: 0 <= k < |actions| ==>
         |states[k].mem| == WORDS && Enabled(states[k], actions[k]) && states[k + 1] == Apply(states[k], actions[k])
  }

  /** Exactly once and in order: at every point of every run the words read are the first words
      ever written, however the ring wraps and however writes fall between the reads. */
  lemma {:induction false} DeliveredInOrder(states: seq<Ring>, actions: seq<Action>, k: nat)
    requires IsRun(states, actions) && k < |states|
    ensures Inv(states[k]) && states[k].out <= states[k].history
  {
    if k > 0 {
      DeliveredInOrder(states, actions, k - 1);
      ApplyKeeps(states[k - 1], actions[k - 1]);
    }
  }

  /** Everything sampled has been read, or the reader is at the ring's end. */
  ghost predicate Stopped(s: Ring) {
    (|s.out| == s.sampled && s.current == s.position * 8 - 4) || s.current == LIMIT - 4
  }

  /** When a call returns, everything sampled has been read, or the reader is at the ring's end. */
  lemma CallReturns(states: seq<Ring>, actions: seq<Action>, k: nat)
    requires IsRun(states, actions) && k < |actions| && actions[k] == Leave
    ensures Stopped(states[k + 1]) && states[k + 1].out <= states[k + 1].history
  {
    DeliveredInOrder(states, actions, k);
    var s := states[k];
    PositionOf(s.sampled);
    ReaderStops(|s.out|, s.sampled, s.current, s.reader.i, s.reader.end);
  }

  lemma ReaderStops(read: nat, sampled: nat, current: int, i: int, end: int)
    requires ReaderInv(read, sampled, current, Reading(i, end)) && i >= end
    ensures (read == sampled && current == sampled % WORDS * 4 - 4) || current == LIMIT - 4
  {
    var k := i / 4;
    assert i == 4 * k && current + 4 == i;
    if end != LIMIT {
      Unpack(0, WORDS, k);
    }
  }

  lemma ModPlus(r: nat, k: nat)
    requires r % WORDS + k < WORDS
    ensures (r + k) % WORDS == r % WORDS + k
  {
    assert r + k == r / WORDS * WORDS + (r % WORDS + k);
    Unpack(r / WORDS, WORDS, r % WORDS + k);
  }

  /** The k-th unread word is in memory where the reader looks for it. */
  lemma UnreadWord(s: Ring, k: nat)
    requires Inv(s) && |s.out| % WORDS + k < WORDS && |s.out| + k < |s.history|
    ensures s.mem[|s.out| % WORDS + k] == s.history[|s.out| + k]
  {
    ModPlus(|s.out|, k);
    assert s.mem[(|s.out| + k) % WORDS] == s.history[|s.out| + k];
  }

  lemma SpanInWords(s: Ring)
    requires Inv(s) && s.reader.Idle?
    ensures var span, read := SpanOf(Rewind(s.current), s.position * 8), |s.out|;
      && 0 <= span.start <= span.end <= LIMIT
      && span.start / 4 == read % WORDS && read + span.end / 4 - span.start / 4 <= |s.history|
  {
    SpanCovers(s.current, |s.out|, s.sampled);
    StartOf(s.current);
  }

  lemma SameSlice(a: seq<u32>, i: nat, b: seq<u32>, j: nat, n: nat)
    requires i + n <= |a| && j + n <= |b|
    requires forall p :: i <= p < i + n ==> a[p] == b[j + p - i]
    ensures a[i..i + n] == b[j..j + n]
  {
  }

  /** What one call reads from memory, with the writer at rest, is the next part of the history. */
  lemma CallReadsHistory(s: Ring)
    requires Inv(s) && s.reader.Idle?
    ensures var span, read := SpanOf(Rewind(s.current), s.position * 8), |s.out|;
      && 0 <= span.start <= span.end <= LIMIT
      && read + (span.end / 4 - span.start / 4) <= |s.history|
      && s.mem[span.start / 4..span.end / 4] == s.history[read..read + (span.end / 4 - span.start / 4)]
  {
    var span := SpanOf(Rewind(s.current), s.position * 8);
    SpanInWords(s);
    UnreadSlice(s, span.start / 4, span.end / 4 - span.start / 4);
  }

  lemma UnreadSlice(s: Ring, first: nat, n: nat)
    requires Inv(s) && first == |s.out| % WORDS && first + n <= WORDS && |s.out| + n <= |s.history|
    ensures s.mem[first..first + n] == s.history[|s.out|..|s.out| + n]
  {
    var read := |s.out|;
    forall p | first <= p < first + n
      ensures s.mem[p] == s.history[read + p - first]
    {
      UnreadWord(s, p - first);
    }
    SameSlice(s.mem, first, s.history, read, n);
  }

  /** Hence output that has grown by as many words of the history is what the span holds. */
  lemma SpanRead(s: Ring, out: seq<u32>)
    requires Inv(s) && s.reader.Idle? && s.out <= out <= s.history
    requires |out| == |s.out| + Fetched(s.current, s.position * 8)
    ensures var span := SpanOf(Rewind(s.current), s.position * 8);
      0 <= span.start <= span.end <= LIMIT && out == s.out + s.mem[span.start / 4..span.end / 4]
  {
    CallReadsHistory(s);
    SpanCovers(s.current, |s.out|, s.sampled);
    var span := SpanOf(Rewind(s.current), s.position * 8);
    assert span.end / 4 - span.start / 4 == (span.end - span.start) / 4;
    assert out == s.history[..|out|];
  }

  // ----- Sequences of steps from any state

  datatype Outcome = Reached(state: Ring) | Stuck

  /** Where the actions lead, when each is enabled in its turn. */
  function Do(s: Ring, actions: seq<Action>): Outcome {
    if actions == [] then Reached(s)
    else DoOne(Do(s, actions[..|actions| - 1]), actions[|actions| - 1])
  }

  function DoOne(o: Outcome, a: Action): Outcome {
    if o.Reached? && |o.state.mem| == WORDS && Enabled(o.state, a) then Reached(Apply(o.state, a)) else Stuck
  }

  lemma DoAppend(s: Ring, actions: seq<Action>, a: Action)
    ensures Do(s, actions + [a]) == DoOne(Do(s, actions), a)
  {
    assert (actions + [a])[..|actions|] == actions;
  }

  /** The steps of one call that reads n words. */
  function CallOf(n: nat): seq<Action> {
    [Enter] + Reads(n)
  }

  function Reads(n: nat): seq<Action> {
    seq(n, _ => Read)
  }

  /** t is the state of a call that started in s and has read n words. */
  ghost predicate Called(s: Ring, n: nat, t: Ring) {
    Do(s, CallOf(n)) == Reached(t)
  }

  /** Every sequence of steps keeps the invariant. */
  lemma {:induction false} DoKeeps(s: Ring, actions: seq<Action>)
    requires Inv(s) && Do(s, actions).Reached?
    ensures Inv(Do(s, actions).state)
  {
    if actions != [] {
      DoKeeps(s, actions[..|actions| - 1]);
      ApplyKeeps(Do(s, actions[..|actions| - 1]).state, actions[|actions| - 1]);
    }
  }

  lemma EnterCall(s: Ring)
    requires Inv(s) && Enabled(s, Enter)
    ensures Called(s, 0, Apply(s, Enter))
  {
    assert CallOf(0) == [] + [Enter];
    DoAppend(s, [], Enter);
  }

  lemma ReadInCall(s: Ring, n: nat, t: Ring)
    requires |t.mem| == WORDS && Called(s, n, t) && Enabled(t, Read)
    ensures Called(s, n + 1, Apply(t, Read))
  {
    assert CallOf(n + 1) == CallOf(n) + [Read];
    DoAppend(s, CallOf(n), Read);
  }

  /** The steps are over when the span is: the reader is idle, caught up or at the ring's end. */
  /** t is the state when that call has returned. */
  ghost predicate Returned(s: Ring, n: nat, t: Ring) {
    Do(s, CallOf(n) + [Leave]) == Reached(t) && Stopped(t)
  }

  lemma LeaveCall(s: Ring, n: nat, t: Ring)
    requires Inv(s) && Called(s, n, t) && t.reader.Reading? && t.reader.i >= t.reader.end
    ensures t.current + 4 == t.reader.i == t.reader.end && Returned(s, n, t.(reader := Idle))
  {
    DoKeeps(s, CallOf(n));
    LeaveStops(t);
    assert Apply(t, Leave) == t.(reader := Idle);
    DoAppend(s, CallOf(n), Leave);
  }

  lemma LeaveStops(t: Ring)
    requires Inv(t) && t.reader.Reading? && t.reader.i >= t.reader.end
    ensures var t' := t.(reader := Idle);
      t.current + 4 == t.reader.i == t.reader.end && Stopped(t')
  {
    ReaderStops(|t.out|, t.sampled, t.current, t.reader.i, t.reader.end);
    PositionOf(t.sampled);
  }

  /** What a call that has read its whole span means for the output. */
  lemma CallDelivers(s: Ring, t: Ring)
    requires Inv(s) && s.reader.Idle? && Returned(s, Fetched(s.current, s.position * 8), t)
    requires s.out <= t.out && s.history == t.history
    requires |t.out| == |s.out| + Fetched(s.current, s.position * 8)
    ensures Inv(t) && t.out <= t.history
    ensures var span := SpanOf(Rewind(s.current), s.position * 8);
      0 <= span.start <= span.end <= LIMIT && t.out == s.out + s.mem[span.start / 4..span.end / 4]
  {
    DoKeeps(s, CallOf(Fetched(s.current, s.position * 8)) + [Leave]);
    SpanRead(s, t.out);
  }

  /** While a call reads, only the reader moves, one word at a time. */
  lemma {:induction false} CallShape(s: Ring, n: nat)
    requires Inv(s) && s.reader.Idle? && Do(s, CallOf(n)).Reached?
    ensures var t, span := Do(s, CallOf(n)).state, SpanOf(Rewind(s.current), s.position * 8);
      && t.history == s.history && t.sampled == s.sampled && t.position == s.position
      && t.reader == Reading(span.start + 4 * n, span.end)
      && |t.out| == |s.out| + n
  {
    if n == 0 {
      EnterCall(s);
    } else {
      assert CallOf(n) == CallOf(n - 1) + [Read];
      DoAppend(s, CallOf(n - 1), Read);
      CallShape(s, n - 1);
    }
  }

  /** After a sample and two complete calls, with no write in between, everything ever written
      has been handed on, however the two calls end. */
  lemma SampleThenTwoCalls(s: Ring, n1: nat, s1: Ring, n2: nat, s2: Ring)
    requires Inv(s) && Enabled(s, Sample)
    requires Returned(Apply(s, Sample), n1, s1) && Returned(s1, n2, s2)
    ensures s2.history == s.history && s2.out == s.history
  {
    var t := Apply(s, Sample);
    SampleKeeps(s);
    CallEnds(t, n1, s1);
    CallEnds(s1, n2, s2);
    TwoCallsCatchUp(t.current, t.position);
    DoKeeps(s1, CallOf(n2) + [Leave]);
  }

  /** A call that has returned has read its whole span. */
  lemma CallEnds(s: Ring, n: nat, t: Ring)
    requires Inv(s) && s.reader.Idle? && Returned(s, n, t)
    ensures Inv(t) && t.reader.Idle? && t.current == NextCurrent(s.current, s.position * 8)
    ensures t.history == s.history && t.sampled == s.sampled && t.position == s.position
    ensures |t.out| == |s.out| + n && n == Fetched(s.current, s.position * 8)
  {
    DoAppend(s, CallOf(n), Leave);
    CallShape(s, n);
    DoKeeps(s, CallOf(n));
    DoKeeps(s, CallOf(n) + [Leave]);
    LeaveStops(Do(s, CallOf(n)).state);
    SpanCovers(s.current, |s.out|, s.sampled);
  }

  // ----- The program

  /** The reader and the memory it shares with the hardware. The writer's history and how much
      of it was there at the last sample are kept for the proof. */
  class MemoryReader {
    const mem: array<u32>
    var position: nat
    var current: int
    /** The words handed to the decoder. */
    var out: seq<u32>
    ghost var history: seq<u32>
    ghost var sampled: nat

    /** The state of the step machine that this is, with the reader busy or not. */
    ghost function At(reader: Activity): Ring
      reads this, mem
    {
      Ring(history, mem[..], position, sampled, current, reader, out)
    }

    ghost function Now(): Ring
      reads this, mem
    {
      At(Idle)
    }

    ghost predicate Valid()
      reads this, mem
    {
      Inv(Now())
    }

    constructor (mem: array<u32>)
      requires mem.Length == WORDS
      ensures Valid() && this.mem == mem && Now() == Initial(mem[..])
    {
      this.mem, position, current, out := mem, 0, -4, [];
      history, sampled := [], 0;
    }

    /** What the hardware does between two calls: it writes one word of 8 bytes, after the at words
        of 4 bytes that it has counted. */
    method HardwareWrites(at: nat, lower: u32, upper: u32)
      requires at == |history| && Valid() && Enabled(Now(), Write(lower, upper))
      modifies this`history, mem
      ensures Valid() && Now() == Apply(old(Now()), Write(lower, upper))
      ensures history == old(history) + [lower, upper]
    {
      WriteKeeps(Now(), lower, upper);
      ghost var s := Now();
      mem[at % WORDS] := lower;
      mem[(at + 1) % WORDS] := upper;
      history := history + [lower, upper];
      assert Now() == Apply(s, Write(lower, upper));
    }

    /** The interrupt handler's sample of the writer's counter of 8-byte words; a time-out leaves
        position alone. */
    method WaitForInterrupt(interrupt: bool, status: nat)
      requires Valid()
      requires interrupt ==> status == |history| / 2 % SLOTS && Enabled(Now(), Sample)
      modifies this`position, this`sampled
      ensures Valid() && Now() == if interrupt then Apply(old(Now()), Sample) else old(Now())
      ensures interrupt ==> position == status && sampled == |history|
      ensures !interrupt ==> position == old(position) && sampled == old(sampled)
    {
      if interrupt {
        position := status;
        sampled := |history|;
      }
    }

    /** Reads from current to pos, or to the end of the ring when pos is behind: one call of the
        step machine, with as many reads as the span has words. */
    method ReadBuffer()
      requires Valid()
      modifies this`current, this`out
      ensures Valid() && old(out) <= out <= history && Stopped(Now())
      ensures current == NextCurrent(old(current), position * 8)
      ensures |out| == |old(out)| + Fetched(old(current), position * 8)
      ensures var span := SpanOf(Rewind(old(current)), position * 8);
        0 <= span.start <= span.end <= LIMIT && out == old(out) + mem[span.start / 4..span.end / 4]
      ensures Returned(old(Now()), Fetched(old(current), position * 8), Now())
    {
      CallKeepsCurrent(current, position);
      EnterCall(Now());
      ghost var s := Now();
      ghost var span := SpanOf(Rewind(current), position * 8);
      var pos := position * 8;
      var readinit, readend := 0, LIMIT;
      if current == LIMIT - 4 {
        current := -4;
      }
      if current < pos + 4 {
        readinit, readend := current + 4, pos;
      } else if current > pos {
        readinit, readend := current + 4, LIMIT;
      }
      assert readinit == span.start && readend == span.end;
      if current != pos {
        Fetch(readinit, readend, s);
      }
      CallDelivers(s, Now());
    }

    /** Two turns of the acquisition loop, the first with an interrupt and the second with or
        without one: everything written before the first one has been handed on. */
    method TwoTurns(status: nat, again: bool)
      requires Valid() && status == |history| / 2 % SLOTS && Enabled(Now(), Sample)
      modifies this`position, this`sampled, this`current, this`out
      ensures Valid() && out == history
    {
      WaitForInterrupt(true, status);
      ghost var c := current;
      ReadBuffer();
      WaitForInterrupt(again, status);
      ReadBuffer();
      TwoCallsCatchUp(c, position);
      PositionOf(sampled);
    }

    /** The loop over the span: each turn is one read of the step machine. */
    method Fetch(readinit: int, readend: int, ghost s: Ring)
      requires Inv(s) && Called(s, 0, At(Reading(readinit, readend)))
      modifies this`current, this`out
      ensures current == readend - 4
      ensures old(out) <= out && 4 * (|out| - |old(out)|) == readend - readinit
      ensures Returned(s, |out| - |old(out)|, Now())
    {
      var i := readinit;
      ghost var n := 0;
      while i < readend
        invariant i == readinit + 4 * n && |out| == |old(out)| + n && old(out) <= out
        invariant Called(s, n, At(Reading(i, readend)))
      {
        FetchOne(i, readend, s, n);
        i := i + 4;
        n := n + 1;
      }
      LeaveCall(s, n, At(Reading(i, readend)));
    }

    method FetchOne(i: int, readend: int, ghost s: Ring, ghost n: nat)
      requires i < readend && Inv(s) && Called(s, n, At(Reading(i, readend)))
      modifies this`current, this`out
      ensures |out| == |old(out)| + 1 && old(out) <= out
      ensures Called(s, n + 1, At(Reading(i + 4, readend)))
    {
      DoKeeps(s, CallOf(n));
      ReadInCall(s, n, At(Reading(i, readend)));
      out := out + [mem[i / 4]];
      current := i;
    }
  }
}

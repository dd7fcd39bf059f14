/** The two processes of adc-recorder and adc-test-server: the child polls the position of the
    hardware writer and copies the half that is complete, the parent writes out the copied halves
    in turn, and a pipe carries one token for each copy. Words are the 8 bytes that the position
    counts; a half is 4 MiB. */
module HalfBuffer {
  import opened Words

  const HALF: int := 524288
  const RING: int := 1048576

  type Word64 = x: int | 0 <= x < 0x1_0000_0000_0000_0000

  /** limit is HALF before the first half is copied and 0 before the second. */
  predicate Ready(limit: int, position: int) {
    (limit > 0 && position > limit) || (limit == 0 && position < HALF)
  }

  function OffsetOf(limit: int): int {
    if limit > 0 then 0 else HALF
  }

  function Toggled(limit: int): int {
    if limit > 0 then 0 else HALF
  }

  // ----- The protocol, step by step

  datatype Child = Polling | Copying(offset: int, done: nat)

  datatype Parent = Waiting | Sending(offset: int, done: nat)

  /** history, copies and sent are what an observer counts: the words ever written, the finished
      copies and the halves written out. next is the offset that the parent takes next. */
  datatype State = State(
    history: seq<Word64>, ram: seq<Word64>,
    limit: int, child: Child, copies: nat, tokens: nat,
    buf: seq<Word64>, parent: Parent, next: int, sent: nat, out: seq<Word64>)

  datatype Action = Write(w: Word64) | Poll | CopyWord | EndCopy | TakeToken | SendWord | EndSend

  function Initial(ram: seq<Word64>, buf: seq<Word64>): State {
    State([], ram, HALF, Polling, 0, 0, buf, Waiting, 0, 0, [])
  }

  predicate Sizes(s: State) {
    |s.ram| == RING && |s.buf| == RING
  }

  /** Two assumptions on timing: the writer stays within two halves of the finished copies, and
      a copy starts only when fewer than two copies are still to be written out. */
  predicate Enabled(s: State, a: Action)
    requires Sizes(s)
  {
    match a
    case Write(_) => |s.history| < (s.copies + 2) * HALF
    case Poll => s.child.Polling? && (Ready(s.limit, |s.history| % RING) ==> s.copies - s.sent < 2)
    case CopyWord => s.child.Copying? && s.child.done < HALF && 0 <= s.child.offset <= HALF
    case EndCopy => s.child.Copying? && s.child.done == HALF
    case TakeToken => s.parent.Waiting? && s.tokens > 0
    case SendWord => s.parent.Sending? && s.parent.done < HALF && 0 <= s.parent.offset <= HALF
    case EndSend => s.parent.Sending? && s.parent.done == HALF
  }

  function Apply(s: State, a: Action): (s': State)
    requires Sizes(s) && Enabled(s, a)
    ensures Sizes(s')
  {
    match a
    case Write(w) => s.(history := s.history + [w], ram := s.ram[|s.history| % RING := w])
    case Poll =>
      if Ready(s.limit, |s.history| % RING) then
        s.(child := Copying(OffsetOf(s.limit), 0), limit := Toggled(s.limit))
      else s
    case CopyWord =>
      var at := s.child.offset + s.child.done;
      s.(buf := s.buf[at := s.ram[at]], child := Copying(s.child.offset, s.child.done + 1))
    case EndCopy => s.(child := Polling, copies := s.copies + 1, tokens := s.tokens + 1)
    case TakeToken => s.(tokens := s.tokens - 1, parent := Sending(s.next, 0))
    case SendWord =>
      var at := s.parent.offset + s.parent.done;
      s.(out := s.out + [s.buf[at]], parent := Sending(s.parent.offset, s.parent.done + 1))
    case EndSend => s.(parent := Waiting, sent := s.sent + 1, next := HALF - s.next)
  }

  // ----- The invariant

  function OffsetOfLap(k: nat): int {
    k % 2 * HALF
  }

  /** The last RING words of the history are in the ring. */
  ghost predicate InRam(history: seq<Word64>, ram: seq<Word64>)
    requires |ram| == RING
  {
    forall j :: 0 <= j < |history| && |history| - RING <= j ==> ram[j % RING] == history[j]
  }

  /** The first n words of half-lap k are in their half of the buffer. */
  ghost predicate Holds(history: seq<Word64>, buf: seq<Word64>, k: nat, n: nat)
    requires |buf| == RING && n <= HALF
  {
    && k * HALF + n <= |history|
    && forall p :: OffsetOfLap(k) <= p < OffsetOfLap(k) + n ==> buf[p] == history[k * HALF + p - OffsetOfLap(k)]
  }

  ghost predicate WriterInv(s: State)
    requires Sizes(s)
  {
    && InRam(s.history, s.ram)
    && s.copies * HALF <= |s.history| <= (s.copies + 2) * HALF
  }

  ghost predicate ChildInv(s: State)
    requires Sizes(s)
  {
    match s.child
    case Polling => s.limit == HALF - OffsetOfLap(s.copies)
    case Copying(offset, done) =>
      && s.limit == OffsetOfLap(s.copies) && offset == OffsetOfLap(s.copies) && done <= HALF
      && (s.copies + 1) * HALF <= |s.history|
      && s.copies - s.sent < 2
      && Holds(s.history, s.buf, s.copies, done)
  }

  ghost predicate ParentInv(s: State)
    requires Sizes(s)
  {
    && s.next == OffsetOfLap(s.sent)
    && s.sent <= s.copies <= s.sent + 2
    && (s.sent < s.copies ==> Holds(s.history, s.buf, s.sent, HALF))
    && (s.sent + 1 < s.copies ==> Holds(s.history, s.buf, s.sent + 1, HALF))
    && s.sent * HALF <= |s.history|
    && match s.parent
       case Waiting =>
         && s.tokens + s.sent == s.copies
         && s.out == s.history[..s.sent * HALF]
       case Sending(offset, done) =>
         && s.tokens + s.sent + 1 == s.copies
         && offset == OffsetOfLap(s.sent) && done <= HALF
         && s.sent * HALF + done <= |s.history|
         && s.out == s.history[..s.sent * HALF + done]
  }

  ghost predicate Inv(s: State) {
    Sizes(s) && WriterInv(s) && ChildInv(s) && ParentInv(s)
  }

  // ----- Steps

  /** With the writer less than two halves ahead, the child starts to copy half-lap k exactly
      when it is complete (for even k, when one more word has come in). */
  lemma ReadyIff(written: nat, k: nat)
    requires k * HALF <= written <= (k + 2) * HALF
    ensures Ready(HALF - OffsetOfLap(k), written % RING)
       <==> (k + 1) * HALF + (if k % 2 == 0 then 1 else 0) <= written < (k + 2) * HALF
    ensures OffsetOf(HALF - OffsetOfLap(k)) == Toggled(HALF - OffsetOfLap(k)) == OffsetOfLap(k)
  {
    var q := k / 2;
    if k % 2 == 0 {
      assert k * HALF == q * RING;
      Remainder(written, q);
    } else {
      assert k * HALF == q * RING + HALF;
      Remainder(written, q);
    }
  }

  lemma Remainder(written: nat, q: nat)
    requires q * RING <= written <= q * RING + RING + HALF
    ensures written % RING == if written < q * RING + RING then written - q * RING else written - q * RING - RING
  {
    if written < q * RING + RING {
      Unpack(q, RING, written - q * RING);
    } else {
      Unpack(q + 1, RING, written - q * RING - RING);
    }
  }

  lemma LapInRing(k: nat, i: nat)
    requires i < HALF
    ensures (k * HALF + i) % RING == OffsetOfLap(k) + i
  {
    assert k * HALF + i == k / 2 * RING + (k % 2 * HALF + i);
    Unpack(k / 2, RING, k % 2 * HALF + i);
  }

  lemma WriteInRam(history: seq<Word64>, ram: seq<Word64>, w: Word64)
    requires |ram| == RING && InRam(history, ram)
    ensures InRam(history + [w], ram[|history| % RING := w])
  {
    forall j | 0 <= j < |history| && |history| + 1 - RING <= j
      ensures ram[|history| % RING := w][j % RING] == history[j]
    {
      assert j % RING != |history| % RING;
    }
  }

  lemma WriteKeeps(s: State, w: Word64)
    requires Inv(s) && Enabled(s, Write(w))
    ensures Inv(Apply(s, Write(w)))
  {
    WriteInRam(s.history, s.ram, w);
    HoldsLonger(s.history, [w], s.buf);
    var s' := Apply(s, Write(w));
    assert s.out == s'.history[..|s.out|];
  }

  /** More history does not change what the buffer holds. */
  lemma HoldsLonger(history: seq<Word64>, more: seq<Word64>, buf: seq<Word64>)
    requires |buf| == RING
    ensures forall k: nat, n: nat :: n <= HALF && Holds(history, buf, k, n) ==> Holds(history + more, buf, k, n)
  {
  }

  lemma PollKeeps(s: State)
    requires Inv(s) && Enabled(s, Poll)
    ensures Inv(Apply(s, Poll))
  {
    ReadyIff(|s.history|, s.copies);
  }

  lemma HoldsOneMore(history: seq<Word64>, buf: seq<Word64>, k: nat, n: nat, w: Word64)
    requires |buf| == RING && n < HALF && Holds(history, buf, k, n)
    requires k * HALF + n < |history| && w == history[k * HALF + n]
    ensures Holds(history, buf[OffsetOfLap(k) + n := w], k, n + 1)
  {
  }

  /** A copy of half-lap k leaves the other half of the buffer alone. */
  lemma HoldsOther(history: seq<Word64>, buf: seq<Word64>, k: nat, n: nat, w: Word64, m: nat)
    requires |buf| == RING && n < HALF && k % 2 != m % 2 && Holds(history, buf, m, HALF)
    ensures Holds(history, buf[OffsetOfLap(k) + n := w], m, HALF)
  {
  }

  lemma CopyWordKeeps(s: State)
    requires Inv(s) && Enabled(s, CopyWord)
    ensures Inv(Apply(s, CopyWord))
  {
    var k, n := s.copies, s.child.done;
    LapInRing(k, n);
    var w := s.ram[(k * HALF + n) % RING];
    assert w == s.history[k * HALF + n];
    HoldsOneMore(s.history, s.buf, k, n, w);
    if s.sent < k {
      HoldsOther(s.history, s.buf, k, n, w, s.sent);
    }
  }

  lemma EndCopyKeeps(s: State)
    requires Inv(s) && Enabled(s, EndCopy)
    ensures Inv(Apply(s, EndCopy))
  {
  }

  lemma TakeTokenKeeps(s: State)
    requires Inv(s) && Enabled(s, TakeToken)
    ensures Inv(Apply(s, TakeToken))
  {
  }

  lemma SendWordKeeps(s: State)
    requires Inv(s) && Enabled(s, SendWord)
    ensures Inv(Apply(s, SendWord))
  {
    var m := s.sent * HALF + s.parent.done;
    assert s.history[..m + 1] == s.history[..m] + [s.history[m]];
  }

  lemma EndSendKeeps(s: State)
    requires Inv(s) && Enabled(s, EndSend)
    ensures Inv(Apply(s, EndSend))
  {
  }

  lemma ApplyKeeps(s: State, a: Action)
    requires Inv(s) && Enabled(s, a)
    ensures Inv(Apply(s, a))
  {
    match a
    case Write(w) => WriteKeeps(s, w);
    case Poll => PollKeeps(s);
    case CopyWord => CopyWordKeeps(s);
    case EndCopy => EndCopyKeeps(s);
    case TakeToken => TakeTokenKeeps(s);
    case SendWord => SendWordKeeps(s);
    case EndSend => EndSendKeeps(s);
  }

  ghost predicate IsRun(states: seq<State>, actions: seq<Action>) {
    && |states| == |actions| + 1
    && (exists ram: seq<Word64>, buf: seq<Word64> ::
          |ram| == RING && |buf| == RING && states[0] == Initial(ram, buf))
    && forall k :: 0 <= k < |actions| ==>
         Sizes(states[k]) && Enabled(states[k], actions[k]) && states[k + 1] == Apply(states[k], actions[k])
  }

  /** In every interleaving the output is the history so far, without gap, repetition or
      reordering, and between two sends it is whole half-laps. */
  lemma {:induction false} HalvesInOrder(states: seq<State>, actions: seq<Action>, k: nat)
    requires IsRun(states, actions) && k < |states|
    ensures var s := states[k];
      && Inv(s) && s.out <= s.history
      && (s.parent.Waiting? ==> s.out == s.history[..s.sent * HALF])
  {
    if k > 0 {
      HalvesInOrder(states, actions, k - 1);
      ApplyKeeps(states[k - 1], actions[k - 1]);
    }
    OutIsHistory(states[k]);
  }

  lemma OutIsHistory(s: State)
    requires Inv(s)
    ensures s.out <= s.history
  {
  }

  /** Copy number k starts only when half-lap k is complete, and takes half k mod 2. */
  lemma CopyStartsComplete(states: seq<State>, actions: seq<Action>, k: nat)
    requires IsRun(states, actions) && k < |actions|
    requires states[k].child.Polling? && states[k + 1].child.Copying?
    ensures var s, s' := states[k], states[k + 1];
      && s'.child == Copying(OffsetOfLap(s.copies), 0)
      && (s.copies + 1) * HALF <= |s.history| < (s.copies + 2) * HALF
  {
    HalvesInOrder(states, actions, k);
    ReadyIff(|states[k].history|, states[k].copies);
  }

  // ----- Sequences of steps from any state

  datatype Outcome = Reached(state: State) | Stuck

  /** Where the actions lead, when each is enabled in its turn. */
  function Do(s: State, actions: seq<Action>): Outcome {
    if actions == [] then Reached(s)
    else DoOne(Do(s, actions[..|actions| - 1]), actions[|actions| - 1])
  }

  function DoOne(o: Outcome, a: Action): Outcome {
    if o.Reached? && Sizes(o.state) && Enabled(o.state, a) then Reached(Apply(o.state, a)) else Stuck
  }

  lemma DoAppend(s: State, actions: seq<Action>, a: Action)
    ensures Do(s, actions + [a]) == DoOne(Do(s, actions), a)
  {
    assert (actions + [a])[..|actions|] == actions;
  }

  /** Every sequence of steps keeps the invariant. */
  lemma {:induction false} DoKeeps(s: State, actions: seq<Action>)
    requires Inv(s) && Do(s, actions).Reached?
    ensures Inv(Do(s, actions).state)
  {
    if actions != [] {
      DoKeeps(s, actions[..|actions| - 1]);
      ApplyKeeps(Do(s, actions[..|actions| - 1]).state, actions[|actions| - 1]);
    }
  }

  /** One turn of the child's loop that copies n words, and one of the parent's that sends n. */
  function CopyOf(n: nat): seq<Action> {
    [Poll] + seq(n, _ => CopyWord)
  }

  function SendOf(n: nat): seq<Action> {
    [TakeToken] + seq(n, _ => SendWord)
  }

  function Copied(buf: seq<Word64>, ram: seq<Word64>, offset: nat, n: nat): (b: seq<Word64>)
    requires |buf| == |ram| == RING && offset + n <= RING
    ensures |b| == RING
  {
    buf[..offset] + ram[offset..offset + n] + buf[offset + n..]
  }

  lemma CopiedOneMore(buf: seq<Word64>, ram: seq<Word64>, offset: nat, n: nat)
    requires |buf| == |ram| == RING && offset + n < RING
    ensures Copied(buf, ram, offset, n)[offset + n := ram[offset + n]] == Copied(buf, ram, offset, n + 1)
  {
  }

  /** The state while a half is copied, after n words. */
  function DuringCopy(s: State, n: nat): State
    requires Sizes(s) && n <= HALF
  {
    var offset := OffsetOf(s.limit);
    s.(limit := Toggled(s.limit), child := Copying(offset, n), buf := Copied(s.buf, s.ram, offset, n))
  }

  /** What a copy comes to, word by word. */
  lemma {:induction false} CopyRun(s: State, n: nat)
    requires Sizes(s) && Enabled(s, Poll) && Ready(s.limit, |s.history| % RING) && n <= HALF
    ensures Do(s, CopyOf(n)) == Reached(DuringCopy(s, n))
  {
    if n == 0 {
      assert CopyOf(0) == [] + [Poll];
      DoAppend(s, [], Poll);
      CopyStart(s);
    } else {
      CopyRun(s, n - 1);
      CopyLonger(s, n - 1);
      CopyStep(s, n - 1);
    }
  }

  lemma CopyStart(s: State)
    requires Sizes(s) && Enabled(s, Poll) && Ready(s.limit, |s.history| % RING)
    ensures DoOne(Reached(s), Poll) == Reached(DuringCopy(s, 0))
  {
    assert Copied(s.buf, s.ram, OffsetOf(s.limit), 0) == s.buf;
  }

  lemma CopyLonger(s: State, n: nat)
    ensures Do(s, CopyOf(n + 1)) == DoOne(Do(s, CopyOf(n)), CopyWord)
  {
    assert CopyOf(n + 1) == CopyOf(n) + [CopyWord];
    DoAppend(s, CopyOf(n), CopyWord);
  }

  lemma SendLonger(s: State, n: nat)
    ensures Do(s, SendOf(n + 1)) == DoOne(Do(s, SendOf(n)), SendWord)
  {
    assert SendOf(n + 1) == SendOf(n) + [SendWord];
    DoAppend(s, SendOf(n), SendWord);
  }

  lemma CopyStep(s: State, n: nat)
    requires Sizes(s) && n < HALF
    ensures DoOne(Reached(DuringCopy(s, n)), CopyWord) == Reached(DuringCopy(s, n + 1))
  {
    CopiedOneMore(s.buf, s.ram, OffsetOf(s.limit), n);
  }

  /** The state after a whole copy. */
  function CopyDone(s: State): State
    requires Sizes(s)
  {
    s.(limit := Toggled(s.limit), buf := Copied(s.buf, s.ram, OffsetOf(s.limit), HALF),
       copies := s.copies + 1, tokens := s.tokens + 1)
  }

  lemma CopyTurn(s: State)
    requires Inv(s) && s.child.Polling? && Enabled(s, Poll) && Ready(s.limit, |s.history| % RING)
    ensures Do(s, CopyOf(HALF) + [EndCopy]) == Reached(CopyDone(s)) && Inv(CopyDone(s))
    ensures Holds(s.history, CopyDone(s).buf, s.copies, HALF)
  {
    CopyRun(s, HALF);
    DoAppend(s, CopyOf(HALF), EndCopy);
    DoKeeps(s, CopyOf(HALF) + [EndCopy]);
    ReadyIff(|s.history|, s.copies);
    CopyHolds(s);
  }

  lemma CopyHolds(s: State)
    requires Sizes(s) && InRam(s.history, s.ram) && OffsetOf(s.limit) == OffsetOfLap(s.copies)
    requires (s.copies + 1) * HALF <= |s.history| <= (s.copies + 2) * HALF
    ensures Holds(s.history, CopyDone(s).buf, s.copies, HALF)
  {
    var offset := OffsetOfLap(s.copies);
    forall p | offset <= p < offset + HALF
      ensures CopyDone(s).buf[p] == s.history[s.copies * HALF + p - offset]
    {
      LapInRing(s.copies, p - offset);
      assert s.ram[(s.copies * HALF + (p - offset)) % RING] == s.history[s.copies * HALF + (p - offset)];
    }
  }

  lemma IdlePoll(s: State)
    requires Sizes(s) && Enabled(s, Poll) && !Ready(s.limit, |s.history| % RING)
    ensures Do(s, [Poll]) == Reached(s)
  {
    DoAppend(s, [], Poll);
    assert [] + [Poll] == [Poll];
  }

  /** The state while a half is written out, after n words. */
  function DuringSend(s: State, n: nat): State
    requires Sizes(s) && s.tokens > 0 && 0 <= s.next <= HALF && n <= HALF
  {
    s.(tokens := s.tokens - 1, parent := Sending(s.next, n), out := s.out + s.buf[s.next..s.next + n])
  }

  /** What writing out a half comes to, word by word. */
  lemma {:induction false} SendRun(s: State, n: nat)
    requires Sizes(s) && Enabled(s, TakeToken) && 0 <= s.next <= HALF && n <= HALF
    ensures Do(s, SendOf(n)) == Reached(DuringSend(s, n))
  {
    if n == 0 {
      assert SendOf(0) == [] + [TakeToken];
      DoAppend(s, [], TakeToken);
      SendStart(s);
    } else {
      SendRun(s, n - 1);
      SendLonger(s, n - 1);
      SendStep(s, n - 1);
    }
  }

  lemma SendStart(s: State)
    requires Sizes(s) && Enabled(s, TakeToken) && 0 <= s.next <= HALF
    ensures DoOne(Reached(s), TakeToken) == Reached(DuringSend(s, 0))
  {
    assert s.out + s.buf[s.next..s.next] == s.out;
  }

  lemma SendStep(s: State, n: nat)
    requires Sizes(s) && s.tokens > 0 && 0 <= s.next <= HALF && n < HALF
    ensures DoOne(Reached(DuringSend(s, n)), SendWord) == Reached(DuringSend(s, n + 1))
  {
    SentOneMore(s.out, s.buf, s.next, n);
  }

  lemma SentOneMore(out: seq<Word64>, buf: seq<Word64>, next: nat, n: nat)
    requires next + n < |buf|
    ensures out + buf[next..next + n] + [buf[next + n]] == out + buf[next..next + n + 1]
  {
  }

  /** The state after a half has been written out. */
  function SendDone(s: State): State
    requires Sizes(s) && s.tokens > 0 && 0 <= s.next <= HALF
  {
    s.(tokens := s.tokens - 1, next := HALF - s.next, sent := s.sent + 1,
       out := s.out + s.buf[s.next..s.next + HALF])
  }

  lemma SendTurn(s: State)
    requires Inv(s) && Enabled(s, TakeToken)
    ensures Do(s, SendOf(HALF) + [EndSend]) == Reached(SendDone(s)) && Inv(SendDone(s))
  {
    SendRun(s, HALF);
    DoAppend(s, SendOf(HALF), EndSend);
    DoKeeps(s, SendOf(HALF) + [EndSend]);
  }

  // ----- The program

  /** Both processes, each between two turns of its loop. The writer's history and the numbers of
      copies and sends are kept for the proof. */
  class Recorder {
    const ram: array<Word64>
    const buf: array<Word64>
    var limit: int
    /** Tokens in the pipe. */
    var tokens: nat
    /** The half that the parent writes out next. */
    var next: int
    var out: seq<Word64>
    ghost var history: seq<Word64>
    ghost var copies: nat
    ghost var sent: nat

    /** The state of the step machine that this is. */
    ghost function Now(): State
      reads this, ram, buf
    {
      State(history, ram[..], limit, Polling, copies, tokens, buf[..], Waiting, next, sent, out)
    }

    ghost predicate Valid()
      reads this, ram, buf
    {
      ram != buf && Inv(Now())
    }

    constructor (ram: array<Word64>, buf: array<Word64>)
      requires ram.Length == RING && buf.Length == RING && ram != buf
      ensures Valid() && this.ram == ram && this.buf == buf
      ensures Now() == Initial(ram[..], buf[..])
    {
      this.ram, this.buf, limit, tokens, next, out := ram, buf, HALF, 0, 0, [];
      history, copies, sent := [], 0, 0;
    }

    /** What the hardware does between two turns: it writes one word after the at words before. */
    method HardwareWrites(at: nat, w: Word64)
      requires at == |history| && Valid() && Enabled(Now(), Write(w))
      modifies this`history, ram
      ensures Valid() && Now() == Apply(old(Now()), Write(w)) && history == old(history) + [w]
    {
      WriteKeeps(Now(), w);
      ghost var s := Now();
      ram[at % RING] := w;
      history := history + [w];
      assert Now() == Apply(s, Write(w));
    }

    /** One turn of the child's loop is a run of the step machine: a poll and, when the half is
        complete, the copy of its words and the token. */
    method Poll(position: int) returns (copied: bool)
      requires position == |history| % RING && Valid() && Enabled(Now(), Action.Poll)
      modifies this`limit, this`tokens, this`copies, buf
      ensures Valid() && copied == Ready(old(limit), position)
      ensures Do(old(Now()), if copied then CopyOf(HALF) + [EndCopy] else [Action.Poll]) == Reached(Now())
      ensures copied ==> Now() == CopyDone(old(Now())) && Holds(history, buf[..], old(copies), HALF)
      ensures !copied ==> Now() == old(Now())
    {
      ghost var s := Now();
      copied := (limit > 0 && position > limit) || (limit == 0 && position < HALF);
      if copied {
        CopyTurn(s);
        var offset := if limit > 0 then 0 else HALF;
        limit := if limit > 0 then 0 else HALF;
        CopyHalf(offset);
        tokens := tokens + 1;
        copies := copies + 1;
        assert Now() == CopyDone(s);
      } else {
        IdlePoll(s);
      }
    }

    method CopyHalf(offset: int)
      requires ram.Length == RING && buf.Length == RING && ram != buf && (offset == 0 || offset == HALF)
      modifies buf
      ensures buf[..] == Copied(old(buf[..]), ram[..], offset, HALF)
    {
      for i := 0 to HALF
        invariant buf[..] == Copied(old(buf[..]), ram[..], offset, i)
      {
        buf[offset + i] := ram[offset + i];
        CopiedOneMore(old(buf[..]), ram[..], offset, i);
      }
    }

    /** One turn of the parent's loop is a run of the step machine: one token is read and one half
        written out; without a token the parent waits. */
    method SendHalf()
      requires Valid() && Enabled(Now(), TakeToken)
      modifies this`tokens, this`next, this`out, this`sent
      ensures Valid() && out == history[..sent * HALF] && sent == old(sent) + 1
      ensures Do(old(Now()), SendOf(HALF) + [EndSend]) == Reached(Now())
    {
      ghost var s := Now();
      SendTurn(s);
      tokens := tokens - 1;
      out := out + buf[next..next + HALF];
      next := HALF - next;
      sent := sent + 1;
      assert Now() == SendDone(s);
    }

    /** When the pipe is empty and the next half-lap is complete (for even numbers, one word
        later), a turn of the child and one of the parent write out exactly that half-lap. */
    method CopyAndSend(position: int)
      requires Valid() && position == |history| % RING && tokens == 0
      requires |history| < (copies + 2) * HALF
      requires (copies + 1) * HALF + (if copies % 2 == 0 then 1 else 0) <= |history|
      modifies this`limit, this`tokens, this`copies, this`next, this`out, this`sent, buf
      ensures Valid() && tokens == 0 && copies == old(copies) + 1
      ensures out == history[..copies * HALF] && |out| == |old(out)| + HALF
    {
      ReadyIff(|history|, copies);
      var copied := Poll(position);
      SendHalf();
    }
  }
}

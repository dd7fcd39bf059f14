/** The byte-stream reader of lago_test: blocks go into a circular buffer, four bytes 0xFF start
    the words, the last bytes of a block wait for the next, both counters are rebased. */
module StreamReader {
  import opened Words
  import opened WordFormat
  import opened StreamSpec
  import opened Clock
  import WordMachine

  const CIRCSIZE: nat := 65536
  const CLEAN: nat := 32768

  lemma IndexModulo(p: nat, q: nat)
    requires q <= p < q + CIRCSIZE
    ensures p % CIRCSIZE == if q % CIRCSIZE + (p - q) < CIRCSIZE then q % CIRCSIZE + (p - q)
                            else q % CIRCSIZE + (p - q) - CIRCSIZE
  {
  }

  lemma SameIndex(p: nat)
    ensures (p + CIRCSIZE) % CIRCSIZE == p % CIRCSIZE
  {
  }

  /** Rebasing once in a call is enough to keep the counters small for ever. */
  lemma RebaseBound(written: nat, read: nat)
    requires written % BLOCK == 0 && written <= 2 * CIRCSIZE + BLOCK && written <= read + 4
    ensures (written + BLOCK) % BLOCK == 0 && (written + BLOCK - CIRCSIZE) % BLOCK == 0
    ensures written + BLOCK <= 2 * CIRCSIZE + CLEAN
    ensures written + BLOCK - (if read > 2 * CIRCSIZE then CIRCSIZE else 0) <= 2 * CIRCSIZE + BLOCK
  {
  }

  // ----- The scan

  /** Where the call after the last block starts to scan: at the four bytes kept back. */
  function ScanStart(stream: seq<u8>): nat
    requires |stream| % BLOCK == 0 && stream != []
  {
    if |stream| == BLOCK then 0 else |stream| - BLOCK - 4
  }

  /** The scan has come to at, the last ok bytes are 0xFF, and no marker has ended. */
  ghost predicate Scanning(stream: seq<u8>, from: nat, at: nat, ok: nat) {
    && from + ok <= at <= |stream| - 4 && ok < 4
    && (forall p :: at - ok <= p < at ==> stream[p] == 0xFF)
    && (from + ok == at || stream[at - ok - 1] != 0xFF)
    && forall e: nat :: e <= at ==> !MarkerEnds(stream, e)
  }

  lemma ScanOther(stream: seq<u8>, from: nat, at: nat, ok: nat)
    requires Scanning(stream, from, at, ok) && at < |stream| - 4 && stream[at] != 0xFF
    ensures Scanning(stream, from, at + 1, 0)
  {
    if at >= 3 {
      assert stream[at - 3..at + 1][3] == stream[at];
    }
  }

  lemma ScanThird(stream: seq<u8>, at: nat, ok: nat)
    requires |stream| % BLOCK == 0 && stream != [] && at < |stream| - 4
    requires Scanning(stream, ScanStart(stream), at, ok) && stream[at] == 0xFF && ok < 3
    ensures Scanning(stream, ScanStart(stream), at + 1, ok + 1)
  {
    if MarkerEnds(stream, at + 1) {
      assert stream[at - 3..at + 1][2 - ok] == stream[at - ok - 1];
      WindowOf(|stream|, at + 1);
      assert false;
    }
  }

  /** A marker that ends within what this call scans also starts there. */
  lemma WindowOf(n: nat, e: nat)
    requires n % BLOCK == 0 && n > 0
    requires (if n == BLOCK then 0 else n - BLOCK - 4) < e <= n - 4
    ensures n > BLOCK ==> (e % BLOCK <= BLOCK - 4 <==> n - BLOCK - 4 <= e - 4)
    ensures n == BLOCK ==> e % BLOCK <= BLOCK - 4
  {
  }

  lemma ScanFourth(stream: seq<u8>, at: nat)
    requires |stream| % BLOCK == 0 && stream != [] && at < |stream| - 4
    requires Scanning(stream, ScanStart(stream), at, 3) && stream[at] == 0xFF
    ensures FirstMarker(stream, at + 1)
  {
    WindowOf(|stream|, at + 1);
    assert stream[at - 3..at + 1] == MARKER;
  }

  /** One byte more: the count of 0xFF goes on, starts again, or reaches the marker. */
  lemma ScanOne(stream: seq<u8>, at: nat, run: nat)
    requires |stream| % BLOCK == 0 && stream != [] && at < |stream| - 4
    requires Scanning(stream, ScanStart(stream), at, run)
    ensures var ok := if stream[at] == 0xFF then run + 1 else 0;
      if ok == 4 then FirstMarker(stream, at + 1) else Scanning(stream, ScanStart(stream), at + 1, ok)
  {
    if stream[at] != 0xFF {
      ScanOther(stream, ScanStart(stream), at, run);
    } else if run < 3 {
      ScanThird(stream, at, run);
    } else {
      ScanFourth(stream, at);
    }
  }

  lemma NoneYet(stream: seq<u8>, data: seq<u8>, at: int)
    requires NoMarker(stream) && at <= if stream == [] then 0 else |stream| - 4
    ensures forall e: nat :: e <= at ==> !MarkerEnds(stream + data, e)
  {
    forall e: nat | e <= at
      ensures !MarkerEnds(stream + data, e)
    {
      if e > 0 {
        MarkerStays(stream, data, e);
      }
    }
  }

  // ----- Words so far

  /** The words decoded so far are those cut from the bytes up to position. */
  ghost predicate InStep(stream: seq<u8>, ws: seq<u32>, synced: bool, origin: nat, position: int) {
    if synced then
      && FirstMarker(stream, origin)
      && position == origin + 4 * |ws| && position <= |stream|
      && ws == CutN(stream, origin, |ws|)
    else NoMarker(stream) && ws == []
  }

  lemma OneMoreWord(stream: seq<u8>, ws: seq<u32>, origin: nat, position: nat)
    requires InStep(stream, ws, true, origin, position) && position + 4 < |stream|
    ensures InStep(stream, ws + [WordAt(stream, position)], true, origin, position + 4)
  {
    assert CutN(stream, origin, |ws| + 1) == CutN(stream, origin, |ws|) + [WordAt(stream, position)];
  }

  lemma MoreBytes(stream: seq<u8>, more: seq<u8>, ws: seq<u32>, origin: nat, position: int)
    requires InStep(stream, ws, true, origin, position)
    ensures InStep(stream + more, ws, true, origin, position)
  {
    FirstMarkerStays(stream, more, origin);
    CutNStays(stream, more, origin, |ws|);
  }

  /** With 1 to 4 bytes left, exactly the words of the specification have been decoded. */
  lemma AllWordsDecoded(stream: seq<u8>, ws: seq<u32>, synced: bool, origin: nat, position: int)
    requires InStep(stream, ws, synced, origin, position)
    requires synced ==> |stream| - 4 <= position < |stream|
    ensures ws == Decoded(stream)
  {
    if synced {
      DecodedIs(stream, origin);
      assert |ws| == (|stream| - 1 - origin) / 4;
    }
  }

  class Reader {
    const circbuf: array<u8>
    const machine: WordMachine.Machine
    var bufwrite: nat
    var bufread: nat
    var bufsync: bool
    /** The bytes of all blocks since the clean call. */
    ghost var received: seq<u8>
    /** Where the first word starts in received. */
    ghost var origin: nat

    ghost function Repr(): set<object> {
      {this, circbuf} + machine.Repr()
    }

    /** Objects do not overlap; never changes. */
    ghost predicate Separate() {
      && circbuf.Length == CIRCSIZE
      && machine.Shape()
      && this !in machine.Repr() && circbuf !in machine.Repr()
    }

    /** The words decoded since the clean call: those that the word machine has processed. */
    ghost function Words(): seq<u32>
      reads machine
    {
      machine.heard
    }

    /** The position in received that bufread stands for. */
    ghost function Position(): int
      reads this
    {
      |received| - bufwrite + bufread
    }

    /** The unread bytes are in the ring. */
    ghost predicate Ring()
      reads this, circbuf
    {
      && circbuf.Length == CIRCSIZE
      && bufread <= bufwrite && bufwrite - bufread <= |received|
      && forall p :: bufread <= p < bufwrite ==> circbuf[p % CIRCSIZE] == received[|received| - bufwrite + p]
    }

    /** The buffer once a block has come in, before and after each word decoded. */
    ghost predicate Loaded()
      reads this, circbuf, machine
    {
      && bufwrite % BLOCK == 0 && |received| % BLOCK == 0 && received != []
      && 0 < bufwrite <= 2 * CIRCSIZE + BLOCK
      && Ring() && bufread < bufwrite
      && InStep(received, Words(), bufsync, origin, Position())
      && (!bufsync ==> bufread == bufwrite - 4)
    }

    /** The buffer between calls: before the clean call, after it, and after a block. */
    ghost predicate Drained()
      reads this, circbuf, machine
    {
      && circbuf.Length == CIRCSIZE
      && if received == [] then
        && Words() == [] && bufread == bufwrite && !bufsync && (bufwrite == 0 || bufwrite == CLEAN)
      else Loaded() && bufwrite - bufread <= 4
    }

    ghost predicate Valid()
      reads Repr()
    {
      Separate() && machine.Valid() && Drained()
    }

    /** Nothing has been read yet; the files of the first hour are open. */
    constructor (mode: Mode, time: int)
      ensures Valid() && fresh(Repr())
      ensures bufwrite == 0 && received == []
      ensures machine.mode == mode && machine.startTime == time
    {
      circbuf := new u8[CIRCSIZE](_ => 0);
      machine := new WordMachine.Machine(mode, time);
      bufwrite, bufread, bufsync := 0, 0, false;
      received, origin := [], 0;
    }

    /** A block goes into the ring at bufwrite: it fits before the end, and no unread byte is
        overwritten. */
    method Receive(data: seq<u8>)
      requires Ring() && bufwrite - bufread <= 4 && bufwrite % BLOCK == 0 && |data| == BLOCK
      modifies circbuf, this`bufwrite, this`received
      ensures old(bufwrite) % CIRCSIZE + |data| <= CIRCSIZE
      ensures Ring() && bufwrite == old(bufwrite) + BLOCK && received == old(received) + data
    {
      var at := bufwrite % CIRCSIZE;
      forall i | 0 <= i < |data| {
        circbuf[at + i] := data[i];
      }
      bufwrite := bufwrite + BLOCK;
      received := received + data;
      forall p | bufread <= p < bufwrite
        ensures circbuf[p % CIRCSIZE] == received[|received| - bufwrite + p]
      {
        if p < old(bufwrite) {
          IndexModulo(old(bufwrite), p);
          assert circbuf[p % CIRCSIZE] == old(circbuf[p % CIRCSIZE]);
        } else {
          IndexModulo(p, old(bufwrite));
          assert circbuf[at + (p - old(bufwrite))] == data[p - old(bufwrite)];
        }
      }
    }

    /** Scans for four consecutive bytes 0xFF; the count starts at 0 in every call. */
    method Synchronise()
      requires Ring() && !bufsync && Words() == []
      requires |received| % BLOCK == 0 && received != [] && bufread <= bufwrite - 4
      requires Position() == ScanStart(received)
      requires forall e: nat :: e <= Position() ==> !MarkerEnds(received, e)
      modifies this`bufread, this`bufsync, this`origin
      ensures Ring() && InStep(received, Words(), bufsync, origin, Position())
      ensures old(bufread) <= bufread <= bufwrite - 4
      ensures !bufsync ==> bufread == bufwrite - 4
    {
      var ok := 0;
      while bufread < bufwrite - 4 && !bufsync
        invariant Ring() && old(bufread) <= bufread <= bufwrite - 4
        invariant !bufsync ==> Scanning(received, ScanStart(received), Position(), ok)
        invariant bufsync ==> FirstMarker(received, Position())
        decreases bufwrite - bufread, !bufsync
      {
        ok := ScanByte(ok);
      }
      origin := Position();
      assert CutN(received, origin, 0) == [];
    }

    method ScanByte(run: nat) returns (ok: nat)
      requires Ring() && !bufsync && bufread < bufwrite - 4
      requires |received| % BLOCK == 0 && received != []
      requires Scanning(received, ScanStart(received), Position(), run)
      modifies this`bufread, this`bufsync
      ensures Ring() && bufread == old(bufread) + 1
      ensures !bufsync ==> Scanning(received, ScanStart(received), Position(), ok)
      ensures bufsync ==> FirstMarker(received, Position())
    {
      ghost var at := Position();
      assert circbuf[bufread % CIRCSIZE] == received[at];
      ok := if circbuf[bufread % CIRCSIZE] == 0xFF then run + 1 else 0;
      ScanOne(received, at, run);
      bufread := bufread + 1;
      if ok == 4 {
        bufsync := true;
      }
    }

    method Rebase()
      requires Ring()
      modifies this`bufread, this`bufwrite
      ensures Ring() && Position() == old(Position())
      ensures bufread % CIRCSIZE == old(bufread) % CIRCSIZE && bufwrite % CIRCSIZE == old(bufwrite) % CIRCSIZE
      ensures bufwrite - bufread == old(bufwrite - bufread)
      ensures bufwrite == old(bufwrite) - if old(bufread) > 2 * CIRCSIZE then CIRCSIZE else 0
    {
      if bufread > 2 * CIRCSIZE {
        bufread := bufread - CIRCSIZE;
        bufwrite := bufwrite - CIRCSIZE;
        SameIndex(bufread);
        SameIndex(bufwrite);
        forall p | bufread <= p < bufwrite
          ensures circbuf[p % CIRCSIZE] == received[|received| - bufwrite + p]
        {
          SameIndex(p);
        }
      }
    }

    /** Decodes all whole words that leave at least one byte behind them. */
    method DecodeWords()
      requires Separate() && machine.Valid() && Loaded()
      modifies this`bufread, machine.Repr()
      ensures Valid() && old(Words()) <= Words()
    {
      while bufread < bufwrite - 4
        invariant machine.Valid() && Loaded() && old(Words()) <= Words()
      {
        DecodeOne();
      }
    }

    method DecodeOne()
      requires Separate() && machine.Valid() && Loaded() && bufread + 4 < bufwrite
      modifies this`bufread, machine.Repr()
      ensures machine.Valid() && Loaded() && bufread == old(bufread) + 4 && old(Words()) <= Words()
    {
      var wo := TakeWord();
      machine.Hear(wo);
    }

    /** The next word leaves the buffer; the word machine has yet to hear it. */
    method TakeWord() returns (wo: u32)
      requires Loaded() && bufread + 4 < bufwrite
      modifies this`bufread
      ensures bufsync && Ring() && bufread == old(bufread) + 4
      ensures InStep(received, Words() + [wo], bufsync, origin, Position())
    {
      wo := NextWord();
      OneMoreWord(received, Words(), origin, Position());
      bufread := bufread + 4;
    }

    method NextWord() returns (wo: u32)
      requires Ring() && bufread + 4 <= bufwrite
      ensures Position() >= 0 && wo == WordAt(received, Position())
    {
      var bytes := [circbuf[bufread % CIRCSIZE], circbuf[(bufread + 1) % CIRCSIZE],
                    circbuf[(bufread + 2) % CIRCSIZE], circbuf[(bufread + 3) % CIRCSIZE]];
      wo := BigEndian(bytes);
      assert bytes == received[Position()..Position() + 4];
    }

    /** The clean call: 32768 bytes come in and are skipped, unscanned. */
    method Clean(data: seq<u8>)
      requires Valid() && bufwrite == 0 && |data| == CLEAN
      modifies Repr()
      ensures Valid() && received == [] && bufwrite == CLEAN
    {
      machine.ClearRates();
      forall i | 0 <= i < |data| {
        circbuf[i] := data[i];
      }
      bufwrite := bufwrite + CLEAN;
      bufread := bufwrite;
    }

    /** The first half of a call: a block comes in, if need be the scan looks for the marker, and
        the counters are rebased. */
    method TakeBlock(data: seq<u8>)
      requires Drained() && bufwrite > 0 && |data| == BLOCK
      modifies circbuf, this`bufwrite, this`bufread, this`bufsync, this`received, this`origin
      ensures Loaded() && received == old(received) + data
    {
      ghost var before := received;
      Receive(data);
      if !bufsync {
        NoneYet(before, data, Position());
        Synchronise();
      } else {
        MoreBytes(before, data, Words(), origin, Position());
      }
      RebaseBound(old(bufwrite), bufread);
      Rebase();
    }

    /** One block: receive, look for the marker, rebase, decode. */
    method Block(data: seq<u8>)
      requires Valid() && bufwrite > 0 && |data| == BLOCK
      modifies Repr()
      ensures Valid() && received == old(received) + data
      ensures old(Words()) <= Words()
    {
      TakeBlock(data);
      DecodeWords();
    }

    /** One call. Clean calls read 32768 bytes and throw them away; other calls read a block of
        16384 bytes if the status byte says that one is ready. */
    method ReadBuffer(wr: bool, clean: bool, status: u8, data: seq<u8>) returns (rc: int)
      requires Valid()
      requires if clean then !wr && bufwrite == 0 && |data| == CLEAN else wr && bufwrite > 0
      requires !clean && status >= 128 ==> |data| == BLOCK
      modifies Repr()
      ensures Valid() && bufwrite > 0
      ensures clean ==> rc == 1 && received == []
      ensures !clean && status < 128 ==> rc == 0 && unchanged(Repr())
      ensures !clean && status >= 128 ==>
        rc == 1 && received == old(received) + data && 1 <= bufwrite - bufread <= 4
      ensures Words() == Decoded(received)
      ensures bufwrite % BLOCK == 0 && bufwrite <= 2 * CIRCSIZE + BLOCK
    {
      if clean {
        Clean(data);
      } else if status >= 128 {
        Block(data);
      }
      AllWordsDecoded(received, Words(), bufsync, origin, Position());
      return if !clean && status < 128 then 0 else 1;
    }

    method OneCall(call: Call)
      requires Valid() && bufwrite > 0 && call.Valid()
      modifies Repr()
      ensures Valid() && bufwrite > 0 && Words() == Decoded(received)
      ensures bufwrite % BLOCK == 0 && bufwrite <= 2 * CIRCSIZE + BLOCK
      ensures received == old(received) + call.Bytes()
    {
      var rc := ReadBuffer(true, false, call.status, call.data);
    }

    /** The acquisition loop over a finite number of calls: a status byte and, if it announces a
        block, the block. */
    method Acquire(calls: seq<Call>)
      requires Valid() && bufwrite > 0 && received == []
      requires forall k :: 0 <= k < |calls| ==> calls[k].Valid()
      modifies Repr()
      ensures Valid() && received == BlocksOf(calls) && Words() == Decoded(BlocksOf(calls))
      ensures bufwrite % BLOCK == 0 && bufwrite <= 2 * CIRCSIZE + BLOCK
    {
      var k := 0;
      AllWordsDecoded(received, Words(), bufsync, origin, Position());
      while k < |calls|
        invariant 0 <= k <= |calls| && Valid() && bufwrite > 0
        invariant bufwrite % BLOCK == 0 && bufwrite <= 2 * CIRCSIZE + BLOCK
        invariant received == BlocksOf(calls[..k]) && Words() == Decoded(received)
      {
        OneCall(calls[k]);
        BlocksOneMore(calls, k);
        k := k + 1;
      }
      assert calls[..k] == calls;
    }
  }

  /** What the device answers to one call: the status byte, and the block if one is ready. */
  datatype Call = Call(status: u8, data: seq<u8>) {
    predicate Valid() {
      status >= 128 ==> |data| == BLOCK
    }

    function Bytes(): seq<u8> {
      if status >= 128 then data else []
    }
  }

  function BlocksOf(calls: seq<Call>): seq<u8> {
    if calls == [] then []
    else BlocksOf(calls[..|calls| - 1]) + calls[|calls| - 1].Bytes()
  }

  lemma BlocksOneMore(calls: seq<Call>, k: nat)
    requires k < |calls|
    ensures BlocksOf(calls[..k + 1]) == BlocksOf(calls[..k]) + calls[k].Bytes()
  {
    assert calls[..k + 1][..k] == calls[..k];
  }
}

/** What the byte-stream reader of lago_test is for: find the synchronisation marker, then cut
    the stream into big-endian words. */
module StreamSpec {
  import opened Words
  import opened WordFormat

  const BLOCK: nat := 16384

  const MARKER: seq<u8> := [0xFF, 0xFF, 0xFF, 0xFF]

  /** Four bytes 0xFF end at e, and the four bytes kept back for the next block come after them. */
  predicate PlainMarker(stream: seq<u8>, e: nat) {
    4 <= e && e + 4 <= |stream| && stream[e - 4..e] == MARKER
  }

  /** The marker lies within what one call scans: the call for block j looks at the bytes from
      16384 j - 4 up to, not including, 16384 (j + 1) - 4. */
  predicate MarkerEnds(stream: seq<u8>, e: nat) {
    PlainMarker(stream, e) && e % BLOCK <= BLOCK - 4
  }

  ghost predicate FirstMarker(stream: seq<u8>, e: nat) {
    MarkerEnds(stream, e) && forall d: nat :: d < e ==> !MarkerEnds(stream, d)
  }

  ghost predicate FirstPlainMarker(stream: seq<u8>, e: nat) {
    PlainMarker(stream, e) && forall d: nat :: d < e ==> !PlainMarker(stream, d)
  }

  ghost predicate NoMarker(stream: seq<u8>) {
    forall e: nat :: !MarkerEnds(stream, e)
  }

  function WordAt(stream: seq<u8>, p: nat): u32
    requires p + 4 <= |stream|
  {
    BigEndian(stream[p..p + 4])
  }

  /** n words from position e. */
  function CutN(stream: seq<u8>, e: nat, n: nat): (ws: seq<u32>)
    requires e + 4 * n <= |stream|
    ensures |ws| == n
  {
    seq(n, k requires 0 <= k < n => WordAt(stream, e + 4 * k))
  }

  /** All words that leave at least one byte behind them. */
  function Cut(stream: seq<u8>, e: nat): (ws: seq<u32>)
    requires e + 4 <= |stream|
  {
    CutN(stream, e, (|stream| - 1 - e) / 4)
  }

  /** All words that should have been decoded when the stream has come in. */
  ghost function Decoded(stream: seq<u8>): seq<u32> {
    if NoMarker(stream) then []
    else
      FirstMarkerExists(stream);
      var e: nat :| FirstMarker(stream, e);
      Cut(stream, e)
  }

  lemma FirstMarkerExists(stream: seq<u8>)
    requires !NoMarker(stream)
    ensures exists e: nat :: FirstMarker(stream, e)
  {
    var e: nat :| MarkerEnds(stream, e);
    LeastMarker(stream, e);
  }

  lemma {:induction false} LeastMarker(stream: seq<u8>, e: nat)
    requires MarkerEnds(stream, e)
    ensures exists d: nat :: FirstMarker(stream, d)
  {
    if d: nat :| d < e && MarkerEnds(stream, d) {
      LeastMarker(stream, d);
    } else {
      assert FirstMarker(stream, e);
    }
  }

  lemma FirstMarkerUnique(stream: seq<u8>, d: nat, e: nat)
    requires FirstMarker(stream, d) && FirstMarker(stream, e)
    ensures d == e
  {
    assert !(d < e) && !(e < d);
  }

  lemma DecodedIs(stream: seq<u8>, e: nat)
    requires FirstMarker(stream, e)
    ensures Decoded(stream) == Cut(stream, e)
  {
    var d: nat :| FirstMarker(stream, d) && Decoded(stream) == Cut(stream, d);
    FirstMarkerUnique(stream, d, e);
  }

  lemma MarkerStays(stream: seq<u8>, more: seq<u8>, e: nat)
    requires e + 4 <= |stream|
    ensures MarkerEnds(stream + more, e) <==> MarkerEnds(stream, e)
  {
    if 4 <= e {
      assert (stream + more)[e - 4..e] == stream[e - 4..e];
    }
  }

  lemma FirstMarkerStays(stream: seq<u8>, more: seq<u8>, e: nat)
    requires FirstMarker(stream, e)
    ensures FirstMarker(stream + more, e)
  {
    forall d: nat | d <= e
      ensures MarkerEnds(stream + more, d) <==> MarkerEnds(stream, d)
    {
      MarkerStays(stream, more, d);
    }
  }

  lemma CutNStays(stream: seq<u8>, more: seq<u8>, e: nat, n: nat)
    requires e + 4 * n <= |stream|
    ensures CutN(stream + more, e, n) == CutN(stream, e, n)
  {
    forall k | 0 <= k < n
      ensures WordAt(stream + more, e + 4 * k) == WordAt(stream, e + 4 * k)
    {
      assert (stream + more)[e + 4 * k..e + 4 * k + 4] == stream[e + 4 * k..e + 4 * k + 4];
    }
  }

  /** More bytes never change or reorder the words decoded before. */
  lemma DecodedGrows(stream: seq<u8>, more: seq<u8>)
    ensures Decoded(stream) <= Decoded(stream + more)
  {
    if !NoMarker(stream) {
      FirstMarkerExists(stream);
      var e: nat :| FirstMarker(stream, e);
      FirstMarkerStays(stream, more, e);
      DecodedIs(stream, e);
      DecodedIs(stream + more, e);
      var n := (|stream| - 1 - e) / 4;
      CutNStays(stream, more, e, n);
      assert CutN(stream + more, e, n) == Cut(stream + more, e)[..n];
    }
  }

  // ----- The first four bytes 0xFF of the stream

  /** A marker that straddles the boundary between what two calls look at is followed, if at all,
      by one that ends in the next block or later: its cut is shorter. */
  lemma LaterCutShorter(stream: seq<u8>, e: nat, d: nat)
    requires |stream| % BLOCK == 0 && e + 4 <= |stream| && d + 4 <= |stream|
    requires e % BLOCK > BLOCK - 4 && e < d && d % BLOCK <= BLOCK - 4
    ensures |Cut(stream, d)| < |Cut(stream, e)|
  {
    var n := NextBlock(e, d);
    var m := |stream| / BLOCK * (BLOCK / 4);
    assert |stream| == 4 * m;
    assert (|stream| - 1 - d) / 4 < m - n * (BLOCK / 4) <= (|stream| - 1 - e) / 4;
  }

  /** The boundary that lies behind e, counted in blocks. */
  lemma NextBlock(e: nat, d: nat) returns (n: nat)
    requires e % BLOCK > BLOCK - 4 && e < d && d % BLOCK <= BLOCK - 4
    ensures e < n * BLOCK <= d
  {
    n := e / BLOCK + 1;
    MultipleIsFar(d / BLOCK - e / BLOCK, BLOCK);
  }

  lemma StraddlingCutNotEmpty(stream: seq<u8>, e: nat)
    requires |stream| % BLOCK == 0 && e + 4 <= |stream| && e % BLOCK > BLOCK - 4
    ensures Cut(stream, e) != []
  {
    assert e + BLOCK - e % BLOCK < |stream|;
  }

  /** After any number of blocks, what has been decoded is everything behind the first four
      consecutive 0xFF bytes of the stream if and only if these do not straddle the boundary
      between what two calls look at. */
  lemma DecodedFromFirstMarkerIff(stream: seq<u8>, e: nat)
    requires |stream| % BLOCK == 0 && FirstPlainMarker(stream, e)
    ensures Decoded(stream) == Cut(stream, e) <==> e % BLOCK <= BLOCK - 4
    ensures e % BLOCK > BLOCK - 4 ==> |Decoded(stream)| < |Cut(stream, e)|
  {
    if e % BLOCK <= BLOCK - 4 {
      assert FirstMarker(stream, e);
      DecodedIs(stream, e);
    } else if NoMarker(stream) {
      StraddlingCutNotEmpty(stream, e);
    } else {
      FirstMarkerExists(stream);
      var d: nat :| FirstMarker(stream, d);
      DecodedIs(stream, d);
      LaterCutShorter(stream, e, d);
    }
  }

  /** A marker across the boundary is passed over: here nothing is ever decoded. */
  lemma StraddlingMarkerMissed()
    ensures var stream: seq<u8> := seq(2 * BLOCK, i => if BLOCK - 6 <= i < BLOCK - 2 then 0xFF else 0);
      FirstPlainMarker(stream, BLOCK - 2) && Decoded(stream) == []
  {
    var stream: seq<u8> := seq(2 * BLOCK, i => if BLOCK - 6 <= i < BLOCK - 2 then 0xFF else 0);
    assert stream[BLOCK - 6..BLOCK - 2] == MARKER;
    forall e: nat | PlainMarker(stream, e)
      ensures e == BLOCK - 2
    {
      assert stream[e - 4] == stream[e - 4..e][0] == 0xFF;
      assert stream[e - 1] == stream[e - 4..e][3] == 0xFF;
    }
  }

  // ----- From the front end to the words

  function Bytes(ws: seq<u32>): (b: seq<u8>)
    ensures |b| == 4 * |ws|
  {
    if ws == [] then [] else Bytes(ws[..|ws| - 1]) + ToBytes(ws[|ws| - 1])
  }

  lemma {:induction false} BytesAt(ws: seq<u32>, k: nat)
    requires k < |ws|
    ensures BigEndian(Bytes(ws)[4 * k..4 * k + 4]) == ws[k]
  {
    var before, n := ws[..|ws| - 1], |ws| - 1;
    if k < n {
      BytesAt(before, k);
      assert Bytes(ws)[4 * k..4 * k + 4] == Bytes(before)[4 * k..4 * k + 4];
    } else {
      var last := ToBytes(ws[n]);
      assert Bytes(ws)[4 * n..4 * n + 4] == last;
    }
  }

  lemma SliceOfSlice(stream: seq<u8>, e: nat, b: seq<u8>, i: nat)
    requires e + |b| <= |stream| && stream[e..e + |b|] == b && i + 4 <= |b|
    ensures stream[e + i..e + i + 4] == b[i..i + 4]
  {
    assert b[i] == stream[e + i] && b[i + 1] == stream[e + i + 1];
    assert b[i + 2] == stream[e + i + 2] && b[i + 3] == stream[e + i + 3];
  }

  lemma WordSent(stream: seq<u8>, e: nat, ws: seq<u32>, k: nat)
    requires k < |ws|
    requires e + 4 * |ws| <= |stream| && stream[e..e + 4 * |ws|] == Bytes(ws)
    ensures WordAt(stream, e + 4 * k) == ws[k]
  {
    var sent := Bytes(ws);
    BytesAt(ws, k);
    WordIs(stream, e, sent, 4 * k, ws[k]);
  }

  lemma WordIs(stream: seq<u8>, e: nat, sent: seq<u8>, i: nat, wo: u32)
    requires e + |sent| <= |stream| && stream[e..e + |sent|] == sent
    requires i + 4 <= |sent| && BigEndian(sent[i..i + 4]) == wo
    ensures WordAt(stream, e + i) == wo
  {
    SliceOfSlice(stream, e, sent, i);
    var p := e + i;
    assert stream[p..p + 4] == sent[i..i + 4];
  }

  lemma CutAt(stream: seq<u8>, e: nat, k: nat)
    requires e + 4 <= |stream|
    ensures k < |Cut(stream, e)| <==> e + 4 * k + 4 < |stream|
    ensures k < |Cut(stream, e)| ==> Cut(stream, e)[k] == WordAt(stream, e + 4 * k)
  {
  }

  /** Words sent after a marker that is found are received in order; only the last one may be
      kept back until another byte comes in. */
  lemma WordsReceived(stream: seq<u8>, e: nat, ws: seq<u32>, k: nat)
    requires FirstMarker(stream, e)
    requires e + 4 * |ws| <= |stream| && stream[e..e + 4 * |ws|] == Bytes(ws)
    requires k < |ws|
    ensures k < |ws| - 1 ==> k < |Decoded(stream)|
    ensures k < |Decoded(stream)| ==> Decoded(stream)[k] == ws[k]
  {
    DecodedIs(stream, e);
    CutAt(stream, e, k);
    WordSent(stream, e, ws, k);
  }
}

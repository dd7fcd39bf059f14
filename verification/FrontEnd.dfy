/** The whole way of a word: encoded by the front end, sent after the marker, cut out of the
    stream and decoded. */
module FrontEnd {
  import opened Words
  import opened WordFormat
  import opened StreamSpec

  /** A stream that carries words after its first marker gives back all their fields once
      another byte has come in, whatever follows. */
  lemma FieldsReceived(stream: seq<u8>, e: nat, ws: seq<Word>)
    requires forall k :: 0 <= k < |ws| ==> ws[k].Valid()
    requires FirstMarker(stream, e)
    requires e + 4 * |ws| < |stream| && stream[e..e + 4 * |ws|] == Bytes(EncodeAll(ws))
    ensures ws <= DecodeAll(Decoded(stream))
    ensures |stream| <= e + 4 * |ws| + 4 ==> DecodeAll(Decoded(stream)) == ws
  {
    var sent := EncodeAll(ws);
    DecodedIs(stream, e);
    forall k | 0 <= k < |ws|
      ensures k < |Decoded(stream)| && Decoded(stream)[k] == sent[k]
    {
      CutAt(stream, e, k);
      WordsReceived(stream, e, sent, k);
    }
    forall k | 0 <= k < |ws|
      ensures DecodeAll(Decoded(stream))[k] == ws[k]
    {
      DecodeEncode(ws[k]);
    }
    if |stream| <= e + 4 * |ws| + 4 {
      CutAt(stream, e, |ws|);
    }
  }
}

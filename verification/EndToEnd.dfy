/** The encoder and the decoder as a caller uses them, one after the other. */
module EndToEnd {
  import opened Descriptors
  import opened Varints
  import opened Decoding
  import opened Encoding
  import opened RoundTrip
  import opened RoundTripMeaning
  import opened InputStreams
  import opened MessageDecoder
  import opened MessageEncoder

  lemma {:induction false} WellFormedUnique(d: seq<Field>)
    requires WellFormed(d)
    ensures UniqueTags(d) && Supported(d)
    decreases d
  {
    forall i | 0 <= i < |d| ensures UniqueTagsBelow(d[i]) {
      SupportedAt(d, i);
      assert d[i] in d && WellFormedField(d[i]);
      UniqueBelow(d[i]);
    }
  }

  lemma {:induction false} UniqueBelow(f: Field)
    requires SupportedField(f) && WellFormedField(f)
    ensures UniqueTagsBelow(f)
    decreases f
  {
    if f.ptr.SubFields? {
      SupportedSub(f);
      WellFormedUnique(f.ptr.fields);
    }
  }

  /** Encoding a struct into a buffer and decoding what was written: if the encoding exists
      and fits, everything the struct held comes back. */
  method ThroughBuffer(d: seq<Field>, m: Message, buf: array<byte>) returns (ok: bool, dest: Message)
    requires WellFormed(d) && Storable(d, m) && buf.Length < M32
    modifies buf
    ensures ok <==> Encode(d, m).Some? && |Encode(d, m).value| <= buf.Length
    ensures ok ==> Restored(d, m, dest)
  {
    WellFormedUnique(d);
    hide Encode, Decode, Supported, UniqueTags, WellFormed, Storable, Restored;
    var written;
    ok, written := EncodeToBuffer(d, m, buf);
    dest := map[];
    if ok {
      EncodeDecode(d, m);
      assert buf[..written] == Encode(d, m).value;
      var stream := new IStream(buf[..written]);
      ok, dest := PbDecode(stream, d);
    }
  }
}

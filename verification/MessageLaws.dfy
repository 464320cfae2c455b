/** Laws about whole messages: required fields, what can be encoded, and the framings of a
    message. */
module MessageLaws {
  import opened Descriptors
  import opened Varints
  import opened Decoding
  import opened Encoding
  import opened Merging
  import opened RoundTrip
  import opened RoundTripMeaning
  import opened MemorySafety

  // ---------- required fields ----------

  /** The positions of the fields that occur in the bytes, as the loop finds them. */
  function Occurring(d: seq<Field>, s: seq<byte>, m: Message): set<nat>
    decreases |s|
  {
    if s == [] then {}
    else
      match DecodeTag(s)
      case TagFail => {}
      case AtEnd(_) => {}
      case TagOf(wireType, tag, rest) =>
        var i := Search(d, tag, 0);
        if i < 0 then
          match SkipField(rest, wireType)
          case Fail => {}
          case Got(_, rest') => Occurring(d, rest', m)
        else
          match DecFound(d, i, wireType, rest, m)
          case Fail => {}
          case Got(m', rest') => {i} + Occurring(d, rest', m')
  }

  /** The required field with index k, if there is one. */
  predicate RequiredAt(d: seq<Field>, i: nat, k: nat) {
    i < |d| && d[i].htype.Required? && RequiredBefore(d, i) == k
  }

  lemma {:induction false} RequiredExists(d: seq<Field>, k: nat, n: nat) returns (i: nat)
    requires n <= |d| && k < RequiredBefore(d, n)
    ensures i < n && RequiredAt(d, i, k)
  {
    if d[n - 1].htype.Required? && k == RequiredBefore(d, n - 1) {
      i := n - 1;
    } else {
      i := RequiredExists(d, k, n - 1);
    }
  }

  lemma RequiredUnique(d: seq<Field>, i: nat, j: nat, k: nat)
    requires RequiredAt(d, i, k) && RequiredAt(d, j, k)
    ensures i == j
  {
    if i < j {
      RequiredBeforeMonotone(d, i + 1, j);
    } else if j < i {
      RequiredBeforeMonotone(d, j + 1, i);
    }
  }

  /** The set the loop keeps holds the index of a required field exactly if the field occurred. */
  lemma {:induction false} SeenIsOccurring(d: seq<Field>, s: seq<byte>, m: Message, seen: set<nat>, i: nat, k: nat)
    requires RequiredAt(d, i, k) && k < PB_MAX_REQUIRED_FIELDS
    requires RunFields(d, s, m, seen).Ran?
    ensures k in RunFields(d, s, m, seen).seen <==> k in seen || i in Occurring(d, s, m)
    decreases |s|
  {
    hide DecodeTag, SkipField, DecFound, Search;
    if s != [] && DecodeTag(s).TagOf? {
      var tag := DecodeTag(s);
      var j := Search(d, tag.tag, 0);
      if j < 0 {
        SeenIsOccurring(d, SkipField(tag.rest, tag.wireType).rest, m, seen, i, k);
      } else {
        var r := DecFound(d, j, tag.wireType, tag.rest, m);
        SeenIsOccurring(d, r.rest, r.value, Mark(d, j, seen), i, k);
        MarkedExactly(d, j, seen, i, k, tag.tag);
      }
    }
  }

  lemma MarkedExactly(d: seq<Field>, j: nat, seen: set<nat>, i: nat, k: nat, tag: nat)
    requires RequiredAt(d, i, k) && k < PB_MAX_REQUIRED_FIELDS && j == Search(d, tag, 0)
    ensures k in Mark(d, j, seen) <==> k in seen || i == j
  {
    if j < |d| && RequiredAt(d, j, k) { RequiredUnique(d, i, j, k); }
  }

  /** With at most 64 required fields, decoding succeeds exactly when the bytes can be read
      and every required field of the message occurs among them. */
  lemma RequiredFieldsIff(d: seq<Field>, s: seq<byte>, m: Message)
    requires RequiredBefore(d, |d|) <= PB_MAX_REQUIRED_FIELDS
    ensures DecodeNoInit(d, s, m).Got? <==>
            RunFields(d, s, m, {}).Ran? &&
            forall i | 0 <= i < |d| && d[i].htype.Required? :: i in Occurring(d, s, m)
  {
    hide RunFields, Occurring;
    var r := RunFields(d, s, m, {});
    if r.Ran? {
      forall i | 0 <= i < |d| && d[i].htype.Required?
        ensures RequiredBefore(d, i) < RequiredBefore(d, |d|)
        ensures RequiredBefore(d, i) in r.seen <==> i in Occurring(d, s, m)
      {
        RequiredBeforeMonotone(d, i + 1, |d|);
        SeenIsOccurring(d, s, m, {}, i, RequiredBefore(d, i));
      }
      if forall i | 0 <= i < |d| && d[i].htype.Required? :: i in Occurring(d, s, m) {
        forall k: nat | k < RequiredBefore(d, |d|) ensures k in r.seen {
          var i := RequiredExists(d, k, |d|);
        }
        assert AllRequiredSeen(d, r.seen);
      }
    }
  }

  // ---------- what can be encoded ----------

  /** No array in use is longer than its storage, no byte array longer than its buffer, and
      no integer of a size that the encoder does not know. */
  predicate WithinCapacity(d: seq<Field>, m: Message)
    decreases d, 1
  {
    forall i | 0 <= i < |d| :: FieldWithinCapacity(d[i], m, DataAt(d, i))
  }

  predicate FieldWithinCapacity(f: Field, m: Message, at: int)
    decreases f, 1
  {
    Present(f, m, at) ==>
      if f.htype.Repeated? then
        |OldItems(m, at)| <= f.arraySize && forall v | v in OldItems(m, at) :: ValueWithinCapacity(f, v)
      else ValueWithinCapacity(f, Content(f, m, at))
  }

  predicate ValueWithinCapacity(f: Field, v: Value)
    decreases f, 0
  {
    && (f.ltype.Varint? || f.ltype.UVarint? || f.ltype.SVarint? ==> IntSize(f.dataSize))
    && (f.ltype.Bytes? ==> |BytesOf(v)| + BYTES_HEADER <= f.dataSize)
    && (f.ltype.Submessage? && f.ptr.SubFields? ==> WithinCapacity(f.ptr.fields, SubMessage(v)))
  }

  lemma {:induction false} ValueEncodable(f: Field, v: Value)
    requires SupportedField(f)
    ensures EncValue(f, v).Some? <==> ValueWithinCapacity(f, v)
    decreases f, 0
  {
    hide Encode, Supported, WithinCapacity, EncString, EncodeVarint, FixedBytes;
    if f.ltype.Submessage? {
      EncodableIff(f.ptr.fields, SubMessage(v));
    }
  }

  lemma {:induction false} PackedEncodable(f: Field, items: seq<Value>)
    requires SupportedField(f) && Packable(f.ltype)
    ensures EncPacked(f, items).Some? <==> forall v | v in items :: ValueWithinCapacity(f, v)
    decreases f, 1, |items|
  {
    hide SupportedField, EncScalar, ValueWithinCapacity;
    if items != [] {
      ValueEncodable(f, items[0]);
      PackedEncodable(f, items[1..]);
      assert forall v :: v in items <==> v == items[0] || v in items[1..];
    }
  }

  lemma {:induction false} UnpackedEncodable(f: Field, items: seq<Value>)
    requires SupportedField(f)
    ensures EncUnpacked(f, items).Some? <==> forall v | v in items :: ValueWithinCapacity(f, v)
    decreases f, 1, |items|
  {
    hide SupportedField, EncTagFor, EncValue, ValueWithinCapacity;
    if items != [] {
      ValueEncodable(f, items[0]);
      UnpackedEncodable(f, items[1..]);
      assert forall v :: v in items <==> v == items[0] || v in items[1..];
    }
  }

  lemma {:induction false} FieldEncodable(d: seq<Field>, m: Message, i: nat)
    requires Supported(d) && i < |d|
    ensures EncField(d[i], m, DataAt(d, i)).Some? <==> FieldWithinCapacity(d[i], m, DataAt(d, i))
    decreases d[i], 2
  {
    hide Supported, SupportedField, DataAt, EncPacked, EncUnpacked, EncValue, EncTagFor, EncTag, EncString,
         ValueWithinCapacity, ZeroOrEmpty;
    var f, at := d[i], DataAt(d, i);
    SupportedAt(d, i);
    if Present(f, m, at) {
      if f.htype.Repeated? {
        if Packable(f.ltype) {
          PackedEncodable(f, OldItems(m, at));
        } else {
          UnpackedEncodable(f, OldItems(m, at));
        }
      } else {
        ValueEncodable(f, Content(f, m, at));
      }
    }
  }

  lemma {:induction false} FieldsEncodable(d: seq<Field>, m: Message, i: nat)
    requires Supported(d) && i <= |d|
    ensures EncFrom(d, m, i).Some? <==> forall j | i <= j < |d| :: FieldWithinCapacity(d[j], m, DataAt(d, j))
    decreases d, 0, |d| - i
  {
    hide Supported, DataAt, EncField, FieldWithinCapacity;
    if i < |d| {
      FieldEncodable(d, m, i);
      FieldsEncodable(d, m, i + 1);
    }
  }

  /** Encoding any struct fails exactly when some array in use, at any depth, is longer than
      its storage, some byte array longer than its buffer, or some integer of no known size. */
  lemma EncodableIff(d: seq<Field>, m: Message)
    requires Supported(d)
    ensures Encode(d, m).Some? <==> WithinCapacity(d, m)
    decreases d, 1
  {
    hide Supported, DataAt, EncFrom, FieldWithinCapacity;
    FieldsEncodable(d, m, 0);
  }

  // ---------- what was decoded can be encoded ----------

  lemma {:induction false} BoundedValue(f: Field, v: Value)
    requires SupportedField(f) && InBounds(f, v)
    ensures ValueWithinCapacity(f, v)
    decreases f, 0
  {
    hide Supported, WithinCapacity, StructInBounds;
    if f.ltype.Submessage? {
      BoundedStruct(f.ptr.fields, v.m);
    }
  }

  lemma {:induction false} BoundedStruct(d: seq<Field>, m: Message)
    requires Supported(d) && StructInBounds(d, m)
    ensures WithinCapacity(d, m)
    decreases d, 1
  {
    hide Supported, SupportedField, DataAt;
    forall i | 0 <= i < |d| ensures FieldWithinCapacity(d[i], m, DataAt(d, i)) {
      BoundedField(d, m, i);
    }
  }

  lemma {:induction false} BoundedField(d: seq<Field>, m: Message, i: nat)
    requires Supported(d) && i < |d| && SlotInBounds(d, i, m)
    ensures FieldWithinCapacity(d[i], m, DataAt(d, i))
    decreases d, 0
  {
    hide Supported, SupportedField, DataAt, InBounds, ValueWithinCapacity, ZeroOrEmpty;
    SupportedAt(d, i);
    var f, at := d[i], DataAt(d, i);
    if Present(f, m, at) {
      if f.htype.Repeated? {
        forall v | v in OldItems(m, at) ensures ValueWithinCapacity(f, v) {
          BoundedValue(f, v);
        }
      } else {
        BoundedValue(f, Content(f, m, at));
      }
    }
  }

  /** Whatever the decoder accepts, the encoder can encode. */
  lemma DecodedEncodable(d: seq<Field>, s: seq<byte>)
    requires WellFormed(d) && GoodDefaults(d)
    requires Decode(d, s).Got?
    ensures Encode(d, Decode(d, s).value).Some?
  {
    hide Decode, Encode, StructInBounds, WithinCapacity, GoodDefaults;
    SupportedWhole(d);
    DecodeStaysInBounds(d, s);
    BoundedStruct(d, Decode(d, s).value);
    EncodableIff(d, Decode(d, s).value);
  }

  // ---------- encoding what was decoded ----------

  lemma {:induction false} SameEncValue(f: Field, v: Value, w: Value)
    requires SupportedField(f) && SameValue(f, v, w)
    ensures EncValue(f, v) == EncValue(f, w)
    ensures ZeroOrEmpty(f, v) == ZeroOrEmpty(f, w)
    decreases f, 0
  {
    hide Supported, Encode, EncScalar, Restored, ProtoDefault;
    if f.ltype.Submessage? {
      SameEncoding(f.ptr.fields, v.m, w.m);
    }
  }

  lemma {:induction false} SameEncItems(f: Field, v: seq<Value>, w: seq<Value>)
    requires SupportedField(f) && |v| == |w| && forall k | 0 <= k < |v| :: SameValue(f, v[k], w[k])
    ensures EncUnpacked(f, v) == EncUnpacked(f, w)
    ensures Packable(f.ltype) ==> EncPacked(f, v) == EncPacked(f, w)
    decreases f, 1, |v|
  {
    hide SupportedField, EncValue, EncScalar, SameValue, EncTagFor;
    if v != [] {
      SameEncValue(f, v[0], w[0]);
      SameEncItems(f, v[1..], w[1..]);
      PackableSame(f, v[0], w[0]);
    }
  }

  lemma PackableSame(f: Field, v: Value, w: Value)
    requires SameValue(f, v, w)
    ensures Packable(f.ltype) ==> v == w
  {
    hide Restored;
  }

  lemma {:induction false} SameEncField(d: seq<Field>, m: Message, w: Message, i: nat)
    requires Supported(d) && Restored(d, m, w) && i < |d|
    ensures EncField(d[i], m, DataAt(d, i)) == EncField(d[i], w, DataAt(d, i))
    ensures ProtoDefault(d[i], m, DataAt(d, i)) == ProtoDefault(d[i], w, DataAt(d, i))
    decreases d[i], 2
  {
    hide Supported, SupportedField, DataAt, EncValue, EncPacked, EncUnpacked, EncTagFor, EncTag, EncString, SameValue,
         ZeroOrEmpty;
    var f, at := d[i], DataAt(d, i);
    SupportedAt(d, i);
    assert RestoredAt(d, i, m, w);
    if f.htype.Repeated? {
      SameEncItems(f, m[at].items, w[at].items);
    } else if Present(f, m, at) || Present(f, w, at) || (f.htype.Optional? && f.sizeOffset == 0) {
      SameEncValue(f, Content(f, m, at), Content(f, w, at));
    }
  }

  lemma {:induction false} SameEncFrom(d: seq<Field>, m: Message, w: Message, i: nat)
    requires Supported(d) && Restored(d, m, w) && i <= |d|
    ensures EncFrom(d, m, i) == EncFrom(d, w, i)
    decreases d, 0, |d| - i
  {
    hide Supported, DataAt, EncField, Restored;
    if i < |d| {
      SameEncField(d, m, w, i);
      SameEncFrom(d, m, w, i + 1);
    }
  }

  /** Structs with the same content have the same encoding, and a proto3 encoder leaves out
      one nested message exactly if it leaves out the other. */
  lemma SameEncoding(d: seq<Field>, m: Message, w: Message)
    requires Supported(d) && Restored(d, m, w)
    ensures Encode(d, m) == Encode(d, w)
    ensures forall i | 0 <= i < |d| :: ProtoDefault(d[i], m, DataAt(d, i)) == ProtoDefault(d[i], w, DataAt(d, i))
    decreases d, 1
  {
    hide Supported, DataAt, EncField, Restored, ProtoDefault;
    SameEncFrom(d, m, w, 0);
    forall i | 0 <= i < |d| ensures ProtoDefault(d[i], m, DataAt(d, i)) == ProtoDefault(d[i], w, DataAt(d, i)) {
      SameEncField(d, m, w, i);
    }
  }

  /** Encoding is canonical: decoding an encoding and encoding the result gives the same bytes. */
  lemma ReencodeSame(d: seq<Field>, m: Message)
    requires WellFormed(d) && Storable(d, m)
    requires Encode(d, m).Some? && |Encode(d, m).value| < M32
    ensures var r := Decode(d, Encode(d, m).value); r.Got? && Encode(d, r.value) == Encode(d, m)
  {
    hide WellFormed, Storable, Encode, Decode, Restored, Supported;
    EncodeDecode(d, m);
    SupportedWhole(d);
    SameEncoding(d, m, Decode(d, Encode(d, m).value).value);
  }

  lemma SupportedWhole(d: seq<Field>)
    requires WellFormed(d)
    ensures Supported(d)
  {
    hide Supported;
  }

  // ---------- framed messages ----------

  /** pb_encode_nullterminated: the zero byte stops the decoder, whatever follows. */
  lemma NullTerminatedRoundTrip(d: seq<Field>, m: Message, t: seq<byte>)
    requires WellFormed(d) && Storable(d, m)
    requires Encode(d, m).Some? && |Encode(d, m).value| < M32
    ensures var r := Decode(d, Encode(d, m).value + [0] + t);
            r.Got? && r.rest == t && Restored(d, m, r.value)
  {
    hide WellFormed, Storable, Encode, Restored, RunFields, Defaults, AllRequiredSeen;
    var body := Encode(d, m).value;
    EncodeDecode(d, m);
    RunOfEncoding(d, m);
    var r := RunFields(d, body, Defaults(d), {});
    RunThen(d, body, [0] + t, Defaults(d), {});
    assert body + [0] + t == body + ([0] + t);
    ZeroStops(d, t, r.m, r.seen);
  }

  lemma RunOfEncoding(d: seq<Field>, m: Message)
    requires WellFormed(d) && Storable(d, m)
    requires Encode(d, m).Some? && |Encode(d, m).value| < M32
    ensures CompleteRun(RunFields(d, Encode(d, m).value, Defaults(d), {}))
  {
    hide WellFormed, Storable, RunFields, EncFrom, DefaultsBefore;
    FieldsRoundTrip(d, m, 0, {});
  }

  lemma ZeroStops(d: seq<Field>, t: seq<byte>, m: Message, seen: set<nat>)
    ensures RunFields(d, [0] + t, m, seen) == Ran(m, seen, t, true)
  {
    var s := [0] + t;
    assert s[1..] == t;
    assert DecodeVarint32(s) == Got(0, t);
    assert DecodeTag(s) == AtEnd(t);
  }

  /** pb_encode_delimited and pb_decode_delimited: the size prefix bounds the message, so
      messages can follow one another in a stream. */
  lemma DelimitedRoundTrip(d: seq<Field>, m: Message, t: seq<byte>)
    requires WellFormed(d) && Storable(d, m)
    requires Encode(d, m).Some? && |Encode(d, m).value| < M32
    ensures var r := Delimited(EncString(Encode(d, m).value) + t);
            r == Got(Encode(d, m).value, t) &&
            Decode(d, r.value).Got? && Restored(d, m, Decode(d, r.value).value)
  {
    hide WellFormed, Storable, Encode, Decode, Restored, Delimited, EncString;
    EncodeDecode(d, m);
    StringRoundTrip(Encode(d, m).value, t);
  }
}

/** pb_decode and its helpers as they are written: the field loop, the field iterator,
    substreams and the destination struct, which is updated field by field. */
module MessageDecoder {
  import opened Descriptors
  import opened FieldIterator
  import opened Decoding
  import opened InputStreams
  import opened FieldDecoders
  import opened RequiredFields

  lemma SupportedTags(d: seq<Field>)
    requires Supported(d)
    ensures forall f | f in d :: f.tag != 0 && !f.ltype.Extension?
  {
    hide SupportedField;
    forall f | f in d ensures f.tag != 0 && !f.ltype.Extension? {
      var i :| 0 <= i < |d| && d[i] == f;
      SupportedAt(d, i);
    }
  }

  lemma SupportedSub(f: Field)
    requires SupportedField(f)
    ensures f.ltype.Submessage? <==> f.ptr.SubFields?
    ensures f.ptr.SubFields? ==> Supported(f.ptr.fields)
    ensures f.htype.Repeated? || f.htype.Oneof? ==> f.sizeOffset != 0
  {
  }

  /** Every table reachable from d has distinct tags. */
  predicate UniqueTags(d: seq<Field>) {
    DistinctTags(d) && forall f | f in d :: UniqueTagsBelow(f)
  }

  predicate UniqueTagsBelow(f: Field) {
    f.ptr.SubFields? ==> UniqueTags(f.ptr.fields)
  }

  /** pb_message_set_to_defaults */
  method SetToDefaults(d: seq<Field>) returns (dest: Message)
    requires Supported(d)
    ensures dest == Defaults(d)
    decreases d, 2
  {
    hide Supported, SupportedField, DefaultSlot, DataAt;
    dest := map[];
    SupportedTags(d);
    var iter := new FieldIter(d);
    var more := iter.Begin();
    while more
      invariant iter.Valid() && fresh(iter) && iter.start == d
      invariant more ==> iter.pos < |d| && dest == DefaultsBefore(d, iter.pos)
      invariant !more ==> dest == DefaultsBefore(d, |d|)
      decreases more, |d| - iter.pos
    {
      var slot := FieldDefault(iter);
      dest := dest[iter.pData := slot];
      more := iter.Next();
    }
  }

  /** pb_field_set_to_default */
  method FieldDefault(iter: FieldIter) returns (slot: Slot)
    requires iter.Valid() && Supported(iter.start) && iter.pos < |iter.start|
    ensures slot == DefaultSlot(iter.Field())
    decreases iter.start, 1
  {
    hide Supported, SupportedField, DefaultValue, DataAt, SizeAt;
    var f := iter.start[iter.pos];
    SupportedAt(iter.start, iter.pos);
    var initData, hasFlag := true, false;
    slot := SOne(VNum(0));
    if f.htype.Optional? && f.sizeOffset != 0 {
      hasFlag := true;
    } else if f.htype.Repeated? || f.htype.Oneof? {
      slot := if f.htype.Repeated? then SRep([]) else SUnion(0, VNum(0));
      initData := false;
    }
    if initData {
      var v := InitialValue(f);
      slot := if hasFlag then SOpt(false, v) else SOne(v);
    }
  }

  /** Its last part: the defaults of a submessage, the given default, or zeros. */
  method InitialValue(f: Field) returns (v: Value)
    requires SupportedField(f)
    ensures v == DefaultValue(f)
    decreases f, 0
  {
    hide Supported, SupportedField, Defaults, ZeroValue;
    SupportedSub(f);
    if f.ltype.Submessage? {
      var m := SetToDefaults(f.ptr.fields);
      v := VMsg(m);
    } else if f.ptr != Null {
      v := f.ptr.value;
    } else {
      v := ZeroValue(f);
    }
  }

  /** The call of the nested decoder: pb_decode for an entry of an array, which starts from
      defaults, and pb_decode_noinit otherwise. */
  method DecodeNested(sub: IStream, f: Field, prior: Value) returns (status: bool, m: Message)
    requires sub.Valid() && f.ptr.SubFields? && Supported(f.ptr.fields) && UniqueTags(f.ptr.fields)
    modifies sub
    ensures sub.Valid() && sub.End() <= old(sub.End()) && (status ==> sub.End() == old(sub.End()))
    ensures var start := if f.htype.Repeated? then Defaults(f.ptr.fields) else SubMessage(prior);
            Outcome(status, m, sub.Left(), DecodeNoInit(f.ptr.fields, old(sub.Left()), start))
    decreases f, 2
  {
    hide Supported, DecodeNoInit, Defaults, UniqueTags;
    if f.htype.Repeated? {
      status, m := PbDecode(sub, f.ptr.fields);
    } else {
      status, m := PbDecodeNoInit(sub, f.ptr.fields, SubMessage(prior));
    }
  }

  /** pb_dec_submessage. The substream is closed whether or not the nested decoder succeeded. */
  method DecodeSubmessage(stream: IStream, f: Field, prior: Value) returns (ok: bool, v: Value)
    requires stream.Valid() && f.ltype.Submessage? && SupportedField(f) && UniqueTagsBelow(f)
    modifies stream
    ensures stream.Valid() && stream.End() <= old(stream.End())
    ensures ok ==> stream.End() == old(stream.End())
    ensures Outcome(ok, v, stream.Left(), DecSubmessage(f, old(stream.Left()), prior))
    decreases f, 3
  {
    hide Supported, SupportedField, Delimited, DecodeNoInit, Defaults, UniqueTags, DistinctTags;
    SupportedSub(f);
    v := prior;
    var sub;
    ok, sub := MakeSubstream(stream);
    if !ok {
      return;
    }
    var status, m := DecodeNested(sub, f, prior);
    ok := CloseSubstream(stream, sub);
    if !ok {
      return;
    }
    ok := status;
    v := VMsg(m);
  }

  /** The call through PB_DECODERS. */
  method DecodeValue(stream: IStream, f: Field, prior: Value) returns (ok: bool, v: Value)
    requires stream.Valid() && SupportedField(f) && UniqueTagsBelow(f)
    modifies stream
    ensures stream.Valid() && stream.End() <= old(stream.End())
    ensures ok ==> stream.End() == old(stream.End())
    ensures Outcome(ok, v, stream.Left(), DecValue(f, old(stream.Left()), prior))
    decreases f, 4
  {
    hide DecScalar, DecSubmessage, Supported, UniqueTags;
    if f.ltype.Submessage? {
      ok, v := DecodeSubmessage(stream, f, prior);
    } else {
      ok, v := DecodeScalar(stream, f);
    }
  }

  /** The packed branch of decode_static_field. */
  method DecodePackedArray(stream: IStream, f: Field, items: seq<Value>) returns (ok: bool, size: seq<Value>)
    requires stream.Valid() && Packable(f.ltype)
    modifies stream
    ensures stream.Valid() && stream.End() <= old(stream.End())
    ensures ok ==> stream.End() == old(stream.End())
    ensures var r := Delimited(old(stream.Left()));
            if r.Fail? then !ok
            else Outcome(ok, size, [], DecPacked(f, r.value, items)) && (ok ==> stream.Left() == r.rest)
  {
    hide Delimited, DecScalar;
    size := items;
    var sub;
    ok, sub := MakeSubstream(stream);
    if !ok {
      return;
    }
    ghost var body, end := sub.Left(), sub.End();
    ghost var state, bytesLeft := stream.state, stream.bytesLeft;
    var status := true;
    while sub.bytesLeft > 0 && |size| < f.arraySize
      invariant status && fresh(sub) && sub.Valid() && sub.End() == end
      invariant stream.state == state && stream.bytesLeft == bytesLeft
      invariant DecPacked(f, body, items) == DecPacked(f, sub.Left(), size)
      decreases sub.bytesLeft
    {
      var item;
      status, item := DecodeScalar(sub, f);
      if !status {
        break;
      }
      size := size + [item];
    }
    if sub.bytesLeft != 0 {
      return false, size;
    }
    ok := CloseSubstream(stream, sub);
    if !ok {
      return;
    }
    ok := status;
  }

  /** decode_static_field for the field the iterator is on; `dest` is the struct. */
  method DecodeStaticField(stream: IStream, wireType: nat, iter: FieldIter, dest: Message)
      returns (ok: bool, dest': Message)
    requires stream.Valid() && iter.Valid() && Supported(iter.start) && UniqueTags(iter.start)
    modifies stream
    ensures stream.Valid() && stream.End() <= old(stream.End())
    ensures ok ==> stream.End() == old(stream.End())
    ensures Outcome(ok, dest', stream.Left(), DecFound(iter.start, iter.pos, wireType, old(stream.Left()), dest))
    decreases iter.start, 5
  {
    hide DecValue, DecBool, Delimited, DecPacked, Supported, SupportedField, UniqueTags, UniqueTagsBelow,
         DefaultValue, DataAt, Packable;
    var f := iter.Field();
    var v;
    dest' := dest;
    if iter.pos == |iter.start| {
      ok, v := PbDecBool(stream);
      dest' := dest[iter.pData := SOne(v)];
      return;
    }
    SupportedAt(iter.start, iter.pos);
    SupportedSub(f);
    UniqueAt(iter.start, iter.pos);
    match f.htype {
      case Required =>
        ok, v := DecodeValue(stream, f, OldValue(dest, iter.pData));
        dest' := dest[iter.pData := SOne(v)];
      case Optional =>
        ok, v := DecodeValue(stream, f, OldValue(dest, iter.pData));
        dest' := dest[iter.pData := if f.sizeOffset != 0 then SOpt(true, v) else SOne(v)];
      case Repeated =>
        var size := OldItems(dest, iter.pData);
        if wireType == WT_STRING && Packable(f.ltype) {
          ok, size := DecodePackedArray(stream, f, size);
          dest' := dest[iter.pData := SRep(size)];
        } else {
          if |size| >= f.arraySize {
            return false, dest';
          }
          ok, v := DecodeValue(stream, f, VNum(0));
          dest' := dest[iter.pData := SRep(size + [v])];
        }
      case Oneof =>
        var prior := DefaultValue(f);
        if f.ltype.Submessage? {
          var m := SetToDefaults(f.ptr.fields);
          prior := VMsg(m);
          DefaultOfSub(f);
        }
        ok, v := DecodeValue(stream, f, prior);
        dest' := dest[iter.pData := SUnion(f.tag, v)];
    }
  }

  lemma DefaultOfSub(f: Field)
    requires f.ptr.SubFields?
    ensures DefaultValue(f) == VMsg(Defaults(f.ptr.fields))
  {
    hide Defaults;
  }

  lemma UniqueAt(d: seq<Field>, i: nat)
    requires UniqueTags(d) && i < |d|
    ensures UniqueTagsBelow(d[i])
  {
    hide DistinctTags;
    assert d[i] in d;
  }

  lemma UniqueMatch(d: seq<Field>, i: nat, tag: nat)
    requires UniqueTags(d) && i <= |d| && Matches(d, i, tag)
    ensures Search(d, tag, 0) == i
  {
    hide UniqueTagsBelow;
    MatchUnique(d, Search(d, tag, 0), i, tag);
  }

  lemma NoMatch(d: seq<Field>, tag: nat)
    requires !Findable(d, tag)
    ensures Search(d, tag, 0) < 0
  {
  }

  // The turns of the field loop, seen from its specification.

  lemma TurnEnds(d: seq<Field>, s: seq<byte>, m: Message, seen: set<nat>)
    requires s != []
    ensures DecodeTag(s).TagFail? ==> RunFields(d, s, m, seen) == RunFail
    ensures DecodeTag(s).AtEnd? ==> RunFields(d, s, m, seen) == Ran(m, seen, DecodeTag(s).rest, true)
  {
    hide DecodeTag, Search, SkipField, DecFound;
  }

  lemma TurnSkips(d: seq<Field>, s: seq<byte>, m: Message, seen: set<nat>)
    requires s != [] && DecodeTag(s).TagOf? && !Findable(d, DecodeTag(s).tag)
    ensures var tag := DecodeTag(s);
            var r := SkipField(tag.rest, tag.wireType);
            RunFields(d, s, m, seen) == if r.Fail? then RunFail else RunFields(d, r.rest, m, seen)
  {
    hide DecodeTag, SkipField, DecFound, Matches;
    NoMatch(d, DecodeTag(s).tag);
  }

  lemma TurnDecodes(d: seq<Field>, s: seq<byte>, m: Message, seen: set<nat>, i: nat)
    requires UniqueTags(d) && s != [] && DecodeTag(s).TagOf? && i <= |d| && Matches(d, i, DecodeTag(s).tag)
    ensures var tag := DecodeTag(s);
            var r := DecFound(d, i, tag.wireType, tag.rest, m);
            RunFields(d, s, m, seen) == if r.Fail? then RunFail else RunFields(d, r.rest, r.value, Mark(d, i, seen))
  {
    hide DecodeTag, SkipField, DecFound, Matches, Search, Mark, UniqueTags;
    UniqueMatch(d, i, DecodeTag(s).tag);
  }

  /** The loop body of pb_decode_noinit for a tag that was not found: look for an
      extension range, then skip the field. */
  method SkipUnknown(stream: IStream, iter: FieldIter, tag: nat, wireType: nat, rangeStart: nat)
    returns (ok: bool, rangeStart': nat)
    requires stream.Valid() && iter.Valid() && Supported(iter.start)
    modifies stream, iter
    ensures stream.Valid() && stream.End() == old(stream.End()) && iter.Valid()
    ensures Outcome(ok, (), stream.Left(), SkipField(old(stream.Left()), wireType))
  {
    hide SkipField, Supported, DataAt, SizeAt;
    SupportedTags(iter.start);
    rangeStart' := rangeStart;
    if tag >= rangeStart {
      var isExtension := iter.FindExtension();
      if !isExtension {
        rangeStart' := 0xFFFF_FFFF;
      }
    }
    ok := SkipFieldBytes(stream, wireType);
  }

  /** The loop body for the field the iterator was found on: note a required field, then
      decode the field. */
  method DecodeKnown(stream: IStream, iter: FieldIter, wireType: nat, fieldsSeen: array<nat>, dest: Message,
      ghost seen: set<nat>)
    returns (ok: bool, dest': Message)
    requires stream.Valid() && iter.Valid() && Supported(iter.start) && UniqueTags(iter.start)
    requires fieldsSeen.Length == 2 && Records(fieldsSeen[..], seen)
    modifies stream, fieldsSeen
    ensures stream.Valid() && stream.End() <= old(stream.End())
    ensures ok ==> stream.End() == old(stream.End())
    ensures Outcome(ok, dest', stream.Left(), DecFound(iter.start, iter.pos, wireType, old(stream.Left()), dest))
    ensures Records(fieldsSeen[..], Mark(iter.start, iter.pos, seen))
    decreases iter.start, 6
  {
    hide DecFound, Supported, UniqueTags, DataAt, SizeAt, Records;
    if iter.Field().htype.Required? && iter.requiredFieldIndex < PB_MAX_REQUIRED_FIELDS {
      Record(fieldsSeen, iter.requiredFieldIndex, seen);
    }
    ok, dest' := DecodeStaticField(stream, wireType, iter, dest);
  }

  /** Were all required fields seen? */
  method RequiredPresent(iter: FieldIter, fieldsSeen: array<nat>, ghost seen: set<nat>) returns (ok: bool)
    requires iter.Valid() && fieldsSeen.Length == 2
    requires Records(fieldsSeen[..], seen) && SeenBelowCount(iter.start, seen)
    modifies iter
    ensures ok == AllRequiredSeen(iter.start, seen)
  {
    hide Records, DataAt, SizeAt;
    RecordedBelow64(fieldsSeen[..], seen);
    var reqFieldCount := CountRequired(iter);
    if reqFieldCount > PB_MAX_REQUIRED_FIELDS {
      reqFieldCount := PB_MAX_REQUIRED_FIELDS;
    }
    ok := AllSeen(fieldsSeen, reqFieldCount, seen);
  }

  /** The loop body behind the tag. */
  method DecodeTurn(stream: IStream, iter: FieldIter, wireType: nat, tag: nat, fieldsSeen: array<nat>, dest: Message,
      rangeStart: nat, ghost before: seq<byte>, ghost seen: set<nat>)
    returns (ok: bool, dest': Message, rangeStart': nat, ghost seen': set<nat>)
    requires stream.Valid() && iter.Valid() && Supported(iter.start) && UniqueTags(iter.start)
    requires before != [] && DecodeTag(before) == TagOf(wireType, tag, stream.Left())
    requires fieldsSeen.Length == 2 && Records(fieldsSeen[..], seen) && SeenBelowCount(iter.start, seen)
    modifies stream, iter, fieldsSeen
    ensures stream.Valid() && stream.End() <= old(stream.End()) && iter.Valid()
    ensures ok ==> stream.End() == old(stream.End())
    ensures ok ==> Records(fieldsSeen[..], seen') && SeenBelowCount(iter.start, seen')
    ensures ok ==> |stream.Left()| < |before|
    ensures RunFields(iter.start, before, dest, seen) ==
            if ok then RunFields(iter.start, stream.Left(), dest', seen') else RunFail
    decreases iter.start, 7
  {
    hide RunFields, DecFound, Search, SkipField, Supported, SupportedField, UniqueTags, DecodeTag, Records, DataAt,
         SizeAt, Findable, Matches, Mark, SeenBelowCount, RequiredBefore, FieldAt;
    dest', rangeStart', seen' := dest, rangeStart, seen;
    var found := iter.Find(tag);
    if !found {
      TurnSkips(iter.start, before, dest, seen);
      ok, rangeStart' := SkipUnknown(stream, iter, tag, wireType, rangeStart);
    } else {
      TurnDecodes(iter.start, before, dest, seen, iter.pos);
      MarkKeepsBound(iter.start, iter.pos, seen);
      ok, dest' := DecodeKnown(stream, iter, wireType, fieldsSeen, dest, seen);
      seen' := Mark(iter.start, iter.pos, seen);
    }
  }

  /** pb_decode_noinit */
  method PbDecodeNoInit(stream: IStream, d: seq<Field>, dest: Message) returns (ok: bool, dest': Message)
    requires stream.Valid() && Supported(d) && UniqueTags(d)
    modifies stream
    ensures stream.Valid() && stream.End() <= old(stream.End())
    ensures ok ==> stream.End() == old(stream.End())
    ensures Outcome(ok, dest', stream.Left(), DecodeNoInit(d, old(stream.Left()), dest))
    decreases d, 8
  {
    hide RunFields, DecFound, Search, SkipField, Supported, SupportedField, UniqueTags, DecodeTag, Records, DataAt,
         SizeAt, Findable, Matches, Mark, SeenBelowCount, AllRequiredSeen, FieldIter.Valid, RequiredBefore, FieldAt;
    ghost var bytes, seen := stream.Left(), {};
    var fieldsSeen := new nat[2];
    fieldsSeen[0], fieldsSeen[1] := 0, 0;
    assert fieldsSeen[..] == [0, 0];
    NothingRecorded();
    NothingSeen(d);
    var extensionRangeStart := 0;
    SupportedTags(d);
    var iter := new FieldIter(d);
    dest' := dest;
    var zeroTag := false;
    while stream.bytesLeft > 0
      invariant !zeroTag && stream.Valid() && stream.End() == old(stream.End())
      invariant fresh(iter) && iter.Valid() && iter.start == d && fresh(fieldsSeen) && fieldsSeen.Length == 2
      invariant Records(fieldsSeen[..], seen) && SeenBelowCount(d, seen)
      invariant RunFields(d, bytes, dest, {}) == RunFields(d, stream.Left(), dest', seen)
      decreases stream.bytesLeft
    {
      TurnEnds(d, stream.Left(), dest', seen);
      ghost var before := stream.Left();
      var wireType, tag, eof;
      ok, wireType, tag, eof := DecodeTagOf(stream);
      if !ok {
        if eof {
          zeroTag := true;
          break;
        } else {
          return false, dest';
        }
      }
      ok, dest', extensionRangeStart, seen :=
        DecodeTurn(stream, iter, wireType, tag, fieldsSeen, dest', extensionRangeStart, before, seen);
      if !ok {
        return false, dest';
      }
    }
    if !zeroTag {
      assert stream.Left() == [];
      RunStops(d, dest', seen);
    }
    assert RunFields(d, bytes, dest, {}) == Ran(dest', seen, stream.Left(), zeroTag);
    ok := RequiredPresent(iter, fieldsSeen, seen);
  }

  lemma NothingSeen(d: seq<Field>)
    ensures SeenBelowCount(d, {})
  {
  }

  predicate SeenBelowCount(d: seq<Field>, seen: set<nat>) {
    d != [] ==> forall k :: k in seen ==> k < RequiredBefore(d, |d|)
  }

  lemma MarkKeepsBound(d: seq<Field>, i: nat, seen: set<nat>)
    requires i <= |d| && (i < |d| || d == []) && SeenBelowCount(d, seen)
    ensures SeenBelowCount(d, Mark(d, i, seen))
  {
    if i < |d| { IndexBelowCount(d, i); }
  }

  lemma IndexBelowCount(d: seq<Field>, i: nat)
    requires i < |d|
    ensures d[i].htype.Required? ==> RequiredBefore(d, i) < RequiredBefore(d, |d|)
  {
    RequiredBeforeMonotone(d, i + 1, |d|);
  }

  /** Walks on to the end of the table to count the required fields. */
  method CountRequired(iter: FieldIter) returns (reqFieldCount: nat)
    requires iter.Valid()
    modifies iter
    ensures iter.Valid()
    ensures reqFieldCount == RequiredBefore(iter.start, |iter.start|)
  {
    hide DataAt, SizeAt;
    var lastType;
    var more := true;
    reqFieldCount, lastType := iter.requiredFieldIndex, iter.Field().htype;
    while more
      invariant iter.Valid()
      invariant !more && iter.start != [] ==>
                  && reqFieldCount == RequiredBefore(iter.start, |iter.start| - 1)
                  && lastType == iter.start[|iter.start| - 1].htype
      invariant !more && iter.start == [] ==> reqFieldCount == 0
      decreases more, |iter.start| - iter.pos
    {
      reqFieldCount := iter.requiredFieldIndex;
      lastType := iter.Field().htype;
      more := iter.Next();
    }
    assert iter.pos < |iter.start| ==> iter.start[iter.pos] in iter.start;
    if lastType.Required? && iter.Field().tag != 0 {
      reqFieldCount := reqFieldCount + 1;
    }
  }

  /** pb_decode */
  method PbDecode(stream: IStream, d: seq<Field>) returns (ok: bool, dest: Message)
    requires stream.Valid() && Supported(d) && UniqueTags(d)
    modifies stream
    ensures stream.Valid() && stream.End() <= old(stream.End())
    ensures ok ==> stream.End() == old(stream.End())
    ensures Outcome(ok, dest, stream.Left(), Decode(d, old(stream.Left())))
    decreases d, 9
  {
    hide DecodeNoInit, Defaults, Supported, UniqueTags;
    dest := SetToDefaults(d);
    ok, dest := PbDecodeNoInit(stream, d, dest);
  }
}

/** Decoding field after field: every reader looks only at the bytes it consumes, so runs
    of complete fields can be decoded one after the other, merged, or interleaved with
    fields the message does not have. */
module Merging {
  import opened Descriptors
  import opened FieldIterator
  import opened Varints
  import opened Decoding

  /** The same outcome with `t` behind the bytes left. */
  function Then<T>(r: Read<T>, t: seq<byte>): Read<T> {
    match r
    case Fail => Fail
    case Got(v, rest) => Got(v, rest + t)
  }

  // ---------- readers look only at the bytes they consume ----------

  lemma {:induction false} Groups64Local(s: seq<byte>, bitpos: nat, result: nat, t: seq<byte>)
    requires DecodeGroups64(s, bitpos, result).Got?
    ensures DecodeGroups64(s + t, bitpos, result) == Then(DecodeGroups64(s, bitpos, result), t)
    decreases |s|
  {
    assert (s + t)[1..] == s[1..] + t;
    if s[0] >= 128 {
      Groups64Local(s[1..], bitpos + 7, AddGroup64(result, s[0], bitpos), t);
    }
  }

  lemma {:induction false} Groups32Local(s: seq<byte>, bitpos: nat, result: nat, t: seq<byte>)
    requires DecodeGroups32(s, bitpos, result).Got?
    ensures DecodeGroups32(s + t, bitpos, result) == Then(DecodeGroups32(s, bitpos, result), t)
    decreases |s|
  {
    assert (s + t)[1..] == s[1..] + t;
    if s[0] >= 128 {
      var next := if bitpos >= 32 then result else AddGroup32(result, s[0], bitpos);
      Groups32Local(s[1..], Advance(bitpos), next, t);
    }
  }

  lemma Varint32Local(s: seq<byte>, t: seq<byte>)
    requires DecodeVarint32(s).Got?
    ensures DecodeVarint32(s + t) == Then(DecodeVarint32(s), t)
  {
    assert (s + t)[1..] == s[1..] + t;
    if s[0] >= 128 { Groups32Local(s[1..], 7, Payload(s[0]), t); }
  }

  lemma TakeLocal(s: seq<byte>, n: nat, t: seq<byte>)
    requires n <= |s|
    ensures Take(s + t, n) == Then(Take(s, n), t)
    ensures Drop(s + t, n) == Then(Drop(s, n), t)
  {
    assert (s + t)[..n] == s[..n] && (s + t)[n..] == s[n..] + t;
  }

  lemma {:induction false} SkipVarintLocal(s: seq<byte>, t: seq<byte>)
    requires SkipVarint(s).Got?
    ensures SkipVarint(s + t) == Then(SkipVarint(s), t)
  {
    assert (s + t)[1..] == s[1..] + t;
    if s[0] >= 128 { SkipVarintLocal(s[1..], t); }
  }

  lemma SkipLocal(s: seq<byte>, wireType: nat, t: seq<byte>)
    requires SkipField(s, wireType).Got?
    ensures SkipField(s + t, wireType) == Then(SkipField(s, wireType), t)
  {
    if wireType == WT_VARINT {
      SkipVarintLocal(s, t);
    } else if wireType == WT_STRING {
      Varint32Local(s, t);
      var length := DecodeVarint32(s);
      TakeLocal(length.rest, length.value, t);
    } else {
      TakeLocal(s, if wireType == WT_64BIT then 8 else 4, t);
    }
  }

  lemma DelimitedLocal(s: seq<byte>, t: seq<byte>)
    requires Delimited(s).Got?
    ensures Delimited(s + t) == Then(Delimited(s), t)
  {
    Varint32Local(s, t);
    var size := DecodeVarint32(s);
    TakeLocal(size.rest, size.value, t);
  }

  lemma ScalarLocal(f: Field, s: seq<byte>, t: seq<byte>)
    requires DecScalar(f, s).Got?
    ensures DecScalar(f, s + t) == Then(DecScalar(f, s), t)
  {
    hide DecodeVarint32, DecodeGroups64, Cast, LittleEndian, UnZigZag;
    match f.ltype
    case Bool => Varint32Local(s, t);
    case Varint => Groups64Local(s, 0, 0, t);
    case UVarint => Groups64Local(s, 0, 0, t);
    case SVarint => Groups64Local(s, 0, 0, t);
    case Fixed32 => TakeLocal(s, 4, t);
    case Fixed64 => TakeLocal(s, 8, t);
    case Bytes => SizedLocal(s, t);
    case String => SizedLocal(s, t);
    case FixedLengthBytes => SizedLocal(s, t);
    case Submessage =>
    case Extension =>
  }

  lemma SizedLocal(s: seq<byte>, t: seq<byte>)
    requires DecodeVarint32(s).Got?
    ensures DecodeVarint32(s + t) == Then(DecodeVarint32(s), t)
    ensures var r := DecodeVarint32(s); r.value <= |r.rest| ==>
            Take(r.rest + t, r.value) == Then(Take(r.rest, r.value), t)
  {
    Varint32Local(s, t);
    var r := DecodeVarint32(s);
    if r.value <= |r.rest| { TakeLocal(r.rest, r.value, t); }
  }

  lemma ValueLocal(f: Field, s: seq<byte>, prior: Value, t: seq<byte>)
    requires DecValue(f, s, prior).Got?
    ensures DecValue(f, s + t, prior) == Then(DecValue(f, s, prior), t)
  {
    if f.ltype.Submessage? { DelimitedLocal(s, t); } else { ScalarLocal(f, s, t); }
  }

  lemma FieldLocal(f: Field, at: int, wireType: nat, s: seq<byte>, m: Message, t: seq<byte>)
    requires DecField(f, at, wireType, s, m).Got?
    ensures DecField(f, at, wireType, s + t, m) == Then(DecField(f, at, wireType, s, m), t)
  {
    match f.htype
    case Required => ValueLocal(f, s, OldValue(m, at), t);
    case Optional => ValueLocal(f, s, OldValue(m, at), t);
    case Oneof => ValueLocal(f, s, DefaultValue(f), t);
    case Repeated =>
      if wireType == WT_STRING && Packable(f.ltype) {
        DelimitedLocal(s, t);
      } else {
        ValueLocal(f, s, VNum(0), t);
      }
  }

  lemma FoundLocal(d: seq<Field>, i: nat, wireType: nat, s: seq<byte>, m: Message, t: seq<byte>)
    requires i <= |d| && DecFound(d, i, wireType, s, m).Got?
    ensures DecFound(d, i, wireType, s + t, m) == Then(DecFound(d, i, wireType, s, m), t)
  {
    if i < |d| { FieldLocal(d[i], DataAt(d, i), wireType, s, m, t); } else { Varint32Local(s, t); }
  }

  lemma TagLocal(s: seq<byte>, t: seq<byte>)
    requires DecodeTag(s).TagOf?
    ensures var r := DecodeTag(s); DecodeTag(s + t) == TagOf(r.wireType, r.tag, r.rest + t)
  {
    Varint32Local(s, t);
  }

  // ---------- the merge law ----------

  /** The bytes are complete fields with non-zero tags and nothing else. */
  predicate CompleteRun(r: Run) {
    r.Ran? && r.rest == [] && !r.zeroEnded
  }

  /** After a run of complete fields the loop continues as if it had just started on the
      following bytes, with the struct and the set of required fields as they are. */
  lemma {:induction false} RunThen(d: seq<Field>, s: seq<byte>, t: seq<byte>, m: Message, seen: set<nat>)
    requires CompleteRun(RunFields(d, s, m, seen))
    ensures var r := RunFields(d, s, m, seen);
            RunFields(d, s + t, m, seen) == RunFields(d, t, r.m, r.seen)
    decreases |s|
  {
    hide DecodeTag, SkipField, DecFound, Search, Mark;
    if s == [] {
      assert s + t == t;
    } else {
      TagLocal(s, t);
      var tag := DecodeTag(s);
      var i := Search(d, tag.tag, 0);
      if i < 0 {
        SkipLocal(tag.rest, tag.wireType, t);
        RunThen(d, SkipField(tag.rest, tag.wireType).rest, t, m, seen);
      } else {
        FoundLocal(d, i, tag.wireType, tag.rest, m, t);
        var r := DecFound(d, i, tag.wireType, tag.rest, m);
        RunThen(d, r.rest, t, r.value, Mark(d, i, seen));
      }
    }
  }

  /** The struct does not depend on which required fields were seen before. */
  lemma {:induction false} SeenIrrelevant(d: seq<Field>, s: seq<byte>, m: Message, seen: set<nat>, seen': set<nat>)
    ensures var r, r' := RunFields(d, s, m, seen), RunFields(d, s, m, seen');
            r.RunFail? == r'.RunFail? &&
            (r.Ran? ==> r.m == r'.m && r.rest == r'.rest && r.zeroEnded == r'.zeroEnded)
    decreases |s|
  {
    hide DecodeTag, SkipField, DecFound, Search, Mark;
    if s != [] && DecodeTag(s).TagOf? {
      var tag := DecodeTag(s);
      var i := Search(d, tag.tag, 0);
      if i < 0 {
        var r := SkipField(tag.rest, tag.wireType);
        if r.Got? { SeenIrrelevant(d, r.rest, m, seen, seen'); }
      } else {
        var r := DecFound(d, i, tag.wireType, tag.rest, m);
        if r.Got? { SeenIrrelevant(d, r.rest, r.value, Mark(d, i, seen), Mark(d, i, seen')); }
      }
    }
  }

  /** Merging: for a message without required fields of its own, decoding two runs of
      complete fields behind one another is decoding the first and then the second into
      the same struct, failures included. */
  lemma MergeLaw(d: seq<Field>, s: seq<byte>, t: seq<byte>, m: Message)
    requires RequiredBefore(d, |d|) == 0
    requires CompleteRun(RunFields(d, s, m, {}))
    ensures DecodeNoInit(d, s, m).Got?
    ensures DecodeNoInit(d, s + t, m) == DecodeNoInit(d, t, DecodeNoInit(d, s, m).value)
  {
    hide RunFields;
    var r := RunFields(d, s, m, {});
    RunThen(d, s, t, m, {});
    SeenIrrelevant(d, t, r.m, r.seen, {});
  }

  // ---------- unknown fields ----------

  /** The bytes are complete fields none of which the message has. */
  predicate OnlyUnknown(d: seq<Field>, u: seq<byte>)
    decreases |u|
  {
    u == [] ||
    match DecodeTag(u)
    case TagFail => false
    case AtEnd(_) => false
    case TagOf(wireType, tag, rest) =>
      !Findable(d, tag) &&
      match SkipField(rest, wireType)
      case Fail => false
      case Got(_, rest') => OnlyUnknown(d, rest')
  }

  lemma {:induction false} UnknownRun(d: seq<Field>, u: seq<byte>, m: Message, seen: set<nat>)
    requires OnlyUnknown(d, u)
    ensures RunFields(d, u, m, seen) == Ran(m, seen, [], false)
    decreases |u|
  {
    hide DecodeTag, SkipField, DecFound;
    if u != [] {
      var tag := DecodeTag(u);
      UnknownRun(d, SkipField(tag.rest, tag.wireType).rest, m, seen);
    }
  }

  /** Unknown fields are transparent: placed between complete fields they change nothing,
      neither the struct nor success nor the bytes left. */
  lemma UnknownFieldsIgnored(d: seq<Field>, s: seq<byte>, u: seq<byte>, t: seq<byte>, m: Message)
    requires OnlyUnknown(d, u)
    requires CompleteRun(RunFields(d, s, m, {}))
    ensures DecodeNoInit(d, s + u + t, m) == DecodeNoInit(d, s + t, m)
  {
    hide RunFields, OnlyUnknown, AllRequiredSeen;
    var r := RunFields(d, s, m, {});
    RunThen(d, s, t, m, {});
    RunThen(d, s, u + t, m, {});
    assert s + u + t == s + (u + t);
    UnknownRun(d, u, r.m, r.seen);
    RunThen(d, u, t, r.m, r.seen);
  }
}

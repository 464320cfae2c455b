/** Fields that a newer writer adds and this reader does not know, in every gap of an
    encoding and inside nested messages: they change nothing. */
module UnknownFields {
  import opened Descriptors
  import opened Varints
  import opened Decoding
  import opened Merging
  import opened Encoding
  import opened RoundTrip

  /** A message cut into pieces: fields the reader does not know, complete fields it knows,
      and a nested message, again in pieces, behind its tag. */
  datatype Piece = Unknown(bytes: seq<byte>) | Known(bytes: seq<byte>)
      | Nested(i: nat, head: seq<byte>, inner: seq<Piece>)

  /** The message with all unknown fields. */
  function Padded(ps: seq<Piece>): seq<byte> {
    if ps == [] then []
    else
      (match ps[0]
       case Unknown(u) => u
       case Known(b) => b
       case Nested(_, head, inner) => head + EncString(Padded(inner)))
      + Padded(ps[1..])
  }

  /** The message without them, with the lengths of nested messages as they then are. */
  function Plain(ps: seq<Piece>): seq<byte> {
    if ps == [] then []
    else
      (match ps[0]
       case Unknown(_) => []
       case Known(b) => b
       case Nested(_, head, inner) => head + EncString(Plain(inner)))
      + Plain(ps[1..])
  }

  /** What a nested message is decoded into. */
  function NestedStart(f: Field, at: int, m: Message): Message
    requires f.ptr.SubFields?
  {
    match f.htype
    case Repeated => Defaults(f.ptr.fields)
    case Oneof => SubMessage(DefaultValue(f))
    case Required => SubMessage(OldValue(m, at))
    case Optional => SubMessage(OldValue(m, at))
  }

  predicate NestedHead(d: seq<Field>, i: nat, head: seq<byte>) {
    && i < |d| && d[i].ltype.Submessage? && d[i].ptr.SubFields?
    && DecodeTag(head) == TagOf(WT_STRING, d[i].tag, []) && Search(d, d[i].tag, 0) == i
  }

  /** The pieces are what they claim to be when decoded into m. */
  predicate Padding(d: seq<Field>, ps: seq<Piece>, m: Message)
    decreases ps
  {
    ps == [] ||
    match ps[0]
    case Unknown(u) => OnlyUnknown(d, u) && Padding(d, ps[1..], m)
    case Known(b) =>
      var r := RunFields(d, b, m, {});
      CompleteRun(r) && Padding(d, ps[1..], r.m)
    case Nested(i, head, inner) =>
      && NestedHead(d, i, head)
      && |Padded(inner)| < M32 && |Plain(inner)| < M32
      && Padding(d[i].ptr.fields, inner, NestedStart(d[i], DataAt(d, i), m))
      && var r := RunFields(d, head + EncString(Plain(inner)), m, {});
         CompleteRun(r) && Padding(d, ps[1..], r.m)
  }

  /** A nested message counts only by what it decodes to. */
  lemma NestedRun(d: seq<Field>, i: nat, head: seq<byte>, body: seq<byte>, body': seq<byte>, m: Message, seen: set<nat>)
    requires NestedHead(d, i, head) && |body| < M32 && |body'| < M32
    requires var start := NestedStart(d[i], DataAt(d, i), m);
             DecodeNoInit(d[i].ptr.fields, body', start) == DecodeNoInit(d[i].ptr.fields, body, start)
    ensures RunFields(d, head + EncString(body'), m, seen) == RunFields(d, head + EncString(body), m, seen)
  {
    hide DecodeTag, DecodeNoInit, Delimited, EncString, Defaults, Search, SkipField, RunFields, Mark;
    var e, e' := EncString(body), EncString(body');
    StringRoundTrip(body, []);
    StringRoundTrip(body', []);
    assert e + [] == e && e' + [] == e';
    NestedFound(d, i, body, body', m);
    NestedTurn(d, i, head, e, m, seen);
    NestedTurn(d, i, head, e', m, seen);
  }

  lemma SameSubmessage(f: Field, body: seq<byte>, body': seq<byte>, prior: Value)
    requires f.ltype.Submessage? && f.ptr.SubFields?
    requires Delimited(EncString(body)) == Got(body, []) && Delimited(EncString(body')) == Got(body', [])
    requires var start := if f.htype.Repeated? then Defaults(f.ptr.fields) else SubMessage(prior);
             DecodeNoInit(f.ptr.fields, body', start) == DecodeNoInit(f.ptr.fields, body, start)
    ensures DecValue(f, EncString(body'), prior) == DecValue(f, EncString(body), prior)
    ensures DecValue(f, EncString(body), prior).Got? ==> DecValue(f, EncString(body), prior).rest == []
  {
    hide DecodeNoInit, Delimited, EncString, Defaults;
  }

  lemma NestedFound(d: seq<Field>, i: nat, body: seq<byte>, body': seq<byte>, m: Message)
    requires i < |d| && d[i].ltype.Submessage? && d[i].ptr.SubFields?
    requires Delimited(EncString(body)) == Got(body, []) && Delimited(EncString(body')) == Got(body', [])
    requires var start := NestedStart(d[i], DataAt(d, i), m);
             DecodeNoInit(d[i].ptr.fields, body', start) == DecodeNoInit(d[i].ptr.fields, body, start)
    ensures DecFound(d, i, WT_STRING, EncString(body'), m) == DecFound(d, i, WT_STRING, EncString(body), m)
    ensures DecFound(d, i, WT_STRING, EncString(body), m).Got? ==>
            DecFound(d, i, WT_STRING, EncString(body), m).rest == []
  {
    hide DecodeNoInit, Delimited, EncString, Defaults, DecValue, DataAt;
    var f, at := d[i], DataAt(d, i);
    match f.htype
    case Required => SameSubmessage(f, body, body', OldValue(m, at));
    case Optional => SameSubmessage(f, body, body', OldValue(m, at));
    case Oneof => SameSubmessage(f, body, body', DefaultValue(f));
    case Repeated => SameSubmessage(f, body, body', VNum(0));
  }

  lemma NestedTurn(d: seq<Field>, i: nat, head: seq<byte>, e: seq<byte>, m: Message, seen: set<nat>)
    requires NestedHead(d, i, head)
    ensures RunFields(d, head + e, m, seen) ==
            match DecFound(d, i, WT_STRING, e, m)
            case Fail => RunFail
            case Got(m', rest') => RunFields(d, rest', m', Mark(d, i, seen))
  {
    hide DecFound, Search, SkipField, Mark;
    TagLocal(head, e);
    assert [] + e == e;
    assert head != [];
  }

  lemma RunDecides(d: seq<Field>, s: seq<byte>, s': seq<byte>, m: Message)
    requires RunFields(d, s, m, {}) == RunFields(d, s', m, {})
    ensures DecodeNoInit(d, s, m) == DecodeNoInit(d, s', m)
  {
    hide RunFields, AllRequiredSeen;
  }

  /** Unknown fields in any gap of any nesting level, and any number of them, leave the run
      over the fields what it is without them. */
  lemma {:induction false} PaddedRun(d: seq<Field>, ps: seq<Piece>, m: Message, seen: set<nat>)
    requires Padding(d, ps, m)
    ensures RunFields(d, Padded(ps), m, seen) == RunFields(d, Plain(ps), m, seen)
    ensures CompleteRun(RunFields(d, Plain(ps), m, seen))
    decreases ps
  {
    hide RunFields, OnlyUnknown, EncString, NestedStart, NestedHead, Padded, Plain;
    if ps == [] {
      NoPieces(d, m, seen);
    } else {
      FirstPiece(ps);
      var rest := ps[1..];
      match ps[0]
      case Unknown(u) =>
        UnknownRun(d, u, m, seen);
        RunThen(d, u, Padded(rest), m, seen);
        PaddedRun(d, rest, m, seen);
      case Known(b) =>
        AnySeen(d, b, m, seen);
        var r := RunFields(d, b, m, seen);
        RunThen(d, b, Padded(rest), m, seen);
        RunThen(d, b, Plain(rest), m, seen);
        PaddedRun(d, rest, r.m, r.seen);
      case Nested(i, head, inner) =>
        NestedField(d, i, head);
        var f := d[i];
        var start := NestedStart(f, DataAt(d, i), m);
        PaddedRun(f.ptr.fields, inner, start, {});
        RunDecides(f.ptr.fields, Plain(inner), Padded(inner), start);
        var b, b' := head + EncString(Plain(inner)), head + EncString(Padded(inner));
        NestedRun(d, i, head, Plain(inner), Padded(inner), m, seen);
        AnySeen(d, b, m, seen);
        var r := RunFields(d, b, m, seen);
        RunThen(d, b', Padded(rest), m, seen);
        RunThen(d, b, Plain(rest), m, seen);
        PaddedRun(d, rest, r.m, r.seen);
    }
  }

  lemma NoPieces(d: seq<Field>, m: Message, seen: set<nat>)
    ensures Padded([]) == [] && Plain([]) == [] && CompleteRun(RunFields(d, [], m, seen))
  {
  }

  lemma FirstPiece(ps: seq<Piece>)
    requires ps != []
    ensures ps[0].Unknown? ==> Padded(ps) == ps[0].bytes + Padded(ps[1..]) && Plain(ps) == Plain(ps[1..])
    ensures ps[0].Known? ==> Padded(ps) == ps[0].bytes + Padded(ps[1..]) && Plain(ps) == ps[0].bytes + Plain(ps[1..])
    ensures ps[0].Nested? ==>
              && Padded(ps) == ps[0].head + EncString(Padded(ps[0].inner)) + Padded(ps[1..])
              && Plain(ps) == ps[0].head + EncString(Plain(ps[0].inner)) + Plain(ps[1..])
  {
    hide EncString;
  }

  lemma NestedField(d: seq<Field>, i: nat, head: seq<byte>)
    requires NestedHead(d, i, head)
    ensures i < |d| && d[i].ptr.SubFields?
  {
  }

  /** The struct and the rest do not depend on the required fields seen before. */
  lemma AnySeen(d: seq<Field>, s: seq<byte>, m: Message, seen: set<nat>)
    requires CompleteRun(RunFields(d, s, m, {}))
    ensures CompleteRun(RunFields(d, s, m, seen)) && RunFields(d, s, m, seen).m == RunFields(d, s, m, {}).m
  {
    hide RunFields;
    SeenIrrelevant(d, s, m, {}, seen);
  }

  /** Decoding a message with unknown fields, at any depth, is decoding it without them. */
  lemma UnknownFieldsTransparent(d: seq<Field>, ps: seq<Piece>)
    requires Padding(d, ps, Defaults(d))
    ensures Decode(d, Padded(ps)) == Decode(d, Plain(ps))
  {
    hide RunFields, Padding, Padded, Plain, AllRequiredSeen, Defaults;
    PaddedRun(d, ps, Defaults(d), {});
  }

  // ---------- an encoding in pieces ----------

  function Written(o: Option<seq<byte>>): seq<byte> {
    if o.Some? then o.value else []
  }

  /** A value of field i behind its tag; a nested message is again in pieces. */
  function ValuePiece(i: nat, f: Field, v: Value): Piece
    decreases f, 0
  {
    if f.ltype.Submessage? && f.ptr.SubFields? then
      Nested(i, EncTagFor(f), PiecesFrom(f.ptr.fields, SubMessage(v), 0))
    else Known(Written(Tagged(f, v)))
  }

  function ItemPieces(i: nat, f: Field, items: seq<Value>): seq<Piece>
    decreases f, 1, |items|
  {
    if items == [] then [] else [ValuePiece(i, f, items[0])] + ItemPieces(i, f, items[1..])
  }

  function FieldPieces(i: nat, f: Field, m: Message, at: int): seq<Piece>
    decreases f, 2
  {
    if !Present(f, m, at) then []
    else if !f.htype.Repeated? then [ValuePiece(i, f, Content(f, m, at))]
    else if Packable(f.ltype) then [Known(Written(EncArray(f, OldItems(m, at))))]
    else ItemPieces(i, f, OldItems(m, at))
  }

  function PiecesFrom(d: seq<Field>, m: Message, i: nat): seq<Piece>
    requires i <= |d|
    decreases d, |d| - i
  {
    if i == |d| then [] else FieldPieces(i, d[i], m, DataAt(d, i)) + PiecesFrom(d, m, i + 1)
  }

  /** All places of an encoding where another field can stand are between two of these
      pieces: between fields, between the entries of an array that is not packed, and
      likewise in nested messages. */
  function EncodingPieces(d: seq<Field>, m: Message): seq<Piece> {
    PiecesFrom(d, m, 0)
  }

  lemma {:induction false} JoinedPieces(a: seq<Piece>, b: seq<Piece>)
    ensures Plain(a + b) == Plain(a) + Plain(b) && Padded(a + b) == Padded(a) + Padded(b)
  {
    hide Plain, Padded, EncString;
    NoPieces([], map[], {});
    if a == [] {
      assert a + b == b && [] + Plain(b) == Plain(b) && [] + Padded(b) == Padded(b);
    } else {
      assert (a + b)[0] == a[0] && (a + b)[1..] == a[1..] + b;
      JoinedPieces(a[1..], b);
      FirstPiece(a);
      FirstPiece(a + b);
      match a[0]
      case Unknown(u) =>
        assert u + (Padded(a[1..]) + Padded(b)) == u + Padded(a[1..]) + Padded(b);
      case Known(k) =>
        assert k + (Padded(a[1..]) + Padded(b)) == k + Padded(a[1..]) + Padded(b);
        assert k + (Plain(a[1..]) + Plain(b)) == k + Plain(a[1..]) + Plain(b);
      case Nested(_, head, inner) =>
        var x, y := head + EncString(Padded(inner)), head + EncString(Plain(inner));
        assert x + (Padded(a[1..]) + Padded(b)) == x + Padded(a[1..]) + Padded(b);
        assert y + (Plain(a[1..]) + Plain(b)) == y + Plain(a[1..]) + Plain(b);
    }
  }

  lemma OnePiece(p: Piece)
    ensures p.Known? ==> Plain([p]) == Padded([p]) == p.bytes
    ensures p.Nested? ==> Plain([p]) == p.head + EncString(Plain(p.inner))
    ensures p.Nested? ==> Padded([p]) == p.head + EncString(Padded(p.inner))
  {
    hide EncString;
    FirstPiece([p]);
  }

  lemma TaggedMessage(f: Field, v: Value)
    requires f.ltype.Submessage? && Tagged(f, v).Some?
    ensures f.ptr.SubFields? && EncFrom(f.ptr.fields, SubMessage(v), 0).Some?
    ensures Tagged(f, v).value == EncTagFor(f) + EncString(EncFrom(f.ptr.fields, SubMessage(v), 0).value)
  {
    hide EncTagFor, EncString, EncFrom;
    assert EncValue(f, v).Some? && EncSubmessage(f, v).Some?;
    assert Encode(f.ptr.fields, SubMessage(v)) == EncFrom(f.ptr.fields, SubMessage(v), 0);
  }

  lemma UnpackedField(f: Field, m: Message, at: int)
    requires Present(f, m, at) && f.htype.Repeated? && !Packable(f.ltype) && EncField(f, m, at).Some?
    ensures EncField(f, m, at) == EncUnpacked(f, OldItems(m, at))
  {
    hide EncUnpacked;
    assert EncArray(f, OldItems(m, at)).Some?;
  }

  /** Put together, the pieces are the encoding. */
  lemma {:induction false} ValueWritten(i: nat, f: Field, v: Value)
    requires Tagged(f, v).Some?
    ensures var p := [ValuePiece(i, f, v)]; Plain(p) == Padded(p) == Tagged(f, v).value
    decreases f, 0
  {
    hide Tagged, EncFrom, EncString, EncTagFor, Plain, Padded, PiecesFrom;
    OnePiece(ValuePiece(i, f, v));
    if f.ltype.Submessage? {
      TaggedMessage(f, v);
      FieldsWritten(f.ptr.fields, SubMessage(v), 0);
    }
  }

  lemma {:induction false} ItemsWritten(i: nat, f: Field, items: seq<Value>)
    requires EncUnpacked(f, items).Some?
    ensures var ps := ItemPieces(i, f, items); Plain(ps) == Padded(ps) == EncUnpacked(f, items).value
    decreases f, 1, |items|
  {
    hide Tagged, Plain, Padded, ValuePiece;
    if items == [] {
      NoPieces([], map[], {});
    } else {
      ValueWritten(i, f, items[0]);
      ItemsWritten(i, f, items[1..]);
      JoinedPieces([ValuePiece(i, f, items[0])], ItemPieces(i, f, items[1..]));
    }
  }

  lemma {:induction false} FieldWritten(i: nat, f: Field, m: Message, at: int)
    requires EncField(f, m, at).Some?
    ensures var ps := FieldPieces(i, f, m, at); Plain(ps) == Padded(ps) == EncField(f, m, at).value
    decreases f, 2
  {
    hide Tagged, Plain, Padded, ValuePiece, ItemPieces, Present, Content, EncPackedArray, EncUnpacked, Packable;
    NoPieces([], map[], {});
    if Present(f, m, at) {
      if !f.htype.Repeated? {
        ValueWritten(i, f, Content(f, m, at));
      } else if Packable(f.ltype) {
        OnePiece(Known(Written(EncArray(f, OldItems(m, at)))));
      } else {
        UnpackedField(f, m, at);
        ItemsWritten(i, f, OldItems(m, at));
      }
    }
  }

  lemma {:induction false} FieldsWritten(d: seq<Field>, m: Message, i: nat)
    requires i <= |d| && EncFrom(d, m, i).Some?
    ensures var ps := PiecesFrom(d, m, i); Plain(ps) == Padded(ps) == EncFrom(d, m, i).value
    decreases d, |d| - i
  {
    hide Plain, Padded, FieldPieces, EncField, DataAt;
    if i == |d| {
      NoPieces(d, m, {});
    } else {
      FieldWritten(i, d[i], m, DataAt(d, i));
      FieldsWritten(d, m, i + 1);
      JoinedPieces(FieldPieces(i, d[i], m, DataAt(d, i)), PiecesFrom(d, m, i + 1));
    }
  }

  // ---------- the pieces are complete fields ----------

  lemma AfterPiece(d: seq<Field>, x: seq<byte>, rest: seq<Piece>, m: Message)
    requires CompleteRun(RunFields(d, x, m, {})) && Padding(d, rest, RunFields(d, x, m, {}).m)
    ensures CompleteRun(RunFields(d, x + Plain(rest), m, {}))
    ensures CompleteRun(RunFields(d, Plain(rest), RunFields(d, x, m, {}).m, {}))
    ensures RunFields(d, x + Plain(rest), m, {}).m == RunFields(d, Plain(rest), RunFields(d, x, m, {}).m, {}).m
  {
    hide RunFields, Padding, Plain;
    var r := RunFields(d, x, m, {});
    RunThen(d, x, Plain(rest), m, {});
    PaddedRun(d, rest, r.m, {});
    AnySeen(d, Plain(rest), r.m, r.seen);
  }

  lemma {:induction false} JoinedPadding(d: seq<Field>, a: seq<Piece>, b: seq<Piece>, m: Message)
    requires Padding(d, a, m) && CompleteRun(RunFields(d, Plain(a), m, {}))
    requires Padding(d, b, RunFields(d, Plain(a), m, {}).m)
    ensures Padding(d, a + b, m)
    decreases a
  {
    hide RunFields, OnlyUnknown, EncString, NestedStart, NestedHead, Padded, Plain;
    if a == [] {
      NoPieces(d, m, {});
      RunStops(d, m, {});
      assert a + b == b;
    } else {
      FirstPiece(a);
      assert (a + b)[0] == a[0] && (a + b)[1..] == a[1..] + b;
      match a[0]
      case Unknown(u) =>
        JoinedPadding(d, a[1..], b, m);
      case Known(k) =>
        AfterPiece(d, k, a[1..], m);
        JoinedPadding(d, a[1..], b, RunFields(d, k, m, {}).m);
      case Nested(i, head, inner) =>
        var k := head + EncString(Plain(inner));
        AfterPiece(d, k, a[1..], m);
        JoinedPadding(d, a[1..], b, RunFields(d, k, m, {}).m);
    }
  }

  lemma EncodedHead(d: seq<Field>, i: nat)
    requires WellFormed(d) && i < |d| && d[i].ltype.Submessage? && d[i].ptr.SubFields?
    ensures NestedHead(d, i, EncTagFor(d[i])) && WellFormed(d[i].ptr.fields)
  {
    hide DecodeTag, EncTag, Search, SupportedField, OwnStorage;
    WellFormedAt(d, i);
    TagRoundTrip(WT_STRING, d[i].tag, []);
    assert EncTag(WT_STRING, d[i].tag) + [] == EncTag(WT_STRING, d[i].tag);
    SearchFinds(d, i, 0);
  }

  lemma {:induction false} ValuePadding(d: seq<Field>, i: nat, v: Value, w: Message)
    requires WellFormed(d) && i < |d| && Fits(d[i], v)
    requires Tagged(d[i], v).Some? && |Tagged(d[i], v).value| < M32
    requires CompleteRun(RunFields(d, Tagged(d[i], v).value, w, {}))
    requires d[i].ltype.Submessage? && d[i].ptr.SubFields? ==>
               NestedStart(d[i], DataAt(d, i), w) == Defaults(d[i].ptr.fields)
    ensures Padding(d, [ValuePiece(i, d[i], v)], w)
    decreases d[i], 0
  {
    hide WellFormed, Storable, RunFields, DataAt, Tagged, EncFrom, EncString, EncTagFor, Plain, Padded, PiecesFrom,
         NestedHead, NestedStart, Defaults;
    var f, p := d[i], [ValuePiece(i, d[i], v)];
    assert p[1..] == [];
    ValueWritten(i, f, v);
    OnePiece(ValuePiece(i, f, v));
    if f.ltype.Submessage? {
      var sub := f.ptr.fields;
      TaggedMessage(f, v);
      EncodedHead(d, i);
      FieldsWritten(sub, v.m, 0);
      Longer(EncTagFor(f), EncFrom(sub, v.m, 0).value);
      FieldsPadding(sub, v.m, 0);
      NothingRebuilt(sub, v.m);
    }
  }

  lemma Longer(head: seq<byte>, body: seq<byte>)
    ensures |body| <= |head + EncString(body)|
  {
  }

  lemma NothingRebuilt(d: seq<Field>, m: Message)
    ensures RebuiltBefore(d, m, 0) == Defaults(d)
  {
  }

  lemma {:induction false} ItemsPadding(d: seq<Field>, i: nat, items: seq<Value>, before: seq<Value>, w: Message)
    requires WellFormed(d) && i < |d| && d[i].htype.Repeated? && !Packable(d[i].ltype)
    requires forall v | v in items :: Fits(d[i], v)
    requires EncUnpacked(d[i], items).Some? && |EncUnpacked(d[i], items).value| < M32
    requires |before| + |items| <= d[i].arraySize
    requires DataAt(d, i) in w && w[DataAt(d, i)] == SRep(before)
    ensures Padding(d, ItemPieces(i, d[i], items), w)
    decreases d[i], 1, |items|
  {
    hide WellFormed, RunFields, DataAt, Fits, Rebuilt, Tagged, Packable, ValuePiece, Plain;
    var f, at := d[i], DataAt(d, i);
    if items == [] {
    } else {
      var v := items[0];
      OneItem(d, i, v, before, w);
      ValueWritten(i, f, v);
      ValuePadding(d, i, v, w);
      ItemsPadding(d, i, items[1..], before + [Rebuilt(f, v)], w[at := SRep(before + [Rebuilt(f, v)])]);
      JoinedPadding(d, [ValuePiece(i, f, v)], ItemPieces(i, f, items[1..]), w);
    }
  }

  lemma OneItem(d: seq<Field>, i: nat, v: Value, before: seq<Value>, w: Message)
    requires WellFormed(d) && i < |d| && d[i].htype.Repeated? && !Packable(d[i].ltype) && Fits(d[i], v)
    requires Tagged(d[i], v).Some? && |Tagged(d[i], v).value| < M32 && |before| < d[i].arraySize
    requires DataAt(d, i) in w && w[DataAt(d, i)] == SRep(before)
    ensures RunFields(d, Tagged(d[i], v).value, w, {}) ==
            Ran(w[DataAt(d, i) := SRep(before + [Rebuilt(d[i], v)])], {}, [], false)
  {
    hide WellFormed, RunFields, DataAt, Fits, Rebuilt, Tagged, Packable;
    var f, items := d[i], [v];
    assert items[1..] == [] && EncUnpacked(f, []) == Some([]);
    assert EncUnpacked(f, items) == Append(Tagged(f, v), Some([]));
    assert Tagged(f, v).value + [] + [] == Tagged(f, v).value;
    UnpackedRoundTrip(d, i, items, before, w, [], {});
    assert RebuiltFrom(f, items) == [Rebuilt(f, v)];
    RunStops(d, w[DataAt(d, i) := SRep(before + [Rebuilt(f, v)])], {});
  }

  lemma FieldRun(d: seq<Field>, m: Message, i: nat)
    requires WellFormed(d) && Storable(d, m) && i < |d|
    requires EncField(d[i], m, DataAt(d, i)).Some? && |EncField(d[i], m, DataAt(d, i)).value| < M32
    ensures RunFields(d, EncField(d[i], m, DataAt(d, i)).value, RebuiltBefore(d, m, i), {}) ==
            Ran(RebuiltBefore(d, m, i + 1), Mark(d, i, {}), [], false)
  {
    hide RunFields, WellFormed, Storable, EncField, DataAt, RebuiltBefore, Mark;
    var e := EncField(d[i], m, DataAt(d, i)).value;
    FieldRoundTrip(d, m, i, [], {});
    assert e + [] == e;
    RunStops(d, RebuiltBefore(d, m, i + 1), Mark(d, i, {}));
  }

  lemma {:induction false} FieldPadding(d: seq<Field>, m: Message, i: nat)
    requires WellFormed(d) && Storable(d, m) && i < |d|
    requires EncField(d[i], m, DataAt(d, i)).Some? && |EncField(d[i], m, DataAt(d, i)).value| < M32
    ensures Padding(d, FieldPieces(i, d[i], m, DataAt(d, i)), RebuiltBefore(d, m, i))
    decreases d[i], 2
  {
    hide RunFields, WellFormed, Storable, DataAt, RebuiltBefore, Mark, Tagged, EncPackedArray, EncUnpacked, Present,
         Content, Packable, ValuePiece, ItemPieces, NestedStart, Fits, DefaultSlot, Defaults;
    var f, at, w := d[i], DataAt(d, i), RebuiltBefore(d, m, i);
    FieldRun(d, m, i);
    if !Present(f, m, at) {
    } else if !f.htype.Repeated? {
      StartsFresh(d, m, i);
      ContentFits(d, m, i);
      ValuePadding(d, i, Content(f, m, at), w);
    } else if Packable(f.ltype) {
      OnlyKnown(d, Written(EncArray(f, OldItems(m, at))), w);
    } else {
      UnpackedField(f, m, at);
      StartsFresh(d, m, i);
      ItemsFit(d, m, i);
      ItemsPadding(d, i, OldItems(m, at), [], w);
    }
  }

  lemma OnlyKnown(d: seq<Field>, k: seq<byte>, w: Message)
    requires CompleteRun(RunFields(d, k, w, {}))
    ensures Padding(d, [Known(k)], w)
  {
    hide RunFields;
    assert [Known(k)][1..] == [];
  }

  /** Before its turn a field holds its default, so a nested message starts from defaults. */
  lemma StartsFresh(d: seq<Field>, m: Message, i: nat)
    requires WellFormed(d) && i < |d|
    ensures d[i].ptr.SubFields? ==>
              NestedStart(d[i], DataAt(d, i), RebuiltBefore(d, m, i)) == Defaults(d[i].ptr.fields)
    ensures d[i].htype.Repeated? ==> DataAt(d, i) in RebuiltBefore(d, m, i)
                                     && RebuiltBefore(d, m, i)[DataAt(d, i)] == SRep([])
  {
    hide WellFormed, OwnStorage, DataAt, RebuiltBefore, Defaults;
    StorageOf(d);
    if !d[i].htype.Oneof? { StillDefault(d, m, i, i); }
  }

  lemma {:induction false} FieldsPadding(d: seq<Field>, m: Message, i: nat)
    requires WellFormed(d) && Storable(d, m) && i <= |d|
    requires EncFrom(d, m, i).Some? && |EncFrom(d, m, i).value| < M32
    ensures Padding(d, PiecesFrom(d, m, i), RebuiltBefore(d, m, i))
    decreases d, |d| - i
  {
    hide RunFields, WellFormed, Storable, EncField, DataAt, RebuiltBefore, FieldPieces, Padding, Plain;
    if i == |d| {
      NoPadding(d, RebuiltBefore(d, m, i));
    } else {
      FieldPadding(d, m, i);
      FieldWritten(i, d[i], m, DataAt(d, i));
      FieldRun(d, m, i);
      FieldsPadding(d, m, i + 1);
      JoinedPadding(d, FieldPieces(i, d[i], m, DataAt(d, i)), PiecesFrom(d, m, i + 1), RebuiltBefore(d, m, i));
    }
  }

  lemma NoPadding(d: seq<Field>, m: Message)
    ensures Padding(d, [], m)
  {
  }

  // ---------- unknown fields in an encoding ----------

  /** ps is qs with unknown fields in any number of gaps, at the top and in nested messages. */
  predicate Filled(d: seq<Field>, qs: seq<Piece>, ps: seq<Piece>)
    decreases ps
  {
    if ps == [] then qs == []
    else
      match ps[0]
      case Unknown(u) => OnlyUnknown(d, u) && Filled(d, qs, ps[1..])
      case Known(_) => qs != [] && qs[0] == ps[0] && Filled(d, qs[1..], ps[1..])
      case Nested(i, head, inner) =>
        && qs != [] && qs[0].Nested? && qs[0].i == i && qs[0].head == head
        && i < |d| && d[i].ptr.SubFields? && |Padded(inner)| < M32
        && Filled(d[i].ptr.fields, qs[0].inner, inner) && Filled(d, qs[1..], ps[1..])
  }

  lemma {:induction false} FilledPadding(d: seq<Field>, qs: seq<Piece>, ps: seq<Piece>, m: Message)
    requires Padding(d, qs, m) && Filled(d, qs, ps)
    ensures Padding(d, ps, m) && Plain(ps) == Plain(qs)
    decreases ps
  {
    hide RunFields, OnlyUnknown, EncString, NestedStart, NestedHead, Padded, Plain;
    if ps != [] {
      FirstPiece(ps);
      if qs != [] { FirstPiece(qs); }
      match ps[0]
      case Unknown(u) =>
        FilledPadding(d, qs, ps[1..], m);
      case Known(k) =>
        FilledPadding(d, qs[1..], ps[1..], RunFields(d, k, m, {}).m);
      case Nested(i, head, inner) =>
        FilledPadding(d[i].ptr.fields, qs[0].inner, inner, NestedStart(d[i], DataAt(d, i), m));
        FilledPadding(d, qs[1..], ps[1..], RunFields(d, head + EncString(Plain(inner)), m, {}).m);
    }
  }

  /** A newer writer may add fields that this reader does not know, in all gaps of an encoding
      at once: between fields, between the entries of arrays, and in nested messages at any
      depth. Decoding gives the struct that the encoding gives. */
  lemma UnknownFieldsInEncoding(d: seq<Field>, m: Message, ps: seq<Piece>)
    requires WellFormed(d) && Storable(d, m)
    requires Encode(d, m).Some? && |Encode(d, m).value| < M32
    requires Filled(d, EncodingPieces(d, m), ps)
    ensures Decode(d, Padded(ps)) == Decode(d, Encode(d, m).value)
  {
    hide EncFrom, WellFormed, Storable, OnlyUnknown, Padding, Padded, Plain, PiecesFrom, Filled, Decode;
    FieldsWritten(d, m, 0);
    FieldsPadding(d, m, 0);
    NothingRebuilt(d, m);
    FilledPadding(d, EncodingPieces(d, m), ps, Defaults(d));
    UnknownFieldsTransparent(d, ps);
  }
}

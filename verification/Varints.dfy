/** Base-128 varints and zig-zag integers, as pb_encode.c writes and pb_decode.c reads them. */
module Varints {
  import opened Bits
  import opened Descriptors

  /** The outcome of reading from the bytes left in a stream. */
  datatype Read<+T> = Fail | Got(value: T, rest: seq<byte>)

  const M32: nat := 0x1_0000_0000
  const M64: nat := 0x1_0000_0000_0000_0000

  /** The bytes pb_encode_varint writes: seven-bit groups, least significant first. */
  function EncodeVarint(v: nat): (bs: seq<byte>)
    ensures |bs| >= 1
  {
    if v < 128 then [v] else [v % 128 + 128] + EncodeVarint(v / 128)
  }

  /** byte & 0x7F */
  function Payload(b: byte): nat {
    if b >= 128 then b - 128 else b
  }

  lemma OrWord(a: nat, b: nat, bits: nat)
    requires bits == 32 || bits == 64
    ensures var m := if bits == 32 then M32 else M64; a < m && b < m ==> Or(a, b) < m
  {
    Pow2Values();
    var m := if bits == 32 then M32 else M64;
    if a < m && b < m { OrBound(a, b, bits); }
  }

  /** result |= (uint64_t)(byte & 0x7F) << bitpos */
  function AddGroup64(result: nat, b: byte, bitpos: nat): (r: nat)
    ensures result < M64 ==> r < M64
  {
    OrWord(result, ShiftLeft(Payload(b), bitpos) % M64, 64);
    Or(result, ShiftLeft(Payload(b), bitpos) % M64)
  }

  /** The loop of pb_decode_varint: `bitpos` and `result` are the C variables. */
  function DecodeGroups64(s: seq<byte>, bitpos: nat, result: nat): (r: Read<nat>)
    ensures r.Got? ==> |r.rest| < |s| && (result < M64 ==> r.value < M64)
    decreases |s|
  {
    if bitpos >= 64 || s == [] then Fail
    else
      var next := AddGroup64(result, s[0], bitpos);
      if s[0] < 128 then Got(next, s[1..]) else DecodeGroups64(s[1..], bitpos + 7, next)
  }

  function DecodeVarint(s: seq<byte>): (r: Read<nat>)
    ensures r.Got? ==> |r.rest| < |s| && r.value < M64
  {
    DecodeGroups64(s, 0, 0)
  }

  /** What a group beyond bit 32 must be if it is not zero. */
  function SignExtension(bitpos: nat): byte {
    if bitpos < 63 then 0xFF else 0x01
  }

  /** result |= (uint32_t)(byte & 0x7F) << bitpos */
  function AddGroup32(result: nat, b: byte, bitpos: nat): (r: nat)
    ensures result < M32 ==> r < M32
  {
    OrWord(result, ShiftLeft(Payload(b), bitpos) % M32, 32);
    Or(result, ShiftLeft(Payload(b), bitpos) % M32)
  }

  /** The 8-bit counter of the 32-bit decoder, which wraps around. */
  function Advance(bitpos: nat): nat {
    if bitpos + 7 >= 256 then (bitpos + 7) % 256 else bitpos + 7
  }

  /** The multi-byte loop of pb_decode_varint32_eof. Past bit 32 a group must be zero or
      extend the sign (bit 31) of the result; `byte & 0x70` on a last byte is its part from 16 up. */
  function DecodeGroups32(s: seq<byte>, bitpos: nat, result: nat): (r: Read<nat>)
    ensures r.Got? ==> |r.rest| < |s| && (result < M32 ==> r.value < M32)
    decreases |s|
  {
    if s == [] then Fail
    else if bitpos >= 32 && Payload(s[0]) != 0 && (result < 0x8000_0000 || s[0] != SignExtension(bitpos)) then Fail
    else
      var next := if bitpos >= 32 then result else AddGroup32(result, s[0], bitpos);
      if s[0] >= 128 then DecodeGroups32(s[1..], Advance(bitpos), next)
      else if Advance(bitpos) == 35 && s[0] >= 16 then Fail
      else Got(next, s[1..])
  }

  function DecodeVarint32(s: seq<byte>): (r: Read<nat>)
    ensures r.Got? ==> |r.rest| < |s| && r.value < M32
  {
    if s == [] then Fail
    else if s[0] < 128 then Got(s[0], s[1..])
    else DecodeGroups32(s[1..], 7, Payload(s[0]))
  }

  // ---------- 64-bit round trip ----------

  lemma {:induction false} EncodeVarintLength(v: nat, groups: nat)
    requires groups > 0 && v < Pow2(7 * groups)
    ensures |EncodeVarint(v)| <= groups
  {
    Pow2Values();
    if v >= 128 {
      assert groups > 1;
      Pow2Next(7 * (groups - 1));
      EncodeVarintLength(v / 128, groups - 1);
    }
  }

  lemma VarintLength(v: nat)
    requires v < M64
    ensures 1 <= |EncodeVarint(v)| <= 10
  {
    Pow2Values();
    Pow2Next(63);
    EncodeVarintLength(v, 10);
  }

  /** One turn of the 64-bit loop adds the group at its position. */
  lemma Step64(b: byte, s: seq<byte>, bitpos: nat, result: nat)
    requires bitpos < 64 && result < Pow2(bitpos)
    requires ShiftLeft(Payload(b), bitpos) < M64
    ensures var next := result + ShiftLeft(Payload(b), bitpos);
            DecodeGroups64([b] + s, bitpos, result) ==
            if b < 128 then Got(next, s) else DecodeGroups64(s, bitpos + 7, next)
  {
    var t := [b] + s;
    assert t[0] == b && t[1..] == s;
    AddGroup64Fits(result, b, bitpos);
    hide AddGroup64, ShiftLeft, Payload, Pow2;
  }

  lemma AddGroup64Fits(result: nat, b: byte, bitpos: nat)
    requires result < Pow2(bitpos) && ShiftLeft(Payload(b), bitpos) < M64
    ensures AddGroup64(result, b, bitpos) == result + ShiftLeft(Payload(b), bitpos)
  {
    OrDisjoint(result, Payload(b), bitpos);
    hide ShiftLeft, Or, Pow2;
    Small(ShiftLeft(Payload(b), bitpos));
  }

  lemma Small(x: nat)
    requires x < M64
    ensures x % M64 == x
  {
  }

  /** The lowest group of v and the rest, at bit `bitpos`. */
  lemma SplitGroup(v: nat, bitpos: nat)
    ensures ShiftLeft(v, bitpos) == ShiftLeft(v % 128, bitpos) + ShiftLeft(v / 128, bitpos + 7)
    ensures ShiftLeft(v % 128, bitpos) < Pow2(bitpos + 7)
  {
    var low, high := v % 128, v / 128;
    ShiftLeftTwice(high, 7, bitpos);
    TimesGroup(high);
    ShiftLeftAdd(low, 128 * high, bitpos);
    ShiftLeftBound(low, bitpos);
  }

  lemma TimesGroup(x: nat)
    ensures ShiftLeft(x, 7) == 128 * x
  {
    assert ShiftLeft(x, 1) == 2 * x;
    assert ShiftLeft(x, 2) == 4 * x;
    assert ShiftLeft(x, 3) == 8 * x;
    assert ShiftLeft(x, 4) == 16 * x;
    assert ShiftLeft(x, 5) == 32 * x;
    assert ShiftLeft(x, 6) == 64 * x;
  }

  lemma {:induction false} ShiftLeftBound(x: nat, k: nat)
    requires x < 128
    ensures ShiftLeft(x, k) + Pow2(k) <= Pow2(k + 7)
  {
    if k == 0 { Pow2Values(); } else { ShiftLeftBound(x, k - 1); }
  }

  /** Decoding the groups of v on top of `result` adds v << bitpos. */
  lemma {:induction false} DecodeEncodedGroups64(v: nat, bitpos: nat, result: nat, t: seq<byte>)
    requires bitpos <= 63 && result < Pow2(bitpos)
    requires ShiftLeft(v, bitpos) < M64
    requires bitpos % 7 == 0
    ensures DecodeGroups64(EncodeVarint(v) + t, bitpos, result) == Got(result + ShiftLeft(v, bitpos), t)
    decreases v
  {
    hide DecodeGroups64, ShiftLeft, Pow2;
    SplitGroup(v, bitpos);
    if v < 128 {
      ShiftLeftZero(bitpos + 7);
      Step64(v, t, bitpos, result);
    } else {
      var low, high := v % 128, v / 128;
      var tail := EncodeVarint(high) + t;
      assert EncodeVarint(v) + t == [low + 128] + tail;
      Step64(low + 128, tail, bitpos, result);
      GroupsLeft64(v, bitpos);
      ShiftLeftBound(low, bitpos);
      DecodeEncodedGroups64(high, bitpos + 7, result + ShiftLeft(low, bitpos), t);
    }
  }

  /** A further group means that the next one still starts inside the word. */
  lemma GroupsLeft64(v: nat, bitpos: nat)
    requires v >= 128 && ShiftLeft(v, bitpos) < M64 && bitpos <= 63 && bitpos % 7 == 0
    ensures bitpos + 7 <= 63
  {
    if bitpos == 63 {
      Pow2Values();
      ShiftLeftOne(63);
      ShiftLeftMonotone(2, v, 63);
      ShiftLeftAdd(1, 1, 63);
    }
  }

  /** Every 64-bit value is read back, and exactly its bytes are consumed. */
  lemma VarintRoundTrip(v: nat, t: seq<byte>)
    requires v < M64
    ensures 1 <= |EncodeVarint(v)| <= 10
    ensures DecodeVarint(EncodeVarint(v) + t) == Got(v, t)
  {
    VarintLength(v);
    DecodeEncodedGroups64(v, 0, 0, t);
  }

  // ---------- the 32-bit decoder on 64-bit encodings ----------

  lemma Untruncated(x: nat)
    requires x < M32
    ensures x % M32 == x
  {
  }

  lemma LowGroupFits(g: nat, bitpos: nat)
    requires g < 128 && bitpos <= 21
    ensures ShiftLeft(g, bitpos) % M32 == ShiftLeft(g, bitpos)
    ensures ShiftLeft(g, bitpos) + Pow2(bitpos) <= Pow2(bitpos + 7) <= 0x1000_0000
  {
    ShiftLeftBound(g, bitpos);
    Pow2Monotone(bitpos + 7, 28);
    assert Pow2(28) == 0x1000_0000 by { Pow2Values(); }
    Untruncated(ShiftLeft(g, bitpos));
  }

  lemma AddLowGroup32(result: nat, b: byte, bitpos: nat)
    requires bitpos <= 21 && result < Pow2(bitpos)
    ensures AddGroup32(result, b, bitpos) == result + ShiftLeft(Payload(b), bitpos) < Pow2(bitpos + 7)
  {
    LowGroupFits(Payload(b), bitpos);
    OrDisjoint(result, Payload(b), bitpos);
  }

  lemma {:induction false} Pow2Monotone(j: nat, k: nat)
    requires j <= k
    ensures Pow2(j) <= Pow2(k)
  {
    if j < k { Pow2Monotone(j, k - 1); }
  }

  /** One turn of the 32-bit loop below bit 28. */
  lemma Step32Low(b: byte, s: seq<byte>, bitpos: nat, result: nat)
    requires bitpos <= 21 && result < Pow2(bitpos)
    ensures var next := result + ShiftLeft(Payload(b), bitpos);
            next < Pow2(bitpos + 7) &&
            DecodeGroups32([b] + s, bitpos, result) ==
            if b < 128 then Got(next, s) else DecodeGroups32(s, bitpos + 7, next)
  {
    AddLowGroup32(result, b, bitpos);
    assert ([b] + s)[1..] == s;
  }

  function Nibble(b: byte): nat { Payload(b) % 16 }

  /** At bit 28 only four bits of the group fit. */
  lemma AddLastGroup32(result: nat, b: byte)
    requires result < 0x1000_0000
    ensures AddGroup32(result, b, 28) == result + 0x1000_0000 * (Nibble(b))
  {
    var g, low := Payload(b), Payload(b) % 16;
    Times28(g);
    Times28(low);
    assert g == 16 * (g / 16) + low;
    assert ShiftLeft(g, 28) % M32 == ShiftLeft(low, 28);
    Pow2Values();
    OrDisjoint(result, low, 28);
  }

  lemma Step32Last(b: byte, s: seq<byte>, result: nat)
    requires result < 0x1000_0000
    ensures var next := result + 0x1000_0000 * (Nibble(b));
            DecodeGroups32([b] + s, 28, result) ==
            if b >= 128 then DecodeGroups32(s, 35, next)
            else if b >= 16 then Fail
            else Got(next, s)
  {
    AddLastGroup32(result, b);
    assert ([b] + s)[1..] == s;
  }

  lemma Times28(x: nat)
    ensures ShiftLeft(x, 28) == 0x1000_0000 * x
  {
    ShiftLeftTwice(x, 7, 21);
    ShiftLeftTwice(ShiftLeft(x, 7), 7, 14);
    ShiftLeftTwice(ShiftLeft(ShiftLeft(x, 7), 7), 7, 7);
    TimesGroup(x);
    TimesGroup(128 * x);
    TimesGroup(0x4000 * x);
    TimesGroup(0x20_0000 * x);
  }

  /** A turn past bit 32 only checks the group. */
  lemma Step32High(b: byte, s: seq<byte>, bitpos: nat, result: nat)
    requires 35 <= bitpos <= 63 && result < M32
    ensures DecodeGroups32([b] + s, bitpos, result) ==
            if Payload(b) != 0 && (result < 0x8000_0000 || b != SignExtension(bitpos)) then Fail
            else if b < 128 then Got(result, s)
            else DecodeGroups32(s, bitpos + 7, result)
  {
    assert ([b] + s)[1..] == s;
  }

  /** The groups past bit 32: every one is zero or extends the sign. */
  predicate TailAccepted(w: nat, bitpos: nat, negative: bool)
    decreases w
  {
    if w < 128 then
      w == 0 || (negative && w == SignExtension(bitpos))
    else
      && (w % 128 == 0 || (negative && w % 128 + 128 == SignExtension(bitpos)))
      && TailAccepted(w / 128, bitpos + 7, negative)
  }

  lemma {:induction false} DecodeTail32(w: nat, bitpos: nat, result: nat, t: seq<byte>)
    requires 35 <= bitpos <= 63 && bitpos % 7 == 0 && result < M32
    requires ShiftLeft(w, bitpos) < M64
    ensures DecodeGroups32(EncodeVarint(w) + t, bitpos, result) ==
            if TailAccepted(w, bitpos, result >= 0x8000_0000) then Got(result, t) else Fail
    decreases w
  {
    if w < 128 {
      Step32High(w, t, bitpos, result);
    } else {
      var tail := EncodeVarint(w / 128) + t;
      assert EncodeVarint(w) + t == [w % 128 + 128] + tail;
      Step32High(w % 128 + 128, tail, bitpos, result);
      assert bitpos + 7 <= 63 by { GroupsLeft64(w, bitpos); }
      assert ShiftLeft(w / 128, bitpos + 7) < M64 by { SplitGroup(w, bitpos); }
      DecodeTail32(w / 128, bitpos + 7, result, t);
    }
  }

  /** One turn of the 32-bit loop on an encoding with more than one group left. */
  lemma EncodedStep32(w: nat, bitpos: nat, result: nat, t: seq<byte>)
    requires bitpos <= 21 && result < Pow2(bitpos) && w >= 128
    ensures var next := result + ShiftLeft(w % 128, bitpos);
            next < Pow2(bitpos + 7) &&
            DecodeGroups32(EncodeVarint(w) + t, bitpos, result) ==
            DecodeGroups32(EncodeVarint(w / 128) + t, bitpos + 7, next)
  {
    var tail := EncodeVarint(w / 128) + t;
    assert EncodeVarint(w) + t == [w % 128 + 128] + tail;
    Step32Low(w % 128 + 128, tail, bitpos, result);
  }

  /** Below bit 28 the decoder just accumulates: what it has read and what is still
      encoded add up to r + (h << 28). */
  lemma {:induction false} DecodeLow32(w: nat, turns: nat, bitpos: nat, result: nat, r: nat, h: nat, t: seq<byte>,
      goal: Read<nat>)
    requires bitpos + 7 * turns == 28 && result < Pow2(bitpos)
    requires r < 0x1000_0000 && result + ShiftLeft(w, bitpos) == r + 0x1000_0000 * h
    requires w > 0
    requires h == 0 ==> goal == Got(r, t)
    requires h > 0 ==> goal == DecodeGroups32(EncodeVarint(h) + t, 28, r)
    ensures DecodeGroups32(EncodeVarint(w) + t, bitpos, result) == goal
    decreases w
  {
    hide DecodeGroups32, EncodeVarint, ShiftLeft, Pow2;
    if turns == 0 {
      Align28(w, result, r, h);
    } else if w < 128 {
      DecodeShort32(w, bitpos, result, t);
      NoHighPart(result + ShiftLeft(w, bitpos), r, h);
    } else {
      var next := result + ShiftLeft(w % 128, bitpos);
      assert next + ShiftLeft(w / 128, bitpos + 7) == r + 0x1000_0000 * h by { SplitGroup(w, bitpos); }
      EncodedStep32(w, bitpos, result, t);
      DecodeLow32(w / 128, turns - 1, bitpos + 7, next, r, h, t, goal);
    }
  }

  lemma NoHighPart(v: nat, r: nat, h: nat)
    requires v < 0x1000_0000 && r < 0x1000_0000 && v == r + 0x1000_0000 * h
    ensures h == 0 && v == r
  {
  }

  lemma Align28(w: nat, result: nat, r: nat, h: nat)
    requires result < Pow2(28) && r < 0x1000_0000 && result + ShiftLeft(w, 28) == r + 0x1000_0000 * h
    ensures w == h && result == r
  {
    assert Pow2(28) == 0x1000_0000 by { Pow2Values(); }
    Times28(w);
  }

  lemma DecodeShort32(w: nat, bitpos: nat, result: nat, t: seq<byte>)
    requires bitpos <= 21 && result < Pow2(bitpos) && w < 128
    ensures result + ShiftLeft(w, bitpos) < 0x1000_0000
    ensures DecodeGroups32(EncodeVarint(w) + t, bitpos, result) == Got(result + ShiftLeft(w, bitpos), t)
  {
    Step32Low(w, t, bitpos, result);
    Pow2Monotone(bitpos + 7, 28);
    Pow2Values();
  }

  /** The bits of v from bit 28 on, as the decoder judges them: four bits that fit; or
      more, where bits 31 and 63 of v are set and each of the groups at bits 35, 42, 49
      and 56 is all ones or all zeros. Bits 32 to 34 do not matter. */
  predicate HighAccepted(h: nat) {
    || h < 16
    || (&& h / 8 % 2 == 1
        && h / 128 % 128 in {0, 127}
        && h / 0x4000 % 128 in {0, 127}
        && h / 0x20_0000 % 128 in {0, 127}
        && h / 0x1000_0000 % 128 in {0, 127}
        && h / 0x8_0000_0000 == 1)
  }

  lemma TailMeaning(w: nat, negative: bool)
    requires 0 < w < 0x2000_0000
    ensures TailAccepted(w, 35, negative) <==>
            (negative && w % 128 in {0, 127} && w / 128 % 128 in {0, 127} && w / 0x4000 % 128 in {0, 127}
             && w / 0x20_0000 % 128 in {0, 127} && w / 0x1000_0000 == 1)
  {
    var w1, w2, w3, w4 := w / 128, w / 128 / 128, w / 128 / 128 / 128, w / 128 / 128 / 128 / 128;
    assert w2 == w / 0x4000 && w3 == w / 0x20_0000 && w4 == w / 0x1000_0000 && w4 < 2;
    assert TailAccepted(w4, 63, negative) <==> w4 == 0 || negative;
    assert TailAccepted(w3, 56, negative) <==> w3 == 0 || (w3 >= 128 && negative && w3 % 128 in {0, 127} && w4 == 1);
    assert TailAccepted(w2, 49, negative) <==>
           || w2 == 0
           || (w2 >= 128 && negative && w2 % 128 in {0, 127} && w3 > 0 && TailAccepted(w3, 56, negative));
    assert TailAccepted(w1, 42, negative) <==>
           || w1 == 0
           || (w1 >= 128 && negative && w1 % 128 in {0, 127} && w2 > 0 && TailAccepted(w2, 49, negative));
  }

  lemma DecodeHigh32(h: nat, r: nat, t: seq<byte>)
    requires r < 0x1000_0000 && 0 < h < 0x10_0000_0000
    ensures DecodeGroups32(EncodeVarint(h) + t, 28, r) ==
            if HighAccepted(h) then Got(r + 0x1000_0000 * (h % 16), t) else Fail
  {
    if h < 128 {
      Step32Last(h, t, r);
    } else {
      var w, negative := h / 128, h / 8 % 2 == 1;
      DecodeLong32(h, r, t);
      TailMeaning(w, negative);
      HighGroups(h);
    }
  }

  lemma HighGroups(h: nat)
    ensures h / 128 / 128 == h / 0x4000 && h / 128 / 0x4000 == h / 0x20_0000
    ensures h / 128 / 0x20_0000 == h / 0x1000_0000 && h / 128 / 0x1000_0000 == h / 0x8_0000_0000
  {
  }

  lemma DecodeLong32(h: nat, r: nat, t: seq<byte>)
    requires r < 0x1000_0000 && 128 <= h < 0x10_0000_0000
    ensures DecodeGroups32(EncodeVarint(h) + t, 28, r) ==
            if TailAccepted(h / 128, 35, h / 8 % 2 == 1) then Got(r + 0x1000_0000 * (h % 16), t) else Fail
  {
    var w, next := h / 128, r + 0x1000_0000 * (h % 16);
    var tail := EncodeVarint(w) + t;
    assert EncodeVarint(h) + t == [h % 128 + 128] + tail;
    Step32Last(h % 128 + 128, tail, r);
    ThirtyFive(w);
    SignBit(r, h);
    DecodeTail32(w, 35, next, t);
  }

  lemma ThirtyFive(w: nat)
    requires w < 0x2000_0000
    ensures ShiftLeft(w, 35) < M64
  {
    Times28(w);
    ShiftLeftTwice(w, 28, 7);
    TimesGroup(0x1000_0000 * w);
  }

  /** Bit 31 of the low word. */
  lemma LowNibble(h: nat)
    ensures h / 8 % 2 == 1 <==> h % 16 >= 8
    ensures (h % 128) % 16 == h % 16
  {
    NibbleBit(h / 16, h % 16);
    NibbleOfByte(h / 128, h % 128);
  }

  lemma NibbleBit(q: nat, n: nat)
    requires n < 16
    ensures (16 * q + n) / 8 % 2 == 1 <==> n >= 8
  {
    assert (16 * q + n) / 8 == 2 * q + n / 8;
  }

  lemma NibbleOfByte(q: nat, n: nat)
    requires n < 128
    ensures n % 16 == (128 * q + n) % 16
  {
    var k, m: nat := n / 16, n % 16;
    assert 128 * q + n == 16 * (8 * q + k) + m;
    LowBits(8 * q + k, m);
  }

  lemma LowBits(k: nat, m: nat)
    requires m < 16
    ensures (16 * k + m) % 16 == m
  {
  }

  lemma SignBit(r: nat, h: nat)
    requires r < 0x1000_0000
    ensures r + 0x1000_0000 * (h % 16) >= 0x8000_0000 <==> h / 8 % 2 == 1
    ensures r + 0x1000_0000 * (h % 16) < M32
    ensures (h % 128) % 16 == h % 16
  {
    LowNibble(h);
    var low: nat := h % 16;
    assert low < 16 && (r + 0x1000_0000 * low >= 0x8000_0000 <==> low >= 8);
  }

  predicate Accepted32(v: nat) {
    HighAccepted(v / 0x1000_0000)
  }

  /** The 32-bit decoder on the encoding of any 64-bit value: it succeeds exactly when
      Accepted32 holds, and then returns the low 32 bits. */
  lemma Varint32OfEncoding(v: nat, t: seq<byte>)
    requires v < M64
    ensures DecodeVarint32(EncodeVarint(v) + t) == if Accepted32(v) then Got(v % M32, t) else Fail
  {
    var h: nat, r: nat := v / 0x1000_0000, v % 0x1000_0000;
    LowWord(h, r);
    HighPart(v);
    hide DecodeVarint32, EncodeVarint, HighAccepted;
    DecodeParts32(v, h, r, t);
  }

  lemma DecodeParts32(v: nat, h: nat, r: nat, t: seq<byte>)
    requires r < 0x1000_0000 && v == r + 0x1000_0000 * h && h < 0x10_0000_0000
    ensures DecodeVarint32(EncodeVarint(v) + t) == if HighAccepted(h) then Got(r + 0x1000_0000 * (h % 16), t) else Fail
  {
    hide DecodeVarint32, EncodeVarint, DecodeGroups32, HighAccepted;
    if h == 0 { NoHighBits(); }
    if v < 128 {
      DecodeSmall32(v, t);
    } else {
      DecodeFirst32(v, r, h, t);
      if h > 0 { DecodeHigh32(h, r, t); }
    }
  }

  lemma NoHighBits()
    ensures HighAccepted(0)
  {
  }

  lemma DecodeSmall32(v: nat, t: seq<byte>)
    requires v < 128
    ensures DecodeVarint32(EncodeVarint(v) + t) == Got(v, t)
  {
    assert (EncodeVarint(v) + t)[1..] == t;
  }

  lemma HighPart(v: nat)
    requires v < M64
    ensures v / 0x1000_0000 < 0x10_0000_0000
  {
  }

  lemma DecodeFirst32(v: nat, r: nat, h: nat, t: seq<byte>)
    requires v >= 128 && r < 0x1000_0000 && v == r + 0x1000_0000 * h
    ensures DecodeVarint32(EncodeVarint(v) + t) ==
            if h == 0 then Got(r, t) else DecodeGroups32(EncodeVarint(h) + t, 28, r)
  {
    var s := EncodeVarint(v) + t;
    assert s[0] == v % 128 + 128 && s[1..] == EncodeVarint(v / 128) + t;
    assert v % 128 + ShiftLeft(v / 128, 7) == v by { TimesGroup(v / 128); }
    assert Pow2(7) == 128 by { Pow2Values(); }
    var goal := if h == 0 then Got(r, t) else DecodeGroups32(EncodeVarint(h) + t, 28, r);
    DecodeLow32(v / 128, 3, 7, v % 128, r, h, t, goal);
  }

  lemma LowWord(h: nat, r: nat)
    requires r < 0x1000_0000
    ensures (r + 0x1000_0000 * h) % M32 == r + 0x1000_0000 * (h % 16)
  {
    assert r + 0x1000_0000 * h == M32 * (h / 16) + (r + 0x1000_0000 * (h % 16));
  }

  /** Values below 2^32 are read back; every value from 2^32 up to 2^63 is rejected. */
  lemma Varint32Ranges(v: nat, t: seq<byte>)
    requires v < 0x8000_0000_0000_0000
    ensures DecodeVarint32(EncodeVarint(v) + t) == if v < M32 then Got(v, t) else Fail
  {
    Varint32OfEncoding(v, t);
    var h := v / 0x1000_0000;
    assert h < 0x8_0000_0000 && (v < M32 <==> h < 16);
    if v < M32 { Untruncated(v); }
  }

  /** A negative 32-bit value, sign-extended to 64 bits by the encoder, is read back. */
  lemma Varint32Negative(i: int, t: seq<byte>)
    requires -0x8000_0000 <= i < 0
    ensures DecodeVarint32(EncodeVarint(i + M64) + t) == Got(i + M32, t)
  {
    NegativeAccepted(i);
    Varint32OfEncoding(i + M64, t);
  }

  lemma NegativeAccepted(i: int)
    requires -0x8000_0000 <= i < 0
    ensures Accepted32(i + M64) && (i + M64) % M32 == i + M32
  {
    var h, x := (i + M64) / 0x1000_0000, i + 0x8000_0000;
    assert h == 0xF_FFFF_FFF8 + x / 0x1000_0000;
    var d := x / 0x1000_0000;
    assert 0 <= d < 8;
    assert h / 8 == 0x1_FFFF_FFFF;
    assert h / 128 == 0x1FFF_FFFF;
  }

  // ---------- zig-zag ----------

  /** The unsigned value pb_encode_svarint writes for a 64-bit signed one. `~x` is
      2^64 - 1 - x and `<<` drops the top bit. */
  function ZigZag(i: int): nat
    requires -0x8000_0000_0000_0000 <= i < 0x8000_0000_0000_0000
  {
    if i < 0 then M64 - 1 - 2 * ToUnsigned(i, 64) % M64 else 2 * ToUnsigned(i, 64) % M64
  }

  /** What pb_decode_svarint makes of an unsigned value. */
  function UnZigZag(v: nat): int
    requires v < M64
  {
    if v % 2 == 1 then ToSigned(M64 - 1 - v / 2, 64) else ToSigned(v / 2, 64)
  }

  /** Small magnitudes get small codes. */
  lemma ZigZagValue(i: int)
    requires -0x8000_0000_0000_0000 <= i < 0x8000_0000_0000_0000
    ensures ZigZag(i) == if i < 0 then -2 * i - 1 else 2 * i
  {
    assert ToUnsigned(i, 64) == if i < 0 then i + M64 else i;
  }

  lemma UnZigZagValue(v: nat)
    requires v < M64
    ensures UnZigZag(v) == if v % 2 == 1 then -(v / 2) - 1 else v / 2
  {
    var n := M64 - 1 - v / 2;
    assert ToUnsigned(n, 64) == n && ToUnsigned(v / 2, 64) == v / 2;
  }

  /** Decoding inverts encoding in both directions, for every 64-bit value. */
  lemma ZigZagRoundTrip(i: int, v: nat)
    requires -0x8000_0000_0000_0000 <= i < 0x8000_0000_0000_0000
    requires v < M64
    ensures ZigZag(i) < M64 && UnZigZag(ZigZag(i)) == i
    ensures -0x8000_0000_0000_0000 <= UnZigZag(v) < 0x8000_0000_0000_0000 && ZigZag(UnZigZag(v)) == v
  {
    ZigZagValue(i);
    UnZigZagValue(ZigZag(i));
    UnZigZagValue(v);
    ZigZagValue(UnZigZag(v));
  }
}

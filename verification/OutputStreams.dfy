/** Output streams over a buffer and sizing streams, and the primitive writers of
    pb_encode.c. */
module OutputStreams {
  import opened Descriptors
  import opened Encoding

  /** `buf` with `bs` written at position `at`. */
  function Splice(buf: seq<byte>, at: nat, bs: seq<byte>): (r: seq<byte>)
    requires at + |bs| <= |buf|
    ensures |r| == |buf|
  {
    buf[..at] + bs + buf[at + |bs|..]
  }

  /** What a stream has done so far: its position and count, and the whole buffer. */
  datatype Snapshot = Snapshot(writing: bool, state: nat, written: nat, buf: seq<byte>)

  /** The snapshot after exactly the bytes bs were written. A sizing stream only counts. */
  function After(s: Snapshot, bs: seq<byte>): Snapshot {
    if s.writing && s.state + |bs| <= |s.buf| then
      Snapshot(true, s.state + |bs|, s.written + |bs|, Splice(s.buf, s.state, bs))
    else s.(written := s.written + |bs|)
  }

  lemma AfterBoth(s: Snapshot, a: seq<byte>, b: seq<byte>)
    ensures (s.writing ==> s.state + |a| + |b| <= |s.buf|) ==> After(After(s, a), b) == After(s, a + b)
  {
    if s.writing && s.state + |a| + |b| <= |s.buf| {
      var l, r := Splice(Splice(s.buf, s.state, a), s.state + |a|, b), Splice(s.buf, s.state, a + b);
      forall k | 0 <= k < |s.buf| ensures l[k] == r[k] {
      }
    }
  }

  lemma AfterNothing(s: Snapshot)
    ensures After(s, []) == s
  {
    if s.writing && s.state <= |s.buf| { assert Splice(s.buf, s.state, []) == s.buf; }
  }

  /** Why an encoder returned false. */
  datatype Status = Ok | StreamFull | Unencodable | SizeChanged

  /** `pb_ostream_t`. A stream without a callback only counts. */
  class OStream {
    const writing: bool
    const buf: array<byte>
    var state: nat
    var maxSize: nat
    var bytesWritten: nat

    /** A writing stream has room in its buffer up to its limit. */
    ghost predicate Valid()
      reads this
    {
      writing ==> bytesWritten <= maxSize && state + (maxSize - bytesWritten) <= buf.Length
    }

    /** How many more bytes a writing stream takes. */
    ghost function Free(): int
      reads this
    {
      maxSize - bytesWritten
    }

    ghost function Now(): Snapshot
      reads this, buf
    {
      Snapshot(writing, state, bytesWritten, buf[..])
    }

    /** pb_ostream_from_buffer */
    constructor (b: array<byte>, size: nat)
      requires size <= b.Length
      ensures Valid() && writing && buf == b && state == 0 && maxSize == size && bytesWritten == 0
    {
      writing := true;
      buf := b;
      state := 0;
      maxSize := size;
      bytesWritten := 0;
    }

    /** PB_OSTREAM_SIZING */
    constructor Sizing()
      ensures Valid() && !writing && bytesWritten == 0 && fresh(buf)
    {
      writing := false;
      buf := new byte[0];
      state := 0;
      maxSize := 0;
      bytesWritten := 0;
    }

    /** A stream that writes where `other` is, but no more than `limit` bytes. */
    constructor Limited(other: OStream, limit: nat)
      requires other.Valid() && other.writing && limit <= other.Free()
      ensures Valid() && writing && buf == other.buf
      ensures state == other.state && maxSize == limit && bytesWritten == 0
    {
      writing := true;
      buf := other.buf;
      state := other.state;
      maxSize := limit;
      bytesWritten := 0;
    }

    /** buf_write */
    method BufWrite(data: seq<byte>)
      requires state + |data| <= buf.Length
      modifies `state, buf
      ensures state == old(state) + |data|
      ensures buf[..] == Splice(old(buf[..]), old(state), data)
    {
      var dest := state;
      state := dest + |data|;
      var i := 0;
      while i < |data|
        invariant i <= |data| && state == dest + |data|
        invariant forall k | 0 <= k < i :: buf[dest + k] == data[k]
        invariant forall k | 0 <= k < buf.Length && !(dest <= k < dest + i) :: buf[k] == old(buf[k])
      {
        buf[dest + i] := data[i];
        i := i + 1;
      }
      assert forall k | dest <= k < dest + |data| :: buf[k] == data[k - dest];
    }

    /** pb_write. A sizing stream looks only at the count. */
    method Write(data: seq<byte>, count: nat) returns (ok: bool)
      requires Valid() && (writing ==> |data| == count)
      modifies this, buf
      ensures Valid() && maxSize == old(maxSize)
      ensures ok == (writing ==> count <= old(Free()))
      ensures ok && |data| == count ==> Now() == After(old(Now()), data)
      ensures ok && !writing ==> Now() == old(Now()).(written := old(bytesWritten) + count)
    {
      hide Splice;
      AfterNothing(Now());
      if count > 0 && writing {
        if bytesWritten + count > maxSize {
          return false;
        }
        BufWrite(data);
      }
      bytesWritten := bytesWritten + count;
      return true;
    }
  }

  /** A writer for the bytes e, on a stream with `free` bytes left if it writes at all: it
      succeeds exactly when there is something to encode and room for it, and it never
      finds that a size changed. */
  predicate Reports(status: Status, e: Option<seq<byte>>, writing: bool, free: int) {
    && (status == Ok <==> e.Some? && (writing ==> |e.value| <= free))
    && status != SizeChanged
  }
}

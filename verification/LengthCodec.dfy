/** codec/frame/frame.go driven by codec.go: payloads with a four-byte length in front. */
module LengthCodecs {
  import opened Bytes
  import opened Transports
  import opened ByteBuffers
  import opened Frames
  import opened FrameCodecs

  const PREFIX := 4
  const MAX_PAYLOAD := 1024 * 1024 * 1024

  datatype Prefixed = Short | Overflow | Payload(payload: seq<byte>)

  // The next payload of a whole byte string.
  function ParsePrefixed(s: seq<byte>): Prefixed {
    if |s| < PREFIX then Short
    else if BE(s[..PREFIX]) > MAX_PAYLOAD then Overflow
    else if |s| < PREFIX + BE(s[..PREFIX]) then Short
    else Payload(s[PREFIX..PREFIX + BE(s[..PREFIX])])
  }

  // Four bytes, the most significant first; the limit is a gigabyte.
  lemma PrefixedIff(s: seq<byte>)
    ensures |s| < 4 ==> ParsePrefixed(s) == Short
    ensures |s| >= 4 ==>
      var n := (((s[0] as int) * 256 + s[1]) * 256 + s[2]) * 256 + s[3];
      && (ParsePrefixed(s).Overflow? <==> n > 0x4000_0000)
      && (ParsePrefixed(s).Payload? <==> n <= 0x4000_0000 && |s| >= 4 + n)
      && (ParsePrefixed(s).Payload? ==> ParsePrefixed(s).payload == s[4..4 + n])
  {
    if |s| >= 4 { FourDigits(s[..4]); }
    hide BE;
  }

  lemma FourDigits(s: seq<byte>)
    requires |s| == 4
    ensures BE(s) == (((s[0] as int) * 256 + s[1]) * 256 + s[2]) * 256 + s[3]
  {
    TwoDigits(s[..2]);
    assert s[..3][..2] == s[..2] && BE(s[..3]) == 256 * BE(s[..2]) + s[2];
  }

  lemma PrefixedStable(s: seq<byte>, t: seq<byte>)
    requires !ParsePrefixed(s).Short?
    ensures ParsePrefixed(s + t) == ParsePrefixed(s)
  {
    assert (s + t)[..PREFIX] == s[..PREFIX];
    var n := BE(s[..PREFIX]);
    if n <= MAX_PAYLOAD { assert (s + t)[PREFIX..PREFIX + n] == s[PREFIX..PREFIX + n]; }
  }

  function Prefix(payload: seq<byte>): seq<byte> { ToBE(|payload|, PREFIX) + payload }

  // Any payload within the limit is read back, and nothing of what follows it.
  lemma PrefixBack(payload: seq<byte>, rest: seq<byte>)
    requires |payload| <= MAX_PAYLOAD
    ensures ParsePrefixed(Prefix(payload) + rest) == Payload(payload)
  {
    hide BE, ToBE;
    var g := Prefix(payload) + rest;
    assert Pow256(4) == 0x1_0000_0000;
    BigEndian(|payload|, PREFIX);
    assert g[..PREFIX] == ToBE(|payload|, PREFIX);
    assert g[PREFIX..PREFIX + |payload|] == payload;
  }

  datatype LengthResult = Got(payload: seq<byte>) | NeedMoreBytes | TooLong

  class LengthCodec {
    const src: ByteBuffer
    var decodeReset: bool
    var decodeBytes: nat

    ghost predicate Valid()
      reads this, src, src.data
    {
      src.Valid() && (decodeReset ==> decodeBytes <= |src.Readable()|)
    }

    ghost function Stream(): seq<byte>
      requires Valid()
      reads this, src, src.data
    {
      if decodeReset then src.Unread()[decodeBytes..] else src.Unread()
    }

    constructor (src: ByteBuffer)
      requires src.Valid()
      ensures Valid() && this.src == src && !decodeReset
    {
      this.src := src;
      decodeReset, decodeBytes := false, 0;
    }

    // Encode: prefix and payload go to the end of the buffer, in place.
    method Encode(payload: seq<byte>, dst: ByteBuffer) returns (overflow: bool)
      requires dst.Valid()
      modifies dst, dst.data
      ensures dst.Valid() && overflow == (|payload| > MAX_PAYLOAD) && (dst.data == old(dst.data) || fresh(dst.data))
      ensures dst.Unread() == old(dst.Unread()) + (if overflow then [] else Prefix(payload))
      ensures dst.Saved() == old(dst.Saved()) && dst.Readable() == old(dst.Readable())
    {
      hide ToBE, ByteBuffer.Intact;
      if |payload| > MAX_PAYLOAD { return true; }
      UnreadAreas(dst.content, dst.si, dst.ri, 0);
      dst.Reserve(PREFIX + |payload|);
      var bytes := Prefix(payload);
      dst.Claim(bytes, PREFIX + |payload|);
      assert bytes[..|bytes|] == bytes;
      UnreadAreas(dst.content, dst.si, dst.ri, 0);
      return false;
    }

    method ResetDecode()
      requires Valid()
      modifies this, src, src.data
      ensures Valid() && !decodeReset && Stream() == old(Stream()) && src.data == old(src.data)
      ensures src.Saved() == old(src.Saved())
    {
      hide ByteBuffer.Intact;
      if decodeReset {
        decodeReset := false;
        Skip(decodeBytes);
        decodeBytes := 0;
      }
    }

    // Drop the next k bytes of the stream.
    method Skip(k: nat)
      requires src.Valid() && k <= |src.Readable()|
      modifies src, src.data
      ensures src.Valid() && src.Unread() == old(src.Unread())[k..] && src.data == old(src.data)
      ensures src.Saved() == old(src.Saved()) && |src.Readable()| == |old(src.Readable())| - k
    {
      hide ByteBuffer.Intact;
      UnreadAreas(src.content, src.si, src.ri, k);
      src.Consume(k);
      UnreadAreas(src.content, src.si, src.ri, 0);
    }

    // Make the next k bytes readable; the stream stays the same.
    method Prepare(k: nat) returns (needMore: bool)
      requires src.Valid()
      modifies src`ri
      ensures src.Valid() && needMore == (k > |src.Unread()|) && src.Unread() == old(src.Unread())
      ensures src.Saved() == old(src.Saved()) && (!needMore ==> k <= |src.Readable()|)
    {
      hide ByteBuffer.Intact;
      UnreadAreas(src.content, src.si, src.ri, 0);
      needMore := src.PrepareRead(k);
      UnreadAreas(src.content, src.si, src.ri, 0);
    }

    // The first k bytes of the read area.
    method Peek(k: nat) returns (bytes: seq<byte>)
      requires src.Valid() && k <= |src.Readable()|
      ensures bytes == src.Unread()[..k]
    {
      hide ByteBuffer.Intact;
      bytes := src.Front(k);
    }

    method Decode() returns (r: LengthResult)
      requires Valid()
      modifies this, src, src.data
      ensures Valid() && src.Saved() == old(src.Saved()) && (src.data == old(src.data) || fresh(src.data))
      ensures src.data.Length >= old(src.data.Length)
      ensures match ParsePrefixed(old(Stream()))
        case Payload(p) => r == Got(p) && Stream() == old(Stream())[PREFIX + |p|..]
        case Short => r == NeedMoreBytes && Stream() == old(Stream())
        case Overflow => r == TooLong && Stream() == old(Stream())
      ensures r.NeedMoreBytes? ==> !decodeReset && Room(Stream(), src.data.Length - src.wi)
    {
      hide BE, ByteBuffer.Intact;
      ResetDecode();
      var more := Prepare(PREFIX);
      if more { return NeedMoreBytes; }
      var prefix := Peek(PREFIX);
      var n := BE(prefix);
      if n > MAX_PAYLOAD { return TooLong; }
      r := Finish(n);
    }

    // Hand out the payload, or make room for what is missing. The prefix is consumed at once.
    method Finish(n: nat) returns (r: LengthResult)
      requires Valid() && !decodeReset && PREFIX <= |src.Readable()| && n == BE(Stream()[..PREFIX])
      modifies this, src, src.data
      ensures Valid() && src.Saved() == old(src.Saved()) && (src.data == old(src.data) || fresh(src.data))
      ensures src.data.Length >= old(src.data.Length)
      ensures if PREFIX + n <= |old(Stream())|
        then r == Got(old(Stream())[PREFIX..PREFIX + n]) && Stream() == old(Stream())[PREFIX + n..]
        else r == NeedMoreBytes && Stream() == old(Stream())
      ensures r.NeedMoreBytes? ==> !decodeReset && Room(Stream(), src.data.Length - src.wi)
    {
      hide BE, ByteBuffer.Intact;
      var more := Prepare(PREFIX + n);
      if more {
        src.Reserve(PREFIX + n);
        return NeedMoreBytes;
      }
      Halves(Stream(), PREFIX, n);
      Skip(PREFIX);
      var payload := Peek(n);
      decodeReset, decodeBytes := true, n;
      return Got(payload);
    }
  }

  lemma Halves(s: seq<byte>, k: nat, n: nat)
    requires k + n <= |s|
    ensures s[k..][..n] == s[k..k + n] && s[k..][n..] == s[k + n..]
  {}

  // Free space when more bytes are needed: all that is missing, once the length is known.
  ghost predicate Room(s: seq<byte>, room: int) {
    |s| < PREFIX || |s| < PREFIX + BE(s[..PREFIX]) <= |s| + room
  }

  lemma RoomLeft(s: seq<byte>, cap: nat)
    requires PREFIX <= cap && Room(s, cap - |s|)
    ensures |s| < cap
  {}

  // ---- Reading from a transport ----

  datatype NextPayload = Next(payload: seq<byte>) | LengthOverflow | ReadFailed(error: IOError)

  datatype Turn = Done(result: NextPayload) | Again

  ghost predicate ReadsAs(pending: seq<byte>, r: NextPayload, after: seq<byte>) {
    match r
    case Next(p) =>
      ParsePrefixed(pending) == Payload(p) && PREFIX + |p| <= |pending| && after == pending[PREFIX + |p|..]
    case LengthOverflow => ParsePrefixed(pending).Overflow? && after == pending
    case ReadFailed(e) => after == pending && (e.EOF? ==> ParsePrefixed(pending).Short?)
  }

  class LengthConn {
    const stream: Transport
    const codec: LengthCodec

    ghost predicate Valid()
      reads codec, codec.src, codec.src.data, stream
    {
      codec.Valid() && codec.src.Saved() == [] && codec.src.data.Length >= PREFIX
    }

    ghost function Pending(): seq<byte>
      requires Valid()
      reads codec, codec.src, codec.src.data, stream
    {
      codec.Stream() + stream.incoming
    }

    constructor (stream: Transport)
      ensures Valid() && this.stream == stream && Pending() == stream.incoming
      ensures fresh(codec) && fresh(codec.src) && fresh(codec.src.data)
    {
      hide ByteBuffer.Valid, ByteBuffer.Saved, ByteBuffer.Readable, ByteBuffer.Written, ByteBuffer.Unread;
      this.stream := stream;
      var src := new ByteBuffer();
      codec := new LengthCodec(src);
      new;
      src.NothingUnread();
      assert codec.Stream() + stream.incoming == stream.incoming;
    }

    method Fill() returns (e: ReadResult)
      requires Valid() && !codec.decodeReset && Room(codec.Stream(), codec.src.data.Length - codec.src.wi)
      modifies stream`incoming, stream`readScript, codec.src, codec.src.data
      ensures Valid() && codec.src.data == old(codec.src.data) && Pending() == old(Pending())
      ensures e.Read? ==> |stream.incoming| < |old(stream.incoming)|
      ensures e.ReadError? ==> codec.Stream() == old(codec.Stream()) && stream.incoming == old(stream.incoming)
      ensures e == ReadError(EOF) ==> stream.incoming == []
      ensures Spent(old(stream.readScript), e == ReadError(Failed), stream.readScript)
    {
      hide Room, Failures, Spent, ByteBuffer.Intact;
      ghost var b := codec.src;
      RoomLeft(codec.Stream(), b.data.Length);
      UnreadAreas(b.content, b.si, b.ri, 0);
      e := codec.src.ReadFrom(stream);
      UnreadAreas(b.content, b.si, b.ri, 0);
      hide ByteBuffer.Readable, ByteBuffer.Written;
      if e.Read? { Moved(b.Readable(), old(b.Written()), e.bytes, stream.incoming); }
    }

    method DecodeOrFill() returns (t: Turn)
      requires Valid()
      modifies stream`incoming, stream`readScript, codec, codec.src, codec.src.data
      ensures Valid() && (codec.src.data == old(codec.src.data) || fresh(codec.src.data))
      ensures t.Done? ==> ReadsAs(old(Pending()), t.result, Pending())
      ensures t.Again? ==> Pending() == old(Pending()) && |stream.incoming| < |old(stream.incoming)|
      ensures Spent(old(stream.readScript), t == Done(ReadFailed(Failed)), stream.readScript)
    {
      ghost var s := codec.Stream();
      Within(s);
      hide ParsePrefixed, Room, Failures, ByteBuffer.Intact;
      var d := codec.Decode();
      if d.NeedMoreBytes? {
        var e := Fill();
        t := if e.ReadError? then Done(ReadFailed(e.error)) else Again;
        if e == ReadError(EOF) { NothingMore(s, stream.incoming); }
      } else {
        PrefixedStable(s, stream.incoming);
        t := Done(if d.Got? then Next(d.payload) else LengthOverflow);
        if d.Got? { Drop(s, stream.incoming, PREFIX + |d.payload|); }
      }
    }

    method ReadNext() returns (r: NextPayload)
      requires Valid()
      modifies stream`incoming, stream`readScript, codec, codec.src, codec.src.data
      ensures Valid() && (codec.src.data == old(codec.src.data) || fresh(codec.src.data))
      ensures ReadsAs(old(Pending()), r, Pending())
      ensures Spent(old(stream.readScript), r == ReadFailed(Failed), stream.readScript)
    {
      hide ReadsAs, Failures, ByteBuffer.Intact;
      ghost var pending := Pending();
      while true
        invariant Valid() && (codec.src.data == old(codec.src.data) || fresh(codec.src.data))
        invariant Pending() == pending
        invariant Failures(stream.readScript) == Failures(old(stream.readScript))
        decreases |stream.incoming|
      {
        var t := DecodeOrFill();
        if t.Done? { return t.result; }
      }
    }
  }

  lemma Moved(a: seq<byte>, b: seq<byte>, c: seq<byte>, d: seq<byte>)
    ensures a + (b + c) + d == a + b + (c + d)
  {}

  lemma NothingMore(s: seq<byte>, t: seq<byte>)
    requires t == []
    ensures s + t == s
  {}

  lemma Within(s: seq<byte>)
    ensures ParsePrefixed(s).Payload? ==> PREFIX + |ParsePrefixed(s).payload| <= |s|
  {}

  lemma Drop(s: seq<byte>, t: seq<byte>, n: nat)
    requires n <= |s|
    ensures (s + t)[n..] == s[n..] + t
  {}

  // The results of k reads from a whole byte string, and what is left of it.
  ghost function ReadMany(s: seq<byte>, k: nat): (seq<NextPayload>, seq<byte>) {
    if k == 0 then ([], s)
    else
      var (results, rest) := ReadMany(s, k - 1);
      Within(rest);
      match ParsePrefixed(rest)
      case Payload(p) => (results + [Next(p)], rest[PREFIX + |p|..])
      case Overflow => (results + [LengthOverflow], rest)
      case Short => (results + [ReadFailed(EOF)], rest)
  }

  lemma ReadManyStep(s: seq<byte>, k: nat, pending: seq<byte>, r: NextPayload, after: seq<byte>,
                     results: seq<NextPayload>)
    requires ReadMany(s, k) == (results, pending) && ReadsAs(pending, r, after)
    ensures r != ReadFailed(Failed) ==> ReadMany(s, k + 1) == (results + [r], after)
    ensures r == ReadFailed(Failed) ==> after == pending
  {
    hide ParsePrefixed;
    assert ReadMany(s, (k + 1) - 1) == (results, pending);
    match r
    case Next(p) => assert after == pending[PREFIX + |p|..];
    case LengthOverflow => assert after == pending;
    case ReadFailed(e) => if e.EOF? { assert ReadMany(s, k + 1) == (results + [r], after); }
  }

  // The payloads read do not depend on how the transport splits the stream.
  method Run(incoming: seq<byte>, script: seq<ReadStep>, calls: nat) returns (results: seq<NextPayload>, failures: nat)
    ensures results == ReadMany(incoming, |results|).0
    ensures |results| + failures == calls && failures <= Failures(script)
    ensures Failures(script) == 0 ==> results == ReadMany(incoming, calls).0
  {
    hide LengthConn.Valid, LengthConn.Pending, Failures;
    var stream := new Transport(incoming, script, []);
    var c := new LengthConn(stream);
    results, failures := [], 0;
    for i := 0 to calls
      invariant fresh(stream) && fresh(c) && fresh(c.codec) && fresh(c.codec.src) && fresh(c.codec.src.data)
      invariant c.stream == stream && c.Valid() && |results| + failures == i
      invariant ReadMany(incoming, |results|) == (results, c.Pending())
      invariant failures + Failures(stream.readScript) == Failures(script)
    {
      hide ReadsAs, ReadMany;
      ghost var pending := c.Pending();
      var r := c.ReadNext();
      ReadManyStep(incoming, |results|, pending, r, c.Pending(), results);
      if r == ReadFailed(Failed) {
        failures := failures + 1;
      } else {
        results := results + [r];
      }
    }
  }
}

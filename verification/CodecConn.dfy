/** codec.go with the WebSocket codec: whole frames over a transport that may split, delay and
    fail its transfers. */
module CodecConns {
  import opened Bytes
  import opened Transports
  import opened ByteBuffers
  import opened Frames
  import opened FrameCodecs

  datatype ReadNextResult = Item(frame: seq<byte>) | OverSize | Bad | IoError(error: IOError)

  datatype Round = Done(result: ReadNextResult) | Again

  // A read result, and what is pending after it, as they follow from what was pending before.
  ghost predicate ReadsAs(pending: seq<byte>, max: nat, r: ReadNextResult, after: seq<byte>) {
    match r
    case Item(f) => ParseOne(pending, max) == Whole(|f|) && pending == f + after
    case OverSize => ParseOne(pending, max) == OverMax && after == pending
    case Bad => ParseOne(pending, max) == BadLength && after == pending
    case IoError(e) => after == pending && (e.EOF? ==> ParseOne(pending, max) == Incomplete)
  }

  lemma Rest(s: seq<byte>, t: seq<byte>, n: nat)
    requires n <= |s|
    ensures s + t == s[..n] + (s[n..] + t)
  {}

  lemma Moved(a: seq<byte>, b: seq<byte>, c: seq<byte>, d: seq<byte>)
    ensures a + (b + c) + d == a + b + (c + d)
  {}

  lemma RoomLeft(s: seq<byte>, cap: nat)
    requires MAX_HEADER_LENGTH <= cap && HasRoom(s, cap - |s|)
    ensures |s| < cap
  {}

  lemma NothingMore(s: seq<byte>, t: seq<byte>)
    requires t == []
    ensures s + t == s
  {}

  lemma AtStart(s: seq<byte>, incoming: seq<byte>)
    requires s == []
    ensures s + incoming == incoming
  {}

  method NewBuffer(n: nat) returns (b: ByteBuffer)
    ensures fresh(b) && fresh(b.data) && b.Valid() && b.data.Length >= n
    ensures b.Saved() == [] && b.Readable() == [] && b.Written() == []
  {
    hide ByteBuffer.Intact;
    b := new ByteBuffer();
    b.Reserve(n);
  }

  class CodecConn {
    const stream: Transport
    const codec: FrameCodec
    const dst: ByteBuffer

    ghost function Repr(): set<object>
      reads codec.src, dst
    {
      {stream, codec, codec.src, codec.src.data, dst, dst.data}
    }

    // Nothing is saved in either buffer, and nothing uncommitted is left in the write buffer.
    ghost predicate Valid()
      reads this, codec.src, dst, Repr()
      ensures Valid() ==> codec.Valid() && dst.Valid() && codec.src != dst && codec.src.data != dst.data
    {
      && codec.Valid() && dst.Valid() && codec.src != dst && codec.src.data != dst.data
      && codec.src.Saved() == [] && codec.src.data.Length >= MAX_HEADER_LENGTH
      && dst.Saved() == [] && dst.Written() == []
    }

    // All bytes of the peer that were not handed out yet, read or not.
    ghost function Pending(): seq<byte>
      requires Valid()
      reads this, codec.src, dst, Repr()
    {
      codec.Stream() + stream.incoming
    }

    // A connection over fresh buffers, as NewWebsocketStream and init set it up.
    constructor (stream: Transport, max: nat)
      ensures Valid() && this.stream == stream && codec.max == max && fresh(Repr() - {stream})
      ensures Pending() == stream.incoming && dst.Readable() == []
    {
      hide ByteBuffer.Valid, ByteBuffer.Saved, ByteBuffer.Readable, ByteBuffer.Written, ByteBuffer.Unread;
      this.stream := stream;
      var src := NewBuffer(4096);
      var dst := NewBuffer(4096);
      codec := new FrameCodec(src, max);
      this.dst := dst;
      new;
      src.NothingUnread();
      AtStart(codec.Stream(), stream.incoming);
    }

    method ReadNext() returns (r: ReadNextResult)
      requires Valid()
      modifies stream`incoming, stream`readScript, codec, codec.src, codec.src.data
      ensures Valid() && (codec.src.data == old(codec.src.data) || fresh(codec.src.data))
      ensures ReadsAs(old(Pending()), codec.max, r, Pending())
      ensures Spent(old(stream.readScript), r == IoError(Failed), stream.readScript)
    {
      hide ReadsAs, Failures;
      ghost var pending := Pending();
      while true
        invariant Valid() && (codec.src.data == old(codec.src.data) || fresh(codec.src.data))
        invariant Pending() == pending
        invariant Failures(stream.readScript) == Failures(old(stream.readScript))
        decreases |stream.incoming|
      {
        var t := DecodeOrFill();
        if t.Done? { return t.result; }
      }
    }

    // One round of the loop: a verdict, or more bytes in the buffer.
    method DecodeOrFill() returns (t: Round)
      requires Valid()
      modifies stream`incoming, stream`readScript, codec, codec.src, codec.src.data
      ensures Valid() && (codec.src.data == old(codec.src.data) || fresh(codec.src.data))
      ensures t.Done? ==> ReadsAs(old(Pending()), codec.max, t.result, Pending())
      ensures t.Again? ==> Pending() == old(Pending()) && |stream.incoming| < |old(stream.incoming)|
      ensures Spent(old(stream.readScript), t == Done(IoError(Failed)), stream.readScript)
    {
      hide ParseOne, HasRoom, Failures, ByteBuffer.Intact;
      ghost var s := codec.Stream();
      var d := codec.Decode();
      if d.NeedMore? {
        var e := Fill();
        t := if e.ReadError? then Done(IoError(e.error)) else Again;
        if e == ReadError(EOF) { NothingMore(s, stream.incoming); }
      } else {
        ParseStable(s, stream.incoming, codec.max);
        t := Done(match d case Decoded(f) => Item(f) case TooBig => OverSize case _ => Bad);
        if d.Decoded? { Rest(s, stream.incoming, |d.frame|); }
      }
    }

    // One read from the transport into the source buffer.
    method Fill() returns (e: ReadResult)
      requires Valid() && !codec.decodeReset && HasRoom(codec.Stream(), codec.src.data.Length - codec.src.wi)
      modifies stream`incoming, stream`readScript, codec.src, codec.src.data
      ensures Valid() && codec.src.data == old(codec.src.data) && Pending() == old(Pending())
      ensures e.Read? ==> |stream.incoming| < |old(stream.incoming)|
      ensures e.ReadError? ==> codec.Stream() == old(codec.Stream()) && stream.incoming == old(stream.incoming)
      ensures e == ReadError(EOF) ==> stream.incoming == []
      ensures Spent(old(stream.readScript), e == ReadError(Failed), stream.readScript)
    {
      hide HasRoom, Failures, Spent, ByteBuffer.Intact;
      ghost var b := codec.src;
      RoomLeft(codec.Stream(), b.data.Length);
      UnreadAreas(b.content, b.si, b.ri, 0);
      e := codec.src.ReadFrom(stream);
      UnreadAreas(b.content, b.si, b.ri, 0);
      hide ByteBuffer.Readable, ByteBuffer.Written;
      if e.Read? { Moved(b.Readable(), old(b.Written()), e.bytes, stream.incoming); }
    }

    method WriteNext(frame: seq<byte>) returns (n: nat, failed: bool)
      requires Valid() && |frame| >= 2 && |frame| >= 2 + ExtendedBytes(frame)
      modifies stream`sent, stream`writeScript, dst, dst.data
      ensures Valid() && (dst.data == old(dst.data) || fresh(dst.data)) && Pending() == old(Pending())
      ensures !failed ==> stream.sent == old(stream.sent) + (old(dst.Readable()) + frame) && dst.Readable() == []
      ensures failed ==> SentPart(old(stream.sent), old(dst.Readable()) + frame, n, stream.sent)
      ensures n + |dst.Readable()| == |old(dst.Readable())| + |frame|
      ensures WritesSpent(old(stream.writeScript), failed, stream.writeScript)
    {
      hide SentPart, WriteFailures, ExtendedBytes, ByteBuffer.Intact;
      n, failed := EncodeAndWrite(dst, stream, frame);
    }

    // AsyncWriteNext, from the call to its callback. After an error the write buffer keeps the frame
    // and all that was in front of it, whatever of it went out.
    method AsyncWriteNext(frame: seq<byte>) returns (n: nat, failed: bool)
      requires Valid() && |frame| >= 2 && |frame| >= 2 + ExtendedBytes(frame)
      modifies stream`sent, stream`writeScript, dst, dst.data
      ensures Valid() && (dst.data == old(dst.data) || fresh(dst.data)) && Pending() == old(Pending())
      ensures !failed ==> stream.sent == old(stream.sent) + (old(dst.Readable()) + frame)
      ensures !failed ==> n == |old(dst.Readable())| + |frame|
      ensures failed ==> SentPart(old(stream.sent), old(dst.Readable()) + frame, n, stream.sent)
      ensures dst.Readable() == if failed then old(dst.Readable()) + frame else []
      ensures WritesSpent(old(stream.writeScript), failed, stream.writeScript)
    {
      hide SentPart, WriteFailures, ExtendedBytes, ByteBuffer.Intact;
      n, failed := EncodeAndSend(dst, stream, frame);
    }
  }

  // Some prefix of `bytes` went out, n bytes at least.
  ghost predicate SentPart(before: seq<byte>, bytes: seq<byte>, n: nat, after: seq<byte>) {
    exists m: nat :: n <= m <= |bytes| && after == before + bytes[..m]
  }

  lemma SentSome(before: seq<byte>, bytes: seq<byte>, n: nat, after: seq<byte>)
    requires SentPart(before, bytes, n, after)
    ensures SentPart(before, bytes, 0, after)
  {}

  // FrameCodec.Encode: the frame goes behind what the write buffer holds, and as many bytes as it has
  // become readable.
  method Encode(frame: seq<byte>, dst: ByteBuffer)
    requires dst.Valid() && |frame| >= 2 && |frame| >= 2 + ExtendedBytes(frame)
    modifies dst, dst.data
    ensures dst.Valid() && (dst.data == old(dst.data) || fresh(dst.data))
    ensures dst.Readable() == old(dst.Readable()) + (old(dst.Written()) + frame)[..|frame|]
    ensures dst.Written() == (old(dst.Written()) + frame)[|frame|..] && dst.Saved() == old(dst.Saved())
  {
    hide ExtendedBytes, PayloadLength, ByteBuffer.Intact;
    dst.Reserve(PayloadLength(frame) + MAX_HEADER_LENGTH);
    var n := dst.Write(frame);
    dst.Commit(n);
  }

  method EncodeAndWrite(dst: ByteBuffer, stream: Transport, frame: seq<byte>) returns (n: nat, failed: bool)
    requires dst.Valid() && dst.Written() == [] && |frame| >= 2 && |frame| >= 2 + ExtendedBytes(frame)
    modifies stream`sent, stream`writeScript, dst, dst.data
    ensures dst.Valid() && (dst.data == old(dst.data) || fresh(dst.data))
    ensures dst.Written() == [] && dst.Saved() == old(dst.Saved())
    ensures !failed ==> stream.sent == old(stream.sent) + (old(dst.Readable()) + frame) && dst.Readable() == []
    ensures failed ==> SentPart(old(stream.sent), old(dst.Readable()) + frame, n, stream.sent)
    ensures n + |dst.Readable()| == |old(dst.Readable())| + |frame|
    ensures WritesSpent(old(stream.writeScript), failed, stream.writeScript)
  {
    hide ExtendedBytes, ByteBuffer.Intact, WritesSpent;
    assert [] + frame == frame && frame[..|frame|] == frame && frame[|frame|..] == [];
    Encode(frame, dst);
    n, failed := dst.WriteTo(stream);
  }

  method EncodeAndSend(dst: ByteBuffer, stream: Transport, frame: seq<byte>) returns (n: nat, failed: bool)
    requires dst.Valid() && dst.Written() == [] && |frame| >= 2 && |frame| >= 2 + ExtendedBytes(frame)
    modifies stream`sent, stream`writeScript, dst, dst.data
    ensures dst.Valid() && (dst.data == old(dst.data) || fresh(dst.data))
    ensures dst.Written() == [] && dst.Saved() == old(dst.Saved())
    ensures !failed ==> stream.sent == old(stream.sent) + (old(dst.Readable()) + frame)
    ensures !failed ==> n == |old(dst.Readable())| + |frame|
    ensures failed ==> SentPart(old(stream.sent), old(dst.Readable()) + frame, n, stream.sent)
    ensures dst.Readable() == if failed then old(dst.Readable()) + frame else []
    ensures WritesSpent(old(stream.writeScript), failed, stream.writeScript)
  {
    hide ExtendedBytes, ByteBuffer.Intact, WritesSpent;
    assert [] + frame == frame && frame[..|frame|] == frame && frame[|frame|..] == [];
    Encode(frame, dst);
    n, failed := dst.AsyncWriteTo(stream);
  }

  // ---- Chunking does not matter ----

  // The results of k reads from a whole byte string, and what is left of it.
  ghost function ReadMany(s: seq<byte>, max: nat, k: nat): (seq<ReadNextResult>, seq<byte>) {
    if k == 0 then ([], s)
    else
      var (results, rest) := ReadMany(s, max, k - 1);
      match ParseOne(rest, max)
      case Whole(n) => (results + [Item(rest[..n])], rest[n..])
      case OverMax => (results + [OverSize], rest)
      case BadLength => (results + [Bad], rest)
      case Incomplete => (results + [IoError(EOF)], rest)
  }

  lemma ReadManyStep(s: seq<byte>, max: nat, k: nat, pending: seq<byte>, r: ReadNextResult, after: seq<byte>,
                     results: seq<ReadNextResult>)
    requires ReadMany(s, max, k) == (results, pending) && ReadsAs(pending, max, r, after) && r != IoError(Failed)
    ensures ReadMany(s, max, k + 1) == (results + [r], after)
  {
    hide ParseOne;
    assert ReadMany(s, max, (k + 1) - 1) == (results, pending);
    match r
    case Item(f) => assert pending[..|f|] == f && pending[|f|..] == after;
    case OverSize => assert after == pending;
    case Bad => assert after == pending;
    case IoError(e) => assert e.EOF? && after == pending;
  }

  // ---- Frames sent are frames received ----

  datatype Message = Message(fin: bool, opcode: int, masking: Masking, payload: seq<byte>)

  ghost predicate Sendable(m: Message, max: nat) {
    0 <= m.opcode < 16 && WellMasked(m.masking) && |m.payload| <= max
  }

  ghost function Bytes1(m: Message, max: nat): seq<byte>
    requires Sendable(m, max)
  {
    Layout(m.fin, m.opcode, m.masking, m.payload)
  }

  ghost function Wire(ms: seq<Message>, max: nat): seq<byte>
    requires forall m :: m in ms ==> Sendable(m, max)
  {
    if ms == [] then [] else Wire(ms[..|ms| - 1], max) + Bytes1(ms[|ms| - 1], max)
  }

  ghost function Items(ms: seq<Message>, max: nat): (r: seq<ReadNextResult>)
    requires forall m :: m in ms ==> Sendable(m, max)
    ensures |r| == |ms|
  {
    if ms == [] then [] else Items(ms[..|ms| - 1], max) + [Item(Bytes1(ms[|ms| - 1], max))]
  }

  // Any frames, one behind the other, are read back one by one, however the stream is chunked.
  lemma {:induction false} WireBack(ms: seq<Message>, max: nat, rest: seq<byte>)
    requires max <= MAX_INT && forall m :: m in ms ==> Sendable(m, max)
    ensures ReadMany(Wire(ms, max) + rest, max, |ms|) == (Items(ms, max), rest)
  {
    hide ParseOne, Bytes1, Sendable, ReadsAs;
    if ms == [] {
      assert Wire(ms, max) + rest == rest;
    } else {
      hide ReadMany;
      var front, last := ms[..|ms| - 1], ms[|ms| - 1];
      var f := Bytes1(last, max);
      WireBack(front, max, f + rest);
      assert Wire(front, max) + (f + rest) == Wire(ms, max) + rest;
      OneBack(last, max, rest);
      ReadManyStep(Wire(ms, max) + rest, max, |front|, f + rest, Item(f), rest, Items(front, max));
    }
  }

  lemma OneBack(m: Message, max: nat, rest: seq<byte>)
    requires Sendable(m, max) && max <= MAX_INT
    ensures ReadsAs(Bytes1(m, max) + rest, max, Item(Bytes1(m, max)), rest)
  {
    hide Layout, ParseOne;
    RoundTrip(m.fin, m.opcode, m.masking, m.payload, rest, max);
  }

  // One call of ReadNext in a run.
  method Step(c: CodecConn, ghost incoming: seq<byte>, results: seq<ReadNextResult>) returns (r: ReadNextResult)
    requires c.Valid() && ReadMany(incoming, c.codec.max, |results|) == (results, c.Pending())
    modifies c.stream, c.codec, c.codec.src, c.codec.src.data
    ensures c.Valid() && (c.codec.src.data == old(c.codec.src.data) || fresh(c.codec.src.data))
    ensures r == IoError(Failed) ==> ReadMany(incoming, c.codec.max, |results|) == (results, c.Pending())
    ensures r != IoError(Failed) ==> ReadMany(incoming, c.codec.max, |results| + 1) == (results + [r], c.Pending())
    ensures Spent(old(c.stream.readScript), r == IoError(Failed), c.stream.readScript)
  {
    hide ReadsAs, ReadMany, Spent;
    ghost var pending := c.Pending();
    r := c.ReadNext();
    if r == IoError(Failed) {
      FailedKeeps(pending, c.codec.max, c.Pending());
    } else {
      ReadManyStep(incoming, c.codec.max, |results|, pending, r, c.Pending(), results);
    }
  }

  // However the transport splits the stream into reads, and whichever reads fail on the way, the
  // results of ReadNext are those of parsing the whole stream at once. Only the reads that the
  // script makes fail are lost.
  method Run(incoming: seq<byte>, script: seq<ReadStep>, max: nat, calls: nat)
    returns (results: seq<ReadNextResult>, failures: nat)
    ensures results == ReadMany(incoming, max, |results|).0
    ensures |results| + failures == calls && failures <= Failures(script)
    ensures Failures(script) == 0 ==> results == ReadMany(incoming, max, calls).0
  {
    hide CodecConn.Valid, CodecConn.Pending, Failures;
    var stream := new Transport(incoming, script, []);
    var c := new CodecConn(stream, max);
    results, failures := [], 0;
    for i := 0 to calls
      invariant fresh(stream) && fresh(c) && fresh(c.codec) && fresh(c.codec.src) && fresh(c.codec.src.data)
      invariant c.stream == stream && c.Valid() && c.codec.max == max && |results| + failures == i
      invariant ReadMany(incoming, max, |results|) == (results, c.Pending())
      invariant failures + Failures(stream.readScript) == Failures(script)
    {
      hide ReadMany;
      var r := Step(c, incoming, results);
      if r == IoError(Failed) {
        failures := failures + 1;
      } else {
        results := results + [r];
      }
    }
  }

  lemma FailedKeeps(pending: seq<byte>, max: nat, after: seq<byte>)
    requires ReadsAs(pending, max, IoError(Failed), after)
    ensures after == pending
  {}
}

/** codec/websocket/stream.go: the client side of a WebSocket connection. */
module Streams {
  import opened Bytes
  import opened Bits
  import opened Transports
  import opened Frames
  import opened FrameBuffers
  import opened FrameCodecs
  import opened CodecConns
  import opened StreamSessions

  datatype FrameError =
    | NonZeroReservedBits | MaskedFramesFromServer | InvalidControlFrame | ControlFrameTooBig
    | ReservedOpcode | InvalidUTF8

  datatype Verdict = Accepted | Refused(error: FrameError)

  datatype NextResult =
    | Delivered(frame: seq<byte>)
    | RefusedFrame(frame: seq<byte>, error: FrameError)
    | PeerGone(frame: seq<byte>)   // the transport ended; the frame stands for the missing close frame
    | EndOfStream                  // the state allows no read
    | OverSized | TransportFailed | FlushFailed | Crashed

  datatype WriteOutcome = Written | MessageTooBig | Cancelled | Closed | WriteFailed | Panicked

  const MAX_CONTROL_PAYLOAD := 125

  const CLOSE_NORMAL := 1000
  const CLOSE_GOING_AWAY := 1001
  const CLOSE_PROTOCOL_ERROR := 1002
  const CLOSE_ABNORMAL := 1006

  predicate ValidCloseCode(c: int) {
    c in {1000, 1001, 1002, 1003, 1007, 1008, 1009, 1010, 1011, 1012, 1013} || 3000 <= c <= 4999
  }

  function EncodeClose(code: nat, reason: seq<byte>): seq<byte> { ToBE(code, 2) + reason }

  // DecodeCloseFramePayload; 1005 stands for a missing code.
  function DecodeClose(b: seq<byte>): (nat, seq<byte>) {
    if |b| < 2 then (1005, []) else (BE(b[..2]), b[2..])
  }

  lemma CloseLength(code: nat, reason: seq<byte>)
    ensures |EncodeClose(code, reason)| == 2 + |reason|
  {}

  lemma CloseBack(code: nat, reason: seq<byte>)
    requires code < 65536
    ensures DecodeClose(EncodeClose(code, reason)) == (code, reason)
  {
    Widths();
    BigEndian(code, 2);
    assert EncodeClose(code, reason)[..2] == ToBE(code, 2);
  }

  // A frame as the codec hands it out.
  ghost predicate WholeFrame(f: seq<byte>)
    ensures WholeFrame(f) ==> |f| >= 2
  {
    |f| >= 2 && PayloadOffset(f) <= |f| && PayloadLength(f) == |f| - PayloadOffset(f)
  }

  ghost predicate AllOk(log: seq<Queued>) {
    forall q :: q in log ==> QueuedOk(q)
  }

  ghost function EncodedAll(log: seq<Queued>): (r: seq<seq<byte>>)
    requires AllOk(log)
    ensures |r| == |log|
  {
    if log == [] then [] else EncodedAll(log[..|log| - 1]) + [Encoded(log[|log| - 1])]
  }

  // The pending frames are the last frames of the log.
  ghost predicate QueueOk(pending: seq<seq<byte>>, log: seq<Queued>) {
    |pending| <= |log| && AllOk(log) && pending == EncodedAll(log)[|log| - |pending|..]
  }

  lemma QueueMore(pending: seq<seq<byte>>, log: seq<Queued>, q: Queued)
    requires QueueOk(pending, log) && QueuedOk(q)
    ensures QueueOk(pending + [Encoded(q)], log + [q])
  {
    hide Encoded, QueuedOk;
    assert (log + [q])[..|log|] == log;
    assert EncodedAll(log + [q]) == EncodedAll(log) + [Encoded(q)];
  }

  ghost function Concat(fs: seq<seq<byte>>): seq<byte> {
    if fs == [] then [] else Concat(fs[..|fs| - 1]) + fs[|fs| - 1]
  }

  lemma ConcatOnto(base: seq<byte>, fs: seq<seq<byte>>, i: nat)
    requires i < |fs|
    ensures base + Concat(fs[..i]) + fs[i] == base + Concat(fs[..i + 1])
  {
    assert fs[..i + 1][..i] == fs[..i];
  }

  lemma {:induction false} ConcatFirst(fs: seq<seq<byte>>)
    requires fs != []
    ensures Concat(fs) == fs[0] + Concat(fs[1..])
  {
    if |fs| > 1 {
      ConcatFirst(fs[..|fs| - 1]);
      assert fs[..|fs| - 1][1..] == fs[1..][..|fs| - 2];
    }
  }

  lemma ConcatFrom(base: seq<byte>, fs: seq<seq<byte>>)
    requires fs != []
    ensures base + Concat(fs) == base + fs[0] + Concat(fs[1..])
  {
    ConcatFirst(fs);
  }

  // A flush failed at frame k: the frames before it went out, and some part of it.
  ghost predicate Interrupted(base: seq<byte>, frames: seq<seq<byte>>, k: int, after: seq<byte>) {
    0 <= k < |frames| && SentPart(base + Concat(frames[..k]), frames[k], 0, after)
  }

  lemma InterruptedLater(base: seq<byte>, frames: seq<seq<byte>>, k: int, after: seq<byte>)
    requires frames != [] && Interrupted(base + frames[0], frames[1..], k, after)
    ensures Interrupted(base, frames, k + 1, after)
  {
    hide SentPart;
    var fs := frames[..k + 1];
    assert fs[1..] == frames[1..][..k];
    ConcatFrom(base, fs);
  }

  // What was sent and what is pending make up the log.
  ghost predicate Accounts(sent: seq<byte>, pending: seq<seq<byte>>, log: seq<Queued>) {
    AllOk(log) && sent + Concat(pending) == Concat(EncodedAll(log))
  }

  lemma AccountsMore(sent: seq<byte>, pending: seq<seq<byte>>, log: seq<Queued>, q: Queued)
    requires Accounts(sent, pending, log) && QueuedOk(q)
    ensures Accounts(sent, pending + [Encoded(q)], log + [q])
  {
    hide Encoded, QueuedOk;
    assert (log + [q])[..|log|] == log;
    assert (pending + [Encoded(q)])[..|pending|] == pending;
    assert (EncodedAll(log) + [Encoded(q)])[..|log|] == EncodedAll(log);
  }

  lemma {:induction false} ConcatSplits(fs: seq<seq<byte>>, k: nat)
    requires k <= |fs|
    ensures Concat(fs) == Concat(fs[..k]) + Concat(fs[k..])
    decreases |fs|
  {
    if k == |fs| {
      assert fs[..k] == fs;
    } else {
      ConcatSplits(fs[..|fs| - 1], k);
      assert fs[..|fs| - 1][..k] == fs[..k] && fs[..|fs| - 1][k..] == fs[k..][..|fs| - k - 1];
    }
  }

  lemma {:induction false} EncodedPrefix(log: seq<Queued>, k: nat)
    requires AllOk(log) && k <= |log|
    ensures EncodedAll(log[..k]) == EncodedAll(log)[..k]
    decreases |log|
  {
    hide Encoded, QueuedOk;
    if k == |log| {
      assert log[..k] == log;
    } else {
      EncodedPrefix(log[..|log| - 1], k);
      assert log[..|log| - 1][..k] == log[..k];
    }
  }

  // So what was sent is the beginning of the log, up to the frames that are pending.
  lemma SentIsPrefix(sent: seq<byte>, pending: seq<seq<byte>>, log: seq<Queued>)
    requires Accounts(sent, pending, log) && QueueOk(pending, log)
    ensures sent == Concat(EncodedAll(log[..|log| - |pending|]))
  {
    hide Concat, EncodedAll;
    var k := |log| - |pending|;
    ConcatSplits(EncodedAll(log), k);
    EncodedPrefix(log, k);
    SameTail(sent, Concat(EncodedAll(log)[..k]), Concat(pending));
  }

  lemma SameTail(a: seq<byte>, b: seq<byte>, tail: seq<byte>)
    requires a + tail == b + tail
    ensures a == b
  {
    assert a == (a + tail)[..|a|] && b == (b + tail)[..|b|];
  }

  lemma AccountsSent(sent: seq<byte>, pending: seq<seq<byte>>, log: seq<Queued>)
    requires Accounts(sent, pending, log)
    ensures Accounts(sent + Concat(pending), [], log)
  {}

  lemma AccountsFirst(sent: seq<byte>, pending: seq<seq<byte>>, log: seq<Queued>)
    requires Accounts(sent, pending, log) && pending != []
    ensures Accounts(sent + pending[0], pending[1..], log)
  {
    ConcatFrom(sent, pending);
  }

  lemma NothingToSend(base: seq<byte>, frames: seq<seq<byte>>)
    requires frames == []
    ensures base + Concat(frames) == base
  {}

  lemma AllOf(frames: seq<seq<byte>>)
    ensures frames[..|frames|] == frames
  {}

  // The frames at the end of a queue.
  ghost predicate IsTail(frames: seq<seq<byte>>, rest: seq<seq<byte>>) {
    |rest| <= |frames| && rest == frames[|frames| - |rest|..]
  }

  lemma TailOfTail(frames: seq<seq<byte>>, rest: seq<seq<byte>>)
    requires frames != [] && IsTail(frames[1..], rest)
    ensures IsTail(frames, rest)
  {}

  // Every queued frame has a complete header and at least six bytes.
  ghost predicate Framed(f: seq<byte>) {
    |f| >= 6 && |f| >= 2 + ExtendedBytes(f)
  }

  lemma EncodedFramed(q: Queued)
    requires QueuedOk(q)
    ensures Framed(Encoded(q))
  {
    ReadBack(q.fin, q.opcode, WithMask(q.mask), q.payload, Encoded(q));
  }

  lemma {:induction false} AllFramed(log: seq<Queued>, i: nat)
    requires AllOk(log) && i < |log|
    ensures Framed(EncodedAll(log)[i])
  {
    hide QueuedOk, Framed;
    EncodedFramed(log[|log| - 1]);
    if i < |log| - 1 { AllFramed(log[..|log| - 1], i); }
  }

  lemma PendingFramed(pending: seq<seq<byte>>, log: seq<Queued>)
    requires QueueOk(pending, log)
    ensures forall i :: 0 <= i < |pending| ==> Framed(pending[i])
  {
    hide Framed;
    forall i | 0 <= i < |pending| ensures Framed(pending[i]) {
      AllFramed(log, |log| - |pending| + i);
    }
  }

  method SendOne(conn: CodecConn, frame: seq<byte>) returns (failed: bool)
    requires conn.Valid() && Framed(frame)
    modifies conn.stream`sent, conn.stream`writeScript, conn.dst, conn.dst.data
    ensures conn.Valid() && conn.Pending() == old(conn.Pending())
    ensures conn.dst.data == old(conn.dst.data) || fresh(conn.dst.data)
    ensures !failed && old(conn.dst.Readable()) == [] ==>
      conn.stream.sent == old(conn.stream.sent) + frame && conn.dst.Readable() == []
    ensures failed && old(conn.dst.Readable()) == [] ==> SentPart(old(conn.stream.sent), frame, 0, conn.stream.sent)
    ensures WritesSpent(old(conn.stream.writeScript), failed, conn.stream.writeScript)
  {
    hide SentPart, WriteFailures, ExtendedBytes;
    assert [] + frame == frame;
    var n;
    n, failed := conn.WriteNext(frame);
    if failed { SentSome(old(conn.stream.sent), old(conn.dst.Readable()) + frame, n, conn.stream.sent); }
  }

  method AsyncSendOne(conn: CodecConn, frame: seq<byte>) returns (failed: bool)
    requires conn.Valid() && Framed(frame)
    modifies conn.stream`sent, conn.stream`writeScript, conn.dst, conn.dst.data
    ensures conn.Valid() && conn.Pending() == old(conn.Pending())
    ensures conn.dst.data == old(conn.dst.data) || fresh(conn.dst.data)
    ensures !failed && old(conn.dst.Readable()) == [] ==>
      conn.stream.sent == old(conn.stream.sent) + frame && conn.dst.Readable() == []
    ensures failed && old(conn.dst.Readable()) == [] ==> SentPart(old(conn.stream.sent), frame, 0, conn.stream.sent)
    ensures WritesSpent(old(conn.stream.writeScript), failed, conn.stream.writeScript)
  {
    hide SentPart, WriteFailures, ExtendedBytes;
    assert [] + frame == frame;
    var n;
    n, failed := conn.AsyncWriteNext(frame);
    if failed { SentSome(old(conn.stream.sent), old(conn.dst.Readable()) + frame, n, conn.stream.sent); }
  }

  // The loop of Flush: write frames until one fails.
  method SendAll(conn: CodecConn, frames: seq<seq<byte>>) returns (flushed: nat, failed: bool)
    requires conn.Valid() && forall i :: 0 <= i < |frames| ==> Framed(frames[i])
    modifies conn.stream`sent, conn.stream`writeScript, conn.dst, conn.dst.data
    ensures conn.Valid() && conn.Pending() == old(conn.Pending())
    ensures conn.dst.data == old(conn.dst.data) || fresh(conn.dst.data)
    ensures flushed <= |frames| && (!failed ==> flushed == |frames|)
    ensures !failed && old(conn.dst.Readable()) == [] ==>
      conn.stream.sent == old(conn.stream.sent) + Concat(frames) && conn.dst.Readable() == []
    ensures failed && old(conn.dst.Readable()) == [] ==>
      Interrupted(old(conn.stream.sent), frames, flushed, conn.stream.sent)
    ensures WritesSpent(old(conn.stream.writeScript), failed, conn.stream.writeScript)
  {
    hide SentPart, WriteFailures, Framed, CodecConn.Valid, CodecConn.Pending, Concat;
    ghost var empty, sent := conn.dst.Readable() == [], conn.stream.sent;
    flushed, failed := 0, false;
    NothingToSend(sent, frames[..0]);
    while flushed < |frames|
      invariant conn.Valid() && flushed <= |frames| && !failed
      invariant conn.Pending() == old(conn.Pending()) && (conn.dst.data == old(conn.dst.data) || fresh(conn.dst.data))
      invariant empty ==> conn.stream.sent == sent + Concat(frames[..flushed]) && conn.dst.Readable() == []
      invariant WritesSpent(old(conn.stream.writeScript), false, conn.stream.writeScript)
    {
      failed := SendOne(conn, frames[flushed]);
      if failed { return; }
      ConcatOnto(sent, frames, flushed);
      flushed := flushed + 1;
    }
    AllOf(frames);
  }

  lemma QueueLess(pending: seq<seq<byte>>, log: seq<Queued>, n: nat)
    requires QueueOk(pending, log) && n <= |pending|
    ensures QueueOk(pending[n..], log)
  {
    hide EncodedAll, AllOk;
    assert pending[n..] == EncodedAll(log)[|log| - |pending|..][n..];
  }

  // A frame in the pool was sent before: it has at least a header and a mask.
  ghost predicate PoolOk(pool: seq<nat>) {
    forall k :: 0 <= k < |pool| ==> pool[k] >= 6
  }

  // What a client accepts: no reserved bits, no mask (section 5.1 of RFC 6455), control frames whole
  // and short (section 5.5), data frames with a known opcode and, if asked for, valid text.
  ghost predicate Acceptable(f: seq<byte>, checkText: bool, validText: seq<byte> -> bool)
    requires WholeFrame(f)
  {
    && !HasReservedBits(f) && !IsMasked(f)
    && if IsControl(OpcodeOf(f)) then IsFIN(f) && PayloadLength(f) <= MAX_CONTROL_PAYLOAD
       else !IsReserved(OpcodeOf(f)) && (OpcodeOf(f) == OPCODE_TEXT && checkText ==> validText(Payload(f)))
  }

  // Acceptance with the error that is reported for a refused frame.
  ghost function Judge(f: seq<byte>, checkText: bool, validText: seq<byte> -> bool): Verdict
    requires WholeFrame(f)
  {
    if HasReservedBits(f) then Refused(NonZeroReservedBits)
    else if IsMasked(f) then Refused(MaskedFramesFromServer)
    else if IsControl(OpcodeOf(f)) then JudgeControl(f)
    else JudgeData(f, checkText, validText)
  }

  ghost function JudgeControl(f: seq<byte>): Verdict
    requires WholeFrame(f)
  {
    if !IsFIN(f) then Refused(InvalidControlFrame)
    else if PayloadLength(f) > MAX_CONTROL_PAYLOAD then Refused(ControlFrameTooBig)
    else Accepted
  }

  ghost function JudgeData(f: seq<byte>, checkText: bool, validText: seq<byte> -> bool): Verdict
    requires WholeFrame(f)
  {
    if IsReserved(OpcodeOf(f)) then Refused(ReservedOpcode)
    else if OpcodeOf(f) == OPCODE_TEXT && checkText && !validText(Payload(f)) then Refused(InvalidUTF8)
    else Accepted
  }

  lemma JudgeIff(f: seq<byte>, checkText: bool, validText: seq<byte> -> bool)
    requires WholeFrame(f)
    ensures Judge(f, checkText, validText).Accepted? <==> Acceptable(f, checkText, validText)
  {
    hide HasReservedBits, IsMasked, IsFIN, OpcodeOf, PayloadLength;
  }

  // Which frames are refused, and with which error, by the bytes of the frame.
  lemma JudgeBytes(f: seq<byte>, checkText: bool, validText: seq<byte> -> bool)
    requires WholeFrame(f)
    ensures var (op, payload, v) := (f[0] % 16, Payload(f), Judge(f, checkText, validText));
      && (v == Refused(NonZeroReservedBits) <==> f[0] / 16 % 8 != 0)
      && (v == Refused(MaskedFramesFromServer) <==> f[0] / 16 % 8 == 0 && f[1] >= 128)
      && (f[0] / 16 % 8 == 0 && f[1] < 128 ==>
            && (v == Refused(InvalidControlFrame) <==> 8 <= op <= 10 && f[0] < 128)
            && (v == Refused(ControlFrameTooBig) <==> 8 <= op <= 10 && f[0] >= 128 && |payload| > 125)
            && (v == Refused(ReservedOpcode) <==> 3 <= op <= 7 || 11 <= op)
            && (v == Refused(InvalidUTF8) <==> op == 1 && checkText && !validText(payload))
            && (v == Accepted <==>
                  || (8 <= op <= 10 && f[0] >= 128 && |payload| <= 125)
                  || op == 0 || op == 2 || (op == 1 && (checkText ==> validText(payload)))))
  {
    HeaderBits(f);
    Opcodes(f[0] % 16);
    hide HasReservedBits, IsMasked, IsFIN, OpcodeOf, PayloadLength, IsControl, IsReserved, ExtendedBytes;
  }

  // The frame a reader gets when the peer is gone: an unmasked close frame with status 1006.
  ghost predicate AbnormalClose(f: seq<byte>) {
    && WholeFrame(f) && IsFIN(f) && OpcodeOf(f) == OPCODE_CLOSE && !IsMasked(f)
    && Payload(f) == EncodeClose(CLOSE_ABNORMAL, [])
  }

  lemma AbnormalFrame(f: seq<byte>)
    requires Carries(f, FirstByte(true, OPCODE_CLOSE), false, EncodeClose(CLOSE_ABNORMAL, []))
    ensures AbnormalClose(f)
  {
    hide ToBE, And;
    var payload := EncodeClose(CLOSE_ABNORMAL, []);
    assert f == Layout(true, OPCODE_CLOSE, Unmasked, payload) by {
      assert f == f[..2] + f[2..];
    }
    ReadBack(true, OPCODE_CLOSE, Unmasked, payload, f);
    LayoutPieces(true, OPCODE_CLOSE, Unmasked, payload, f);
  }

  // It says so in its bytes.
  lemma AbnormalBytes(f: seq<byte>)
    requires AbnormalClose(f)
    ensures f[0] >= 128 && f[0] % 16 == 8 && f[1] < 128 && DecodeClose(Payload(f)) == (1006, [])
  {
    HeaderBits(f);
    CloseBack(1006, []);
    hide PayloadLength, PayloadOffset, ToBE, BE;
  }

  method BuildAbnormal() returns (f: seq<byte>)
    ensures AbnormalClose(f)
  {
    hide AbnormalClose, ToBE;
    var frame := new Frame();
    frame.SetFIN();
    frame.SetOpcode(OPCODE_CLOSE);
    var panicked := frame.SetPayload(EncodeClose(CLOSE_ABNORMAL, []));
    f := frame.data;
    AbnormalFrame(f);
  }

  // The payload of the close frame that answers a peer's close frame.
  function CloseReply(payload: seq<byte>, validText: seq<byte> -> bool): seq<byte> {
    if |payload| >= 2 then
      if !validText(payload[2..]) || !ValidCloseCode(BE(payload[..2])) then ToBE(CLOSE_PROTOCOL_ERROR, 2) else payload
    else if |payload| > 0 then ToBE(CLOSE_PROTOCOL_ERROR, 2)
    else ToBE(CLOSE_NORMAL, 2)
  }

  // The answer to a peer's close frame: its payload if code and reason are in order, 1002 if they
  // are not, and 1000 if there are none.
  lemma CloseReplyIs(payload: seq<byte>, validText: seq<byte> -> bool)
    ensures payload == [] ==> DecodeClose(CloseReply(payload, validText)) == (1000, [])
    ensures |payload| == 1 ==> DecodeClose(CloseReply(payload, validText)) == (1002, [])
    ensures |payload| >= 2 ==>
      var code := 256 * (payload[0] as int) + payload[1];
      var ok := (1000 <= code <= 1003 || 1007 <= code <= 1013 || 3000 <= code <= 4999) && validText(payload[2..]);
      if ok then CloseReply(payload, validText) == payload
      else DecodeClose(CloseReply(payload, validText)) == (1002, [])
  {
    CloseBack(1000, []);
    CloseBack(1002, []);
    assert EncodeClose(1000, []) == ToBE(1000, 2) && EncodeClose(1002, []) == ToBE(1002, 2);
    if |payload| >= 2 { TwoDigits(payload[..2]); }
    hide ToBE, BE;
  }

  lemma ReplyShort(f: seq<byte>, validText: seq<byte> -> bool)
    requires WholeFrame(f) && PayloadLength(f) <= MAX_CONTROL_PAYLOAD
    ensures |CloseReply(Payload(f), validText)| <= MAX_CONTROL_PAYLOAD
  {
    hide PayloadLength, PayloadOffset;
  }

  class Stream {
    const conn: CodecConn
    const validateUTF8: bool
    const validUTF8: seq<byte> -> bool   // utf8.Valid
    var state: State
    var pendingFrames: seq<seq<byte>>
    var pool: seq<nat>                   // lengths of the frames waiting in the pool
    var reading: bool                    // an asynchronous read is outstanding
    ghost var log: seq<Queued>
    ghost var pings: seq<seq<byte>>
    ghost var rejected: nat
    ghost var handshake: bool

    ghost function Current(): Session
      reads this
    {
      Session(state, reading, log, pings, rejected, handshake)
    }

    // The stream's own part, apart from the connection.
    ghost predicate SideOk()
      reads this
    {
      conn.codec.max <= MAX_INT && SessionOk(Current()) && QueueOk(pendingFrames, log) && PoolOk(pool)
    }

    ghost predicate Valid()
      reads this, conn, conn.codec.src, conn.dst, conn.Repr()
      ensures Valid() ==> conn.Valid() && SessionOk(Current()) && conn.codec.max <= MAX_INT
    {
      conn.Valid() && SideOk()
    }

    // The frames of the log that left the queue.
    ghost function Gone(): int
      reads this
    {
      |log| - |pendingFrames|
    }

    ghost predicate Accounted()
      reads this, conn.stream
    {
      Accounts(conn.stream.sent, pendingFrames, log)
    }

    // Every write succeeds, and no byte was lost, repeated or put out of order.
    ghost predicate Exact()
      requires conn.Valid()
      reads this, conn, conn.codec.src, conn.dst, conn.Repr()
    {
      WriteFailures(conn.stream.writeScript) == 0 && conn.dst.Readable() == [] && Accounted()
    }

    // A session right after a successful handshake, with nothing queued.
    constructor (conn: CodecConn, validateUTF8: bool, validUTF8: seq<byte> -> bool)
      requires conn.Valid() && conn.codec.max <= MAX_INT
      ensures Valid() && this.conn == conn && state == Active && pendingFrames == [] && log == [] && !reading
      ensures pings == [] && rejected == 0 && !handshake && pool == []
      ensures this.validateUTF8 == validateUTF8 && this.validUTF8 == validUTF8
      ensures WriteFailures(conn.stream.writeScript) == 0 && conn.dst.Readable() == [] && conn.stream.sent == [] ==>
        Exact()
    {
      this.conn, this.validateUTF8, this.validUTF8 := conn, validateUTF8, validUTF8;
      state, pendingFrames, pool, reading := Active, [], [], false;
      log, pings, rejected, handshake := [], [], 0, false;
    }

    // AcquireFrame, header, payload and mask. The frame comes from the pool or is new; the build
    // fails exactly when a short frame of the pool meets a payload that needs an 8-byte length.
    method Build(kind: Kind, fin: bool, opcode: nat, payload: seq<byte>)
      returns (panicked: bool, f: seq<byte>, ghost q: Queued)
      requires opcode < 16 && |payload| <= MAX_INT && PoolOk(pool)
      requires (kind.Closing? ==> opcode == OPCODE_CLOSE) && (kind.AutoPong? ==> opcode == OPCODE_PONG)
      modifies `pool
      ensures PoolOk(pool)
      ensures panicked ==> |payload| > 65535 && exists n :: n in old(pool) && n < 10
      ensures !panicked ==> QueuedOk(q) && f == Encoded(q) && q == Queued(kind, fin, opcode, q.mask, payload)
    {
      hide Layout;
      var fresh' := new Frame();
      var useNew: bool := *;
      if pool != [] && !useNew {
        var i :| 0 <= i < |pool|;
        assert pool[i] in pool;
        fresh'.data := seq(pool[i], _ => 0);
        pool := pool[..i] + pool[i + 1..];
      }
      ghost var len := |fresh'.data|;
      assert len == MAX_HEADER_LENGTH || (len in old(pool) && len >= 6);
      assert |seq<byte>(4, _ => 0)| == 4;
      var mask: seq<byte> :| |mask| == 4;
      panicked := BuildMasked(fresh', fin, opcode, payload, mask);
      assert panicked ==> len < 2 + LengthField(|payload|).1;
      f := fresh'.data;
      q := Queued(kind, fin, opcode, mask, payload);
      if !panicked {
        ghost var m :| |m| == 4 && fresh'.data == Layout(fin, opcode, WithMask(m), payload);
        q := Queued(kind, fin, opcode, m, payload);
      }
    }

    // prepareWrite of a frame while Active: a user's frame or the answer to a ping.
    method PrepareWrite(kind: Kind, fin: bool, opcode: nat, payload: seq<byte>) returns (panicked: bool)
      requires SideOk() && state == Active && opcode < 16 && |payload| <= MAX_INT
      requires !kind.Closing? && (kind.AutoPong? ==> opcode == OPCODE_PONG)
      modifies this
      ensures SideOk() && state == Active && reading == old(reading)
      ensures rejected == old(rejected) && handshake == old(handshake)
      ensures panicked ==>
        |payload| > 65535 && log == old(log) && pings == old(pings) && pendingFrames == old(pendingFrames)
      ensures !panicked ==> Appended(old(log), log, Entry(kind, fin, opcode, payload))
      ensures !panicked ==> |pendingFrames| == |old(pendingFrames)| + 1
      ensures !panicked ==> pings == if kind.AutoPong? then old(pings) + [payload] else old(pings)
      ensures old(Accounted()) ==> Accounted()
      ensures Gone() == old(Gone())
    {
      hide SessionOk, QueueOk, Encoded, Accounts, Appended;
      var f; ghost var q;
      panicked, f, q := Build(kind, fin, opcode, payload);
      if !panicked {
        QueueActive(Current(), q);
        AppendedOne(log, q);
        QueueMore(pendingFrames, log, q);
        if Accounted() { AccountsMore(conn.stream.sent, pendingFrames, log, q); }
        pendingFrames := pendingFrames + [f];
        log := log + [q];
        if kind.AutoPong? { pings := pings + [payload]; }
      }
    }

    // prepareClose when Active is left through the closing handshake.
    method HandshakeClose(payload: seq<byte>, to: State) returns (panicked: bool)
      requires SideOk() && state == Active && |payload| <= MAX_INT
      requires to == ClosedByUs || (to == ClosedByPeer && !reading)
      modifies this
      ensures SideOk() && reading == old(reading) && rejected == old(rejected) && pings == old(pings)
      ensures state == to
      ensures panicked ==> |payload| > 65535 && Current() == old(Current()).(state := to)
      ensures !panicked ==> handshake && Appended(old(log), log, Entry(Closing, true, OPCODE_CLOSE, payload))
      ensures old(Accounted()) ==> Accounted()
      ensures Gone() == old(Gone())
    {
      hide SessionOk, QueueOk, Encoded, Accounts, Appended;
      ghost var s := Current();
      LeaveActive(s, to);
      state := to;
      var f; ghost var q;
      panicked, f, q := Build(Closing, true, OPCODE_CLOSE, payload);
      if !panicked {
        QueueHandshakeClose(s, q, to);
        AppendedOne(log, q);
        QueueMore(pendingFrames, log, q);
        if Accounted() { AccountsMore(conn.stream.sent, pendingFrames, log, q); }
        handshake := true;
        pendingFrames := pendingFrames + [f];
        log := log + [q];
      }
    }

    // The close frame queued for a refused frame.
    method RejectClose()
      requires SideOk() && CanRead(state)
      modifies this
      ensures SideOk() && state == ClosedByUs && rejected == old(rejected) + 1 && handshake == old(handshake)
      ensures reading == old(reading) && pings == old(pings)
      ensures Appended(old(log), log, Entry(Closing, true, OPCODE_CLOSE, EncodeClose(CLOSE_PROTOCOL_ERROR, [])))
      ensures old(Accounted()) ==> Accounted()
      ensures Gone() == old(Gone())
    {
      hide SessionOk, QueueOk, Encoded, Accounts, Appended;
      var panicked, f; ghost var q;
      panicked, f, q := Build(Closing, true, OPCODE_CLOSE, EncodeClose(CLOSE_PROTOCOL_ERROR, []));
      QueueRejectClose(Current(), q);
      AppendedOne(log, q);
      QueueMore(pendingFrames, log, q);
      if Accounted() { AccountsMore(conn.stream.sent, pendingFrames, log, q); }
      state, rejected := ClosedByUs, rejected + 1;
      pendingFrames := pendingFrames + [f];
      log := log + [q];
    }

    // Send the pending frames in order. Frames that went out return to the pool.
    method Flush() returns (failed: bool)
      requires Valid()
      modifies this`pendingFrames, this`pool, conn.stream`sent, conn.stream`writeScript, conn.dst, conn.dst.data
      ensures Valid() && conn.Pending() == old(conn.Pending())
      ensures conn.dst.data == old(conn.dst.data) || fresh(conn.dst.data)
      ensures !failed ==> pendingFrames == []
      ensures !failed && old(conn.dst.Readable()) == [] ==>
        conn.stream.sent == old(conn.stream.sent) + Concat(old(pendingFrames)) && conn.dst.Readable() == []
      ensures IsTail(old(pendingFrames), pendingFrames)
      ensures failed && old(conn.dst.Readable()) == [] ==>
        Interrupted(old(conn.stream.sent), old(pendingFrames), |old(pendingFrames)| - |pendingFrames|, conn.stream.sent)
      ensures WritesSpent(old(conn.stream.writeScript), failed, conn.stream.writeScript)
      ensures old(Exact()) ==> Exact()
    {
      hide SessionOk, QueueOk, Interrupted, WriteFailures, Concat, Accounts, CodecConn.Valid, CodecConn.Pending;
      if Accounted() { AccountsSent(conn.stream.sent, pendingFrames, log); }
      var flushed;
      PendingFramed(pendingFrames, log);
      flushed, failed := SendAll(conn, pendingFrames);
      Settle(flushed);
    }

    // AsyncFlush without a second flush in between: each frame leaves the queue before it is written.
    // The frame whose write fails is lost to the queue.
    method AsyncFlush() returns (failed: bool)
      requires Valid()
      modifies this`pendingFrames, this`pool, conn.stream`sent, conn.stream`writeScript, conn.dst, conn.dst.data
      ensures Valid() && conn.Pending() == old(conn.Pending())
      ensures conn.dst.data == old(conn.dst.data) || fresh(conn.dst.data)
      ensures !failed ==> pendingFrames == []
      ensures !failed && old(conn.dst.Readable()) == [] ==>
        conn.stream.sent == old(conn.stream.sent) + Concat(old(pendingFrames)) && conn.dst.Readable() == []
      ensures IsTail(old(pendingFrames), pendingFrames)
      ensures failed && old(conn.dst.Readable()) == [] ==>
        Interrupted(old(conn.stream.sent), old(pendingFrames), |old(pendingFrames)| - |pendingFrames| - 1,
                    conn.stream.sent)
      ensures WritesSpent(old(conn.stream.writeScript), failed, conn.stream.writeScript)
      ensures old(Exact()) ==> Exact()
      decreases |pendingFrames|
    {
      hide Stream.SideOk, SessionOk, Interrupted, WriteFailures, Concat, Accounts, CodecConn.Valid, CodecConn.Pending;
      hide Stream.Valid;
      if pendingFrames == [] {
        NothingToSend(conn.stream.sent, pendingFrames);
        return false;
      }
      ghost var sent, frames := conn.stream.sent, pendingFrames;
      failed := FlushFirst();
      if failed { return; }
      hide IsTail;
      ConcatFrom(sent, frames);
      failed := AsyncFlush();
      TailOfTail(frames, pendingFrames);
      if failed && old(conn.dst.Readable()) == [] {
        InterruptedLater(sent, frames, |frames[1..]| - |pendingFrames| - 1, conn.stream.sent);
      }
    }

    // One round of AsyncFlush.
    method FlushFirst() returns (failed: bool)
      requires Valid() && pendingFrames != []
      modifies this`pendingFrames, this`pool, conn.stream`sent, conn.stream`writeScript, conn.dst, conn.dst.data
      ensures Valid() && conn.Pending() == old(conn.Pending()) && pendingFrames == old(pendingFrames)[1..]
      ensures conn.dst.data == old(conn.dst.data) || fresh(conn.dst.data)
      ensures !failed && old(conn.dst.Readable()) == [] ==>
        conn.stream.sent == old(conn.stream.sent) + old(pendingFrames)[0] && conn.dst.Readable() == []
      ensures failed && old(conn.dst.Readable()) == [] ==>
        Interrupted(old(conn.stream.sent), old(pendingFrames), 0, conn.stream.sent)
      ensures WritesSpent(old(conn.stream.writeScript), failed, conn.stream.writeScript)
      ensures old(Exact()) ==> Exact()
    {
      hide SessionOk, QueueOk, SentPart, WriteFailures, Concat, Accounts, CodecConn.Valid, CodecConn.Pending;
      if Accounted() { AccountsFirst(conn.stream.sent, pendingFrames, log); }
      PendingFramed(pendingFrames, log);
      NothingToSend(conn.stream.sent, pendingFrames[..0]);
      var frame := pendingFrames[0];
      Settle(1);
      failed := AsyncSendOne(conn, frame);
    }

    // The frames that went out leave the queue for the pool.
    method Settle(flushed: nat)
      requires Valid() && flushed <= |pendingFrames|
      modifies `pendingFrames, `pool
      ensures Valid() && pendingFrames == old(pendingFrames)[flushed..]
      ensures conn.Pending() == old(conn.Pending()) && conn.dst.Readable() == old(conn.dst.Readable())
    {
      hide SessionOk, QueueOk;
      var frames := pendingFrames;
      PendingFramed(frames, log);
      QueueLess(frames, log, flushed);
      pool := pool + seq(flushed, i requires 0 <= i < flushed => |frames[i]|);
      pendingFrames := frames[flushed..];
    }

    method VerifyFrame(f: seq<byte>) returns (v: Verdict)
      requires WholeFrame(f)
      ensures v.Accepted? <==> f[0] / 16 % 8 == 0 && f[1] < 128
      ensures v.Accepted? <==> !HasReservedBits(f) && !IsMasked(f)
      ensures v.Refused? ==> v.error == if f[0] / 16 % 8 != 0 then NonZeroReservedBits else MaskedFramesFromServer
      ensures v.Refused? ==> v == Judge(f, validateUTF8, validUTF8)
    {
      HeaderBits(f);
      if HasReservedBits(f) { return Refused(NonZeroReservedBits); }
      if IsMasked(f) { return Refused(MaskedFramesFromServer); }
      return Accepted;
    }

    method HandleDataFrame(f: seq<byte>) returns (v: Verdict)
      requires WholeFrame(f)
      ensures v == JudgeData(f, validateUTF8, validUTF8)
    {
      if IsReserved(OpcodeOf(f)) { return Refused(ReservedOpcode); }
      if OpcodeOf(f) == OPCODE_TEXT && validateUTF8 {
        if !validUTF8(Payload(f)) { return Refused(InvalidUTF8); }
      }
      return Accepted;
    }

    // A frame is only handled in Active or ClosedByUs, so the other branches, among them the two
    // that panic, cannot be reached.
    method HandleControlFrame(f: seq<byte>) returns (v: Verdict)
      requires SideOk() && CanRead(state) && !reading && WholeFrame(f) && IsControl(OpcodeOf(f))
      modifies this
      ensures SideOk() && !reading && rejected == old(rejected)
      ensures v == JudgeControl(f)
      ensures v.Accepted? ==> ControlEffect(old(Current()), Current(), f, validUTF8)
      ensures v.Refused? ==> Current() == old(Current())
      ensures old(Accounted()) ==> Accounted()
      ensures Gone() == old(Gone())
    {
      if !IsFIN(f) { return Refused(InvalidControlFrame); }
      if PayloadLength(f) > MAX_CONTROL_PAYLOAD { return Refused(ControlFrameTooBig); }
      hide SessionOk, QueueOk, HasReservedBits, Accounts, PayloadLength, PayloadOffset, Appended, OpcodeOf;
      v := Accepted;
      if OpcodeOf(f) == OPCODE_PING {
        if state == Active { AnswerPing(f); }
      } else if OpcodeOf(f) == OPCODE_CLOSE {
        match state
        case Handshake => assert false;
        case Active => AnswerClose(f);
        case ClosedByPeer => assert false;
        case CloseAcked => assert false;
        case ClosedByUs => Ack();
        case Terminated => assert false;
      }
    }

    method AnswerPing(f: seq<byte>)
      requires SideOk() && state == Active && !reading && WholeFrame(f) && OpcodeOf(f) == OPCODE_PING
      requires PayloadLength(f) <= MAX_CONTROL_PAYLOAD
      modifies this
      ensures SideOk() && !reading && rejected == old(rejected)
      ensures ControlEffect(old(Current()), Current(), f, validUTF8)
      ensures old(Accounted()) ==> Accounted()
      ensures Gone() == old(Gone())
    {
      hide SessionOk, QueueOk, OpcodeOf, Accounts, PayloadLength, PayloadOffset, Appended;
      var panicked := PrepareWrite(AutoPong, true, OPCODE_PONG, Payload(f));
    }

    method AnswerClose(f: seq<byte>)
      requires SideOk() && state == Active && !reading && WholeFrame(f) && OpcodeOf(f) == OPCODE_CLOSE
      requires PayloadLength(f) <= MAX_CONTROL_PAYLOAD
      modifies this
      ensures SideOk() && !reading && rejected == old(rejected)
      ensures ControlEffect(old(Current()), Current(), f, validUTF8)
      ensures old(Accounted()) ==> Accounted()
      ensures Gone() == old(Gone())
    {
      hide SessionOk, QueueOk, OpcodeOf, Accounts, PayloadLength, PayloadOffset, Appended, CloseReply;
      ReplyShort(f, validUTF8);
      var panicked := HandshakeClose(CloseReply(Payload(f), validUTF8), ClosedByPeer);
    }

    // The peer answered our close frame.
    method Ack()
      requires SideOk() && state == ClosedByUs && !reading
      modifies `state
      ensures SideOk() && state == CloseAcked
    {
      state := CloseAcked;
    }

    method HandleFrame(f: seq<byte>) returns (v: Verdict)
      requires SideOk() && CanRead(state) && !reading && WholeFrame(f)
      modifies this
      ensures SideOk() && !reading
      ensures v == Judge(f, validateUTF8, validUTF8)
      ensures v.Refused? ==> RejectEffect(old(Current()), Current())
      ensures v.Accepted? ==> AcceptEffect(old(Current()), Current(), f, validUTF8)
      ensures old(Accounted()) ==> Accounted()
      ensures Gone() == old(Gone())
    {
      hide Accounts, SessionOk, QueueOk, HasReservedBits, IsMasked, OpcodeOf, PayloadLength, IsFIN;
      hide JudgeControl, JudgeData;
      v := VerifyFrame(f);
      if v.Accepted? {
        if IsControl(OpcodeOf(f)) {
          v := HandleControlFrame(f);
        } else {
          v := HandleDataFrame(f);
        }
      }
      if v.Refused? { RejectClose(); }
    }

    // ---- Reading ----

    // One read from the connection; the state turns to Terminated when the peer is gone.
    method ReadFrame() returns (r: NextResult)
      requires Valid() && CanRead(state) && !reading
      modifies this, conn.stream, conn.codec, conn.codec.src, conn.codec.src.data
      ensures Valid() && !reading && (conn.codec.src.data == old(conn.codec.src.data) || fresh(conn.codec.src.data))
      ensures ReadEffect(old(Current()), Current(), r, validateUTF8, validUTF8)
      ensures Takes(old(conn.Pending()), conn.codec.max, r, conn.Pending())
      ensures !r.FlushFailed? && !r.EndOfStream?
      ensures Spent(old(conn.stream.readScript), r.TransportFailed?, conn.stream.readScript)
      ensures conn.stream.writeScript == old(conn.stream.writeScript) && (old(Exact()) ==> Exact())
      ensures Gone() == old(Gone())
    {
      hide Stream.SideOk, SessionOk, AcceptEffect, RejectEffect, Accounts, WriteFailures, CodecConn.Valid;
      hide ReadsAs, WholeFrame, Judge, AbnormalClose, Spent, ParseOne, CodecConn.Pending;
      ghost var pending := conn.Pending();
      var next := conn.ReadNext();
      TakesFrames(pending, conn.codec.max, next, conn.Pending());
      match next
      case Item(f) =>
        ItemWhole(pending, conn.codec.max, f, conn.Pending());
        r := Receive(f);
      case OverSize => r := OverSized;
      case Bad => r := Crashed;
      case IoError(e) =>
        if e.EOF? { r := Terminate(); } else { r := TransportFailed; }
    }

    // A frame from the connection: it is handled, and handed over if it is accepted.
    method Receive(f: seq<byte>) returns (r: NextResult)
      requires Valid() && CanRead(state) && !reading && WholeFrame(f)
      modifies this
      ensures Valid() && !reading && conn.Pending() == old(conn.Pending()) && (old(Accounted()) ==> Accounted())
      ensures Gone() == old(Gone())
      ensures (r.Delivered? || r.RefusedFrame?) && r.frame == f
      ensures ReadEffect(old(Current()), Current(), r, validateUTF8, validUTF8)
    {
      hide Stream.SideOk, SessionOk, WholeFrame, Judge, RejectEffect, AcceptEffect, Accounts;
      var v := HandleFrame(f);
      r := if v.Accepted? then Delivered(f) else RefusedFrame(f, v.error);
    }

    // The peer is gone without a close frame.
    method Terminate() returns (r: NextResult)
      requires Valid() && !reading
      modifies `state
      ensures Valid() && conn.Pending() == old(conn.Pending()) && r.PeerGone?
      ensures ReadEffect(old(Current()), Current(), r, validateUTF8, validUTF8)
    {
      hide QueueOk, AbnormalClose;
      var f := BuildAbnormal();
      state := Terminated;
      r := PeerGone(f);
    }

    // NextFrame: flush what is pending, then read.
    method NextFrame() returns (r: NextResult)
      requires Valid() && !reading
      modifies this, conn.stream, conn.codec, conn.codec.src, conn.codec.src.data, conn.dst, conn.dst.data
      ensures Valid() && !reading && fresh(conn.Repr() - old(conn.Repr()))
      ensures NextEffect(old(Current()), Current(), r, validateUTF8, validUTF8)
      ensures Takes(old(conn.Pending()), conn.codec.max, r, conn.Pending())
      ensures Spent(old(conn.stream.readScript), r.TransportFailed?, conn.stream.readScript)
      ensures WritesSpent(old(conn.stream.writeScript), r.FlushFailed?, conn.stream.writeScript)
      ensures old(Exact()) ==> Exact()
      ensures !r.FlushFailed? ==> |pendingFrames| == |log| - |old(log)|
    {
      hide SessionOk, QueueOk, ReadEffect, ReadsAs, Concat, SentPart, WriteFailures, Accounts, Failures;
      var failed := Flush();
      if failed { return FlushFailed; }
      if !CanRead(state) { return EndOfStream; }
      r := ReadFrame();
    }

    // The flush of a call in its blocking or its asynchronous form.
    method FlushAs(async: bool) returns (failed: bool)
      requires Valid()
      modifies this`pendingFrames, this`pool, conn.stream`sent, conn.stream`writeScript, conn.dst, conn.dst.data
      ensures Valid() && conn.Pending() == old(conn.Pending())
      ensures conn.dst.data == old(conn.dst.data) || fresh(conn.dst.data)
      ensures !failed ==> pendingFrames == []
      ensures WritesSpent(old(conn.stream.writeScript), failed, conn.stream.writeScript)
      ensures old(Exact()) ==> Exact()
    {
      hide *;
      if async { failed := AsyncFlush(); } else { failed := Flush(); }
    }

    // AsyncNextFrame up to the point where its read waits for the transport. Unlike NextFrame it
    // gives the stream up when the flush fails or no read is allowed.
    method BeginRead() returns (r: NextResult, waiting: bool)
      requires Valid() && !reading
      modifies this, conn.stream, conn.dst, conn.dst.data
      ensures Valid() && reading == waiting && fresh(conn.Repr() - old(conn.Repr()))
      ensures conn.Pending() == old(conn.Pending())
      ensures waiting ==> CanRead(old(state)) && Current() == old(Current()).(reading := true)
      ensures !waiting ==> Current() == old(Current()).(state := Terminated)
      ensures !waiting ==> r.FlushFailed? || (r.EndOfStream? && !CanRead(old(state)))
      ensures conn.stream.readScript == old(conn.stream.readScript)
      ensures WritesSpent(old(conn.stream.writeScript), !waiting && r.FlushFailed?, conn.stream.writeScript)
      ensures old(Exact()) ==> Exact()
      ensures waiting || r.EndOfStream? ==> pendingFrames == []
    {
      hide Stream.SideOk, CodecConn.Valid, SessionOk, Concat, SentPart, WriteFailures, Accounts;
      var failed := AsyncFlush();
      waiting := !failed && CanRead(state);
      r := if failed then FlushFailed else EndOfStream;
      if waiting { Await(); } else { EndReading(); }
    }

    method Await()
      requires Valid() && CanRead(state)
      modifies `reading
      ensures Valid() && reading && conn.Pending() == old(conn.Pending())
    {
      hide QueueOk;
      reading := true;
    }

    method EndReading()
      requires Valid() && !reading
      modifies `state
      ensures Valid() && state == Terminated && conn.Pending() == old(conn.Pending())
    {
      hide QueueOk;
      state := Terminated;
    }

    // The rest of AsyncNextFrame, when the transport completes the read.
    method CompleteRead() returns (r: NextResult)
      requires Valid() && reading
      modifies this, conn.stream, conn.codec, conn.codec.src, conn.codec.src.data
      ensures Valid() && !reading && (conn.codec.src.data == old(conn.codec.src.data) || fresh(conn.codec.src.data))
      ensures CanRead(old(state))
      ensures ReadEffect(old(Current()).(reading := false), Current(), r, validateUTF8, validUTF8)
      ensures Takes(old(conn.Pending()), conn.codec.max, r, conn.Pending())
      ensures Spent(old(conn.stream.readScript), r.TransportFailed?, conn.stream.readScript)
      ensures !r.FlushFailed? && !r.EndOfStream?
      ensures conn.stream.writeScript == old(conn.stream.writeScript) && (old(Exact()) ==> Exact())
      ensures Gone() == old(Gone())
    {
      hide QueueOk, ReadEffect, ReadsAs, Takes, Accounts, WriteFailures, Spent;
      reading := false;
      r := ReadFrame();
    }

    // ---- Writing and closing ----

    // A frame of a user is queued.
    method QueueUser(fin: bool, opcode: nat, payload: seq<byte>) returns (panicked: bool)
      requires Valid() && state == Active && opcode < 16 && |payload| <= MAX_INT
      modifies this
      ensures Valid() && state == Active && reading == old(reading) && pings == old(pings)
      ensures rejected == old(rejected) && handshake == old(handshake)
      ensures panicked ==> |payload| > 65535 && log == old(log)
      ensures !panicked ==> Appended(old(log), log, Entry(User, fin, opcode, payload))
      ensures conn.Pending() == old(conn.Pending()) && (old(Exact()) ==> Exact())
      ensures Gone() == old(Gone())
    {
      hide SessionOk, QueueOk, WriteFailures, Accounts, Appended, Stream.SideOk;
      panicked := PrepareWrite(User, fin, opcode, payload);
    }

    // The close frame of a user is queued, or building it panics in the new state.
    method QueueClose(code: nat, reason: seq<byte>) returns (panicked: bool)
      requires Valid() && state == Active && code < 65536 && |reason| + 2 <= MAX_INT
      modifies this
      ensures Valid() && state == ClosedByUs && reading == old(reading) && pings == old(pings)
      ensures rejected == old(rejected)
      ensures panicked ==> |reason| > 65533 && Current() == old(Current()).(state := ClosedByUs)
      ensures !panicked ==>
        handshake && Appended(old(log), log, Entry(Closing, true, OPCODE_CLOSE, EncodeClose(code, reason)))
      ensures conn.Pending() == old(conn.Pending()) && (old(Exact()) ==> Exact())
      ensures Gone() == old(Gone())
    {
      CloseLength(code, reason);
      hide SessionOk, QueueOk, WriteFailures, Accounts, Appended, Stream.SideOk, EncodeClose;
      panicked := HandshakeClose(EncodeClose(code, reason), ClosedByUs);
    }

    method Write(async: bool, opcode: nat, payload: seq<byte>) returns (r: WriteOutcome)
      requires Valid() && opcode < 16
      modifies this, conn.stream, conn.dst, conn.dst.data
      ensures Valid() && fresh(conn.Repr() - old(conn.Repr())) && state == old(state) && reading == old(reading)
      ensures rejected == old(rejected) && handshake == old(handshake) && pings == old(pings)
      ensures r == MessageTooBig <==> |payload| > conn.codec.max
      ensures r == Cancelled <==> |payload| <= conn.codec.max && old(state) != Active
      ensures !r.Closed? && (r.Panicked? ==> |payload| > 65535)
      ensures r.Written? || r.WriteFailed? ==> Appended(old(log), log, Entry(User, true, opcode, payload))
      ensures !r.Written? && !r.WriteFailed? ==> log == old(log)
      ensures conn.Pending() == old(conn.Pending()) && (old(Exact()) ==> Exact())
      ensures conn.stream.readScript == old(conn.stream.readScript)
      ensures WritesSpent(old(conn.stream.writeScript), r.WriteFailed?, conn.stream.writeScript)
      ensures r.Written? ==> pendingFrames == []
      ensures !r.Written? && !r.WriteFailed? ==> Gone() == old(Gone())
    {
      hide SessionOk, WriteFailures, Appended, Stream.Valid, Stream.SideOk, Stream.Exact;
      hide CodecConn.Valid, CodecConn.Pending;
      if |payload| > conn.codec.max { return MessageTooBig; }
      if state != Active { return Cancelled; }
      var panicked := QueueUser(true, opcode, payload);
      if panicked { return Panicked; }
      var failed := FlushAs(async);
      return if failed then WriteFailed else Written;
    }

    // The frame was built with the setters; its size is not checked.
    method WriteFrame(async: bool, fin: bool, opcode: nat, payload: seq<byte>) returns (r: WriteOutcome)
      requires Valid() && opcode < 16 && |payload| <= MAX_INT
      modifies this, conn.stream, conn.dst, conn.dst.data
      ensures Valid() && fresh(conn.Repr() - old(conn.Repr())) && state == old(state) && reading == old(reading)
      ensures rejected == old(rejected) && handshake == old(handshake) && pings == old(pings)
      ensures r == Cancelled <==> old(state) != Active
      ensures !r.Closed? && !r.MessageTooBig? && (r.Panicked? ==> |payload| > 65535)
      ensures r.Written? || r.WriteFailed? ==> Appended(old(log), log, Entry(User, fin, opcode, payload))
      ensures !r.Written? && !r.WriteFailed? ==> log == old(log)
      ensures conn.Pending() == old(conn.Pending()) && (old(Exact()) ==> Exact())
      ensures conn.stream.readScript == old(conn.stream.readScript)
      ensures WritesSpent(old(conn.stream.writeScript), r.WriteFailed?, conn.stream.writeScript)
      ensures r.Written? ==> pendingFrames == []
      ensures !r.Written? && !r.WriteFailed? ==> Gone() == old(Gone())
    {
      hide SessionOk, WriteFailures, Appended, Stream.Valid, Stream.SideOk, Stream.Exact;
      hide CodecConn.Valid, CodecConn.Pending;
      if state != Active { return Cancelled; }
      var panicked := QueueUser(fin, opcode, payload);
      if panicked { return Panicked; }
      var failed := FlushAs(async);
      return if failed then WriteFailed else Written;
    }

    method Close(async: bool, code: nat, reason: seq<byte>) returns (r: WriteOutcome)
      requires Valid() && code < 65536 && |reason| + 2 <= MAX_INT
      modifies this, conn.stream, conn.dst, conn.dst.data
      ensures Valid() && fresh(conn.Repr() - old(conn.Repr())) && reading == old(reading)
      ensures rejected == old(rejected) && pings == old(pings)
      ensures r == Cancelled <==> old(state) in {ClosedByUs, Handshake}
      ensures !r.MessageTooBig? && (r.Panicked? ==> |reason| > 65533)
      ensures r == Closed <==> old(state) in {ClosedByPeer, CloseAcked, Terminated}
      ensures r.Written? || r.WriteFailed? ==>
        && state == ClosedByUs && handshake
        && Appended(old(log), log, Entry(Closing, true, OPCODE_CLOSE, EncodeClose(code, reason)))
      ensures r.Cancelled? || r.Closed? ==> Current() == old(Current())
      ensures r.Panicked? ==> old(state) == Active && Current() == old(Current()).(state := ClosedByUs)
      ensures conn.Pending() == old(conn.Pending()) && (old(Exact()) ==> Exact())
      ensures conn.stream.readScript == old(conn.stream.readScript)
      ensures WritesSpent(old(conn.stream.writeScript), r.WriteFailed?, conn.stream.writeScript)
      ensures r.Written? ==> pendingFrames == []
      ensures !r.Written? && !r.WriteFailed? ==> Gone() == old(Gone())
    {
      hide SessionOk, WriteFailures, Appended, Stream.Valid, Stream.SideOk, Stream.Exact;
      hide CodecConn.Valid, CodecConn.Pending;
      hide EncodeClose;
      if state == ClosedByUs || state == Handshake { return Cancelled; }
      if state != Active { return Closed; }
      var panicked := QueueClose(code, reason);
      if panicked { return Panicked; }
      var failed := FlushAs(async);
      return if failed then WriteFailed else Written;
    }
  }

  lemma TakesFrames(pending: seq<byte>, max: nat, r: ReadNextResult, after: seq<byte>)
    requires ReadsAs(pending, max, r, after)
    ensures r.Item? || after == pending
  {}

  lemma ItemWhole(pending: seq<byte>, max: nat, f: seq<byte>, after: seq<byte>)
    requires ReadsAs(pending, max, Item(f), after)
    ensures WholeFrame(f) && |after| < |pending|
  {
    SameHeader(f, pending);
  }

  // ---- What reading does to the session ----

  // A read takes the next frame of what the peer sent, accepted or refused; why it takes none is
  // told by what is pending, or by a failure of the transport.
  ghost predicate Takes(pending: seq<byte>, max: nat, r: NextResult, after: seq<byte>) {
    match r
    case Delivered(f) => ReadsAs(pending, max, Item(f), after)
    case RefusedFrame(f, _) => ReadsAs(pending, max, Item(f), after)
    case PeerGone(_) => ReadsAs(pending, max, IoError(EOF), after)
    case OverSized => ReadsAs(pending, max, OverSize, after)
    case Crashed => ReadsAs(pending, max, Bad, after)
    case TransportFailed => after == pending
    case FlushFailed => after == pending
    case EndOfStream => after == pending
  }

  ghost predicate ReadEffect(s: Session, s': Session, r: NextResult, checkText: bool, validText: seq<byte> -> bool) {
    match r
    case Delivered(f) => WholeFrame(f) && Judge(f, checkText, validText).Accepted? && AcceptEffect(s, s', f, validText)
    case RefusedFrame(f, e) => WholeFrame(f) && Judge(f, checkText, validText) == Refused(e) && RejectEffect(s, s')
    case PeerGone(f) => AbnormalClose(f) && s' == s.(state := Terminated)
    case _ => s' == s
  }

  // A synchronous read in a state that allows none reports the end of the stream.
  ghost predicate NextEffect(s: Session, s': Session, r: NextResult, checkText: bool, validText: seq<byte> -> bool) {
    if r.FlushFailed? then s' == s
    else if r.EndOfStream? then !CanRead(s.state) && s' == s
    else CanRead(s.state) && ReadEffect(s, s', r, checkText, validText)
  }

  // ---- What handling a frame does to the session ----

  // A refused frame: one more close frame, with status 1002.
  ghost predicate RejectEffect(s: Session, s': Session) {
    && s' == s.(state := ClosedByUs, rejected := s.rejected + 1, log := s'.log)
    && Appended(s.log, s'.log, Entry(Closing, true, OPCODE_CLOSE, EncodeClose(CLOSE_PROTOCOL_ERROR, [])))
  }

  ghost predicate ControlEffect(s: Session, s': Session, f: seq<byte>, validText: seq<byte> -> bool)
    requires WholeFrame(f)
  {
    var op := OpcodeOf(f);
    if op == OPCODE_PING && s.state == Active then
      && s' == s.(log := s'.log, pings := s.pings + [Payload(f)])
      && Appended(s.log, s'.log, Entry(AutoPong, true, OPCODE_PONG, Payload(f)))
    else if op == OPCODE_CLOSE && s.state == Active then
      && s' == s.(state := ClosedByPeer, handshake := true, log := s'.log)
      && Appended(s.log, s'.log, Entry(Closing, true, OPCODE_CLOSE, CloseReply(Payload(f), validText)))
    else if op == OPCODE_CLOSE && s.state == ClosedByUs then s' == s.(state := CloseAcked)
    else s' == s
  }

  ghost predicate AcceptEffect(s: Session, s': Session, f: seq<byte>, validText: seq<byte> -> bool)
    requires WholeFrame(f)
  {
    if IsControl(OpcodeOf(f)) then ControlEffect(s, s', f, validText) else s' == s
  }

  lemma AppendedOne(log: seq<Queued>, q: Queued)
    ensures Appended(log, log + [q], EntryOf(q))
  {}

  // One frame more in the log.
  ghost predicate Appended(before: seq<Queued>, after: seq<Queued>, e: Entry) {
    |after| == |before| + 1 && after[..|before|] == before && EntryOf(after[|before|]) == e
  }
}

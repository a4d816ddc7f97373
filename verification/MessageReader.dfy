/** NextMessage and asyncNextMessage of codec/websocket/stream.go on a stream. */
module MessageReaders {
  import opened Bytes
  import opened Transports
  import opened Frames
  import opened CodecConns
  import opened StreamSessions
  import opened Streams
  import StreamRuns
  import opened Messages
  import opened MessageSpecs

  // "payload too big"
  const TOO_BIG_REASON: seq<byte> := [112, 97, 121, 108, 111, 97, 100, 32, 116, 111, 111, 32, 98, 105, 103]

  ghost function SetupOf(s: Stream): Setup
    reads s, s.conn
  {
    Setup(s.conn.codec.max, s.validateUTF8, s.validUTF8)
  }

  // The read ended because the transport failed, not because of what the peer sent.
  predicate Broken(r: NextResult) { r.TransportFailed? || r.FlushFailed? }

  // The writes of a script that may still fail; closing the stream for a message that does not fit
  // ignores whether the close frame could be sent.
  ghost predicate WritesLeft(before: seq<WriteStep>, failed: bool, after: seq<WriteStep>) {
    WriteFailures(after) + (if failed then 1 else 0) <= WriteFailures(before)
  }

  // ---- A call in progress ----

  // The variables of a call that has received the data frames `data`.
  ghost predicate InCall(p: Progress, data: seq<Fragment>, room: nat, max: nat)
    ensures InCall(p, data, room, max) ==> |p.bytes| <= room
  {
    DataOpcodes(data) && Open(data, room, max) && Tracks(p, data)
  }

  // From (st, bytes) the call is where the whole call from (st0, bytes0) comes to.
  ghost predicate OnCourse(st0: State, bytes0: seq<byte>, c: Setup, room: nat,
                           st: State, bytes: seq<byte>, data: seq<Fragment>) {
    Expected(st0, bytes0, c, room, []) == Expected(st, bytes, c, room, data)
  }

  ghost predicate EndsAs(st0: State, bytes0: seq<byte>, c: Setup, room: nat,
                         r: Report, cause: Cause, st: State, bytes: seq<byte>) {
    Expected(st0, bytes0, c, room, []) == Ended(r, cause, st, bytes)
  }

  lemma Begin(st: State, bytes: seq<byte>, c: Setup, room: nat)
    ensures InCall(Progress([], false, TYPE_NONE), [], room, c.max) && OnCourse(st, bytes, c, room, st, bytes, [])
  {}

  lemma StopReport(p: Progress, data: seq<Fragment>, room: nat, max: nat)
    requires InCall(p, data, room, max)
    ensures Report(Stopped, p.messageType, p.bytes) == ReportOf(data, room, max)
  {
    OpenStops(data, room, max);
    assert Payloads(data)[..|Payloads(data)|] == Payloads(data);
  }

  lemma HaltStep(st0: State, bytes0: seq<byte>, c: Setup, room: nat, st: State, bytes: seq<byte>,
                 p: Progress, data: seq<Fragment>, cause: Cause, st': State, rest: seq<byte>)
    requires OnCourse(st0, bytes0, c, room, st, bytes, data) && InCall(p, data, room, c.max)
    requires Halts(st, bytes, c, cause, st', rest)
    ensures EndsAs(st0, bytes0, c, room, Report(Stopped, p.messageType, p.bytes), cause, st', rest)
  {
    hide Expected, Halts, InCall;
    StopReport(p, data, room, c.max);
    ExpectedHalts(st, bytes, c, room, data, cause, st', rest);
  }

  lemma ControlStep(st0: State, bytes0: seq<byte>, c: Setup, room: nat, st: State, bytes: seq<byte>,
                    data: seq<Fragment>, f: seq<byte>, st': State, rest: seq<byte>)
    requires OnCourse(st0, bytes0, c, room, st, bytes, data)
    requires Hands(st, bytes, c, f, st', rest) && IsControl(OpcodeOf(f))
    ensures OnCourse(st0, bytes0, c, room, st', rest, data)
  {
    hide Expected;
    ExpectedHands(st, bytes, c, room, data, f, st', rest);
  }

  // A data frame after which the call goes on or is over, as either form finds.
  lemma DataStep(st0: State, bytes0: seq<byte>, c: Setup, room: nat, st: State, bytes: seq<byte>,
                 data: seq<Fragment>, f: seq<byte>, st': State, rest: seq<byte>, o: Outcome)
    requires OnCourse(st0, bytes0, c, room, st, bytes, data) && DataOpcodes(data) && Open(data, room, c.max)
    requires Hands(st, bytes, c, f, st', rest) && !IsControl(OpcodeOf(f))
    requires StepRight(o, data + [ViewOf(f)], room, c.max)
    ensures o.Go? ==>
      OnCourse(st0, bytes0, c, room, st', rest, data + [ViewOf(f)]) && InCall(o.next, data + [ViewOf(f)], room, c.max)
    ensures o.Over? ==>
      EndsAs(st0, bytes0, c, room, Report(o.error, o.last.messageType, o.last.bytes), LastFrame,
             if o.error.TooLarge? then ClosedByUs else st', rest)
  {
    hide Expected, ReportOf, Open, Hands, ViewOf, Tracks;
    HandsData(st, bytes, c, f, st', rest);
    NextOpcodes(data, ViewOf(f));
    ExpectedHands(st, bytes, c, room, data, f, st', rest);
  }

  lemma NextOpcodes(data: seq<Fragment>, f: Fragment)
    requires DataOpcodes(data) && IsDataOpcode(f.opcode)
    ensures DataOpcodes(data + [f])
  {}

  // What the loop of NextMessage and the callback of asyncNextMessage make of a data frame.
  lemma LoopStep(p: Progress, data: seq<Fragment>, f: Fragment, room: nat, max: nat)
    requires InCall(p, data, room, max) && IsDataOpcode(f.opcode)
    ensures DataOpcodes(data) && Open(data, room, max)
    ensures StepRight(OnDataFrame(p, f, room, max), data + [f], room, max)
  {
    hide Open, StepRight, OnDataFrame;
    DataFrameRight(p, data, f, room, max);
  }

  lemma CallbackStep(p: Progress, data: seq<Fragment>, f: Fragment, room: nat, max: nat)
    requires InCall(p, data, room, max) && IsDataOpcode(f.opcode)
    ensures DataOpcodes(data) && Open(data, room, max)
    ensures StepRight(OnAsyncFrame(p, f, room, max), data + [f], room, max)
  {
    hide Open, StepRight, OnAsyncFrame;
    AsyncFrameRight(p, data, f, room, max);
  }

  // ---- One frame ----

  // NextFrame, as far as reassembly looks at it.
  ghost predicate Fetched(st: State, bytes: seq<byte>, c: Setup, r: NextResult, st': State, rest: seq<byte>) {
    if r.Delivered? then Hands(st, bytes, c, r.frame, st', rest)
    else if Broken(r) then rest == bytes
    else Halts(st, bytes, c, CauseOf(r), st', rest)
  }

  lemma ReadFetched(s: Session, s': Session, bytes: seq<byte>, c: Setup, r: NextResult, rest: seq<byte>)
    requires CanRead(s.state) && ReadEffect(s, s', r, c.checkText, c.validText) && Takes(bytes, c.max, r, rest)
    requires !r.EndOfStream?
    ensures Fetched(Plain(s.state), bytes, c, r, Plain(s'.state), rest)
  {
    hide Appended, Judge, CloseReply, EncodeClose, PayloadLength, AbnormalClose;
    FrontWhole(bytes, c.max);
    match r
    case Delivered(f) => if IsControl(OpcodeOf(f)) { assert ControlEffect(s, s', f, c.validText); }
    case RefusedFrame(f, _) => assert bytes[..|f|] == f && bytes[|f|..] == rest;
    case _ =>
  }

  method Fetch(s: Stream) returns (next: NextResult)
    requires s.Valid() && !s.reading
    modifies s, s.conn.stream, s.conn.codec, s.conn.codec.src, s.conn.codec.src.data, s.conn.dst, s.conn.dst.data
    ensures s.Valid() && !s.reading && fresh(s.conn.Repr() - old(s.conn.Repr()))
    ensures Fetched(Plain(old(s.state)), old(s.conn.Pending()), SetupOf(s), next, Plain(s.state), s.conn.Pending())
    ensures Spent(old(s.conn.stream.readScript), next.TransportFailed?, s.conn.stream.readScript)
    ensures WritesSpent(old(s.conn.stream.writeScript), next.FlushFailed?, s.conn.stream.writeScript)
  {
    hide Stream.Valid, CodecConn.Valid, CodecConn.Pending, SessionOk, ReadEffect, Takes, WriteFailures, Spent, Hands;
    ghost var pending := s.conn.Pending();
    next := s.NextFrame();
    FrontWhole(pending, s.conn.codec.max);
    if CanRead(old(s.state)) && !next.FlushFailed? {
      ReadFetched(old(s.Current()), s.Current(), pending, SetupOf(s), next, s.conn.Pending());
    } else {
      TakesNone(pending, s.conn.codec.max, next, s.conn.Pending());
    }
  }

  lemma TakesNone(bytes: seq<byte>, max: nat, r: NextResult, rest: seq<byte>)
    requires Takes(bytes, max, r, rest) && (r.FlushFailed? || r.EndOfStream?)
    ensures rest == bytes
  {}

  // AsyncNextFrame, from the call to its callback.
  method AsyncFetch(s: Stream) returns (next: NextResult)
    requires s.Valid() && !s.reading
    modifies s, s.conn.stream, s.conn.codec, s.conn.codec.src, s.conn.codec.src.data, s.conn.dst, s.conn.dst.data
    ensures s.Valid() && !s.reading && fresh(s.conn.Repr() - old(s.conn.Repr()))
    ensures Fetched(Plain(old(s.state)), old(s.conn.Pending()), SetupOf(s), next, Plain(s.state), s.conn.Pending())
    ensures Spent(old(s.conn.stream.readScript), next.TransportFailed?, s.conn.stream.readScript)
    ensures WritesSpent(old(s.conn.stream.writeScript), next.FlushFailed?, s.conn.stream.writeScript)
  {
    hide Stream.Valid, CodecConn.Valid, CodecConn.Pending, SessionOk, ReadEffect, Takes, WriteFailures, Failures, Hands;
    ghost var pending, before := s.conn.Pending(), s.Current();
    FrontWhole(pending, s.conn.codec.max);
    var waiting;
    next, waiting := s.BeginRead();
    if waiting {
      next := s.CompleteRead();
      ReadFetched(before, s.Current(), pending, SetupOf(s), next, s.conn.Pending());
    }
  }

  // A message that does not fit closes the stream.
  method GiveUp(s: Stream, async: bool, error: MessageError)
    requires s.Valid() && !s.reading && CanRead(s.state)
    modifies s, s.conn.stream, s.conn.dst, s.conn.dst.data
    ensures s.Valid() && !s.reading && fresh(s.conn.Repr() - old(s.conn.Repr()))
    ensures Plain(s.state) == if error.TooLarge? then ClosedByUs else old(s.state)
    ensures error.TooLarge? && old(s.state) == Active ==>
      Appended(old(s.log), s.log, Entry(Closing, true, OPCODE_CLOSE, EncodeClose(1001, TOO_BIG_REASON)))
    ensures !error.TooLarge? || old(s.state) != Active ==> s.log == old(s.log)
    ensures s.conn.Pending() == old(s.conn.Pending()) && s.conn.stream.readScript == old(s.conn.stream.readScript)
    ensures WritesLeft(old(s.conn.stream.writeScript), false, s.conn.stream.writeScript)
  {
    hide Stream.Valid, CodecConn.Valid, CodecConn.Pending, SessionOk, WriteFailures, Appended, EncodeClose;
    if error.TooLarge? { var w := s.Close(async, CLOSE_GOING_AWAY, TOO_BIG_REASON); }
  }

  // ---- A call ----

  // What a call leaves behind. Unless the transport broke it off, it is the whole call the peer's
  // bytes call for; if so, it stopped on the way of that call, with `data` received.
  ghost predicate CallRight(st0: State, bytes0: seq<byte>, c: Setup, room: nat, r: Report, stop: NextResult,
                            st: State, bytes: seq<byte>, data: seq<Fragment>, mid: State) {
    if Broken(stop) then OnCourse(st0, bytes0, c, room, mid, bytes, data) && r == ReportOf(data, room, c.max)
    else EndsAs(st0, bytes0, c, room, r, CauseOf(stop), st, bytes)
  }

  lemma HandsShorter(st: State, bytes: seq<byte>, c: Setup, f: seq<byte>, st': State, rest: seq<byte>)
    requires Hands(st, bytes, c, f, st', rest)
    ensures |f| >= 2 && PayloadOffset(f) <= |f| && |rest| < |bytes|
    ensures !IsControl(OpcodeOf(f)) ==> st' == st && CanRead(st)
  {}

  // A frame in the loop of NextMessage. Control frames leave the message alone.
  method LoopFrame(s: Stream, room: nat, p: Progress, frame: seq<byte>, ghost st0: State, ghost bytes0: seq<byte>,
                   ghost mid: State, ghost bytes: seq<byte>, ghost data: seq<Fragment>)
    returns (o: Outcome, ghost data': seq<Fragment>)
    requires s.Valid() && !s.reading && InCall(p, data, room, s.conn.codec.max)
    requires OnCourse(st0, bytes0, SetupOf(s), room, mid, bytes, data)
    requires Hands(mid, bytes, SetupOf(s), frame, Plain(s.state), s.conn.Pending())
    modifies s, s.conn.stream, s.conn.dst, s.conn.dst.data
    ensures s.Valid() && !s.reading && fresh(s.conn.Repr() - old(s.conn.Repr()))
    ensures s.conn.Pending() == old(s.conn.Pending()) && s.conn.stream.readScript == old(s.conn.stream.readScript)
    ensures WritesLeft(old(s.conn.stream.writeScript), false, s.conn.stream.writeScript)
    ensures o.Go? ==>
      && OnCourse(st0, bytes0, SetupOf(s), room, Plain(s.state), s.conn.Pending(), data')
      && InCall(o.next, data', room, s.conn.codec.max)
    ensures o.Over? ==>
      EndsAs(st0, bytes0, SetupOf(s), room, Report(o.error, o.last.messageType, o.last.bytes), LastFrame,
             Plain(s.state), s.conn.Pending())
  {
    hide Stream.Valid, CodecConn.Valid, CodecConn.Pending, SessionOk, WriteFailures, OnCourse, EndsAs, InCall;
    hide Hands, OnDataFrame, StepRight, OpcodeOf, Open, DataOpcodes;
    ghost var c, st, rest := SetupOf(s), Plain(s.state), s.conn.Pending();
    HandsShorter(mid, bytes, c, frame, st, rest);
    o, data' := Go(p), data;
    if IsControl(OpcodeOf(frame)) {
      ControlStep(st0, bytes0, c, room, mid, bytes, data, frame, st, rest);
    } else {
      var f := Fragment(IsFIN(frame), OpcodeOf(frame), Payload(frame));
      HandsData(mid, bytes, c, frame, st, rest);
      LoopStep(p, data, f, room, c.max);
      o, data' := OnDataFrame(p, f, room, s.conn.codec.max), data + [f];
      DataStep(st0, bytes0, c, room, mid, bytes, data, frame, st, rest, o);
      if o.Over? { GiveUp(s, false, o.error); }
    }
  }

  // One round of the loop.
  method LoopRound(s: Stream, room: nat, p: Progress,
                   ghost st0: State, ghost bytes0: seq<byte>, ghost data: seq<Fragment>)
    returns (o: Outcome, stop: NextResult, ghost data': seq<Fragment>, ghost mid: State)
    requires s.Valid() && !s.reading && InCall(p, data, room, s.conn.codec.max)
    requires OnCourse(st0, bytes0, SetupOf(s), room, Plain(s.state), s.conn.Pending(), data)
    modifies s, s.conn.stream, s.conn.codec, s.conn.codec.src, s.conn.codec.src.data, s.conn.dst, s.conn.dst.data
    ensures s.Valid() && !s.reading && fresh(s.conn.Repr() - old(s.conn.Repr()))
    ensures o.Go? ==>
      && OnCourse(st0, bytes0, SetupOf(s), room, Plain(s.state), s.conn.Pending(), data')
      && InCall(o.next, data', room, s.conn.codec.max)
      && stop.Delivered? && |s.conn.Pending()| < |old(s.conn.Pending())|
    ensures o.Over? ==>
      CallRight(st0, bytes0, SetupOf(s), room, Report(o.error, o.last.messageType, o.last.bytes), stop,
                Plain(s.state), s.conn.Pending(), data', mid)
    ensures Spent(old(s.conn.stream.readScript), stop.TransportFailed?, s.conn.stream.readScript)
    ensures WritesLeft(old(s.conn.stream.writeScript), stop.FlushFailed?, s.conn.stream.writeScript)
  {
    hide Stream.Valid, CodecConn.Valid, CodecConn.Pending, SessionOk, WriteFailures, Spent, OnCourse, EndsAs, InCall;
    hide Hands, Halts, ReportOf;
    ghost var bytes, c := s.conn.Pending(), SetupOf(s);
    data', mid := data, Plain(s.state);
    stop := Fetch(s);
    if !stop.Delivered? {
      StopReport(p, data, room, c.max);
      if !Broken(stop) {
        HaltStep(st0, bytes0, c, room, mid, bytes, p, data, CauseOf(stop), Plain(s.state), s.conn.Pending());
      }
      return Outcome.Over(Stopped, p), stop, data, mid;
    }
    HandsShorter(mid, bytes, c, stop.frame, Plain(s.state), s.conn.Pending());
    o, data' := LoopFrame(s, room, p, stop.frame, st0, bytes0, mid, bytes, data);
  }

  // NextMessage: read frames until the message is complete or something is wrong.
  method NextMessage(s: Stream, room: nat)
    returns (r: Report, stop: NextResult, ghost data: seq<Fragment>, ghost mid: State)
    requires s.Valid() && !s.reading
    modifies s, s.conn.stream, s.conn.codec, s.conn.codec.src, s.conn.codec.src.data, s.conn.dst, s.conn.dst.data
    ensures s.Valid() && !s.reading && fresh(s.conn.Repr() - old(s.conn.Repr()))
    ensures CallRight(Plain(old(s.state)), old(s.conn.Pending()), SetupOf(s), room, r, stop,
                      Plain(s.state), s.conn.Pending(), data, mid)
    ensures Spent(old(s.conn.stream.readScript), stop.TransportFailed?, s.conn.stream.readScript)
    ensures WritesLeft(old(s.conn.stream.writeScript), stop.FlushFailed?, s.conn.stream.writeScript)
  {
    hide Stream.Valid, CodecConn.Valid, CodecConn.Pending, SessionOk, WriteFailures, Failures, OnCourse, InCall;
    hide CallRight;
    ghost var st0, bytes0 := Plain(s.state), s.conn.Pending();
    var p := Progress([], false, TYPE_NONE);
    data := [];
    Begin(st0, bytes0, SetupOf(s), room);
    while true
      invariant s.Valid() && !s.reading && fresh(s.conn.Repr() - old(s.conn.Repr()))
      invariant InCall(p, data, room, s.conn.codec.max)
      invariant OnCourse(st0, bytes0, SetupOf(s), room, Plain(s.state), s.conn.Pending(), data)
      invariant Failures(s.conn.stream.readScript) == Failures(old(s.conn.stream.readScript))
      invariant WritesLeft(old(s.conn.stream.writeScript), false, s.conn.stream.writeScript)
      decreases |s.conn.Pending()|
    {
      var o;
      o, stop, data, mid := LoopRound(s, room, p, st0, bytes0, data);
      if o.Over? { return Report(o.error, o.last.messageType, o.last.bytes), stop, data, mid; }
      p := o.next;
    }
  }

  // A frame in the callback of asyncNextMessage.
  method CallbackFrame(s: Stream, room: nat, p: Progress, frame: seq<byte>, ghost st0: State, ghost bytes0: seq<byte>,
                   ghost mid: State, ghost bytes: seq<byte>, ghost data: seq<Fragment>)
    returns (o: Outcome, ghost data': seq<Fragment>)
    requires s.Valid() && !s.reading && InCall(p, data, room, s.conn.codec.max)
    requires OnCourse(st0, bytes0, SetupOf(s), room, mid, bytes, data)
    requires Hands(mid, bytes, SetupOf(s), frame, Plain(s.state), s.conn.Pending())
    modifies s, s.conn.stream, s.conn.dst, s.conn.dst.data
    ensures s.Valid() && !s.reading && fresh(s.conn.Repr() - old(s.conn.Repr()))
    ensures s.conn.Pending() == old(s.conn.Pending()) && s.conn.stream.readScript == old(s.conn.stream.readScript)
    ensures WritesLeft(old(s.conn.stream.writeScript), false, s.conn.stream.writeScript)
    ensures o.Go? ==>
      && OnCourse(st0, bytes0, SetupOf(s), room, Plain(s.state), s.conn.Pending(), data')
      && InCall(o.next, data', room, s.conn.codec.max)
    ensures o.Over? ==>
      EndsAs(st0, bytes0, SetupOf(s), room, Report(o.error, o.last.messageType, o.last.bytes), LastFrame,
             Plain(s.state), s.conn.Pending())
  {
    hide Stream.Valid, CodecConn.Valid, CodecConn.Pending, SessionOk, WriteFailures, OnCourse, EndsAs, InCall;
    hide Hands, OnAsyncFrame, StepRight, OpcodeOf, Open, DataOpcodes;
    ghost var c, st, rest := SetupOf(s), Plain(s.state), s.conn.Pending();
    HandsShorter(mid, bytes, c, frame, st, rest);
    o, data' := Go(p), data;
    if IsControl(OpcodeOf(frame)) {
      ControlStep(st0, bytes0, c, room, mid, bytes, data, frame, st, rest);
    } else {
      var f := Fragment(IsFIN(frame), OpcodeOf(frame), Payload(frame));
      HandsData(mid, bytes, c, frame, st, rest);
      CallbackStep(p, data, f, room, c.max);
      o, data' := OnAsyncFrame(p, f, room, s.conn.codec.max), data + [f];
      DataStep(st0, bytes0, c, room, mid, bytes, data, frame, st, rest, o);
      if o.Over? { GiveUp(s, true, o.error); }
    }
  }

  // One frame of asyncNextMessage, from its request to the end of its callback.
  method CallbackRound(s: Stream, room: nat, p: Progress,
                       ghost st0: State, ghost bytes0: seq<byte>, ghost data: seq<Fragment>)
    returns (o: Outcome, stop: NextResult, ghost data': seq<Fragment>, ghost mid: State)
    requires s.Valid() && !s.reading && InCall(p, data, room, s.conn.codec.max)
    requires OnCourse(st0, bytes0, SetupOf(s), room, Plain(s.state), s.conn.Pending(), data)
    modifies s, s.conn.stream, s.conn.codec, s.conn.codec.src, s.conn.codec.src.data, s.conn.dst, s.conn.dst.data
    ensures s.Valid() && !s.reading && fresh(s.conn.Repr() - old(s.conn.Repr()))
    ensures o.Go? ==>
      && OnCourse(st0, bytes0, SetupOf(s), room, Plain(s.state), s.conn.Pending(), data')
      && InCall(o.next, data', room, s.conn.codec.max)
      && stop.Delivered? && |s.conn.Pending()| < |old(s.conn.Pending())|
    ensures o.Over? ==>
      CallRight(st0, bytes0, SetupOf(s), room, Report(o.error, o.last.messageType, o.last.bytes), stop,
                Plain(s.state), s.conn.Pending(), data', mid)
    ensures Spent(old(s.conn.stream.readScript), stop.TransportFailed?, s.conn.stream.readScript)
    ensures WritesLeft(old(s.conn.stream.writeScript), stop.FlushFailed?, s.conn.stream.writeScript)
  {
    hide Stream.Valid, CodecConn.Valid, CodecConn.Pending, SessionOk, WriteFailures, Spent, OnCourse, EndsAs, InCall;
    hide Hands, Halts, ReportOf;
    ghost var bytes, c := s.conn.Pending(), SetupOf(s);
    data', mid := data, Plain(s.state);
    stop := AsyncFetch(s);
    if !stop.Delivered? {
      StopReport(p, data, room, c.max);
      if !Broken(stop) {
        HaltStep(st0, bytes0, c, room, mid, bytes, p, data, CauseOf(stop), Plain(s.state), s.conn.Pending());
      }
      return Outcome.Over(Stopped, p), stop, data, mid;
    }
    HandsShorter(mid, bytes, c, stop.frame, Plain(s.state), s.conn.Pending());
    o, data' := CallbackFrame(s, room, p, stop.frame, st0, bytes0, mid, bytes, data);
  }

  // asyncNextMessage: the callback of each frame calls the function again, with the variables of
  // the call as arguments. `st0` and `bytes0` are where the first of the calls began.
  method AsyncNextMessage(s: Stream, room: nat, p: Progress,
                          ghost st0: State, ghost bytes0: seq<byte>, ghost before: seq<Fragment>)
    returns (r: Report, stop: NextResult, ghost data: seq<Fragment>, ghost mid: State)
    requires s.Valid() && !s.reading && InCall(p, before, room, s.conn.codec.max)
    requires OnCourse(st0, bytes0, SetupOf(s), room, Plain(s.state), s.conn.Pending(), before)
    modifies s, s.conn.stream, s.conn.codec, s.conn.codec.src, s.conn.codec.src.data, s.conn.dst, s.conn.dst.data
    ensures s.Valid() && !s.reading && fresh(s.conn.Repr() - old(s.conn.Repr()))
    ensures CallRight(st0, bytes0, SetupOf(s), room, r, stop, Plain(s.state), s.conn.Pending(), data, mid)
    ensures Spent(old(s.conn.stream.readScript), stop.TransportFailed?, s.conn.stream.readScript)
    ensures WritesLeft(old(s.conn.stream.writeScript), stop.FlushFailed?, s.conn.stream.writeScript)
    decreases |s.conn.Pending()|
  {
    hide Stream.Valid, CodecConn.Valid, CodecConn.Pending, SessionOk, WriteFailures, Failures, OnCourse, InCall;
    hide CallRight;
    var o;
    o, stop, data, mid := CallbackRound(s, room, p, st0, bytes0, before);
    if o.Over? { return Report(o.error, o.last.messageType, o.last.bytes), stop, data, mid; }
    r, stop, data, mid := AsyncNextMessage(s, room, o.next, st0, bytes0, data);
  }

  // ---- Any number of calls, in either form ----

  // What a caller is told: the report, and the error of the frame that could not be read.
  datatype Answer = Answer(report: Report, cause: Cause)

  // The answers to one call after the other, one per buffer size.
  ghost function Calls(st: State, bytes: seq<byte>, c: Setup, rooms: seq<nat>): (seq<Answer>, State, seq<byte>) {
    if rooms == [] then ([], st, bytes)
    else
      var (answers, mid, rest) := Calls(st, bytes, c, rooms[..|rooms| - 1]);
      var e := Expected(mid, rest, c, rooms[|rooms| - 1], []);
      (answers + [Answer(e.report, e.cause)], e.state, e.rest)
  }

  lemma OneMoreCall(st: State, bytes: seq<byte>, c: Setup, rooms: seq<nat>, i: nat,
                    answers: seq<Answer>, mid: State, rest: seq<byte>, a: Answer, st': State, rest': seq<byte>)
    requires i < |rooms| && Calls(st, bytes, c, rooms[..i]) == (answers, mid, rest)
    requires EndsAs(mid, rest, c, rooms[i], a.report, a.cause, st', rest')
    ensures Calls(st, bytes, c, rooms[..i + 1]) == (answers + [a], st', rest')
  {
    hide Expected;
    assert rooms[..i + 1][..i] == rooms[..i];
  }

  // The bytes are messages one behind the other, each of which fits into its buffer.
  ghost predicate MessagesAhead(bytes: seq<byte>, c: Setup, rooms: seq<nat>, messages: seq<seq<seq<byte>>>,
                                rests: seq<seq<byte>>)
    ensures MessagesAhead(bytes, c, rooms, messages, rests) ==> |messages| == |rooms| == |rests| - 1
  {
    && |messages| == |rooms| && |rests| == |rooms| + 1 && rests[0] == bytes
    && forall i :: 0 <= i < |rooms| ==>
         AtFront(rests[i], c, messages[i], rests[i + 1]) && Completes(messages[i], rooms[i], c.max)
  }

  // Then the calls give back those messages.
  lemma {:induction false} MessagesBack(st: State, bytes: seq<byte>, c: Setup, rooms: seq<nat>,
                                        messages: seq<seq<seq<byte>>>, rests: seq<seq<byte>>, k: nat)
    requires CanRead(st) && MessagesAhead(bytes, c, rooms, messages, rests) && k <= |rooms|
    ensures var (answers, mid, rest) := Calls(st, bytes, c, rooms[..k]);
      && |answers| == k && mid == st && rest == rests[k]
      && forall i :: 0 <= i < k ==>
           Completes(messages[i], rooms[i], c.max) && answers[i] == Answer(MessageOf(messages[i]), LastFrame)
    decreases k
  {
    hide Expected, AtFront, Completes, MessageOf;
    if k > 0 {
      var i := k - 1;
      MessagesBack(st, bytes, c, rooms, messages, rests, i);
      assert AtFront(rests[i], c, messages[i], rests[i + 1]);
      MessageMeansSuccess(st, rests[i], c, rooms[i], messages[i], rests[i + 1]);
      assert rooms[..k][..i] == rooms[..i];
    }
  }

  // Bytes that are messages are answered with those messages, whatever the messages are.
  ghost predicate GivesMessages(bytes: seq<byte>, c: Setup, rooms: seq<nat>, answers: seq<Answer>) {
    && |answers| == |rooms|
    && forall messages, rests :: MessagesAhead(bytes, c, rooms, messages, rests) ==>
         forall i :: 0 <= i < |rooms| ==>
           Completes(messages[i], rooms[i], c.max) && answers[i] == Answer(MessageOf(messages[i]), LastFrame)
  }

  lemma CallsGive(bytes: seq<byte>, c: Setup, rooms: seq<nat>, answers: seq<Answer>)
    requires |answers| == |rooms| && answers == Calls(Active, bytes, c, rooms).0
    ensures GivesMessages(bytes, c, rooms, answers)
  {
    hide MessagesAhead, Calls, Completes, MessageOf;
    assert rooms[..|rooms|] == rooms;
    forall messages, rests | MessagesAhead(bytes, c, rooms, messages, rests)
      ensures forall i :: 0 <= i < |rooms| ==>
        Completes(messages[i], rooms[i], c.max) && answers[i] == Answer(MessageOf(messages[i]), LastFrame)
    {
      MessagesBack(Active, bytes, c, rooms, messages, rests, |rooms|);
    }
  }

  // What the frames of the peer say of a call.
  lemma Succeeds(st: State, bytes: seq<byte>, c: Setup, room: nat, r: Report, cause: Cause, st': State, rest: seq<byte>)
    requires EndsAs(Plain(st), bytes, c, room, r, cause, st', rest)
    ensures r.error == NoError <==> CanRead(st) && MessageAhead(bytes, c, room)
    ensures exists fs, mid :: Explains(Plain(st), bytes, c, room, [], fs, mid, Ended(r, cause, st', rest))
    ensures forall fs, after :: CanRead(st) && AtFront(bytes, c, fs, after) && Completes(fs, room, c.max) ==>
      r == MessageOf(fs) && cause == LastFrame && st' == st && rest == after
  {
    hide Expected, MessageAhead, AtFront, Completes, Explains, MessageOf, Open;
    SuccessIffMessage(Plain(st), bytes, c, room);
    NothingOpen(room, c.max);
    var fs, mid := CallExplained(Plain(st), bytes, c, room, []);
  }

  method EitherForm(s: Stream, async: bool, room: nat)
    returns (r: Report, stop: NextResult, ghost data: seq<Fragment>, ghost mid: State)
    requires s.Valid() && !s.reading
    modifies s, s.conn.stream, s.conn.codec, s.conn.codec.src, s.conn.codec.src.data, s.conn.dst, s.conn.dst.data
    ensures s.Valid() && !s.reading && fresh(s.conn.Repr() - old(s.conn.Repr()))
    ensures CallRight(Plain(old(s.state)), old(s.conn.Pending()), SetupOf(s), room, r, stop,
                      Plain(s.state), s.conn.Pending(), data, mid)
    ensures Spent(old(s.conn.stream.readScript), stop.TransportFailed?, s.conn.stream.readScript)
    ensures WritesLeft(old(s.conn.stream.writeScript), stop.FlushFailed?, s.conn.stream.writeScript)
  {
    hide Stream.Valid, CodecConn.Valid, CodecConn.Pending, SessionOk, WriteFailures, Failures, OnCourse, InCall;
    hide CallRight, Spent, WritesLeft, Plain;
    if async {
      Begin(Plain(s.state), s.conn.Pending(), SetupOf(s), room);
      r, stop, data, mid :=
        AsyncNextMessage(s, room, Progress([], false, TYPE_NONE), Plain(s.state), s.conn.Pending(), []);
    } else {
      r, stop, data, mid := NextMessage(s, room);
    }
  }

  // A call in either form. Unless the transport fails, it succeeds exactly when a message is ahead,
  // and then gives that message and leaves what follows it.
  method OneCall(s: Stream, async: bool, room: nat) returns (a: Answer)
    requires s.Valid() && !s.reading
    modifies s, s.conn.stream, s.conn.codec, s.conn.codec.src, s.conn.codec.src.data, s.conn.dst, s.conn.dst.data
    ensures s.Valid() && !s.reading && fresh(s.conn.Repr() - old(s.conn.Repr()))
    ensures !a.cause.LostRead? && !a.cause.LostFlush? ==>
      CallEnds(old(s.state), old(s.conn.Pending()), SetupOf(s), room, a, Plain(s.state), s.conn.Pending())
    ensures Spent(old(s.conn.stream.readScript), a.cause.LostRead?, s.conn.stream.readScript)
    ensures WritesLeft(old(s.conn.stream.writeScript), a.cause.LostFlush?, s.conn.stream.writeScript)
  {
    hide Stream.Valid, CodecConn.Valid, CodecConn.Pending, SessionOk, WriteFailures, Failures, OnCourse, EndsAs, InCall;
    hide CallEnds;
    ghost var st0, bytes0 := s.state, s.conn.Pending();
    ghost var data, mid;
    var r, stop;
    r, stop, data, mid := EitherForm(s, async, room);
    a := Answer(r, CauseOf(stop));
    if !Broken(stop) { CallSaid(st0, bytes0, SetupOf(s), room, a, Plain(s.state), s.conn.Pending()); }
  }

  // A call that the transport did not break off: it is explained by frames of the peer, and it
  // succeeds exactly if they begin with a message that fits, which it then reports.
  ghost predicate CallEnds(st: State, bytes: seq<byte>, c: Setup, room: nat, a: Answer, st': State, rest: seq<byte>) {
    && EndsAs(Plain(st), bytes, c, room, a.report, a.cause, st', rest)
    && (exists fs, mid :: Explains(Plain(st), bytes, c, room, [], fs, mid, Ended(a.report, a.cause, st', rest)))
    && (a.report.error == NoError <==> CanRead(st) && MessageAhead(bytes, c, room))
    && forall fs, after :: CanRead(st) && AtFront(bytes, c, fs, after) && Completes(fs, room, c.max) ==>
         a.report == MessageOf(fs) && a.cause == LastFrame && st' == st && rest == after
  }

  lemma CallSaid(st: State, bytes: seq<byte>, c: Setup, room: nat, a: Answer, st': State, rest: seq<byte>)
    requires EndsAs(Plain(st), bytes, c, room, a.report, a.cause, st', rest)
    ensures CallEnds(st, bytes, c, room, a, st', rest)
  {
    hide EndsAs, MessageAhead, AtFront, Completes, Explains, MessageOf;
    Succeeds(st, bytes, c, room, a.report, a.cause, st', rest);
  }

  lemma CallEnded(st: State, bytes: seq<byte>, c: Setup, room: nat, a: Answer, st': State, rest: seq<byte>)
    requires CallEnds(st, bytes, c, room, a, st', rest)
    ensures EndsAs(Plain(st), bytes, c, room, a.report, a.cause, st', rest)
  {
    hide EndsAs, MessageAhead, AtFront, Completes, Explains, MessageOf;
  }

  // Without failures of the transport, however it splits what it transfers, both forms answer what
  // the peer's bytes call for; bytes that are messages are read back as those messages.
  method Run(incoming: seq<byte>, rs: seq<ReadStep>, ws: seq<WriteStep>, max: nat, validate: bool,
             validText: seq<byte> -> bool, async: bool, rooms: seq<nat>)
    returns (answers: seq<Answer>)
    requires max <= MAX_INT
    ensures |answers| == |rooms|
    ensures Failures(rs) == 0 && WriteFailures(ws) == 0 ==>
      && answers == Calls(Active, incoming, Setup(max, validate, validText), rooms).0
      && GivesMessages(incoming, Setup(max, validate, validText), rooms, answers)
  {
    hide Stream.Valid, CodecConn.Valid, CodecConn.Pending, SessionOk, WriteFailures, Failures, EndsAs, CallEnds;
    hide GivesMessages;
    ghost var c := Setup(max, validate, validText);
    var s := StreamRuns.Open(incoming, rs, ws, max, validate, validText);
    answers := [];
    ghost var calm := Failures(rs) == 0 && WriteFailures(ws) == 0;
    for i := 0 to |rooms|
      invariant fresh(s) && fresh(s.conn) && fresh(s.conn.Repr()) && s.Valid() && !s.reading
      invariant SetupOf(s) == c && |answers| == i
      invariant calm ==>
        && Failures(s.conn.stream.readScript) == 0 && WriteFailures(s.conn.stream.writeScript) == 0
        && Calls(Active, incoming, c, rooms[..i]) == (answers, Plain(s.state), s.conn.Pending())
    {
      hide Calls;
      ghost var st, rest := s.state, s.conn.Pending();
      var a := OneCall(s, async, rooms[i]);
      if calm {
        CallEnded(st, rest, c, rooms[i], a, Plain(s.state), s.conn.Pending());
        OneMoreCall(Active, incoming, c, rooms, i, answers, Plain(st), rest, a, Plain(s.state), s.conn.Pending());
      }
      answers := answers + [a];
    }
    assert rooms[..|rooms|] == rooms;
    if calm { CallsGive(incoming, c, rooms, answers); }
  }

  // NextMessage and AsyncNextMessage on streams of the same bytes give the same answers, with the
  // same errors.
  method Both(incoming: seq<byte>, rs: seq<ReadStep>, rs': seq<ReadStep>, ws: seq<WriteStep>, ws': seq<WriteStep>,
              max: nat, validate: bool, validText: seq<byte> -> bool, rooms: seq<nat>)
    returns (sync: seq<Answer>, async: seq<Answer>)
    requires max <= MAX_INT
    ensures Failures(rs) == Failures(rs') == 0 && WriteFailures(ws) == WriteFailures(ws') == 0 ==> sync == async
  {
    hide WriteFailures, Failures, Calls, GivesMessages;
    sync := Run(incoming, rs, ws, max, validate, validText, false, rooms);
    async := Run(incoming, rs', ws', max, validate, validText, true, rooms);
  }
}

/** Whole sessions: any calls on a stream, against any peer and any network. */
module StreamRuns {
  import opened Bytes
  import opened Transports
  import opened Frames
  import opened CodecConns
  import opened StreamSessions
  import opened Streams

  datatype Op =
    | Write(async: bool, opcode: nat, payload: seq<byte>)
    | WriteFrame(async: bool, fin: bool, opcode: nat, payload: seq<byte>)
    | Close(async: bool, code: nat, reason: seq<byte>)
    | Next | BeginRead | CompleteRead
    | Flush(async: bool)

  // Opcodes have four bits, close codes sixteen, and lengths are ints.
  predicate Allowed(op: Op) {
    && (op.Write? || op.WriteFrame? ==> op.opcode < 16)
    && (op.WriteFrame? ==> |op.payload| <= MAX_INT)
    && (op.Close? ==> op.code < 65536 && |op.reason| + 2 <= MAX_INT)
  }

  predicate WritesClose(op: Op) { (op.Write? || op.WriteFrame?) && op.opcode == OPCODE_CLOSE }

  // What a caller sees of one call. A read while another one is outstanding is not allowed, nor is
  // completing none; such a call is ignored.
  datatype What = Answered(r: NextResult) | Returned(w: WriteOutcome) | Waiting | Ignored
  datatype Event = Event(op: Op, from: State, what: What, to: State)

  predicate Got(e: Event) { e.what.Answered? && e.what.r.Delivered? }

  predicate Refusal(e: Event) { e.what.Answered? && e.what.r.RefusedFrame? }

  predicate GotOpcode(e: Event, opcode: int) {
    Got(e) && |e.what.r.frame| >= 2 && OpcodeOf(e.what.r.frame) == opcode
  }

  // The frame of the call was queued, whether or not it could be sent.
  predicate Queues(e: Event) { e.what.Returned? && (e.what.w.Written? || e.what.w.WriteFailed?) }

  // The session leaves Active by Close or by the peer's close frame.
  predicate Handshaken(e: Event) {
    e.from == Active && ((e.op.Close? && Queues(e)) || GotOpcode(e, OPCODE_CLOSE))
  }

  predicate PingSeen(e: Event) {
    e.from == Active && GotOpcode(e, OPCODE_PING) && PayloadOffset(e.what.r.frame) <= |e.what.r.frame|
  }

  predicate CloseSeen(e: Event) {
    e.from == Active && GotOpcode(e, OPCODE_CLOSE) && PayloadOffset(e.what.r.frame) <= |e.what.r.frame|
  }

  ghost function Refusals(es: seq<Event>): nat {
    if es == [] then 0 else Refusals(es[..|es| - 1]) + (if Refusal(es[|es| - 1]) then 1 else 0)
  }

  ghost function Pings(es: seq<Event>): seq<seq<byte>> {
    if es == [] then []
    else Pings(es[..|es| - 1]) + (if PingSeen(es[|es| - 1]) then [Payload(es[|es| - 1].what.r.frame)] else [])
  }

  ghost function Handshakes(es: seq<Event>): nat {
    if es == [] then 0 else Handshakes(es[..|es| - 1]) + (if Handshaken(es[|es| - 1]) then 1 else 0)
  }

  // Reads and writes that the transport made fail.
  ghost function Lost(es: seq<Event>): nat {
    if es == [] then 0 else Lost(es[..|es| - 1]) + (if LostRead(es[|es| - 1]) then 1 else 0)
  }

  ghost function LostWrites(es: seq<Event>): nat {
    if es == [] then 0 else LostWrites(es[..|es| - 1]) + (if LostWrite(es[|es| - 1]) then 1 else 0)
  }

  predicate LostRead(e: Event) { e.what.Answered? && e.what.r.TransportFailed? }

  predicate LostWrite(e: Event) {
    (e.what.Answered? && e.what.r.FlushFailed?) || (e.what.Returned? && e.what.w.WriteFailed?)
  }

  // An asynchronous read is outstanding.
  ghost predicate Busy(es: seq<Event>) { es != [] && BusyAfter(Busy(es[..|es| - 1]), es[|es| - 1]) }

  ghost predicate BusyAfter(busy: bool, e: Event) { e.what.Waiting? || (busy && !e.op.CompleteRead?) }

  // ---- What a call queues ----

  // The frame a call adds to the log, if any: the one it was asked for, the answer to the frame it
  // read, or the close frame for a frame it refused.
  ghost function Adds(e: Event, validText: seq<byte> -> bool): seq<Entry> {
    if Queues(e) then
      match e.op
      case Write(_, opcode, payload) => [Entry(User, true, opcode, payload)]
      case WriteFrame(_, fin, opcode, payload) => [Entry(User, fin, opcode, payload)]
      case Close(_, code, reason) => [Entry(Closing, true, OPCODE_CLOSE, EncodeClose(code, reason))]
      case _ => []
    else if Refusal(e) then [Entry(Closing, true, OPCODE_CLOSE, EncodeClose(CLOSE_PROTOCOL_ERROR, []))]
    else if PingSeen(e) then [Entry(AutoPong, true, OPCODE_PONG, Payload(e.what.r.frame))]
    else if CloseSeen(e) then
      [Entry(Closing, true, OPCODE_CLOSE, CloseReply(Payload(e.what.r.frame), validText))]
    else []
  }

  // What a delivered frame is answered with, by its first byte: a ping with a pong that repeats its
  // payload, a close frame with a close frame, and only while the session is Active.
  lemma AnsweredWith(e: Event, f: seq<byte>, validText: seq<byte> -> bool)
    requires e.what == Answered(Delivered(f)) && WholeFrame(f)
    ensures Adds(e, validText) ==
      if e.from == Active && f[0] % 16 == 9 then [Entry(AutoPong, true, 10, Payload(f))]
      else if e.from == Active && f[0] % 16 == 8 then [Entry(Closing, true, 8, CloseReply(Payload(f), validText))]
      else []
  {
    HeaderBits(f);
    hide OpcodeOf, CloseReply, PayloadLength;
  }

  ghost function AllAdded(es: seq<Event>, validText: seq<byte> -> bool): seq<Entry> {
    if es == [] then [] else AllAdded(es[..|es| - 1], validText) + Adds(es[|es| - 1], validText)
  }

  ghost function Entries(log: seq<Queued>): (r: seq<Entry>)
    ensures |r| == |log|
  {
    if log == [] then [] else Entries(log[..|log| - 1]) + [EntryOf(log[|log| - 1])]
  }

  // A read that got past its flush. What it reads may be answered, but not before the next flush.
  predicate PastFlush(e: Event) {
    e.what.Waiting? || (e.what.Answered? && !e.op.CompleteRead? && !e.what.r.FlushFailed?)
  }

  predicate Reported(e: Event) { e.what.Returned? && e.what.w.Written? }

  // How many frames of the log have been flushed: all of them after a call that returned Written, those
  // queued by earlier calls after a read that got past its flush. Other calls flush nothing.
  ghost function Flushed(es: seq<Event>, validText: seq<byte> -> bool): nat {
    if es == [] then 0
    else
      var (front, e) := (es[..|es| - 1], es[|es| - 1]);
      GoneAfter(e, Flushed(front, validText), |AllAdded(front, validText)|, |AllAdded(es, validText)|)
  }

  // Of a log that grows from `before` to `after` frames.
  function GoneAfter(e: Event, gone: int, before: nat, after: nat): (r: int)
    ensures gone >= 0 ==> r >= 0
  {
    if Reported(e) then after else if PastFlush(e) then before else gone
  }

  lemma EntriesMore(log: seq<Queued>, log': seq<Queued>, e: Entry)
    requires Appended(log, log', e)
    ensures Entries(log') == Entries(log) + [e] && log <= log'
  {}

  // Every close frame in the log comes from the closing handshake or from a refusal.
  ghost predicate Ours(log: seq<Queued>) {
    forall i :: 0 <= i < |log| && log[i].opcode == OPCODE_CLOSE ==> log[i].kind.Closing?
  }

  lemma {:induction false} EntryAt(log: seq<Queued>, i: nat)
    requires i < |log|
    ensures Entries(log)[i] == EntryOf(log[i])
  {
    if i < |log| - 1 { EntryAt(log[..|log| - 1], i); }
  }

  // Unless a user writes close frames, all of them are ours.
  lemma {:induction false} NoUserCloses(es: seq<Event>, validText: seq<byte> -> bool, i: nat)
    requires i < |AllAdded(es, validText)| && forall j :: 0 <= j < |es| ==> !WritesClose(es[j].op)
    ensures AllAdded(es, validText)[i].opcode == OPCODE_CLOSE ==> AllAdded(es, validText)[i].kind.Closing?
  {
    hide EncodeClose, CloseReply, PingSeen, CloseSeen, Queues, Refusal;
    var n := |es| - 1;
    if i < |AllAdded(es[..n], validText)| {
      NoUserCloses(es[..n], validText, i);
    } else {
      assert AllAdded(es, validText)[i] == Adds(es[n], validText)[i - |AllAdded(es[..n], validText)|];
    }
  }

  lemma AllOurs(log: seq<Queued>, es: seq<Event>, validText: seq<byte> -> bool)
    requires Entries(log) == AllAdded(es, validText) && forall j :: 0 <= j < |es| ==> !WritesClose(es[j].op)
    ensures Ours(log)
  {
    hide Entries, AllAdded, WritesClose;
    forall i | 0 <= i < |log| && log[i].opcode == OPCODE_CLOSE ensures log[i].kind.Closing? {
      EntryAt(log, i);
      NoUserCloses(es, validText, i);
    }
  }

  // ---- One call ----

  // The state a read leaves, by its result.
  function ReadTo(from: State, r: NextResult): State {
    match r
    case Delivered(f) =>
      if |f| >= 2 && OpcodeOf(f) == OPCODE_CLOSE then if from == Active then ClosedByPeer else CloseAcked else from
    case RefusedFrame(_, _) => ClosedByUs
    case PeerGone(_) => Terminated
    case _ => from
  }

  // What a call may answer, by the state it was made in and whether a read is outstanding. The
  // model leaves open only what the transport and the pool of frames decide.
  ghost predicate Answers(e: Event, busy: bool, max: nat) {
    match e.op
    case Write(_, _, payload) =>
      && e.what.Returned? && e.to == e.from
      && (if |payload| > max then e.what.w.MessageTooBig? else WriteAnswers(e.what.w, e.from, payload))
    case WriteFrame(_, _, _, payload) => e.what.Returned? && e.to == e.from && WriteAnswers(e.what.w, e.from, payload)
    case Close(_, _, reason) => e.what.Returned? && CloseAnswers(e.what.w, e.from, reason, e.to)
    case Next =>
      if busy then e.what.Ignored? && e.to == e.from
      else e.what.Answered? && e.to == ReadTo(e.from, e.what.r)
    case BeginRead =>
      if busy then e.what.Ignored? && e.to == e.from
      else if e.what.Waiting? then CanRead(e.from) && e.to == e.from
      else e.what.Answered? && (e.what.r.FlushFailed? || e.what.r.EndOfStream?) && e.to == Terminated
    case CompleteRead =>
      if !busy then e.what.Ignored? && e.to == e.from
      else
        && e.what.Answered? && !e.what.r.FlushFailed? && !e.what.r.EndOfStream?
        && e.to == ReadTo(e.from, e.what.r)
    case Flush(_) => e.what.Returned? && (e.what.w.Written? || e.what.w.WriteFailed?) && e.to == e.from
  }

  // A frame is queued in Active, unless it is too long for a frame of the pool.
  predicate WriteAnswers(w: WriteOutcome, from: State, payload: seq<byte>) {
    if from != Active then w.Cancelled?
    else w.Written? || w.WriteFailed? || (w.Panicked? && |payload| > 65535)
  }

  predicate CloseAnswers(w: WriteOutcome, from: State, reason: seq<byte>, to: State) {
    match from
    case Active => to == ClosedByUs && (w.Written? || w.WriteFailed? || (w.Panicked? && |reason| > 65533))
    case ClosedByUs => w.Cancelled? && to == from
    case Handshake => w.Cancelled? && to == from
    case _ => w.Closed? && to == from
  }

  // The state moves forward only, and a close is acknowledged only after one was sent.
  ghost predicate Allows(e: Event) {
    && Forward(e.from, e.to)
    && (e.to == CloseAcked && e.from != CloseAcked ==> e.from == ClosedByUs)
    && (e.what.Answered? && !e.what.r.FlushFailed? && !e.what.r.EndOfStream? ==> CanRead(e.from))
    && (e.what.Answered? && e.what.r.EndOfStream? ==> !CanRead(e.from))
  }

  ghost predicate Follows(s: Session, s': Session, e: Event, validText: seq<byte> -> bool) {
    && e.from == s.state && e.to == s'.state && Allows(e)
    && s'.reading == BusyAfter(s.reading, e)
    && Entries(s'.log) == Entries(s.log) + Adds(e, validText) && s.log <= s'.log
    && s'.rejected == s.rejected + (if Refusal(e) then 1 else 0)
    && s'.pings == s.pings + (if PingSeen(e) then [Payload(e.what.r.frame)] else [])
    && s'.handshake == (s.handshake || Handshaken(e))
    && (Handshaken(e) ==> Rank(s'.state) > 1)
  }

  // A frame is handed over exactly if it is acceptable, and refused with its error otherwise.
  ghost predicate Judged(e: Event, checkText: bool, validText: seq<byte> -> bool) {
    e.what.Answered? ==>
      match e.what.r
      case Delivered(f) => WholeFrame(f) && Acceptable(f, checkText, validText)
      case RefusedFrame(f, error) => WholeFrame(f) && Judge(f, checkText, validText) == Refused(error)
      case PeerGone(f) => AbnormalClose(f)
      case _ => true
  }

  // Frames come from the peer's bytes, and so do the reasons for getting none.
  ghost predicate Moves(pending: seq<byte>, max: nat, e: Event, after: seq<byte>) {
    if e.what.Answered? then Takes(pending, max, e.what.r, after) else after == pending
  }

  // A read that got as far as the connection.
  lemma ReadFollows(op: Op, s: Session, s': Session, r: NextResult, checkText: bool, validText: seq<byte> -> bool)
    requires CanRead(s.state) && !s'.reading && (s.reading ==> op.CompleteRead?) && !r.EndOfStream? && !r.FlushFailed?
    requires ReadEffect(s.(reading := false), s', r, checkText, validText)
    ensures var e := Event(op, s.state, Answered(r), s'.state);
      && Follows(s, s', e, validText) && Judged(e, checkText, validText) && s'.state == ReadTo(s.state, r)
  {
    hide Appended, CloseReply, HasReservedBits, IsMasked, PayloadLength, IsFIN, EncodeClose, Judge, AbnormalClose;
    hide Entries;
    if r.Delivered? {
      JudgeIff(r.frame, checkText, validText);
      if IsControl(OpcodeOf(r.frame)) { ControlAdds(op, s.(reading := false), s', r.frame, validText); }
    } else if r.RefusedFrame? {
      EntriesMore(s.log, s'.log, Entry(Closing, true, OPCODE_CLOSE, EncodeClose(CLOSE_PROTOCOL_ERROR, [])));
    }
  }

  lemma ControlAdds(op: Op, s: Session, s': Session, f: seq<byte>, validText: seq<byte> -> bool)
    requires WholeFrame(f) && ControlEffect(s, s', f, validText)
    ensures Entries(s'.log) == Entries(s.log) + Adds(Event(op, s.state, Answered(Delivered(f)), s'.state), validText)
    ensures s.log <= s'.log
  {
    hide Appended, CloseReply, Entries;
    if OpcodeOf(f) == OPCODE_PING && s.state == Active {
      EntriesMore(s.log, s'.log, Entry(AutoPong, true, OPCODE_PONG, Payload(f)));
    } else if OpcodeOf(f) == OPCODE_CLOSE && s.state == Active {
      EntriesMore(s.log, s'.log, Entry(Closing, true, OPCODE_CLOSE, CloseReply(Payload(f), validText)));
    }
  }

  // A call that leaves the log alone.
  lemma StaysFollows(s: Session, s': Session, e: Event, validText: seq<byte> -> bool)
    requires s' == s.(state := e.to, reading := BusyAfter(s.reading, e)) && e.from == s.state
    requires e.to == s.state || e.to == Terminated || (s.state == Active && e.to == ClosedByUs)
    requires match e.what
      case Answered(r) => r.FlushFailed? || (r.EndOfStream? && !CanRead(s.state))
      case Returned(w) => Queues(e) ==> e.op.Flush?
      case _ => true
    ensures Follows(s, s', e, validText)
  {
    hide Entries;
  }

  // A call that queues the frame it was asked for.
  lemma QueuesFollows(s: Session, s': Session, e: Event, q: Entry, validText: seq<byte> -> bool)
    requires Appended(s.log, s'.log, q) && Queues(e) && !e.op.Flush? && !e.op.CompleteRead? && Adds(e, validText) == [q]
    requires s' == s.(state := e.to, log := s'.log, handshake := s.handshake || e.op.Close?)
    requires s.state == Active == e.from && e.to == if e.op.Close? then ClosedByUs else Active
    ensures Follows(s, s', e, validText)
  {
    hide Entries, Appended;
    EntriesMore(s.log, s'.log, q);
  }

  method DoWrite(s: Stream, op: Op) returns (e: Event)
    requires s.Valid() && (op.Write? || op.WriteFrame?) && Allowed(op)
    modifies s, s.conn.stream, s.conn.dst, s.conn.dst.data
    ensures s.Valid() && fresh(s.conn.Repr() - old(s.conn.Repr()))
    ensures Follows(old(s.Current()), s.Current(), e, s.validUTF8)
    ensures e.op == op && e.what.Returned? && Answers(e, old(s.reading), s.conn.codec.max)
    ensures s.conn.Pending() == old(s.conn.Pending()) && (old(s.Exact()) ==> s.Exact())
    ensures s.conn.stream.readScript == old(s.conn.stream.readScript)
    ensures WritesSpent(old(s.conn.stream.writeScript), LostWrite(e), s.conn.stream.writeScript)
    ensures LostWrite(e) || s.Gone() == GoneAfter(e, old(s.Gone()), |old(s.log)|, |s.log|)
  {
    hide SessionOk, Appended, Stream.Exact, WriteFailures, Stream.Valid, CodecConn.Valid, CodecConn.Pending, Follows;
    var w;
    if op.Write? {
      w := s.Write(op.async, op.opcode, op.payload);
    } else {
      w := s.WriteFrame(op.async, op.fin, op.opcode, op.payload);
    }
    e := Event(op, s.state, Returned(w), s.state);
    if Queues(e) {
      QueuesFollows(old(s.Current()), s.Current(), e, Adds(e, s.validUTF8)[0], s.validUTF8);
    } else {
      StaysFollows(old(s.Current()), s.Current(), e, s.validUTF8);
    }
  }

  method DoClose(s: Stream, op: Op) returns (e: Event)
    requires s.Valid() && op.Close? && Allowed(op)
    modifies s, s.conn.stream, s.conn.dst, s.conn.dst.data
    ensures s.Valid() && fresh(s.conn.Repr() - old(s.conn.Repr()))
    ensures Follows(old(s.Current()), s.Current(), e, s.validUTF8)
    ensures e.op == op && e.what.Returned? && Answers(e, old(s.reading), s.conn.codec.max)
    ensures s.conn.Pending() == old(s.conn.Pending()) && (old(s.Exact()) ==> s.Exact())
    ensures s.conn.stream.readScript == old(s.conn.stream.readScript)
    ensures WritesSpent(old(s.conn.stream.writeScript), LostWrite(e), s.conn.stream.writeScript)
    ensures LostWrite(e) || s.Gone() == GoneAfter(e, old(s.Gone()), |old(s.log)|, |s.log|)
  {
    hide SessionOk, Appended, Stream.Exact, WriteFailures, EncodeClose, Stream.Valid, CodecConn.Valid, Follows;
    hide CodecConn.Pending;
    var from := s.state;
    var w := s.Close(op.async, op.code, op.reason);
    e := Event(op, from, Returned(w), s.state);
    if Queues(e) {
      QueuesFollows(old(s.Current()), s.Current(), e, Adds(e, s.validUTF8)[0], s.validUTF8);
    } else {
      StaysFollows(old(s.Current()), s.Current(), e, s.validUTF8);
    }
  }

  method DoNext(s: Stream) returns (e: Event)
    requires s.Valid() && !s.reading
    modifies s, s.conn.stream, s.conn.codec, s.conn.codec.src, s.conn.codec.src.data, s.conn.dst, s.conn.dst.data
    ensures s.Valid() && fresh(s.conn.Repr() - old(s.conn.Repr()))
    ensures Follows(old(s.Current()), s.Current(), e, s.validUTF8) && Judged(e, s.validateUTF8, s.validUTF8)
    ensures e.op == Next && Answers(e, false, s.conn.codec.max)
    ensures Moves(old(s.conn.Pending()), s.conn.codec.max, e, s.conn.Pending()) && (old(s.Exact()) ==> s.Exact())
    ensures Spent(old(s.conn.stream.readScript), LostRead(e), s.conn.stream.readScript)
    ensures WritesSpent(old(s.conn.stream.writeScript), LostWrite(e), s.conn.stream.writeScript)
    ensures LostWrite(e) || s.Gone() == GoneAfter(e, old(s.Gone()), |old(s.log)|, |s.log|)
  {
    hide SessionOk, ReadEffect, ReadsAs, Follows, Stream.Exact, WriteFailures, Spent, Takes, Judge;
    hide Stream.Valid, CodecConn.Valid, CodecConn.Pending;
    var from := s.state;
    var r := s.NextFrame();
    e := Event(Next, from, Answered(r), s.state);
    if r.FlushFailed? || r.EndOfStream? {
      StaysFollows(old(s.Current()), s.Current(), e, s.validUTF8);
    } else {
      ReadFollows(Next, old(s.Current()), s.Current(), r, s.validateUTF8, s.validUTF8);
    }
  }

  method DoBeginRead(s: Stream) returns (e: Event)
    requires s.Valid() && !s.reading
    modifies s, s.conn.stream, s.conn.dst, s.conn.dst.data
    ensures s.Valid() && fresh(s.conn.Repr() - old(s.conn.Repr()))
    ensures Follows(old(s.Current()), s.Current(), e, s.validUTF8) && Judged(e, s.validateUTF8, s.validUTF8)
    ensures e.op == BeginRead && Answers(e, false, s.conn.codec.max) && !LostRead(e)
    ensures Moves(old(s.conn.Pending()), s.conn.codec.max, e, s.conn.Pending()) && (old(s.Exact()) ==> s.Exact())
    ensures s.conn.stream.readScript == old(s.conn.stream.readScript)
    ensures WritesSpent(old(s.conn.stream.writeScript), LostWrite(e), s.conn.stream.writeScript)
    ensures LostWrite(e) || s.Gone() == GoneAfter(e, old(s.Gone()), |old(s.log)|, |s.log|)
  {
    hide SessionOk, Follows, Stream.Exact, WriteFailures, Judge, Stream.Valid, CodecConn.Valid, CodecConn.Pending;
    var from := s.state;
    var r, waiting := s.BeginRead();
    e := Event(BeginRead, from, if waiting then Waiting else Answered(r), s.state);
    StaysFollows(old(s.Current()), s.Current(), e, s.validUTF8);
  }

  method DoCompleteRead(s: Stream) returns (e: Event)
    requires s.Valid() && s.reading
    modifies s, s.conn.stream, s.conn.codec, s.conn.codec.src, s.conn.codec.src.data
    ensures s.Valid() && fresh(s.conn.Repr() - old(s.conn.Repr()))
    ensures Follows(old(s.Current()), s.Current(), e, s.validUTF8) && Judged(e, s.validateUTF8, s.validUTF8)
    ensures e.op == CompleteRead && Answers(e, true, s.conn.codec.max) && !LostWrite(e)
    ensures Moves(old(s.conn.Pending()), s.conn.codec.max, e, s.conn.Pending()) && (old(s.Exact()) ==> s.Exact())
    ensures Spent(old(s.conn.stream.readScript), LostRead(e), s.conn.stream.readScript)
    ensures s.conn.stream.writeScript == old(s.conn.stream.writeScript)
    ensures LostWrite(e) || s.Gone() == GoneAfter(e, old(s.Gone()), |old(s.log)|, |s.log|)
  {
    hide SessionOk, ReadEffect, ReadsAs, Follows, Stream.Exact, WriteFailures, Spent, Takes, Judge, Judged;
    hide Stream.Valid, CodecConn.Valid, CodecConn.Pending;
    var from := s.state;
    var r := s.CompleteRead();
    e := Event(CompleteRead, from, Answered(r), s.state);
    ReadFollows(CompleteRead, old(s.Current()), s.Current(), r, s.validateUTF8, s.validUTF8);
  }

  method DoFlush(s: Stream, async: bool) returns (e: Event)
    requires s.Valid()
    modifies s, s.conn.stream, s.conn.dst, s.conn.dst.data
    ensures s.Valid() && fresh(s.conn.Repr() - old(s.conn.Repr()))
    ensures Follows(old(s.Current()), s.Current(), e, s.validUTF8)
    ensures e.op == Flush(async) && e.what.Returned? && Answers(e, old(s.reading), s.conn.codec.max)
    ensures s.conn.Pending() == old(s.conn.Pending()) && (old(s.Exact()) ==> s.Exact())
    ensures s.conn.stream.readScript == old(s.conn.stream.readScript)
    ensures WritesSpent(old(s.conn.stream.writeScript), LostWrite(e), s.conn.stream.writeScript)
    ensures LostWrite(e) || s.Gone() == GoneAfter(e, old(s.Gone()), |old(s.log)|, |s.log|)
  {
    hide SessionOk, Stream.Exact, WriteFailures, Stream.Valid, CodecConn.Valid, CodecConn.Pending, Follows;
    var failed := s.FlushAs(async);
    e := Event(Flush(async), s.state, Returned(if failed then WriteFailed else Written), s.state);
    StaysFollows(old(s.Current()), s.Current(), e, s.validUTF8);
  }

  predicate Ignores(op: Op, busy: bool) {
    match op
    case Next => busy
    case BeginRead => busy
    case CompleteRead => !busy
    case _ => false
  }

  method Do(s: Stream, op: Op) returns (e: Event)
    requires s.Valid() && Allowed(op)
    modifies s, s.conn.stream, s.conn.codec, s.conn.codec.src, s.conn.codec.src.data, s.conn.dst, s.conn.dst.data
    ensures s.Valid() && fresh(s.conn.Repr() - old(s.conn.Repr()))
    ensures Follows(old(s.Current()), s.Current(), e, s.validUTF8) && Judged(e, s.validateUTF8, s.validUTF8)
    ensures e.op == op && Answers(e, old(s.reading), s.conn.codec.max)
    ensures Moves(old(s.conn.Pending()), s.conn.codec.max, e, s.conn.Pending()) && (old(s.Exact()) ==> s.Exact())
    ensures Spent(old(s.conn.stream.readScript), LostRead(e), s.conn.stream.readScript)
    ensures WritesSpent(old(s.conn.stream.writeScript), LostWrite(e), s.conn.stream.writeScript)
    ensures LostWrite(e) || s.Gone() == GoneAfter(e, old(s.Gone()), |old(s.log)|, |s.log|)
  {
    hide Follows, Stream.Valid, CodecConn.Valid, Stream.Exact, SessionOk, Takes, WriteFailures, Failures;
    hide CodecConn.Pending;
    if Ignores(op, s.reading) {
      e := Event(op, s.state, Ignored, s.state);
      StaysFollows(s.Current(), s.Current(), e, s.validUTF8);
      return;
    }
    hide Answers;
    match op
    case Write(_, _, _) => e := DoWrite(s, op);
    case WriteFrame(_, _, _, _) => e := DoWrite(s, op);
    case Close(_, _, _) => e := DoClose(s, op);
    case Next => e := DoNext(s);
    case BeginRead => e := DoBeginRead(s);
    case CompleteRead => e := DoCompleteRead(s);
    case Flush(async) => e := DoFlush(s, async);
  }

  // ---- Sessions ----

  // The frames handed over or refused, in order, as results of reading.
  ghost function Handed(es: seq<Event>): seq<ReadNextResult> {
    if es == [] then []
    else
      var e := es[|es| - 1];
      Handed(es[..|es| - 1]) + (if Got(e) || Refusal(e) then [Item(e.what.r.frame)] else [])
  }

  // The frames are those that parsing the peer's bytes from the start gives.
  ghost predicate FromPeer(bytes: seq<byte>, max: nat, es: seq<Event>, rest: seq<byte>) {
    ReadMany(bytes, max, |Handed(es)|) == (Handed(es), rest)
  }

  lemma TakesNothing(pending: seq<byte>, max: nat, e: Event, after: seq<byte>)
    requires Moves(pending, max, e, after) && !Got(e) && !Refusal(e)
    ensures after == pending
  {}

  lemma OneMoreHanded(bytes: seq<byte>, max: nat, es: seq<Event>, pending: seq<byte>, e: Event, after: seq<byte>)
    requires FromPeer(bytes, max, es, pending) && Moves(pending, max, e, after)
    ensures FromPeer(bytes, max, es + [e], after)
  {
    hide ReadsAs, ReadMany;
    assert (es + [e])[..|es|] == es;
    if Got(e) || Refusal(e) {
      ReadManyStep(bytes, max, |Handed(es)|, pending, Item(e.what.r.frame), after, Handed(es));
    } else {
      assert Handed(es + [e]) == Handed(es);
      TakesNothing(pending, max, e, after);
    }
  }

  // The events so far tell the whole story of the session.
  ghost predicate Told(s: Session, es: seq<Event>, validText: seq<byte> -> bool) {
    && SessionOk(s) && s.reading == Busy(es) && Entries(s.log) == AllAdded(es, validText)
    && s.rejected == Refusals(es) && s.pings == Pings(es)
    && Handshakes(es) == (if s.handshake then 1 else 0)
    && (s.handshake ==> Rank(s.state) > 1)
    && s.state == Last(es)
    && Chained(es)
  }

  ghost function Last(es: seq<Event>): State { if es == [] then Active else es[|es| - 1].to }

  // Each call starts in the state the one before it left, the first in Active.
  ghost predicate Chained(es: seq<Event>) {
    forall i :: 0 <= i < |es| ==> Allows(es[i]) && es[i].from == Last(es[..i])
  }

  lemma StoryGrows(es: seq<Event>, e: Event)
    ensures Lost(es + [e]) == Lost(es) + (if LostRead(e) then 1 else 0)
    ensures LostWrites(es + [e]) == LostWrites(es) + (if LostWrite(e) then 1 else 0)
    ensures Refusals(es + [e]) == Refusals(es) + (if Refusal(e) then 1 else 0)
    ensures Pings(es + [e]) == Pings(es) + (if PingSeen(e) then [Payload(e.what.r.frame)] else [])
    ensures Handshakes(es + [e]) == Handshakes(es) + (if Handshaken(e) then 1 else 0)
    ensures Busy(es + [e]) == BusyAfter(Busy(es), e)
  {
    hide PingSeen, Handshaken, Refusal, LostRead, LostWrite, BusyAfter;
    assert (es + [e])[..|es|] == es;
  }

  lemma AddedGrows(es: seq<Event>, e: Event, validText: seq<byte> -> bool)
    ensures AllAdded(es + [e], validText) == AllAdded(es, validText) + Adds(e, validText)
  {
    hide Adds;
    assert (es + [e])[..|es|] == es;
  }

  lemma ChainGrows(es: seq<Event>, e: Event)
    requires Chained(es) && Allows(e) && e.from == Last(es)
    ensures Chained(es + [e]) && Last(es + [e]) == e.to
  {
    hide Allows, Last;
    var t := es + [e];
    forall i | 0 <= i < |t| ensures Allows(t[i]) && t[i].from == Last(t[..i]) {
      assert t[..i] == es[..i];
      assert i < |es| ==> t[i] == es[i];
      assert es[..|es|] == es;
    }
    LastOf(es, e);
  }

  lemma LastOf(es: seq<Event>, e: Event)
    ensures Last(es + [e]) == e.to
  {}

  lemma OneMoreEvent(s: Session, s': Session, es: seq<Event>, e: Event, validText: seq<byte> -> bool)
    requires Told(s, es, validText) && Follows(s, s', e, validText) && SessionOk(s')
    ensures Told(s', es + [e], validText)
  {
    hide SessionOk, Refusals, Pings, Handshakes, Lost, PingSeen, Refusal, LostRead, Adds, AllAdded, Entries;
    hide Busy, BusyAfter, Allows, Chained, Last, Handshaken, Rank;
    StoryGrows(es, e);
    AddedGrows(es, e, validText);
    ChainGrows(es, e);
    StillForward(e);
  }

  lemma StillForward(e: Event)
    requires Allows(e)
    ensures Rank(e.to) >= Rank(e.from) && (Handshaken(e) ==> Rank(e.from) == 1)
  {}

  lemma EndOfSession(s: Session, es: seq<Event>, validText: seq<byte> -> bool)
    requires Told(s, es, validText)
    ensures Chained(es) && Entries(s.log) == AllAdded(es, validText)
    ensures ClosesLast(s.log) && PongPayloads(s.log) == Pings(es)
    ensures Handshakes(es) <= 1 && CloseCount(s.log) == Handshakes(es) + Refusals(es)
  {}

  // What was pending before and after each call: every call explains its step.
  ghost predicate Explained(incoming: seq<byte>, max: nat, es: seq<Event>, rests: seq<seq<byte>>) {
    && |rests| == |es| + 1 && rests[0] == incoming
    && forall i :: 0 <= i < |es| ==> Moves(rests[i], max, es[i], rests[i + 1])
  }

  lemma ExplainedMore(incoming: seq<byte>, max: nat, es: seq<Event>, rests: seq<seq<byte>>, e: Event, rest: seq<byte>)
    requires Explained(incoming, max, es, rests) && Moves(rests[|es|], max, e, rest)
    ensures Explained(incoming, max, es + [e], rests + [rest])
  {
    hide Moves;
    var es', rests' := es + [e], rests + [rest];
    forall i | 0 <= i < |es'| ensures Moves(rests'[i], max, es'[i], rests'[i + 1]) {
      if i < |es| { assert rests'[i] == rests[i] && es'[i] == es[i] && rests'[i + 1] == rests[i + 1]; }
    }
  }

  // So the frames seen are the frames of the peer, in order.
  lemma {:induction false} ExplainedFrames(incoming: seq<byte>, max: nat, es: seq<Event>, rests: seq<seq<byte>>)
    requires Explained(incoming, max, es, rests)
    ensures FromPeer(incoming, max, es, rests[|es|])
    decreases |es|
  {
    hide FromPeer, Moves;
    if es == [] {
      NothingHanded(incoming, max);
    } else {
      var n := |es| - 1;
      assert Explained(incoming, max, es[..n], rests[..n + 1]);
      ExplainedFrames(incoming, max, es[..n], rests[..n + 1]);
      OneMoreHanded(incoming, max, es[..n], rests[n], es[n], rests[n + 1]);
      assert es[..n] + [es[n]] == es;
    }
  }

  lemma NothingHanded(incoming: seq<byte>, max: nat)
    ensures FromPeer(incoming, max, [], incoming)
  {}

  method Open(incoming: seq<byte>, rs: seq<ReadStep>, ws: seq<WriteStep>, max: nat, validate: bool,
              validText: seq<byte> -> bool)
    returns (s: Stream)
    requires max <= MAX_INT
    ensures fresh(s) && fresh(s.conn) && fresh(s.conn.Repr()) && s.Valid()
    ensures s.log == [] && s.pendingFrames == [] && Told(s.Current(), [], validText)
    ensures s.validateUTF8 == validate && s.validUTF8 == validText && s.conn.codec.max == max && !s.reading
    ensures s.conn.Pending() == incoming && s.conn.stream.readScript == rs && s.conn.stream.writeScript == ws
    ensures s.state == Active && (WriteFailures(ws) == 0 ==> s.Exact())
  {
    hide SessionOk, Stream.Valid, CodecConn.Valid, Stream.Exact, WriteFailures, CodecConn.Pending, Told;
    var t := new Transport(incoming, rs, ws);
    var c := new CodecConn(t, max);
    s := new Stream(c, validate, validText);
    ToldAtStart(validText);
  }

  lemma ToldAtStart(validText: seq<byte> -> bool)
    ensures Told(Session(Active, false, [], [], 0, false), [], validText)
  {}

  lemma SameLength(s: Session, es: seq<Event>, validText: seq<byte> -> bool)
    requires Told(s, es, validText)
    ensures |s.log| == |AllAdded(es, validText)| && s.reading == Busy(es)
  {
    hide SessionOk, Chained;
  }

  lemma LogGrows(s: Session, s': Session, e: Event, validText: seq<byte> -> bool)
    requires Follows(s, s', e, validText)
    ensures s.log <= s'.log
  {}

  lemma FlushedMore(es: seq<Event>, e: Event, validText: seq<byte> -> bool)
    ensures Flushed(es + [e], validText) ==
      GoneAfter(e, Flushed(es, validText), |AllAdded(es, validText)|, |AllAdded(es + [e], validText)|)
  {
    hide AllAdded, GoneAfter;
    assert (es + [e])[..|es|] == es;
  }

  // `sents` is what had been sent before each call and at the end: the first frames of the log, as many
  // as were flushed.
  ghost predicate SentOnTime(log: seq<Queued>, es: seq<Event>, sents: seq<seq<byte>>, validText: seq<byte> -> bool) {
    && AllOk(log) && |sents| == |es| + 1
    && forall i :: 0 <= i <= |es| ==>
         var n := Flushed(es[..i], validText);
         n <= |log| && sents[i] == Concat(EncodedAll(log[..n]))
  }

  lemma OnTimeMore(log: seq<Queued>, es: seq<Event>, sents: seq<seq<byte>>, validText: seq<byte> -> bool,
                   log': seq<Queued>, e: Event, sent: seq<byte>)
    requires SentOnTime(log, es, sents, validText) && log <= log' && AllOk(log')
    requires var n := Flushed(es + [e], validText); n <= |log'| && sent == Concat(EncodedAll(log'[..n]))
    ensures SentOnTime(log', es + [e], sents + [sent], validText)
  {
    hide QueuedOk, EncodedAll, Concat, Flushed;
    var (t, u) := (es + [e], sents + [sent]);
    forall i | 0 <= i <= |t|
      ensures var n := Flushed(t[..i], validText); n <= |log'| && u[i] == Concat(EncodedAll(log'[..n]))
    {
      if i <= |es| {
        assert t[..i] == es[..i] && u[i] == sents[i];
        assert log[..Flushed(es[..i], validText)] == log'[..Flushed(es[..i], validText)];
      } else {
        assert t[..i] == t && u[i] == sent;
      }
    }
  }

  // Without failing writes the frames that left the queue are what was sent.
  lemma SentNow(s: Stream)
    requires s.Valid() && s.Exact()
    ensures AllOk(s.log) && 0 <= s.Gone() <= |s.log|
    ensures s.conn.stream.sent == Concat(EncodedAll(s.log[..s.Gone()]))
  {
    hide Stream.Valid, Stream.Exact, CodecConn.Valid, SessionOk, Accounts, Concat, EncodedAll, QueuedOk;
    EndOfBytes(s);
    SentIsPrefix(s.conn.stream.sent, s.pendingFrames, s.log);
  }

  // A call that returned Written has sent every frame queued so far, its own among them; a read that got
  // past its flush has sent every frame queued before it; no other call sends anything.
  lemma WrittenIsSent(log: seq<Queued>, es: seq<Event>, sents: seq<seq<byte>>, validText: seq<byte> -> bool, i: nat)
    requires SentOnTime(log, es, sents, validText) && i < |es|
    ensures es[i].what == Returned(Written) ==>
      var n := |AllAdded(es[..i + 1], validText)|;
      n <= |log| && sents[i + 1] == Concat(EncodedAll(log[..n]))
    ensures es[i].what != Returned(Written) && PastFlush(es[i]) ==>
      var n := |AllAdded(es[..i], validText)|;
      n <= |log| && sents[i + 1] == Concat(EncodedAll(log[..n]))
    ensures es[i].what != Returned(Written) && !PastFlush(es[i]) ==> sents[i + 1] == sents[i]
  {
    hide AllAdded, EncodedAll, Concat, AllOk, PastFlush;
    assert es[..i + 1][..i] == es[..i] && es[..i + 1][i] == es[i];
    assert Flushed(es[..i + 1], validText) <= |log| && Flushed(es[..i], validText) <= |log|;
  }

  lemma OnTimeNext(s: Stream, log: seq<Queued>, es: seq<Event>, sents: seq<seq<byte>>, e: Event)
    requires s.Valid() && s.Exact() && log <= s.log && SentOnTime(log, es, sents, s.validUTF8)
    requires s.Gone() == Flushed(es + [e], s.validUTF8)
    ensures SentOnTime(s.log, es + [e], sents + [s.conn.stream.sent], s.validUTF8)
  {
    hide Stream.Valid, Stream.Exact, SentOnTime, Flushed, EncodedAll, Concat;
    SentNow(s);
    OnTimeMore(log, es, sents, s.validUTF8, s.log, e, s.conn.stream.sent);
  }

  // One call in a session.
  method Advance(s: Stream, op: Op, es: seq<Event>) returns (e: Event)
    requires s.Valid() && Allowed(op) && Told(s.Current(), es, s.validUTF8)
    modifies s, s.conn.stream, s.conn.codec, s.conn.codec.src, s.conn.codec.src.data, s.conn.dst, s.conn.dst.data
    ensures s.Valid() && fresh(s.conn.Repr() - old(s.conn.Repr())) && Told(s.Current(), es + [e], s.validUTF8)
    ensures e.op == op && Answers(e, Busy(es), s.conn.codec.max) && Judged(e, s.validateUTF8, s.validUTF8)
    ensures Moves(old(s.conn.Pending()), s.conn.codec.max, e, s.conn.Pending()) && (old(s.Exact()) ==> s.Exact())
    ensures Lost(es + [e]) + Failures(s.conn.stream.readScript) == Lost(es) + Failures(old(s.conn.stream.readScript))
    ensures LostWrites(es + [e]) + WriteFailures(s.conn.stream.writeScript) ==
            LostWrites(es) + WriteFailures(old(s.conn.stream.writeScript))
    ensures old(s.log) <= s.log && LostWrites(es) <= LostWrites(es + [e])
    ensures old(s.Gone()) == Flushed(es, s.validUTF8) && LostWrites(es + [e]) == LostWrites(es) ==>
      s.Gone() == Flushed(es + [e], s.validUTF8)
  {
    hide Stream.Valid, CodecConn.Valid, Allowed, Follows, Judged, Moves, Stream.Exact, CodecConn.Pending, Answers;
    hide SessionOk, WriteFailures, Failures, Lost, LostWrites, Pings, Handshakes, Refusals, PingSeen, Handshaken;
    hide Busy, Entries, AllAdded, Chained, Flushed, GoneAfter, LostWrite, Told;
    SameLength(s.Current(), es, s.validUTF8);
    e := Do(s, op);
    LogGrows(old(s.Current()), s.Current(), e, s.validUTF8);
    OneMoreEvent(old(s.Current()), s.Current(), es, e, s.validUTF8);
    StoryGrows(es, e);
    SameLength(s.Current(), es + [e], s.validUTF8);
    FlushedMore(es, e, s.validUTF8);
  }

  // Each call gets the answer that the calls before it leave open.
  ghost predicate AllAnswer(ops: seq<Op>, es: seq<Event>, max: nat) {
    |es| <= |ops| && forall i :: 0 <= i < |es| ==> es[i].op == ops[i] && Answers(es[i], Busy(es[..i]), max)
  }

  lemma OneMoreAnswer(ops: seq<Op>, es: seq<Event>, max: nat, e: Event)
    requires AllAnswer(ops, es, max) && |es| < |ops| && e.op == ops[|es|] && Answers(e, Busy(es), max)
    ensures AllAnswer(ops, es + [e], max)
  {
    hide Answers, Busy;
    var t := es + [e];
    forall i | 0 <= i < |t| ensures t[i].op == ops[i] && Answers(t[i], Busy(t[..i]), max) {
      assert t[..i] == es[..i];
      if i == |es| { assert es[..i] == es; } else { assert t[i] == es[i]; }
    }
  }

  // ---- The answers, told without states ----

  // Reading is over: the peer closed or is gone, or an asynchronous read gave up.
  predicate EndsReading(e: Event) {
    || GotOpcode(e, OPCODE_CLOSE)
    || (e.what.Answered? && (e.what.r.PeerGone? || e.op.BeginRead?))
  }

  // Writing is over: the user closed, a frame was refused, or reading is over.
  predicate EndsWriting(e: Event) { e.op.Close? || Refusal(e) || EndsReading(e) }

  lemma {:induction false} OpenUntil(ops: seq<Op>, es: seq<Event>, max: nat, n: nat)
    requires AllAnswer(ops, es, max) && Chained(es) && n <= |es|
    ensures Last(es[..n]) != Handshake
    ensures CanRead(Last(es[..n])) <==> forall j :: 0 <= j < n ==> !EndsReading(es[j])
    ensures Last(es[..n]) == Active <==> forall j :: 0 <= j < n ==> !EndsWriting(es[j])
    decreases n
  {
    hide Answers, Allows, EndsReading, EndsWriting, Busy, Chained, Last, AllAnswer;
    if n == 0 {
      NoneYet(es);
    } else {
      OpenUntil(ops, es, max, n - 1);
      CallAt(ops, es, max, n - 1);
      OpenNext(es[n - 1], Busy(es[..n - 1]), max);
    }
  }

  lemma NoneYet(es: seq<Event>)
    ensures Last(es[..0]) == Active
  {}

  lemma CallAt(ops: seq<Op>, es: seq<Event>, max: nat, i: nat)
    requires AllAnswer(ops, es, max) && Chained(es) && i < |es|
    ensures Answers(es[i], Busy(es[..i]), max) && Allows(es[i])
    ensures es[i].from == Last(es[..i]) && es[i].to == Last(es[..i + 1])
  {
    hide Answers, Allows, Busy;
  }

  lemma OpenNext(e: Event, busy: bool, max: nat)
    requires Answers(e, busy, max) && Allows(e) && e.from != Handshake
    ensures e.to != Handshake
    ensures CanRead(e.to) <==> CanRead(e.from) && !EndsReading(e)
    ensures e.to == Active <==> e.from == Active && !EndsWriting(e)
  {
    hide OpcodeOf;
  }

  // A read that is made while none is outstanding, and whose flush does not fail, finds the end of the
  // stream exactly if reading was over before it.
  lemma NextEndsIff(ops: seq<Op>, es: seq<Event>, max: nat, i: nat)
    requires AllAnswer(ops, es, max) && Chained(es) && i < |es| && es[i].op == Next && !Busy(es[..i])
    ensures es[i].what.Answered?
    ensures !es[i].what.r.FlushFailed? ==>
      (es[i].what.r == EndOfStream <==> exists j :: 0 <= j < i && EndsReading(es[j]))
  {
    hide EndsReading, Busy, AllAnswer, Chained, Last;
    OpenUntil(ops, es, max, i);
    CallAt(ops, es, max, i);
  }

  // A message that is not too big is refused exactly if writing was over before.
  lemma WriteRefusedIff(ops: seq<Op>, es: seq<Event>, max: nat, i: nat)
    requires AllAnswer(ops, es, max) && Chained(es) && i < |es|
    requires es[i].op.WriteFrame? || (es[i].op.Write? && |es[i].op.payload| <= max)
    ensures es[i].what == Returned(Cancelled) <==> exists j :: 0 <= j < i && EndsWriting(es[j])
  {
    hide EndsWriting, Busy, AllAnswer, Chained, Last;
    OpenUntil(ops, es, max, i);
    CallAt(ops, es, max, i);
  }

  ghost predicate AllJudged(es: seq<Event>, checkText: bool, validText: seq<byte> -> bool) {
    forall i :: 0 <= i < |es| ==> Judged(es[i], checkText, validText)
  }

  // All that is known of the calls so far.
  ghost predicate Recorded(ops: seq<Op>, incoming: seq<byte>, max: nat, checkText: bool, validText: seq<byte> -> bool,
                           es: seq<Event>, rests: seq<seq<byte>>) {
    AllAnswer(ops, es, max) && AllJudged(es, checkText, validText) && Explained(incoming, max, es, rests)
  }

  lemma RecordedMore(ops: seq<Op>, incoming: seq<byte>, max: nat, checkText: bool, validText: seq<byte> -> bool,
                     es: seq<Event>, rests: seq<seq<byte>>, e: Event, rest: seq<byte>)
    requires Recorded(ops, incoming, max, checkText, validText, es, rests)
    requires |es| < |ops| && e.op == ops[|es|] && Answers(e, Busy(es), max) && Judged(e, checkText, validText)
    requires |rests| == |es| + 1 && Moves(rests[|es|], max, e, rest)
    ensures Recorded(ops, incoming, max, checkText, validText, es + [e], rests + [rest])
  {
    hide Answers, Busy, Judged, Moves, AllAnswer, Explained;
    ExplainedMore(incoming, max, es, rests, e, rest);
    OneMoreAnswer(ops, es, max, e);
  }

  // What the transport's script had in store, and what the calls have met of it.
  ghost predicate Scripted(s: Stream, rs: seq<ReadStep>, ws: seq<WriteStep>, es: seq<Event>)
    reads s, s.conn, s.conn.stream
  {
    && Lost(es) + Failures(s.conn.stream.readScript) == Failures(rs)
    && LostWrites(es) + WriteFailures(s.conn.stream.writeScript) == WriteFailures(ws)
    && (LostWrites(es) == 0 ==> s.Gone() == Flushed(es, s.validUTF8))
  }

  // Without failing writes.
  ghost predicate InStep(s: Stream, es: seq<Event>, sents: seq<seq<byte>>)
    requires s.Valid()
    reads s, s.conn, s.conn.codec.src, s.conn.dst, s.conn.Repr()
  {
    && s.Exact() && SentOnTime(s.log, es, sents, s.validUTF8)
    && |sents| == |es| + 1 && sents[|es|] == s.conn.stream.sent
  }

  // A session after the calls so far.
  ghost predicate Going(s: Stream, ops: seq<Op>, incoming: seq<byte>, rs: seq<ReadStep>, ws: seq<WriteStep>,
                        es: seq<Event>, rests: seq<seq<byte>>, sents: seq<seq<byte>>)
    reads s, s.conn, s.conn.codec.src, s.conn.dst, s.conn.Repr()
  {
    && s.Valid() && Told(s.Current(), es, s.validUTF8)
    && |rests| == |es| + 1 && rests[|es|] == s.conn.Pending()
    && Recorded(ops, incoming, s.conn.codec.max, s.validateUTF8, s.validUTF8, es, rests)
    && Scripted(s, rs, ws, es) && (WriteFailures(ws) == 0 ==> InStep(s, es, sents))
  }

  method Proceed(s: Stream, ops: seq<Op>, ghost incoming: seq<byte>, ghost rs: seq<ReadStep>, ghost ws: seq<WriteStep>,
                 es: seq<Event>, ghost rests: seq<seq<byte>>, ghost sents: seq<seq<byte>>)
    returns (e: Event, ghost rests': seq<seq<byte>>, ghost sents': seq<seq<byte>>)
    requires Going(s, ops, incoming, rs, ws, es, rests, sents) && |es| < |ops| && Allowed(ops[|es|])
    modifies s, s.conn.stream, s.conn.codec, s.conn.codec.src, s.conn.codec.src.data, s.conn.dst, s.conn.dst.data
    ensures Going(s, ops, incoming, rs, ws, es + [e], rests', sents') && fresh(s.conn.Repr() - old(s.conn.Repr()))
  {
    hide Stream.Valid, CodecConn.Valid, Allowed, Told, Judged, Moves, Stream.Exact, CodecConn.Pending, Answers;
    hide WriteFailures, Failures, Lost, LostWrites, Busy, Recorded, SentOnTime, Flushed, Stream.Gone;
    ghost var log := s.log;
    e := Advance(s, ops[|es|], es);
    RecordedMore(ops, incoming, s.conn.codec.max, s.validateUTF8, s.validUTF8, es, rests, e, s.conn.Pending());
    if WriteFailures(ws) == 0 { OnTimeNext(s, log, es, sents, e); }
    rests', sents' := rests + [s.conn.Pending()], sents + [s.conn.stream.sent];
  }

  // Every session. The log is, frame by frame, what the calls were asked to send, the answers to the
  // peer's pings and close frame, and the close frames for what was refused; so there is one close
  // frame for the closing handshake and one per refused frame, none followed by anything else, and
  // one pong per ping of the Active phase. What the caller gets, and why they get nothing, is
  // explained by what the peer sent and by the failures of the transport, and if writing never
  // fails, what the peer gets is the log.
  method Run(incoming: seq<byte>, rs: seq<ReadStep>, ws: seq<WriteStep>, max: nat, validate: bool,
             validText: seq<byte> -> bool, ops: seq<Op>)
    returns (events: seq<Event>, sent: seq<byte>, unsent: seq<seq<byte>>,
             ghost log: seq<Queued>, ghost rests: seq<seq<byte>>, ghost sents: seq<seq<byte>>)
    requires max <= MAX_INT && forall i :: 0 <= i < |ops| ==> Allowed(ops[i])
    ensures |events| == |ops| && AllAnswer(ops, events, max) && Chained(events)
    ensures AllJudged(events, validate, validText)
    ensures Explained(incoming, max, events, rests) && FromPeer(incoming, max, events, rests[|events|])
    ensures Lost(events) <= Failures(rs) && LostWrites(events) <= WriteFailures(ws)
    ensures Entries(log) == AllAdded(events, validText)
    ensures ClosesLast(log) && ((forall i :: 0 <= i < |ops| ==> !WritesClose(ops[i])) ==> Ours(log))
    ensures Handshakes(events) <= 1 && CloseCount(log) == Handshakes(events) + Refusals(events)
    ensures PongPayloads(log) == Pings(events)
    ensures QueueOk(unsent, log) && (WriteFailures(ws) == 0 ==> Accounts(sent, unsent, log))
    ensures LostWrites(events) == 0 ==> |unsent| == |log| - Flushed(events, validText)
    ensures WriteFailures(ws) == 0 ==> SentOnTime(log, events, sents, validText) && sents[|events|] == sent
  {
    hide Going, Stream.Valid, CodecConn.Valid, Told, Stream.Exact, CodecConn.Pending, Allowed, WritesClose, SessionOk;
    hide AllAnswer, Chained, AllJudged, Explained, FromPeer, Lost, LostWrites, Failures, WriteFailures, Entries;
    hide ClosesLast, Ours, Handshakes, CloseCount, Refusals, PongPayloads, Pings, QueueOk, Accounts, Flushed;
    hide AllAdded, SentOnTime;
    var s := Open(incoming, rs, ws, max, validate, validText);
    events, rests, sents := [], [incoming], [s.conn.stream.sent];
    GoingAtStart(s, ops, incoming, rs, ws);
    for i := 0 to |ops|
      invariant fresh(s) && fresh(s.conn) && fresh(s.conn.Repr()) && |events| == i
      invariant s.validateUTF8 == validate && s.validUTF8 == validText && s.conn.codec.max == max
      invariant Going(s, ops, incoming, rs, ws, events, rests, sents)
    {
      var e;
      e, rests, sents := Proceed(s, ops, incoming, rs, ws, events, rests, sents);
      events := events + [e];
    }
    sent, unsent, log := s.conn.stream.sent, s.pendingFrames, s.log;
    SessionEnds(s, ops, incoming, rs, ws, events, rests, sents);
  }

  lemma GoingAtStart(s: Stream, ops: seq<Op>, incoming: seq<byte>, rs: seq<ReadStep>, ws: seq<WriteStep>)
    requires s.Valid() && s.log == [] && s.pendingFrames == [] && Told(s.Current(), [], s.validUTF8)
    requires s.conn.Pending() == incoming && s.conn.stream.readScript == rs && s.conn.stream.writeScript == ws
    requires WriteFailures(ws) == 0 ==> s.Exact()
    ensures Going(s, ops, incoming, rs, ws, [], [incoming], [s.conn.stream.sent])
  {
    hide Stream.Valid, CodecConn.Valid, Told, Stream.Exact, CodecConn.Pending, WriteFailures, Failures, SentOnTime;
    AtStart(incoming, s.conn.codec.max, ops);
    if WriteFailures(ws) == 0 { OnTimeAtStart(s); }
  }

  lemma AllOfIt(s: Stream, ops: seq<Op>, incoming: seq<byte>, rs: seq<ReadStep>, ws: seq<WriteStep>,
                es: seq<Event>, rests: seq<seq<byte>>, sents: seq<seq<byte>>)
    requires Going(s, ops, incoming, rs, ws, es, rests, sents)
    ensures s.Valid() && Told(s.Current(), es, s.validUTF8) && |rests| == |es| + 1
    ensures Recorded(ops, incoming, s.conn.codec.max, s.validateUTF8, s.validUTF8, es, rests)
    ensures Lost(es) <= Failures(rs) && LostWrites(es) <= WriteFailures(ws)
    ensures LostWrites(es) == 0 ==> |s.pendingFrames| == |s.log| - Flushed(es, s.validUTF8)
    ensures WriteFailures(ws) == 0 ==> s.Exact() && SentOnTime(s.log, es, sents, s.validUTF8)
    ensures WriteFailures(ws) == 0 ==> |sents| == |es| + 1 && sents[|es|] == s.conn.stream.sent
  {
    hide Stream.Valid, CodecConn.Valid, Told, Stream.Exact, WriteFailures, Failures, Lost, LostWrites, Recorded;
    hide SentOnTime, Flushed;
  }

  lemma SessionEnds(s: Stream, ops: seq<Op>, incoming: seq<byte>, rs: seq<ReadStep>, ws: seq<WriteStep>,
                    es: seq<Event>, rests: seq<seq<byte>>, sents: seq<seq<byte>>)
    requires Going(s, ops, incoming, rs, ws, es, rests, sents)
    ensures var (max, checkText, validText) := (s.conn.codec.max, s.validateUTF8, s.validUTF8);
      && AllAnswer(ops, es, max) && Chained(es) && AllJudged(es, checkText, validText)
      && Explained(incoming, max, es, rests) && FromPeer(incoming, max, es, rests[|es|])
      && Entries(s.log) == AllAdded(es, validText)
      && ClosesLast(s.log) && ((forall i :: 0 <= i < |ops| ==> !WritesClose(ops[i])) ==> Ours(s.log))
      && Handshakes(es) <= 1 && CloseCount(s.log) == Handshakes(es) + Refusals(es)
      && PongPayloads(s.log) == Pings(es)
    ensures Lost(es) <= Failures(rs) && LostWrites(es) <= WriteFailures(ws)
    ensures QueueOk(s.pendingFrames, s.log)
    ensures WriteFailures(ws) == 0 ==> Accounts(s.conn.stream.sent, s.pendingFrames, s.log)
    ensures LostWrites(es) == 0 ==> |s.pendingFrames| == |s.log| - Flushed(es, s.validUTF8)
    ensures WriteFailures(ws) == 0 ==>
      SentOnTime(s.log, es, sents, s.validUTF8) && |sents| == |es| + 1 && sents[|es|] == s.conn.stream.sent
  {
    hide *;
    AllOfIt(s, ops, incoming, rs, ws, es, rests, sents);
    StoryEnds(s, ops, incoming, s.conn.codec.max, s.validateUTF8, es, rests);
    EndOfBytes(s);
  }

  lemma StoryEnds(s: Stream, ops: seq<Op>, incoming: seq<byte>, max: nat, checkText: bool,
                  es: seq<Event>, rests: seq<seq<byte>>)
    requires Told(s.Current(), es, s.validUTF8) && Recorded(ops, incoming, max, checkText, s.validUTF8, es, rests)
    ensures AllAnswer(ops, es, max) && Chained(es) && AllJudged(es, checkText, s.validUTF8)
    ensures Explained(incoming, max, es, rests) && FromPeer(incoming, max, es, rests[|es|])
    ensures Entries(s.log) == AllAdded(es, s.validUTF8)
    ensures ClosesLast(s.log) && ((forall i :: 0 <= i < |ops| ==> !WritesClose(ops[i])) ==> Ours(s.log))
    ensures Handshakes(es) <= 1 && CloseCount(s.log) == Handshakes(es) + Refusals(es)
    ensures PongPayloads(s.log) == Pings(es)
  {
    hide Told, Chained, FromPeer, ClosesLast, CloseCount, PongPayloads, Refusals, Handshakes, Pings;
    hide AllAnswer, AllJudged, WritesClose, Ours, Entries, AllAdded;
    ExplainedFrames(incoming, max, es, rests);
    EndOfSession(s.Current(), es, s.validUTF8);
    if forall i :: 0 <= i < |ops| ==> !WritesClose(ops[i]) { OnlyOurs(ops, es, max, s.log, s.validUTF8); }
  }

  lemma OnlyOurs(ops: seq<Op>, es: seq<Event>, max: nat, log: seq<Queued>, validText: seq<byte> -> bool)
    requires AllAnswer(ops, es, max) && Entries(log) == AllAdded(es, validText)
    requires forall i :: 0 <= i < |ops| ==> !WritesClose(ops[i])
    ensures Ours(log)
  {
    hide Ours, Entries, AllAdded, Answers, WritesClose, Busy;
    AllOurs(log, es, validText);
  }

  lemma OnTimeAtStart(s: Stream)
    requires s.Valid() && s.Exact() && s.log == []
    ensures SentOnTime(s.log, [], [s.conn.stream.sent], s.validUTF8)
  {
    SentNow(s);
  }

  lemma AtStart(incoming: seq<byte>, max: nat, ops: seq<Op>)
    ensures Explained(incoming, max, [], [incoming]) && Lost([]) == 0 && LostWrites([]) == 0 && AllAnswer(ops, [], max)
  {}

  lemma EndOfBytes(s: Stream)
    requires s.Valid()
    ensures QueueOk(s.pendingFrames, s.log)
    ensures s.Exact() ==> Accounts(s.conn.stream.sent, s.pendingFrames, s.log)
  {}
}

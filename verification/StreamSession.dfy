/** The life of a WebSocket session as codec/websocket/stream.go drives it: its states, and the
    frames it queues for sending. */
module StreamSessions {
  import opened Bytes
  import opened Frames

  datatype State = Handshake | Active | ClosedByUs | ClosedByPeer | CloseAcked | Terminated

  // Who queued a frame: a user's write, the automatic answer to a ping, or the closing handshake.
  datatype Kind = User | AutoPong | Closing

  datatype Queued = Queued(kind: Kind, fin: bool, opcode: int, mask: seq<byte>, payload: seq<byte>)

  // A queued frame without its mask, which is random.
  datatype Entry = Entry(kind: Kind, fin: bool, opcode: int, payload: seq<byte>)

  function EntryOf(q: Queued): Entry { Entry(q.kind, q.fin, q.opcode, q.payload) }

  ghost predicate QueuedOk(q: Queued) {
    && 0 <= q.opcode < 16 && |q.mask| == 4 && |q.payload| <= MAX_INT
    && (q.kind.Closing? ==> q.opcode == OPCODE_CLOSE)
    && (q.kind.AutoPong? ==> q.opcode == OPCODE_PONG)
  }

  // The bytes that are sent for a queued frame.
  ghost function Encoded(q: Queued): seq<byte>
    requires QueuedOk(q)
  {
    Layout(q.fin, q.opcode, WithMask(q.mask), q.payload)
  }

  // ---- The session ----

  // `log` holds every frame ever queued, `pings` the payloads of the pings accepted while Active,
  // `rejected` counts the incoming frames that were refused, and `handshake` tells whether Active
  // was left by Close or by the peer's close frame.
  datatype Session = Session(
    state: State, reading: bool, log: seq<Queued>, pings: seq<seq<byte>>, rejected: nat, handshake: bool)

  ghost function CloseCount(log: seq<Queued>): nat {
    if log == [] then 0
    else CloseCount(log[..|log| - 1]) + (if log[|log| - 1].kind.Closing? then 1 else 0)
  }

  ghost function PongPayloads(log: seq<Queued>): seq<seq<byte>> {
    if log == [] then []
    else PongPayloads(log[..|log| - 1]) + (if log[|log| - 1].kind.AutoPong? then [log[|log| - 1].payload] else [])
  }

  ghost predicate ClosesLast(log: seq<Queued>) {
    forall i, j :: 0 <= i < j < |log| && log[i].kind.Closing? ==> log[j].kind.Closing?
  }

  ghost predicate SessionOk(s: Session) {
    && (forall q :: q in s.log ==> QueuedOk(q))
    && ClosesLast(s.log)
    && CloseCount(s.log) == (if s.handshake then 1 else 0) + s.rejected
    && PongPayloads(s.log) == s.pings
    && (s.state in {Handshake, Active} ==> CloseCount(s.log) == 0)
    && (s.reading ==> CanRead(s.state))
  }

  predicate CanRead(st: State) { st == Active || st == ClosedByUs }

  // Within a session the state only moves up, and never between states of the same rank.
  function Rank(st: State): nat {
    match st
    case Handshake => 0
    case Active => 1
    case ClosedByUs => 2
    case ClosedByPeer => 3
    case CloseAcked => 3
    case Terminated => 4
  }

  ghost predicate Forward(a: State, b: State) { a == b || Rank(a) < Rank(b) }

  // ---- Steps ----

  lemma AppendCounts(log: seq<Queued>, q: Queued)
    ensures CloseCount(log + [q]) == CloseCount(log) + (if q.kind.Closing? then 1 else 0)
    ensures PongPayloads(log + [q]) == PongPayloads(log) + (if q.kind.AutoPong? then [q.payload] else [])
  {
    assert (log + [q])[..|log|] == log;
  }

  lemma {:induction false} NoCloses(log: seq<Queued>, i: nat)
    requires CloseCount(log) == 0 && i < |log|
    ensures !log[i].kind.Closing?
  {
    if i < |log| - 1 { NoCloses(log[..|log| - 1], i); }
  }

  function Queue(s: Session, q: Queued): Session {
    s.(log := s.log + [q], pings := if q.kind.AutoPong? then s.pings + [q.payload] else s.pings)
  }

  // While Active, users and pongs may queue frames.
  lemma QueueActive(s: Session, q: Queued)
    requires SessionOk(s) && s.state == Active && QueuedOk(q) && !q.kind.Closing?
    ensures SessionOk(Queue(s, q))
  {
    AppendCounts(s.log, q);
    forall i | 0 <= i < |s.log| ensures !s.log[i].kind.Closing? { NoCloses(s.log, i); }
  }

  // Leaving Active through the closing handshake queues one close frame.
  lemma QueueHandshakeClose(s: Session, q: Queued, st: State)
    requires SessionOk(s) && s.state == Active && QueuedOk(q) && q.kind.Closing?
    requires st == ClosedByUs || (st == ClosedByPeer && !s.reading)
    ensures !s.handshake && SessionOk(Queue(s, q).(state := st, handshake := true))
  {
    AppendCounts(s.log, q);
  }

  lemma LeaveActive(s: Session, st: State)
    requires SessionOk(s) && s.state == Active && (st == ClosedByUs || (st == ClosedByPeer && !s.reading))
    ensures SessionOk(s.(state := st))
  {}

  // Refusing a frame queues one close frame, in Active and in ClosedByUs.
  lemma QueueRejectClose(s: Session, q: Queued)
    requires SessionOk(s) && CanRead(s.state) && QueuedOk(q) && q.kind.Closing?
    ensures SessionOk(Queue(s, q).(state := ClosedByUs, rejected := s.rejected + 1))
  {
    AppendCounts(s.log, q);
  }
}

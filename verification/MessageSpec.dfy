/** What reading messages gives, told by the bytes of the peer alone. */
module MessageSpecs {
  import opened Bytes
  import opened Frames
  import opened FrameCodecs
  import opened CodecConns
  import opened StreamSessions
  import opened Streams
  import opened Messages

  // What a reader is set up with.
  datatype Setup = Setup(max: nat, checkText: bool, validText: seq<byte> -> bool)

  ghost function ViewOf(f: seq<byte>): Fragment
    requires WholeFrame(f)
  {
    Fragment(IsFIN(f), OpcodeOf(f), Payload(f))
  }

  // All states that allow no read are alike to a reader.
  function Plain(st: State): State { if CanRead(st) then st else Terminated }

  // A close frame ends reading.
  function StateAfter(st: State, opcode: int): State { if opcode == OPCODE_CLOSE then Terminated else st }

  lemma FrontWhole(bytes: seq<byte>, max: nat)
    ensures match ParseOne(bytes, max)
      case Whole(n) => n <= |bytes| && n > 0 && WholeFrame(bytes[..n])
      case _ => true
  {
    match ParseOne(bytes, max)
    case Whole(n) => SameHeader(bytes[..n], bytes);
    case _ =>
  }

  lemma DataFrame(f: seq<byte>, c: Setup)
    requires WholeFrame(f) && Judge(f, c.checkText, c.validText).Accepted? && !IsControl(OpcodeOf(f))
    ensures IsDataOpcode(OpcodeOf(f))
  {}

  // ---- One call ----

  // Why a call ended: with a data frame, or with the error of the frame it could not get.
  datatype Cause =
    | LastFrame
    | NoReading                    // the state allows no read
    | PeerLeft                     // the peer's bytes end here
    | OverLength | BadLengthField  // the next frame cannot be read
    | Refusal(error: FrameError)
    | LostRead | LostFlush         // the transport failed

  function CauseOf(r: NextResult): Cause {
    match r
    case Delivered(_) => LastFrame
    case EndOfStream => NoReading
    case PeerGone(_) => PeerLeft
    case OverSized => OverLength
    case Crashed => BadLengthField
    case RefusedFrame(_, error) => Refusal(error)
    case TransportFailed => LostRead
    case FlushFailed => LostFlush
  }

  // The report of a call, why it ended, and the state and the bytes it leaves.
  datatype Ended = Ended(report: Report, cause: Cause, state: State, rest: seq<byte>)

  // A call that has got the data frames `data`.
  ghost function Expected(st: State, bytes: seq<byte>, c: Setup, room: nat, data: seq<Fragment>): Ended
    decreases |bytes|
  {
    var stop := ReportOf(data, room, c.max);
    if !CanRead(st) then Ended(stop, NoReading, Terminated, bytes)
    else
      FrontWhole(bytes, c.max);
      match ParseOne(bytes, c.max)
      case Incomplete => Ended(stop, PeerLeft, Terminated, bytes)
      case OverMax => Ended(stop, OverLength, st, bytes)
      case BadLength => Ended(stop, BadLengthField, st, bytes)
      case Whole(n) =>
        var (f, rest) := (bytes[..n], bytes[n..]);
        match Judge(f, c.checkText, c.validText)
        case Refused(error) => Ended(stop, Refusal(error), ClosedByUs, rest)
        case Accepted =>
          if IsControl(OpcodeOf(f)) then Expected(StateAfter(st, OpcodeOf(f)), rest, c, room, data)
          else if Open(data + [ViewOf(f)], room, c.max) then Expected(st, rest, c, room, data + [ViewOf(f)])
          else Finished(st, rest, c, room, data + [ViewOf(f)])
  }

  // The last data frame of a call; a message that does not fit closes the stream.
  ghost function Finished(st: State, rest: seq<byte>, c: Setup, room: nat, data: seq<Fragment>): Ended {
    var r := ReportOf(data, room, c.max);
    Ended(r, LastFrame, if r.error.TooLarge? then ClosedByUs else st, rest)
  }

  // ---- Its steps ----

  // Reading gives no frame for this cause, and leaves this.
  ghost predicate Halts(st: State, bytes: seq<byte>, c: Setup, cause: Cause, st': State, rest: seq<byte>) {
    if !CanRead(st) then cause == NoReading && st' == Terminated && rest == bytes
    else
      FrontWhole(bytes, c.max);
      match ParseOne(bytes, c.max)
      case Incomplete => cause == PeerLeft && st' == Terminated && rest == bytes
      case OverMax => cause == OverLength && st' == st && rest == bytes
      case BadLength => cause == BadLengthField && st' == st && rest == bytes
      case Whole(n) =>
        match Judge(bytes[..n], c.checkText, c.validText)
        case Refused(error) => cause == Refusal(error) && st' == ClosedByUs && rest == bytes[n..]
        case Accepted => false
  }

  // Reading gives a frame, and leaves this.
  ghost predicate Hands(st: State, bytes: seq<byte>, c: Setup, f: seq<byte>, st': State, rest: seq<byte>) {
    && CanRead(st) && ReadsAs(bytes, c.max, Item(f), rest) && WholeFrame(f)
    && Judge(f, c.checkText, c.validText).Accepted? && st' == StateAfter(st, OpcodeOf(f))
  }

  lemma HandsFront(st: State, bytes: seq<byte>, c: Setup, f: seq<byte>, st': State, rest: seq<byte>)
    requires Hands(st, bytes, c, f, st', rest)
    ensures ParseOne(bytes, c.max) == Whole(|f|) && bytes[..|f|] == f && bytes[|f|..] == rest
  {
    hide ParseOne, Judge, WholeFrame;
  }

  lemma ExpectedHalts(st: State, bytes: seq<byte>, c: Setup, room: nat, data: seq<Fragment>,
                      cause: Cause, st': State, rest: seq<byte>)
    requires Halts(st, bytes, c, cause, st', rest)
    ensures Expected(st, bytes, c, room, data) == Ended(ReportOf(data, room, c.max), cause, st', rest)
    ensures !cause.LastFrame?
  {
    hide ParseOne, Judge, ReportOf;
  }

  lemma ExpectedHands(st: State, bytes: seq<byte>, c: Setup, room: nat, data: seq<Fragment>,
                      f: seq<byte>, st': State, rest: seq<byte>)
    requires Hands(st, bytes, c, f, st', rest)
    ensures Expected(st, bytes, c, room, data) ==
      if IsControl(OpcodeOf(f)) then Expected(st', rest, c, room, data)
      else if Open(data + [ViewOf(f)], room, c.max) then Expected(st', rest, c, room, data + [ViewOf(f)])
      else Finished(st', rest, c, room, data + [ViewOf(f)])
  {
    HandsFront(st, bytes, c, f, st', rest);
    hide ParseOne, Judge, ReportOf, Open, OpcodeOf, WholeFrame, ViewOf;
  }

  // One of the two happens.
  lemma HaltsOrHands(st: State, bytes: seq<byte>, c: Setup)
    returns (hands: bool, f: seq<byte>, cause: Cause, st': State, rest: seq<byte>)
    ensures if hands then Hands(st, bytes, c, f, st', rest) else Halts(st, bytes, c, cause, st', rest)
  {
    hide ParseOne, Judge, WholeFrame, OpcodeOf;
    hands, f, cause, st', rest := false, [], NoReading, Terminated, bytes;
    if CanRead(st) {
      FrontWhole(bytes, c.max);
      match ParseOne(bytes, c.max)
      case Incomplete => cause := PeerLeft;
      case OverMax => cause, st' := OverLength, st;
      case BadLength => cause, st' := BadLengthField, st;
      case Whole(n) =>
        f, rest := bytes[..n], bytes[n..];
        match Judge(f, c.checkText, c.validText)
        case Refused(error) => cause, st' := Refusal(error), ClosedByUs;
        case Accepted => hands, st' := true, StateAfter(st, OpcodeOf(f));
    }
  }

  // ---- A call, by the frames of the peer ----

  // The bytes begin with these frames, all acceptable and none of them a close frame.
  ghost predicate AtFront(bytes: seq<byte>, c: Setup, fs: seq<seq<byte>>, rest: seq<byte>) {
    if fs == [] then rest == bytes
    else
      && |fs[0]| <= |bytes| && Hands(Active, bytes, c, fs[0], Active, bytes[|fs[0]|..])
      && AtFront(bytes[|fs[0]|..], c, fs[1..], rest)
  }

  ghost predicate AllWhole(fs: seq<seq<byte>>) { forall i :: 0 <= i < |fs| ==> WholeFrame(fs[i]) }

  ghost function DataFrames(fs: seq<seq<byte>>): seq<Fragment>
    requires AllWhole(fs)
  {
    if fs == [] then []
    else (if IsControl(OpcodeOf(fs[0])) then [] else [ViewOf(fs[0])]) + DataFrames(fs[1..])
  }

  // The data frames with one more frame.
  ghost function Joined(data: seq<Fragment>, f: seq<byte>): seq<Fragment>
    requires WholeFrame(f)
  {
    if IsControl(OpcodeOf(f)) then data else data + [ViewOf(f)]
  }

  lemma JoinFirst(data: seq<Fragment>, fs: seq<seq<byte>>)
    requires fs != [] && AllWhole(fs)
    ensures AllWhole(fs[1..]) && data + DataFrames(fs) == Joined(data, fs[0]) + DataFrames(fs[1..])
  {
    hide WholeFrame, OpcodeOf, ViewOf, DataFrames;
    assert AllWhole(fs[1..]);
    DataFramesOf(fs);
    if IsControl(OpcodeOf(fs[0])) {
      assert [] + DataFrames(fs[1..]) == DataFrames(fs[1..]);
    } else {
      Regroup(data, [ViewOf(fs[0])], DataFrames(fs[1..]));
    }
  }

  lemma DataFramesOf(fs: seq<seq<byte>>)
    requires fs != [] && AllWhole(fs) && AllWhole(fs[1..])
    ensures DataFrames(fs) == (if IsControl(OpcodeOf(fs[0])) then [] else [ViewOf(fs[0])]) + DataFrames(fs[1..])
  {}

  lemma Regroup(a: seq<Fragment>, b: seq<Fragment>, c: seq<Fragment>)
    ensures a + (b + c) == a + b + c
  {}

  lemma NoDataFrames(data: seq<Fragment>)
    ensures data + DataFrames([]) == data
  {}

  ghost predicate EndsWithData(fs: seq<seq<byte>>) {
    fs != [] && AllWhole(fs) && !IsControl(OpcodeOf(fs[|fs| - 1]))
  }

  // Behind the frames at the front nothing more can be read, or a close frame comes.
  ghost predicate Stops(st: State, bytes: seq<byte>, c: Setup, cause: Cause, st': State, rest: seq<byte>) {
    || Halts(st, bytes, c, cause, st', rest)
    || (cause == NoReading && st' == Terminated && exists f :: Hands(st, bytes, c, f, Terminated, rest))
  }

  // A call that has got `data` ends like this because the peer's bytes begin with the frames `fs`:
  // either their data frames go on with the message and behind them reading stops, or the last of
  // them decides the call.
  ghost predicate Explains(st: State, bytes: seq<byte>, c: Setup, room: nat, data: seq<Fragment>,
                           fs: seq<seq<byte>>, mid: seq<byte>, e: Ended) {
    && (fs != [] ==> CanRead(st)) && AtFront(bytes, c, fs, mid) && AllWhole(fs)
    && e.report == ReportOf(data + DataFrames(fs), room, c.max)
    && if e.cause.LastFrame? then
         && EndsWithData(fs) && Decided(data + DataFrames(fs), room, c.max)
         && e.state == (if e.report.error.TooLarge? then ClosedByUs else st) && e.rest == mid
       else Open(data + DataFrames(fs), room, c.max) && Stops(st, mid, c, e.cause, e.state, e.rest)
  }

  lemma {:induction false} LastIsData(fs: seq<seq<byte>>)
    requires EndsWithData(fs)
    ensures DataFrames(fs) != []
  {
    if |fs| > 1 {
      assert AllWhole(fs[1..]);
      LastIsData(fs[1..]);
    }
  }

  lemma OpenPrefix(a: seq<Fragment>, b: seq<Fragment>, room: nat, max: nat)
    requires Open(a + b, room, max)
    ensures Open(a, room, max)
  {
    hide Payloads;
    PayloadsPrefix(a, b);
    forall i | 0 <= i < |a|
      ensures (a[i].opcode == OPCODE_CONTINUATION <==> i > 0) && !a[i].fin
    {
      assert (a + b)[i] == a[i];
    }
  }

  lemma {:induction false} PayloadsPrefix(a: seq<Fragment>, b: seq<Fragment>)
    ensures |Payloads(a)| <= |Payloads(a + b)|
    decreases |b|
  {
    if b == [] {
      assert a + b == a;
    } else {
      PayloadsPrefix(a, b[..|b| - 1]);
      assert (a + b)[..|a + b| - 1] == a + b[..|b| - 1];
    }
  }

  // Data frames in front of others that keep the message open, or decide it.
  lemma OpenFront(a: seq<Fragment>, b: seq<Fragment>, room: nat, max: nat)
    requires Open(a + b, room, max) || (Decided(a + b, room, max) && b != [])
    ensures Open(a, room, max)
  {
    hide Open;
    if !Open(a + b, room, max) {
      assert (a + b)[..|a + b| - 1] == a + b[..|b| - 1];
      OpenPrefix(a, b[..|b| - 1], room, max);
    } else {
      OpenPrefix(a, b, room, max);
    }
  }

  lemma OpenStops(data: seq<Fragment>, room: nat, max: nat)
    requires Open(data, room, max)
    ensures ReportOf(data, room, max).error == Stopped
  {
    hide Payloads;
    if data != [] { assert !data[|data| - 1].fin; }
  }

  lemma HandsData(st: State, bytes: seq<byte>, c: Setup, f: seq<byte>, st': State, rest: seq<byte>)
    requires Hands(st, bytes, c, f, st', rest) && !IsControl(OpcodeOf(f))
    ensures WholeFrame(f) && IsDataOpcode(ViewOf(f).opcode) && st' == st && CanRead(st)
  {
    DataFrame(f, c);
  }

  lemma HandsMore(st: State, bytes: seq<byte>, c: Setup, f: seq<byte>, st': State, rest: seq<byte>)
    requires Hands(st, bytes, c, f, st', rest)
    ensures WholeFrame(f) && CanRead(st) && |rest| < |bytes|
    ensures st' == st || (st' == Terminated && IsControl(OpcodeOf(f)))
  {
    HandsFront(st, bytes, c, f, st', rest);
  }

  // A frame that leaves the stream readable, in front of others.
  lemma FrontMore(st: State, bytes: seq<byte>, c: Setup, f: seq<byte>, st': State, rest: seq<byte>,
                  fs: seq<seq<byte>>, end: seq<byte>)
    requires Hands(st, bytes, c, f, st', rest) && CanRead(st') && AtFront(rest, c, fs, end)
    ensures AtFront(bytes, c, [f] + fs, end)
  {
    HandsFront(st, bytes, c, f, st', rest);
    hide Judge, ParseOne, OpcodeOf, WholeFrame, ReadsAs;
    var gs := [f] + fs;
    assert gs[1..] == fs && gs[0] == f;
  }

  // One frame more in front.
  lemma ExplainsMore(st: State, bytes: seq<byte>, c: Setup, room: nat, data: seq<Fragment>, f: seq<byte>,
                     rest: seq<byte>, fs: seq<seq<byte>>, mid: seq<byte>, e: Ended)
    requires Hands(st, bytes, c, f, st, rest) && Explains(st, rest, c, room, Joined(data, f), fs, mid, e)
    ensures Explains(st, bytes, c, room, data, [f] + fs, mid, e)
  {
    hide Judge, ParseOne, OpcodeOf, WholeFrame, ReadsAs, ReportOf, Open, Decided, Stops, DataFrames, AtFront, Joined;
    var gs := [f] + fs;
    assert gs[1..] == fs && gs[0] == f && (fs != [] ==> gs[|gs| - 1] == fs[|fs| - 1]);
    FrontMore(st, bytes, c, f, st, rest, fs, mid);
    assert AllWhole(gs);
    JoinFirst(data, gs);
  }

  // The frame that decides the call.
  lemma ExplainsLast(st: State, bytes: seq<byte>, c: Setup, room: nat, data: seq<Fragment>, f: seq<byte>,
                     rest: seq<byte>)
    requires Hands(st, bytes, c, f, st, rest) && !IsControl(OpcodeOf(f)) && Open(data, room, c.max)
    requires !Open(data + [ViewOf(f)], room, c.max)
    ensures Explains(st, bytes, c, room, data, [f], rest, Finished(st, rest, c, room, data + [ViewOf(f)]))
  {
    hide Judge, ParseOne, OpcodeOf, WholeFrame, ReadsAs, ReportOf, Open, ViewOf;
    FrontMore(st, bytes, c, f, st, rest, [], rest);
    assert [f] + [] == [f];
    assert DataFrames([f]) == [ViewOf(f)];
    var all := data + [ViewOf(f)];
    assert all[..|all| - 1] == data;
  }

  lemma ExplainsStop(st: State, bytes: seq<byte>, c: Setup, room: nat, data: seq<Fragment>, e: Ended)
    requires Stops(st, bytes, c, e.cause, e.state, e.rest) && !e.cause.LastFrame? && Open(data, room, c.max)
    requires e.report == ReportOf(data, room, c.max)
    ensures Explains(st, bytes, c, room, data, [], bytes, e)
  {
    hide Stops, Open, ReportOf;
    NoDataFrames(data);
  }

  lemma StopExpected(st: State, bytes: seq<byte>, c: Setup, room: nat, data: seq<Fragment>, e: Ended)
    requires Stops(st, bytes, c, e.cause, e.state, e.rest) && e.report == ReportOf(data, room, c.max)
    ensures Expected(st, bytes, c, room, data) == e
  {
    hide ReportOf, Expected, Halts, Hands;
    if Halts(st, bytes, c, e.cause, e.state, e.rest) {
      ExpectedHalts(st, bytes, c, room, data, e.cause, e.state, e.rest);
    } else {
      var f :| Hands(st, bytes, c, f, Terminated, e.rest);
      HandsMore(st, bytes, c, f, Terminated, e.rest);
      ExpectedHands(st, bytes, c, room, data, f, Terminated, e.rest);
      EndedReading(e.rest, c);
      ExpectedHalts(Terminated, e.rest, c, room, data, NoReading, Terminated, e.rest);
    }
  }

  lemma EndedReading(bytes: seq<byte>, c: Setup)
    ensures Halts(Terminated, bytes, c, NoReading, Terminated, bytes)
  {}

  // Every call is explained by some frames of the peer,
  lemma {:induction false} CallExplained(st: State, bytes: seq<byte>, c: Setup, room: nat, data: seq<Fragment>)
    returns (fs: seq<seq<byte>>, mid: seq<byte>)
    requires Open(data, room, c.max) && st == Plain(st)
    ensures Explains(st, bytes, c, room, data, fs, mid, Expected(st, bytes, c, room, data))
    decreases |bytes|
  {
    hide Explains, Expected, Halts, Hands, Open, ReportOf, ViewOf, OpcodeOf, Finished;
    var hands, f, cause, st', rest := HaltsOrHands(st, bytes, c);
    if !hands {
      fs, mid := [], bytes;
      ExpectedHalts(st, bytes, c, room, data, cause, st', rest);
      ExplainsStop(st, bytes, c, room, data, Expected(st, bytes, c, room, data));
      return;
    }
    HandsMore(st, bytes, c, f, st', rest);
    ExpectedHands(st, bytes, c, room, data, f, st', rest);
    if st' != st {
      fs, mid := [], bytes;
      var e := Ended(ReportOf(data, room, c.max), NoReading, Terminated, rest);
      StopExpected(st, bytes, c, room, data, e);
      ExplainsStop(st, bytes, c, room, data, e);
    } else if IsControl(OpcodeOf(f)) || Open(data + [ViewOf(f)], room, c.max) {
      fs, mid := CallExplained(st, rest, c, room, Joined(data, f));
      ExplainsMore(st, bytes, c, room, data, f, rest, fs, mid, Expected(st, bytes, c, room, data));
      fs := [f] + fs;
    } else {
      fs, mid := [f], rest;
      ExplainsLast(st, bytes, c, room, data, f, rest);
    }
  }

  // and frames that explain a call are the only explanation.
  lemma {:induction false} ExplainedCall(st: State, bytes: seq<byte>, c: Setup, room: nat, data: seq<Fragment>,
                                         fs: seq<seq<byte>>, mid: seq<byte>, e: Ended)
    requires Open(data, room, c.max) && Explains(st, bytes, c, room, data, fs, mid, e)
    ensures Expected(st, bytes, c, room, data) == e
    decreases |fs|
  {
    hide Expected, Halts, Open, ReportOf, ViewOf, OpcodeOf, WholeFrame, Stops, Decided, DataFrames, ReadsAs, Judge;
    if fs == [] {
      NoDataFrames(data);
      StopExpected(st, bytes, c, room, data, e);
    } else {
      var f, rest, fs' := fs[0], bytes[|fs[0]|..], fs[1..];
      assert Hands(st, bytes, c, f, st, rest);
      ExpectedHands(st, bytes, c, room, data, f, st, rest);
      JoinFirst(data, fs);
      if fs' != [] { assert fs'[|fs'| - 1] == fs[|fs| - 1]; }
      if IsControl(OpcodeOf(f)) {
        ExplainedCall(st, rest, c, room, data, fs', mid, e);
      } else if fs' == [] && e.cause.LastFrame? {
        NoDataFrames(data + [ViewOf(f)]);
        assert AtFront(rest, c, fs', mid);
        DecidedNotOpen(data + [ViewOf(f)], room, c.max);
      } else {
        if e.cause.LastFrame? { LastIsData(fs'); }
        OpenFront(data + [ViewOf(f)], DataFrames(fs'), room, c.max);
        ExplainedCall(st, rest, c, room, data + [ViewOf(f)], fs', mid, e);
      }
    }
  }

  lemma DecidedNotOpen(data: seq<Fragment>, room: nat, max: nat)
    requires Decided(data, room, max)
    ensures !Open(data, room, max)
  {}

  // ---- A call succeeds exactly when a message is ahead ----

  // `fs` is one message that fits: it ends with the frame that completes it.
  ghost predicate Completes(fs: seq<seq<byte>>, room: nat, max: nat)
    ensures Completes(fs, room, max) ==> AllWhole(fs) && IsMessage(DataFrames(fs))
  {
    EndsWithData(fs) && IsMessage(DataFrames(fs)) && Fits(DataFrames(fs), room, max)
  }

  ghost predicate MessageAhead(bytes: seq<byte>, c: Setup, room: nat) {
    exists fs, rest :: AtFront(bytes, c, fs, rest) && Completes(fs, room, c.max)
  }

  // A message that fits is decided by its last frame.
  lemma MessageDecided(data: seq<Fragment>, room: nat, max: nat)
    requires IsMessage(data) && Fits(data, room, max)
    ensures Decided(data, room, max)
  {
    var n := |data| - 1;
    assert data[..n] + [data[n]] == data;
    PayloadsPrefix(data[..n], [data[n]]);
    assert data[n].fin;
    forall i | 0 <= i < n ensures (data[..n][i].opcode == OPCODE_CONTINUATION <==> i > 0) && !data[..n][i].fin {
      assert data[..n][i] == data[i];
    }
  }

  lemma MessageOpcodes(data: seq<Fragment>)
    requires IsMessage(data)
    ensures DataOpcodes(data)
  {}

  lemma {:induction false} FrontOpcodes(bytes: seq<byte>, c: Setup, fs: seq<seq<byte>>, rest: seq<byte>)
    requires AtFront(bytes, c, fs, rest) && AllWhole(fs)
    ensures DataOpcodes(DataFrames(fs))
    decreases |fs|
  {
    hide Hands, WholeFrame, OpcodeOf, ViewOf;
    if fs != [] {
      FrontOpcodes(bytes[|fs[0]|..], c, fs[1..], rest);
      if !IsControl(OpcodeOf(fs[0])) { HandsData(Active, bytes, c, fs[0], Active, bytes[|fs[0]|..]); }
    }
  }

  // A message at the front is reported whole: its payloads in order, under the opcode of its first
  // frame, and what follows it is left.
  lemma MessageMeansSuccess(st: State, bytes: seq<byte>, c: Setup, room: nat, fs: seq<seq<byte>>, rest: seq<byte>)
    requires CanRead(st) && AtFront(bytes, c, fs, rest) && Completes(fs, room, c.max)
    ensures IsMessage(DataFrames(fs))
    ensures Expected(st, bytes, c, room, []) == Ended(MessageOf(fs), LastFrame, st, rest)
  {
    hide Expected, AtFront, DataFrames, IsMessage, Decided, ReportOf, Open, Fits, AllWhole, Stops, Payloads;
    var data := DataFrames(fs);
    assert [] + data == data;
    MessageDecided(data, room, c.max);
    MessageOpcodes(data);
    SuccessIff(data, room, c.max);
    NothingOpen(room, c.max);
    ExplainedCall(st, bytes, c, room, [], fs, rest, Ended(MessageOf(fs), LastFrame, st, rest));
  }

  ghost function MessageOf(fs: seq<seq<byte>>): Report
    requires AllWhole(fs) && IsMessage(DataFrames(fs))
  {
    Report(NoError, DataFrames(fs)[0].opcode, Payloads(DataFrames(fs)))
  }

  lemma NothingOpen(room: nat, max: nat)
    ensures Open([], room, max)
  {}

  lemma SuccessMeansMessage(st: State, bytes: seq<byte>, c: Setup, room: nat)
    requires st == Plain(st) && Expected(st, bytes, c, room, []).report.error == NoError
    ensures CanRead(st) && MessageAhead(bytes, c, room)
  {
    hide Expected, AtFront, DataFrames, IsMessage, Decided, ReportOf, Open, Fits, Stops;
    NothingOpen(room, c.max);
    var fs, mid := CallExplained(st, bytes, c, room, []);
    var data := DataFrames(fs);
    assert [] + data == data;
    FrontOpcodes(bytes, c, fs, mid);
    if !Expected(st, bytes, c, room, []).cause.LastFrame? { OpenStops(data, room, c.max); }
    SuccessIff(data, room, c.max);
    assert Completes(fs, room, c.max);
  }

  // A call on a readable stream succeeds if and only if the peer's bytes begin with acceptable
  // frames that are, control frames aside, one text or binary message that fits; it then reports
  // that message.
  lemma SuccessIffMessage(st: State, bytes: seq<byte>, c: Setup, room: nat)
    requires st == Plain(st)
    ensures Expected(st, bytes, c, room, []).report.error == NoError <==> CanRead(st) && MessageAhead(bytes, c, room)
    ensures forall fs, rest :: CanRead(st) && AtFront(bytes, c, fs, rest) && Completes(fs, room, c.max) ==>
      Expected(st, bytes, c, room, []) == Ended(MessageOf(fs), LastFrame, st, rest)
  {
    hide Expected, AtFront, Completes, MessageOf;
    forall fs, rest | CanRead(st) && AtFront(bytes, c, fs, rest) && Completes(fs, room, c.max)
      ensures Expected(st, bytes, c, room, []) == Ended(MessageOf(fs), LastFrame, st, rest)
      ensures Expected(st, bytes, c, room, []).report.error == NoError
    {
      MessageMeansSuccess(st, bytes, c, room, fs, rest);
      NoErrorIn(fs);
    }
    if Expected(st, bytes, c, room, []).report.error == NoError { SuccessMeansMessage(st, bytes, c, room); }
  }

  lemma NoErrorIn(fs: seq<seq<byte>>)
    requires AllWhole(fs) && IsMessage(DataFrames(fs))
    ensures MessageOf(fs).error == NoError
  {}

  // ---- The other ends of a call ----

  // The peer's bytes begin with frames of which the last is the first data frame that cannot go on: the
  // call takes exactly these frames, and its error tells what is wrong with the last. Only a message
  // that is too long closes the stream.
  lemma MalformedMeansError(st: State, bytes: seq<byte>, c: Setup, room: nat, fs: seq<seq<byte>>, rest: seq<byte>)
    requires CanRead(st) && AtFront(bytes, c, fs, rest) && EndsWithData(fs) && Decided(DataFrames(fs), room, c.max)
    ensures var (e, data) := (Expected(st, bytes, c, room, []), DataFrames(fs));
      var (last, fits) := (data[|data| - 1], Fits(data, room, c.max));
      && e.cause == LastFrame && e.rest == rest && e.state == (if fits then st else ClosedByUs)
      && (e.report.error == TooLarge <==> !fits)
      && (e.report.error == UnexpectedContinuation <==> fits && |data| == 1 && last.opcode == 0)
      && (e.report.error == ExpectedContinuation <==> fits && |data| > 1 && (last.opcode == 1 || last.opcode == 2))
      && e.report.messageType == data[0].opcode
      && e.report.bytes == Payloads(data)[..Min(|Payloads(data)|, room)]
  {
    hide Expected, AtFront, DataFrames, IsMessage, ReportOf, Open, AllWhole, Stops, Payloads;
    var data := DataFrames(fs);
    assert [] + data == data;
    FrontOpcodes(bytes, c, fs, rest);
    WhichError(data, room, c.max);
    NothingOpen(room, c.max);
    ExplainedCall(st, bytes, c, room, [], fs, rest, Finished(st, rest, c, room, data));
  }
}

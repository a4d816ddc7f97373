/** Reassembling messages from fragments (section 5.4 of RFC 6455), as NextMessage and
    asyncNextMessage of codec/websocket/stream.go do it. */
module Messages {
  import opened Bytes
  import opened Frames

  const TYPE_NONE := 255

  // A received frame, as far as reassembly looks at it.
  datatype Fragment = Fragment(fin: bool, opcode: int, payload: seq<byte>)

  datatype MessageError = NoError | TooLarge | UnexpectedContinuation | ExpectedContinuation | Stopped

  // ---- What a message is ----

  predicate IsDataOpcode(op: int) { op == OPCODE_CONTINUATION || op == OPCODE_TEXT || op == OPCODE_BINARY }

  ghost predicate DataOpcodes(fs: seq<Fragment>) {
    forall i :: 0 <= i < |fs| ==> IsDataOpcode(fs[i].opcode)
  }

  ghost function Payloads(data: seq<Fragment>): seq<byte> {
    if data == [] then [] else Payloads(data[..|data| - 1]) + data[|data| - 1].payload
  }

  // Continuations behind a first frame that is none.
  ghost predicate Chained(data: seq<Fragment>) {
    forall i :: 0 <= i < |data| ==> (data[i].opcode == OPCODE_CONTINUATION <==> i > 0)
  }

  // One text or binary frame, and continuations behind it; FIN on the last and only there.
  ghost predicate IsMessage(data: seq<Fragment>) {
    && data != [] && (data[0].opcode == OPCODE_TEXT || data[0].opcode == OPCODE_BINARY)
    && Chained(data) && forall i :: 0 <= i < |data| ==> (data[i].fin <==> i == |data| - 1)
  }

  ghost predicate Fits(data: seq<Fragment>, room: nat, max: nat) {
    |Payloads(data)| <= room && |Payloads(data)| <= max
  }

  // The beginning of a message that goes on and has fitted so far.
  ghost predicate Open(data: seq<Fragment>, room: nat, max: nat) {
    Chained(data) && Fits(data, room, max) && forall i :: 0 <= i < |data| ==> !data[i].fin
  }

  // Data frames of which the last one ends the call.
  ghost predicate Decided(data: seq<Fragment>, room: nat, max: nat) {
    data != [] && Open(data[..|data| - 1], room, max) && !Open(data, room, max)
  }

  // ---- The outcome of a call ----

  // Everything a call reports, as it follows from the data frames it received.
  datatype Report = Report(error: MessageError, messageType: int, bytes: seq<byte>)

  ghost function TypeOf(data: seq<Fragment>): int {
    if data == [] then TYPE_NONE else data[0].opcode
  }

  ghost function ReportOf(data: seq<Fragment>, room: nat, max: nat): Report {
    var c := Payloads(data);
    Report(
      if |c| > room || |c| > max then TooLarge
      else if data != [] && data[0].opcode == OPCODE_CONTINUATION then UnexpectedContinuation
      else if |data| > 1 && data[|data| - 1].opcode != OPCODE_CONTINUATION then ExpectedContinuation
      else if data == [] || !data[|data| - 1].fin then Stopped
      else NoError,
      TypeOf(data), c[..Min(|c|, room)])
  }

  // A call succeeds exactly when the data frames it received are one message that fits, and then
  // reports all of its bytes and the opcode of its first frame.
  lemma SuccessIff(data: seq<Fragment>, room: nat, max: nat)
    requires (Open(data, room, max) || Decided(data, room, max)) && DataOpcodes(data)
    ensures ReportOf(data, room, max).error == NoError <==> IsMessage(data) && Fits(data, room, max)
    ensures IsMessage(data) && Fits(data, room, max) ==>
      ReportOf(data, room, max) == Report(NoError, data[0].opcode, Payloads(data))
  {
    hide Payloads;
    if data != [] { assert IsDataOpcode(data[0].opcode); }
    if !Open(data, room, max) {
      var n := |data| - 1;
      forall i | 0 <= i < n ensures (data[i].opcode == OPCODE_CONTINUATION <==> i > 0) && !data[i].fin {
        assert data[..n][i] == data[i];
      }
    }
  }

  // Which error ends a call, by the data frames it received: the last of them makes the message too
  // long, or continues nothing, or starts a second message inside the first; if none of these holds
  // it completes the message.
  lemma WhichError(data: seq<Fragment>, room: nat, max: nat)
    requires Decided(data, room, max) && DataOpcodes(data)
    ensures var (last, fits) := (data[|data| - 1], |Payloads(data)| <= room && |Payloads(data)| <= max);
      var error := ReportOf(data, room, max).error;
      && (error == TooLarge <==> !fits)
      && (error == UnexpectedContinuation <==> fits && |data| == 1 && last.opcode == 0)
      && (error == ExpectedContinuation <==> fits && |data| > 1 && (last.opcode == 1 || last.opcode == 2))
      && (error == NoError <==> fits && last.fin && (if |data| == 1 then last.opcode != 0 else last.opcode == 0))
    ensures ReportOf(data, room, max).error != Stopped
    ensures ReportOf(data, room, max).messageType == data[0].opcode
    ensures ReportOf(data, room, max).bytes == Payloads(data)[..Min(|Payloads(data)|, room)]
  {
    hide Payloads;
    var n := |data| - 1;
    assert data == data[..n] + [data[n]] && IsDataOpcode(data[n].opcode);
    OpenAppend(data[..n], data[n], room, max);
    if n > 0 { assert data[..n][0] == data[0]; }
  }

  // ---- One data frame ----

  datatype Progress = Progress(bytes: seq<byte>, continuation: bool, messageType: int)

  datatype Outcome = Go(next: Progress) | Over(error: MessageError, last: Progress)

  ghost predicate Tracks(p: Progress, data: seq<Fragment>) {
    p == Progress(Payloads(data), data != [], TypeOf(data))
  }

  // What the loop of NextMessage does with a data frame.
  function OnDataFrame(p: Progress, f: Fragment, room: nat, max: nat): (o: Outcome)
    requires |p.bytes| <= room
    ensures o.Over? ==> !o.error.Stopped?
  {
    var messageType := if p.messageType == TYPE_NONE then f.opcode else p.messageType;
    var n := Min(room - |p.bytes|, |f.payload|);
    var bytes := p.bytes + f.payload[..n];
    if |bytes| > max || n != |f.payload| then Over(TooLarge, Progress(bytes, p.continuation, messageType))
    else
      var error :=
        if !p.continuation then
          if f.opcode == OPCODE_CONTINUATION then UnexpectedContinuation else NoError
        else if f.opcode != OPCODE_CONTINUATION then ExpectedContinuation else NoError;
      var next := Progress(bytes, !f.fin, messageType);
      if error != NoError || !next.continuation then Over(error, next) else Go(next)
  }

  // What the callback of asyncNextMessage does with a data frame: report and stop, or call again.
  function OnAsyncFrame(p: Progress, f: Fragment, room: nat, max: nat): (o: Outcome)
    requires |p.bytes| <= room
    ensures o.Over? ==> !o.error.Stopped?
  {
    var messageType := if p.messageType == TYPE_NONE then f.opcode else p.messageType;
    var n := Min(|f.payload|, room - |p.bytes|);
    var readBytes := |p.bytes| + n;
    if readBytes > max || n != |f.payload| then
      Over(TooLarge, Progress(p.bytes + f.payload[..n], p.continuation, messageType))
    else
      var bytes := p.bytes + f.payload;
      match (p.continuation, f.opcode == OPCODE_CONTINUATION)
      case (false, true) => Over(UnexpectedContinuation, Progress(bytes, !f.fin, messageType))
      case (true, false) => Over(ExpectedContinuation, Progress(bytes, !f.fin, messageType))
      case _ =>
        if f.fin then Over(NoError, Progress(bytes, false, messageType)) else Go(Progress(bytes, true, messageType))
  }

  ghost predicate StepRight(o: Outcome, data: seq<Fragment>, room: nat, max: nat) {
    if o.Go? then Open(data, room, max) && Tracks(o.next, data)
    else Decided(data, room, max) && Report(o.error, o.last.messageType, o.last.bytes) == ReportOf(data, room, max)
  }

  lemma DataFrameRight(p: Progress, data: seq<Fragment>, f: Fragment, room: nat, max: nat)
    requires Open(data, room, max) && Tracks(p, data) && DataOpcodes(data) && IsDataOpcode(f.opcode)
    ensures StepRight(OnDataFrame(p, f, room, max), data + [f], room, max)
  {
    NextData(data, f, room, max);
    Cropped(Payloads(data), f.payload, room);
    hide Payloads, Open;
  }

  lemma AsyncFrameRight(p: Progress, data: seq<Fragment>, f: Fragment, room: nat, max: nat)
    requires Open(data, room, max) && Tracks(p, data) && DataOpcodes(data) && IsDataOpcode(f.opcode)
    ensures StepRight(OnAsyncFrame(p, f, room, max), data + [f], room, max)
  {
    NextData(data, f, room, max);
    Cropped(Payloads(data), f.payload, room);
    hide Payloads, Open;
  }

  // What fits of b behind a is what fits of both.
  lemma Cropped(a: seq<byte>, b: seq<byte>, room: nat)
    requires |a| <= room
    ensures a + b[..Min(room - |a|, |b|)] == (a + b)[..Min(|a + b|, room)]
    ensures b[..|b|] == b && (a + b)[..|a + b|] == a + b
  {}

  // What one more data frame makes of an open message.
  lemma NextData(data: seq<Fragment>, f: Fragment, room: nat, max: nat)
    requires Open(data, room, max) && DataOpcodes(data) && IsDataOpcode(f.opcode)
    ensures var data' := data + [f];
      && data'[..|data|] == data && data'[|data|] == f && Payloads(data') == Payloads(data) + f.payload
      && (data != [] ==> data'[0] == data[0] && 0 <= data[0].opcode < 16 && data[0].opcode != OPCODE_CONTINUATION)
      && DataOpcodes(data') && |Payloads(data)| <= room && |Payloads(data)| <= max
      && (Open(data', room, max) <==>
           Fits(data', room, max) && (f.opcode == OPCODE_CONTINUATION <==> data != []) && !f.fin)
  {
    var data' := data + [f];
    assert data'[..|data|] == data && data'[|data|] == f;
    assert Payloads(data') == Payloads(data) + f.payload;
    OpenAppend(data, f, room, max);
    if data != [] { assert data'[0] == data[0] && IsDataOpcode(data[0].opcode); }
    forall i | 0 <= i < |data'| ensures IsDataOpcode(data'[i].opcode) {
      if i < |data| { assert data'[i] == data[i]; }
    }
  }

  lemma OpenAppend(data: seq<Fragment>, f: Fragment, room: nat, max: nat)
    requires Open(data, room, max)
    ensures Open(data + [f], room, max) <==>
      Fits(data + [f], room, max) && (f.opcode == OPCODE_CONTINUATION <==> data != []) && !f.fin
  {
    hide Payloads;
    var data' := data + [f];
    forall i | 0 <= i < |data|
      ensures (data'[i].opcode == OPCODE_CONTINUATION <==> i > 0) && !data'[i].fin
    {
      assert data'[i] == data[i];
    }
    assert data'[|data|] == f;
  }
}

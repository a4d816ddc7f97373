/** A frame on its whole way: set up, masked, encoded into a buffer, decoded out of it and unmasked. */
module FrameRoundTrips {
  import opened Bytes
  import opened Bits
  import opened ByteBuffers
  import opened Frames
  import opened FrameBuffers
  import opened FrameCodecs
  import opened CodecConns

  // Set up and mask a new frame, and encode it into an empty buffer.
  method Send(fin: bool, opcode: nat, payload: seq<byte>, mask: seq<byte>)
    returns (b: ByteBuffer, ghost m: seq<byte>)
    requires opcode < 16 && |payload| <= MAX_INT && |mask| == 4
    ensures fresh(b) && fresh(b.data) && b.Valid() && b.Saved() == [] && |m| == 4
    ensures b.Unread() == Layout(fin, opcode, WithMask(m), payload)
  {
    hide ByteBuffer.Valid, ByteBuffer.Unread, ByteBuffer.Saved, Layout, ExtendedBytes;
    var f := new Frame();
    NewFrameLongEnough(|payload|);
    var panicked := BuildMasked(f, fin, opcode, payload, mask);
    m :| |m| == 4 && f.data == Layout(fin, opcode, WithMask(m), payload);
    ReadBack(fin, opcode, WithMask(m), payload, f.data);
    b := EncodeNew(f.data);
  }

  method EncodeNew(frame: seq<byte>) returns (b: ByteBuffer)
    requires |frame| >= 2 && |frame| >= 2 + ExtendedBytes(frame)
    ensures fresh(b) && fresh(b.data) && b.Valid() && b.Saved() == [] && b.Unread() == frame
  {
    hide ByteBuffer.Intact, ExtendedBytes;
    b := new ByteBuffer();
    NothingInFront(frame);
    Encode(frame, b);
    UnreadAreas(b.content, b.si, b.ri, 0);
  }

  lemma NothingInFront(frame: seq<byte>)
    ensures [] + frame == frame && frame[..|frame|] == frame && frame[|frame|..] == [] && frame + [] == frame
  {}

  // Take a decoded frame apart.
  method Open(g: seq<byte>, ghost payload: seq<byte>) returns (fin: bool, opcode: nat, bytes: seq<byte>)
    requires |g| >= 2 && PayloadOffset(g) <= |g| && IsMasked(g) && payload == Masked(MaskOf(g), Payload(g))
    ensures fin == IsFIN(g) && opcode == OpcodeOf(g) && bytes == payload
  {
    hide And, Masked;
    var f := new Frame();
    f.data := g;
    f.UnmaskPayload();
    var n := PayloadOffset(g);
    MaskTwice(MaskOf(g), f.data[n..]);
    assert f.data[..n][0] == f.data[0] && f.data[..n][1] == f.data[1] && g[..n][0] == g[0] && g[..n][1] == g[1];
    fin, opcode, bytes := IsFIN(f.data), OpcodeOf(f.data), Payload(f.data);
  }

  // Every frame that is built, masked, encoded, decoded and unmasked is the same frame again.
  method Through(fin: bool, opcode: nat, payload: seq<byte>, mask: seq<byte>, max: nat)
    returns (fin': bool, opcode': nat, payload': seq<byte>)
    requires opcode < 16 && |payload| <= max <= MAX_INT && |mask| == 4
    ensures fin' == fin && opcode' == opcode && payload' == payload
  {
    hide ByteBuffer.Intact, Layout, ParseOne, And, Masked;
    var b; ghost var m;
    b, m := Send(fin, opcode, payload, mask);
    ghost var f := Layout(fin, opcode, WithMask(m), payload);
    RoundTrip(fin, opcode, WithMask(m), payload, [], max);
    assert f + [] == f;
    var codec := new FrameCodec(b, max);
    var r := codec.Decode();
    assert r == Decoded(f) by { assert f[..|f|] == f; }
    fin', opcode', payload' := Open(r.frame, payload);
  }
}

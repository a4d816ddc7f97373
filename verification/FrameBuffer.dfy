/** codec/websocket/frame.go: building a frame in place in a pooled byte slice. */
module FrameBuffers {
  import opened Bits
  import opened Bytes
  import opened Frames

  // util.ExtendSlice: what lies beyond the old length is whatever the memory held.
  method ExtendSlice(xs: seq<byte>, need: nat) returns (r: seq<byte>)
    ensures |r| == need && forall i :: 0 <= i < need && i < |xs| ==> r[i] == xs[i]
  {
    if need <= |xs| { return xs[..need]; }
    var n := need - |xs|;
    assert |seq<byte>(n, _ => 0)| == n;
    var beyond: seq<byte> :| |beyond| == n;
    r := xs + beyond;
  }

  // copy(f[at:], b)
  function Copied(f: seq<byte>, at: nat, b: seq<byte>): (r: seq<byte>)
    requires at + |b| <= |f|
    ensures |r| == |f| && r[at..at + |b|] == b
    ensures forall i :: 0 <= i < |f| && (i < at || at + |b| <= i) ==> r[i] == f[i]
  {
    f[..at] + b + f[at + |b|..]
  }

  class Frame {
    var data: seq<byte>

    // NewFrame
    constructor ()
      ensures data == seq(MAX_HEADER_LENGTH, _ => 0)
    {
      data := seq(MAX_HEADER_LENGTH, _ => 0);
    }

    // Zero the header; the length stays, so a pooled frame may be shorter than a full header.
    method Reset()
      modifies this
      ensures |data| == |old(data)|
      ensures forall i :: 0 <= i < |data| ==> data[i] == if i < MAX_HEADER_LENGTH then 0 else old(data)[i]
    {
      data := Copied(data, 0, seq(Min(MAX_HEADER_LENGTH, |data|), _ => 0));
    }

    method SetFIN()
      requires |data| >= 2
      modifies this
      ensures data == old(data)[0 := if old(data)[0] >= 128 then old(data)[0] else old(data)[0] + 128]
    {
      TopBit(data[0]);
      data := data[0 := Or(data[0], 128)];
    }

    method SetIsMasked()
      requires |data| >= 2
      modifies this
      ensures data == old(data)[1 := if old(data)[1] >= 128 then old(data)[1] else old(data)[1] + 128]
    {
      TopBit(data[1]);
      data := data[1 := Or(data[1], 128)];
    }

    method SetOpcode(c: nat)
      requires |data| >= 2
      modifies this
      ensures data == old(data)[0 := old(data)[0] - old(data)[0] % 16 + c % 16]
    {
      hide And, Or;
      LowNibble(c);
      OpcodeBits(data[0], c % 16);
      data := data[0 := And(data[0], 240)];
      data := data[0 := Or(data[0], And(c, 15))];
    }

    // Writes the length in its shortest form. PutUint64 and PutUint16 panic when the slice is
    // too short for them.
    method SetPayloadLength(n: nat) returns (panicked: bool)
      requires |data| >= 2 && n <= MAX_INT
      modifies this
      ensures panicked == (|old(data)| < 2 + LengthField(n).1)
      ensures !panicked ==>
        && |data| == |old(data)| && data[0] == old(data)[0]
        && data[1] == SecondByte(old(data)[1] >= 128, n) && data[2..2 + LengthField(n).1] == ToBE(n, LengthField(n).1)
    {
      hide And, Or, ToBE;
      var (v, ext) := LengthField(n);
      LengthBits(data[1], v);
      data := data[1 := And(data[1], 128)];
      if n > 65535 {
        data := data[1 := Or(data[1], 127)];
        if |data| - 2 < 8 { return true; }
        data := Copied(data, 2, ToBE(n, 8));
      } else if n > 125 {
        data := data[1 := Or(data[1], 126)];
        if |data| - 2 < 2 { return true; }
        data := Copied(data, 2, ToBE(n, 2));
      } else {
        data := data[1 := Or(data[1], n)];
      }
      return false;
    }

    // A payload behind the header; the mask bytes, if any, stay as they are in memory.
    method SetPayload(b: seq<byte>) returns (panicked: bool)
      requires |data| >= 2 && |b| <= MAX_INT
      modifies this
      ensures panicked == (|old(data)| < 2 + LengthField(|b|).1)
      ensures !panicked ==> Carries(data, old(data)[0], old(data)[1] >= 128, b)
    {
      panicked := SetPayloadLength(|b|);
      if !panicked {
        hide And, ToBE, LengthField;
        LengthBack(data, |b|);
        ghost var before, ext := data, LengthField(|b|).1;
        var offset := PayloadOffset(data);
        data := ExtendSlice(data, offset + |b|);
        data := Copied(data, offset, b);
        hide Copied;
        KeepsHeader(before, data, 2 + ext, offset, b);
      }
    }

    // A random mask is drawn only for a non-empty payload.
    method MaskPayload(mask: seq<byte>, ghost b0: byte, ghost payload: seq<byte>)
      requires |mask| == 4 && |payload| <= MAX_INT && Carries(data, b0, true, payload)
      modifies this
      ensures exists m :: LaidOut(data, b0, m, payload) && (payload != [] ==> m == mask)
    {
      hide And, ToBE, LengthField, Masked;
      LengthBack(data, |payload|);
      TopBit(data[1]);
      data := data[1 := Or(data[1], 128)];
      var offset := PayloadOffset(data);
      ghost var head, len := [b0, SecondByte(true, |payload|)], ToBE(|payload|, LengthField(|payload|).1);
      assert data[..2] == head;
      var body := data[offset..];
      if |body| > 0 {
        var hidden := Mask(mask, body);
        Assemble(data, head, len, mask, hidden);
        data := Copied(data, offset - 4, mask)[..offset] + hidden;
        assert LaidOut(data, b0, mask, payload);
      } else {
        var stale := data[offset - 4..offset];
        MaskedNothing(stale);
        Assemble(data, head, len, stale, []);
        assert LaidOut(data, b0, stale, payload);
      }
    }

    method UnmaskPayload()
      requires |data| >= 2 && |data| >= PayloadOffset(data)
      modifies this
      ensures |data| == |old(data)| && data[..PayloadOffset(old(data))] == old(data)[..PayloadOffset(old(data))]
      ensures IsMasked(old(data)) ==> Payload(old(data)) == Masked(MaskOf(old(data)), data[PayloadOffset(old(data))..])
      ensures !IsMasked(old(data)) ==> data == old(data)
    {
      hide And, Masked;
      if IsMasked(data) {
        var offset := PayloadOffset(data);
        var mask := MaskOf(data);
        var plain := Mask(mask, Payload(data));
        MaskTwice(mask, Payload(data));
        data := data[..offset] + plain;
      }
    }
  }

  // A payload at the offset leaves the header in front of it as it was.
  lemma KeepsHeader(f: seq<byte>, g: seq<byte>, header: nat, offset: nat, b: seq<byte>)
    requires 2 <= header <= offset && header <= |f| && |g| == offset + |b| && g[offset..offset + |b|] == b
    requires forall i :: 0 <= i < header ==> g[i] == f[i]
    ensures g[0] == f[0] && g[1] == f[1] && g[2..header] == f[2..header] && g[offset..] == b
  {}

  // Putting a mask and a body behind the first two parts of f.
  lemma Assemble(f: seq<byte>, a: seq<byte>, b: seq<byte>, c: seq<byte>, d: seq<byte>)
    requires |f| == |a| + |b| + |c| + |d| && f[..|a|] == a && f[|a|..|a| + |b|] == b
    ensures Copied(f, |a| + |b|, c)[..|a| + |b| + |c|] + d == a + b + c + d
    ensures f[|a| + |b|..|a| + |b| + |c|] == c && d == [] ==> f == a + b + c + d
  {
    assert f[..|a| + |b|] == a + b;
  }

  lemma MaskedNothing(mask: seq<byte>)
    requires |mask| == 4
    ensures Masked(mask, []) == []
  {}

  // f is the frame with first byte b0, mask m and this payload.
  ghost predicate LaidOut(f: seq<byte>, b0: byte, m: seq<byte>, payload: seq<byte>) {
    && |m| == 4
    && f == [b0, SecondByte(true, |payload|)] + ToBE(|payload|, LengthField(|payload|).1) + m + Masked(m, payload)
  }

  // f has first byte b0, the length of the payload in its shortest form, and the payload at its end.
  ghost predicate Carries(f: seq<byte>, b0: byte, masked: bool, payload: seq<byte>) {
    var (n, ext) := (|payload|, LengthField(|payload|).1);
    var h := 2 + ext + (if masked then 4 else 0);
    && |f| == h + n && f[0] == b0 && f[1] == SecondByte(masked, n)
    && f[2..2 + ext] == ToBE(n, ext) && f[h..] == payload
  }

  // The offset computed from the header that was just written.
  lemma LengthBack(f: seq<byte>, n: nat)
    requires |f| >= 2 && (f[1] == SecondByte(true, n) || f[1] == SecondByte(false, n))
    ensures ExtendedBytes(f) == LengthField(n).1 && IsMasked(f) == (f[1] >= 128)
    ensures PayloadOffset(f) == 2 + LengthField(n).1 + (if f[1] >= 128 then 4 else 0)
  {
    hide And, Or;
    TopBit(f[1]);
    LowBits(f[1]);
  }

  lemma LowNibble(c: nat)
    ensures And(c, 15) == c % 16
  {
    Powers();
    AndLowMask(c, 4);
  }

  // A frame of the pool: new, or reset after use.
  ghost predicate Clean(f: Frame)
    reads f
  {
    |f.data| >= 2 && f.data[0] == 0 && f.data[1] == 0
  }

  // How the client builds every frame it sends: AcquireFrame, header, payload, mask. It fails
  // exactly when a pooled frame is too short for the length field.
  method BuildMasked(f: Frame, fin: bool, opcode: nat, payload: seq<byte>, mask: seq<byte>) returns (panicked: bool)
    requires Clean(f) && opcode < 16 && |payload| <= MAX_INT && |mask| == 4
    modifies f
    ensures panicked == (|old(f.data)| < 2 + LengthField(|payload|).1)
    ensures !panicked ==>
      exists m :: |m| == 4 && (payload != [] ==> m == mask) && f.data == Layout(fin, opcode, WithMask(m), payload)
  {
    hide ToBE, Masked;
    f.SetIsMasked();
    if fin { f.SetFIN(); }
    f.SetOpcode(opcode);
    assert f.data[0] == FirstByte(fin, opcode);
    panicked := f.SetPayload(payload);
    if !panicked {
      f.MaskPayload(mask, FirstByte(fin, opcode), payload);
      ghost var m :| LaidOut(f.data, FirstByte(fin, opcode), m, payload) && (payload != [] ==> m == mask);
      assert f.data == Layout(fin, opcode, WithMask(m), payload);
    }
  }

  // A new frame is always long enough.
  lemma NewFrameLongEnough(n: nat)
    ensures MAX_HEADER_LENGTH >= 2 + LengthField(n).1
  {}

  // A frame that carried no payload goes back to the pool with six bytes, and setting any payload
  // that needs an 8-byte length on it panics.
  method ShortPooledFrame(payload: seq<byte>, mask: seq<byte>) returns (first: bool, second: bool)
    requires 65535 < |payload| <= MAX_INT && |mask| == 4
    ensures !first && second
  {
    hide ToBE, Masked, Layout;
    var f := new Frame();
    first := BuildMasked(f, true, OPCODE_TEXT, [], mask);
    assert |f.data| == 6;
    f.Reset();
    second := BuildMasked(f, true, OPCODE_BINARY, payload, mask);
  }
}

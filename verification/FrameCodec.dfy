/** codec/websocket/frame_codec.go: an incremental parser of frames over a ByteBuffer. */
module FrameCodecs {
  import opened Bytes
  import opened Bits
  import opened ByteBuffers
  import opened Frames

  // ---- Parsing a whole byte string ----

  // A negative 64-bit length (top bit set) is not a frame: section 5.2 of RFC 6455 forbids it.
  datatype ParseResult = Incomplete | OverMax | BadLength | Whole(length: nat)

  function ParseOne(s: seq<byte>, max: nat): (r: ParseResult)
    ensures r.Whole? ==> 2 <= r.length <= |s|
  {
    if |s| < 2 || |s| < 2 + ExtendedBytes(s) then Incomplete
    else if PayloadLength(s) > max then OverMax
    else if |s| < PayloadOffset(s) then Incomplete
    else if PayloadLength(s) < 0 then BadLength
    else if |s| < PayloadOffset(s) + PayloadLength(s) then Incomplete
    else Whole(PayloadOffset(s) + PayloadLength(s))
  }

  // What is waited for, in terms of the bytes at hand: the length decides as soon as it is there, a
  // bad one only behind the mask.
  lemma ParseIff(s: seq<byte>, max: nat)
    ensures |s| < 2 || |s| < 2 + ExtendedBytes(s) ==> ParseOne(s, max) == Incomplete
    ensures |s| >= 2 && |s| >= 2 + ExtendedBytes(s) ==>
      var (n, h) := (PayloadLength(s), 2 + ExtendedBytes(s) + if s[1] >= 128 then 4 else 0);
      && (ParseOne(s, max) == OverMax <==> n > max)
      && (ParseOne(s, max) == BadLength <==> n < 0 && |s| >= h)
      && (ParseOne(s, max).Whole? <==> 0 <= n <= max && |s| >= h + n)
      && (ParseOne(s, max).Whole? ==> ParseOne(s, max).length == h + n)
  {
    hide PayloadLength, ExtendedBytes;
    if |s| >= 2 { HeaderBits(s); }
  }

  // The header fields depend only on the bytes that hold them.
  lemma SameHeader(s: seq<byte>, g: seq<byte>)
    requires |s| >= 2 && s <= g
    ensures ExtendedBytes(g) == ExtendedBytes(s) && IsMasked(g) == IsMasked(s) && PayloadOffset(g) == PayloadOffset(s)
    ensures |s| >= 2 + ExtendedBytes(s) ==> PayloadLength(g) == PayloadLength(s)
  {
    assert g[0] == s[0] && g[1] == s[1];
    if |s| >= 10 { assert g[2..10] == s[2..10]; }
    if |s| >= 4 { assert g[2..4] == s[2..4]; }
  }

  // More bytes never change a verdict once there is one.
  lemma ParseStable(s: seq<byte>, t: seq<byte>, max: nat)
    requires !ParseOne(s, max).Incomplete?
    ensures ParseOne(s + t, max) == ParseOne(s, max)
  {
    SameHeader(s, s + t);
  }

  // A frame in the format of section 5.2 is parsed off the front of any stream, with its FIN bit,
  // opcode and, once unmasked, its payload.
  lemma RoundTrip(fin: bool, opcode: int, m: Masking, payload: seq<byte>, rest: seq<byte>, max: nat)
    requires 0 <= opcode < 16 && WellMasked(m) && |payload| <= max <= MAX_INT
    ensures var f := Layout(fin, opcode, m, payload);
      && ParseOne(f + rest, max) == Whole(|f|)
      && IsFIN(f) == fin && OpcodeOf(f) == opcode && !HasReservedBits(f) && IsMasked(f) == m.WithMask?
      && PayloadOffset(f) <= |f| && PayloadLength(f) == |payload|
      && payload == if m.WithMask? then Masked(MaskOf(f), Payload(f)) else Payload(f)
  {
    hide And, BE, ToBE, Layout, HasReservedBits, IsFIN, OpcodeOf;
    var f := Layout(fin, opcode, m, payload);
    ReadBack(fin, opcode, m, payload, f);
    ReadBack(fin, opcode, m, payload, f + rest);
    LayoutPieces(fin, opcode, m, payload, f);
    var h := HeaderLength(m, |payload|);
    assert f[h..h + |payload|] == Payload(f);
    if m.WithMask? { MaskTwice(m.mask, payload); }
  }

  // ---- The decoder ----

  datatype DecodeResult = Decoded(frame: seq<byte>) | NeedMore | TooBig | Malformed

  class FrameCodec {
    const src: ByteBuffer
    const max: nat
    var decodeLength: nat   // length of the frame handed out last
    var decodeReset: bool   // that frame is still to be consumed

    ghost predicate Valid()
      reads this, src, src.data
    {
      src.Valid() && (decodeReset ==> decodeLength <= |src.Readable()|)
    }

    // The bytes not yet handed out.
    ghost function Stream(): seq<byte>
      requires Valid()
      reads this, src, src.data
    {
      if decodeReset then src.Unread()[decodeLength..] else src.Unread()
    }

    constructor (src: ByteBuffer, max: nat)
      requires src.Valid()
      ensures Valid() && this.src == src && this.max == max && !decodeReset
    {
      this.src, this.max := src, max;
      decodeLength, decodeReset := 0, false;
    }

    method ResetDecode()
      requires Valid()
      modifies this, src, src.data
      ensures Valid() && !decodeReset && Stream() == old(Stream()) && src.data == old(src.data)
      ensures src.Saved() == old(src.Saved())
    {
      hide ByteBuffer.Intact;
      if decodeReset {
        decodeReset := false;
        UnreadAreas(src.content, src.si, src.ri, decodeLength);
        src.Consume(decodeLength);
        decodeLength := 0;
        UnreadAreas(src.content, src.si, src.ri, 0);
      }
    }

    // The first k bytes of the read area.
    method Peek(k: nat) returns (f: seq<byte>)
      requires src.Valid() && k <= |src.Readable()|
      ensures f == src.Unread()[..k]
    {
      hide ByteBuffer.Intact;
      f := src.Front(k);
    }

    // Make the next k bytes readable; the stream stays the same.
    method Prepare(k: int) returns (needMore: bool)
      requires src.Valid()
      modifies src`ri
      ensures src.Valid() && needMore == (k > |src.Unread()|)
      ensures src.Unread() == old(src.Unread()) && src.Saved() == old(src.Saved())
      ensures !needMore && k >= 0 ==> k <= |src.Readable()|
    {
      hide ByteBuffer.Intact;
      UnreadAreas(src.content, src.si, src.ri, 0);
      needMore := src.PrepareRead(k);
      UnreadAreas(src.content, src.si, src.ri, 0);
    }

    method Decode() returns (r: DecodeResult)
      requires Valid()
      modifies this, src, src.data
      ensures Valid() && src.Saved() == old(src.Saved()) && (src.data == old(src.data) || fresh(src.data))
      ensures src.data.Length >= old(src.data.Length)
      ensures match ParseOne(old(Stream()), max)
        case Whole(n) => r == Decoded(old(Stream())[..n]) && Stream() == old(Stream())[n..]
        case Incomplete => r == NeedMore && Stream() == old(Stream())
        case OverMax => r == TooBig && Stream() == old(Stream())
        case BadLength => r == Malformed && Stream() == old(Stream())
      ensures r.NeedMore? ==> !decodeReset && HasRoom(Stream(), src.data.Length - src.wi)
    {
      hide And, BE, PayloadLength, ExtendedBytes, IsMasked, ByteBuffer.Intact, ByteBuffer.Valid;
      hide ByteBuffer.Readable, ByteBuffer.Unread;
      ResetDecode();
      ghost var s := Stream();
      var readSoFar := HEADER_LENGTH;
      var more := Prepare(readSoFar);
      if more { return NeedMore; }
      var f := Peek(readSoFar);
      SameHeader(f, s);

      readSoFar := readSoFar + ExtendedBytes(f);
      more := Prepare(readSoFar);
      if more { return NeedMore; }
      f := Peek(readSoFar);
      SameHeader(f, s);
      var payloadLength := PayloadLength(f);
      if payloadLength > max { return TooBig; }

      if IsMasked(f) {
        readSoFar := readSoFar + MASK_LENGTH;
        more := Prepare(readSoFar);
        if more { return NeedMore; }
      }
      if payloadLength < 0 { return Malformed; }

      r := Finish(readSoFar, payloadLength);
    }

    // The payload: hand out the whole frame, or make room for what is missing.
    method Finish(header: nat, n: nat) returns (r: DecodeResult)
      requires Valid() && !decodeReset && |Stream()| >= 2 && header == PayloadOffset(Stream()) <= |Stream()|
      requires n == PayloadLength(Stream()) <= max
      modifies this, src, src.data
      ensures Valid() && src.Saved() == old(src.Saved()) && (src.data == old(src.data) || fresh(src.data))
      ensures src.data.Length >= old(src.data.Length)
      ensures if header + n <= |old(Stream())|
        then r == Decoded(old(Stream())[..header + n]) && Stream() == old(Stream())[header + n..]
        else r == NeedMore && Stream() == old(Stream())
      ensures r.NeedMore? ==> !decodeReset && HasRoom(Stream(), src.data.Length - src.wi)
    {
      hide ByteBuffer.Intact, PayloadLength, PayloadOffset;
      var more := Prepare(header + n);
      if more {
        src.Reserve(n);
        return NeedMore;
      }
      var f := Peek(header + n);
      decodeReset, decodeLength := true, header + n;
      return Decoded(f);
    }
  }

  // Free space when more bytes are needed: the header may be incomplete, but once the length is
  // known there is room for all that is missing.
  ghost predicate HasRoom(s: seq<byte>, room: int) {
    || |s| < 2 || |s| < PayloadOffset(s)
    || (|s| < PayloadOffset(s) + PayloadLength(s) <= |s| + room)
  }

  lemma UnreadAreas(content: seq<byte>, si: nat, ri: nat, k: nat)
    requires si <= ri <= |content| && k <= ri - si
    ensures content[si..][k..] == content[si..ri][k..] + content[ri..]
    ensures content[si..] == content[si..ri] + content[ri..]
  {}
}

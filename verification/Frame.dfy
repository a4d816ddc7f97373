/** codec/websocket/frame.go, rfc6455.go and util.go: the layout of a WebSocket frame
    (section 5.2 of RFC 6455) and its masking (section 5.3). */
module Frames {
  import opened Bits
  import opened Bytes

  const HEADER_LENGTH := 2
  const MASK_LENGTH := 4
  const MAX_HEADER_LENGTH := 14

  const OPCODE_CONTINUATION := 0
  const OPCODE_TEXT := 1
  const OPCODE_BINARY := 2
  const OPCODE_CLOSE := 8
  const OPCODE_PING := 9
  const OPCODE_PONG := 10

  predicate IsControl(op: int) { op == OPCODE_PING || op == OPCODE_PONG || op == OPCODE_CLOSE }

  predicate IsReserved(op: int) {
    && op != OPCODE_CONTINUATION && op != OPCODE_TEXT && op != OPCODE_BINARY
    && op != OPCODE_CLOSE && op != OPCODE_PING && op != OPCODE_PONG
  }

  // The opcodes of section 5.2 by their numbers.
  lemma Opcodes(op: int)
    requires 0 <= op < 16
    ensures IsControl(op) <==> 8 <= op <= 10
    ensures IsReserved(op) <==> 3 <= op <= 7 || 11 <= op
  {}

  // ---- Header bytes, bit by bit ----

  lemma Powers()
    ensures Pow2(4) == 16 && Pow2(7) == 128 && Pow2(8) == 256
  {
    assert Pow2(4) == 16;
  }

  lemma TopBit(b: byte)
    ensures And(b, 128) == if b >= 128 then 128 else 0
    ensures Or(b, 128) == if b >= 128 then b else b + 128
  {
    hide And, Or, Pow2;
    Powers();
    AndSplit(b / 128, b % 128, 1, 0, 7, 128);
    OrSplit(b / 128, b % 128, 1, 0, 7, 128);
    assert b == (b / 128) * 128 + b % 128;
    OneBits();
  }

  lemma OneBits()
    ensures And(0, 1) == 0 && And(1, 1) == 1 && Or(0, 1) == 1 && Or(1, 1) == 1
    ensures forall x: nat {:trigger And(x, 0)} :: And(x, 0) == 0
    ensures forall x: nat {:trigger Or(x, 0)} :: Or(x, 0) == x
    ensures forall x: nat {:trigger Or(0, x)} :: Or(0, x) == x
  {
    assert And(1, 1) == 2 * And(0, 0) + 1;
    assert Or(1, 1) == 2 * Or(0, 0) + 1;
  }

  lemma LowBits(b: byte)
    ensures And(b, 127) == b % 128 && And(b, 15) == b % 16
  {
    Powers();
    AndLowMask(b, 7);
    AndLowMask(b, 4);
  }

  // Clearing the opcode keeps the four high bits; setting one then adds it.
  lemma OpcodeBits(b: byte, c: nat)
    requires c < 16
    ensures And(b, 240) == b - b % 16 && Or(b - b % 16, c) == b - b % 16 + c
  {
    hide And, Or, Pow2;
    Powers();
    var h := b / 16;
    assert b == h * 16 + b % 16;
    AndSplit(h, b % 16, 15, 0, 4, 16);
    AndLowMask(h, 4);
    OrSplit(h, 0, 0, c, 4, 16);
    OneBits();
  }

  // Replacing the seven length bits keeps the mask bit.
  lemma LengthBits(b: byte, n: nat)
    requires n < 128
    ensures And(b, 128) == b - b % 128 && Or(b - b % 128, n) == b - b % 128 + n
  {
    hide And, Or, Pow2;
    Powers();
    TopBit(b);
    OrSplit(b / 128, 0, 0, n, 7, 128);
    OneBits();
  }

  // ---- Big-endian numbers ----

  function Pow256(k: nat): (p: nat)
    ensures p >= 1
  {
    if k == 0 then 1 else 256 * Pow256(k - 1)
  }

  function ToBE(n: nat, k: nat): (s: seq<byte>)
    ensures |s| == k
  {
    if k == 0 then [] else ToBE(n / 256, k - 1) + [n % 256]
  }

  function BE(s: seq<byte>): nat {
    if s == [] then 0 else 256 * BE(s[..|s| - 1]) + s[|s| - 1]
  }

  lemma {:induction false} BigEndian(n: nat, k: nat)
    requires n < Pow256(k)
    ensures BE(ToBE(n, k)) == n
  {
    if k != 0 {
      BigEndian(n / 256, k - 1);
      assert ToBE(n, k)[..k - 1] == ToBE(n / 256, k - 1);
    }
  }

  // The most significant byte comes first.
  lemma {:induction false} FirstDigit(s: seq<byte>)
    requires s != []
    ensures BE(s) == (s[0] as int) * Pow256(|s| - 1) + BE(s[1..])
  {
    var n := |s| - 1;
    if n == 0 {
      assert s[..0] == [] && s[1..] == [] && BE([]) == 0 && Pow256(0) == 1;
    } else {
      FirstDigit(s[..n]);
      assert s[..n][1..] == s[1..][..n - 1] && s[1..][n - 1] == s[n];
      Shifted(s[0], Pow256(n - 1), BE(s[1..][..n - 1]));
    }
  }

  lemma Shifted(a: nat, p: nat, b: nat)
    ensures 256 * (a * p + b) == a * (256 * p) + 256 * b
  {}

  lemma TwoDigits(s: seq<byte>)
    requires |s| == 2
    ensures BE(s) == 256 * (s[0] as int) + s[1]
  {
    FirstDigit(s);
    FirstDigit(s[1..]);
    assert s[1..][1..] == [] && Pow256(1) == 256 && Pow256(0) == 1;
  }

  // The digits of a number that is written out.
  lemma {:induction false} Digits(n: nat, k: nat, i: nat)
    requires i < k
    ensures ToBE(n, k)[i] == n / Pow256(k - 1 - i) % 256
  {
    if i < k - 1 {
      Digits(n / 256, k - 1, i);
      DivTwice(n, Pow256(k - 2 - i));
    } else {
      assert Pow256(0) == 1;
    }
  }

  lemma DivTwice(n: nat, p: nat)
    requires p >= 1
    ensures n / 256 / p == n / (256 * p)
  {
    var q, a, b := n / 256 / p, n / 256 % p, n % 256;
    assert n == 256 * (n / 256) + b && n / 256 == q * p + a;
    Regrouped(q, p, a, b);
    DivModUnique(n, 256 * p, q, 256 * a + b);
  }

  lemma Regrouped(q: nat, p: nat, a: nat, b: nat)
    ensures 256 * (q * p + a) + b == q * (256 * p) + (256 * a + b)
  {}

  const MAX_INT: nat := 0x7fff_ffff_ffff_ffff

  lemma Widths()
    ensures Pow256(2) == 0x1_0000 && Pow256(8) == 2 * (MAX_INT + 1)
  {
    assert Pow256(4) == 0x1_0000_0000;
    assert Pow256(6) == 0x1_0000_0000_0000;
  }

  // The conversion of a 64-bit number to a signed int.
  function Signed(n: nat): int {
    if n > MAX_INT then n - 2 * (MAX_INT + 1) else n
  }

  // ---- Masking ----

  ghost function Masked(mask: seq<byte>, b: seq<byte>): (r: seq<byte>)
    requires |mask| == 4
    ensures |r| == |b|
  {
    seq(|b|, i requires 0 <= i < |b| => XorByte(b[i], mask[i % 4]))
  }

  function XorByte(x: byte, y: byte): byte {
    Powers();
    XorBound(x, y, 8);
    Xor(x, y)
  }

  // Masking is undone by masking again with the same key.
  lemma MaskTwice(mask: seq<byte>, b: seq<byte>)
    requires |mask| == 4
    ensures Masked(mask, Masked(mask, b)) == b
  {
    hide Xor;
    forall i | 0 <= i < |b| ensures Masked(mask, Masked(mask, b))[i] == b[i] {
      XorTwice(b[i], mask[i % 4]);
    }
  }

  // Mask: the loop over the payload, with the mask index taken as i & 3.
  method Mask(mask: seq<byte>, b: seq<byte>) returns (r: seq<byte>)
    requires |mask| == 4
    ensures r == Masked(mask, b)
    ensures |r| == |b| && forall i :: 0 <= i < |b| ==> r[i] == Xor(b[i], mask[i % 4])
  {
    hide And, Xor;
    r := b;
    for i := 0 to |b|
      invariant |r| == |b|
      invariant forall j :: 0 <= j < i ==> r[j] == XorByte(b[j], mask[j % 4])
      invariant forall j :: i <= j < |b| ==> r[j] == b[j]
    {
      MaskIndex(i);
      r := r[i := XorByte(r[i], mask[And(i, 3)])];
    }
  }

  lemma MaskIndex(i: nat)
    ensures And(i, 3) == i % 4
  {
    assert Pow2(2) == 4;
    AndLowMask(i, 2);
  }

  // ---- Reading a frame ----

  predicate IsFIN(f: seq<byte>)
    requires |f| >= 2
  {
    And(f[0], 128) != 0
  }

  // Any of RSV1, RSV2 and RSV3.
  predicate HasReservedBits(f: seq<byte>)
    requires |f| >= 2
  {
    And(f[0], 64) != 0 || And(f[0], 32) != 0 || And(f[0], 16) != 0
  }

  // The bits of any two header bytes, by their place values.
  lemma HeaderBits(f: seq<byte>)
    requires |f| >= 2
    ensures IsFIN(f) <==> f[0] >= 128
    ensures HasReservedBits(f) <==> f[0] / 16 % 8 != 0
    ensures OpcodeOf(f) == f[0] % 16
    ensures IsMasked(f) <==> f[1] >= 128
    ensures ExtendedBytes(f) == (match f[1] % 128 case 127 => 8 case 126 => 2 case _ => 0)
  {
    hide And;
    TopBit(f[0]);
    TopBit(f[1]);
    LowBits(f[0]);
    LowBits(f[1]);
    ReservedBits(f[0]);
  }

  lemma ReservedBits(b: byte)
    ensures And(b, 64) != 0 || And(b, 32) != 0 || And(b, 16) != 0 <==> b / 16 % 8 != 0
  {
    hide And;
    assert Pow2(4) == 16;
    assert Pow2(6) == 64 && Pow2(5) == 32;
    BitAt(b, 6, 64);
    BitAt(b, 5, 32);
    BitAt(b, 4, 16);
  }

  // The length of any frame, by the form its second byte announces.
  lemma LengthForms(f: seq<byte>)
    requires |f| >= 2 && (f[1] % 128 == 126 ==> |f| >= 4) && (f[1] % 128 == 127 ==> |f| >= 10)
    ensures |f| >= 2 + ExtendedBytes(f)
    ensures f[1] % 128 < 126 ==> PayloadLength(f) == f[1] % 128
    ensures f[1] % 128 == 126 ==> PayloadLength(f) == 256 * (f[2] as int) + f[3]
    ensures f[1] % 128 == 127 ==> PayloadLength(f) == Signed(BE(f[2..10]))
    ensures PayloadOffset(f) == 2 + ExtendedBytes(f) + if f[1] >= 128 then 4 else 0
  {
    hide And;
    HeaderBits(f);
    LowBits(f[1]);
    if f[1] % 128 == 126 { TwoDigits(f[2..4]); }
  }

  lemma {:induction false} BelowPower(s: seq<byte>)
    ensures BE(s) < Pow256(|s|)
  {
    if s != [] { BelowPower(s[..|s| - 1]); }
  }

  // An eight-byte length is read as a signed number: it is negative exactly if its top bit is set, and
  // the number the bytes spell otherwise.
  lemma SignedLength(f: seq<byte>)
    requires |f| >= 10 && f[1] % 128 == 127
    ensures |f| >= 2 + ExtendedBytes(f)
    ensures PayloadLength(f) < 0 <==> f[2] >= 128
    ensures f[2] < 128 ==> PayloadLength(f) == (f[2] as int) * Pow256(7) + BE(f[3..10])
  {
    LengthForms(f);
    var s := f[2..10];
    assert s[0] == f[2] && s[1..] == f[3..10];
    FirstDigit(s);
    BelowPower(s[1..]);
    Widths();
    assert 256 * Pow256(7) == Pow256(8);
    hide BE, PayloadLength, ExtendedBytes, And, Pow256, PayloadOffset;
    TopDigit(f[2] as int, Pow256(7), BE(f[3..10]));
  }

  lemma TopDigit(top: nat, p: nat, rest: nat)
    requires top < 256 && rest < p
    ensures top * p + rest < 256 * p && (top * p + rest >= 128 * p <==> top >= 128)
  {
    if top >= 128 { assert top * p >= 128 * p; } else { assert top * p <= 127 * p; }
    assert top * p <= 255 * p;
  }

  function OpcodeOf(f: seq<byte>): int
    requires |f| >= 2
  {
    And(f[0], 15)
  }

  predicate IsMasked(f: seq<byte>)
    requires |f| >= 2
  {
    And(f[1], 128) != 0
  }

  function ExtendedBytes(f: seq<byte>): (n: nat)
    requires |f| >= 2
    ensures n <= 8
  {
    var v := And(f[1], 127);
    if v == 127 then 8 else if v == 126 then 2 else 0
  }

  function PayloadLength(f: seq<byte>): int
    requires |f| >= 2 && |f| >= 2 + ExtendedBytes(f)
  {
    var v := And(f[1], 127);
    if v == 127 then Signed(BE(f[2..10]))
    else if v == 126 then BE(f[2..4])
    else v
  }

  function PayloadOffset(f: seq<byte>): (n: nat)
    requires |f| >= 2
    ensures n <= MAX_HEADER_LENGTH
  {
    HEADER_LENGTH + ExtendedBytes(f) + (if IsMasked(f) then MASK_LENGTH else 0)
  }

  function MaskOf(f: seq<byte>): seq<byte>
    requires |f| >= 2 && IsMasked(f) && |f| >= PayloadOffset(f)
  {
    f[PayloadOffset(f) - 4..PayloadOffset(f)]
  }

  function Payload(f: seq<byte>): seq<byte>
    requires |f| >= 2 && |f| >= PayloadOffset(f)
  {
    f[PayloadOffset(f)..]
  }

  // ---- The frame format of section 5.2 ----

  datatype Masking = Unmasked | WithMask(mask: seq<byte>)

  predicate WellMasked(m: Masking) { m.WithMask? ==> |m.mask| == 4 }

  // The shortest of the three length forms.
  function LengthField(n: nat): (r: (int, nat))
    ensures 0 <= r.0 < 128 && r.1 <= 8
  {
    if n > 65535 then (127, 8) else if n > 125 then (126, 2) else (n, 0)
  }

  // No shorter form can carry the length.
  lemma ShortestForm(n: nat)
    ensures LengthField(n).1 == 0 <==> n < 126
    ensures LengthField(n).1 == 2 <==> 126 <= n < 65536
    ensures LengthField(n).1 == 8 <==> n >= 65536
    ensures LengthField(n).0 == if n < 126 then n else if n < 65536 then 126 else 127
  {}

  function FirstByte(fin: bool, opcode: int): byte
    requires 0 <= opcode < 16
  {
    (if fin then 128 else 0) + opcode
  }

  function SecondByte(masked: bool, n: nat): (b: byte)
    ensures b >= 128 <==> masked
  {
    (if masked then 128 else 0) + LengthField(n).0
  }

  function MaskPart(m: Masking): seq<byte> {
    if m.WithMask? then m.mask else []
  }

  ghost function Body(m: Masking, payload: seq<byte>): (b: seq<byte>)
    requires WellMasked(m)
    ensures |b| == |payload|
  {
    if m.WithMask? then Masked(m.mask, payload) else payload
  }

  ghost function Layout(fin: bool, opcode: int, m: Masking, payload: seq<byte>): (f: seq<byte>)
    requires 0 <= opcode < 16 && WellMasked(m)
    ensures |f| == HeaderLength(m, |payload|) + |payload|
  {
    [FirstByte(fin, opcode), SecondByte(m.WithMask?, |payload|)]
    + ToBE(|payload|, LengthField(|payload|).1) + MaskPart(m) + Body(m, payload)
  }

  ghost function HeaderLength(m: Masking, n: nat): nat {
    2 + LengthField(n).1 + (if m.WithMask? then 4 else 0)
  }

  // Reading the two header bytes of a laid out frame.
  lemma HeaderBack(fin: bool, opcode: int, masked: bool, v: int, b0: byte, b1: byte)
    requires 0 <= opcode < 16 && 0 <= v < 128
    requires b0 == FirstByte(fin, opcode) && b1 == (if masked then 128 else 0) + v
    ensures (And(b0, 128) != 0) == fin && And(b0, 15) == opcode
    ensures (And(b1, 128) != 0) == masked && And(b1, 127) == v
    ensures And(b0, 64) == 0 && And(b0, 32) == 0 && And(b0, 16) == 0
  {
    hide And, Or;
    TopBit(b0);
    LowBits(b0);
    TopBit(b1);
    LowBits(b1);
    NoReserved(b0, opcode);
  }

  lemma NoReserved(b: byte, opcode: int)
    requires 0 <= opcode < 16 && (b == opcode || b == 128 + opcode)
    ensures And(b, 64) == 0 && And(b, 32) == 0 && And(b, 16) == 0
  {
    hide And, Or, Pow2;
    Powers();
    var h := b / 16;
    assert b == h * 16 + b % 16 && (h == 0 || h == 8);
    AndSplit(h, b % 16, 4, 0, 4, 16);
    AndSplit(h, b % 16, 2, 0, 4, 16);
    AndSplit(h, b % 16, 1, 0, 4, 16);
    EightBits();
    OneBits();
  }

  lemma EightBits()
    ensures And(8, 4) == 0 && And(8, 2) == 0 && And(8, 1) == 0
    ensures And(0, 4) == 0 && And(0, 2) == 0 && And(0, 1) == 0
  {
    assert And(8, 4) == 2 * And(4, 2);
    assert And(4, 2) == 2 * And(2, 1);
  }

  // ---- Reading back what was laid out ----

  // The pieces of a frame, at the front of any longer byte string.
  lemma LayoutPieces(fin: bool, opcode: int, m: Masking, payload: seq<byte>, g: seq<byte>)
    requires 0 <= opcode < 16 && WellMasked(m) && Layout(fin, opcode, m, payload) <= g
    ensures var (n, h, ext) := (|payload|, HeaderLength(m, |payload|), LengthField(|payload|).1);
      && |g| >= h + n
      && g[0] == FirstByte(fin, opcode) && g[1] == SecondByte(m.WithMask?, n)
      && g[2..2 + ext] == ToBE(n, ext) && g[2 + ext..h] == MaskPart(m) && g[h..h + n] == Body(m, payload)
  {
    hide FirstByte, SecondByte, LengthField, Body, ToBE;
    var a := [FirstByte(fin, opcode), SecondByte(m.WithMask?, |payload|)];
    Slices(a, ToBE(|payload|, LengthField(|payload|).1), MaskPart(m), Body(m, payload), g);
    assert g[..2][0] == g[0] && g[..2][1] == g[1];
  }

  lemma Slices(a: seq<byte>, b: seq<byte>, c: seq<byte>, d: seq<byte>, g: seq<byte>)
    requires a + b + c + d <= g
    ensures |g| >= |a| + |b| + |c| + |d|
    ensures g[..|a|] == a && g[|a|..|a| + |b|] == b && g[|a| + |b|..|a| + |b| + |c|] == c
    ensures g[|a| + |b| + |c|..|a| + |b| + |c| + |d|] == d
  {
    var f := a + b + c + d;
    assert g[..|f|] == f;
    assert g[..|a|] == f[..|a|];
    assert g[|a|..|a| + |b|] == f[|a|..|a| + |b|];
    assert g[|a| + |b|..|a| + |b| + |c|] == f[|a| + |b|..|a| + |b| + |c|];
  }

  lemma ReadBack(fin: bool, opcode: int, m: Masking, payload: seq<byte>, g: seq<byte>)
    requires 0 <= opcode < 16 && WellMasked(m) && |payload| <= MAX_INT
    requires Layout(fin, opcode, m, payload) <= g
    ensures |g| >= HeaderLength(m, |payload|) + |payload|
    ensures IsFIN(g) == fin && OpcodeOf(g) == opcode && IsMasked(g) == m.WithMask? && !HasReservedBits(g)
    ensures ExtendedBytes(g) == LengthField(|payload|).1 && PayloadOffset(g) == HeaderLength(m, |payload|)
    ensures PayloadLength(g) == |payload|
    ensures m.WithMask? ==> MaskOf(g) == m.mask
  {
    hide And, Layout;
    var (n, (v, ext)) := (|payload|, LengthField(|payload|));
    LayoutPieces(fin, opcode, m, payload, g);
    HeaderBack(fin, opcode, m.WithMask?, v, g[0], g[1]);
    Widths();
    if ext > 0 { BigEndian(n, ext); }
  }

  // The frame of section 5.2, byte by byte.
  lemma LayoutBytes(fin: bool, opcode: int, mask: seq<byte>, payload: seq<byte>)
    requires 0 <= opcode < 16 && |mask| == 4
    ensures var (f, n) := (Layout(fin, opcode, WithMask(mask), payload), |payload|);
      var ext := if n < 126 then 0 else if n < 65536 then 2 else 8;
      && |f| == 6 + ext + n
      && f[0] == (if fin then 128 else 0) + opcode
      && f[1] == 128 + (if n < 126 then n else if n < 65536 then 126 else 127)
      && (forall i :: 2 <= i < 2 + ext ==> f[i] == n / Pow256(1 + ext - i) % 256)
      && f[2 + ext..6 + ext] == mask
      && (forall i :: 6 + ext <= i < |f| ==> f[i] == Xor(payload[i - 6 - ext], mask[(i - 6 - ext) % 4]))
  {
    hide Layout, ToBE, Pow256, Masked, Xor;
    var (f, n, ext) := (Layout(fin, opcode, WithMask(mask), payload), |payload|, LengthField(|payload|).1);
    LayoutPieces(fin, opcode, WithMask(mask), payload, f);
    ShortestForm(n);
    hide LengthField, HeaderLength, Body;
    forall i | 2 <= i < 2 + ext ensures f[i] == n / Pow256(1 + ext - i) % 256 {
      Digits(n, ext, i - 2);
      assert f[2..2 + ext][i - 2] == f[i];
    }
    MaskedBytes(f, 6 + ext, mask, payload);
  }

  lemma MaskedBytes(f: seq<byte>, h: nat, mask: seq<byte>, payload: seq<byte>)
    requires |mask| == 4 && |f| == h + |payload| && f[h..h + |payload|] == Masked(mask, payload)
    ensures forall i :: h <= i < |f| ==> f[i] == Xor(payload[i - h], mask[(i - h) % 4])
  {
    hide Xor;
    forall i | h <= i < |f| ensures f[i] == Xor(payload[i - h], mask[(i - h) % 4]) {
      assert f[h..h + |payload|][i - h] == f[i];
    }
  }
}

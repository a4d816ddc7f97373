/** bytes/mirrored_buffer.go: a FIFO over memory that is mapped twice in a row, so that every
    stretch of the ring is contiguous. Byte i of the doubled mapping is byte i mod size. */
module MirroredBuffers {
  import opened Bits
  import opened Bytes

  // ---- When does masking with size - 1 wrap around? ----

  lemma DoublePow2(n: nat)
    ensures IsPow2(n) ==> IsPow2(2 * n)
  {
    if IsPow2(n) {
      var j: nat :| n == Pow2(j);
      assert 2 * n == Pow2(j + 1);
    }
  }

  // A size that is not a power of two has a smaller power of two that the mask drops.
  lemma {:induction false} DroppedBit(m: nat) returns (p: nat)
    requires !IsPow2(m + 1)
    ensures 0 < p <= m && And(p, m) == 0
    decreases m
  {
    assert Pow2(0) == 1;
    if m % 2 == 0 {
      p := 1;
    } else {
      var k := m / 2;
      DoublePow2(k + 1);
      var q := DroppedBit(k);
      p := 2 * q;
      AndBit(q, 0, k, 1);
    }
  }

  // Masking with size - 1 is the remainder modulo size exactly for powers of two.
  lemma MaskWrapsIff(size: nat)
    requires size > 0
    ensures (forall x: nat :: And(x, size - 1) == x % size) <==> IsPow2(size)
  {
    hide And, Pow2;
    if IsPow2(size) {
      var k: nat :| size == Pow2(k);
      forall x: nat ensures And(x, size - 1) == x % size { AndLowMask(x, k); }
    } else {
      var p := DroppedBit(size - 1);
      assert p % size == p;
    }
  }

  // One lap of a ring: the remainder of a number below twice the size.
  function Wrap(a: nat, size: nat): (r: nat)
    requires 0 < size && a < 2 * size
    ensures r < size
  {
    if a < size then a else a - size
  }

  lemma WrapIsMod(a: nat, size: nat)
    requires 0 < size && a < 2 * size
    ensures Wrap(a, size) == a % size
  {}

  lemma MaskWraps(x: nat, size: nat)
    requires 0 < size && x < 2 * size && IsPow2(size)
    ensures And(x, size - 1) == Wrap(x, size)
  {
    WrapIsMod(x, size);
    MaskWrapsIff(size);
  }

  // What Commit must keep: tail stays `used` ring positions behind head.
  ghost predicate TailKept(size: nat, head: nat, used: nat, k: nat)
    requires size > 0 && head < size && used + k <= size
  {
    And(Wrap(head + used, size) + k, size - 1) == Wrap(head + used + k, size)
  }

  ghost predicate AlwaysKept(size: nat)
    requires size > 0
  {
    forall head: nat, used: nat, k: nat :: head < size && used + k <= size ==> TailKept(size, head, used, k)
  }

  // Commit keeps the ring in step exactly for the sizes that are powers of two.
  lemma AlwaysKeptIff(size: nat)
    requires size > 0
    ensures AlwaysKept(size) <==> IsPow2(size)
  {
    hide And, IsPow2;
    if IsPow2(size) {
      forall head: nat, used: nat, k: nat | head < size && used + k <= size ensures TailKept(size, head, used, k) {
        MaskWraps(Wrap(head + used, size) + k, size);
      }
    } else {
      var p := DroppedBit(size - 1);
      assert !TailKept(size, 0, 0, p);
    }
  }

  lemma PageMask()
    ensures And(4096, 12287) == 0
  {
    assert Pow2(4) == 16;
    assert Pow2(8) == 256;
    assert Pow2(12) == 4096;
    AndSplit(1, 0, 2, 4095, 12, 4096);
    assert And(1, 2) == 0;
  }

  // Three pages: after the first page is committed, tail is back at 0 while a page is queued.
  lemma ThreePages()
    ensures !TailKept(3 * 4096, 0, 0, 4096)
  {
    hide And;
    PageMask();
  }

  // ---- The doubled mapping ----

  function Doubled(mem: seq<byte>): (d: seq<byte>)
    ensures |d| == 2 * |mem|
  {
    mem + mem
  }

  // A stretch that starts in the second half is also found one size earlier.
  lemma Mirror(mem: seq<byte>, a: nat, n: nat)
    requires |mem| <= a && a + n <= 2 * |mem|
    ensures Doubled(mem)[a..a + n] == Doubled(mem)[a - |mem|..a - |mem| + n]
  {}

  // The n bytes behind `used` ring bytes at head are the n bytes at tail.
  lemma Behind(mem: seq<byte>, head: nat, used: nat, tail: nat, n: nat)
    requires head < |mem| && used + n <= |mem| && tail == Wrap(head + used, |mem|)
    ensures Doubled(mem)[head..head + used + n] == Doubled(mem)[head..head + used] + Doubled(mem)[tail..tail + n]
  {
    var d := Doubled(mem);
    assert d[head..head + used + n] == d[head..head + used] + d[head + used..head + used + n];
    if head + used >= |mem| { Mirror(mem, head + used, n); }
  }

  // Dropping k ring bytes at the head.
  lemma Ahead(mem: seq<byte>, head: nat, used: nat, k: nat)
    requires head < |mem| && k <= used <= |mem|
    ensures var h := Wrap(head + k, |mem|);
      Doubled(mem)[h..h + (used - k)] == Doubled(mem)[head..head + used][k..]
  {
    var d := Doubled(mem);
    assert d[head..head + used][k..] == d[head + k..head + used];
    if head + k >= |mem| { Mirror(mem, head + k, used - k); }
  }

  // How far ring position j lies behind tail.
  function Dist(j: nat, tail: nat, size: nat): int
    requires j < size && tail < size
  {
    if j >= tail then j - tail else j + size - tail
  }

  // Memory after `bytes` are written through the doubled mapping at tail.
  ghost function Stamped(mem: seq<byte>, tail: nat, bytes: seq<byte>): seq<byte>
    requires tail < |mem|
  {
    seq(|mem|, j requires 0 <= j < |mem| =>
      if Dist(j, tail, |mem|) < |bytes| then bytes[Dist(j, tail, |mem|)] else mem[j])
  }

  // The first bytes from tail on are the new ones, those behind them stay.
  lemma StampedTail(mem: seq<byte>, tail: nat, bytes: seq<byte>, n: nat)
    requires tail < |mem| && |bytes| <= n <= |mem|
    ensures Doubled(Stamped(mem, tail, bytes))[tail..tail + n] == bytes + Doubled(mem)[tail..tail + n][|bytes|..]
  {
    var d, d' := Doubled(mem), Doubled(Stamped(mem, tail, bytes));
    forall i | 0 <= i < n
      ensures d'[tail + i] == if i < |bytes| then bytes[i] else d[tail + i]
    {
      var j := if tail + i < |mem| then tail + i else tail + i - |mem|;
      assert Dist(j, tail, |mem|) == i;
    }
  }

  lemma StampedQueue(mem: seq<byte>, head: nat, used: nat, tail: nat, bytes: seq<byte>)
    requires head < |mem| && used + |bytes| <= |mem| && tail == Wrap(head + used, |mem|)
    ensures tail < |mem| && Doubled(Stamped(mem, tail, bytes))[head..head + used] == Doubled(mem)[head..head + used]
  {
    var d, d' := Doubled(mem), Doubled(Stamped(mem, tail, bytes));
    forall i | head <= i < head + used ensures d'[i] == d[i] {
      var j := if i < |mem| then i else i - |mem|;
      assert Dist(j, tail, |mem|) >= |bytes|;
    }
  }

  method Stamp(a: array<byte>, tail: nat, bytes: seq<byte>)
    requires tail < a.Length && |bytes| <= a.Length
    modifies a
    ensures a[..] == Stamped(old(a[..]), tail, bytes)
  {
    ghost var mem := a[..];
    for i := 0 to |bytes|
      invariant forall j :: 0 <= j < a.Length ==>
        a[j] == if Dist(j, tail, a.Length) < i then bytes[Dist(j, tail, a.Length)] else mem[j]
    {
      a[Wrap(tail + i, a.Length)] := bytes[i];
    }
  }

  // ---- The buffer ----

  class MirroredBuffer {
    const size: nat
    const sizeMask: int
    const phys: array<byte>   // the file that is mapped twice
    var head: int
    var tail: int
    var used: int
    ghost var mem: seq<byte>  // the contents of phys

    ghost predicate Valid()
      reads this, phys
    {
      && phys[..] == mem && |mem| == size > 0 && sizeMask == size - 1
      && 0 <= head < size && 0 <= used <= size && tail == Wrap(head + used, size)
    }

    ghost function Queue(): (q: seq<byte>)
      requires Valid()
      reads this, phys
      ensures |q| == used
    {
      Doubled(mem)[head..head + used]
    }

    // n bytes of the doubled mapping from tail on.
    ghost function AtTail(n: nat): (r: seq<byte>)
      requires Valid() && n <= size
      reads this, phys
      ensures |r| == n
    {
      Doubled(mem)[tail..tail + n]
    }

    constructor (size: nat)
      requires size > 0
      ensures Valid() && fresh(phys) && this.size == size && Queue() == []
    {
      this.size, sizeMask := size, size - 1;
      phys := new byte[size];
      head, tail, used := 0, 0, 0;
      new;
      mem := phys[..];
    }

    // A claim lies inside the doubled mapping.
    method Claim(n: nat) returns (nil: bool, slice: Slot)
      requires Valid()
      ensures var k := Min(n, size - used); nil == (k == 0) && (!nil ==> slice == Slot(tail, k) && tail + k <= 2 * size)
    {
      var k := Min(n, size - used);
      if k == 0 { return true, Slot(0, 0); }
      return false, Slot(tail, k);
    }

    // Write to the front of a claim of n bytes: the rest of it and the queued bytes do not change.
    method WriteClaim(bytes: seq<byte>, ghost n: nat)
      requires Valid() && |bytes| <= n <= size - used
      modifies phys, `mem
      ensures Valid() && Queue() == old(Queue()) && AtTail(n) == bytes + old(AtTail(n))[|bytes|..]
    {
      hide Stamped, Doubled;
      Stamp(phys, tail, bytes);
      StampedTail(mem, tail, bytes, n);
      StampedQueue(mem, head, used, tail, bytes);
      mem := Stamped(mem, tail, bytes);
    }

    method Commit(n: nat) returns (k: nat)
      requires Valid()
      modifies `tail, `used
      ensures k == Min(n, size - old(used)) && used == old(used) + k && tail == And(old(tail) + k, size - 1)
      ensures IsPow2(size) ==> Valid() && Queue() == old(Queue()) + old(AtTail(k))
    {
      hide And, IsPow2, Doubled;
      k := Min(n, size - used);
      used := used + k;
      tail := And(tail + k, sizeMask);
      if IsPow2(size) {
        MaskWraps(old(tail) + k, size);
        Behind(mem, head, old(used), old(tail), k);
      }
    }

    method Consume(n: nat) returns (k: nat)
      requires Valid()
      modifies `head, `used
      ensures k == Min(n, old(used))
      ensures IsPow2(size) ==> Valid() && Queue() == old(Queue())[k..]
    {
      hide And, IsPow2, Doubled;
      k := Min(n, used);
      if k == 0 { return; }
      used := used - k;
      head := And(head + k, sizeMask);
      if IsPow2(size) {
        MaskWraps(old(head) + k, size);
        Ahead(mem, old(head), old(used), k);
      }
    }
  }

  // ---- Whole runs ----

  datatype Op = ClaimOp(count: nat) | Fill(bytes: seq<byte>) | CommitOp(count: nat) | ConsumeOp(count: nat)

  // What a user of the buffer sees: the claimed slice they hold, the bytes they have committed,
  // and the bytes they have consumed, in order.
  datatype Trace = Trace(held: seq<byte>, committed: seq<byte>, consumed: seq<byte>)

  ghost function Free(size: nat, t: Trace): int { size - (|t.committed| - |t.consumed|) }

  // One step as the user sees it. A claim is as long as asked for or as there is space; a commit
  // takes the claim's bytes in order, and more than was claimed only if asked to; bytes are
  // consumed in the order they were committed.
  ghost predicate UserStep(size: nat, t: Trace, op: Op, t': Trace) {
    match op
    case ClaimOp(count) => t' == t.(held := t'.held) && |t'.held| == Min(count, Free(size, t))
    case Fill(bytes) =>
      t' == if |bytes| <= |t.held| then t.(held := bytes + t.held[|bytes|..]) else t
    case CommitOp(count) =>
      && t' == t.(held := [], committed := t'.committed) && t.committed <= t'.committed
      && var chunk := t'.committed[|t.committed|..];
         |chunk| == Min(count, Free(size, t)) && (if count <= |t.held| then chunk <= t.held else t.held <= chunk)
    case ConsumeOp(count) =>
      && t' == t.(consumed := t'.consumed) && t.consumed <= t'.consumed <= t.committed
      && |t'.consumed| == |t.consumed| + Min(count, |t.committed| - |t.consumed|)
  }

  // The buffer holds exactly what was committed and not yet consumed, and the claim is at its tail.
  ghost predicate Agrees(b: MirroredBuffer, t: Trace)
    reads b, b.phys
  {
    && b.Valid() && t.committed == t.consumed + b.Queue()
    && |t.held| <= b.size - b.used && t.held == b.AtTail(|t.held|)
  }

  lemma AgreesAtStart(b: MirroredBuffer)
    requires b.Valid() && b.Queue() == []
    ensures Agrees(b, Trace([], [], []))
  {}

  method ClaimStep(b: MirroredBuffer, t: Trace, count: nat) returns (t': Trace)
    requires Agrees(b, t)
    ensures Agrees(b, t') && UserStep(b.size, t, ClaimOp(count), t')
  {
    hide Wrap;
    var nil, slice := b.Claim(count);
    var twice := b.phys[..] + b.phys[..];
    t' := t.(held := if nil then [] else twice[slice.index..slice.index + slice.length]);
  }

  method FillStep(b: MirroredBuffer, t: Trace, bytes: seq<byte>) returns (t': Trace)
    requires Agrees(b, t)
    modifies b, b.phys
    ensures Agrees(b, t') && UserStep(b.size, t, Fill(bytes), t')
  {
    hide Doubled, Wrap;
    t' := t;
    if |bytes| <= |t.held| {
      t' := t.(held := bytes + t.held[|bytes|..]);
      b.WriteClaim(bytes, |t.held|);
    }
  }

  method CommitStep(b: MirroredBuffer, t: Trace, count: nat) returns (t': Trace)
    requires Agrees(b, t) && IsPow2(b.size)
    modifies b, b.phys
    ensures Agrees(b, t') && UserStep(b.size, t, CommitOp(count), t')
  {
    hide IsPow2, Doubled, Wrap, And, UserStep, MirroredBuffer.Queue, MirroredBuffer.AtTail;
    ghost var q := b.Queue();
    var chunk := AtTailNow(b, Min(count, b.size - b.used));
    if |chunk| <= |t.held| { TailPrefix(b, |t.held|, |chunk|); } else { TailPrefix(b, |chunk|, |t.held|); }
    CommitSeen(b.size, t, count, chunk);
    var k := b.Commit(count);
    t' := t.(held := [], committed := t.committed + chunk);
    Rejoin(t.consumed, q, chunk);
  }

  lemma CommitSeen(size: nat, t: Trace, count: nat, chunk: seq<byte>)
    requires |chunk| == Min(count, Free(size, t)) && |t.held| <= Free(size, t)
    requires if |chunk| <= |t.held| then chunk <= t.held else t.held <= chunk
    ensures UserStep(size, t, CommitOp(count), t.(held := [], committed := t.committed + chunk))
  {
    assert (t.committed + chunk)[|t.committed|..] == chunk;
  }

  // Two stretches at the tail: the shorter is the front of the longer.
  lemma TailPrefix(b: MirroredBuffer, n: nat, k: nat)
    requires b.Valid() && k <= n <= b.size
    ensures b.AtTail(k) <= b.AtTail(n)
  {
    hide Doubled, Wrap;
    assert b.AtTail(n)[..k] == b.AtTail(k);
  }

  // The bytes that a commit of n would publish.
  method AtTailNow(b: MirroredBuffer, n: nat) returns (bytes: seq<byte>)
    requires b.Valid() && n <= b.size
    ensures bytes == b.AtTail(n)
  {
    var twice := b.phys[..] + b.phys[..];
    bytes := twice[b.tail..b.tail + n];
  }

  // Read at head, where the queued bytes are contiguous, and consume.
  method ConsumeStep(b: MirroredBuffer, t: Trace, count: nat) returns (t': Trace)
    requires Agrees(b, t) && IsPow2(b.size)
    modifies b, b.phys
    ensures Agrees(b, t') && UserStep(b.size, t, ConsumeOp(count), t')
  {
    hide IsPow2, Doubled, Wrap, And;
    ghost var q := b.Queue();
    var front := Peek(b, Min(count, b.used));
    var k := b.Consume(count);
    t' := t.(consumed := t.consumed + front);
    Split(t.consumed, q, k);
  }

  lemma Rejoin(a: seq<byte>, b: seq<byte>, c: seq<byte>)
    ensures a + b + c == a + (b + c)
  {}

  lemma Split(a: seq<byte>, q: seq<byte>, k: nat)
    requires k <= |q|
    ensures a + q[..k] + q[k..] == a + q && a <= a + q[..k] <= a + q
  {
    assert q[..k] + q[k..] == q;
    assert a + q == a + q[..k] + q[k..];
  }

  method Peek(b: MirroredBuffer, n: nat) returns (bytes: seq<byte>)
    requires b.Valid() && n <= b.used
    ensures bytes == b.Queue()[..n]
  {
    var twice := b.phys[..] + b.phys[..];
    bytes := twice[b.head..b.head + n];
    assert bytes == twice[b.head..b.head + b.used][..n];
  }

  method Step(b: MirroredBuffer, t: Trace, op: Op) returns (t': Trace)
    requires Agrees(b, t) && IsPow2(b.size)
    modifies b, b.phys
    ensures Agrees(b, t') && UserStep(b.size, t, op, t')
  {
    hide IsPow2, Agrees, UserStep;
    match op
    case ClaimOp(count) => t' := ClaimStep(b, t, count);
    case Fill(bytes) => t' := FillStep(b, t, bytes);
    case CommitOp(count) => t' := CommitStep(b, t, count);
    case ConsumeOp(count) => t' := ConsumeStep(b, t, count);
  }

  // Claims, writes, commits and consumes in any order: the consumed bytes are always the front of
  // the committed ones, and the buffer is left with the rest.
  method Run(size: nat, ops: seq<Op>) returns (ts: seq<Trace>, left: seq<byte>)
    requires size > 0 && IsPow2(size)
    ensures |ts| == |ops| + 1 && ts[0] == Trace([], [], [])
    ensures forall i :: 0 <= i < |ops| ==> UserStep(size, ts[i], ops[i], ts[i + 1])
    ensures ts[|ops|].committed == ts[|ops|].consumed + left && |left| <= size
  {
    hide IsPow2, UserStep, MirroredBuffer.Valid;
    var b := new MirroredBuffer(size);
    var t := Trace([], [], []);
    AgreesAtStart(b);
    ts := [t];
    for i := 0 to |ops|
      invariant fresh(b) && fresh(b.phys) && b.size == size && Agrees(b, t)
      invariant |ts| == i + 1 && ts[0] == Trace([], [], []) && ts[i] == t
      invariant forall j :: 0 <= j < i ==> UserStep(size, ts[j], ops[j], ts[j + 1])
    {
      t := Step(b, t, ops[i]);
      ts := ts + [t];
    }
    left := Contents(b);
  }

  method Contents(b: MirroredBuffer) returns (bytes: seq<byte>)
    requires b.Valid()
    ensures bytes == b.Queue() && |bytes| <= b.size
  {
    bytes := Peek(b, b.used);
  }
}

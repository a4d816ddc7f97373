/** bip_buffer.go: a circular buffer whose chunks are always contiguous. Committed bytes sit in
    [head, tail), followed, when the buffer is wrapped, by [0, wrappedTail). */
module BipBuffers {
  import opened Bytes

  // A block that grows, in front of another one, behind one, or in the place of an empty one.
  lemma ExtendFront(d: seq<byte>, head: int, tail: int, w: int, k: nat)
    requires 0 <= head <= tail <= tail + k <= |d| && 0 <= w <= |d| && (k > 0 ==> w == 0)
    ensures d[head..tail + k] + d[..w] == d[head..tail] + d[..w] + d[tail..tail + k]
  {
    assert d[head..tail + k] == d[head..tail] + d[tail..tail + k];
    assert k > 0 ==> d[..w] == [];
    assert k == 0 ==> d[tail..tail + k] == [];
  }

  lemma ExtendBehind(d: seq<byte>, head: int, tail: int, mid: int, k: nat)
    requires 0 <= head <= tail <= |d| && 0 <= mid <= mid + k <= |d|
    ensures d[head..tail] + d[..mid + k] == d[head..tail] + d[..mid] + d[mid..mid + k]
  {
    assert d[..mid + k] == d[..mid] + d[mid..mid + k];
  }

  lemma ExtendNothing(d: seq<byte>, head: int, at: int, k: nat)
    requires 0 <= head <= |d| && 0 <= at <= at + k <= |d|
    ensures d[at..at + k] + d[..0] == d[head..head] + d[..0] + d[at..at + k]
  {
    assert d[head..head] == [] && d[..0] == [];
  }

  lemma Front(d: seq<byte>, from: int, to: int, k: nat)
    requires 0 <= from <= from + k <= to <= |d|
    ensures d[from..from + k] == d[from..to][..k]
  {}

  // What is left of two blocks, one behind the other, after dropping the first k bytes.
  lemma Dropped(d: seq<byte>, head: int, tail: int, w: int, k: nat)
    requires 0 <= head <= head + k <= tail <= |d| && 0 <= w <= |d|
    ensures (d[head..tail] + d[..w])[k..] == d[head + k..tail] + d[..w]
    ensures head + k == tail ==> (d[head..tail] + d[..w])[k..] == d[0..w] + d[..0]
  {}

  // Overwriting [at, at + |bytes|) of d.
  function Overwritten(d: seq<byte>, at: nat, bytes: seq<byte>): (r: seq<byte>)
    requires at + |bytes| <= |d|
    ensures |r| == |d|
  {
    d[..at] + bytes + d[at + |bytes|..]
  }

  lemma OverwriteOutside(d: seq<byte>, at: nat, bytes: seq<byte>, from: nat, to: nat)
    requires at + |bytes| <= |d| && from <= to <= |d|
    requires to <= at || at + |bytes| <= from || from == to || bytes == []
    ensures Overwritten(d, at, bytes)[from..to] == d[from..to]
  {
    var r := Overwritten(d, at, bytes);
    forall i | from <= i < to ensures r[i] == d[i] {}
  }

  lemma OverwriteInside(d: seq<byte>, at: nat, bytes: seq<byte>, from: nat, to: nat)
    requires from <= at && at + |bytes| <= to <= |d|
    ensures Overwritten(d, at, bytes)[from..to] == Overwritten(d[from..to], at - from, bytes)
  {}

  method Overwrite(a: array<byte>, at: nat, bytes: seq<byte>)
    requires at + |bytes| <= a.Length
    modifies a
    ensures a[..] == Overwritten(old(a[..]), at, bytes)
  {
    forall i | 0 <= i < |bytes| { a[at + i] := bytes[i]; }
  }

  // ---- The indices ----

  // The committed bytes are at [head, tail) and, wrapped around, at [0, wrapped).
  datatype Indices = Indices(cap: int, head: int, tail: int, wrapped: int, claimHead: int, claimTail: int, reserve: int)

  // The free block the next claim is cut from.
  ghost function GapOf(x: Indices): int {
    if x.wrapped > 0 then x.head - x.wrapped else Max(x.head, x.cap - x.tail)
  }

  ghost function GapAt(x: Indices): int {
    if x.wrapped > 0 then x.wrapped else if x.head <= x.cap - x.tail then x.tail else 0
  }

  // An outstanding claim is inside the buffer, clear of all committed bytes, and at the place
  // where Commit will look for it. Whatever is consumed meanwhile, that place leaves it the
  // `reserve` bytes it was cut from.
  ghost predicate Placed(x: Indices) {
    && 0 <= x.head <= x.tail <= x.cap && 0 <= x.wrapped <= x.cap && (x.wrapped > 0 ==> x.wrapped <= x.head < x.tail)
    && 0 <= x.claimHead <= x.claimTail <= x.cap
    && (x.claimHead < x.claimTail && x.head < x.tail ==>
          if x.wrapped > 0 then x.claimHead == x.wrapped && x.claimTail <= x.head
          else x.claimHead == x.tail || (x.claimHead == 0 && x.claimTail <= x.head))
    && (x.reserve > 0 ==>
          && x.claimHead <= x.cap - x.reserve && x.reserve <= GapOf(x)
          && (x.head < x.tail ==>
                || (x.wrapped == 0 && x.claimHead == x.tail)
                || (x.claimHead == x.wrapped && x.claimHead + x.reserve <= x.head)))
  }

  lemma Clear(x: Indices)
    requires Placed(x)
    ensures 0 <= x.head <= x.tail <= x.cap && 0 <= x.wrapped <= x.cap && 0 <= x.claimHead <= x.claimTail <= x.cap
    ensures x.claimHead < x.claimTail ==>
      (x.claimTail <= x.head || x.tail <= x.claimHead || x.head == x.tail) && x.wrapped <= x.claimHead
    ensures x.wrapped > 0 ==> x.head < x.tail
  {}

  // While nothing is wrapped, no free block on either side of the committed bytes is larger; behind a
  // wrapped chunk the block up to the first chunk is the one that is used.
  lemma GapLargest(x: Indices, from: int, to: int)
    requires Placed(x) && 0 <= from <= to <= x.cap && (to <= x.head || x.tail <= from) && x.wrapped <= from
    ensures x.wrapped == 0 || to <= x.head ==> to - from <= GapOf(x)
    ensures x.wrapped <= GapAt(x) && (GapAt(x) + GapOf(x) <= x.head || GapAt(x) == x.tail)
    ensures 0 <= GapAt(x) <= GapAt(x) + GapOf(x) <= x.cap
  {}

  lemma GapIs(x: Indices)
    ensures GapOf(x) == if x.wrapped > 0 then x.head - x.wrapped else Max(x.head, x.cap - x.tail)
  {}

  lemma ClaimPlaced(x: Indices, at: int, n: nat)
    requires Placed(x) && at == GapAt(x)
    ensures GapOf(x) >= 0
    ensures var y := x.(claimHead := at, claimTail := at + Min(n, GapOf(x)), reserve := GapOf(x));
      Placed(y) && GapOf(y) == GapOf(x)
  {}

  lemma NoGap(x: Indices)
    requires Placed(x) && GapOf(x) == 0
    ensures x.claimHead == x.claimTail && Placed(x.(reserve := 0)) && GapOf(x.(reserve := 0)) == 0
  {}

  lemma DropPlaced(x: Indices)
    requires Placed(x)
    ensures GapOf(x) >= x.reserve && Placed(x.(claimHead := 0, claimTail := 0, reserve := 0))
  {}

  // The three places a committed chunk can go.
  lemma StartPlaced(x: Indices, k: nat)
    requires Placed(x) && x.head == x.tail && x.claimHead + k <= x.claimTail
    ensures var y := Indices(x.cap, x.claimHead, x.claimHead + k, x.wrapped, 0, 0, 0);
      Placed(y) && GapOf(y) >= x.reserve - k
  {}

  lemma TailPlaced(x: Indices, k: nat)
    requires Placed(x) && x.head < x.tail && x.claimHead == x.tail && x.claimHead + k <= x.claimTail
    ensures var y := Indices(x.cap, x.head, x.tail + k, x.wrapped, 0, 0, 0); Placed(y) && GapOf(y) >= x.reserve - k
    ensures k > 0 ==> x.wrapped == 0
  {}

  lemma WrappedPlaced(x: Indices, k: nat)
    requires Placed(x) && x.head < x.tail && x.claimHead != x.tail && x.claimHead + k <= x.claimTail
    ensures var y := Indices(x.cap, x.head, x.tail, x.wrapped + k, 0, 0, 0); Placed(y) && GapOf(y) >= x.reserve - k
    ensures k > 0 ==> x.claimHead == x.wrapped
  {}

  lemma ConsumePlaced(x: Indices, n: nat)
    requires Placed(x)
    ensures var y :=
        if n >= x.tail - x.head then x.(head := 0, tail := x.wrapped, wrapped := 0) else x.(head := x.head + n);
      Placed(y) && GapOf(y) >= GapOf(x)
  {}

  class BipBuffer {
    const data: array<byte>
    var head: int
    var tail: int
    var wrappedHead: int
    var wrappedTail: int
    var claimHead: int
    var claimTail: int
    ghost var mem: seq<byte>   // the contents of data
    ghost var reserve: nat     // the gap the last claim was cut from, until its commit

    ghost function Now(): Indices
      reads this
    {
      Indices(data.Length, head, tail, wrappedTail, claimHead, claimTail, reserve)
    }

    ghost predicate Intact()
      reads this`mem, data
      ensures Intact() ==> |mem| == data.Length
    {
      data[..] == mem
    }

    ghost predicate Valid()
      reads this, data
      ensures Valid() ==> 0 <= head <= tail <= |mem| && 0 <= wrappedTail <= |mem|
      ensures Valid() ==> 0 <= claimHead <= claimTail <= |mem| == data.Length
    {
      Intact() && wrappedHead == 0 && Placed(Now())
    }

    // The first chunk, all committed bytes, and the bytes of the claimed slice.
    ghost function First(): seq<byte>
      requires Valid()
      reads this, data
    {
      mem[head..tail]
    }

    ghost function Queue(): seq<byte>
      requires Valid()
      reads this, data
    {
      mem[head..tail] + mem[..wrappedTail]
    }

    ghost function Claimed(): seq<byte>
      requires Valid()
      reads this, data
    {
      mem[claimHead..claimTail]
    }

    ghost function Gap(): int
      reads this
    {
      GapOf(Now())
    }

    constructor (n: nat)
      ensures Valid() && fresh(data) && data.Length == n
      ensures Queue() == [] && Claimed() == [] && Gap() == n && reserve == 0
    {
      data := new byte[n];
      head, tail, wrappedHead, wrappedTail, claimHead, claimTail, reserve := 0, 0, 0, 0, 0, 0, 0;
      new;
      mem := data[..];
    }

    method Reset()
      requires Valid()
      modifies this
      ensures Valid() && Queue() == [] && Claimed() == []
    {
      head, tail, wrappedHead, wrappedTail, claimHead, claimTail, reserve := 0, 0, 0, 0, 0, 0, 0;
    }

    // Returns the claimed slice; nil exactly when the gap is zero, and then nothing is left
    // claimed from before either.
    method Claim(n: nat) returns (nil: bool, slice: seq<byte>)
      requires Valid()
      modifies `claimHead, `claimTail, `reserve
      ensures Valid() && nil == (Gap() == 0) && Gap() == old(Gap()) == reserve && Queue() == old(Queue())
      ensures nil ==> slice == [] && old(Claimed()) == [] && Claimed() == []
      ensures !nil ==> slice == Claimed() && |slice| == Min(n, Gap())
      ensures |slice| == Min(n, if wrappedTail > 0 then head - wrappedTail else Max(head, data.Length - tail))
      ensures claimHead < claimTail ==>
        (claimTail <= head || tail <= claimHead || head == tail) && wrappedTail <= claimHead
    {
      hide Placed, GapOf, GapAt, BipBuffer.Intact;
      var at, freeSpace := FreeBlock();
      GapIs(Now());
      if freeSpace == 0 {
        NoGap(Now());
        reserve := 0;
        return true, [];
      }
      Cut(at, freeSpace, n);
      slice := Slice(claimHead, claimTail);
      nil := false;
    }

    method Cut(at: int, freeSpace: int, n: nat)
      requires Valid() && at == GapAt(Now()) && freeSpace == Gap()
      modifies `claimHead, `claimTail, `reserve
      ensures Valid() && Gap() == old(Gap()) == reserve && Queue() == old(Queue())
      ensures claimTail - claimHead == Min(n, freeSpace)
      ensures claimHead < claimTail ==>
        (claimTail <= head || tail <= claimHead || head == tail) && wrappedTail <= claimHead
    {
      hide Placed, GapOf, GapAt, BipBuffer.Intact;
      ClaimPlaced(Now(), at, n);
      var claimSize := if freeSpace > n then n else freeSpace;
      claimHead, claimTail, reserve := at, at + claimSize, freeSpace;
      Clear(Now());
    }

    // Where the claim goes.
    method FreeBlock() returns (at: int, freeSpace: int)
      requires Valid()
      ensures at == GapAt(Now()) && freeSpace == Gap() >= 0
    {
      if wrappedTail - wrappedHead > 0 {
        at, freeSpace := wrappedTail, head - wrappedTail;
      } else {
        var spaceBefore, spaceAfter := head, data.Length - tail;
        if spaceBefore <= spaceAfter {
          at, freeSpace := tail, spaceAfter;
        } else {
          at, freeSpace := 0, spaceBefore;
        }
      }
    }

    method Slice(from: int, to: int) returns (r: seq<byte>)
      requires Valid() && 0 <= from <= to <= |mem|
      ensures r == mem[from..to]
    {
      hide Placed;
      r := data[from..to];
      assert r == data[..][from..to];
    }

    // The holder of the claimed slice writes into it: queued bytes do not change.
    method WriteClaim(offset: nat, bytes: seq<byte>)
      requires Valid() && offset + |bytes| <= |Claimed()|
      modifies data, `mem
      ensures Valid() && Queue() == old(Queue())
      ensures Claimed() == Overwritten(old(Claimed()), offset, bytes)
    {
      hide Overwritten, Placed, BipBuffer.Intact;
      Clear(Now());
      Poke(claimHead + offset, bytes);
      OverwriteOutside(old(mem), claimHead + offset, bytes, head, tail);
      OverwriteOutside(old(mem), claimHead + offset, bytes, 0, wrappedTail);
      OverwriteInside(old(mem), claimHead + offset, bytes, claimHead, claimTail);
    }

    method Poke(at: nat, bytes: seq<byte>)
      requires Intact() && at + |bytes| <= |mem|
      modifies data, `mem
      ensures Intact() && mem == Overwritten(old(mem), at, bytes)
    {
      hide Overwritten;
      Overwrite(data, at, bytes);
      mem := Overwritten(mem, at, bytes);
    }

    method Commit(n: nat) returns (chunk: seq<byte>)
      requires Valid()
      modifies `head, `tail, `wrappedTail, `claimHead, `claimTail, `reserve
      ensures Valid() && Claimed() == []
      ensures chunk == old(Claimed())[..Min(n, |old(Claimed())|)]
      ensures Queue() == old(Queue()) + chunk
      ensures Gap() >= old(reserve) - |chunk| && reserve == 0
    {
      hide BipBuffer.Queue, Placed, GapOf, BipBuffer.Intact;
      Clear(Now());
      if n == 0 {
        Drop();
        return [];
      }
      var toCommit := claimTail - claimHead;
      if toCommit > n { toCommit := n; }
      chunk := ClaimFront(toCommit);
      if tail - head + wrappedTail - wrappedHead == 0 {
        StartAt(toCommit);
      } else if claimHead == tail {
        ExtendTail(toCommit);
      } else {
        ExtendWrapped(toCommit);
      }
    }

    method ClaimFront(k: nat) returns (r: seq<byte>)
      requires Valid() && claimHead + k <= claimTail
      ensures r == Claimed()[..k] == mem[claimHead..claimHead + k]
    {
      hide Placed, BipBuffer.Intact;
      r := Slice(claimHead, claimHead + k);
      Front(mem, claimHead, claimTail, k);
    }

    method Drop()
      requires Valid()
      modifies `claimHead, `claimTail, `reserve
      ensures Valid() && Claimed() == [] && Queue() == old(Queue()) && Gap() >= old(reserve) && reserve == 0
    {
      hide Placed, BipBuffer.Intact;
      DropPlaced(Now());
      claimHead, claimTail, reserve := 0, 0, 0;
    }

    method StartAt(k: nat)
      requires Valid() && head == tail && claimHead + k <= claimTail
      modifies `head, `tail, `wrappedTail, `claimHead, `claimTail, `reserve
      ensures Valid() && Claimed() == [] && Queue() == old(Queue()) + old(mem[claimHead..claimHead + k])
      ensures Gap() >= old(reserve) - k && reserve == 0
    {
      hide Placed, GapOf, BipBuffer.Intact;
      Clear(Now());
      StartPlaced(Now(), k);
      ExtendNothing(mem, head, claimHead, k);
      head, tail := claimHead, claimHead + k;
      claimHead, claimTail, reserve := 0, 0, 0;
    }

    method ExtendTail(k: nat)
      requires Valid() && head < tail && claimHead == tail && claimHead + k <= claimTail
      modifies `head, `tail, `wrappedTail, `claimHead, `claimTail, `reserve
      ensures Valid() && Claimed() == [] && Queue() == old(Queue()) + old(mem[claimHead..claimHead + k])
      ensures Gap() >= old(reserve) - k && reserve == 0
    {
      hide Placed, GapOf, BipBuffer.Intact;
      TailPlaced(Now(), k);
      ExtendFront(mem, head, tail, wrappedTail, k);
      tail := tail + k;
      claimHead, claimTail, reserve := 0, 0, 0;
    }

    method ExtendWrapped(k: nat)
      requires Valid() && head < tail && claimHead != tail && claimHead + k <= claimTail
      modifies `head, `tail, `wrappedTail, `claimHead, `claimTail, `reserve
      ensures Valid() && Claimed() == [] && Queue() == old(Queue()) + old(mem[claimHead..claimHead + k])
      ensures Gap() >= old(reserve) - k && reserve == 0
    {
      hide Placed, GapOf, BipBuffer.Intact;
      WrappedPlaced(Now(), k);
      ghost var w := wrappedTail;
      ExtendBehind(mem, head, tail, w, k);
      if k == 0 { assert mem[w..w] == mem[claimHead..claimHead]; }
      wrappedTail := wrappedTail + k;
      claimHead, claimTail, reserve := 0, 0, 0;
    }

    // The first contiguous chunk; empty only when nothing is queued.
    method Head() returns (chunk: seq<byte>)
      requires Valid()
      ensures chunk == First() && chunk <= Queue() && (chunk == [] <==> Queue() == [])
    {
      hide Placed, BipBuffer.Intact;
      Clear(Now());
      if tail - head > 0 { chunk := Slice(head, tail); } else { chunk := []; }
    }

    lemma FirstLength()
      requires Valid()
      ensures |First()| == tail - head
    {}

    method Consume(n: nat)
      requires Valid()
      modifies `head, `tail, `wrappedHead, `wrappedTail
      ensures Valid() && Queue() == old(Queue())[Min(n, |old(First())|)..] && Claimed() == old(Claimed())
      ensures Gap() >= old(Gap())
    {
      hide BipBuffer.Valid, BipBuffer.First, BipBuffer.Gap;
      FirstLength();
      Dropped(mem, head, tail, wrappedTail, Min(n, tail - head));
      MoveOn(n);
    }

    method MoveOn(n: nat)
      requires Valid()
      modifies `head, `tail, `wrappedHead, `wrappedTail
      ensures Valid() && Gap() >= old(Gap())
      ensures if n >= old(tail - head) then head == 0 && tail == old(wrappedTail) && wrappedTail == 0
              else head == old(head) + n && tail == old(tail) && wrappedTail == old(wrappedTail)
    {
      hide Placed, GapOf, BipBuffer.Intact;
      ConsumePlaced(Now(), n);
      if n >= tail - head {
        head, tail := wrappedHead, wrappedTail;
        wrappedHead, wrappedTail := 0, 0;
      } else {
        head := head + n;
      }
    }

    // Committed
    method Length() returns (n: int)
      requires Valid()
      ensures n == |Queue()|
    {
      n := tail - head + wrappedTail - wrappedHead;
    }
  }

  // ---- Whole runs ----

  datatype Op = ClaimOp(size: nat) | Fill(bytes: seq<byte>) | CommitOp(count: nat) | ConsumeOp(count: nat)

  // What a user of the buffer sees: the claimed slice they hold, the bytes they have committed,
  // and the bytes they have consumed, in order.
  datatype Trace = Trace(held: seq<byte>, committed: seq<byte>, consumed: seq<byte>)

  // The space a user can count on: the next claim gets up to `gap` bytes, and the last one was cut
  // from `reserve` bytes.
  datatype Room = Room(gap: int, reserve: int)

  // The buffer holds exactly what was committed and not yet consumed.
  ghost predicate Agrees(b: BipBuffer, t: Trace, g: Room)
    reads b, b.data
  {
    && b.Valid() && t.held == b.Claimed() && t.committed == t.consumed + b.Queue()
    && g == Room(b.Gap(), b.reserve)
  }

  // One step as the user of the buffer sees it.
  ghost predicate UserStep(t: Trace, g: Room, op: Op, t': Trace) {
    match op
    case ClaimOp(size) => t' == t.(held := t'.held) && |t'.held| == Min(size, g.gap)
    case Fill(bytes) =>
      t' == if |bytes| <= |t.held| then t.(held := bytes + t.held[|bytes|..]) else t
    case CommitOp(count) =>
      t' == t.(held := [], committed := t.committed + t.held[..Min(count, |t.held|)])
    case ConsumeOp(count) =>
      && t' == t.(consumed := t'.consumed)
      && t.consumed <= t'.consumed <= t.committed && |t'.consumed| <= |t.consumed| + count
      && (count > 0 && t.consumed != t.committed ==> t.consumed != t'.consumed)
  }

  // What a step does to the space: consuming never takes any, and a commit takes no more than it
  // appends of what the claim was cut from.
  ghost predicate RoomStep(t: Trace, g: Room, op: Op, t': Trace, g': Room) {
    match op
    case ClaimOp(_) => g' == Room(g.gap, g.gap)
    case Fill(_) => g' == g
    case CommitOp(_) => g'.gap >= g.reserve - (|t'.committed| - |t.committed|) && g'.reserve == 0
    case ConsumeOp(_) => g'.gap >= g.gap && g'.reserve == g.reserve
  }

  // The gap is free, and an empty queue leaves at least half of the buffer.
  ghost predicate RoomOk(cap: nat, t: Trace, g: Room) {
    && 0 <= g.gap <= cap - (|t.committed| - |t.consumed|)
    && (t.committed == t.consumed ==> g.gap >= (cap + 1) / 2)
  }

  method ClaimStep(b: BipBuffer, t: Trace, size: nat, ghost g: Room) returns (t': Trace, ghost g': Room)
    requires Agrees(b, t, g)
    modifies b
    ensures Agrees(b, t', g') && UserStep(t, g, ClaimOp(size), t') && RoomStep(t, g, ClaimOp(size), t', g')
  {
    hide BipBuffer.Valid, BipBuffer.Queue, BipBuffer.Claimed, BipBuffer.Gap;
    var nil, slice := b.Claim(size);
    t', g' := t.(held := slice), Room(b.Gap(), b.reserve);
  }

  method FillStep(b: BipBuffer, t: Trace, bytes: seq<byte>, ghost g: Room) returns (t': Trace, ghost g': Room)
    requires Agrees(b, t, g)
    modifies b, b.data
    ensures Agrees(b, t', g') && UserStep(t, g, Fill(bytes), t') && RoomStep(t, g, Fill(bytes), t', g')
  {
    hide BipBuffer.Valid, BipBuffer.Queue, BipBuffer.Claimed;
    t', g' := t, g;
    if |bytes| <= |t.held| {
      t' := t.(held := bytes + t.held[|bytes|..]);
      assert t'.held == Overwritten(t.held, 0, bytes);
      b.WriteClaim(0, bytes);
    }
  }

  method CommitStep(b: BipBuffer, t: Trace, count: nat, ghost g: Room) returns (t': Trace, ghost g': Room)
    requires Agrees(b, t, g)
    modifies b, b.data
    ensures Agrees(b, t', g') && UserStep(t, g, CommitOp(count), t') && RoomStep(t, g, CommitOp(count), t', g')
  {
    hide BipBuffer.Valid, BipBuffer.Queue, BipBuffer.Claimed, BipBuffer.Gap;
    t' := t.(held := [], committed := t.committed + t.held[..Min(count, |t.held|)]);
    ghost var q := b.Queue();
    var chunk := b.Commit(count);
    Rejoin(t.consumed, q, chunk);
    g' := Room(b.Gap(), b.reserve);
  }

  method ConsumeStep(b: BipBuffer, t: Trace, count: nat, ghost g: Room) returns (t': Trace, ghost g': Room)
    requires Agrees(b, t, g)
    modifies b, b.data
    ensures Agrees(b, t', g') && UserStep(t, g, ConsumeOp(count), t') && RoomStep(t, g, ConsumeOp(count), t', g')
  {
    hide BipBuffer.Valid, BipBuffer.Claimed, BipBuffer.Queue, BipBuffer.Gap, BipBuffer.First;
    var front := b.Head();
    ghost var q := b.Queue();
    var k := Min(count, |front|);
    t' := t.(consumed := t.consumed + front[..k]);
    Split(t.consumed, q, k);
    assert front[..k] == q[..k];
    b.Consume(count);
    g' := Room(b.Gap(), b.reserve);
  }

  method Step(b: BipBuffer, t: Trace, op: Op, ghost g: Room) returns (t': Trace, ghost g': Room)
    requires Agrees(b, t, g)
    modifies b, b.data
    ensures Agrees(b, t', g') && UserStep(t, g, op, t') && RoomStep(t, g, op, t', g')
  {
    hide Agrees, UserStep, RoomStep;
    match op
    case ClaimOp(size) => t', g' := ClaimStep(b, t, size, g);
    case Fill(bytes) => t', g' := FillStep(b, t, bytes, g);
    case CommitOp(count) => t', g' := CommitStep(b, t, count, g);
    case ConsumeOp(count) => t', g' := ConsumeStep(b, t, count, g);
  }

  lemma Rejoin(a: seq<byte>, b: seq<byte>, c: seq<byte>)
    ensures a + b + c == a + (b + c)
  {}

  lemma Split(a: seq<byte>, q: seq<byte>, k: nat)
    requires k <= |q|
    ensures a + q[..k] + q[k..] == a + q
  {
    assert q[..k] + q[k..] == q;
  }

  // The states between the steps of a run.
  ghost predicate History(size: nat, ops: seq<Op>, ts: seq<Trace>, gs: seq<Room>) {
    && 0 < |ts| == |gs| <= |ops| + 1 && ts[0] == Trace([], [], []) && gs[0] == Room(size, 0)
    && (forall i :: 0 <= i < |ts| - 1 ==>
          UserStep(ts[i], gs[i], ops[i], ts[i + 1]) && RoomStep(ts[i], gs[i], ops[i], ts[i + 1], gs[i + 1]))
    && (forall i :: 0 <= i < |ts| ==> ts[i].consumed <= ts[i].committed && RoomOk(size, ts[i], gs[i]))
  }

  lemma HistoryMore(size: nat, ops: seq<Op>, ts: seq<Trace>, gs: seq<Room>, t: Trace, g: Room)
    requires History(size, ops, ts, gs) && |ts| <= |ops|
    requires var n := |ts| - 1; UserStep(ts[n], gs[n], ops[n], t) && RoomStep(ts[n], gs[n], ops[n], t, g)
    requires t.consumed <= t.committed && RoomOk(size, t, g)
    ensures History(size, ops, ts + [t], gs + [g])
  {
    hide UserStep, RoomStep, RoomOk;
  }

  // In every run the consumed bytes are a prefix of the committed ones, the buffer is left with the
  // rest, and every claim is as long as asked for or as the gap.
  method Run(size: nat, ops: seq<Op>) returns (ts: seq<Trace>, left: seq<byte>, ghost gs: seq<Room>)
    ensures |ts| == |ops| + 1 && History(size, ops, ts, gs)
    ensures ts[|ops|].committed == ts[|ops|].consumed + left
  {
    var b := new BipBuffer(size);
    var t := Trace([], [], []);
    ghost var g := Room(size, 0);
    AgreesAtStart(b);
    InBounds(b, t, g);
    ts, gs := [t], [g];
    hide History, UserStep, RoomStep, RoomOk, Agrees, BipBuffer.Valid, BipBuffer.Queue, BipBuffer.Claimed;
    for i := 0 to |ops|
      invariant fresh(b) && fresh(b.data) && b.data.Length == size && Agrees(b, t, g)
      invariant |ts| == |gs| == i + 1 && ts[i] == t && gs[i] == g && History(size, ops, ts, gs)
    {
      t, g := Step(b, t, ops[i], g);
      InBounds(b, t, g);
      HistoryMore(size, ops, ts, gs, t, g);
      ts, gs := ts + [t], gs + [g];
    }
    InBounds(b, t, g);
    left := Contents(b);
  }

  method Contents(b: BipBuffer) returns (bytes: seq<byte>)
    requires b.Valid()
    ensures bytes == b.Queue()
  {
    bytes := b.data[b.head..b.tail] + b.data[..b.wrappedTail];
  }

  lemma AgreesAtStart(b: BipBuffer)
    requires b.Valid() && b.Queue() == [] && b.Claimed() == [] && b.Gap() == b.data.Length && b.reserve == 0
    ensures Agrees(b, Trace([], [], []), Room(b.data.Length, 0))
  {}

  lemma InBounds(b: BipBuffer, t: Trace, g: Room)
    requires Agrees(b, t, g)
    ensures b.Valid() && t.consumed <= t.committed && t.committed == t.consumed + b.Queue()
    ensures RoomOk(b.data.Length, t, g)
  {
    assert |b.Queue()| == b.tail - b.head + b.wrappedTail;
    assert |t.committed| == |t.consumed| + |b.Queue()|;
  }
}

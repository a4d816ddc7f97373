/** The address arithmetic behind slot_offsetter.go. Slots are laid end to end in a virtual
    space that only grows; some of them have died. A live slot sits in the real save area
    behind exactly the live slots that precede it in the virtual space. */
module SlotArena {

  // One non-empty slot accepted since the storage was last empty.
  datatype Cell = Cell(number: int, len: nat, live: bool)

  ghost function Total(a: seq<Cell>): nat {
    if a == [] then 0 else Total(a[..|a| - 1]) + a[|a| - 1].len
  }

  ghost function LiveLen(a: seq<Cell>): nat {
    if a == [] then 0 else LiveLen(a[..|a| - 1]) + (if a[|a| - 1].live then a[|a| - 1].len else 0)
  }

  // Dead bytes of the slots that start below the virtual address v.
  ghost function DeadBelow(a: seq<Cell>, v: int): nat {
    if a == [] then 0
    else
      var (front, last) := (a[..|a| - 1], a[|a| - 1]);
      DeadBelow(front, v) + (if !last.live && Total(front) < v then last.len else 0)
  }

  ghost predicate NonEmpty(a: seq<Cell>) {
    forall k :: 0 <= k < |a| ==> a[k].len > 0
  }

  // Where the k-th cell starts: in the virtual space, and among the live cells only.
  ghost function Start(a: seq<Cell>, k: nat): nat
    requires k <= |a|
  {
    Total(a[..k])
  }

  ghost function Real(a: seq<Cell>, k: nat): nat
    requires k <= |a|
  {
    LiveLen(a[..k])
  }

  ghost function Kill(a: seq<Cell>, k: nat): seq<Cell>
    requires k < |a|
  {
    a[k := a[k].(live := false)]
  }

  lemma PrefixOfPrefix(a: seq<Cell>, k: nat)
    requires k < |a|
    ensures a[..|a| - 1][..k] == a[..k]
  {}

  lemma {:induction false} StartBound(a: seq<Cell>, k: nat)
    requires k < |a|
    ensures Start(a, k) + a[k].len <= Total(a)
    ensures Real(a, k) + (if a[k].live then a[k].len else 0) <= LiveLen(a)
    ensures LiveLen(a) <= Total(a)
  {
    LiveAtMost(a);
    PrefixOfPrefix(a, k);
    if k < |a| - 1 { StartBound(a[..|a| - 1], k); }
  }

  lemma {:induction false} LiveAtMost(a: seq<Cell>)
    ensures LiveLen(a) <= Total(a)
  {
    if a != [] { LiveAtMost(a[..|a| - 1]); }
  }

  // Above every start, DeadBelow counts all dead bytes.
  lemma {:induction false} DeadAll(a: seq<Cell>, v: int)
    requires NonEmpty(a) && Total(a) <= v
    ensures DeadBelow(a, v) == Total(a) - LiveLen(a)
  {
    if a != [] { DeadAll(a[..|a| - 1], v); }
  }

  lemma {:induction false} DeadStarts(a: seq<Cell>, v: int)
    requires NonEmpty(a) && (a != [] ==> Start(a, |a| - 1) < v)
    ensures DeadBelow(a, v) == Total(a) - LiveLen(a)
  {
    if a != [] { DeadAll(a[..|a| - 1], v); }
  }

  // Beyond the k-th start nothing is counted when only addresses up to it are asked for.
  lemma {:induction false} DeadUpTo(a: seq<Cell>, k: nat)
    requires NonEmpty(a) && k < |a| && a[k].live
    ensures DeadBelow(a, Start(a, k) + 1) == Start(a, k) - Real(a, k)
  {
    var n := |a| - 1;
    var front := a[..n];
    PrefixOfPrefix(a, k);
    if k == n {
      DeadAll(front, Start(a, k) + 1);
    } else {
      DeadUpTo(front, k);
      StartBound(front, k);
    }
  }

  // Any virtual address, shifted back by the dead bytes at or below it, stays in the real area.
  lemma {:induction false} ShiftedInside(a: seq<Cell>, v: nat)
    requires NonEmpty(a) && v <= Total(a)
    ensures v - DeadBelow(a, v + 1) <= LiveLen(a)
  {
    if a != [] {
      var front := a[..|a| - 1];
      if v <= Total(front) {
        ShiftedInside(front, v);
      } else {
        DeadAll(front, v + 1);
      }
    }
  }

  // Killing cell k: its bytes become dead at its start, and later cells move down.
  lemma {:induction false} KillDead(a: seq<Cell>, k: nat, v: int)
    requires k < |a| && a[k].live
    ensures Total(Kill(a, k)) == Total(a)
    ensures DeadBelow(Kill(a, k), v) == DeadBelow(a, v) + (if Start(a, k) < v then a[k].len else 0)
  {
    var n := |a| - 1;
    var b := Kill(a, k);
    PrefixOfPrefix(a, k);
    KillFront(a, k);
    if k < n { KillDead(a[..n], k, v); }
  }

  lemma KillFront(a: seq<Cell>, k: nat)
    requires k < |a|
    ensures var n := |a| - 1; |Kill(a, k)| == |a| && Kill(a, k)[..n] == if k == n then a[..n] else Kill(a[..n], k)
  {}

  lemma {:induction false} KillTotals(a: seq<Cell>, k: nat)
    requires k < |a| && a[k].live
    ensures Total(Kill(a, k)) == Total(a) && LiveLen(Kill(a, k)) == LiveLen(a) - a[k].len
  {
    var n := |a| - 1;
    var b := Kill(a, k);
    if k == n {
      assert b[..n] == a[..n];
    } else {
      KillTotals(a[..n], k);
      assert b[..n] == Kill(a[..n], k);
    }
  }

  lemma KillPositions(a: seq<Cell>, k: nat, j: nat)
    requires k < |a| && a[k].live && j <= |a|
    ensures Start(Kill(a, k), j) == Start(a, j)
    ensures Real(Kill(a, k), j) == Real(a, j) - (if k < j then a[k].len else 0)
  {
    var b := Kill(a, k);
    if k < j {
      assert b[..j] == Kill(a[..j], k);
      KillTotals(a[..j], k);
    } else {
      assert b[..j] == a[..j];
    }
  }

  // Live cells do not overlap.
  lemma RealOrder(a: seq<Cell>, i: nat, j: nat)
    requires i < j <= |a|
    ensures Real(a, i) + (if a[i].live then a[i].len else 0) <= Real(a, j)
    ensures Start(a, i) + a[i].len <= Start(a, j)
  {
    StartBound(a[..j], i);
    assert a[..j][..i] == a[..i];
  }

  lemma Append(a: seq<Cell>, c: Cell)
    ensures Total(a + [c]) == Total(a) + c.len
    ensures LiveLen(a + [c]) == LiveLen(a) + (if c.live then c.len else 0)
    ensures c.live ==> forall v :: DeadBelow(a + [c], v) == DeadBelow(a, v)
    ensures forall k :: 0 <= k <= |a| ==> Start(a + [c], k) == Start(a, k) && Real(a + [c], k) == Real(a, k)
  {
    assert (a + [c])[..|a|] == a;
    forall k | 0 <= k <= |a| ensures Start(a + [c], k) == Start(a, k) && Real(a + [c], k) == Real(a, k) {
      assert (a + [c])[..k] == a[..k];
    }
  }
}

/** What the sequencer's pieces mean together: a table of slots with virtual addresses, the
    array of discarded lengths that the Fenwick tree sums, and the cells of the arena. */
module SlotLayout {
  import opened Bytes
  import opened SlotArena
  import opened FenwickTrees

  type Table = map<int, Slot>

  // ---- The layout invariant ----

  ghost predicate IsCell(a: seq<Cell>, k: int, n: int, s: Slot) {
    0 <= k < |a| && s.length > 0 && a[k] == Cell(n, s.length, true) && Start(a, k) == s.index
  }

  // The tree's prefix sums are the dead bytes of the arena.
  ghost predicate Counts(vals: seq<int>, a: seq<Cell>) {
    forall v :: 0 <= v <= |vals| ==> Sum(vals, 0, v) == DeadBelow(a, v)
  }

  ghost predicate EntryOk(vals: seq<int>, a: seq<Cell>, n: int, s: Slot) {
    && 0 <= s.index < |vals| && 0 <= s.length
    && (s.length == 0 ==> s.index <= Total(a))
    && (s.length > 0 ==> exists k :: IsCell(a, k, n, s))
  }

  ghost predicate Layout(t: Table, vals: seq<int>, a: seq<Cell>) {
    && NonEmpty(a)
    && Counts(vals, a)
    && (forall n :: n in t ==> EntryOk(vals, a, n, t[n]))
    && (forall k :: 0 <= k < |a| ==> Start(a, k) < |vals|)
    && (forall k :: 0 <= k < |a| && a[k].live ==> a[k].number in t && IsCell(a, k, a[k].number, t[a[k].number]))
  }

  // The slot that SlotOffsetter.Offset computes for a stored slot.
  ghost function Where(vals: seq<int>, s: Slot): Slot
    requires 0 <= s.index < |vals|
  {
    OffsetSlot(Sum(vals, 0, s.index + 1), s)
  }

  // A stored non-empty slot is found behind the live slots saved before it; the shift is never
  // clamped. A stored empty slot is found somewhere inside the save area.
  lemma WhereIs(t: Table, vals: seq<int>, a: seq<Cell>, n: int, k: int)
    requires Layout(t, vals, a) && n in t
    requires t[n].length > 0 ==> IsCell(a, k, n, t[n])
    ensures var w := Where(vals, t[n]); 0 <= w.index && w.index + w.length <= LiveLen(a)
    ensures t[n].length > 0 ==> Where(vals, t[n]).index == Real(a, k)
    ensures t[n].length > 0 ==> 0 <= Sum(vals, 0, t[n].index + 1) <= t[n].index
  {
    assert EntryOk(vals, a, n, t[n]);
    var v := t[n].index + 1;
    assert Sum(vals, 0, v) == DeadBelow(a, v);
    if t[n].length > 0 {
      DeadUpTo(a, k);
      StartBound(a, k);
      LiveAtMost(a[..k]);
    } else {
      ShiftedInside(a, t[n].index);
    }
  }

  ghost predicate Inside(vals: seq<int>, s: Slot, size: int) {
    0 <= s.index < |vals| &&
    var w := Where(vals, s); 0 <= w.index && 0 <= w.length && w.index + w.length <= size
  }

  lemma WhereInside(t: Table, vals: seq<int>, a: seq<Cell>, n: int)
    requires Layout(t, vals, a) && n in t
    ensures Inside(vals, t[n], LiveLen(a))
  {
    assert EntryOk(vals, a, n, t[n]);
    if t[n].length > 0 {
      var k :| IsCell(a, k, n, t[n]);
      WhereIs(t, vals, a, n, k);
    } else {
      WhereIs(t, vals, a, n, 0);
    }
  }

  // ---- The stored bytes ----

  ghost predicate Fits(t: Table, vals: seq<int>, size: nat) {
    forall n :: n in t ==> Inside(vals, t[n], size)
  }

  lemma LayoutFits(t: Table, vals: seq<int>, a: seq<Cell>)
    requires Layout(t, vals, a)
    ensures Fits(t, vals, LiveLen(a))
  {
    forall n | n in t ensures Inside(vals, t[n], LiveLen(a)) {
      WhereInside(t, vals, a, n);
    }
  }

  ghost function At(vals: seq<int>, s: Slot, saved: seq<byte>): seq<byte>
    requires Inside(vals, s, |saved|)
  {
    var w := Where(vals, s);
    saved[w.index..w.index + w.length]
  }

  // What is stored under each number, read out of the save area.
  ghost function Stored(t: Table, vals: seq<int>, saved: seq<byte>): map<int, seq<byte>>
    requires Fits(t, vals, |saved|)
  {
    map n | n in t :: At(vals, t[n], saved)
  }

  function Cut(saved: seq<byte>, w: Slot): seq<byte>
    requires 0 <= w.index && 0 <= w.length && w.index + w.length <= |saved|
  {
    saved[..w.index] + saved[w.index + w.length..]
  }

  // ---- Adding a slot ----

  // `end` is the virtual end of the arena; an empty slot goes to any address below it.
  lemma PushLayout(t: Table, vals: seq<int>, a: seq<Cell>, n: int, s: Slot) returns (a': seq<Cell>)
    requires Layout(t, vals, a) && n !in t && 0 <= s.length && 0 <= s.index < |vals|
    requires s.index <= Total(a) && (s.length > 0 ==> s.index == Total(a))
    ensures Layout(t[n := s], vals, a')
    ensures LiveLen(a') == LiveLen(a) + s.length && Total(a') == Total(a) + s.length
  {
    var t' := t[n := s];
    if s.length == 0 {
      a' := a;
      forall m | m in t' ensures EntryOk(vals, a', m, t'[m]) {
        assert m != n ==> EntryOk(vals, a, m, t[m]);
      }
    } else {
      var c := Cell(n, s.length, true);
      a' := a + [c];
      Append(a, c);
      PushEntries(t, vals, a, n, s, a');
    }
  }

  lemma PushEntries(t: Table, vals: seq<int>, a: seq<Cell>, n: int, s: Slot, a': seq<Cell>)
    requires Layout(t, vals, a) && n !in t && s.length > 0 && 0 <= s.index == Total(a) < |vals|
    requires a' == a + [Cell(n, s.length, true)]
    ensures Layout(t[n := s], vals, a')
  {
    Append(a, Cell(n, s.length, true));
    var t' := t[n := s];
    assert a'[..|a|] == a;
    assert IsCell(a', |a|, n, s);
    forall m | m in t' ensures EntryOk(vals, a', m, t'[m]) {
      if m != n {
        assert EntryOk(vals, a, m, t[m]);
        if t[m].length > 0 {
          var k :| IsCell(a, k, m, t[m]);
          assert IsCell(a', k, m, t[m]);
        }
      }
    }
    forall k | 0 <= k < |a'| && a'[k].live
      ensures a'[k].number in t' && IsCell(a', k, a'[k].number, t'[a'[k].number])
    {
      if k < |a| { assert IsCell(a, k, a[k].number, t[a[k].number]); }
    }
  }

  lemma PushStored(t: Table, vals: seq<int>, a: seq<Cell>, n: int, s: Slot, a': seq<Cell>,
                   saved: seq<byte>, new': seq<byte>)
    requires Layout(t, vals, a) && n !in t && Layout(t[n := s], vals, a')
    requires |saved| == LiveLen(a) && |new'| == s.length && LiveLen(a') == LiveLen(a) + s.length
    requires s.length > 0 ==> s.index == Total(a)
    ensures Fits(t, vals, |saved|) && Fits(t[n := s], vals, |saved| + |new'|)
    ensures Stored(t[n := s], vals, saved + new') == Stored(t, vals, saved)[n := new']
  {
    LayoutFits(t, vals, a);
    LayoutFits(t[n := s], vals, a');
    assert t[n := s][n] == s && EntryOk(vals, a', n, s);
    if s.length > 0 { PushWhere(vals, a, s); }
    StoredPlus(t, vals, n, s, saved, new');
  }

  lemma StoredPlus(t: Table, vals: seq<int>, n: int, s: Slot, saved: seq<byte>, new': seq<byte>)
    requires Fits(t, vals, |saved|) && n !in t && Fits(t[n := s], vals, |saved| + |new'|)
    requires |new'| == s.length && 0 <= s.index < |vals|
    requires s.length > 0 ==> Where(vals, s).index == |saved|
    ensures Stored(t[n := s], vals, saved + new') == Stored(t, vals, saved)[n := new']
  {
    hide Where;
    var t' := t[n := s];
    assert n in t' && t'[n] == s;
    AtBack(vals, s, saved, new');
    forall m | m in t ensures At(vals, t'[m], saved + new') == At(vals, t[m], saved) {
      var w := Where(vals, t[m]);
      SliceFront(saved, new', w.index, w.index + w.length);
    }
  }

  lemma SliceFront(a: seq<byte>, b: seq<byte>, i: int, j: int)
    requires 0 <= i <= j <= |a|
    ensures (a + b)[i..j] == a[i..j]
  {}

  lemma AtBack(vals: seq<int>, s: Slot, saved: seq<byte>, new': seq<byte>)
    requires Inside(vals, s, |saved| + |new'|) && |new'| == s.length
    requires s.length > 0 ==> Where(vals, s).index == |saved|
    ensures At(vals, s, saved + new') == new'
  {
    assert (saved + new')[|saved|..|saved| + |new'|] == new';
  }

  lemma PushWhere(vals: seq<int>, a: seq<Cell>, s: Slot)
    requires NonEmpty(a) && Counts(vals, a) && 0 <= s.index < |vals| && s.index == Total(a)
    ensures Where(vals, s).index == LiveLen(a)
  {
    var v := s.index + 1;
    assert Sum(vals, 0, v) == DeadBelow(a, v);
    DeadAll(a, v);
    LiveAtMost(a);
  }

  // ---- Removing a slot ----

  ghost function Discarded(vals: seq<int>, s: Slot): seq<int>
    requires 0 <= s.index < |vals|
  {
    vals[s.index := vals[s.index] + s.length]
  }

  lemma PopLayout(t: Table, vals: seq<int>, a: seq<Cell>, n: int) returns (a': seq<Cell>)
    requires Layout(t, vals, a) && n in t
    ensures 0 <= t[n].index < |vals| && Layout(t - {n}, Discarded(vals, t[n]), a')
    ensures LiveLen(a') == LiveLen(a) - t[n].length && Total(a') == Total(a)
    ensures t[n].length == 0 ==> a' == a
    ensures t[n].length > 0 ==> exists k :: IsCell(a, k, n, t[n]) && a' == Kill(a, k)
  {
    var s := t[n];
    assert EntryOk(vals, a, n, s);
    if s.length == 0 {
      a' := a;
      assert Discarded(vals, s) == vals;
      forall m | m in t - {n} ensures EntryOk(vals, a, m, (t - {n})[m]) {
        assert EntryOk(vals, a, m, t[m]);
      }
    } else {
      var k :| IsCell(a, k, n, s);
      a' := Kill(a, k);
      KillTotals(a, k);
      PopEntries(t, vals, a, n, k);
    }
  }

  lemma PopEntries(t: Table, vals: seq<int>, a: seq<Cell>, n: int, k: int)
    requires Layout(t, vals, a) && n in t && IsCell(a, k, n, t[n]) && t[n].index < |vals|
    ensures Layout(t - {n}, Discarded(vals, t[n]), Kill(a, k))
  {
    var t', vals', a' := t - {n}, Discarded(vals, t[n]), Kill(a, k);
    forall v | 0 <= v <= |vals'| ensures Sum(vals', 0, v) == DeadBelow(a', v) {
      assert Sum(vals, 0, v) == DeadBelow(a, v);
      KillDead(a, k, v);
      SumAdd(vals, t[n].index, t[n].length, 0, v);
    }
    KillTotals(a, k);
    forall m | m in t' ensures EntryOk(vals', a', m, t'[m]) {
      assert EntryOk(vals, a, m, t[m]);
      if t[m].length > 0 {
        var j :| IsCell(a, j, m, t[m]);
        KillPositions(a, k, j);
        assert IsCell(a', j, m, t[m]);
      }
    }
    forall j | 0 <= j < |a'| ensures Start(a', j) < |vals'| {
      KillPositions(a, k, j);
    }
    forall j | 0 <= j < |a'| && a'[j].live
      ensures a'[j].number in t' && IsCell(a', j, a'[j].number, t'[a'[j].number])
    {
      KillPositions(a, k, j);
      assert IsCell(a, j, a[j].number, t[a[j].number]);
      if a[j].number == n { SameStart(a, j, k); }
    }
  }

  lemma SameStart(a: seq<Cell>, i: nat, j: nat)
    requires NonEmpty(a) && i < |a| && j < |a| && Start(a, i) == Start(a, j)
    ensures i == j
  {
    if i < j { RealOrder(a, i, j); }
    if j < i { RealOrder(a, j, i); }
  }

  // Taking slot n out of the table and its bytes out of the save area leaves every other
  // number with the bytes it had.
  lemma PopStored(t: Table, vals: seq<int>, a: seq<Cell>, n: int, a': seq<Cell>, saved: seq<byte>)
    requires Layout(t, vals, a) && n in t && 0 <= t[n].index < |vals|
    requires Layout(t - {n}, Discarded(vals, t[n]), a')
    requires t[n].length == 0 ==> a' == a
    requires t[n].length > 0 ==> exists k :: IsCell(a, k, n, t[n]) && a' == Kill(a, k)
    requires |saved| == LiveLen(a) && LiveLen(a') == LiveLen(a) - t[n].length
    ensures Fits(t, vals, |saved|) && Fits(t - {n}, Discarded(vals, t[n]), |saved| - t[n].length)
    ensures var w := Where(vals, t[n]);
      Stored(t - {n}, Discarded(vals, t[n]), Cut(saved, w)) == Stored(t, vals, saved) - {n}
  {
    LayoutFits(t, vals, a);
    LayoutFits(t - {n}, Discarded(vals, t[n]), a');
    forall m | m in t && m != n && t[n].length > 0 && t[m].length > 0
      ensures Aside(vals, t[n], t[m])
    {
      var k :| IsCell(a, k, n, t[n]) && a' == Kill(a, k);
      PopOther(t, vals, a, n, k, m);
    }
    StoredMinus(t, vals, n, saved);
  }

  // Slot s does not overlap the discarded slot d, and is shifted by it exactly if it lies behind.
  ghost predicate Aside(vals: seq<int>, d: Slot, s: Slot)
    requires 0 <= d.index < |vals| && 0 <= s.index < |vals|
  {
    var w, o, o' := Where(vals, d), Where(vals, s), Where(Discarded(vals, d), s);
    || (o'.index == o.index && o.index + o.length <= w.index)
    || (o'.index == o.index - w.length && w.index + w.length <= o.index)
  }

  lemma StoredMinus(t: Table, vals: seq<int>, n: int, saved: seq<byte>)
    requires n in t && Fits(t, vals, |saved|)
    requires Fits(t - {n}, Discarded(vals, t[n]), |saved| - t[n].length)
    requires forall m :: m in t && m != n && t[n].length > 0 && t[m].length > 0 ==> Aside(vals, t[n], t[m])
    ensures var w := Where(vals, t[n]);
      Stored(t - {n}, Discarded(vals, t[n]), Cut(saved, w)) == Stored(t, vals, saved) - {n}
  {
    var w, t', vals' := Where(vals, t[n]), t - {n}, Discarded(vals, t[n]);
    var cut := Cut(saved, w);
    forall m | m in t' ensures At(vals', t'[m], cut) == At(vals, t[m], saved) {
      assert m in t && t'[m] == t[m];
      if t[n].length > 0 && t[m].length > 0 { assert Aside(vals, t[n], t[m]); }
      AtMinus(vals, t[n], t[m], saved);
    }
    assert Stored(t', vals', cut) == Stored(t, vals, saved) - {n};
  }

  lemma AtMinus(vals: seq<int>, d: Slot, s: Slot, saved: seq<byte>)
    requires Inside(vals, d, |saved|) && Inside(vals, s, |saved|)
    requires Inside(Discarded(vals, d), s, |saved| - d.length)
    requires d.length > 0 && s.length > 0 ==> Aside(vals, d, s)
    ensures At(Discarded(vals, d), s, Cut(saved, Where(vals, d))) == At(vals, s, saved)
  {
    hide Sum;
    var w, o := Where(vals, d), Where(vals, s);
    if d.length == 0 {
      assert Discarded(vals, d) == vals;
      assert Cut(saved, w) == saved;
    } else if s.length > 0 {
      CutSlice(saved, w.index, w.length, o.index, o.length);
    }
  }

  // Where another non-empty slot is found before and after slot n is taken out.
  lemma PopOther(t: Table, vals: seq<int>, a: seq<Cell>, n: int, k: int, m: int)
    requires Layout(t, vals, a) && n in t && m in t && m != n
    requires IsCell(a, k, n, t[n]) && t[m].length > 0
    requires 0 <= t[m].index < |vals| && 0 <= t[n].index < |vals|
    requires Layout(t - {n}, Discarded(vals, t[n]), Kill(a, k))
    ensures Aside(vals, t[n], t[m])
  {
    assert EntryOk(vals, a, m, t[m]);
    var j :| IsCell(a, j, m, t[m]);
    KillPositions(a, k, j);
    assert (t - {n})[m] == t[m] && IsCell(Kill(a, k), j, m, t[m]);
    WhereIs(t, vals, a, n, k);
    WhereIs(t, vals, a, m, j);
    WhereIs(t - {n}, Discarded(vals, t[n]), Kill(a, k), m, j);
    if k < j { RealOrder(a, k, j); } else { RealOrder(a, j, k); }
  }

  // A stretch of bytes on either side of a cut survives it.
  lemma CutSlice(saved: seq<byte>, i: nat, k: nat, p: nat, n: nat)
    requires i + k <= |saved| && p + n <= |saved| && (p + n <= i || i + k <= p)
    ensures p + n <= i ==> Cut(saved, Slot(i, k))[p..p + n] == saved[p..p + n]
    ensures i + k <= p ==> Cut(saved, Slot(i, k))[p - k..p - k + n] == saved[p..p + n]
  {}

  lemma EmptyLayout(vals: seq<int>)
    requires forall i :: 0 <= i < |vals| ==> vals[i] == 0
    ensures Layout(map[], vals, [])
  {
    forall v | 0 <= v <= |vals| ensures Sum(vals, 0, v) == DeadBelow([], v) {
      SumZero(vals, 0, v);
    }
  }
}

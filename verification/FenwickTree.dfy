/** util/fenwick_tree.go: a binary indexed tree over an integer array.
    Node i holds the sum of the abstract array over [Low(i), i]. */
module FenwickTrees {
  import opened Bits

  // ---- The two index links ----

  // The first array position that node i covers: clear the trailing one bits of i.
  function Low(i: nat): nat {
    if i % 2 == 0 then i else 2 * Low(i / 2)
  }

  // The next larger node whose range contains node i's: set the lowest zero bit of i.
  function Next(i: nat): nat {
    if i % 2 == 0 then i + 1 else 2 * Next(i / 2) + 1
  }

  // The code computes the first link as index & (index+1) ...
  lemma {:induction false} LowIsAnd(i: nat)
    ensures And(i, i + 1) == Low(i)
  {
    if i % 2 == 0 {
      AndSelf(i / 2);
    } else {
      assert (i + 1) / 2 == i / 2 + 1;
      LowIsAnd(i / 2);
    }
  }

  // ... and the second as index | (index+1).
  lemma {:induction false} NextIsOr(i: nat)
    ensures Or(i, i + 1) == Next(i)
  {
    if i % 2 == 0 {
      OrSelf(i / 2);
    } else {
      assert (i + 1) / 2 == i / 2 + 1;
      NextIsOr(i / 2);
    }
  }

  // One bit at a time: the links of 2k and 2k+1 in terms of those of k.
  lemma Unfold(k: nat)
    ensures Low(2 * k) == 2 * k && Next(2 * k) == 2 * k + 1
    ensures Low(2 * k + 1) == 2 * Low(k) && Next(2 * k + 1) == 2 * Next(k) + 1
  {
    assert (2 * k) % 2 == 0 && (2 * k + 1) % 2 == 1 && (2 * k + 1) / 2 == k;
  }

  lemma {:induction false} LowAtMost(i: nat)
    ensures Low(i) <= i
  {
    if i % 2 == 1 { LowAtMost(i / 2); }
  }

  // A link climbs, and the parent's range starts no later than the child's.
  lemma {:induction false} NextCovers(i: nat)
    ensures Low(i) <= i < Next(i)
    ensures Low(Next(i)) <= Low(i)
    decreases i
  {
    var k := i / 2;
    Unfold(k);
    LowAtMost(k);
    if i == 2 * k + 1 {
      NextCovers(k);
      Unfold(Next(k));
    }
  }

  // No node strictly between i and Next(i) covers a position up to i.
  lemma {:induction false} NextSkips(i: nat, j: nat)
    requires i < j < Next(i)
    ensures i < Low(j)
    decreases i
  {
    if i % 2 == 1 && j % 2 == 1 {
      NextSkips(i / 2, j / 2);
    }
  }

  // Siblings tile the parent: just left of a child that is not the first sits another child.
  lemma {:induction false} LeftSibling(c: nat)
    requires Low(Next(c)) < Low(c)
    ensures Low(c) >= 1 && Next(Low(c) - 1) == Next(c)
    decreases c
  {
    var k := c / 2;
    if c % 2 == 1 {
      LeftSiblingOdd(c, k, Next(k));
    } else {
      LeftSiblingEven(c, k);
    }
  }

  lemma {:induction false} LeftSiblingOdd(c: nat, k: nat, n: nat)
    requires c == 2 * k + 1 && n == Next(k) && Low(Next(c)) < Low(c)
    ensures Low(c) >= 1 && Next(Low(c) - 1) == Next(c)
    decreases c, 0
  {
    hide Low, Next;
    Unfold(k);
    Unfold(n);
    LeftSibling(k);
    var m := Low(k) - 1;
    assert Low(c) - 1 == 2 * m + 1;
    Unfold(m);
  }

  lemma LeftSiblingEven(c: nat, k: nat)
    requires c == 2 * k && Low(Next(c)) < Low(c)
    ensures Low(c) >= 1 && Next(Low(c) - 1) == Next(c)
  {
    hide Low, Next;
    Unfold(k);
    OddNext(k);
    Unfold(k - 1);
    assert 2 * (k - 1) + 1 == c - 1;
  }

  lemma OddNext(k: nat)
    requires Low(k) < k
    ensures k >= 1 && Next(k - 1) == k
  {
    hide Low, Next;
    var h := k / 2;
    Unfold(h);
    assert k == 2 * h || k == 2 * h + 1;
  }

  // ---- Plain sums ----

  function Sum(s: seq<int>, lo: int, hi: int): int
    requires 0 <= lo && hi <= |s|
    decreases hi - lo
  {
    if hi <= lo then 0 else Sum(s, lo, hi - 1) + s[hi - 1]
  }

  lemma {:induction false} SumSplit(s: seq<int>, lo: int, mid: int, hi: int)
    requires 0 <= lo <= mid <= hi <= |s|
    ensures Sum(s, lo, hi) == Sum(s, lo, mid) + Sum(s, mid, hi)
    decreases hi - mid
  {
    if mid < hi { SumSplit(s, lo, mid, hi - 1); }
  }

  lemma {:induction false} SumAdd(s: seq<int>, p: nat, delta: int, lo: int, hi: int)
    requires p < |s| && 0 <= lo && hi <= |s|
    ensures Sum(s[p := s[p] + delta], lo, hi) == Sum(s, lo, hi) + (if lo <= p < hi then delta else 0)
    decreases hi - lo
  {
    if lo < hi { SumAdd(s, p, delta, lo, hi - 1); }
  }

  lemma {:induction false} SumZero(s: seq<int>, lo: int, hi: int)
    requires 0 <= lo && hi <= |s|
    requires forall i :: lo <= i < hi ==> s[i] == 0
    ensures Sum(s, lo, hi) == 0
    decreases hi - lo
  {
    if lo < hi { SumZero(s, lo, hi - 1); }
  }

  // ---- The builder's bookkeeping ----

  // How far the children of a node that are below i have filled it, scanning its
  // children from the right: e is the end of the part still to be looked at.
  ghost function Filled(e: nat, lo: nat, i: nat): (r: nat)
    ensures lo <= e ==> lo <= r <= e
    decreases e
  {
    if e <= i || e <= lo then e
    else
      LowAtMost(e - 1);
      if Low(e - 1) < lo then lo else Filled(Low(e - 1), lo, i)
  }

  // Adding child i to the bookkeeping of a node j > i extends it exactly when j is i's parent.
  lemma {:induction false} FilledStep(j: nat, e: nat, i: nat)
    requires i < j && Low(j) <= e <= j
    requires e == j || Low(j) == e || Next(e - 1) == j
    requires Next(i) == j ==> i + 1 <= e
    ensures Next(i) == j ==> Filled(e, Low(j), i) == Low(i) && Filled(e, Low(j), i + 1) == i + 1
    ensures Next(i) != j ==> Filled(e, Low(j), i) == Filled(e, Low(j), i + 1)
    decreases e
  {
    hide Low, Next;
    NextCovers(i);
    if e <= Low(j) {
    } else if e <= i {
    } else {
      var c := e - 1;
      ChildEnd(j, e);
      NextCovers(c);
      if i < c {
        if Next(i) == j { NextSkips(i, c); }
        if Low(j) < Low(c) { LeftSibling(c); }
        FilledStep(j, Low(c), i);
      }
    }
  }

  lemma ChildEnd(j: nat, e: nat)
    requires Low(j) < e <= j
    requires e == j || Next(e - 1) == j
    ensures Next(e - 1) == j
  {
  }

  lemma {:induction false} FilledNone(e: nat, lo: nat)
    requires lo <= e
    ensures Filled(e, lo, 0) == lo
    decreases e
  {
    if lo < e {
      LowAtMost(e - 1);
      if lo <= Low(e - 1) { FilledNone(Low(e - 1), lo); }
    }
  }

  // ---- What the node array means ----

  ghost predicate NodeHolds(nodes: seq<int>, xs: seq<int>, j: nat)
    requires j < |nodes| == |xs|
  {
    Low(j) <= j && nodes[j] == Sum(xs, Low(j), j + 1)
  }

  ghost predicate Represents(nodes: seq<int>, xs: seq<int>) {
    |nodes| == |xs| && forall j :: 0 <= j < |xs| ==> NodeHolds(nodes, xs, j)
  }

  // The builder after i elements: nodes below i are final, later ones hold their finished children.
  ghost predicate NodeFilled(nodes: seq<int>, xs: seq<int>, i: nat, j: nat)
    requires i <= j < |nodes| == |xs|
  {
    var f := Filled(j, Low(j), i);
    Low(j) <= f <= j && nodes[j] == Sum(xs, Low(j), f)
  }

  ghost predicate Built(nodes: seq<int>, xs: seq<int>, i: nat) {
    && |nodes| == |xs| && i <= |xs|
    && (forall j :: 0 <= j < i ==> NodeHolds(nodes, xs, j))
    && (forall j :: i <= j < |xs| ==> NodeFilled(nodes, xs, i, j))
  }

  lemma BuildStart(nodes: seq<int>, xs: seq<int>)
    requires |nodes| == |xs| && forall j :: 0 <= j < |xs| ==> nodes[j] == 0
    ensures Built(nodes, xs, 0)
  {
    forall j | 0 <= j < |xs| ensures NodeFilled(nodes, xs, 0, j) {
      LowAtMost(j);
      FilledNone(j, Low(j));
    }
  }

  lemma BuildStep(nodes: seq<int>, xs: seq<int>, i: nat, nodes': seq<int>)
    requires i < |xs| && Built(nodes, xs, i) && |nodes'| == |xs|
    requires nodes'[i] == nodes[i] + xs[i]
    requires forall j :: 0 <= j < |xs| && j != i ==>
      nodes'[j] == nodes[j] + (if j == Next(i) then nodes'[i] else 0)
    ensures Built(nodes', xs, i + 1)
  {
    hide Low, Next, Filled;
    NextCovers(i);
    OwnNode(nodes, xs, i, nodes');
    forall j | 0 <= j < i ensures NodeHolds(nodes', xs, j) {
      assert NodeHolds(nodes, xs, j);
    }
    var next := i + 1;
    forall j | next <= j < |xs| ensures NodeFilled(nodes', xs, next, j) {
      assert NodeFilled(nodes, xs, i, j);
      LaterNode(nodes, xs, i, nodes', j);
    }
  }

  // The node of the element itself is complete ...
  lemma OwnNode(nodes: seq<int>, xs: seq<int>, i: nat, nodes': seq<int>)
    requires i < |xs| && Built(nodes, xs, i) && |nodes'| == |xs| && nodes'[i] == nodes[i] + xs[i]
    ensures NodeHolds(nodes', xs, i)
  {
    hide Low, Next;
    NextCovers(i);
    assert NodeFilled(nodes, xs, i, i);
  }

  // ... and goes into its parent, if that is node j.
  lemma LaterNode(nodes: seq<int>, xs: seq<int>, i: nat, nodes': seq<int>, j: nat)
    requires i < j < |xs| && |nodes| == |xs| == |nodes'| && NodeFilled(nodes, xs, i, j) && NodeHolds(nodes', xs, i)
    requires nodes'[j] == nodes[j] + (if j == Next(i) then nodes'[i] else 0)
    ensures NodeFilled(nodes', xs, i + 1, j)
  {
    hide Low, Next, Filled;
    NextCovers(i);
    FilledStep(j, j, i);
    LowAtMost(j);
    if j == Next(i) { SumSplit(xs, Low(j), Low(i), i + 1); }
  }

  // Add(p, delta) when the climb has reached node `index`: the covering nodes below it are done.
  ghost predicate NodeAdding(nodes: seq<int>, xs: seq<int>, p: nat, delta: int, index: nat, j: nat)
    requires j < |nodes| == |xs|
  {
    Low(j) <= j && nodes[j] == Sum(xs, Low(j), j + 1) + (if Low(j) <= p <= j < index then delta else 0)
  }

  ghost predicate Adding(nodes: seq<int>, xs: seq<int>, p: nat, delta: int, index: nat) {
    && |nodes| == |xs|
    && Low(index) <= p <= index
    && forall j :: 0 <= j < |xs| ==> NodeAdding(nodes, xs, p, delta, index, j)
  }

  lemma AddStart(nodes: seq<int>, xs: seq<int>, p: nat, delta: int)
    requires Represents(nodes, xs)
    ensures Adding(nodes, xs, p, delta, p)
  {
    LowAtMost(p);
    forall j | 0 <= j < |xs| ensures NodeAdding(nodes, xs, p, delta, p, j) {
      assert NodeHolds(nodes, xs, j);
    }
  }

  lemma AddStep(nodes: seq<int>, xs: seq<int>, p: nat, delta: int, index: nat)
    requires Adding(nodes, xs, p, delta, index) && index < |xs|
    ensures Adding(nodes[index := nodes[index] + delta], xs, p, delta, Next(index))
  {
    hide Low, Next, Sum;
    NextCovers(index);
    var nodes', next := nodes[index := nodes[index] + delta], Next(index);
    forall j | 0 <= j < |xs| ensures NodeAdding(nodes', xs, p, delta, next, j) {
      assert NodeAdding(nodes, xs, p, delta, index, j);
      if index < j < Next(index) { NextSkips(index, j); }
    }
  }

  lemma AddDone(nodes: seq<int>, xs: seq<int>, p: nat, delta: int, index: nat)
    requires Adding(nodes, xs, p, delta, index) && index >= |xs|
    ensures p < |xs| ==> Represents(nodes, xs[p := xs[p] + delta])
    ensures p >= |xs| ==> Represents(nodes, xs)
  {
    hide Low, Next, Sum;
    var xs' := if p < |xs| then xs[p := xs[p] + delta] else xs;
    forall j | 0 <= j < |xs| ensures NodeHolds(nodes, xs', j) {
      assert NodeAdding(nodes, xs, p, delta, index, j);
      if p < |xs| { SumAdd(xs, p, delta, Low(j), j + 1); }
    }
  }

  // ---- The tree ----

  function Clamp(i: int): nat { if i < 0 then 0 else i }

  // The sum over [left, right]; the part below 0 is empty, and a crossed range (left > right + 1) is
  // the sum over the gap, negated.
  function RangeSum(s: seq<int>, left: int, right: int): int
    requires left <= |s| && right < |s|
  {
    var (lo, hi) := (Clamp(left), Clamp(right + 1));
    if lo <= hi then Sum(s, lo, hi) else -Sum(s, hi, lo)
  }

  class FenwickTree {
    const data: array<int>
    ghost var vals: seq<int>   // the array the tree stands for

    ghost predicate Valid()
      reads this, data
    {
      Represents(data[..], vals)
    }

    // NewFenwickTree
    constructor (n: nat)
      ensures Valid() && fresh(data) && data.Length == n
      ensures vals == seq(n, _ => 0)
    {
      data := new int[n](_ => 0);
      vals := seq(n, _ => 0);
      new;
      forall j | 0 <= j < n ensures NodeHolds(data[..], vals, j) {
        LowAtMost(j);
        SumZero(vals, Low(j), j + 1);
      }
    }

    // NewFenwickTreeFrom
    constructor From(xs: seq<int>)
      ensures Valid() && fresh(data) && data.Length == |xs|
      ensures vals == xs
    {
      data := new int[|xs|](_ => 0);
      vals := xs;
      new;
      BuildStart(data[..], xs);
      for i := 0 to |xs|
        invariant vals == xs && data.Length == |xs|
        invariant Built(data[..], xs, i)
      {
        ghost var nodes := data[..];
        data[i] := data[i] + xs[i];
        var after := Or(i, i + 1);
        NextIsOr(i);
        NextCovers(i);
        if after < |xs| {
          data[after] := data[after] + data[i];
        }
        BuildStep(nodes, xs, i, data[..]);
      }
    }

    method Add(index: nat, delta: int)
      requires Valid()
      modifies this, data
      ensures Valid()
      ensures vals == if index < |old(vals)| then old(vals)[index := old(vals)[index] + delta] else old(vals)
    {
      var i := index;
      AddStart(data[..], vals, index, delta);
      while i < data.Length
        invariant vals == old(vals) && Adding(data[..], vals, index, delta, i)
        decreases data.Length - i
      {
        AddStep(data[..], vals, index, delta, i);
        NextIsOr(i);
        NextCovers(i);
        ghost var nodes := data[..];
        data[i] := data[i] + delta;
        assert data[..] == nodes[i := nodes[i] + delta];
        i := Or(i, i + 1);
      }
      AddDone(data[..], vals, index, delta, i);
      if index < data.Length { vals := vals[index := vals[index] + delta]; }
    }

    method SumUntil(index: int) returns (sum: int)
      requires Valid() && index < data.Length
      ensures sum == Sum(vals, 0, index + 1)
    {
      sum := 0;
      var i := index;
      while i >= 0
        invariant -1 <= i < data.Length || i == index < -1
        invariant i >= -1 ==> Sum(vals, 0, index + 1) == Sum(vals, 0, i + 1) + sum
        invariant i < -1 ==> sum == 0
        decreases i
      {
        assert NodeHolds(data[..], vals, i);
        SumSplit(vals, 0, Low(i), i + 1);
        LowIsAnd(i);
        sum := sum + data[i];
        i := And(i, i + 1) - 1;
      }
    }

    // Sum
    method Total() returns (sum: int)
      requires Valid()
      ensures sum == Sum(vals, 0, |vals|)
    {
      sum := SumUntil(data.Length - 1);
    }

    method SumFrom(index: int) returns (sum: int)
      requires Valid() && index <= data.Length
      ensures sum == Sum(vals, if index < 0 then 0 else index, |vals|)
    {
      var total := Total();
      var before := SumUntil(index - 1);
      sum := total - before;
      if index >= 0 { SumSplit(vals, 0, index, |vals|); }
    }

    method SumRange(left: int, right: int) returns (sum: int)
      requires Valid() && left <= data.Length && right < data.Length
      ensures sum == RangeSum(vals, left, right)
    {
      var r := SumUntil(right);
      var l := SumUntil(left - 1);
      sum := r - l;
      var lo, hi := Clamp(left), Clamp(right + 1);
      if lo <= hi { SumSplit(vals, 0, lo, hi); } else { SumSplit(vals, 0, hi, lo); }
    }

    method At(index: nat) returns (v: int)
      requires Valid() && index < data.Length
      ensures v == vals[index]
    {
      assert Sum(vals, index, index + 1) == Sum(vals, index, index) + vals[index];
      v := SumRange(index, index);
    }

    method Clear(index: nat) returns (v: int)
      requires Valid() && index < data.Length
      modifies this, data
      ensures Valid()
      ensures v == old(vals)[index] && vals == old(vals)[index := 0]
    {
      v := At(index);
      Add(index, -v);
    }

    method Reset()
      requires Valid()
      modifies this, data
      ensures Valid() && vals == seq(data.Length, _ => 0)
    {
      for i := 0 to data.Length
        invariant forall j :: 0 <= j < i ==> data[j] == 0
      {
        data[i] := 0;
      }
      vals := seq(data.Length, _ => 0);
      forall j | 0 <= j < data.Length ensures NodeHolds(data[..], vals, j) {
        LowAtMost(j);
        SumZero(vals, Low(j), j + 1);
      }
    }
  }
}

/** Whole runs of a Fenwick tree against a plain array. */
module FenwickRuns {
  import opened FenwickTrees

  datatype Op =
    | AddAt(index: nat, delta: int)
    | ClearAt(index: nat)
    | ResetAll
    | Until(last: int)
    | From(first: int)
    | Between(left: int, right: int)
    | PointAt(index: nat)

  // Indices outside these bounds make the code index its slice out of range.
  predicate InRange(op: Op, n: nat) {
    match op
    case AddAt(_, _) => true
    case ClearAt(i) => i < n
    case ResetAll => true
    case Until(i) => i < n
    case From(i) => i <= n
    case Between(l, r) => l <= n && r < n
    case PointAt(i) => i < n
  }

  // The same operation on a plain array.
  function PlainStep(xs: seq<int>, op: Op): (seq<int>, int)
    requires InRange(op, |xs|)
  {
    match op
    case AddAt(i, d) => (if i < |xs| then xs[i := xs[i] + d] else xs, 0)
    case ClearAt(i) => (xs[i := 0], xs[i])
    case ResetAll => (seq(|xs|, _ => 0), 0)
    case Until(i) => (xs, Sum(xs, 0, i + 1))
    case From(i) => (xs, Sum(xs, if i < 0 then 0 else i, |xs|))
    case Between(l, r) => (xs, RangeSum(xs, l, r))
    case PointAt(i) => (xs, xs[i])
  }

  function PlainRun(xs: seq<int>, ops: seq<Op>): (r: (seq<int>, seq<int>))
    requires forall op :: op in ops ==> InRange(op, |xs|)
    ensures |r.0| == |xs|
  {
    if ops == [] then (xs, [])
    else
      var (ys, answers) := PlainRun(xs, ops[..|ops| - 1]);
      var (zs, answer) := PlainStep(ys, ops[|ops| - 1]);
      (zs, answers + [answer])
  }

  method Step(t: FenwickTree, op: Op) returns (answer: int)
    requires t.Valid() && InRange(op, |t.vals|)
    modifies t, t.data
    ensures t.Valid() && (t.vals, answer) == PlainStep(old(t.vals), op)
  {
    hide NodeHolds, Sum;
    answer := 0;
    match op
    case AddAt(i, d) => t.Add(i, d);
    case ClearAt(i) => answer := t.Clear(i);
    case ResetAll => t.Reset();
    case Until(i) => answer := t.SumUntil(i);
    case From(i) => answer := t.SumFrom(i);
    case Between(l, r) => answer := t.SumRange(l, r);
    case PointAt(i) => answer := t.At(i);
  }

  // Every run of the tree, from any initial array, answers as the plain array does.
  method Run(xs: seq<int>, ops: seq<Op>) returns (answers: seq<int>)
    requires forall op :: op in ops ==> InRange(op, |xs|)
    ensures answers == PlainRun(xs, ops).1
  {
    var t := new FenwickTree.From(xs);
    answers := [];
    for i := 0 to |ops|
      invariant fresh(t) && fresh(t.data) && t.Valid() && |t.vals| == |xs|
      invariant (t.vals, answers) == PlainRun(xs, ops[..i])
    {
      var answer := Step(t, ops[i]);
      answers := answers + [answer];
      assert ops[..i + 1][..i] == ops[..i];
    }
    assert ops[..|ops|] == ops;
  }

  // The nodes are determined by the array they stand for.
  lemma NodesUnique(a: seq<int>, b: seq<int>, xs: seq<int>)
    requires Represents(a, xs) && Represents(b, xs)
    ensures a == b
  {
    forall j | 0 <= j < |xs| ensures a[j] == b[j] {
      assert NodeHolds(a, xs, j) && NodeHolds(b, xs, j);
    }
  }

  // The linear-time builder and one Add per element give the same nodes.
  method BuildTwice(xs: seq<int>) returns (linear: seq<int>, byAdds: seq<int>)
    ensures linear == byAdds && Represents(linear, xs)
  {
    var t := new FenwickTree.From(xs);
    var u := new FenwickTree(|xs|);
    for i := 0 to |xs|
      invariant fresh(u) && fresh(u.data) && u.Valid() && u.data != t.data && u != t && t.Valid() && t.vals == xs
      invariant u.vals == xs[..i] + seq(|xs| - i, _ => 0)
    {
      u.Add(i, xs[i]);
    }
    assert u.vals == xs;
    linear, byAdds := t.data[..], u.data[..];
    NodesUnique(linear, byAdds, xs);
  }
}

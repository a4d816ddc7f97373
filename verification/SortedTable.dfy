/** A table kept as a list in ascending order of its keys and searched with sort.Search. */
module SortedTables {

  datatype Entry<V> = Entry(key: int, value: V)

  ghost predicate Ascending<V>(s: seq<Entry<V>>) {
    forall i, j :: 0 <= i < j < |s| ==> s[i].key < s[j].key
  }

  // The table a list stands for.
  ghost function ToMap<V>(s: seq<Entry<V>>): map<int, V> {
    if s == [] then map[] else ToMap(s[..|s| - 1])[s[|s| - 1].key := s[|s| - 1].value]
  }

  ghost predicate SplitsAt<V>(s: seq<Entry<V>>, key: int, ix: nat) {
    && ix <= |s|
    && (forall i :: 0 <= i < ix ==> s[i].key < key)
    && (forall i :: ix <= i < |s| ==> s[i].key >= key)
  }

  // sort.Search for the first entry whose key is not smaller.
  method Search<V>(s: seq<Entry<V>>, key: int) returns (ix: nat)
    requires Ascending(s)
    ensures SplitsAt(s, key, ix)
  {
    var i, j := 0, |s|;
    while i < j
      invariant 0 <= i <= j <= |s|
      invariant forall k :: 0 <= k < i ==> s[k].key < key
      invariant forall k :: j <= k < |s| ==> s[k].key >= key
    {
      var h := (i + j) / 2;
      if s[h].key < key { i := h + 1; } else { j := h; }
    }
    ix := i;
  }

  // The search answers membership.
  lemma {:induction false} Lookup<V>(s: seq<Entry<V>>, key: int, ix: nat)
    requires Ascending(s) && SplitsAt(s, key, ix)
    ensures key in ToMap(s) <==> ix < |s| && s[ix].key == key
    ensures key in ToMap(s) ==> ToMap(s)[key] == s[ix].value
  {
    if s != [] {
      var front := s[..|s| - 1];
      Lookup(front, key, if ix < |front| then ix else |front|);
    }
  }

  lemma {:induction false} EntryCount<V>(s: seq<Entry<V>>)
    requires Ascending(s)
    ensures |ToMap(s)| == |s|
  {
    if s != [] {
      var front, last := s[..|s| - 1], s[|s| - 1].key;
      EntryCount(front);
      Lookup(front, last, |front|);
    }
  }

  function Inserted<V>(s: seq<Entry<V>>, ix: nat, e: Entry<V>): seq<Entry<V>>
    requires ix <= |s|
  {
    s[..ix] + [e] + s[ix..]
  }

  function Removed<V>(s: seq<Entry<V>>, ix: nat): seq<Entry<V>>
    requires ix < |s|
  {
    s[..ix] + s[ix + 1..]
  }

  lemma InsertAscending<V>(s: seq<Entry<V>>, ix: nat, e: Entry<V>)
    requires Ascending(s) && SplitsAt(s, e.key, ix)
    requires ix < |s| ==> s[ix].key != e.key
    ensures Ascending(Inserted(s, ix, e))
  {
    var s' := Inserted(s, ix, e);
    assert forall i :: 0 <= i < |s'| ==> s'[i] == if i < ix then s[i] else if i == ix then e else s[i - 1];
  }

  lemma {:induction false} InsertMap<V>(s: seq<Entry<V>>, ix: nat, e: Entry<V>)
    requires ix <= |s| && forall i :: ix <= i < |s| ==> s[i].key != e.key
    ensures ToMap(Inserted(s, ix, e)) == ToMap(s)[e.key := e.value]
    decreases |s|
  {
    var s' := Inserted(s, ix, e);
    if ix == |s| {
      assert s'[..|s|] == s;
    } else {
      var n := |s| - 1;
      InsertMap(s[..n], ix, e);
      assert s'[..|s|] == Inserted(s[..n], ix, e);
      assert s'[|s|] == s[n];
    }
  }

  lemma RemoveInsert<V>(s: seq<Entry<V>>, ix: nat)
    requires ix < |s|
    ensures |Removed(s, ix)| == |s| - 1 && Inserted(Removed(s, ix), ix, s[ix]) == s
  {}

  lemma RemoveOther<V>(m: map<int, V>, x: int, y: int, v: V)
    requires x != y
    ensures (m - {x})[y := v] == m[y := v] - {x}
  {}

  lemma RemovedLast<V>(s: seq<Entry<V>>)
    requires s != []
    ensures Removed(s, |s| - 1) == s[..|s| - 1]
  {}

  lemma RemovedFront<V>(s: seq<Entry<V>>, ix: nat)
    requires ix < |s| - 1
    ensures var (s', n) := (Removed(s, ix), |s| - 1);
      |s'| == n && s'[..n - 1] == Removed(s[..n], ix) && s'[n - 1] == s[n] && s[..n][ix] == s[ix]
  {}

  lemma {:induction false} RemoveMap<V>(s: seq<Entry<V>>, ix: nat)
    requires Ascending(s) && ix < |s|
    ensures Ascending(Removed(s, ix))
    ensures ToMap(Removed(s, ix)) == ToMap(s) - {s[ix].key}
    decreases |s|
  {
    RemoveAscending(s, ix);
    hide Removed;
    var n := |s| - 1;
    var front := s[..n];
    if ix == n {
      RemovedLast(s);
      Lookup(front, s[n].key, n);
    } else {
      RemoveMap(front, ix);
      RemovedFront(s, ix);
      RemoveOther(ToMap(front), s[ix].key, s[n].key, s[n].value);
    }
  }

  lemma RemoveAscending<V>(s: seq<Entry<V>>, ix: nat)
    requires Ascending(s) && ix < |s|
    ensures Ascending(Removed(s, ix))
  {
    var s' := Removed(s, ix);
    assert forall i :: 0 <= i < |s'| ==> s'[i] == if i < ix then s[i] else s[i + 1];
  }

  lemma Head<V>(s: seq<Entry<V>>)
    requires Ascending(s) && s != []
    ensures s[0].key in ToMap(s) && ToMap(s)[s[0].key] == s[0].value
    ensures Ascending(s[1..]) && ToMap(s[1..]) == ToMap(s) - {s[0].key}
  {
    Lookup(s, s[0].key, 0);
    RemoveMap(s, 0);
    assert Removed(s, 0) == s[1..];
  }
}

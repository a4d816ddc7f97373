/** What a receiver that puts numbered packets back in order must deliver: the packets 1..k in
    order, each once and with the bytes of its first arrival, where k + 1 is the least number
    that has not arrived. */
module Delivery {
  import opened Bytes

  datatype Packet = Packet(number: int, payload: seq<byte>)

  ghost predicate Received(xs: seq<Packet>, n: int) {
    exists i :: 0 <= i < |xs| && xs[i].number == n
  }

  ghost function First(xs: seq<Packet>, n: int): seq<byte>
    requires Received(xs, n)
  {
    var front := xs[..|xs| - 1];
    if Received(front, n) then First(front, n) else xs[|xs| - 1].payload
  }

  // The n-th delivery is packet n as it first arrived.
  ghost predicate Right(xs: seq<Packet>, delivered: seq<Packet>, n: int) {
    1 <= n <= |delivered| && Received(xs, n) && delivered[n - 1] == Packet(n, First(xs, n))
  }

  ghost predicate InOrder(xs: seq<Packet>, delivered: seq<Packet>) {
    (forall n :: 1 <= n <= |delivered| ==> Right(xs, delivered, n)) && !Received(xs, |delivered| + 1)
  }

  // Only one sequence of deliveries is right.
  lemma InOrderUnique(xs: seq<Packet>, d: seq<Packet>, d': seq<Packet>)
    requires InOrder(xs, d) && InOrder(xs, d')
    ensures d == d'
  {
    forall n | 1 <= n <= |d| ensures Received(xs, n) { assert Right(xs, d, n); }
    forall n | 1 <= n <= |d'| ensures Received(xs, n) { assert Right(xs, d', n); }
    forall i | 0 <= i < |d| ensures d[i] == d'[i] {
      assert Right(xs, d, i + 1) && Right(xs, d', i + 1);
    }
  }

  // ---- The state of a receiver ----

  type Pending = map<int, seq<byte>>

  // Everything below `expected` is delivered; what arrived at or above it is pending.
  ghost predicate Walking(xs: seq<Packet>, expected: int, pending: Pending, delivered: seq<Packet>) {
    && expected == |delivered| + 1
    && (forall n :: 1 <= n <= |delivered| ==> Right(xs, delivered, n))
    && (forall n :: n >= expected && Received(xs, n) ==> n in pending)
    && (forall n :: n in pending ==> n >= expected && Received(xs, n) && pending[n] == First(xs, n))
  }

  ghost predicate Tracks(xs: seq<Packet>, expected: int, pending: Pending, delivered: seq<Packet>) {
    Walking(xs, expected, pending, delivered) && expected !in pending
  }

  lemma TracksInOrder(xs: seq<Packet>, expected: int, pending: Pending, delivered: seq<Packet>)
    requires Tracks(xs, expected, pending, delivered)
    ensures InOrder(xs, delivered)
  {}

  lemma StartTracking()
    ensures Tracks([], 1, map[], [])
  {}

  // ---- One more arrival ----

  lemma Arrival(xs: seq<Packet>, p: Packet, n: int)
    ensures Received(xs + [p], n) <==> Received(xs, n) || n == p.number
    ensures Received(xs, n) ==> First(xs + [p], n) == First(xs, n)
    ensures !Received(xs, n) && n == p.number ==> First(xs + [p], n) == p.payload
  {
    var ys := xs + [p];
    assert ys[..|ys| - 1] == xs;
    assert ys[|xs|] == p;
    if Received(xs, n) {
      var i :| 0 <= i < |xs| && xs[i].number == n;
      assert ys[i].number == n;
    }
  }

  lemma ArrivalAll(xs: seq<Packet>, p: Packet)
    ensures forall n :: Received(xs + [p], n) <==> Received(xs, n) || n == p.number
    ensures forall n :: Received(xs, n) ==> First(xs + [p], n) == First(xs, n)
  {
    forall n
      ensures Received(xs + [p], n) <==> Received(xs, n) || n == p.number
      ensures Received(xs, n) ==> First(xs + [p], n) == First(xs, n)
    {
      Arrival(xs, p, n);
    }
  }

  // A number seen before, or one already delivered, changes nothing.
  lemma ArriveKnown(xs: seq<Packet>, p: Packet, expected: int, pending: Pending, delivered: seq<Packet>)
    requires Tracks(xs, expected, pending, delivered)
    requires p.number < expected || p.number in pending
    ensures Tracks(xs + [p], expected, pending, delivered)
  {
    ArrivalAll(xs, p);
    if 1 <= p.number < expected { assert Right(xs, delivered, p.number); }
    KeepRight(xs, p, delivered, delivered);
  }

  // Deliveries made so far stay right when more packets arrive or are delivered.
  lemma KeepRight(xs: seq<Packet>, p: Packet, d: seq<Packet>, d': seq<Packet>)
    requires forall n :: 1 <= n <= |d| ==> Right(xs, d, n)
    requires d <= d'
    ensures forall n :: 1 <= n <= |d| ==> Right(xs + [p], d', n)
  {
    forall n | 1 <= n <= |d| ensures Right(xs + [p], d', n) {
      assert Right(xs, d, n);
      Arrival(xs, p, n);
    }
  }

  lemma ArriveEarly(xs: seq<Packet>, p: Packet, expected: int, pending: Pending, delivered: seq<Packet>)
    requires Tracks(xs, expected, pending, delivered)
    requires p.number > expected && p.number !in pending
    ensures Tracks(xs + [p], expected, pending[p.number := p.payload], delivered)
  {
    ArrivalAll(xs, p);
    Arrival(xs, p, p.number);
    KeepRight(xs, p, delivered, delivered);
  }

  lemma ArriveExpected(xs: seq<Packet>, p: Packet, expected: int, pending: Pending, delivered: seq<Packet>)
    requires Tracks(xs, expected, pending, delivered) && p.number == expected
    ensures Walking(xs + [p], expected + 1, pending, delivered + [p])
  {
    ArrivalAll(xs, p);
    Arrival(xs, p, p.number);
    KeepRight(xs, p, delivered, delivered + [p]);
    assert Right(xs + [p], delivered + [p], expected);
  }

  lemma WalkOne(xs: seq<Packet>, expected: int, pending: Pending, delivered: seq<Packet>)
    requires Walking(xs, expected, pending, delivered) && expected in pending
    ensures Walking(xs, expected + 1, pending - {expected}, delivered + [Packet(expected, pending[expected])])
  {
    var d := delivered + [Packet(expected, pending[expected])];
    forall n | 1 <= n <= |d| ensures Right(xs, d, n) {
      if n < expected { assert Right(xs, delivered, n); }
    }
  }
}

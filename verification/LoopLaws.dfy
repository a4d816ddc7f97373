/** What the loop owes its clients, said of one poll at a time: a reported event calls the handler that
    was set last, a deleted interest is never called, posts run once and in order, a timer rings once. */
module LoopLaws {
  import opened Requests
  import opened Pollers
  import opened TimerTraces
  import opened Timers
  import opened LoopSpec

  // Bit 0 of an epoll mask is EPOLLIN, bit 2 is EPOLLOUT.
  predicate Reports(mask: nat, k: Kind) { if k.Read? then mask % 2 == 1 else mask / 4 % 2 == 1 }

  lemma ReportsIff(v: LoopView, i: Interest, mask: nat)
    ensures i !in v.waiting || !Reports(mask, i.kind) || v.stuck ==> Fired(v, i, mask) == v
    ensures i in v.waiting && Reports(mask, i.kind) && !v.stuck ==>
      Fired(v, i, mask) == Called(Taken(v, i), v.waiting[i])
  {
    BitZero(mask);
    BitTwo(mask / 4, mask % 4);
  }

  // The handler of an interest leaves the slot and is noted as called.
  ghost function Taken(v: LoopView, i: Interest): LoopView
    requires i in v.waiting
  {
    v.(waiting := v.waiting - {i}, fired := v.fired + [Fire(i, v.waiting[i])])
  }

  // The view after a poll that reports one event.
  ghost function PollOne(v: LoopView, slot: Slot, mask: nat): LoopView
    requires v.locked ==> v.stuck
  {
    Stepped(v, Poll([Reported(slot, mask)]))
  }

  lemma PollIs(v: LoopView, slot: Slot, mask: nat)
    requires v.locked ==> v.stuck
    ensures PollOne(v, slot, mask) == OnEvent(v, slot, mask)
  {
    assert [Reported(slot, mask)][..0] == [] && Polled(v, []) == v;
  }

  // A batch of events is handled one after the other.
  lemma {:induction false} BatchSplits(v: LoopView, a: seq<Reported>, b: seq<Reported>)
    requires v.locked ==> v.stuck
    ensures Stepped(v, Poll(a + b)) == Stepped(Stepped(v, Poll(a)), Poll(b))
  {
    hide OnEvent;
    if b == [] {
      assert a + b == a;
    } else {
      var n := |b| - 1;
      BatchSplits(v, a, b[..n]);
      assert (a + b)[..|a| + n] == a + b[..n];
    }
  }

  // ---- Events of descriptors ----

  lemma ReadFires(v: LoopView, n: nat, mask: nat, ops: seq<Request>)
    requires !v.stuck && !v.locked && Reports(mask, Read)
    requires var i := Interest(Fd(n), Read); i in v.waiting && v.waiting[i] == User(ops)
    ensures var w := RunAll(Taken(v, Interest(Fd(n), Read)), ops);
      !Reports(mask, Write) || Interest(Fd(n), Write) !in w.waiting || w.stuck ==> PollOne(v, Fd(n), mask) == w
  {
    hide Fired, RunAll, Reports;
    PollIs(v, Fd(n), mask);
    ReportsIff(v, Interest(Fd(n), Read), mask);
    ReportsIff(RunAll(Taken(v, Interest(Fd(n), Read)), ops), Interest(Fd(n), Write), mask);
  }

  lemma WriteFires(v: LoopView, n: nat, mask: nat, ops: seq<Request>)
    requires !v.stuck && !v.locked && Reports(mask, Write)
    requires !Reports(mask, Read) || Interest(Fd(n), Read) !in v.waiting
    requires var i := Interest(Fd(n), Write); i in v.waiting && v.waiting[i] == User(ops)
    ensures PollOne(v, Fd(n), mask) == RunAll(Taken(v, Interest(Fd(n), Write)), ops)
  {
    hide Fired, RunAll, Reports;
    PollIs(v, Fd(n), mask);
    ReportsIff(v, Interest(Fd(n), Read), mask);
    ReportsIff(v, Interest(Fd(n), Write), mask);
  }

  // Both are reported: the write handler is the one that waits when the read handler is done.
  lemma BothFire(v: LoopView, n: nat, mask: nat, ops: seq<Request>, more: seq<Request>)
    requires !v.stuck && !v.locked && Reports(mask, Read) && Reports(mask, Write)
    requires var i := Interest(Fd(n), Read); i in v.waiting && v.waiting[i] == User(ops)
    requires var (w, j) := (RunAll(Taken(v, Interest(Fd(n), Read)), ops), Interest(Fd(n), Write));
      !w.stuck && j in w.waiting && w.waiting[j] == User(more)
    ensures var w := RunAll(Taken(v, Interest(Fd(n), Read)), ops);
      PollOne(v, Fd(n), mask) == RunAll(Taken(w, Interest(Fd(n), Write)), more)
  {
    hide Fired, RunAll, Reports;
    PollIs(v, Fd(n), mask);
    ReportsIff(v, Interest(Fd(n), Read), mask);
    ReportsIff(RunAll(Taken(v, Interest(Fd(n), Read)), ops), Interest(Fd(n), Write), mask);
  }

  lemma NothingFires(v: LoopView, slot: Slot, mask: nat)
    requires !v.stuck && !v.locked && slot != Waker
    requires Interest(slot, Read) in v.waiting ==> !Reports(mask, Read)
    requires Interest(slot, Write) in v.waiting ==> !Reports(mask, Write)
    ensures PollOne(v, slot, mask) == v
  {
    hide Fired, Reports;
    PollIs(v, slot, mask);
    ReportsIff(v, Interest(slot, Read), mask);
    ReportsIff(v, Interest(slot, Write), mask);
  }

  // Requests call nobody else's handler.
  lemma {:induction false} RequestsFireNothing(v: LoopView, ops: seq<Request>)
    ensures RunAll(v, ops).fired == v.fired
    decreases ops
  {
    if ops != [] && !v.stuck {
      var w := Asked(v, ops[0]);
      if AtOnce(v, ops[0]) {
        RequestsFireNothing(w, ops[0].ops);
        RequestsFireNothing(RunAll(w, ops[0].ops), ops[1..]);
      } else {
        RequestsFireNothing(w, ops[1..]);
      }
    }
  }

  ghost function FireIf(fires: bool, i: Interest, waiting: map<Interest, Handler>): seq<Act> {
    if fires && i in waiting then [Fire(i, waiting[i])] else []
  }

  // What one event adds to the calls of a run, whatever happened before: each reported bit whose handler
  // waits at that moment.
  lemma FiresExactly(v: LoopView, n: nat, mask: nat)
    requires !v.stuck && !v.locked
    requires forall k :: Interest(Fd(n), k) in v.waiting ==> v.waiting[Interest(Fd(n), k)].User?
    ensures var (read, write) := (Interest(Fd(n), Read), Interest(Fd(n), Write));
      var w := if Reports(mask, Read) && read in v.waiting
               then RunAll(Taken(v, read), v.waiting[read].ops) else v;
      (write in w.waiting ==> w.waiting[write].User?) ==>
        PollOne(v, Fd(n), mask).fired == v.fired
          + FireIf(Reports(mask, Read), read, v.waiting)
          + FireIf(Reports(mask, Write) && !w.stuck, write, w.waiting)
  {
    hide Fired, RunAll, Reports;
    var (read, write) := (Interest(Fd(n), Read), Interest(Fd(n), Write));
    PollIs(v, Fd(n), mask);
    ReportsIff(v, read, mask);
    var w := Fired(v, read, mask);
    if Reports(mask, Read) && read in v.waiting { RequestsFireNothing(Taken(v, read), v.waiting[read].ops); }
    ReportsIff(w, write, mask);
    if Reports(mask, Write) && !w.stuck && write in w.waiting && w.waiting[write].User? {
      RequestsFireNothing(Taken(w, write), w.waiting[write].ops);
    }
  }

  // ---- What a client sets is what is called ----

  function Setting(n: nat, k: Kind, ops: seq<Request>): Request {
    if k.Read? then SetRead(n, ops) else SetWrite(n, ops)
  }

  function Deleting(n: nat, k: Kind): Request { if k.Read? then DelRead(n) else DelWrite(n) }

  lemma AskedOnce(v: LoopView, r: Request)
    requires !v.stuck && !AtOnce(v, r)
    ensures RunAll(v, [r]) == Asked(v, r)
  {
    hide Asked;
    assert [r][1..] == [] && RunAll(Asked(v, r), []) == Asked(v, r);
  }

  lemma TwoSteps(steps: seq<Step>, r: Request, slot: Slot, mask: nat)
    requires var v := RunView(START, steps); !v.stuck && !AtOnce(v, r)
    ensures var w := Asked(RunView(START, steps), r); w.locked ==> w.stuck
    ensures RunView(START, steps + [Client(r), Poll([Reported(slot, mask)])]) ==
      PollOne(Asked(RunView(START, steps), r), slot, mask)
  {
    hide Asked, Polled;
    var two := steps + [Client(r), Poll([Reported(slot, mask)])];
    assert two[..|steps| + 1] == steps + [Client(r)] && (steps + [Client(r)])[..|steps|] == steps;
    AskedOnce(RunView(START, steps), r);
    assert RunView(START, steps + [Client(r)]) == Asked(RunView(START, steps), r);
  }

  // In any run: a handler that is set and whose event is reported next runs, once, and no longer waits.
  lemma SetThenReported(steps: seq<Step>, n: nat, k: Kind, ops: seq<Request>, mask: nat)
    requires !RunView(START, steps).stuck && Reports(mask, k) && forall other | other != k :: !Reports(mask, other)
    ensures var (v, i) := (RunView(START, steps), Interest(Fd(n), k));
      RunView(START, steps + [Client(Setting(n, k, ops)), Poll([Reported(Fd(n), mask)])]) ==
        RunAll(v.(waiting := v.waiting - {i}, fired := v.fired + [Fire(i, User(ops))]), ops)
  {
    hide RunView, PollOne, RunAll, Reports;
    var (v, i) := (RunView(START, steps), Interest(Fd(n), k));
    TwoSteps(steps, Setting(n, k, ops), Fd(n), mask);
    var w := v.(waiting := v.waiting[i := User(ops)]);
    assert w.waiting - {i} == v.waiting - {i};
    if k.Read? { ReadFires(w, n, mask, ops); } else { WriteFires(w, n, mask, ops); }
  }

  // A deleted interest is not called, whatever is reported next.
  lemma DelThenReported(steps: seq<Step>, n: nat, k: Kind, mask: nat)
    requires !RunView(START, steps).stuck && forall other | other != k :: !Reports(mask, other)
    ensures var v := RunView(START, steps);
      RunView(START, steps + [Client(Deleting(n, k)), Poll([Reported(Fd(n), mask)])]) ==
        v.(waiting := v.waiting - {Interest(Fd(n), k)})
  {
    hide RunView, PollOne, RunAll, Reports;
    TwoSteps(steps, Deleting(n, k), Fd(n), mask);
    var v := RunView(START, steps);
    NothingFires(v.(waiting := v.waiting - {Interest(Fd(n), k)}), Fd(n), mask);
  }

  lemma DelAllThenReported(steps: seq<Step>, n: nat, mask: nat)
    requires !RunView(START, steps).stuck
    ensures var v := RunView(START, steps);
      RunView(START, steps + [Client(Del(n)), Poll([Reported(Fd(n), mask)])]) ==
        v.(waiting := v.waiting - {Interest(Fd(n), Read), Interest(Fd(n), Write)})
  {
    hide RunView, PollOne, RunAll, Reports;
    TwoSteps(steps, Del(n), Fd(n), mask);
    var (v, both) := (RunView(START, steps), {Interest(Fd(n), Read), Interest(Fd(n), Write)});
    assert v.waiting - {Interest(Fd(n), Read)} - {Interest(Fd(n), Write)} == v.waiting - both;
    NothingFires(v.(waiting := v.waiting - both), Fd(n), mask);
  }

  // ---- Posts ----

  // The requests of all posts, in the order they were posted.
  ghost function Joined(queue: seq<seq<Request>>): seq<Request> {
    if queue == [] then [] else queue[0] + Joined(queue[1..])
  }

  lemma {:induction false} JoinedMore(queue: seq<seq<Request>>, ops: seq<Request>)
    ensures Joined(queue + [ops]) == Joined(queue) + ops
  {
    if queue == [] {
      assert queue + [ops] == [ops];
    } else {
      JoinedMore(queue[1..], ops);
      assert (queue + [ops])[1..] == queue[1..] + [ops];
    }
  }

  lemma {:induction false} RunAllInTurn(v: LoopView, a: seq<Request>, b: seq<Request>)
    ensures RunAll(v, a + b) == RunAll(RunAll(v, a), b)
    decreases a
  {
    hide Asked;
    if a == [] || v.stuck {
      assert a == [] ==> a + b == b;
    } else {
      var w := Asked(v, a[0]);
      assert (a + b)[1..] == a[1..] + b;
      RunAllInTurn(if AtOnce(v, a[0]) then RunAll(w, a[0].ops) else w, a[1..], b);
    }
  }

  // Under the lock no request looks at the queue.
  lemma {:induction false} QueueAside(v: LoopView, ops: seq<Request>, q: seq<seq<Request>>)
    requires v.locked
    ensures RunAll(v.(queue := q), ops) == RunAll(v, ops).(queue := q)
    decreases ops
  {
    if ops != [] && !v.stuck {
      var w := Asked(v, ops[0]);
      assert Asked(v.(queue := q), ops[0]) == w.(queue := q);
      hide Asked;
      if AtOnce(v, ops[0]) {
        QueueAside(w, ops[0].ops, q);
        QueueAside(RunAll(w, ops[0].ops), ops[1..], q);
      } else {
        QueueAside(w, ops[1..], q);
      }
    }
  }

  lemma {:induction false} DrainsInOrder(v: LoopView)
    requires v.locked && !v.stuck
    ensures var w := RunAll(v, Joined(v.queue));
      if w.stuck then Drained(v).stuck else Drained(v) == w.(queue := [])
    decreases |v.queue|
  {
    hide RunAll;
    if v.queue == [] {
      AskedNothing(v);
    } else {
      var (first, rest) := (RunAll(v, v.queue[0]), v.queue[1..]);
      RunAllInTurn(v, v.queue[0], Joined(rest));
      if first.stuck {
        StuckStays(first, Joined(rest));
      } else {
        DrainsInOrder(first.(queue := rest));
        QueueAside(first, Joined(rest), rest);
      }
    }
  }

  lemma AskedNothing(v: LoopView)
    ensures RunAll(v, []) == v
  {}

  lemma StuckStays(v: LoopView, ops: seq<Request>)
    requires v.stuck
    ensures RunAll(v, ops) == v
  {}

  // A wake-up runs the requests of all posts, each once and in order, and empties the queue; it blocks
  // exactly if running them under the lock does.
  lemma PostsRun(v: LoopView, mask: nat)
    requires !v.locked && !v.stuck
    ensures var w := RunAll(v.(locked := true), Joined(v.queue));
      if w.stuck then PollOne(v, Waker, mask).stuck
      else PollOne(v, Waker, mask) == w.(queue := [], locked := false)
  {
    hide RunAll, Drained;
    PollIs(v, Waker, mask);
    DrainsInOrder(v.(locked := true));
  }

  // In any run: what is posted runs behind the posts before it at the next wake-up.
  lemma PostThenWoken(steps: seq<Step>, ops: seq<Request>, mask: nat)
    requires !RunView(START, steps).stuck
    ensures var v := RunView(START, steps);
      var w := RunAll(v.(locked := true), Joined(v.queue) + ops);
      var after := RunView(START, steps + [Client(Post(ops)), Poll([Reported(Waker, mask)])]);
      if w.stuck then after.stuck else after == w.(queue := [], locked := false)
  {
    hide RunView, PollOne, RunAll;
    var v := RunView(START, steps);
    TwoSteps(steps, Post(ops), Waker, mask);
    PostsRun(v.(queue := v.queue + [ops]), mask);
    JoinedMore(v.queue, ops);
    QueueAside(v.(locked := true), Joined(v.queue) + ops, v.queue + [ops]);
  }

  // ---- The timer ----

  // The alarm of a plain callback: the timer is idle again before the callback runs.
  lemma TimerRings(v: LoopView, mask: nat, id: nat, ops: seq<Request>)
    requires !v.stuck && !v.locked && Reports(mask, Read) && TIMER_WRITE !in v.waiting
    requires TIMER_READ in v.waiting && v.waiting[TIMER_READ] == Alarm(id, Once(ops))
    ensures var w := RunAll(Taken(v, TIMER_READ).(timer :=
        v.timer.(state := Ready, trace := v.timer.trace + [Ran(id)])), ops);
      TIMER_WRITE !in w.waiting || w.stuck ==> PollOne(v, TimerFd, mask) == w
  {
    hide Fired, RunAll, Reports;
    PollIs(v, TimerFd, mask);
    ReportsIff(v, TIMER_READ, mask);
    ReportsIff(RunAll(Taken(v, TIMER_READ).(timer := Ringing(v.timer, id)), ops), TIMER_WRITE, mask);
  }

  // What ScheduleOnce does, from what the timer did so far: it is refused unless the timer is idle; with a
  // delay it is accepted unless the timer was closed; without one the callback runs at once.
  lemma ScheduleLaw(v: LoopView, delay: int, ops: seq<Request>)
    requires !v.stuck && Agree(v.timer.state, v.timer.open, v.timer.serial, v.timer.trace)
    ensures var (after, t) := (RunAll(v, [ScheduleOnce(delay, ops)]), v.timer);
      var fresh' := v.(timer := t.(cancelled := false));
      if PhaseOf(t.trace) != Idle then after == v
      else if delay <= 0 then
        after == RunAll(fresh'.(timer := fresh'.timer.(trace := t.trace + [Immediate])), ops)
      else if !IsOpen(t.trace) then after == fresh'
      else
        && after.timer == TimerView(Scheduled, false, true, t.serial + 1, t.trace + [Accepted(t.serial)])
        && after == v.(timer := after.timer, waiting := v.waiting[TIMER_READ := Alarm(t.serial, Once(ops))])
  {
    hide Orderly, IdsBelow, IsOpen, PhaseOf;
    var r := ScheduleOnce(delay, ops);
    if AtOnce(v, r) {
      hide Asked;
      AskedNothing(RunAll(Asked(v, r), ops));
      assert [r][1..] == [];
    } else {
      AskedOnce(v, r);
      hide RunAll;
    }
  }

  // In any run: a callback accepted with a delay runs, once, when the timer's event is reported next.
  lemma ScheduleThenRings(steps: seq<Step>, delay: Positive, ops: seq<Request>, mask: nat)
    requires var v := RunView(START, steps); !v.stuck && v.timer.state == Ready && v.timer.open
    requires Reports(mask, Read) && !Reports(mask, Write)
    ensures var v := RunView(START, steps);
      var (id, trace) := (v.timer.serial, v.timer.trace);
      RunView(START, steps + [Client(ScheduleOnce(delay, ops)), Poll([Reported(TimerFd, mask)])]) ==
        RunAll(v.(waiting := v.waiting - {TIMER_READ},
                  fired := v.fired + [Fire(TIMER_READ, Alarm(id, Once(ops)))],
                  timer := TimerView(Ready, false, true, id + 1, trace + [Accepted(id)] + [Ran(id)])), ops)
  {
    hide RunView, RunAll, Reports;
    var v := RunView(START, steps);
    TwoSteps(steps, ScheduleOnce(delay, ops), TimerFd, mask);
    var w := Asked(v, ScheduleOnce(delay, ops));
    assert w.waiting - {TIMER_READ} == v.waiting - {TIMER_READ};
    PollIs(w, TimerFd, mask);
    hide Fired, PollOne;
    ReportsIff(w, TIMER_READ, mask);
    ReportsIff(RunAll(Taken(w, TIMER_READ).(timer := Ringing(w.timer, v.timer.serial)), ops), TIMER_WRITE, mask);
  }

  // A cancelled timer is idle and does not ring.
  lemma CancelThenReported(steps: seq<Step>, mask: nat)
    requires var v := RunView(START, steps); !v.stuck && TIMER_WRITE !in v.waiting
    ensures var v := RunView(START, steps);
      RunView(START, steps + [Client(Cancel), Poll([Reported(TimerFd, mask)])]) ==
        v.(waiting := v.waiting - {TIMER_READ},
           timer := v.timer.(state := Ready, cancelled := true, trace := v.timer.trace + [CancelDone]))
  {
    hide RunView, PollOne, RunAll, Reports;
    TwoSteps(steps, Cancel, TimerFd, mask);
    NothingFires(Asked(RunView(START, steps), Cancel), TimerFd, mask);
  }

  // A closed timer does not ring either; closing it again changes nothing.
  lemma CloseThenReported(steps: seq<Step>, mask: nat)
    requires var v := RunView(START, steps); !v.stuck && TIMER_WRITE !in v.waiting
    ensures var v := RunView(START, steps);
      RunView(START, steps + [Client(CloseTimer), Poll([Reported(TimerFd, mask)])]) ==
        v.(waiting := v.waiting - {TIMER_READ},
           timer := if v.timer.open
                    then v.timer.(state := Closed, open := false, trace := v.timer.trace + [CloseDone])
                    else v.timer)
  {
    hide RunView, PollOne, RunAll, Reports;
    TwoSteps(steps, CloseTimer, TimerFd, mask);
    NothingFires(Asked(RunView(START, steps), CloseTimer), TimerFd, mask);
  }

  // The alarm of a repeating callback: the round runs, and unless it cancelled, closed or rescheduled the
  // timer, the remaining rounds are accepted for later.
  lemma RoundRings(v: LoopView, mask: nat, id: nat, delay: Positive, rounds: seq<Round>)
    requires !v.stuck && !v.locked && Reports(mask, Read) && !Reports(mask, Write) && !v.timer.cancelled
    requires TIMER_READ in v.waiting && v.waiting[TIMER_READ] == Alarm(id, Repeating(delay, rounds))
    ensures var w := RunAll(Taken(v, TIMER_READ).(timer :=
        v.timer.(state := Ready, trace := v.timer.trace + [Ran(id)])), First(rounds));
      var after := PollOne(v, TimerFd, mask);
      if w.stuck then after == w
      else if w.timer.open && w.timer.state == Ready && !EndsWithCancel(w.timer.trace) then
        && after.timer.trace == w.timer.trace + [Accepted(w.timer.serial)]
        && after.waiting == w.waiting[TIMER_READ := Alarm(w.timer.serial, Repeating(delay, Rest(rounds)))]
      else after.timer.trace == w.timer.trace && after.waiting == w.waiting
  {
    hide Fired, RunAll, Reports;
    PollIs(v, TimerFd, mask);
    ReportsIff(v, TIMER_READ, mask);
    FlagKept(Taken(v, TIMER_READ).(timer := Ringing(v.timer, id)), First(rounds));
    ReportsIff(Called(Taken(v, TIMER_READ), v.waiting[TIMER_READ]), TIMER_WRITE, mask);
  }
}

/** What a run of the event loop does, told without masks, counters and system calls: a map of
    waiting handlers, a queue of posts and the fields of the timer. */
module LoopSpec {
  import opened Bits
  import opened Requests
  import opened Pollers
  import opened TimerTraces
  import opened Timers

  // `fired` are the handlers that were called, in order.
  datatype LoopView = LoopView(
    waiting: map<Interest, Handler>, queue: seq<seq<Request>>, locked: bool, timer: TimerView, stuck: bool,
    fired: seq<Act>)

  ghost function Schedule(v: LoopView, delay: int, callback: Callback): LoopView {
    v.(timer := Scheduling(v.timer, delay),
       waiting := if v.timer.state == Ready && delay > 0 && v.timer.open
                  then v.waiting[TIMER_READ := Alarm(v.timer.serial, callback)] else v.waiting)
  }

  // A post made while posts run blocks the loop for ever.
  ghost function Asked(v: LoopView, r: Request): LoopView {
    match r
    case SetRead(fd, ops) => v.(waiting := v.waiting[Interest(Fd(fd), Read) := User(ops)])
    case SetWrite(fd, ops) => v.(waiting := v.waiting[Interest(Fd(fd), Write) := User(ops)])
    case DelRead(fd) => v.(waiting := v.waiting - {Interest(Fd(fd), Read)})
    case DelWrite(fd) => v.(waiting := v.waiting - {Interest(Fd(fd), Write)})
    case Del(fd) => v.(waiting := v.waiting - {Interest(Fd(fd), Read)} - {Interest(Fd(fd), Write)})
    case Post(ops) => if v.locked then v.(stuck := true) else v.(queue := v.queue + [ops])
    case ScheduleOnce(delay, ops) => Schedule(v, delay, Once(ops))
    case ScheduleRepeating(delay, rounds) => if delay <= 0 then v else Schedule(v, delay, Repeating(delay, rounds))
    case Cancel => v.(timer := Cancelling(v.timer), waiting := v.waiting - {TIMER_READ})
    case CloseTimer => v.(timer := Closing(v.timer), waiting := v.waiting - {TIMER_READ})
  }

  // A callback without delay runs inside ScheduleOnce.
  ghost predicate AtOnce(v: LoopView, r: Request) {
    r.ScheduleOnce? && v.timer.state == Ready && r.delay <= 0
  }

  ghost function RunAll(v: LoopView, ops: seq<Request>): (r: LoopView)
    ensures r.locked == v.locked && (v.locked ==> r.queue == v.queue)
    decreases ops
  {
    if ops == [] || v.stuck then v
    else
      var w := Asked(v, ops[0]);
      RunAll(if AtOnce(v, ops[0]) then RunAll(w, ops[0].ops) else w, ops[1..])
  }

  // After a round the repeating callback schedules itself, unless the round cancelled the timer.
  ghost function NextRound(v: LoopView, delay: Positive, rounds: seq<Round>): LoopView {
    if v.stuck then v
    else if v.timer.cancelled then v.(timer := v.timer.(cancelled := false))
    else Schedule(v, delay, Repeating(delay, rounds))
  }

  function First(rounds: seq<Round>): seq<Request> { if rounds == [] then [] else rounds[0].ops }

  function Rest(rounds: seq<Round>): seq<Round> { if rounds == [] then [] else rounds[1..] }

  ghost function Answered(v: LoopView, callback: Callback): LoopView {
    match callback
    case Once(ops) => RunAll(v, ops)
    case Repeating(delay, rounds) => NextRound(RunAll(v, First(rounds)), delay, Rest(rounds))
  }

  ghost function Called(v: LoopView, h: Handler): LoopView {
    match h
    case User(ops) => RunAll(v, ops)
    case Alarm(id, callback) => Answered(v.(timer := Ringing(v.timer, id)), callback)
  }

  // ---- Repeating timers ----

  ghost predicate EndsWithCancel(t: seq<TimerEvent>) { t != [] && t[|t| - 1].CancelDone? }

  // While the timer has its descriptor, the flag tells that the last thing it did is a Cancel.
  ghost predicate FlagExact(t: TimerView) { t.open ==> (t.cancelled <==> EndsWithCancel(t.trace)) }

  lemma {:induction false} FlagKept(v: LoopView, ops: seq<Request>)
    requires FlagExact(v.timer)
    ensures FlagExact(RunAll(v, ops).timer)
    decreases ops
  {
    if ops != [] && !v.stuck {
      var w := Asked(v, ops[0]);
      if AtOnce(v, ops[0]) {
        FlagKept(w, ops[0].ops);
        FlagKept(RunAll(w, ops[0].ops), ops[1..]);
      } else {
        FlagKept(w, ops[1..]);
      }
    }
  }

  // The next round is scheduled exactly if the round left the timer open and idle, and the last thing
  // it did to it is not a Cancel.
  lemma RepeatsIff(v: LoopView, id: nat, delay: Positive, rounds: seq<Round>)
    requires !v.timer.cancelled
    ensures var r := v.(timer := Ringing(v.timer, id));
      var w := RunAll(r, First(rounds));
      !w.stuck ==>
        Answered(r, Repeating(delay, rounds)).timer.trace == w.timer.trace +
          if w.timer.open && w.timer.state == Ready && !EndsWithCancel(w.timer.trace)
          then [Accepted(w.timer.serial)] else []
  {
    hide RunAll;
    FlagKept(v.(timer := Ringing(v.timer, id)), First(rounds));
  }

  // A reported event calls the handler that waits for it, if there still is one.
  ghost function Fired(v: LoopView, i: Interest, mask: nat): LoopView {
    if !v.stuck && And(mask, Flag(i.kind)) == Flag(i.kind) && i in v.waiting
    then Called(v.(waiting := v.waiting - {i}, fired := v.fired + [Fire(i, v.waiting[i])]), v.waiting[i])
    else v
  }

  // The first post runs; it leaves the queue when it is done.
  ghost function PostRun(v: LoopView): (w: LoopView)
    requires v.locked && v.queue != []
    ensures w.locked && w.queue == if w.stuck then v.queue else v.queue[1..]
  {
    var w := RunAll(v, v.queue[0]);
    if w.stuck then w else w.(queue := w.queue[1..])
  }

  ghost function Drained(v: LoopView): (w: LoopView)
    requires v.locked
    ensures w.locked && (w.stuck || w.queue == [])
    decreases |v.queue|, !v.stuck
  {
    if v.stuck || v.queue == [] then v
    else
      var w := PostRun(v);
      if w.stuck then w else Drained(w)
  }

  ghost function Dispatched(v: LoopView): LoopView
    requires !v.locked
  {
    var w := Drained(v.(locked := true));
    if w.stuck then w else w.(locked := false)
  }

  ghost function OnEvent(v: LoopView, slot: Slot, mask: nat): (r: LoopView)
    requires v.locked ==> v.stuck
    ensures r.locked ==> r.stuck
  {
    if v.stuck then v
    else if slot == Waker then Dispatched(v)
    else Fired(Fired(v, Interest(slot, Read), mask), Interest(slot, Write), mask)
  }

  // ---- What does not hold ----

  // A round that cancels the timer and then runs a callback at once is scheduled again all the same.
  lemma CancelUndone(v: LoopView, id: nat, delay: Positive)
    requires !v.stuck && v.timer.open
    ensures var w := Called(v, Alarm(id, Repeating(delay, [Round([Cancel, ScheduleOnce(0, [])])])));
      w.timer.trace == v.timer.trace + [Ran(id), CancelDone, Immediate, Accepted(v.timer.serial)]
  {
    var ops := [Cancel, ScheduleOnce(0, [])];
    var r := v.(timer := Ringing(v.timer, id));
    var a := Asked(r, ops[0]);
    var b := Asked(a, ops[1]);
    assert RunAll(b, []) == b && RunAll(b, ops[1..][1..]) == b;
    assert RunAll(a, ops[1..]) == b;
    assert RunAll(r, ops) == b;
  }

  // A closed timer that is cancelled takes callbacks again and runs them at once.
  lemma ReusedAfterClose(v: LoopView, ops: seq<Request>)
    requires !v.stuck && v.timer.open
    ensures var w := Asked(Asked(v, CloseTimer), Cancel);
      && AtOnce(w, ScheduleOnce(0, ops))
      && Asked(w, ScheduleOnce(0, ops)).timer.trace == v.timer.trace + [CloseDone, CancelDone, Immediate]
  {}

  // ---- Runs ----

  datatype Reported = Reported(slot: Slot, mask: nat)

  ghost function Polled(v: LoopView, batch: seq<Reported>): (r: LoopView)
    requires v.locked ==> v.stuck
    ensures r.locked ==> r.stuck
  {
    if batch == [] then v
    else
      var e := batch[|batch| - 1];
      OnEvent(Polled(v, batch[..|batch| - 1]), e.slot, e.mask)
  }

  const START := LoopView(map[], [], false, TimerView(Ready, false, true, 0, []), false, [])

  // A run: requests from outside of handlers, and polls with whatever the kernel reports.
  datatype Step = Client(r: Request) | Poll(batch: seq<Reported>)

  ghost function Stepped(v: LoopView, s: Step): (r: LoopView)
    requires v.locked ==> v.stuck
    ensures r.locked ==> r.stuck
  {
    match s
    case Client(r) => RunAll(v, [r])
    case Poll(batch) => Polled(v, batch)
  }

  ghost function RunView(v: LoopView, steps: seq<Step>): (r: LoopView)
    requires v.locked ==> v.stuck
    ensures r.locked ==> r.stuck
  {
    if steps == [] then v else Stepped(RunView(v, steps[..|steps| - 1]), steps[|steps| - 1])
  }
}

/** The loop of Poll and dispatch with handlers that call back into the poller and the timer:
    internal/poll_linux.go and timer.go together. */
module EventLoops {
  import opened Requests
  import opened Pollers
  import opened TimerTraces
  import opened Timers
  import opened LoopSpec

  // Slots of users hold handlers of users.
  ghost predicate UserHandlers(handlers: map<Interest, Handler>) {
    forall i :: i in handlers && i.slot.Fd? ==> handlers[i].User?
  }

  class Loop {
    const poller: Poller
    const timer: Timer
    var stuck: bool   // a posted handler waits for the lock its own dispatch holds

    ghost function View(): LoopView
      requires poller.ran <= |poller.posts|
      reads this, poller, timer
    {
      LoopView(poller.Waiting(), poller.posts[poller.ran..], poller.locked, timer.View(), stuck, poller.Fired())
    }

    ghost predicate Valid()
      reads this, poller, timer, timer.poller
      ensures Valid() ==> poller.ran <= |poller.posts|
    {
      timer.poller == poller && timer.Valid() && UserHandlers(poller.handlers)
    }

    constructor ()
      ensures Valid() && fresh(poller) && fresh(timer)
      ensures View() == START
    {
      hide Poller.Valid, Timer.Valid, Poller.Wanted;
      var p := new Poller();
      poller := p;
      timer := new Timer(p);
      stuck := false;
    }

    // ---- Requests ----

    method AskPoller(r: Request)
      requires Valid() && (r.SetRead? || r.SetWrite? || r.DelRead? || r.DelWrite? || r.Del?)
      modifies poller
      ensures Valid() && View() == Asked(old(View()), r)
    {
      hide Interests, Poller.Valid, Agree, Armed, Fires;
      match r
      case SetRead(fd, ops) => poller.Set(Fd(fd), Read, User(ops));
      case SetWrite(fd, ops) => poller.Set(Fd(fd), Write, User(ops));
      case DelRead(fd) => poller.DelRW(Fd(fd), Read, false);
      case DelWrite(fd) => poller.DelRW(Fd(fd), Write, false);
      case Del(fd) => poller.Del(Fd(fd));
    }

    // Tells whether the callback has to run at once.
    method AskTimer(r: Request) returns (now: bool)
      requires Valid() && (r.ScheduleOnce? || r.ScheduleRepeating? || r.Cancel? || r.CloseTimer?)
      modifies poller, timer
      ensures Valid() && View() == Asked(old(View()), r) && now == AtOnce(old(View()), r)
    {
      hide Interests, Poller.Valid, Agree, Armed, Fires;
      now := false;
      match r
      case ScheduleOnce(delay, ops) =>
        var s := timer.ScheduleOnce(delay, Once(ops));
        now := s.RunNow?;
      case ScheduleRepeating(delay, rounds) =>
        if delay > 0 { var s := timer.ScheduleOnce(delay, Repeating(delay, rounds)); }
      case Cancel => var failed := timer.Cancel();
      case CloseTimer => var failed := timer.Close();
    }

    method AskPost(ops: seq<Request>)
      requires Valid() && !stuck
      modifies `stuck, poller
      ensures Valid() && View() == Asked(old(View()), Post(ops))
    {
      hide Interests, Poller.Valid, Agree, UserHandlers, Armed, Fires;
      stuck := poller.Post(ops);
    }

    method Ask(r: Request) returns (now: bool)
      requires Valid() && !stuck
      modifies this, poller, timer
      ensures Valid() && View() == Asked(old(View()), r) && now == AtOnce(old(View()), r)
    {
      hide Loop.Valid, Loop.View, Asked;
      now := false;
      match r
      case Post(ops) => AskPost(ops);
      case ScheduleOnce(_, _) => now := AskTimer(r);
      case ScheduleRepeating(_, _) => now := AskTimer(r);
      case Cancel => now := AskTimer(r);
      case CloseTimer => now := AskTimer(r);
      case _ => AskPoller(r);
    }

    // The requests of a callback, one after the other.
    method Do(ops: seq<Request>)
      requires Valid()
      modifies this, poller, timer
      ensures Valid() && View() == RunAll(old(View()), ops)
      decreases ops
    {
      hide Loop.Valid, Asked;
      if ops != [] && !stuck {
        var now := Ask(ops[0]);
        if now { Do(ops[0].ops); }
        Do(ops[1..]);
      }
    }

    // ---- Handlers ----

    method Reschedule(delay: Positive, rounds: seq<Round>)
      requires Valid()
      modifies poller, timer
      ensures Valid() && View() == NextRound(old(View()), delay, rounds)
    {
      hide Interests, Poller.Valid, Agree, Armed, Fires;
      if stuck { return; }
      if timer.cancelled {
        timer.cancelled := false;
      } else {
        var s := timer.ScheduleOnce(delay, Repeating(delay, rounds));
      }
    }

    method Answer(callback: Callback)
      requires Valid()
      modifies this, poller, timer
      ensures Valid() && View() == Answered(old(View()), callback)
    {
      hide Loop.Valid, Loop.View, RunAll, NextRound;
      match callback
      case Once(ops) => Do(ops);
      case Repeating(delay, rounds) =>
        Do(First(rounds));
        Reschedule(delay, Rest(rounds));
    }

    // One reported event of a user's slot.
    method FireUser(n: nat, k: Kind, mask: nat)
      requires Valid() && !stuck
      modifies this, poller, timer
      ensures Valid() && View() == Fired(old(View()), Interest(Fd(n), k), mask)
    {
      hide Interests, Poller.Valid, Agree, Armed, Fires, RunAll;
      var fire, h := poller.Take(Fd(n), k, mask);
      if fire { Do(h.ops); }
    }

    // One reported event of the timer.
    method FireTimer(k: Kind, mask: nat)
      requires Valid() && !stuck
      modifies this, poller, timer
      ensures Valid() && View() == Fired(old(View()), Interest(TimerFd, k), mask)
    {
      hide Interests, Poller.Valid, Agree, Armed, Fires, Answered;
      var fire, h := poller.Take(TimerFd, k, mask);
      if fire {
        timer.OnAlarm(h);
        Answer(h.callback);
      }
    }

    method Lock()
      requires Valid() && !poller.locked
      modifies poller
      ensures Valid() && View() == old(View()).(locked := true)
    {
      hide Interests, Poller.Valid, Agree, Armed, Fires, UserHandlers;
      poller.Lock();
    }

    method Unlock()
      requires Valid() && poller.locked && View().queue == []
      modifies poller
      ensures Valid() && View() == old(View()).(locked := false)
    {
      hide Interests, Poller.Valid, Agree, Armed, Fires, UserHandlers;
      poller.Unlock();
    }

    method RunPost()
      requires Valid() && !stuck && poller.locked && View().queue != []
      modifies this, poller, timer
      ensures Valid() && View() == PostRun(old(View()))
    {
      hide Interests, Poller.Valid, Agree, Armed, Fires, UserHandlers, RunAll;
      Do(poller.posts[poller.ran]);
      if !stuck { poller.PostDone(); }
    }

    // dispatch: the posts run under the lock.
    method Dispatch()
      requires Valid() && !stuck && !poller.locked
      modifies this, poller, timer
      ensures Valid() && View() == Dispatched(old(View()))
    {
      hide Loop.Valid, PostRun;
      Lock();
      ghost var v := View();
      while poller.ran < |poller.posts| && !stuck
        invariant Valid() && poller.locked && Drained(View()) == Drained(v)
        decreases |View().queue|, !stuck
      {
        RunPost();
      }
      if !stuck { Unlock(); }
    }

    // One reported event of the Poll loop. The write handler is looked up after the read handler ran.
    method OneEvent(e: Reported)
      requires Valid() && (poller.locked ==> stuck)
      modifies this, poller, timer
      ensures Valid() && View() == OnEvent(old(View()), e.slot, e.mask)
    {
      hide Loop.Valid, Dispatched, Fired;
      if stuck { return; }
      match e.slot
      case Waker => Dispatch();
      case TimerFd =>
        FireTimer(Read, e.mask);
        if !stuck { FireTimer(Write, e.mask); } else { StuckFires(View(), Interest(TimerFd, Write), e.mask); }
      case Fd(n) =>
        FireUser(n, Read, e.mask);
        if !stuck { FireUser(n, Write, e.mask); } else { StuckFires(View(), Interest(Fd(n), Write), e.mask); }
    }

    method Poll(batch: seq<Reported>)
      requires Valid() && (poller.locked ==> stuck)
      modifies this, poller, timer
      ensures Valid() && View() == Polled(old(View()), batch)
    {
      hide Loop.Valid, OnEvent;
      for i := 0 to |batch|
        invariant Valid() && View() == Polled(old(View()), batch[..i]) && (poller.locked ==> stuck)
      {
        assert batch[..i + 1][..i] == batch[..i];
        OneEvent(batch[i]);
      }
      assert batch[..|batch|] == batch;
    }

    method Take(s: Step)
      requires Valid() && (poller.locked ==> stuck)
      modifies this, poller, timer
      ensures Valid() && View() == Stepped(old(View()), s) && (poller.locked ==> stuck)
    {
      hide Loop.Valid, RunAll, Polled;
      match s
      case Client(r) => Do([r]);
      case Poll(batch) => Poll(batch);
    }
  }

  lemma StuckFires(v: LoopView, i: Interest, mask: nat)
    requires v.stuck
    ensures Fired(v, i, mask) == v
  {}

  // Every run, with any handlers that call back, any reported events and any posts: the poller and
  // the timer do what the plain description says, `pending` counts the waiting handlers and the
  // posts that did not run, and every epoll_ctl call fits the kernel's interest list.
  method Run(steps: seq<Step>)
    returns (pending: int, events: map<Slot, nat>, calls: seq<Ctl>, trace: seq<TimerEvent>,
             ghost v: LoopView, ghost acts: seq<Act>)
    ensures v == RunView(START, steps) && trace == v.timer.trace
    ensures pending == |Interests(events) - {WAKER_READ}| + |v.queue|
    ensures Interests(events) - {WAKER_READ} == v.waiting.Keys && WAKER_READ in Interests(events)
    ensures Legal(calls) && Mirrors(events, KernelMap(calls))
    ensures Lawful(acts) && Armed(acts) == v.waiting && Fires(acts) == v.fired
    ensures Agree(v.timer.state, v.timer.open, v.timer.serial, trace)
    ensures v.timer.state == Scheduled <==> TIMER_READ in v.waiting
    ensures UserHandlers(v.waiting) && TIMER_WRITE !in v.waiting
  {
    hide Stepped, Loop.Valid;
    var l := new Loop();
    for i := 0 to |steps|
      invariant fresh(l) && fresh(l.poller) && fresh(l.timer) && l.Valid() && (l.poller.locked ==> l.stuck)
      invariant l.View() == RunView(START, steps[..i])
    {
      assert steps[..i + 1][..i] == steps[..i];
      l.Take(steps[i]);
    }
    assert steps[..|steps|] == steps;
    pending, events, calls, trace := l.poller.pending, l.poller.events, l.poller.calls, l.timer.trace;
    v, acts := l.View(), l.poller.acts;
    AtRest(l);
  }

  lemma AtRest(l: Loop)
    requires l.Valid()
    ensures l.poller.pending == |l.poller.Wanted() - {WAKER_READ}| + |l.View().queue|
    ensures l.poller.Wanted() - {WAKER_READ} == l.View().waiting.Keys && WAKER_READ in l.poller.Wanted()
    ensures KernelOk(l.poller.events, l.poller.calls) && Lawful(l.poller.acts)
    ensures Agree(l.timer.state, l.timer.open, l.timer.serial, l.timer.trace)
    ensures l.timer.state == Scheduled <==> TIMER_READ in l.View().waiting
    ensures UserHandlers(l.View().waiting) && TIMER_WRITE !in l.View().waiting
  {
    hide Interests, KernelOk, Lawful, Armed, Fires, Orderly, Net;
    PendingBits(l.poller.Wanted(), l.poller.handlers, l.poller.acts);
  }
}

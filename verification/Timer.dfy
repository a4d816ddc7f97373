/** What happens to one timer, as its user sees it. */
module TimerTraces {
  // A callback is Accepted for later, Ran, or run at once; the timer is cancelled or closed.
  datatype TimerEvent = Accepted(id: nat) | Ran(id: nat) | Immediate | CancelDone | CloseDone

  datatype Phase = Idle | Waiting(id: nat) | Dead

  // Where a timer stands after its events, and whether it still owns its descriptor.
  ghost function PhaseOf(t: seq<TimerEvent>): Phase {
    if t == [] then Idle
    else match t[|t| - 1]
      case Accepted(id) => Waiting(id)
      case CloseDone => Dead
      case _ => Idle
  }

  ghost predicate IsOpen(t: seq<TimerEvent>) { forall i :: 0 <= i < |t| ==> !t[i].CloseDone? }

  // What may happen next.
  ghost predicate MayFollow(t: seq<TimerEvent>, e: TimerEvent) {
    match e
    case Accepted(id) => PhaseOf(t) == Idle && IsOpen(t) && Accepted(id) !in t
    case Ran(id) => PhaseOf(t) == Waiting(id)
    case Immediate => PhaseOf(t) == Idle
    case CancelDone => true
    case CloseDone => IsOpen(t)
  }

  ghost predicate Orderly(t: seq<TimerEvent>) {
    forall i :: 0 <= i < |t| ==> MayFollow(t[..i], t[i])
  }

  lemma OneMore(t: seq<TimerEvent>, e: TimerEvent)
    requires Orderly(t) && MayFollow(t, e)
    ensures Orderly(t + [e]) && (IsOpen(t + [e]) <==> IsOpen(t) && !e.CloseDone?)
    ensures PhaseOf(t + [e]) == if e.Accepted? then Waiting(e.id) else if e.CloseDone? then Dead else Idle
  {
    var u := t + [e];
    hide MayFollow;
    forall i | 0 <= i < |u| ensures MayFollow(u[..i], u[i]) {
      assert u[..i] == t[..i];
      assert t[..|t|] == t;
    }
    assert u[|t|] == e && forall i :: 0 <= i < |t| ==> u[i] == t[i];
  }

  // Once a callback is no longer waited for, it never is again.
  lemma {:induction false} NeverAgain(t: seq<TimerEvent>, k: nat, n: nat, id: nat)
    requires Orderly(t) && k <= n <= |t| && Accepted(id) in t[..k] && PhaseOf(t[..k]) != Waiting(id)
    ensures PhaseOf(t[..n]) != Waiting(id)
    decreases n
  {
    if k < n {
      NeverAgain(t, k, n - 1, id);
      assert MayFollow(t[..n - 1], t[n - 1]);
      assert t[..k] <= t[..n - 1];
      assert t[..n][n - 1] == t[n - 1];
    }
  }

  lemma Earlier(t: seq<TimerEvent>, j: nat, id: nat)
    requires Orderly(t) && j < |t| && t[j] == Ran(id)
    ensures j > 0 && t[j - 1] == Accepted(id)
  {
    assert MayFollow(t[..j], t[j]);
  }

  // A callback accepted for later runs at most once.
  lemma RunsOnce(t: seq<TimerEvent>, i: nat, j: nat, id: nat)
    requires Orderly(t) && i < j < |t| && t[i] == Ran(id)
    ensures t[j] != Ran(id)
  {
    Earlier(t, i, id);
    assert t[..i + 1][i - 1] == Accepted(id);
    assert t[..i + 1][i] == Ran(id);
    NeverAgain(t, i + 1, j, id);
    assert MayFollow(t[..j], t[j]);
  }

  // It never runs after a Cancel or a Close that came before it ran.
  lemma NotAfterCancel(t: seq<TimerEvent>, i: nat, k: nat, j: nat, id: nat)
    requires Orderly(t) && i < k < j < |t| && t[i] == Accepted(id) && (t[k].CancelDone? || t[k].CloseDone?)
    ensures t[j] != Ran(id)
  {
    assert t[..k + 1][i] == Accepted(id);
    assert t[..k + 1][k] == t[k];
    NeverAgain(t, k + 1, j, id);
    assert MayFollow(t[..j], t[j]);
  }

  // After Close nothing is accepted for later, and nothing accepted runs.
  lemma NothingAfterClose(t: seq<TimerEvent>, k: nat, j: nat)
    requires Orderly(t) && k < j < |t| && t[k].CloseDone?
    ensures !t[j].Accepted? && !t[j].Ran? && !t[j].CloseDone?
    decreases j
  {
    assert MayFollow(t[..j], t[j]);
    assert t[..j][k].CloseDone?;
    if t[j].Ran? {
      Earlier(t, j, t[j].id);
      if k < j - 1 { NothingAfterClose(t, k, j - 1); }
    }
  }

  // A closed timer still runs callbacks at once, exactly from the first Cancel on.
  lemma {:induction false} DeadUntilCancel(t: seq<TimerEvent>, k: nat, n: nat)
    requires Orderly(t) && k < n <= |t| && t[k].CloseDone?
    ensures PhaseOf(t[..n]) == Dead <==> forall c :: k < c < n ==> !t[c].CancelDone?
    decreases n
  {
    assert t[..n][n - 1] == t[n - 1];
    if k + 1 < n {
      DeadUntilCancel(t, k, n - 1);
      NothingAfterClose(t, k, n - 1);
      assert MayFollow(t[..n - 1], t[n - 1]);
    }
  }
}

/** timer.go and internal/timer_linux.go: a timer as a client of the poller. */
module Timers {
  import opened Bits
  import opened Requests
  import opened Pollers
  import opened TimerTraces

  datatype TimerState = Ready | Scheduled | Closed

  datatype ScheduleResult = Later | RunNow | Refused | BadDescriptor

  const TIMER_READ := Interest(TimerFd, Read)
  const TIMER_WRITE := Interest(TimerFd, Write)

  ghost predicate IdsBelow(t: seq<TimerEvent>, serial: nat) {
    forall i :: 0 <= i < |t| && t[i].Accepted? ==> t[i].id < serial
  }

  // The timer's state is the phase of its trace.
  ghost predicate Agree(state: TimerState, open: bool, serial: nat, t: seq<TimerEvent>) {
    && Orderly(t) && IdsBelow(t, serial) && open == IsOpen(t)
    && match PhaseOf(t)
       case Idle => state == Ready
       case Waiting(_) => state == Scheduled
       case Dead => state == Closed
  }

  lemma AgreeNext(open: bool, serial: nat, t: seq<TimerEvent>, e: TimerEvent, state: TimerState)
    requires Agree(state, open, serial, t) && MayFollow(t, e) && (e.Accepted? ==> e.id == serial)
    ensures e.Accepted? ==> Agree(Scheduled, open, serial + 1, t + [e])
    ensures e.CloseDone? ==> Agree(Closed, false, serial, t + [e])
    ensures !e.Accepted? && !e.CloseDone? ==> Agree(Ready, open, serial, t + [e])
  {
    hide Orderly, MayFollow, IsOpen;
    OneMore(t, e);
    assert (t + [e])[|t|] == e && forall i :: 0 <= i < |t| ==> (t + [e])[i] == t[i];
  }

  lemma AgreeAccepted(serial: nat, t: seq<TimerEvent>)
    requires Agree(Ready, true, serial, t)
    ensures Agree(Scheduled, true, serial + 1, t + [Accepted(serial)])
    ensures PhaseOf(t + [Accepted(serial)]) == Waiting(serial)
  {
    hide Orderly;
    assert Accepted(serial) !in t;
    AgreeNext(true, serial, t, Accepted(serial), Ready);
  }

  lemma AgreeImmediate(open: bool, serial: nat, t: seq<TimerEvent>)
    requires Agree(Ready, open, serial, t)
    ensures Agree(Ready, open, serial, t + [Immediate])
  {
    hide Orderly;
    AgreeNext(open, serial, t, Immediate, Ready);
  }

  // ---- The operations on a timer's fields ----

  datatype TimerView = TimerView(state: TimerState, cancelled: bool, open: bool, serial: nat, trace: seq<TimerEvent>)

  ghost function Scheduling(t: TimerView, delay: int): TimerView {
    if t.state != Ready then t
    else if delay <= 0 then t.(cancelled := false, trace := t.trace + [Immediate])
    else if !t.open then t.(cancelled := false)
    else t.(state := Scheduled, cancelled := false, serial := t.serial + 1, trace := t.trace + [Accepted(t.serial)])
  }

  ghost function Ringing(t: TimerView, id: nat): TimerView {
    t.(state := Ready, trace := t.trace + [Ran(id)])
  }

  ghost function Cancelling(t: TimerView): TimerView {
    t.(state := Ready, cancelled := true, trace := t.trace + [CancelDone])
  }

  ghost function Closing(t: TimerView): TimerView {
    if !t.open then t else t.(state := Closed, open := false, trace := t.trace + [CloseDone])
  }

  class Timer {
    const poller: Poller
    var state: TimerState
    var cancelled: bool
    var open: bool           // the timer still owns its descriptor
    var serial: nat          // number of callbacks accepted for later
    var anchored: bool       // the timer is in pendingTimers
    var trace: seq<TimerEvent>

    // Scheduled exactly while the poller holds the read interest, with the handler of the callback
    // that is waited for.
    ghost predicate Valid()
      reads this, poller
    {
      && poller.Valid() && Agree(state, open, serial, trace)
      && TIMER_WRITE !in poller.Wanted()
      && (state == Scheduled <==> TIMER_READ in poller.Wanted())
      && (state == Scheduled ==> anchored && open && !cancelled)
      && (state == Scheduled ==> TIMER_READ in poller.handlers && Awaited(poller.handlers[TIMER_READ]))
    }

    ghost predicate Awaited(h: Handler)
      reads this
    {
      h.Alarm? && PhaseOf(trace) == Waiting(h.id)
    }

    // The moment between the poller's removal of the interest and the handler's first step.
    ghost predicate Firing(h: Handler)
      reads this, poller
    {
      && poller.Valid() && Agree(state, open, serial, trace)
      && TIMER_WRITE !in poller.Wanted() && TIMER_READ !in poller.Wanted()
      && state == Scheduled && open && !cancelled && Awaited(h)
    }

    ghost function View(): TimerView
      reads this
    {
      TimerView(state, cancelled, open, serial, trace)
    }

    constructor (poller: Poller)
      requires poller.Valid() && poller.Wanted() == {WAKER_READ}
      ensures Valid() && this.poller == poller && state == Ready && trace == [] && open && !cancelled && serial == 0
    {
      this.poller, state, cancelled, open, serial, anchored, trace := poller, Ready, false, true, 0, false, [];
    }

    // internal.Timer.Unset; clearing the descriptor fails only on a closed one.
    method Unset() returns (failed: bool)
      requires Valid()
      modifies poller
      ensures poller.Valid() && !failed && poller.SamePosts() && poller.handlers == old(poller.handlers)
      ensures poller.Wanted() == old(poller.Wanted()) - {TIMER_READ}
      ensures poller.Waiting() == old(poller.Waiting()) - {TIMER_READ} && poller.Fired() == old(poller.Fired())
    {
      hide Interests, Agree, KernelOk, ActsOk, Armed, And, Fires;
      var now := At(poller.events, TimerFd);
      SlotMask(poller.events, poller.calls, TimerFd);
      MaskBits(now, Read);
      IsInterest(poller.events, TimerFd, Read);
      ActNone(poller.Wanted(), poller.handlers, poller.acts, TIMER_WRITE);
      if And(now, READ_EVENT) != READ_EVENT {
        ActNone(poller.Wanted(), poller.handlers, poller.acts, TIMER_READ);
        return false;
      }
      if !open { return true; }
      poller.Del(TimerFd);
      return false;
    }

    // internal.Timer.Set, called while nothing is scheduled.
    method Set(h: Handler) returns (failed: bool)
      requires Valid() && state == Ready
      modifies poller
      ensures poller.Valid() && failed == !open && poller.SamePosts() && poller.Fired() == old(poller.Fired())
      ensures failed ==> poller.Wanted() == old(poller.Wanted()) && poller.handlers == old(poller.handlers)
      ensures poller.Waiting() == if failed then old(poller.Waiting()) else old(poller.Waiting())[TIMER_READ := h]
      ensures !failed ==> poller.Wanted() == old(poller.Wanted()) + {TIMER_READ}
      ensures !failed ==> poller.handlers == old(poller.handlers)[TIMER_READ := h]
    {
      hide Interests, KernelOk, ActsOk, Agree, Armed, Fires;
      ActNone(poller.Wanted(), poller.handlers, poller.acts, TIMER_READ);
      failed := Unset();
      if !open { return true; }
      poller.Set(TimerFd, Read, h);
    }

    // The caller runs the callback if the result is RunNow, as the last thing ScheduleOnce does.
    method ScheduleOnce(delay: int, callback: Callback) returns (r: ScheduleResult)
      requires Valid()
      modifies this, poller
      ensures Valid() && poller.SamePosts() && View() == Scheduling(old(View()), delay)
      ensures poller.Fired() == old(poller.Fired())
      ensures r.Later? <==> old(state) == Ready && delay > 0 && open
      ensures r.RunNow? <==> old(state) == Ready && delay <= 0
      ensures r.Refused? <==> old(state) != Ready
      ensures r.Later? ==> poller.handlers == old(poller.handlers)[TIMER_READ := Alarm(old(serial), callback)]
      ensures r.Later? ==> poller.Waiting() == old(poller.Waiting())[TIMER_READ := Alarm(old(serial), callback)]
      ensures !r.Later? ==> poller.handlers == old(poller.handlers) && poller.Waiting() == old(poller.Waiting())
    {
      hide Interests, Poller.Valid, Agree, PhaseOf, Armed, Fires;
      if state != Ready { return Refused; }
      cancelled := false;
      if delay <= 0 {
        AgreeImmediate(open, serial, trace);
        trace := trace + [Immediate];
        return RunNow;
      }
      var failed := Set(Alarm(serial, callback));
      if failed { return BadDescriptor; }
      AgreeAccepted(serial, trace);
      trace, serial := trace + [Accepted(serial)], serial + 1;
      anchored, state := true, Scheduled;
      return Later;
    }

    // The first steps of the handler that ScheduleOnce installs; the callback follows.
    method OnAlarm(h: Handler)
      requires Firing(h)
      modifies this
      ensures Valid() && View() == Ringing(old(View()), h.id)
    {
      hide Interests, Poller.Valid, Orderly, Armed;
      AgreeNext(open, serial, trace, Ran(h.id), state);
      anchored, state, trace := false, Ready, trace + [Ran(h.id)];
    }

    method Cancel() returns (failed: bool)
      requires Valid()
      modifies this, poller
      ensures Valid() && poller.SamePosts() && poller.handlers == old(poller.handlers)
      ensures !failed && View() == Cancelling(old(View()))
      ensures poller.Waiting() == old(poller.Waiting()) - {TIMER_READ} && poller.Fired() == old(poller.Fired())
    {
      hide Interests, Poller.Valid, Orderly, Armed, Fires;
      failed := Unset();
      AgreeNext(open, serial, trace, CancelDone, state);
      cancelled, state, trace := true, Ready, trace + [CancelDone];
    }

    lemma NotWaiting()
      requires Valid() && state != Scheduled
      ensures poller.Waiting() - {TIMER_READ} == poller.Waiting()
    {
      hide Agree;
      ActNone(poller.Wanted(), poller.handlers, poller.acts, TIMER_READ);
    }

    // Closing twice does nothing; closing a timer that Cancel brought back fails.
    method Close() returns (failed: bool)
      requires Valid()
      modifies this, poller
      ensures Valid() && poller.SamePosts() && poller.handlers == old(poller.handlers)
      ensures failed <==> !old(open) && old(state) != Closed
      ensures View() == Closing(old(View()))
      ensures poller.Waiting() == old(poller.Waiting()) - {TIMER_READ} && poller.Fired() == old(poller.Fired())
    {
      hide Interests, Poller.Valid, Orderly, Armed, Fires;
      if state == Closed {
        NotWaiting();
        return false;
      }
      var e := Unset();
      if !open { return true; }
      AgreeNext(open, serial, trace, CloseDone, state);
      open, state, anchored, trace := false, Closed, false, trace + [CloseDone];
      return false;
    }
  }
}

/** When the event loop can block itself: a posted handler that posts waits for the lock that is held
    while it runs. */
module LoopSafety {
  import opened Bits
  import opened Requests
  import opened Pollers
  import opened Timers
  import opened LoopSpec

  // A request that posts nothing when it is made; a callback without delay runs as part of it.
  ghost predicate Silent(r: Request)
    decreases r
  {
    match r
    case Post(_) => false
    case ScheduleOnce(delay, ops) => delay <= 0 ==> forall i :: 0 <= i < |ops| ==> Silent(ops[i])
    case _ => true
  }

  ghost predicate AllSilent(ops: seq<Request>) { forall i :: 0 <= i < |ops| ==> Silent(ops[i]) }

  // At any depth, what is posted posts nothing.
  ghost predicate Safe(r: Request)
    decreases r
  {
    match r
    case SetRead(_, ops) => forall i :: 0 <= i < |ops| ==> Safe(ops[i])
    case SetWrite(_, ops) => forall i :: 0 <= i < |ops| ==> Safe(ops[i])
    case Post(ops) => AllSilent(ops) && forall i :: 0 <= i < |ops| ==> Safe(ops[i])
    case ScheduleOnce(_, ops) => forall i :: 0 <= i < |ops| ==> Safe(ops[i])
    case ScheduleRepeating(_, rounds) =>
      forall i :: 0 <= i < |rounds| ==> forall j :: 0 <= j < |rounds[i].ops| ==> Safe(rounds[i].ops[j])
    case _ => true
  }

  ghost predicate AllSafe(ops: seq<Request>) { forall i :: 0 <= i < |ops| ==> Safe(ops[i]) }

  ghost predicate RoundsSafe(rounds: seq<Round>) { forall i :: 0 <= i < |rounds| ==> AllSafe(rounds[i].ops) }

  ghost predicate CallbackSafe(c: Callback) {
    match c
    case Once(ops) => AllSafe(ops)
    case Repeating(_, rounds) => RoundsSafe(rounds)
  }

  ghost predicate HandlerSafe(h: Handler) {
    match h
    case User(ops) => AllSafe(ops)
    case Alarm(_, c) => CallbackSafe(c)
  }

  // Nothing that waits or is queued will ever post from inside a post.
  ghost predicate ViewSafe(v: LoopView) {
    && !v.stuck
    && (forall i :: i in v.waiting ==> HandlerSafe(v.waiting[i]))
    && (forall i :: 0 <= i < |v.queue| ==> AllSafe(v.queue[i]) && AllSilent(v.queue[i]))
  }

  lemma ScheduleSafe(v: LoopView, delay: int, c: Callback)
    requires ViewSafe(v) && CallbackSafe(c)
    ensures ViewSafe(Schedule(v, delay, c))
  {
    hide AllSafe, AllSilent, CallbackSafe, Scheduling;
  }

  lemma AskedSafe(v: LoopView, r: Request)
    requires ViewSafe(v) && Safe(r) && (v.locked ==> Silent(r))
    ensures ViewSafe(Asked(v, r))
  {
    hide AllSilent, Scheduling, Schedule;
    match r
    case SetRead(_, ops) => assert AllSafe(ops);
    case SetWrite(_, ops) => assert AllSafe(ops);
    case Post(ops) => assert AllSafe(ops);
    case ScheduleOnce(delay, ops) =>
      assert AllSafe(ops);
      ScheduleSafe(v, delay, Once(ops));
    case ScheduleRepeating(delay, rounds) =>
      assert RoundsSafe(rounds);
      if delay > 0 { ScheduleSafe(v, delay, Repeating(delay, rounds)); }
    case _ =>
  }

  lemma {:induction false} RunAllSafe(v: LoopView, ops: seq<Request>)
    requires ViewSafe(v) && AllSafe(ops) && (v.locked ==> AllSilent(ops))
    ensures ViewSafe(RunAll(v, ops))
    decreases ops
  {
    if ops != [] {
      hide ViewSafe, Asked;
      var r, w := ops[0], Asked(v, ops[0]);
      assert Safe(r) && (v.locked ==> Silent(r));
      AskedSafe(v, r);
      AskedLock(v, r);
      assert AllSafe(ops[1..]) && (v.locked ==> AllSilent(ops[1..]));
      assert !v.stuck by { SafeNotStuck(v); }
      if AtOnce(v, r) {
        assert AllSafe(r.ops) && (v.locked ==> AllSilent(r.ops));
        RunAllSafe(w, r.ops);
        RunAllSafe(RunAll(w, r.ops), ops[1..]);
      } else {
        RunAllSafe(w, ops[1..]);
      }
    }
  }

  lemma SafeNotStuck(v: LoopView)
    requires ViewSafe(v)
    ensures !v.stuck
  {}

  lemma AskedLock(v: LoopView, r: Request)
    ensures Asked(v, r).locked == v.locked
  {}

  lemma NextRoundSafe(v: LoopView, delay: Positive, rounds: seq<Round>)
    requires ViewSafe(v) && RoundsSafe(rounds)
    ensures ViewSafe(NextRound(v, delay, rounds))
  {
    hide AllSafe, AllSilent, Schedule;
    if !v.timer.cancelled { ScheduleSafe(v, delay, Repeating(delay, rounds)); }
  }

  lemma CalledSafe(v: LoopView, h: Handler)
    requires ViewSafe(v) && HandlerSafe(h) && !v.locked
    ensures ViewSafe(Called(v, h)) && !Called(v, h).locked
  {
    hide RunAll, AllSafe, AllSilent, NextRound;
    match h
    case User(ops) => RunAllSafe(v, ops);
    case Alarm(id, c) =>
      var w := v.(timer := Ringing(v.timer, id));
      assert ViewSafe(w);
      match c
      case Once(ops) => RunAllSafe(w, ops);
      case Repeating(delay, rounds) =>
        RoundSafe(rounds);
        RunAllSafe(w, First(rounds));
        NextRoundSafe(RunAll(w, First(rounds)), delay, Rest(rounds));
        NextRoundLock(RunAll(w, First(rounds)), delay, Rest(rounds));
  }

  lemma RoundSafe(rounds: seq<Round>)
    requires RoundsSafe(rounds)
    ensures AllSafe(First(rounds)) && RoundsSafe(Rest(rounds))
  {}

  lemma NextRoundLock(v: LoopView, delay: Positive, rounds: seq<Round>)
    ensures NextRound(v, delay, rounds).locked == v.locked
  {}

  lemma FiredSafe(v: LoopView, i: Interest, mask: nat)
    requires ViewSafe(v) && !v.locked
    ensures ViewSafe(Fired(v, i, mask)) && !Fired(v, i, mask).locked
  {
    hide Called, HandlerSafe, AllSafe, AllSilent, And;
    if i in v.waiting {
      var w := v.(waiting := v.waiting - {i}, fired := v.fired + [Fire(i, v.waiting[i])]);
      assert ViewSafe(w);
      CalledSafe(w, v.waiting[i]);
    }
  }

  lemma PostRunSafe(v: LoopView)
    requires ViewSafe(v) && v.locked && v.queue != []
    ensures ViewSafe(PostRun(v))
  {
    hide RunAll, AllSafe, AllSilent, HandlerSafe;
    RunAllSafe(v, v.queue[0]);
  }

  lemma {:induction false} DrainedSafe(v: LoopView)
    requires ViewSafe(v) && v.locked
    ensures ViewSafe(Drained(v))
    decreases |v.queue|
  {
    hide ViewSafe, PostRun;
    SafeNotStuck(v);
    if v.queue != [] {
      PostRunSafe(v);
      SafeNotStuck(PostRun(v));
      DrainedSafe(PostRun(v));
    }
  }

  lemma OnEventSafe(v: LoopView, slot: Slot, mask: nat)
    requires ViewSafe(v) && !v.locked
    ensures ViewSafe(OnEvent(v, slot, mask)) && !OnEvent(v, slot, mask).locked
  {
    hide Fired, Drained, AllSafe, AllSilent, HandlerSafe;
    if slot == Waker {
      assert ViewSafe(v.(locked := true));
      DrainedSafe(v.(locked := true));
    } else {
      FiredSafe(v, Interest(slot, Read), mask);
      FiredSafe(Fired(v, Interest(slot, Read), mask), Interest(slot, Write), mask);
    }
  }

  lemma {:induction false} PolledSafe(v: LoopView, batch: seq<Reported>)
    requires ViewSafe(v) && !v.locked
    ensures ViewSafe(Polled(v, batch)) && !Polled(v, batch).locked
  {
    hide ViewSafe, OnEvent;
    if batch != [] {
      PolledSafe(v, batch[..|batch| - 1]);
      OnEventSafe(Polled(v, batch[..|batch| - 1]), batch[|batch| - 1].slot, batch[|batch| - 1].mask);
    }
  }

  ghost predicate StepsSafe(steps: seq<Step>) {
    forall i :: 0 <= i < |steps| && steps[i].Client? ==> Safe(steps[i].r)
  }

  // A run in which no posted handler posts, at any depth, never blocks.
  lemma {:induction false} NeverStuck(steps: seq<Step>)
    requires StepsSafe(steps)
    ensures ViewSafe(RunView(START, steps)) && !RunView(START, steps).stuck && !RunView(START, steps).locked
  {
    if steps != [] {
      var front, last := steps[..|steps| - 1], steps[|steps| - 1];
      assert StepsSafe(front);
      NeverStuck(front);
      hide ViewSafe, Polled, RunAll;
      match last
      case Client(r) =>
        assert AllSafe([r]);
        RunAllSafe(RunView(START, front), [r]);
      case Poll(batch) => PolledSafe(RunView(START, front), batch);
      SafeNotStuck(RunView(START, steps));
    }
  }

  // A handler that posts from inside a post blocks the loop when the waker is reported.
  lemma StuckRun(mask: nat)
    ensures RunView(START, [Client(Post([Post([])])), Poll([Reported(Waker, mask)])]).stuck
  {
    var inner, outer := [Post([])], [Post([Post([])])];
    var steps := [Client(Post([Post([])])), Poll([Reported(Waker, mask)])];
    assert steps[..1] == [Client(Post([Post([])]))] && steps[..1][..0] == [];
    var v := Asked(START, outer[0]);
    assert v == START.(queue := [inner]) by { assert [] + [inner] == [inner]; }
    assert RunAll(v, outer[1..]) == v && RunAll(START, outer) == v;
    assert [outer[0]] == outer;
    assert RunView(START, steps[..1]) == v by { assert RunView(START, []) == START; }
    var w := v.(locked := true);
    assert Asked(w, inner[0]).stuck;
    assert RunAll(w, inner).stuck by { assert RunAll(Asked(w, inner[0]), inner[1..]) == Asked(w, inner[0]); }
    assert Drained(w).stuck;
    var batch := [Reported(Waker, mask)];
    assert batch[..0] == [] && Polled(v, []) == v;
    assert Polled(v, batch) == OnEvent(v, Waker, mask);
  }

  // ---- When a dispatch blocks ----

  // A post in a handler that runs under the lock is reached, unless the loop is blocked before.
  lemma {:induction false} PostBlocks(v: LoopView, ops: seq<Request>, j: nat)
    requires v.locked && j < |ops| && ops[j].Post?
    ensures RunAll(v, ops).stuck
    decreases |ops|
  {
    hide Asked;
    if !v.stuck {
      AskedLock(v, ops[0]);
      var w := Asked(v, ops[0]);
      var mid := if AtOnce(v, ops[0]) then RunAll(w, ops[0].ops) else w;
      if j == 0 {
        PostStuck(v, ops[0]);
      } else {
        PostBlocks(mid, ops[1..], j - 1);
      }
    }
  }

  lemma PostStuck(v: LoopView, r: Request)
    requires v.locked && r.Post?
    ensures Asked(v, r).stuck
  {}

  // So a queued handler that posts blocks the dispatch, wherever it is in the queue.
  lemma {:induction false} DispatchBlocks(v: LoopView, i: nat, j: nat)
    requires v.locked && i < |v.queue| && j < |v.queue[i]| && v.queue[i][j].Post?
    ensures Drained(v).stuck
    decreases i
  {
    hide RunAll;
    if !v.stuck {
      if i == 0 {
        PostBlocks(v, v.queue[0], j);
      } else if !PostRun(v).stuck {
        DispatchBlocks(PostRun(v), i - 1, j);
      }
    }
  }

  lemma {:induction false} SilentRuns(v: LoopView, ops: seq<Request>)
    requires !v.stuck && AllSilent(ops)
    ensures !RunAll(v, ops).stuck
    decreases ops
  {
    if ops != [] {
      var w := Asked(v, ops[0]);
      assert Silent(ops[0]);
      if AtOnce(v, ops[0]) {
        SilentRuns(w, ops[0].ops);
        SilentRuns(RunAll(w, ops[0].ops), ops[1..]);
      } else {
        SilentRuns(w, ops[1..]);
      }
    }
  }

  lemma {:induction false} SilentDrains(v: LoopView)
    requires v.locked && !v.stuck && forall i :: 0 <= i < |v.queue| ==> AllSilent(v.queue[i])
    ensures !Drained(v).stuck
    decreases |v.queue|
  {
    hide RunAll, AllSilent;
    if v.queue != [] {
      SilentRuns(v, v.queue[0]);
      SilentDrains(PostRun(v));
    }
  }

  // Unless callbacks without delay hide a post, a dispatch blocks if and only if a queued handler posts.
  lemma StuckIff(v: LoopView)
    requires !v.locked && !v.stuck
    requires forall i, j :: 0 <= i < |v.queue| && 0 <= j < |v.queue[i]| && v.queue[i][j].ScheduleOnce? ==>
      v.queue[i][j].delay > 0
    ensures Dispatched(v).stuck <==>
      exists i, j :: 0 <= i < |v.queue| && 0 <= j < |v.queue[i]| && v.queue[i][j].Post?
  {
    hide Drained;
    var w := v.(locked := true);
    if i, j :| 0 <= i < |v.queue| && 0 <= j < |v.queue[i]| && v.queue[i][j].Post? {
      DispatchBlocks(w, i, j);
    } else {
      forall i | 0 <= i < |w.queue| ensures AllSilent(w.queue[i]) {
        forall j | 0 <= j < |w.queue[i]| ensures Silent(w.queue[i][j]) {}
      }
      SilentDrains(w);
    }
  }
}

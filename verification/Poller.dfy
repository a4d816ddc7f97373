/** What clients of the event loop ask for, and what their callbacks will do when they are called.
    A callback is the list of the requests it makes in the run at hand, so that "for every
    callback" means "for every way a handler may call back into the loop". */
module Requests {
  datatype Request =
    | SetRead(fd: nat, ops: seq<Request>) | SetWrite(fd: nat, ops: seq<Request>)
    | DelRead(fd: nat) | DelWrite(fd: nat) | Del(fd: nat)
    | Post(ops: seq<Request>)
    | ScheduleOnce(delay: int, ops: seq<Request>)
    | ScheduleRepeating(delay: int, rounds: seq<Round>)
    | Cancel | CloseTimer

  datatype Round = Round(ops: seq<Request>)

  // The callback of a timer: a plain one, or the self-rescheduling one of ScheduleRepeating with
  // what each coming round does.
  datatype Callback = Once(ops: seq<Request>) | Repeating(delay: Positive, rounds: seq<Round>)

  type Positive = x: int | x > 0 witness 1

  // A slot's handler: a user's, or the one a timer installs for its scheduling number `id`.
  datatype Handler = User(ops: seq<Request>) | Alarm(id: nat, callback: Callback)
}

/** internal/poll_linux.go: the epoll poller. */
module Pollers {
  import opened Bits
  import opened Requests

  // Slots by owner: the poller's own eventfd, the timer under observation, everything else.
  datatype Slot = Waker | TimerFd | Fd(n: nat)
  datatype Kind = Read | Write
  datatype Interest = Interest(slot: Slot, kind: Kind)

  const WAKER_READ := Interest(Waker, Read)

  const READ_EVENT := 1    // EPOLLIN
  const WRITE_EVENT := 4   // EPOLLOUT

  function Flag(k: Kind): nat { if k.Read? then READ_EVENT else WRITE_EVENT }

  // ---- Event masks ----

  predicate IsMask(m: nat) { m == 0 || m == 1 || m == 4 || m == 5 }

  predicate Has(m: nat, k: Kind) { if k.Read? then m == 1 || m == 5 else m == 4 || m == 5 }

  lemma MaskBits(m: nat, k: Kind)
    requires IsMask(m)
    ensures And(m, Flag(k)) == Flag(k) <==> Has(m, k)
    ensures !Has(m, k) ==> Or(m, Flag(k)) == m + Flag(k) && IsMask(m + Flag(k))
    ensures Has(m, k) ==> Xor(m, Flag(k)) == m - Flag(k) && IsMask(m - Flag(k))
  {
    assert And(1, 1) == 1 && Xor(1, 1) == 0;
    assert And(2, 2) == 2 && Or(2, 0) == 2 && Or(0, 2) == 2 && Xor(2, 0) == 2 && Xor(2, 2) == 0;
  }

  // Bit 0 and bit 2 of a number, alone and after masking with an event mask.
  lemma BitZero(x: nat)
    ensures And(x, 0) == 0 && And(x, 1) == x % 2
  {
    AndLowMask(x, 1);
  }

  lemma BitTwo(x: nat, r: nat)
    requires r < 4
    ensures And(4 * x + r, 4) == 4 * (x % 2)
  {
    AndSplit(x, r, 1, 0, 2, 4);
    BitZero(x);
    BitZero(r);
  }

  lemma Masking(x: nat, r: nat, hi: nat, lo: nat)
    requires r < 4 && hi <= 1 && lo <= 1
    ensures And(4 * x + r, 4 * hi + lo) == 4 * (if hi == 1 then x % 2 else 0) + (if lo == 1 then r % 2 else 0)
  {
    AndSplit(x, r, hi, lo, 2, 4);
    BitZero(x);
    BitZero(r);
  }

  // An event is dispatched exactly if the kernel reports it and the slot still asks for it.
  lemma DispatchIff(mask: nat, events: nat, k: Kind)
    requires IsMask(events)
    ensures And(And(mask, events), Flag(k)) == Flag(k) <==> And(mask, Flag(k)) == Flag(k) && Has(events, k)
  {
    hide And;
    var hi, lo := if events >= 4 then 1 else 0, if events == 1 || events == 5 then 1 else 0;
    DispatchBits(mask / 4, mask % 4, hi, lo, k);
    assert mask == 4 * (mask / 4) + mask % 4 && events == 4 * hi + lo;
  }

  lemma DispatchBits(x: nat, r: nat, hi: nat, lo: nat, k: Kind)
    requires r < 4 && hi <= 1 && lo <= 1
    ensures And(And(4 * x + r, 4 * hi + lo), Flag(k)) == Flag(k) <==>
      And(4 * x + r, Flag(k)) == Flag(k) && (if k.Read? then lo == 1 else hi == 1)
  {
    hide And;
    Masking(x, r, hi, lo);
    MaskBits(4 * (if hi == 1 then x % 2 else 0) + (if lo == 1 then r % 2 else 0), k);
    BitZero(4 * x + r);
    Parity(x, r);
    BitTwo(x, r);
  }

  lemma Parity(x: nat, r: nat)
    ensures (4 * x + r) % 2 == r % 2
  {
    assert 4 * x + r == 2 * (2 * x) + r;
  }

  // What a slot asks for; a slot that was never set asks for nothing.
  function At(events: map<Slot, nat>, s: Slot): nat { if s in events then events[s] else 0 }

  // The event bits that are set.
  ghost function Interests(events: map<Slot, nat>): set<Interest> {
    (set s | s in events && Has(events[s], Read) :: Interest(s, Read)) +
    (set s | s in events && Has(events[s], Write) :: Interest(s, Write))
  }

  lemma IsInterest(events: map<Slot, nat>, s: Slot, k: Kind)
    ensures Interest(s, k) in Interests(events) <==> Has(At(events, s), k)
  {}

  lemma BitSet(events: map<Slot, nat>, s: Slot, k: Kind, m: nat)
    requires IsMask(At(events, s)) && !Has(At(events, s), k) && m == At(events, s) + Flag(k)
    ensures Interests(events[s := m]) == Interests(events) + {Interest(s, k)}
  {
    hide Interests, At;
    forall i: Interest ensures i in Interests(events[s := m]) <==> i in Interests(events) + {Interest(s, k)} {
      IsInterest(events, i.slot, i.kind);
      IsInterest(events[s := m], i.slot, i.kind);
      AtUpdate(events, s, m, i.slot);
    }
  }

  lemma BitCleared(events: map<Slot, nat>, s: Slot, k: Kind, m: nat)
    requires IsMask(At(events, s)) && Has(At(events, s), k) && m == At(events, s) - Flag(k)
    ensures Interests(events[s := m]) == Interests(events) - {Interest(s, k)}
  {
    hide Interests, At;
    forall i: Interest ensures i in Interests(events[s := m]) <==> i in Interests(events) - {Interest(s, k)} {
      IsInterest(events, i.slot, i.kind);
      IsInterest(events[s := m], i.slot, i.kind);
      AtUpdate(events, s, m, i.slot);
    }
  }

  lemma AtUpdate(events: map<Slot, nat>, s: Slot, m: nat, t: Slot)
    ensures At(events[s := m], t) == if t == s then m else At(events, t)
  {}

  // ---- The kernel's interest list ----

  datatype Ctl = Add(slot: Slot, mask: nat) | Modify(slot: Slot, mask: nat) | Delete(slot: Slot)

  // epoll_ctl fails when a descriptor is added twice, or changed or deleted without being there.
  predicate Permitted(kernel: map<Slot, nat>, c: Ctl) {
    match c
    case Add(s, _) => s !in kernel
    case Modify(s, _) => s in kernel
    case Delete(s) => s in kernel
  }

  function Apply(kernel: map<Slot, nat>, c: Ctl): map<Slot, nat> {
    if c.Delete? then kernel - {c.slot} else kernel[c.slot := c.mask]
  }

  ghost function KernelMap(cs: seq<Ctl>): map<Slot, nat> {
    if cs == [] then map[] else Apply(KernelMap(cs[..|cs| - 1]), cs[|cs| - 1])
  }

  ghost predicate Legal(cs: seq<Ctl>) {
    cs == [] || (Legal(cs[..|cs| - 1]) && Permitted(KernelMap(cs[..|cs| - 1]), cs[|cs| - 1]))
  }

  lemma OneMoreCall(cs: seq<Ctl>, c: Ctl)
    requires Legal(cs) && Permitted(KernelMap(cs), c)
    ensures Legal(cs + [c]) && KernelMap(cs + [c]) == Apply(KernelMap(cs), c)
  {
    hide Permitted, Apply;
    assert (cs + [c])[..|cs|] == cs;
  }

  // The kernel knows exactly the slots that ask for something, with their masks.
  ghost predicate Mirrors(events: map<Slot, nat>, kernel: map<Slot, nat>) {
    && (forall s :: s in events ==> IsMask(events[s]))
    && (forall s :: s in kernel <==> At(events, s) != 0)
    && (forall s :: s in kernel ==> kernel[s] == At(events, s))
  }

  ghost predicate KernelOk(events: map<Slot, nat>, calls: seq<Ctl>) {
    Mirrors(events, KernelMap(calls)) && Legal(calls)
  }

  lemma SlotMask(events: map<Slot, nat>, calls: seq<Ctl>, s: Slot)
    requires KernelOk(events, calls)
    ensures IsMask(At(events, s))
  {}

  // The call that follows the change of a slot's mask.
  function CtlFor(s: Slot, was: nat, m: nat): Ctl {
    if m == 0 then Delete(s) else if was == 0 then Add(s, m) else Modify(s, m)
  }

  lemma MaskChange(events: map<Slot, nat>, calls: seq<Ctl>, s: Slot, m: nat)
    requires KernelOk(events, calls) && IsMask(m) && (m != 0 || At(events, s) != 0)
    ensures KernelOk(events[s := m], calls + [CtlFor(s, At(events, s), m)])
  {
    hide Legal, KernelMap;
    OneMoreCall(calls, CtlFor(s, At(events, s), m));
  }

  // ---- Which handler is waiting for what ----

  datatype Act =
    | Arm(i: Interest, h: Handler) | Swap(i: Interest, h: Handler)
    | Fire(i: Interest, h: Handler) | Drop(i: Interest)

  // Arming needs a free interest, the other acts an armed one; what fires is what was set last.
  ghost predicate Fits(armed: map<Interest, Handler>, a: Act) {
    match a
    case Arm(i, _) => i !in armed
    case Swap(i, _) => i in armed
    case Fire(i, h) => i in armed && armed[i] == h
    case Drop(i) => i in armed
  }

  ghost function After(armed: map<Interest, Handler>, a: Act): map<Interest, Handler> {
    if a.Arm? || a.Swap? then armed[a.i := a.h] else armed - {a.i}
  }

  ghost function Armed(acts: seq<Act>): map<Interest, Handler> {
    if acts == [] then map[] else After(Armed(acts[..|acts| - 1]), acts[|acts| - 1])
  }

  ghost predicate Lawful(acts: seq<Act>) {
    acts == [] || (Lawful(acts[..|acts| - 1]) && Fits(Armed(acts[..|acts| - 1]), acts[|acts| - 1]))
  }

  // Armed interests minus those that fired or were dropped.
  ghost function Net(acts: seq<Act>): int {
    if acts == [] then 0 else Net(acts[..|acts| - 1]) + Change(acts[|acts| - 1])
  }

  // The handlers that were called, in order.
  ghost function Fires(acts: seq<Act>): seq<Act> {
    if acts == [] then [] else Fires(acts[..|acts| - 1]) + FireOf(acts[|acts| - 1])
  }

  ghost function FireOf(a: Act): seq<Act> { if a.Fire? then [a] else [] }

  function Change(a: Act): int { if a.Arm? then 1 else if a.Swap? then 0 else -1 }

  lemma {:induction false} NetCounts(acts: seq<Act>)
    requires Lawful(acts)
    ensures Net(acts) == |Armed(acts)|
  {
    if acts != [] {
      NetCounts(acts[..|acts| - 1]);
      AfterCount(Armed(acts[..|acts| - 1]), acts[|acts| - 1]);
    }
  }

  lemma AfterCount(armed: map<Interest, Handler>, a: Act)
    requires Fits(armed, a)
    ensures |After(armed, a)| == |armed| + Change(a)
  {
    var after := After(armed, a);
    assert |after| == |after.Keys| && |armed| == |armed.Keys|;
    assert after.Keys == if a.Arm? || a.Swap? then armed.Keys + {a.i} else armed.Keys - {a.i};
  }

  lemma OneMoreAct(acts: seq<Act>, a: Act)
    requires Lawful(acts) && Fits(Armed(acts), a)
    ensures Lawful(acts + [a]) && Armed(acts + [a]) == After(Armed(acts), a) && Net(acts + [a]) == Net(acts) + Change(a)
    ensures Fires(acts + [a]) == Fires(acts) + FireOf(a)
  {
    hide Fits, After;
    assert (acts + [a])[..|acts|] == acts;
  }

  // Every interest but the waker's has an armed handler, and it is the one in the slot.
  ghost predicate Attached(wanted: set<Interest>, handlers: map<Interest, Handler>, armed: map<Interest, Handler>) {
    && armed.Keys == wanted - {WAKER_READ}
    && forall i :: i in armed ==> i in handlers && handlers[i] == armed[i]
  }

  ghost predicate ActsOk(wanted: set<Interest>, handlers: map<Interest, Handler>, acts: seq<Act>) {
    Lawful(acts) && Attached(wanted, handlers, Armed(acts))
  }

  lemma ActSet(wanted: set<Interest>, handlers: map<Interest, Handler>, acts: seq<Act>, i: Interest, h: Handler)
    requires ActsOk(wanted, handlers, acts) && i != WAKER_READ
    ensures ActsOk(wanted + {i}, handlers[i := h], acts + [if i in wanted then Swap(i, h) else Arm(i, h)])
    ensures Armed(acts + [if i in wanted then Swap(i, h) else Arm(i, h)]) == Armed(acts)[i := h]
    ensures Net(acts + [if i in wanted then Swap(i, h) else Arm(i, h)]) == Net(acts) + if i in wanted then 0 else 1
    ensures Fires(acts + [if i in wanted then Swap(i, h) else Arm(i, h)]) == Fires(acts)
  {
    hide Lawful, Armed, Net, Fires;
    OneMoreAct(acts, if i in wanted then Swap(i, h) else Arm(i, h));
  }

  lemma ActGone(wanted: set<Interest>, handlers: map<Interest, Handler>, acts: seq<Act>, i: Interest, fire: bool)
    requires ActsOk(wanted, handlers, acts) && i in wanted && i != WAKER_READ
    ensures i in handlers && i in Armed(acts) && handlers[i] == Armed(acts)[i]
    ensures Armed(acts + [if fire then Fire(i, handlers[i]) else Drop(i)]) == Armed(acts) - {i}
    ensures Net(acts + [if fire then Fire(i, handlers[i]) else Drop(i)]) == Net(acts) - 1
    ensures Fires(acts + [if fire then Fire(i, handlers[i]) else Drop(i)]) ==
      Fires(acts) + if fire then [Fire(i, handlers[i])] else []
    ensures ActsOk(wanted - {i}, handlers, acts + [if fire then Fire(i, handlers[i]) else Drop(i)])
  {
    hide Lawful, Armed, Net, Fires;
    assert i in Armed(acts);
    OneMoreAct(acts, if fire then Fire(i, handlers[i]) else Drop(i));
  }

  lemma NothingSet()
    ensures Interests(map[]) == {} && KernelOk(map[], []) && ActsOk({WAKER_READ}, map[], [])
  {}

  // The event bits other than the waker's, counted.
  lemma PendingBits(wanted: set<Interest>, handlers: map<Interest, Handler>, acts: seq<Act>)
    requires ActsOk(wanted, handlers, acts)
    ensures Net(acts) == |wanted - {WAKER_READ}| && wanted - {WAKER_READ} == Armed(acts).Keys
  {
    hide Lawful, Armed, Net;
    NetCounts(acts);
    assert |Armed(acts)| == |Armed(acts).Keys|;
  }

  lemma WaitingIsWanted(wanted: set<Interest>, handlers: map<Interest, Handler>, acts: seq<Act>, i: Interest)
    requires ActsOk(wanted, handlers, acts) && i != WAKER_READ
    ensures i in wanted <==> i in Armed(acts)
  {}

  lemma ActNone(wanted: set<Interest>, handlers: map<Interest, Handler>, acts: seq<Act>, i: Interest)
    requires ActsOk(wanted, handlers, acts) && i !in wanted
    ensures i !in Armed(acts) && Armed(acts) - {i} == Armed(acts)
  {}

  ghost function Dropping(wanted: set<Interest>, i: Interest): seq<Act> { if i in wanted then [Drop(i)] else [] }

  class Poller {
    var events: map<Slot, nat>           // Slot.Events of every slot
    var handlers: map<Interest, Handler> // Slot.Handlers of every slot
    var posts: seq<seq<Request>>
    var ran: nat                         // posts that ran in the current dispatch
    var locked: bool                     // the lock of the posts
    var pending: int
    var calls: seq<Ctl>                  // what the kernel was told
    ghost var acts: seq<Act>

    ghost function Wanted(): set<Interest>
      reads this
    {
      Interests(events)
    }

    twostate predicate SamePosts()
      reads this
    {
      posts == old(posts) && ran == old(ran) && locked == old(locked)
    }

    // The handlers that wait for an event.
    ghost function Waiting(): map<Interest, Handler>
      reads this
    {
      Armed(acts)
    }

    // The handlers that were called so far.
    ghost function Fired(): seq<Act>
      reads this
    {
      Fires(acts)
    }

    ghost predicate Valid()
      reads this
    {
      && KernelOk(events, calls)
      && WAKER_READ in Wanted() && ActsOk(Wanted(), handlers, acts)
      && ran <= |posts| && (!locked ==> ran == 0)
      && pending == Net(acts) + |posts| - ran
    }

    // The waker is the only interest that does not count as pending.
    constructor ()
      ensures Valid() && Wanted() == {WAKER_READ} && pending == 0 && posts == [] && !locked
      ensures acts == [] && handlers == map[]
    {
      hide Interests, KernelOk, ActsOk;
      events, handlers, posts, ran, locked, pending, calls, acts := map[], map[], [], 0, false, 0, [], [];
      new;
      NothingSet();
      assert {} + {WAKER_READ} == {WAKER_READ};
      SetRW(Waker, Read);
      pending := pending - 1;
    }

    method SetRW(slot: Slot, k: Kind)
      requires KernelOk(events, calls)
      modifies `events, `calls, `pending
      ensures KernelOk(events, calls) && Wanted() == old(Wanted()) + {Interest(slot, k)}
      ensures pending == old(pending) + if Interest(slot, k) in old(Wanted()) then 0 else 1
    {
      hide Interests, KernelOk, And, Or;
      var was := At(events, slot);
      SlotMask(events, calls, slot);
      MaskBits(was, k);
      IsInterest(events, slot, k);
      if And(was, Flag(k)) != Flag(k) {
        pending := pending + 1;
        var m := Or(was, Flag(k));
        BitSet(events, slot, k, m);
        MaskChange(events, calls, slot, m);
        events := events[slot := m];
        calls := calls + [if was == 0 then Add(slot, m) else Modify(slot, m)];
      }
    }

    // SetRead and SetWrite, after the handler was put into the slot.
    method Set(slot: Slot, k: Kind, h: Handler)
      requires Valid() && slot != Waker
      modifies this
      ensures Valid() && Wanted() == old(Wanted()) + {Interest(slot, k)}
      ensures handlers == old(handlers)[Interest(slot, k) := h] && Waiting() == old(Waiting())[Interest(slot, k) := h]
      ensures SamePosts() && Fired() == old(Fired())
      ensures var i := Interest(slot, k);
        acts == old(acts) + [if i in old(Wanted()) then Swap(i, h) else Arm(i, h)]
    {
      hide Interests, KernelOk, ActsOk, Armed, Net, Fires;
      var i := Interest(slot, k);
      ActSet(Wanted(), handlers, acts, i, h);
      acts := acts + [if i in Wanted() then Swap(i, h) else Arm(i, h)];
      handlers := handlers[i := h];
      SetRW(slot, k);
    }

    // DelRead and DelWrite. `fire` tells whether the handler is called next.
    method DelRW(slot: Slot, k: Kind, ghost fire: bool)
      requires Valid() && slot != Waker
      modifies this
      ensures Valid() && Wanted() == old(Wanted()) - {Interest(slot, k)}
      ensures handlers == old(handlers) && SamePosts() && Waiting() == old(Waiting()) - {Interest(slot, k)}
      ensures Interest(slot, k) in old(Wanted()) <==> Interest(slot, k) in old(Waiting())
      ensures Interest(slot, k) !in old(Wanted()) ==> acts == old(acts)
      ensures !fire ==> Fired() == old(Fired())
      ensures var i := Interest(slot, k);
        i in old(Wanted()) && fire ==> i in handlers && Fired() == old(Fired()) + [Fire(i, handlers[i])]
      ensures Interest(slot, k) in old(Wanted()) ==>
        && Interest(slot, k) in handlers && handlers[Interest(slot, k)] == old(Waiting())[Interest(slot, k)]
        && var i := Interest(slot, k);
           acts == old(acts) + [if fire then Fire(i, handlers[i]) else Drop(i)]
    {
      hide Interests, KernelOk, ActsOk, And, Xor, Armed, Net, Fires;
      var was := At(events, slot);
      SlotMask(events, calls, slot);
      MaskBits(was, k);
      IsInterest(events, slot, k);
      if And(was, Flag(k)) == Flag(k) {
        ghost var i := Interest(slot, k);
        ActGone(Wanted(), handlers, acts, i, fire);
        pending := pending - 1;
        var m := Xor(was, Flag(k));
        BitCleared(events, slot, k, m);
        MaskChange(events, calls, slot, m);
        acts := acts + [if fire then Fire(i, handlers[i]) else Drop(i)];
        events := events[slot := m];
        calls := calls + [if m != 0 then Modify(slot, m) else Delete(slot)];
      } else {
        ActNone(Wanted(), handlers, acts, Interest(slot, k));
      }
    }

    method Del(slot: Slot)
      requires Valid() && slot != Waker
      modifies this
      ensures Valid() && Wanted() == old(Wanted()) - {Interest(slot, Read)} - {Interest(slot, Write)}
      ensures handlers == old(handlers) && SamePosts() && Fired() == old(Fired())
      ensures Waiting() == old(Waiting()) - {Interest(slot, Read)} - {Interest(slot, Write)}
      ensures acts == old(acts)
        + Dropping(old(Wanted()), Interest(slot, Read)) + Dropping(old(Wanted()), Interest(slot, Write))
    {
      hide Interests, KernelOk, ActsOk, Armed, Net, Fires;
      DelRW(slot, Read, false);
      DelRW(slot, Write, false);
    }

    // The caller blocks for ever if it is a posted handler: the lock is held while those run.
    method Post(ops: seq<Request>) returns (blocked: bool)
      requires Valid()
      modifies `posts, `pending
      ensures Valid() && blocked == locked
      ensures posts == (if blocked then old(posts) else old(posts) + [ops])
    {
      hide KernelOk, ActsOk, Interests, Net;
      if locked { return true; }
      posts := posts + [ops];
      pending := pending + 1;
      return false;
    }

    // The three parts of dispatch: lock, one handler done, unlock.
    method Lock()
      requires Valid() && !locked
      modifies `locked
      ensures Valid() && locked
    {
      hide Interests, KernelOk, ActsOk;
      locked := true;
    }

    method PostDone()
      requires Valid() && locked && ran < |posts|
      modifies `ran, `pending
      ensures Valid() && ran == old(ran) + 1
    {
      hide KernelOk, ActsOk, Interests, Net;
      ran := ran + 1;
      pending := pending - 1;
    }

    method Unlock()
      requires Valid() && locked && ran == |posts|
      modifies `locked, `posts, `ran
      ensures Valid() && !locked && posts == [] && ran == 0
    {
      hide KernelOk, ActsOk, Interests, Net;
      posts, ran, locked := [], 0, false;
    }

    // The test of the Poll loop on one reported event: a handler is taken out and has to be called
    // exactly if the event was reported and is still asked for at this moment.
    method Take(slot: Slot, k: Kind, mask: nat) returns (fire: bool, h: Handler)
      requires Valid() && slot != Waker
      modifies this
      ensures Valid() && fire == (And(mask, Flag(k)) == Flag(k) && Interest(slot, k) in old(Waiting()))
      ensures Interest(slot, k) in old(Wanted()) <==> Interest(slot, k) in old(Waiting())
      ensures handlers == old(handlers) && SamePosts()
      ensures !fire ==> Wanted() == old(Wanted()) && acts == old(acts)
      ensures fire ==> Wanted() == old(Wanted()) - {Interest(slot, k)}
      ensures fire ==> acts == old(acts) + [Fire(Interest(slot, k), h)]
      ensures Fired() == old(Fired()) + if fire then [Fire(Interest(slot, k), h)] else []
      ensures fire ==>
        Interest(slot, k) in handlers && h == handlers[Interest(slot, k)] == old(Waiting())[Interest(slot, k)]
      ensures fire ==> Waiting() == old(Waiting()) - {Interest(slot, k)}
    {
      hide Interests, KernelOk, ActsOk, And, Armed, Net, Fires;
      var now := At(events, slot);
      SlotMask(events, calls, slot);
      DispatchIff(mask, now, k);
      IsInterest(events, slot, k);
      fire, h := false, User([]);
      if And(And(mask, now), Flag(k)) == Flag(k) {
        DelRW(slot, k, true);
        fire, h := true, handlers[Interest(slot, k)];
      } else {
        WaitingIsWanted(Wanted(), handlers, acts, Interest(slot, k));
      }
    }
  }
}

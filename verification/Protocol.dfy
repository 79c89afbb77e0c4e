/** How fibers park and wake up: the hooked calls of src/Hook.cc on top of the event registrations, the
    timers and the queue of tasks, with one thread.

    The state of the registrations and the queue is that of module Events.  A timer is the callback
    that it queues when it expires; when that happens is left open, so that the results hold for every
    clock.  Other code - user fibers, user callbacks, other threads that push tasks - may take any of
    its steps at any time, except that it does not delete the event a fiber waits for, and does not
    queue fibers that are not its own. */
module Protocol {
  import opened Common
  import opened Events

  /** One call of do_io, with its timer_info. */
  datatype Call = Call(id: nat, fd: nat, event: Event)

  /** What a queued or timed callback does: anything, the timeout of do_io, or the end of a sleep. */
  datatype Callback = User(repeats: bool) | Timeout(call: Call) | Awaken(fiber: nat)

  /** Where a fiber is: queued, for the first time or by itself, running (perhaps in do_io), parked in
      do_io with a timer or without, parked in a sleep, or finished. */
  datatype Pc =
    | Ready
    | Running(call: Option<Call>)
    | InDoIo(waiting: Call, timer: Option<nat>)
    | InSleep
    | Done
  {
    predicate Parked() { Ready? || InDoIo? || InSleep? }
  }

  /** `timers` holds the callbacks of the live timers, `kinds` what each callback does, `canceled` the
      calls whose timer_info says ETIMEDOUT, and `expired` the callbacks whose timer has expired. */
  datatype System = System(
    io: Io,
    timers: seq<Task>,
    kinds: map<nat, Callback>,
    fibers: map<nat, Pc>,
    cur: Option<nat>,
    idle: bool,
    canceled: set<nat>,
    expired: set<nat>,
    nextCall: nat)

  // ------------------------------------------------------------------ the steps

  datatype Step =
    // code that pushes tasks, arms user timers and registers callbacks
    | Spawn(f: nat)
    | Push(cb: nat)
    | AddTimer(cb: nat, repeats: bool)
    | CancelTimer(cb: nat)
    | WatchCb(fd: nat, e: Event, cb: nat, willing: bool)
    | Unwatch(fd: nat, e: Event, willing: bool)
    | Cancel(fd: nat, e: Event, willing: bool)
    | CancelBoth(fd: nat, willing: bool)
    // the running fiber
    | Enter(fd: nat, e: Event)
    | Wait(willing: bool)
    | WaitTimed(cb: nat, willing: bool)
    | Return
    | Sleep(cb: nat)
    | Requeue
    | Finish
    // the scheduler
    | Take(f: nat, willing: bool)
    | GoIdle
    | Expire(cb: nat)
    | DispatchBatch(batch: seq<Entry>)
    | LeaveIdle

  predicate IsRunning(s: System) {
    s.cur.Some? && s.cur.value in s.fibers && s.fibers[s.cur.value].Running?
  }

  /** The do_io call the running fiber is in. */
  predicate InCall(s: System) {
    IsRunning(s) && s.fibers[s.cur.value].call.Some?
  }

  predicate OutsideCall(s: System) {
    IsRunning(s) && s.fibers[s.cur.value].call.None?
  }

  /** Somebody waits for the event, and it is a fiber. */
  predicate FiberWaits(io: Io, fd: nat, e: Event) {
    fd < |io.fds| && io.fds[fd].Get(e).fiber.Some?
  }

  /** A fiber on which a callback can run: a new one, or one that has finished. */
  predicate FreeFiber(s: System, f: nat) {
    f in s.fibers ==> s.fibers[f].Done?
  }

  predicate Enabled(s: System, step: Step) {
    match step
    case Spawn(f) => f !in s.fibers
    case Push(cb) => cb !in s.kinds
    case AddTimer(cb, _) => cb !in s.kinds
    case CancelTimer(cb) => cb in s.kinds && s.kinds[cb].User?
    case WatchCb(fd, _, cb, _) => cb !in s.kinds && fd != |s.io.fds|
    case Unwatch(fd, e, _) => !FiberWaits(s.io, fd, e)
    case Cancel(_, _, _) => true
    case CancelBoth(_, _) => true
    case Enter(_, _) => OutsideCall(s)
    case Wait(_) => InCall(s) && s.fibers[s.cur.value].call.value.fd != |s.io.fds|
    case WaitTimed(cb, _) => InCall(s) && s.fibers[s.cur.value].call.value.fd != |s.io.fds| && cb !in s.kinds
    case Return => InCall(s)
    case Sleep(cb) => OutsideCall(s) && cb !in s.kinds
    case Requeue => OutsideCall(s)
    case Finish => OutsideCall(s)
    case Take(f, _) => s.cur.None? && !s.idle && s.io.queue != [] && FreeFiber(s, f)
    case GoIdle => s.cur.None? && !s.idle && s.io.queue == []
    case Expire(cb) => s.idle && RunCb(cb) in s.timers
    case DispatchBatch(batch) => s.idle && Reported(s.io.kernel, batch)
    case LeaveIdle => s.idle
  }

  /** The timer set without one timer. */
  function Without(timers: seq<Task>, t: Task): seq<Task> {
    if timers == [] then []
    else if timers[|timers| - 1] == t then Without(timers[..|timers| - 1], t)
    else Without(timers[..|timers| - 1], t) + [timers[|timers| - 1]]
  }

  /** The running fiber parks in do_io if the event can be registered; otherwise the timer, if any, is
      cancelled again, and do_io fails. */
  function Waited(s: System, timer: Option<nat>, willing: bool): System
    requires InCall(s) && s.fibers[s.cur.value].call.value.fd != |s.io.fds|
  {
    var f := s.cur.value;
    var call := s.fibers[f].call.value;
    var (io1, o) := Added(s.io, call.fd, call.event, None, f, willing);
    var s1 := s.(io := io1);
    if o == Ret(true) then
      s1.(fibers := s.fibers[f := InDoIo(call, timer)], cur := None,
          timers := if timer.Some? then s.timers + [RunCb(timer.value)] else s.timers,
          kinds := if timer.Some? then s.kinds[timer.value := Timeout(call)] else s.kinds)
    else
      s1.(fibers := s.fibers[f := Running(None)],
          kinds := if timer.Some? then s.kinds[timer.value := Timeout(call)] else s.kinds)
  }

  /** A fiber is switched to.  In do_io it first cancels its timer, and then either reports ETIMEDOUT or
      goes on with the call; a finished fiber is dropped. */
  function Resumed(s: System, f: nat): System
    requires f in s.fibers
  {
    match s.fibers[f]
    case Ready => s.(fibers := s.fibers[f := Running(None)], cur := Some(f))
    case InSleep => s.(fibers := s.fibers[f := Running(None)], cur := Some(f))
    case InDoIo(call, timer) =>
      s.(fibers := s.fibers[f := Running(if call.id in s.canceled then None else Some(call))], cur := Some(f),
         timers := if timer.Some? then Without(s.timers, RunCb(timer.value)) else s.timers)
    case Running(_) => s
    case Done => s
  }

  /** The timer_info of a call lives as long as the fiber is in the call. */
  predicate Alive(s: System, call: nat) {
    exists f | f in s.fibers ::
      || (s.fibers[f].Running? && s.fibers[f].call.Some? && s.fibers[f].call.value.id == call)
      || (s.fibers[f].InDoIo? && s.fibers[f].waiting.id == call)
  }

  /** A callback runs; a user callback runs on a fiber of its own. */
  function Called(s: System, cb: nat, f: nat, willing: bool): System
    requires cb in s.kinds
  {
    match s.kinds[cb]
    case User(_) => s.(fibers := s.fibers[f := Running(None)], cur := Some(f))
    case Awaken(g) => s.(io := s.io.(queue := s.io.queue + [RunFiber(g)]))
    case Timeout(call) =>
      if !Alive(s, call.id) || call.id in s.canceled then s
      else s.(canceled := s.canceled + {call.id}, io := Cancelled(s.io, call.fd, call.event, willing).0)
  }

  /** The first task is taken from the queue and run. */
  function Taken(s: System, f: nat, willing: bool): System
    requires s.io.queue != []
  {
    var s1 := s.(io := s.io.(queue := s.io.queue[1..]));
    match s.io.queue[0]
    case RunFiber(g) => if g in s.fibers then Resumed(s1, g) else s1
    case RunCb(cb) => if cb in s.kinds then Called(s1, cb, f, willing) else s1
  }

  function Next(s: System, step: Step): System
    requires Enabled(s, step)
  {
    match step
    case Spawn(f) => s.(fibers := s.fibers[f := Ready], io := s.io.(queue := s.io.queue + [RunFiber(f)]))
    case Push(cb) => s.(kinds := s.kinds[cb := User(false)], io := s.io.(queue := s.io.queue + [RunCb(cb)]))
    case AddTimer(cb, repeats) => s.(kinds := s.kinds[cb := User(repeats)], timers := s.timers + [RunCb(cb)])
    case CancelTimer(cb) => s.(timers := Without(s.timers, RunCb(cb)))
    case WatchCb(fd, e, cb, willing) =>
      s.(kinds := s.kinds[cb := User(false)], io := Added(s.io, fd, e, Some(cb), 0, willing).0)
    case Unwatch(fd, e, willing) => s.(io := Deleted(s.io, fd, e, willing).0)
    case Cancel(fd, e, willing) => s.(io := Cancelled(s.io, fd, e, willing).0)
    case CancelBoth(fd, willing) => s.(io := CancelledAll(s.io, fd, willing).0)
    case Enter(fd, e) =>
      s.(fibers := s.fibers[s.cur.value := Running(Some(Call(s.nextCall, fd, e)))], nextCall := s.nextCall + 1)
    case Wait(willing) => Waited(s, None, willing)
    case WaitTimed(cb, willing) => Waited(s, Some(cb), willing)
    case Return => s.(fibers := s.fibers[s.cur.value := Running(None)])
    case Sleep(cb) =>
      s.(kinds := s.kinds[cb := Awaken(s.cur.value)], timers := s.timers + [RunCb(cb)],
         fibers := s.fibers[s.cur.value := InSleep], cur := None)
    case Requeue =>
      s.(fibers := s.fibers[s.cur.value := Ready], cur := None,
         io := s.io.(queue := s.io.queue + [RunFiber(s.cur.value)]))
    case Finish => s.(fibers := s.fibers[s.cur.value := Done], cur := None)
    case Take(f, willing) => Taken(s, f, willing)
    case GoIdle => s.(idle := true)
    case Expire(cb) =>
      s.(timers := if cb in s.kinds && s.kinds[cb].User? && s.kinds[cb].repeats then s.timers
                   else Without(s.timers, RunCb(cb)),
         io := s.io.(queue := s.io.queue + [RunCb(cb)]), expired := s.expired + {cb})
    case DispatchBatch(batch) => s.(io := DispatchedAll(s.io, batch).0)
    case LeaveIdle => s.(idle := false)
  }

  // ------------------------------------------------------------------ who holds a fiber

  /** Whether a task will resume the fiber, sooner or later. */
  function HeldBy(t: Task, kinds: map<nat, Callback>, f: nat): nat {
    match t
    case RunFiber(g) => if g == f then 1 else 0
    case RunCb(cb) => if cb in kinds && kinds[cb] == Awaken(f) then 1 else 0
  }

  /** How often the tasks will resume it. */
  function Held(s: seq<Task>, kinds: map<nat, Callback>, f: nat): nat {
    if s == [] then 0 else Held(s[..|s| - 1], kinds, f) + HeldBy(s[|s| - 1], kinds, f)
  }

  function Waiter(w: EventContext, f: nat): nat { if w.fiber == Some(f) then 1 else 0 }

  /** For how many events it is registered. */
  function Waiters(fds: seq<FdState>, f: nat): nat {
    if fds == [] then 0
    else Waiters(fds[..|fds| - 1], f) + Waiter(fds[|fds| - 1].read, f) + Waiter(fds[|fds| - 1].write, f)
  }

  /** In how many ways the registrations and the queue hold the fiber. */
  function InIo(io: Io, kinds: map<nat, Callback>, f: nat): nat {
    Waiters(io.fds, f) + Held(io.queue, kinds, f)
  }

  function Sources(s: System, f: nat): nat {
    InIo(s.io, s.kinds, f) + Held(s.timers, s.kinds, f)
  }

  // ------------------------------------------------------------------ the invariant

  /** Queued and timed callbacks are known; the timeout of do_io is only queued once it has expired. */
  predicate TaskKnown(t: Task, kinds: map<nat, Callback>, expired: set<nat>) {
    t.RunCb? ==> t.cb in kinds && (kinds[t.cb].Timeout? ==> t.cb in expired)
  }

  predicate Known(s: seq<Task>, kinds: map<nat, Callback>) {
    forall t :: t in s ==> t.RunCb? && t.cb in kinds
  }

  /** A callback registered for an event is one of the user's. */
  predicate UserCb(w: EventContext, kinds: map<nat, Callback>) {
    w.cb.Some? ==> w.cb.value in kinds && kinds[w.cb.value].User?
  }

  predicate ContextKnown(c: FdState, kinds: map<nat, Callback>) {
    UserCb(c.read, kinds) && UserCb(c.write, kinds)
  }

  predicate IoKnown(io: Io, kinds: map<nat, Callback>, expired: set<nat>) {
    && (forall i :: 0 <= i < |io.fds| ==> ContextKnown(io.fds[i], kinds))
    && (forall t :: t in io.queue ==> TaskKnown(t, kinds, expired))
  }

  predicate IoOk(io: Io, kinds: map<nat, Callback>, expired: set<nat>) {
    Valid(io) && IoKnown(io, kinds, expired)
  }

  /** ETIMEDOUT is noted for a call only when a timer of that call has expired. */
  predicate TimedOut(kinds: map<nat, Callback>, expired: set<nat>, call: nat) {
    exists cb :: cb in expired && cb in kinds && kinds[cb].Timeout? && kinds[cb].call.id == call
  }

  /** Every parked fiber has one source, and the others have none. */
  ghost predicate OneSource(s: System) {
    forall f :: Sources(s, f) == if f in s.fibers && s.fibers[f].Parked() then 1 else 0
  }

  predicate CallOk(pc: Pc, kinds: map<nat, Callback>, nextCall: nat) {
    match pc
    case Running(call) => call.Some? ==> call.value.id < nextCall
    case InDoIo(call, timer) =>
      call.id < nextCall && (timer.Some? ==> timer.value in kinds && kinds[timer.value] == Timeout(call))
    case _ => true
  }

  /** At most one fiber runs, and none while the thread is idle; call numbers are used once; and the
      timer of a fiber in do_io belongs to its call. */
  predicate FibersOk(fibers: map<nat, Pc>, kinds: map<nat, Callback>, cur: Option<nat>, idle: bool, nextCall: nat) {
    && (cur.Some? ==> cur.value in fibers && fibers[cur.value].Running? && !idle)
    && (forall f :: f in fibers ==> CallOk(fibers[f], kinds, nextCall) && (fibers[f].Running? ==> cur == Some(f)))
    && (forall cb :: cb in kinds && kinds[cb].Timeout? ==> kinds[cb].call.id < nextCall)
  }

  predicate CanceledOk(canceled: set<nat>, kinds: map<nat, Callback>, expired: set<nat>) {
    forall call :: call in canceled ==> TimedOut(kinds, expired, call)
  }

  ghost predicate Inv(s: System) {
    && IoOk(s.io, s.kinds, s.expired) && Known(s.timers, s.kinds)
    && OneSource(s)
    && FibersOk(s.fibers, s.kinds, s.cur, s.idle, s.nextCall)
    && CanceledOk(s.canceled, s.kinds, s.expired)
  }

  function Init(): System {
    System(Initial(), [], map[], map[], None, false, {}, {}, 0)
  }

  // ------------------------------------------------------------------ counting

  lemma {:induction false} HeldConcat(a: seq<Task>, b: seq<Task>, kinds: map<nat, Callback>, f: nat)
    ensures Held(a + b, kinds, f) == Held(a, kinds, f) + Held(b, kinds, f)
    decreases |b|
  {
    if b == [] {
      assert a + b == a;
    } else {
      assert (a + b)[..|a + b| - 1] == a + b[..|b| - 1];
      HeldConcat(a, b[..|b| - 1], kinds, f);
    }
  }

  lemma HeldAppend(s: seq<Task>, t: Task, kinds: map<nat, Callback>, f: nat)
    ensures Held(s + [t], kinds, f) == Held(s, kinds, f) + HeldBy(t, kinds, f)
  {
    assert (s + [t])[..|s|] == s;
  }

  lemma HeldFirst(s: seq<Task>, kinds: map<nat, Callback>, f: nat)
    requires s != []
    ensures Held(s, kinds, f) == HeldBy(s[0], kinds, f) + Held(s[1..], kinds, f)
  {
    assert s == [s[0]] + s[1..];
    HeldConcat([s[0]], s[1..], kinds, f);
    HeldAppend([], s[0], kinds, f);
    assert [] + [s[0]] == [s[0]];
  }

  /** A new callback changes nothing for tasks that do not mention it. */
  lemma {:induction false} NewKind(s: seq<Task>, kinds: map<nat, Callback>, cb: nat, k: Callback, f: nat)
    requires cb !in kinds && RunCb(cb) !in s
    ensures Held(s, kinds[cb := k], f) == Held(s, kinds, f)
    decreases |s|
  {
    if s != [] {
      var front, last := s[..|s| - 1], s[|s| - 1];
      assert s == front + [last];
      assert last in s && last != RunCb(cb);
      NewKind(front, kinds, cb, k, f);
    }
  }

  /** A task in a queue holds its fiber there. */
  lemma {:induction false} HeldIn(s: seq<Task>, t: Task, kinds: map<nat, Callback>, f: nat)
    requires t in s
    ensures Held(s, kinds, f) >= HeldBy(t, kinds, f)
    decreases |s|
  {
    var front, last := s[..|s| - 1], s[|s| - 1];
    assert s == front + [last];
    if t != last {
      HeldIn(front, t, kinds, f);
    }
  }

  lemma {:induction false} WithoutOthers(s: seq<Task>, t: Task)
    ensures forall u :: u in Without(s, t) <==> u in s && u != t
    decreases |s|
  {
    if s != [] {
      var front, last := s[..|s| - 1], s[|s| - 1];
      assert s == front + [last];
      WithoutOthers(front, t);
    }
  }

  /** Taking out a timer that does not hold the fiber, or the only one that does. */
  lemma {:induction false} WithoutHeld(s: seq<Task>, t: Task, kinds: map<nat, Callback>, f: nat)
    requires HeldBy(t, kinds, f) == 1 ==> Held(s, kinds, f) <= 1
    ensures Held(s, kinds, f) == Held(Without(s, t), kinds, f) + if t in s then HeldBy(t, kinds, f) else 0
    decreases |s|
  {
    if s != [] {
      var front, last := s[..|s| - 1], s[|s| - 1];
      assert s == front + [last];
      WithoutHeld(front, t, kinds, f);
      HeldAppend(Without(front, t), last, kinds, f);
      if last == t && t in front {
        HeldIn(front, t, kinds, f);
      }
    }
  }

  lemma {:induction false} WaitersUpdate(fds: seq<FdState>, i: nat, c: FdState, f: nat)
    requires i < |fds|
    ensures Waiters(fds[i := c], f) + Waiter(fds[i].read, f) + Waiter(fds[i].write, f)
            == Waiters(fds, f) + Waiter(c.read, f) + Waiter(c.write, f)
    decreases |fds|
  {
    var last := |fds| - 1;
    if i < last {
      assert fds[i := c][..last] == fds[..last][i := c];
      WaitersUpdate(fds[..last], i, c, f);
    } else {
      assert fds[i := c][..last] == fds[..last];
    }
  }

  lemma {:induction false} WaitersFresh(fds: seq<FdState>, n: nat, f: nat)
    ensures Waiters(fds + seq(n, _ => FRESH), f) == Waiters(fds, f)
    decreases n
  {
    var s := fds + seq(n, _ => FRESH);
    if n == 0 {
      assert s == fds;
    } else {
      assert s[..|s| - 1] == fds + seq(n - 1, _ => FRESH);
      WaitersFresh(fds, n - 1, f);
    }
  }

  // ------------------------------------------------------------------ the registrations and the queue

  /** A trigger moves the waiter from the context to the list of tasks. */
  lemma TriggeredHeld(c: FdState, e: Event, c1: FdState, t: seq<Task>, kinds: map<nat, Callback>, expired: set<nat>, f: nat)
    requires ContextKnown(c, kinds) && (c1, t) == Triggered(c, e)
    ensures ContextKnown(c1, kinds) && forall u :: u in t ==> TaskKnown(u, kinds, expired)
    ensures Waiter(c1.read, f) + Waiter(c1.write, f) + Held(t, kinds, f) == Waiter(c.read, f) + Waiter(c.write, f)
  {
    if t != [] {
      HeldFirst(t, kinds, f);
      assert t[1..] == [];
    }
  }

  lemma TriggerHeld(io: Io, fd: nat, e: Event, kinds: map<nat, Callback>, expired: set<nat>, f: nat)
    requires fd < |io.fds| && IoKnown(io, kinds, expired)
    ensures IoKnown(Trigger(io, fd, e), kinds, expired)
    ensures InIo(Trigger(io, fd, e), kinds, f) == InIo(io, kinds, f)
  {
    var (c, t) := Triggered(io.fds[fd], e);
    TriggeredHeld(io.fds[fd], e, c, t, kinds, expired, f);
    WaitersUpdate(io.fds, fd, c, f);
    HeldConcat(io.queue, t, kinds, f);
  }

  lemma TriggerAllHeld(io: Io, fd: nat, m: Mask, kinds: map<nat, Callback>, expired: set<nat>, f: nat)
    requires fd < |io.fds| && IoKnown(io, kinds, expired)
    ensures IoKnown(TriggerAll(io, fd, m), kinds, expired)
    ensures InIo(TriggerAll(io, fd, m), kinds, f) == InIo(io, kinds, f)
  {
    var io1 := if m.read then Trigger(io, fd, READ) else io;
    if m.read {
      TriggerHeld(io, fd, READ, kinds, expired, f);
    }
    if m.write {
      TriggerHeld(io1, fd, WRITE, kinds, expired, f);
    }
  }

  lemma CancelHeld(io: Io, fd: nat, e: Event, willing: bool, io1: Io, kinds: map<nat, Callback>, expired: set<nat>, f: nat)
    requires IoOk(io, kinds, expired) && io1 == Cancelled(io, fd, e, willing).0
    ensures IoOk(io1, kinds, expired) && InIo(io1, kinds, f) == InIo(io, kinds, f)
  {
    CancelEventValid(io, fd, e, willing);
    var r := Cancelled(io, fd, e, willing);
    if r.1 == Ret(true) {
      TriggerHeld(io.(kernel := io1.kernel), fd, e, kinds, expired, f);
    }
  }

  lemma CancelAllHeld(io: Io, fd: nat, willing: bool, io1: Io, kinds: map<nat, Callback>, expired: set<nat>, f: nat)
    requires IoOk(io, kinds, expired) && io1 == CancelledAll(io, fd, willing).0
    ensures IoOk(io1, kinds, expired) && InIo(io1, kinds, f) == InIo(io, kinds, f)
  {
    CancelAllValid(io, fd, willing);
    var r := CancelledAll(io, fd, willing);
    if r.1 == Ret(true) {
      TriggerAllHeld(io.(kernel := io1.kernel), fd, io.fds[fd].mask, kinds, expired, f);
    }
  }

  lemma DispatchHeld(io: Io, b: Entry, io1: Io, kinds: map<nat, Callback>, expired: set<nat>, f: nat)
    requires IoOk(io, kinds, expired) && b.fd < |io.fds| && io1 == Dispatched(io, b.fd, b.report, b.willing).0
    ensures IoOk(io1, kinds, expired) && InIo(io1, kinds, f) == InIo(io, kinds, f)
  {
    DispatchValid(io, b.fd, b.report, b.willing);
    var r := Dispatched(io, b.fd, b.report, b.willing);
    if r.1 == Ret(true) {
      TriggerAllHeld(io.(kernel := io1.kernel), b.fd, Real(io.fds[b.fd], b.report), kinds, expired, f);
    }
  }

  lemma {:induction false} BatchHeld(io: Io, batch: seq<Entry>, io1: Io, kinds: map<nat, Callback>, expired: set<nat>, f: nat)
    requires IoOk(io, kinds, expired) && Reported(io.kernel, batch) && io1 == DispatchedAll(io, batch).0
    ensures IoOk(io1, kinds, expired) && InIo(io1, kinds, f) == InIo(io, kinds, f)
    decreases |batch|
  {
    if batch != [] {
      OneEntry(io, batch);
      var b := batch[0];
      var mid := Dispatched(io, b.fd, b.report, b.willing).0;
      DispatchHeld(io, b, mid, kinds, expired, f);
      BatchHeld(mid, batch[1..], io1, kinds, expired, f);
    }
  }

  /** A successful addEvent adds the running fiber as a source of itself, unless a callback waits. */
  lemma AddHeld(io: Io, fd: nat, e: Event, cb: Option<nat>, self: nat, willing: bool, io1: Io, o: Outcome,
                kinds: map<nat, Callback>, expired: set<nat>, f: nat)
    requires IoOk(io, kinds, expired) && fd != |io.fds| && (io1, o) == Added(io, fd, e, cb, self, willing)
    requires cb.Some? ==> cb.value in kinds && kinds[cb.value].User?
    ensures IoOk(io1, kinds, expired)
    ensures InIo(io1, kinds, f) == InIo(io, kinds, f) + if o == Ret(true) && cb.None? && self == f then 1 else 0
  {
    AddEventValid(io, fd, e, cb, self, willing);
    ResizedValid(io, fd);
    var fds := if fd > |io.fds| then Resized(io.fds, fd) else io.fds;
    RoomHeld(io, fd, fds, kinds, f);
    if o == Ret(true) {
      RegisterHeld(fds, fd, e, if cb.Some? then EventContext(true, None, cb) else EventContext(true, Some(self), None),
                   fds[fd].(mask := fds[fd].mask.With(e)), io1.fds, kinds, f);
      assert FdOk(io.(fds := fds), fd);
      assert io1.queue == io.queue;
    }
  }

  lemma RoomHeld(io: Io, fd: nat, fds: seq<FdState>, kinds: map<nat, Callback>, f: nat)
    requires fds == if fd > |io.fds| then Resized(io.fds, fd) else io.fds
    requires forall i :: 0 <= i < |io.fds| ==> ContextKnown(io.fds[i], kinds)
    ensures forall i :: 0 <= i < |fds| ==> ContextKnown(fds[i], kinds)
    ensures Waiters(fds, f) == Waiters(io.fds, f)
  {
    if fd > |io.fds| {
      WaitersFresh(io.fds, |fds| - |io.fds|, f);
      assert forall i :: 0 <= i < |fds| ==> fds[i] == if i < |io.fds| then io.fds[i] else FRESH;
    }
  }

  lemma RegisterHeld(fds: seq<FdState>, fd: nat, e: Event, w: EventContext, c: FdState, fds1: seq<FdState>,
                     kinds: map<nat, Callback>, f: nat)
    requires fd < |fds| && c == fds[fd].(mask := c.mask) && fds1 == fds[fd := c.Put(e, w)]
    requires (forall i :: 0 <= i < |fds| ==> ContextKnown(fds[i], kinds)) && UserCb(w, kinds)
    ensures forall i :: 0 <= i < |fds1| ==> ContextKnown(fds1[i], kinds)
    ensures Waiters(fds1, f) + Waiter(c.Get(e), f) == Waiters(fds, f) + Waiter(w, f)
  {
    WaitersUpdate(fds, fd, c.Put(e, w), f);
  }

  /** delEvent forgets a waiter, so it is not used on fibers. */
  lemma DeleteHeld(io: Io, fd: nat, e: Event, willing: bool, io1: Io, kinds: map<nat, Callback>, expired: set<nat>, f: nat)
    requires IoOk(io, kinds, expired) && !FiberWaits(io, fd, e) && io1 == Deleted(io, fd, e, willing).0
    ensures IoOk(io1, kinds, expired) && InIo(io1, kinds, f) == InIo(io, kinds, f)
  {
    DelEventValid(io, fd, e, willing);
    if Deleted(io, fd, e, willing).1 == Ret(true) {
      WaitersUpdate(io.fds, fd, io1.fds[fd], f);
    }
  }

  // ------------------------------------------------------------------ every step keeps the invariant

  /** Steps that only move waiters from the registrations to the queue. */
  lemma IoStep(s: System, io1: Io)
    requires Inv(s) && IoOk(io1, s.kinds, s.expired)
    requires forall f :: InIo(io1, s.kinds, f) == InIo(s.io, s.kinds, f)
    ensures Inv(s.(io := io1))
  {
    var s1 := s.(io := io1);
    forall f ensures Sources(s1, f) == if f in s1.fibers && s1.fibers[f].Parked() then 1 else 0 {
      assert Sources(s1, f) == Sources(s, f);
    }
  }

  lemma UnwatchInv(s: System, fd: nat, e: Event, willing: bool)
    requires Inv(s) && !FiberWaits(s.io, fd, e)
    ensures Inv(s.(io := Deleted(s.io, fd, e, willing).0))
  {
    var io1 := Deleted(s.io, fd, e, willing).0;
    DeleteHeld(s.io, fd, e, willing, io1, s.kinds, s.expired, 0);
    forall f ensures InIo(io1, s.kinds, f) == InIo(s.io, s.kinds, f) {
      DeleteHeld(s.io, fd, e, willing, io1, s.kinds, s.expired, f);
    }
    IoStep(s, io1);
  }

  lemma CancelInv(s: System, fd: nat, e: Event, willing: bool)
    requires Inv(s)
    ensures Inv(s.(io := Cancelled(s.io, fd, e, willing).0))
  {
    var io1 := Cancelled(s.io, fd, e, willing).0;
    CancelHeld(s.io, fd, e, willing, io1, s.kinds, s.expired, 0);
    forall f ensures InIo(io1, s.kinds, f) == InIo(s.io, s.kinds, f) {
      CancelHeld(s.io, fd, e, willing, io1, s.kinds, s.expired, f);
    }
    IoStep(s, io1);
  }

  lemma CancelBothInv(s: System, fd: nat, willing: bool)
    requires Inv(s)
    ensures Inv(s.(io := CancelledAll(s.io, fd, willing).0))
  {
    var io1 := CancelledAll(s.io, fd, willing).0;
    CancelAllHeld(s.io, fd, willing, io1, s.kinds, s.expired, 0);
    forall f ensures InIo(io1, s.kinds, f) == InIo(s.io, s.kinds, f) {
      CancelAllHeld(s.io, fd, willing, io1, s.kinds, s.expired, f);
    }
    IoStep(s, io1);
  }

  lemma BatchInv(s: System, batch: seq<Entry>)
    requires Inv(s) && Reported(s.io.kernel, batch)
    ensures Inv(s.(io := DispatchedAll(s.io, batch).0))
  {
    var io1 := DispatchedAll(s.io, batch).0;
    BatchHeld(s.io, batch, io1, s.kinds, s.expired, 0);
    forall f ensures InIo(io1, s.kinds, f) == InIo(s.io, s.kinds, f) {
      BatchHeld(s.io, batch, io1, s.kinds, s.expired, f);
    }
    IoStep(s, io1);
  }

  /** The running fiber, or one that starts to run, changes. */
  lemma SetFiber(s: System, f: nat, pc: Pc, nextCall: nat)
    requires FibersOk(s.fibers, s.kinds, s.cur, s.idle, s.nextCall)
    requires s.nextCall <= nextCall && CallOk(pc, s.kinds, nextCall)
    requires s.cur == Some(f) || (s.cur == None && !s.idle)
    ensures FibersOk(s.fibers[f := pc], s.kinds, if pc.Running? then Some(f) else None, s.idle, nextCall)
  {
  }

  lemma NewFiber(s: System, f: nat)
    requires FibersOk(s.fibers, s.kinds, s.cur, s.idle, s.nextCall) && f !in s.fibers
    ensures FibersOk(s.fibers[f := Ready], s.kinds, s.cur, s.idle, s.nextCall)
  {
  }

  /** Parking or not, the number of sources decides. */
  lemma Recount(s: System, s1: System, f: nat, was: nat, now: nat)
    requires OneSource(s)
    requires forall g :: Sources(s1, g) == Sources(s, g) + if g == f then now - was else 0
    requires was == if f in s.fibers && s.fibers[f].Parked() then 1 else 0
    requires f in s1.fibers && now == if s1.fibers[f].Parked() then 1 else 0
    requires s1.fibers == s.fibers[f := s1.fibers[f]]
    ensures OneSource(s1)
  {
    forall g ensures Sources(s1, g) == if g in s1.fibers && s1.fibers[g].Parked() then 1 else 0 {
      assert Sources(s, g) == if g in s.fibers && s.fibers[g].Parked() then 1 else 0;
    }
  }

  /** Only the running fiber changes, and goes on running. */
  lemma RunningInv(s: System, call: Option<Call>, nextCall: nat)
    requires Inv(s) && IsRunning(s) && s.nextCall <= nextCall && (call.Some? ==> call.value.id < nextCall)
    ensures Inv(s.(fibers := s.fibers[s.cur.value := Running(call)], nextCall := nextCall))
  {
    var s1 := s.(fibers := s.fibers[s.cur.value := Running(call)], nextCall := nextCall);
    SetFiber(s, s.cur.value, Running(call), nextCall);
    forall g ensures Sources(s1, g) == Sources(s, g) {
    }
    Recount(s, s1, s.cur.value, 0, 0);
  }

  lemma FinishInv(s: System)
    requires Inv(s) && IsRunning(s)
    ensures Inv(s.(fibers := s.fibers[s.cur.value := Done], cur := None))
  {
    var s1 := s.(fibers := s.fibers[s.cur.value := Done], cur := None);
    SetFiber(s, s.cur.value, Done, s.nextCall);
    forall g ensures Sources(s1, g) == Sources(s, g) {
    }
    Recount(s, s1, s.cur.value, 0, 0);
  }

  /** A callback nobody has mentioned is given a meaning. */
  lemma NewKindInv(s: System, cb: nat, k: Callback)
    requires Inv(s) && cb !in s.kinds && (k.Timeout? ==> k.call.id < s.nextCall)
    ensures Inv(s.(kinds := s.kinds[cb := k]))
  {
    var s1 := s.(kinds := s.kinds[cb := k]);
    forall f ensures Sources(s1, f) == Sources(s, f) {
      NewKind(s.io.queue, s.kinds, cb, k, f);
      NewKind(s.timers, s.kinds, cb, k, f);
    }
    forall call | call in s1.canceled ensures TimedOut(s1.kinds, s1.expired, call) {
      assert TimedOut(s.kinds, s.expired, call);
    }
  }

  lemma QueueValid(io: Io, queue: seq<Task>)
    requires Valid(io)
    ensures Valid(io.(queue := queue))
  {
    forall fd | 0 <= fd < |io.fds| ensures FdOk(io.(queue := queue), fd) {
      assert FdOk(io, fd);
    }
  }

  /** A task is queued, or a timer armed, that holds no fiber. */
  lemma QueueInv(s: System, t: Task)
    requires Inv(s) && TaskKnown(t, s.kinds, s.expired) && forall f :: HeldBy(t, s.kinds, f) == 0
    ensures Inv(s.(io := s.io.(queue := s.io.queue + [t])))
  {
    var io1 := s.io.(queue := s.io.queue + [t]);
    QueueValid(s.io, io1.queue);
    forall f ensures InIo(io1, s.kinds, f) == InIo(s.io, s.kinds, f) {
      HeldAppend(s.io.queue, t, s.kinds, f);
    }
    IoStep(s, io1);
  }

  lemma ArmInv(s: System, cb: nat)
    requires Inv(s) && cb in s.kinds && !s.kinds[cb].Awaken?
    ensures Inv(s.(timers := s.timers + [RunCb(cb)]))
  {
    var s1 := s.(timers := s.timers + [RunCb(cb)]);
    forall f ensures Sources(s1, f) == if f in s1.fibers && s1.fibers[f].Parked() then 1 else 0 {
      HeldAppend(s.timers, RunCb(cb), s.kinds, f);
      assert Sources(s1, f) == Sources(s, f);
    }
  }

  lemma DisarmInv(s: System, cb: nat)
    requires Inv(s) && cb in s.kinds && !s.kinds[cb].Awaken?
    ensures Inv(s.(timers := Without(s.timers, RunCb(cb))))
  {
    var s1 := s.(timers := Without(s.timers, RunCb(cb)));
    WithoutOthers(s.timers, RunCb(cb));
    forall f ensures Sources(s1, f) == if f in s1.fibers && s1.fibers[f].Parked() then 1 else 0 {
      WithoutHeld(s.timers, RunCb(cb), s.kinds, f);
      assert Sources(s1, f) == Sources(s, f);
    }
  }

  lemma SpawnInv(s: System, f: nat)
    requires Inv(s) && f !in s.fibers
    ensures Inv(s.(fibers := s.fibers[f := Ready], io := s.io.(queue := s.io.queue + [RunFiber(f)])))
  {
    var s1 := s.(fibers := s.fibers[f := Ready], io := s.io.(queue := s.io.queue + [RunFiber(f)]));
    QueueValid(s.io, s1.io.queue);
    NewFiber(s, f);
    forall g ensures Sources(s1, g) == Sources(s, g) + if g == f then 1 else 0 {
      HeldAppend(s.io.queue, RunFiber(f), s.kinds, g);
    }
    Recount(s, s1, f, 0, 1);
  }

  /** A fiber queues itself and yields. */
  lemma RequeueInv(s: System)
    requires Inv(s) && IsRunning(s)
    ensures Inv(s.(fibers := s.fibers[s.cur.value := Ready], cur := None,
                   io := s.io.(queue := s.io.queue + [RunFiber(s.cur.value)])))
  {
    var me := s.cur.value;
    var s1 := s.(fibers := s.fibers[me := Ready], cur := None, io := s.io.(queue := s.io.queue + [RunFiber(me)]));
    QueueValid(s.io, s1.io.queue);
    SetFiber(s, me, Ready, s.nextCall);
    forall g ensures Sources(s1, g) == Sources(s, g) + if g == me then 1 else 0 {
      HeldAppend(s.io.queue, RunFiber(me), s.kinds, g);
    }
    Recount(s, s1, me, 0, 1);
  }

  /** A fiber goes to sleep: its only source is the new timer. */
  lemma SleepInv(s: System, cb: nat)
    requires Inv(s) && IsRunning(s) && cb in s.kinds && s.kinds[cb] == Awaken(s.cur.value)
    ensures Inv(s.(timers := s.timers + [RunCb(cb)], fibers := s.fibers[s.cur.value := InSleep], cur := None))
  {
    var me := s.cur.value;
    var s1 := s.(timers := s.timers + [RunCb(cb)], fibers := s.fibers[me := InSleep], cur := None);
    SetFiber(s, me, InSleep, s.nextCall);
    forall g ensures Sources(s1, g) == Sources(s, g) + if g == me then 1 else 0 {
      HeldAppend(s.timers, RunCb(cb), s.kinds, g);
    }
    Recount(s, s1, me, 0, 1);
  }

  /** The running fiber registers for an event and parks. */
  lemma ParkInv(s: System, call: Call, timer: Option<nat>, willing: bool, io1: Io)
    requires Inv(s) && IsRunning(s) && call.fd != |s.io.fds| && call.id < s.nextCall
    requires timer.Some? ==> timer.value in s.kinds && s.kinds[timer.value] == Timeout(call)
    requires (io1, Ret(true)) == Added(s.io, call.fd, call.event, None, s.cur.value, willing)
    ensures Inv(s.(io := io1, fibers := s.fibers[s.cur.value := InDoIo(call, timer)], cur := None))
  {
    var me := s.cur.value;
    var s1 := s.(io := io1, fibers := s.fibers[me := InDoIo(call, timer)], cur := None);
    SetFiber(s, me, InDoIo(call, timer), s.nextCall);
    AddHeld(s.io, call.fd, call.event, None, me, willing, io1, Ret(true), s.kinds, s.expired, me);
    forall g ensures Sources(s1, g) == Sources(s, g) + if g == me then 1 else 0 {
      AddHeld(s.io, call.fd, call.event, None, me, willing, io1, Ret(true), s.kinds, s.expired, g);
    }
    Recount(s, s1, me, 0, 1);
  }

  /** The event could not be registered. */
  lemma NoParkInv(s: System, fd: nat, e: Event, cb: Option<nat>, self: nat, willing: bool, io1: Io, o: Outcome)
    requires Inv(s) && fd != |s.io.fds| && (cb.Some? ==> cb.value in s.kinds && s.kinds[cb.value].User?)
    requires (io1, o) == Added(s.io, fd, e, cb, self, willing) && (o != Ret(true) || cb.Some?)
    ensures Inv(s.(io := io1))
  {
    AddHeld(s.io, fd, e, cb, self, willing, io1, o, s.kinds, s.expired, 0);
    forall f ensures InIo(io1, s.kinds, f) == InIo(s.io, s.kinds, f) {
      AddHeld(s.io, fd, e, cb, self, willing, io1, o, s.kinds, s.expired, f);
    }
    IoStep(s, io1);
  }

  /** Waiting for an event, with a timer or without. */
  lemma WaitInv(s: System, timer: Option<nat>, willing: bool)
    requires Inv(s) && InCall(s) && s.fibers[s.cur.value].call.value.fd != |s.io.fds|
    requires timer.Some? ==> timer.value !in s.kinds
    ensures Inv(Waited(s, timer, willing))
  {
    var me := s.cur.value;
    var call := s.fibers[me].call.value;
    assert CallOk(s.fibers[me], s.kinds, s.nextCall);
    var (io1, o) := Added(s.io, call.fd, call.event, None, me, willing);
    var s1 := s;
    if timer.Some? {
      NewKindInv(s, timer.value, Timeout(call));
      s1 := s.(kinds := s.kinds[timer.value := Timeout(call)]);
    }
    if o == Ret(true) {
      var s2 := s1;
      if timer.Some? {
        ArmInv(s1, timer.value);
        s2 := s1.(timers := s1.timers + [RunCb(timer.value)]);
      }
      ParkInv(s2, call, timer, willing, io1);
    } else {
      NoParkInv(s1, call.fd, call.event, None, me, willing, io1, o);
      RunningInv(s1.(io := io1), None, s.nextCall);
    }
  }

  /** The head of the queue, and what is left without it. */
  lemma HeadOff(s: System, s1: System, f: nat)
    requires Inv(s) && s.io.queue != [] && s1 == s.(io := s.io.(queue := s.io.queue[1..]))
    ensures IoOk(s1.io, s.kinds, s.expired)
    ensures Sources(s, f) == Sources(s1, f) + HeldBy(s.io.queue[0], s.kinds, f)
  {
    QueueValid(s.io, s1.io.queue);
    HeldFirst(s.io.queue, s.kinds, f);
  }

  /** Resuming a fiber from the queue: it is parked, and runs from here on without any source. */
  lemma ResumeInv(s: System, f: nat)
    requires Inv(s) && s.cur.None? && !s.idle && s.io.queue != [] && s.io.queue[0] == RunFiber(f)
    ensures f in s.fibers && s.fibers[f].Parked()
    ensures Inv(Resumed(s.(io := s.io.(queue := s.io.queue[1..])), f))
  {
    var s1 := s.(io := s.io.(queue := s.io.queue[1..]));
    HeadOff(s, s1, f);
    assert Sources(s, f) == if f in s.fibers && s.fibers[f].Parked() then 1 else 0;
    var pc := s.fibers[f];
    assert CallOk(pc, s.kinds, s.nextCall);
    var call := if pc.InDoIo? && pc.waiting.id !in s.canceled then Some(pc.waiting) else None;
    var s2 := s1.(fibers := s1.fibers[f := Running(call)], cur := Some(f));
    SetFiber(s, f, Running(call), s.nextCall);
    forall g ensures Sources(s2, g) == Sources(s, g) + if g == f then -1 else 0 {
      HeadOff(s, s1, g);
    }
    Recount(s, s2, f, 1, 0);
    if pc.InDoIo? && pc.timer.Some? {
      DisarmInv(s2, pc.timer.value);
    }
  }

  lemma UserCallInv(s: System, s1: System, f: nat)
    requires Inv(s) && s.cur.None? && !s.idle && FreeFiber(s, f) && s1 == s.(io := s1.io)
    requires IoOk(s1.io, s.kinds, s.expired) && forall g :: Sources(s1, g) == Sources(s, g)
    ensures Inv(s1.(fibers := s1.fibers[f := Running(None)], cur := Some(f)))
  {
    var s2 := s1.(fibers := s1.fibers[f := Running(None)], cur := Some(f));
    SetFiber(s, f, Running(None), s.nextCall);
    forall g ensures Sources(s2, g) == Sources(s, g) {
      assert Sources(s1, g) == Sources(s, g);
    }
    Recount(s, s2, f, 0, 0);
  }

  /** The callback of a sleep puts its fiber where it was itself. */
  lemma AwakenInv(s: System, s1: System, h: nat)
    requires Inv(s) && s1 == s.(io := s1.io) && IoOk(s1.io, s.kinds, s.expired)
    requires forall g :: Sources(s, g) == Sources(s1, g) + if g == h then 1 else 0
    ensures Inv(s.(io := s1.io.(queue := s1.io.queue + [RunFiber(h)])))
  {
    var io2 := s1.io.(queue := s1.io.queue + [RunFiber(h)]);
    QueueValid(s1.io, io2.queue);
    forall g ensures InIo(io2, s.kinds, g) == InIo(s.io, s.kinds, g) {
      assert Sources(s, g) == Sources(s1, g) + if g == h then 1 else 0;
      HeldAppend(s1.io.queue, RunFiber(h), s.kinds, g);
    }
    IoStep(s, io2);
  }

  /** A callback from the queue runs. */
  lemma CallInv(s: System, cb: nat, f: nat, willing: bool)
    requires Inv(s) && s.cur.None? && !s.idle && s.io.queue != [] && s.io.queue[0] == RunCb(cb) && FreeFiber(s, f)
    ensures cb in s.kinds && Inv(Called(s.(io := s.io.(queue := s.io.queue[1..])), cb, f, willing))
  {
    var s1 := s.(io := s.io.(queue := s.io.queue[1..]));
    assert TaskKnown(s.io.queue[0], s.kinds, s.expired);
    HeadOff(s, s1, 0);
    forall g ensures Sources(s, g) == Sources(s1, g) + HeldBy(RunCb(cb), s.kinds, g) {
      HeadOff(s, s1, g);
    }
    match s.kinds[cb] {
      case User(_) => UserCallInv(s, s1, f);
      case Awaken(h) => AwakenInv(s, s1, h);
      case Timeout(call) =>
        forall g ensures InIo(s1.io, s.kinds, g) == InIo(s.io, s.kinds, g) {
          assert Sources(s, g) == Sources(s1, g);
        }
        IoStep(s, s1.io);
        CancelInv(s1, call.fd, call.event, willing);
        assert TimedOut(s.kinds, s.expired, call.id);
    }
  }

  lemma TakeInv(s: System, f: nat, willing: bool)
    requires Inv(s) && s.cur.None? && !s.idle && s.io.queue != [] && FreeFiber(s, f)
    ensures Inv(Taken(s, f, willing))
  {
    match s.io.queue[0] {
      case RunFiber(g) => ResumeInv(s, g);
      case RunCb(cb) => CallInv(s, cb, f, willing);
    }
  }

  /** A timer expires: what it held is now held by the queue. */
  lemma ExpireInv(s: System, cb: nat)
    requires Inv(s) && s.idle && RunCb(cb) in s.timers
    ensures Inv(Next(s, Expire(cb)))
  {
    var s1 := Next(s, Expire(cb));
    assert RunCb(cb).cb in s.kinds;
    QueueValid(s.io, s1.io.queue);
    WithoutOthers(s.timers, RunCb(cb));
    forall f ensures Sources(s1, f) == if f in s1.fibers && s1.fibers[f].Parked() then 1 else 0 {
      assert Sources(s, f) == if f in s.fibers && s.fibers[f].Parked() then 1 else 0;
      HeldAppend(s.io.queue, RunCb(cb), s.kinds, f);
      WithoutHeld(s.timers, RunCb(cb), s.kinds, f);
    }
    forall call | call in s1.canceled ensures TimedOut(s1.kinds, s1.expired, call) {
      assert TimedOut(s.kinds, s.expired, call);
    }
  }

  /** The steps of other code, and of the idle thread. */
  lemma OutsideInv(s: System, step: Step)
    requires Inv(s) && Enabled(s, step)
    requires !step.Enter? && !step.Wait? && !step.WaitTimed? && !step.Return? && !step.Sleep? && !step.Requeue?
    requires !step.Finish? && !step.Take?
    ensures Inv(Next(s, step))
  {
    match step {
      case Spawn(f) => SpawnInv(s, f);
      case Push(cb) =>
        NewKindInv(s, cb, User(false));
        QueueInv(s.(kinds := s.kinds[cb := User(false)]), RunCb(cb));
      case AddTimer(cb, repeats) =>
        NewKindInv(s, cb, User(repeats));
        ArmInv(s.(kinds := s.kinds[cb := User(repeats)]), cb);
      case CancelTimer(cb) => DisarmInv(s, cb);
      case WatchCb(fd, e, cb, willing) =>
        NewKindInv(s, cb, User(false));
        var (io1, o) := Added(s.io, fd, e, Some(cb), 0, willing);
        NoParkInv(s.(kinds := s.kinds[cb := User(false)]), fd, e, Some(cb), 0, willing, io1, o);
      case Unwatch(fd, e, willing) => UnwatchInv(s, fd, e, willing);
      case Cancel(fd, e, willing) => CancelInv(s, fd, e, willing);
      case CancelBoth(fd, willing) => CancelBothInv(s, fd, willing);
      case GoIdle => IdleInv(s, true);
      case Expire(cb) => ExpireInv(s, cb);
      case DispatchBatch(batch) => BatchInv(s, batch);
      case LeaveIdle => IdleInv(s, false);
      case _ =>
    }
  }

  lemma StepInv(s: System, step: Step)
    requires Inv(s) && Enabled(s, step)
    ensures Inv(Next(s, step))
  {
    match step {
      case Enter(fd, e) => RunningInv(s, Some(Call(s.nextCall, fd, e)), s.nextCall + 1);
      case Wait(willing) => WaitInv(s, None, willing);
      case WaitTimed(cb, willing) => WaitInv(s, Some(cb), willing);
      case Return => RunningInv(s, None, s.nextCall);
      case Sleep(cb) =>
        NewKindInv(s, cb, Awaken(s.cur.value));
        SleepInv(s.(kinds := s.kinds[cb := Awaken(s.cur.value)]), cb);
      case Requeue => RequeueInv(s);
      case Finish => FinishInv(s);
      case Take(f, willing) => TakeInv(s, f, willing);
      case _ => OutsideInv(s, step);
    }
  }

  lemma IdleInv(s: System, idle: bool)
    requires Inv(s) && s.cur.None?
    ensures Inv(s.(idle := idle))
  {
    forall f ensures Sources(s.(idle := idle), f) == Sources(s, f) {
    }
  }

  // ------------------------------------------------------------------ runs

  predicate IsRun(s: System, steps: seq<Step>)
    decreases |steps|
  {
    steps == [] || (Enabled(s, steps[0]) && IsRun(Next(s, steps[0]), steps[1..]))
  }

  function Run(s: System, steps: seq<Step>): System
    requires IsRun(s, steps)
    decreases |steps|
  {
    if steps == [] then s else Run(Next(s, steps[0]), steps[1..])
  }

  lemma {:induction false} RunInv(s: System, steps: seq<Step>)
    requires Inv(s) && IsRun(s, steps)
    ensures Inv(Run(s, steps))
    decreases |steps|
  {
    if steps != [] {
      StepInv(s, steps[0]);
      RunInv(Next(s, steps[0]), steps[1..]);
    }
  }

  lemma InitInv()
    ensures Inv(Init())
  {
    InitialValid();
    forall f ensures Sources(Init(), f) == 0 {
      WaitersFresh([], 64, f);
      assert [] + seq(64, _ => FRESH) == seq(64, _ => FRESH);
    }
  }

  // ------------------------------------------------------------------ exactly one wake-up source

  /** A place from which a fiber is resumed: an armed event, a timer, or an entry of the queue - the
      fiber itself or the callback of its sleep. */
  datatype Holder = AtEvent(fd: nat, e: Event) | AtTimer(i: nat) | AtQueue(i: nat)

  predicate Holds(s: System, h: Holder, f: nat) {
    match h
    case AtEvent(fd, e) => WaitsIn(s.io.fds, fd, e, f)
    case AtTimer(i) => i < |s.timers| && HeldBy(s.timers[i], s.kinds, f) == 1
    case AtQueue(i) => i < |s.io.queue| && HeldBy(s.io.queue[i], s.kinds, f) == 1
  }

  lemma {:induction false} HeldAt(s: seq<Task>, kinds: map<nat, Callback>, f: nat)
    ensures Held(s, kinds, f) == 0 ==> forall i :: 0 <= i < |s| ==> HeldBy(s[i], kinds, f) == 0
    ensures Held(s, kinds, f) > 0 ==> exists i :: 0 <= i < |s| && HeldBy(s[i], kinds, f) == 1
    ensures Held(s, kinds, f) == 1 ==>
              forall i, j :: 0 <= i < j < |s| ==> HeldBy(s[i], kinds, f) == 0 || HeldBy(s[j], kinds, f) == 0
    decreases |s|
  {
    if s != [] {
      var front := s[..|s| - 1];
      HeldAt(front, kinds, f);
      assert forall i :: 0 <= i < |front| ==> s[i] == front[i];
      if Held(s, kinds, f) > 0 && Held(front, kinds, f) > 0 {
        var i :| 0 <= i < |front| && HeldBy(front[i], kinds, f) == 1;
        assert HeldBy(s[i], kinds, f) == 1;
      }
    }
  }

  predicate WaitsIn(fds: seq<FdState>, i: nat, e: Event, f: nat) {
    i < |fds| && fds[i].Get(e).fiber == Some(f)
  }

  lemma {:induction false} WaitsAt(fds: seq<FdState>, f: nat)
    ensures Waiters(fds, f) == 0 ==> forall i, e :: !WaitsIn(fds, i, e, f)
    ensures Waiters(fds, f) > 0 ==> exists i, e :: WaitsIn(fds, i, e, f)
    ensures Waiters(fds, f) == 1 ==>
              forall i, d, j, e :: WaitsIn(fds, i, d, f) && WaitsIn(fds, j, e, f) ==> i == j && d == e
    decreases |fds|
  {
    if fds != [] {
      var front, last := fds[..|fds| - 1], fds[|fds| - 1];
      WaitsAt(front, f);
      assert forall i: nat, e :: WaitsIn(fds, i, e, f) <==> WaitsIn(front, i, e, f) || (i == |front| && last.Get(e).fiber == Some(f));
      assert WaitsIn(fds, |front|, READ, f) == (Waiter(last.read, f) == 1);
      assert WaitsIn(fds, |front|, WRITE, f) == (Waiter(last.write, f) == 1);
    }
  }

  lemma OneHolder(s: System, f: nat)
    requires Inv(s)
    ensures (exists h :: Holds(s, h, f)) <==> f in s.fibers && s.fibers[f].Parked()
    ensures forall h, k :: Holds(s, h, f) && Holds(s, k, f) ==> h == k
  {
    assert Sources(s, f) == if f in s.fibers && s.fibers[f].Parked() then 1 else 0;
    WaitsAt(s.io.fds, f);
    HeldAt(s.timers, s.kinds, f);
    HeldAt(s.io.queue, s.kinds, f);
    if Waiters(s.io.fds, f) > 0 {
      var i: nat, e :| WaitsIn(s.io.fds, i, e, f);
      assert Holds(s, AtEvent(i, e), f);
    } else if Held(s.timers, s.kinds, f) > 0 {
      var i :| 0 <= i < |s.timers| && HeldBy(s.timers[i], s.kinds, f) == 1;
      assert Holds(s, AtTimer(i), f);
    } else if Held(s.io.queue, s.kinds, f) > 0 {
      var i :| 0 <= i < |s.io.queue| && HeldBy(s.io.queue[i], s.kinds, f) == 1;
      assert Holds(s, AtQueue(i), f);
    }
  }

  /** In every reachable state a parked fiber is held in exactly one place, so that it is neither lost
      nor resumed twice; and a fiber that is running or finished is held nowhere. */
  lemma ExactlyOneHolder(steps: seq<Step>, f: nat)
    requires IsRun(Init(), steps)
    ensures var s := Run(Init(), steps);
      && ((exists h :: Holds(s, h, f)) <==> f in s.fibers && s.fibers[f].Parked())
      && forall h, k :: Holds(s, h, f) && Holds(s, k, f) ==> h == k
  {
    InitInv();
    RunInv(Init(), steps);
    OneHolder(Run(Init(), steps), f);
  }

  /** A fiber that waits for an event is watched by the kernel. */
  lemma WatchedByKernel(steps: seq<Step>, f: nat, fd: nat, e: Event)
    requires IsRun(Init(), steps) && Holds(Run(Init(), steps), AtEvent(fd, e), f)
    ensures var io := Run(Init(), steps).io;
      fd in io.kernel && io.kernel[fd].Has(e)
  {
    InitInv();
    RunInv(Init(), steps);
    assert FdOk(Run(Init(), steps).io, fd);
  }

  /** Whenever the scheduler takes a fiber from the queue, that fiber is parked: none is dropped as
      finished, and none is switched to while it runs. */
  lemma ResumesParked(steps: seq<Step>, f: nat)
    requires IsRun(Init(), steps)
    requires var s := Run(Init(), steps);
      s.cur.None? && !s.idle && s.io.queue != [] && s.io.queue[0] == RunFiber(f)
    ensures var s := Run(Init(), steps);
      f in s.fibers && s.fibers[f].Parked()
  {
    InitInv();
    RunInv(Init(), steps);
    ResumeInv(Run(Init(), steps), f);
  }

  // ------------------------------------------------------------------ timeouts

  /** do_io reports ETIMEDOUT only if a timer of that call has expired. */
  lemma TimeoutIsOwn(steps: seq<Step>, f: nat, g: nat, willing: bool, call: Call, timer: Option<nat>)
    requires IsRun(Init(), steps)
    requires var s := Run(Init(), steps);
      && Enabled(s, Take(g, willing)) && s.io.queue[0] == RunFiber(f)
      && f in s.fibers && s.fibers[f] == InDoIo(call, timer)
    ensures var s := Run(Init(), steps);
      Next(s, Take(g, willing)).fibers[f] == (if call.id in s.canceled then Running(None) else Running(Some(call)))
      && (call.id in s.canceled ==> TimedOut(s.kinds, s.expired, call.id))
  {
    InitInv();
    RunInv(Init(), steps);
  }

  /** A callback never changes what it does. */
  lemma KindsStay(s: System, step: Step, cb: nat)
    requires Enabled(s, step) && cb in s.kinds
    ensures cb in Next(s, step).kinds && Next(s, step).kinds[cb] == s.kinds[cb]
  {
  }

  /** The one way to make a callback the timeout of a call is to arm it as a timer in that very call. */
  lemma TimersBelongToCalls(s: System, step: Step, cb: nat)
    requires Enabled(s, step) && cb !in s.kinds && cb in Next(s, step).kinds && Next(s, step).kinds[cb].Timeout?
    ensures step.WaitTimed? && step.cb == cb && InCall(s)
    ensures Next(s, step).kinds[cb].call == s.fibers[s.cur.value].call.value
  {
  }

  /** And it counts as expired only when it has been taken from the live timers. */
  lemma OnlyTimersExpire(s: System, step: Step, cb: nat)
    requires Enabled(s, step) && cb in Next(s, step).expired && cb !in s.expired
    ensures step == Expire(cb) && RunCb(cb) in s.timers
  {
  }

  /** A new call starts without any timer and without ETIMEDOUT. */
  lemma CallsStartClean(s: System, fd: nat, e: Event)
    requires Inv(s) && Enabled(s, Enter(fd, e))
    ensures var s1 := Next(s, Enter(fd, e));
      var call := s1.fibers[s.cur.value].call.value.id;
      call !in s1.canceled && forall cb :: cb in s1.kinds && s1.kinds[cb].Timeout? ==> s1.kinds[cb].call.id != call
  {
    assert s.nextCall in s.canceled ==> TimedOut(s.kinds, s.expired, s.nextCall);
  }

  // ------------------------------------------------------------------ the timers of a call

  function ActiveCall(pc: Pc): Option<nat> {
    match pc
    case Running(Some(call)) => Some(call.id)
    case InDoIo(call, _) => Some(call.id)
    case _ => None
  }

  /** The fiber waits in do_io, and this is its timer. */
  predicate Awaits(fibers: map<nat, Pc>, f: nat, call: Call, cb: nat) {
    f in fibers && fibers[f] == InDoIo(call, Some(cb))
  }

  /** A live timer of do_io has a fiber that waits with it. */
  predicate TimersAwaited(timers: seq<Task>, kinds: map<nat, Callback>, fibers: map<nat, Pc>) {
    forall cb :: RunCb(cb) in timers && cb in kinds && kinds[cb].Timeout? ==>
                   exists f :: f in fibers && Awaits(fibers, f, kinds[cb].call, cb)
  }

  /** No two fibers are in the same call. */
  predicate OwnCalls(fibers: map<nat, Pc>) {
    forall f, g :: f in fibers && g in fibers && ActiveCall(fibers[f]).Some? && ActiveCall(fibers[f]) == ActiveCall(fibers[g])
                   ==> f == g
  }

  predicate CallTimers(s: System) {
    TimersAwaited(s.timers, s.kinds, s.fibers) && OwnCalls(s.fibers)
  }

  /** Steps that take timers out, or arm other ones, and leave the waiting fibers alone. */
  lemma SameWaiters(s: System, s1: System)
    requires Inv(s) && CallTimers(s)
    requires forall cb :: RunCb(cb) in s1.timers ==>
               RunCb(cb) in s.timers || (cb in s1.kinds && !s1.kinds[cb].Timeout?)
    requires forall cb :: cb in s.kinds ==> cb in s1.kinds && s1.kinds[cb] == s.kinds[cb]
    requires forall f :: f in s.fibers && s.fibers[f].InDoIo? ==> f in s1.fibers && s1.fibers[f] == s.fibers[f]
    ensures TimersAwaited(s1.timers, s1.kinds, s1.fibers)
  {
    forall cb | RunCb(cb) in s1.timers && cb in s1.kinds && s1.kinds[cb].Timeout?
      ensures exists f :: f in s1.fibers && Awaits(s1.fibers, f, s1.kinds[cb].call, cb)
    {
      assert RunCb(cb) in s.timers && RunCb(cb).cb in s.kinds;
      var f :| f in s.fibers && Awaits(s.fibers, f, s.kinds[cb].call, cb);
      assert Awaits(s1.fibers, f, s1.kinds[cb].call, cb);
    }
  }

  /** A fiber that leaves its call, or stays in it, shares no call with another one. */
  lemma OneFiber(fibers: map<nat, Pc>, f: nat, pc: Pc)
    requires OwnCalls(fibers) && (ActiveCall(pc).Some? ==> f in fibers && ActiveCall(pc) == ActiveCall(fibers[f]))
    ensures OwnCalls(fibers[f := pc])
  {
  }

  /** A fiber that waits in do_io with a timer is in its way through the wait. */
  lemma WaitTimers(s: System, timer: Option<nat>, willing: bool)
    requires Inv(s) && CallTimers(s) && InCall(s) && s.fibers[s.cur.value].call.value.fd != |s.io.fds|
    requires timer.Some? ==> timer.value !in s.kinds
    ensures CallTimers(Waited(s, timer, willing))
  {
    var me := s.cur.value;
    OneFiber(s.fibers, me, Waited(s, timer, willing).fibers[me]);
    WaitAwaited(s, Waited(s, timer, willing), me, s.fibers[me].call.value, timer);
  }

  lemma WaitAwaited(s: System, s1: System, me: nat, call: Call, timer: Option<nat>)
    requires Inv(s) && CallTimers(s) && me in s.fibers && !s.fibers[me].InDoIo?
    requires forall cb :: cb in s.kinds ==> cb in s1.kinds && s1.kinds[cb] == s.kinds[cb]
    requires me in s1.fibers && s1.fibers == s.fibers[me := s1.fibers[me]]
    requires s1.timers == s.timers
             || (timer.Some? && s1.timers == s.timers + [RunCb(timer.value)] && s1.fibers[me] == InDoIo(call, timer)
                 && timer.value in s1.kinds && s1.kinds[timer.value] == Timeout(call))
    ensures TimersAwaited(s1.timers, s1.kinds, s1.fibers)
  {
    forall cb | RunCb(cb) in s1.timers && cb in s1.kinds && s1.kinds[cb].Timeout?
      ensures exists f :: f in s1.fibers && Awaits(s1.fibers, f, s1.kinds[cb].call, cb)
    {
      if RunCb(cb) in s.timers {
        assert RunCb(cb).cb in s.kinds;
        var f :| f in s.fibers && Awaits(s.fibers, f, s.kinds[cb].call, cb);
        assert Awaits(s1.fibers, f, s1.kinds[cb].call, cb);
      } else {
        assert Awaits(s1.fibers, me, call, cb);
      }
    }
  }

  /** A resumed fiber has cancelled its timer. */
  lemma ResumeTimers(s: System, f: nat)
    requires Inv(s) && CallTimers(s) && f in s.fibers
    ensures CallTimers(Resumed(s, f))
  {
    OneFiber(s.fibers, f, Resumed(s, f).fibers[f]);
    var pc := s.fibers[f];
    if pc.InDoIo? && pc.timer.Some? {
      WithoutOthers(s.timers, RunCb(pc.timer.value));
    }
    ResumeAwaited(s, Resumed(s, f), f);
  }

  lemma ResumeAwaited(s: System, s1: System, f: nat)
    requires Inv(s) && CallTimers(s) && f in s.fibers && s1.kinds == s.kinds
    requires f in s1.fibers && s1.fibers == s.fibers[f := s1.fibers[f]]
    requires forall cb :: RunCb(cb) in s1.timers ==> RunCb(cb) in s.timers
    requires s.fibers[f].InDoIo? ==> forall cb :: s.fibers[f].timer == Some(cb) ==> RunCb(cb) !in s1.timers
    ensures TimersAwaited(s1.timers, s1.kinds, s1.fibers)
  {
    forall cb | RunCb(cb) in s1.timers && cb in s1.kinds && s1.kinds[cb].Timeout?
      ensures exists g :: g in s1.fibers && Awaits(s1.fibers, g, s1.kinds[cb].call, cb)
    {
      var g :| g in s.fibers && Awaits(s.fibers, g, s.kinds[cb].call, cb);
      assert Awaits(s1.fibers, g, s1.kinds[cb].call, cb);
    }
  }

  lemma TakeTimers(s: System, f: nat, willing: bool)
    requires Inv(s) && CallTimers(s) && s.cur.None? && !s.idle && s.io.queue != [] && FreeFiber(s, f)
    ensures CallTimers(Taken(s, f, willing))
  {
    match s.io.queue[0] {
      case RunFiber(g) =>
        if g in s.fibers {
          ResumeTimers(s, g);
          ResumeRest(s, s.(io := s.io.(queue := s.io.queue[1..])), g);
        }
      case RunCb(cb) =>
        if cb in s.kinds {
          CallbackTimers(s, s.(io := s.io.(queue := s.io.queue[1..])), cb, f, willing);
        }
    }
  }

  lemma ResumeRest(s: System, s1: System, g: nat)
    requires g in s.fibers && s1.timers == s.timers && s1.kinds == s.kinds && s1.fibers == s.fibers && s1.canceled == s.canceled
    requires CallTimers(Resumed(s, g))
    ensures CallTimers(Resumed(s1, g))
  {
  }

  /** A callback runs in a fiber of its own and arms no timer. */
  lemma CallbackTimers(s: System, s1: System, cb: nat, f: nat, willing: bool)
    requires Inv(s) && CallTimers(s) && FreeFiber(s, f) && cb in s.kinds
    requires s1.timers == s.timers && s1.kinds == s.kinds && s1.fibers == s.fibers
    ensures CallTimers(Called(s1, cb, f, willing))
  {
    var s2 := Called(s1, cb, f, willing);
    if s.kinds[cb].User? {
      OneFiber(s.fibers, f, s2.fibers[f]);
    }
    SameWaiters(s, s2);
  }

  /** Steps of other code and of the idle thread. */
  lemma OtherTimers(s: System, step: Step)
    requires Inv(s) && CallTimers(s) && Enabled(s, step)
    requires step.Spawn? || step.Push? || step.AddTimer? || step.CancelTimer? || step.WatchCb? || step.Unwatch? || step.Cancel?
             || step.CancelBoth? || step.GoIdle? || step.Expire? || step.DispatchBatch? || step.LeaveIdle?
    ensures CallTimers(Next(s, step))
  {
    if step.CancelTimer? || step.Expire? {
      WithoutOthers(s.timers, RunCb(step.cb));
    }
    SameWaiters(s, Next(s, step));
  }

  /** Steps of the running fiber that do not wait for an event. */
  lemma RunningTimers(s: System, step: Step)
    requires Inv(s) && CallTimers(s) && Enabled(s, step)
    requires step.Enter? || step.Return? || step.Sleep? || step.Requeue? || step.Finish?
    ensures CallTimers(Next(s, step))
  {
    var me := s.cur.value;
    var pc := Next(s, step).fibers[me];
    if step.Enter? {
      NewCall(s, me, pc);
    } else {
      OneFiber(s.fibers, me, pc);
    }
    SameWaiters(s, Next(s, step));
  }

  /** A call has a number of its own. */
  lemma NewCall(s: System, me: nat, pc: Pc)
    requires Inv(s) && OwnCalls(s.fibers) && ActiveCall(pc) == Some(s.nextCall)
    ensures OwnCalls(s.fibers[me := pc])
  {
    assert forall f :: f in s.fibers ==> CallOk(s.fibers[f], s.kinds, s.nextCall);
  }

  lemma StepTimers(s: System, step: Step)
    requires Inv(s) && CallTimers(s) && Enabled(s, step)
    ensures CallTimers(Next(s, step))
  {
    match step {
      case Wait(willing) => WaitTimers(s, None, willing);
      case WaitTimed(cb, willing) => WaitTimers(s, Some(cb), willing);
      case Take(f, willing) => TakeTimers(s, f, willing);
      case Enter(_, _) => RunningTimers(s, step);
      case Return => RunningTimers(s, step);
      case Sleep(_) => RunningTimers(s, step);
      case Requeue => RunningTimers(s, step);
      case Finish => RunningTimers(s, step);
      case _ => OtherTimers(s, step);
    }
  }

  lemma {:induction false} RunTimers(s: System, steps: seq<Step>)
    requires Inv(s) && CallTimers(s) && IsRun(s, steps)
    ensures CallTimers(Run(s, steps))
    decreases |steps|
  {
    if steps != [] {
      StepInv(s, steps[0]);
      StepTimers(s, steps[0]);
      RunTimers(Next(s, steps[0]), steps[1..]);
    }
  }

  /** In every reachable state a live timer of a do_io call has exactly one fiber in that call, which
      is parked with it: a call that runs, or has returned on whatever way, has left no timer behind. */
  lemma TimersDisarmed(steps: seq<Step>, cb: nat)
    requires IsRun(Init(), steps)
    requires var s := Run(Init(), steps);
      RunCb(cb) in s.timers && cb in s.kinds && s.kinds[cb].Timeout?
    ensures var s := Run(Init(), steps);
      exists f :: f in s.fibers && Awaits(s.fibers, f, s.kinds[cb].call, cb)
                  && forall g :: g in s.fibers && ActiveCall(s.fibers[g]) == Some(s.kinds[cb].call.id) ==> g == f
  {
    InitInv();
    RunTimers(Init(), steps);
    var s := Run(Init(), steps);
    var f :| f in s.fibers && Awaits(s.fibers, f, s.kinds[cb].call, cb);
    assert ActiveCall(s.fibers[f]) == Some(s.kinds[cb].call.id);
  }

  // ------------------------------------------------------------------ the history of a timeout

  /** The states on the way: before step k, and behind it. */
  lemma {:induction false} RunPrefix(s: System, steps: seq<Step>, k: nat)
    requires IsRun(s, steps) && k < |steps|
    ensures IsRun(s, steps[..k]) && IsRun(s, steps[..k + 1]) && Enabled(Run(s, steps[..k]), steps[k])
    ensures Run(s, steps[..k + 1]) == Next(Run(s, steps[..k]), steps[k])
    decreases k
  {
    if k == 0 {
      assert steps[..0] == [] && steps[..1] == [steps[0]] && [steps[0]][1..] == [];
      assert IsRun(s, [steps[0]]);
    } else {
      var s1, rest := Next(s, steps[0]), steps[1..];
      RunPrefix(s1, rest, k - 1);
      assert steps[..k][0] == steps[0] && steps[..k][1..] == rest[..k - 1];
      assert steps[..k + 1][0] == steps[0] && steps[..k + 1][1..] == rest[..k];
    }
  }

  /** The step that armed the timeout of a call, taken in that call. */
  ghost predicate ArmedAt(steps: seq<Step>, i: nat, cb: nat, call: Call)
    requires IsRun(Init(), steps)
  {
    && i < |steps| && steps[i].WaitTimed? && steps[i].cb == cb
    && IsRun(Init(), steps[..i])
    && var s := Run(Init(), steps[..i]);
       InCall(s) && s.fibers[s.cur.value].call.value == call
  }

  ghost predicate ExpiredAt(steps: seq<Step>, j: nat, cb: nat)
    requires IsRun(Init(), steps)
  {
    j < |steps| && steps[j] == Expire(cb) && IsRun(Init(), steps[..j]) && RunCb(cb) in Run(Init(), steps[..j]).timers
  }

  lemma {:induction false} WasArmed(steps: seq<Step>, cb: nat) returns (i: nat)
    requires IsRun(Init(), steps) && cb in Run(Init(), steps).kinds && Run(Init(), steps).kinds[cb].Timeout?
    ensures ArmedAt(steps, i, cb, Run(Init(), steps).kinds[cb].call)
    decreases |steps|
  {
    i := 0;
    if steps != [] {
      var n := |steps| - 1;
      RunPrefix(Init(), steps, n);
      assert steps[..n + 1] == steps;
      var s := Run(Init(), steps[..n]);
      if cb in s.kinds {
        KindsStay(s, steps[n], cb);
        i := WasArmed(steps[..n], cb);
        assert steps[..n][..i] == steps[..i];
      } else {
        TimersBelongToCalls(s, steps[n], cb);
        i := n;
      }
    }
  }

  lemma {:induction false} HasExpired(steps: seq<Step>, cb: nat) returns (j: nat)
    requires IsRun(Init(), steps) && cb in Run(Init(), steps).expired
    ensures ExpiredAt(steps, j, cb)
    decreases |steps|
  {
    j := 0;
    if steps != [] {
      var n := |steps| - 1;
      RunPrefix(Init(), steps, n);
      assert steps[..n + 1] == steps;
      var s := Run(Init(), steps[..n]);
      if cb in s.expired {
        j := HasExpired(steps[..n], cb);
        assert steps[..n][..j] == steps[..j];
      } else {
        OnlyTimersExpire(s, steps[n], cb);
        j := n;
      }
    }
  }

  lemma {:induction false} KindsForward(steps: seq<Step>, j: nat, cb: nat)
    requires IsRun(Init(), steps) && j <= |steps| && IsRun(Init(), steps[..j]) && cb in Run(Init(), steps[..j]).kinds
    ensures cb in Run(Init(), steps).kinds && Run(Init(), steps).kinds[cb] == Run(Init(), steps[..j]).kinds[cb]
    decreases |steps|
  {
    if j == |steps| {
      assert steps[..j] == steps;
    } else {
      var n := |steps| - 1;
      RunPrefix(Init(), steps, n);
      assert steps[..n + 1] == steps && steps[..n][..j] == steps[..j];
      KindsForward(steps[..n], j, cb);
      KindsStay(Run(Init(), steps[..n]), steps[n], cb);
    }
  }

  lemma LiveTimerKnown(s: System, cb: nat)
    requires Inv(s) && RunCb(cb) in s.timers
    ensures cb in s.kinds
  {
    assert RunCb(cb).cb in s.kinds;
  }

  /** An expired timeout was armed before it expired, in its call. */
  lemma ExpiredHistory(steps: seq<Step>, cb: nat) returns (i: nat, j: nat)
    requires IsRun(Init(), steps) && cb in Run(Init(), steps).expired
    requires cb in Run(Init(), steps).kinds && Run(Init(), steps).kinds[cb].Timeout?
    ensures i < j < |steps| && ExpiredAt(steps, j, cb) && ArmedAt(steps, i, cb, Run(Init(), steps).kinds[cb].call)
  {
    j := HasExpired(steps, cb);
    InitInv();
    RunInv(Init(), steps[..j]);
    LiveTimerKnown(Run(Init(), steps[..j]), cb);
    KindsForward(steps, j, cb);
    i := WasArmed(steps[..j], cb);
    assert steps[..j][..i] == steps[..i];
  }

  lemma TimedOutBy(s: System, f: nat, call: Call, timer: Option<nat>) returns (cb: nat)
    requires Inv(s) && f in s.fibers && s.fibers[f] == InDoIo(call, timer) && call.id in s.canceled
    ensures cb in s.expired && cb in s.kinds && s.kinds[cb].Timeout? && s.kinds[cb].call.id == call.id
  {
    assert TimedOut(s.kinds, s.expired, call.id);
    cb :| cb in s.expired && cb in s.kinds && s.kinds[cb].Timeout? && s.kinds[cb].call.id == call.id;
  }

  /** Whenever do_io reports ETIMEDOUT, a timer that was armed in that very call has expired since: the
      run holds the step that armed it and, later, the step in which it expired. */
  lemma TimeoutHistory(steps: seq<Step>, f: nat, call: Call, timer: Option<nat>) returns (i: nat, j: nat, cb: nat)
    requires IsRun(Init(), steps)
    requires var s := Run(Init(), steps);
      f in s.fibers && s.fibers[f] == InDoIo(call, timer) && call.id in s.canceled
    ensures i < j < |steps| && ExpiredAt(steps, j, cb)
    ensures exists c: Call :: c.id == call.id && ArmedAt(steps, i, cb, c)
  {
    InitInv();
    RunInv(Init(), steps);
    cb := TimedOutBy(Run(Init(), steps), f, call, timer);
    i, j := ExpiredHistory(steps, cb);
  }

  // ------------------------------------------------------------------ stopping

  /** CanStop, of the IOManager and of the scheduler it inherits, once stopping is asked for. */
  predicate CanStop(s: System) {
    s.io.pending == 0 && s.timers == [] && s.io.queue == [] && s.cur.None?
  }

  lemma {:induction false} NothingArmed(fds: seq<FdState>, f: nat)
    requires Armed(fds) == 0 && forall i :: 0 <= i < |fds| ==> ContextOk(fds[i], READ) && ContextOk(fds[i], WRITE)
    ensures Waiters(fds, f) == 0 && forall i :: 0 <= i < |fds| ==> fds[i].mask.Empty()
    decreases |fds|
  {
    if fds != [] {
      var front := fds[..|fds| - 1];
      assert forall i :: 0 <= i < |front| ==> front[i] == fds[i];
      NothingArmed(front, f);
    }
  }

  /** Whenever the system can stop, every fiber has finished, no event is registered and the kernel
      watches nothing. */
  lemma StoppingStrandsNothing(steps: seq<Step>, f: nat)
    requires IsRun(Init(), steps) && CanStop(Run(Init(), steps))
    ensures var s := Run(Init(), steps);
      && (f in s.fibers ==> s.fibers[f].Done?)
      && (forall i :: 0 <= i < |s.io.fds| ==> s.io.fds[i].mask.Empty())
      && s.io.kernel == map[]
  {
    InitInv();
    RunInv(Init(), steps);
    StoppedClean(Run(Init(), steps), f);
  }

  lemma StoppedClean(s: System, f: nat)
    requires Inv(s) && CanStop(s)
    ensures f in s.fibers ==> s.fibers[f].Done?
    ensures forall i :: 0 <= i < |s.io.fds| ==> s.io.fds[i].mask.Empty()
    ensures s.io.kernel == map[]
  {
    forall i | 0 <= i < |s.io.fds| ensures ContextOk(s.io.fds[i], READ) && ContextOk(s.io.fds[i], WRITE) {
      assert FdOk(s.io, i);
    }
    NothingArmed(s.io.fds, f);
    assert Sources(s, f) == if f in s.fibers && s.fibers[f].Parked() then 1 else 0;
    forall fd ensures fd !in s.io.kernel {
      assert fd in s.io.kernel ==> FdOk(s.io, fd);
    }
  }
}

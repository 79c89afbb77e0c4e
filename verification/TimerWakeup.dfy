/** How the thread that waits in IOManager::Idle learns of a new first timer (src/Timer.cc:84-120,
    src/IOManager.cc:242-294).

    One thread idles: it clears the flag m_notify, reads the time until the first timer falls due and
    sleeps in epoll_wait.  Other threads change the timers; the one that places a timer first while
    the flag is clear sets the flag and then writes to the eventfd.  Every arrow of the code between
    two lock operations is a step of its own. */
module TimerWakeup {
  import opened Common
  import opened Timers

  const MAX_TIMEOUT: int := 60_000

  // ------------------------------------------------------------------ the time to sleep

  /** The timeout passed to epoll_wait for what getNextTimer returned; a negative one means for ever. */
  function Timeout(next: nat): int {
    if next == WORD_MAX then MAX_TIMEOUT else
    if ToInt(next) > MAX_TIMEOUT then MAX_TIMEOUT else ToInt(next)
  }

  /** The timeout is the time until the first timer as a 32-bit int, but no more than a minute, and a minute
      when there is no timer.  So it never exceeds that time, and it is endless exactly when bit 31 of it
      is set, which takes a timer due in 2^31 milliseconds or later. */
  lemma TimeoutExact(next: nat)
    ensures Timeout(next) <= 60_000 && Timeout(next) <= next
    ensures Timeout(next) < 0 <==> next != 0xFFFF_FFFF_FFFF_FFFF && next % 0x1_0000_0000 >= 0x8000_0000
    ensures next == 0xFFFF_FFFF_FFFF_FFFF ==> Timeout(next) == 60_000
    ensures next != 0xFFFF_FFFF_FFFF_FFFF && next % 0x1_0000_0000 < 0x8000_0000 ==>
              Timeout(next) == if next % 0x1_0000_0000 > 60_000 then 60_000 else next % 0x1_0000_0000
  {
    ToIntIs(next);
  }

  // ------------------------------------------------------------------ the steps

  /** Where the waiting thread is. */
  datatype Pc = Busy | Idle | Cleared | Asleep(until: Option<nat>) | Awake

  /** `inserters` have set the flag and have not yet asked whether a thread is idle; `writers` have
      asked and are about to write; `posted` says that the eventfd has been written. */
  datatype System = System(t: State, pc: Pc, inserters: nat, writers: nat, posted: bool)

  datatype Step =
    | Enter
    | Clear
    | Read(now: nat)
    | Wake
    | Interrupt // by a signal; the thread starts over with clearing the flag
    | Expiry(now: nat, n: nat, previous: nat)
    | Drain
    | Leave
    | Change(op: Op)
    | Ask
    | Write

  /** The change of the timers, and whether Haslatest is called. */
  function Changed(t: State, op: Op): (State, bool)
    requires Within(t.mem, t.timers) && Timers.Enabled(t, op)
  {
    match op
    case Add(a, ms, cb, repeats, now) => Added(t, a, ms, cb, repeats, now)
    case Refresh(a, now) => var (t1, r) := Refreshed(t, a, now); (t1, r.notified)
    case Reset(a, ms, fromNow, now) => var (t1, r) := WithReset(t, a, ms, fromNow, now); (t1, r.notified)
    case Cancel(a) => (Cancelled(t, a).0, false)
    case _ => (t, false)
  }

  predicate CanStep(s: System, step: Step) {
    Within(s.t.mem, s.t.timers) &&
    match step
    case Enter => s.pc.Busy?
    case Clear => s.pc.Idle?
    case Read(_) => s.pc.Cleared?
    case Wake => s.pc.Asleep?
    case Interrupt => s.pc.Asleep?
    case Expiry(_, n, _) => s.pc.Awake? && n <= |s.t.timers|
    case Drain => s.pc.Awake?
    case Leave => s.pc.Awake?
    case Change(op) => Timers.Enabled(s.t, op)
    case Ask => s.inserters > 0
    case Write => s.writers > 0
  }

  /** hasIdleThreads */
  predicate IsIdle(s: System) { !s.pc.Busy? }

  /** epoll_wait with a timeout of 0 does not sleep. */
  function Fallen(next: nat, now: nat): Pc {
    if Timeout(next) == 0 then Awake else Asleep(if Timeout(next) < 0 then None else Some(now + Timeout(next)))
  }

  function After(s: System, step: Step): System
    requires CanStep(s, step)
  {
    match step
    case Enter => s.(pc := Idle)
    case Clear => s.(pc := Cleared, t := s.t.(notify := false))
    case Read(now) => s.(pc := Fallen(NextTimer(s.t, now).1, now))
    case Wake => s.(pc := Awake)
    case Interrupt => s.(pc := Idle)
    case Expiry(now, n, previous) => s.(t := Taken(s.t, now, n, previous).0)
    case Drain => s.(posted := false)
    case Leave => s.(pc := Busy)
    case Change(op) =>
      var (t1, notified) := Changed(s.t, op);
      s.(t := t1, inserters := s.inserters + if notified then 1 else 0)
    case Ask => s.(inserters := s.inserters - 1, writers := s.writers + if IsIdle(s) then 1 else 0)
    case Write => s.(writers := s.writers - 1, posted := true)
  }

  // ------------------------------------------------------------------ no wake-up is lost

  predicate AllAfter(t: State, d: nat) {
    forall a :: a in t.timers ==> Next(t.mem, a) >= d
  }

  predicate Coming(s: System) { s.posted || s.writers > 0 || s.inserters > 0 }

  /** A flag set since it was cleared has its post on the way; and as long as it is clear, no timer
      falls due before the sleeper gets up. */
  predicate Inv(s: System) {
    && Timers.Valid(s.t)
    && (s.pc.Cleared? || s.pc.Asleep? ==> (s.t.notify ==> Coming(s)))
    && (s.pc.Asleep? && s.pc.until.Some? && !s.t.notify ==> AllAfter(s.t, s.pc.until.value))
  }

  function Init(now: nat): System { System(State(map[], [], false, now), Busy, 0, 0, false) }

  /** A timer that is put into the set, but not first, falls due after one that stays. */
  lemma NotFirst(t: State, t1: State, a: Addr, d: nat)
    requires AllAfter(t, d) && a in t1.mem
    requires forall b :: b in t1.timers && b != a ==> b in t.timers
    requires forall b :: b in t.timers && b != a ==> Next(t1.mem, b) == Next(t.mem, b)
    requires exists b :: b in t.timers && b != a && !Less(t1.mem, a, b)
    ensures AllAfter(t1, d)
  {
    var b :| b in t.timers && b != a && !Less(t1.mem, a, b);
    assert Next(t1.mem, b) >= d;
  }

  lemma AddKeeps(t: State, op: Op, t1: State, notified: bool, d: nat)
    requires Timers.Valid(t) && op.Add? && Timers.Enabled(t, op) && (t1, notified) == Changed(t, op)
    ensures Timers.Valid(t1) && t1.notify == (t.notify || notified)
    ensures !t1.notify && AllAfter(t, d) ==> AllAfter(t1, d)
  {
    AddedValid(t, op.a, op.ms, op.cb, op.repeats, op.now, t1, notified);
    if !t1.notify && AllAfter(t, d) {
      NotFirst(t, t1, op.a, d);
    }
  }

  lemma MoveKeeps(t: State, a: Addr, ms: nat, next: nat, t1: State, r: Answer, d: nat)
    requires Timers.Valid(t) && a in t.mem && (t1, r) == Moved(t, a, ms, next)
    ensures Timers.Valid(t1) && t1.notify == (t.notify || r.notified)
    ensures !t1.notify && AllAfter(t, d) ==> AllAfter(t1, d)
  {
    MovedValid(t, a, ms, next, t1, r, t.mem[a].(ms := ms, next := Wrap(next)));
    if !t1.notify && AllAfter(t, d) && r.ok {
      NotFirst(t, t1, a, d);
    }
  }

  lemma CancelKeeps(t: State, a: Addr, t1: State, r: Answer, d: nat)
    requires Timers.Valid(t) && a in t.mem && (t1, r) == Cancelled(t, a)
    ensures Timers.Valid(t1) && t1.notify == t.notify
    ensures AllAfter(t, d) ==> AllAfter(t1, d)
  {
    CancelledValid(t, a, t1, r);
  }

  lemma RefreshKeeps(t: State, a: Addr, now: nat, t1: State, r: Answer, d: nat)
    requires Timers.Valid(t) && a in t.mem && (t1, r) == Refreshed(t, a, now)
    ensures Timers.Valid(t1) && t1.notify == (t.notify || r.notified)
    ensures !t1.notify && AllAfter(t, d) ==> AllAfter(t1, d)
  {
    if t.mem[a].cb.Some? {
      MoveKeeps(t, a, t.mem[a].ms, now + t.mem[a].ms, t1, r, d);
    }
  }

  lemma ResetKeeps(t: State, a: Addr, ms: nat, fromNow: bool, now: nat, t1: State, r: Answer, d: nat)
    requires Timers.Valid(t) && a in t.mem && (t1, r) == WithReset(t, a, ms, fromNow, now)
    ensures Timers.Valid(t1) && t1.notify == (t.notify || r.notified)
    ensures !t1.notify && AllAfter(t, d) ==> AllAfter(t1, d)
  {
    if !(t.mem[a].ms == ms && !fromNow) {
      MoveKeeps(t, a, ms, (if fromNow then now else t.mem[a].next) + ms, t1, r, d);
    }
  }

  /** A change that does not call Haslatest while the flag is clear puts no timer first. */
  lemma ChangeKeeps(t: State, op: Op, t1: State, notified: bool, d: nat)
    requires Timers.Valid(t) && Timers.Enabled(t, op) && (t1, notified) == Changed(t, op)
    ensures Timers.Valid(t1) && t1.notify == (t.notify || notified)
    ensures !t1.notify && AllAfter(t, d) ==> AllAfter(t1, d)
  {
    match op {
      case Add(_, _, _, _, _) => AddKeeps(t, op, t1, notified, d);
      case Refresh(a, now) => RefreshKeeps(t, a, now, t1, Refreshed(t, a, now).1, d);
      case Reset(a, ms, fromNow, now) => ResetKeeps(t, a, ms, fromNow, now, t1, WithReset(t, a, ms, fromNow, now).1, d);
      case Cancel(a) => CancelKeeps(t, a, t1, Cancelled(t, a).1, d);
      case _ =>
    }
  }

  lemma StepInv(s: System, step: Step)
    requires Inv(s) && CanStep(s, step)
    ensures Inv(After(s, step))
  {
    match step {
      case Read(now) =>
        TimeoutExact(NextTimer(s.t, now).1);
        forall a | a in s.t.timers ensures Next(s.t.mem, s.t.timers[0]) <= Next(s.t.mem, a) {
          FirstIsEarliest(s.t, a);
        }
      case Expiry(now, n, previous) =>
        ExpireEffect(s.t, now, n, previous, Taken(s.t, now, n, previous).0);
      case Change(op) =>
        var (t1, notified) := Changed(s.t, op);
        ChangeKeeps(s.t, op, t1, notified, if s.pc.Asleep? && s.pc.until.Some? then s.pc.until.value else 0);
      case _ =>
    }
  }

  // ------------------------------------------------------------------ runs

  predicate IsRun(s: System, steps: seq<Step>)
    decreases |steps|
  {
    steps == [] || (CanStep(s, steps[0]) && IsRun(After(s, steps[0]), steps[1..]))
  }

  function Run(s: System, steps: seq<Step>): System
    requires IsRun(s, steps)
    decreases |steps|
  {
    if steps == [] then s else Run(After(s, steps[0]), steps[1..])
  }

  lemma {:induction false} RunInv(s: System, steps: seq<Step>)
    requires Inv(s) && IsRun(s, steps)
    ensures Inv(Run(s, steps))
    decreases |steps|
  {
    if steps != [] {
      StepInv(s, steps[0]);
      RunInv(After(s, steps[0]), steps[1..]);
    }
  }

  /** In every reachable state: while the thread sleeps until `d`, every timer falls due at `d` or later,
      or the eventfd has been written, or somebody is on the way to write it. */
  lemma NoLostWakeup(now: nat, steps: seq<Step>)
    requires IsRun(Init(now), steps)
    ensures var s := Run(Init(now), steps);
      s.pc.Asleep? && s.pc.until.Some? ==> AllAfter(s.t, s.pc.until.value) || Coming(s)
  {
    RunInv(Init(now), steps);
  }

  /** Whoever is on the way while the thread sleeps does write: each of its steps keeps the post coming
      until it is there. */
  lemma PostArrives(s: System, step: Step)
    requires s.pc.Asleep? && (step.Ask? || step.Write?) && CanStep(s, step) && Coming(s)
    ensures Coming(After(s, step)) && (step.Write? ==> After(s, step).posted)
    ensures After(s, step).inserters + After(s, step).inserters + After(s, step).writers
            < s.inserters + s.inserters + s.writers
  {
  }

  /** The sleep is endless exactly when there is a timer and bit 31 of the time until the first one is
      set - at the earliest for a timer due in 2^31 milliseconds; a timer is then not waited for. */
  lemma EndlessSleep(s: System, now: nat)
    requires Inv(s) && s.pc.Cleared?
    ensures After(s, Read(now)).pc == Asleep(None) <==>
            s.t.timers != [] && Next(s.t.mem, s.t.timers[0]) > now
            && (Next(s.t.mem, s.t.timers[0]) - now) % INT_MOD > INT_MAX
            && Next(s.t.mem, s.t.timers[0]) - now != WORD_MAX
  {
    TimeoutExact(NextTimer(s.t, now).1);
  }
}

/** Who is waited for is woken: what the protocol of module Protocol promises a parked fiber.  The
    statements are about registrations, the queue and the fibers; they do not go through the functions
    that trigger and cancel events. */
module WakeUps {
  import opened Common
  import opened Events
  import opened Protocol

  // ------------------------------------------------------------------ registrations

  /** The fiber is registered for this event of this descriptor. */
  predicate Slot(io: Io, fd: nat, e: Event, f: nat) {
    fd < |io.fds| && io.fds[fd].mask.Has(e) && io.fds[fd].Get(e).fiber == Some(f)
  }

  predicate Registered(io: Io, call: Call, f: nat) {
    Slot(io, call.fd, call.event, f)
  }

  /** No registered fiber is lost, and no task. */
  ghost predicate Keeps(io: Io, io1: Io) {
    && io.queue <= io1.queue
    && forall fd, e, f :: Slot(io, fd, e, f) ==> Slot(io1, fd, e, f) || RunFiber(f) in io1.queue
  }

  lemma WokenKeeps(io: Io, io1: Io, fd: nat, hits: Mask)
    requires fd < |io.fds| && Woken(io, io1, fd, hits)
    ensures Keeps(io, io1)
  {
    var ts := io1.queue[|io.queue|..];
    assert io1.queue == io.queue + ts;
    forall g, e, f | Slot(io, g, e, f) ensures Slot(io1, g, e, f) || RunFiber(f) in io1.queue {
      if g == fd && hits.Has(e) {
        assert RunFiber(f) in ts;
      }
    }
  }

  /** What is taken out without being queued is not a fiber. */
  lemma TakenOutKeeps(io: Io, io1: Io, fd: nat, hits: Mask)
    requires fd < |io.fds| && TakenOut(io, io1, fd, hits) && io1.queue == io.queue
    requires forall e, f :: hits.Has(e) ==> !Slot(io, fd, e, f)
    ensures Keeps(io, io1)
  {
  }

  lemma AddKeeps(io: Io, fd: nat, e: Event, cb: Option<nat>, self: nat, willing: bool)
    requires Valid(io) && fd != |io.fds|
    ensures Keeps(io, Added(io, fd, e, cb, self, willing).0)
    ensures Added(io, fd, e, cb, self, willing).1 == Ret(true) && cb.None? ==>
              Slot(Added(io, fd, e, cb, self, willing).0, fd, e, self)
  {
    AddRegisters(io, fd, e, cb, self, willing);
  }

  lemma CancelKeeps(io: Io, fd: nat, e: Event, willing: bool)
    requires Valid(io)
    ensures Keeps(io, Cancelled(io, fd, e, willing).0)
  {
    CancelWakes(io, fd, e, willing);
    if Cancelled(io, fd, e, willing).1 == Ret(true) {
      WokenKeeps(io, Cancelled(io, fd, e, willing).0, fd, Mask(e == READ, e == WRITE));
    }
  }

  lemma CancelAllKeeps(io: Io, fd: nat, willing: bool)
    requires Valid(io)
    ensures Keeps(io, CancelledAll(io, fd, willing).0)
  {
    CancelAllWakes(io, fd, willing);
    if CancelledAll(io, fd, willing).1 == Ret(true) {
      WokenKeeps(io, CancelledAll(io, fd, willing).0, fd, io.fds[fd].mask);
    }
  }

  lemma DeleteKeeps(io: Io, fd: nat, e: Event, willing: bool)
    requires Valid(io) && !FiberWaits(io, fd, e)
    ensures Keeps(io, Deleted(io, fd, e, willing).0)
  {
    DeleteForgets(io, fd, e, willing);
    if Deleted(io, fd, e, willing).1 == Ret(true) {
      TakenOutKeeps(io, Deleted(io, fd, e, willing).0, fd, Mask(e == READ, e == WRITE));
    }
  }

  lemma KeepsTransitive(io: Io, io1: Io, io2: Io)
    requires Keeps(io, io1) && Keeps(io1, io2)
    ensures Keeps(io, io2)
  {
  }

  /** One entry of a batch: nobody is lost, and what is hit is registered no longer. */
  lemma EntryKeeps(io: Io, b: Entry) returns (io1: Io)
    requires Valid(io) && Reported(io.kernel, [b])
    ensures b.fd < |io.fds| && io1 == Dispatched(io, b.fd, b.report, b.willing).0
    ensures Keeps(io, io1) && |io1.fds| == |io.fds|
    ensures forall e, f :: b.willing && Hits(b, e) ==> !Slot(io1, b.fd, e, f)
    ensures forall fd, e, f :: Slot(io1, fd, e, f) ==> Slot(io, fd, e, f)
  {
    assert [b][0] == b;
    assert FdOk(io, b.fd);
    var c := io.fds[b.fd];
    var hits := Mask(c.mask.read && Hits(b, READ), c.mask.write && Hits(b, WRITE));
    DispatchWakes(io, b.fd, b.report, b.willing, hits);
    io1 := Dispatched(io, b.fd, b.report, b.willing).0;
    if b.willing && !hits.Empty() {
      WokenKeeps(io, io1, b.fd, hits);
    }
  }

  /** The entry reports the event, or an error, which counts as every event. */
  predicate Hits(b: Entry, e: Event) { b.report.events.Has(e) || b.report.error }

  /** A batch: nobody is lost, and what is hit and can be taken out is registered no longer. */
  lemma {:induction false} BatchKeeps(io: Io, batch: seq<Entry>)
    requires Valid(io) && Reported(io.kernel, batch)
    ensures Keeps(io, DispatchedAll(io, batch).0)
    ensures forall fd, e, f :: Slot(DispatchedAll(io, batch).0, fd, e, f) ==> Slot(io, fd, e, f)
    ensures forall i, e, f :: 0 <= i < |batch| && batch[i].willing && Hits(batch[i], e) ==>
              !Slot(DispatchedAll(io, batch).0, batch[i].fd, e, f)
    decreases |batch|
  {
    if batch != [] {
      OneEntry(io, batch);
      var io1 := EntryKeeps(io, batch[0]);
      BatchKeeps(io1, batch[1..]);
      KeepsTransitive(io, io1, DispatchedAll(io, batch).0);
      assert forall i :: 0 < i < |batch| ==> batch[1..][i - 1] == batch[i];
    }
  }

  // ------------------------------------------------------------------ steps

  /** Every step but taking a task keeps what is registered and appends to the queue. */
  lemma StepKeeps(s: System, step: Step)
    requires Inv(s) && Enabled(s, step) && !step.Take?
    ensures Keeps(s.io, Next(s, step).io)
  {
    match step {
      case WatchCb(fd, e, cb, willing) => AddKeeps(s.io, fd, e, Some(cb), 0, willing);
      case Unwatch(fd, e, willing) => DeleteKeeps(s.io, fd, e, willing);
      case Cancel(fd, e, willing) => CancelKeeps(s.io, fd, e, willing);
      case CancelBoth(fd, willing) => CancelAllKeeps(s.io, fd, willing);
      case Wait(willing) => WaitKeeps(s, None, willing);
      case WaitTimed(cb, willing) => WaitKeeps(s, Some(cb), willing);
      case DispatchBatch(batch) => BatchKeeps(s.io, batch);
      case _ =>
    }
  }

  lemma WaitKeeps(s: System, timer: Option<nat>, willing: bool)
    requires Inv(s) && InCall(s) && s.fibers[s.cur.value].call.value.fd != |s.io.fds|
    ensures Keeps(s.io, Waited(s, timer, willing).io)
  {
    var call := s.fibers[s.cur.value].call.value;
    AddKeeps(s.io, call.fd, call.event, None, s.cur.value, willing);
  }

  /** The system without the first task of its queue. */
  function HeadTaken(s: System): System
    requires s.io.queue != []
  {
    s.(io := s.io.(queue := s.io.queue[1..]))
  }

  /** Taking a task removes it from the queue, and otherwise keeps and appends. */
  lemma TakeKeeps(s: System, f: nat, willing: bool)
    requires Inv(s) && Enabled(s, Take(f, willing))
    ensures Keeps(HeadTaken(s).io, Next(s, Take(f, willing)).io)
  {
    QueueValid(s.io, s.io.queue[1..]);
    match s.io.queue[0] {
      case RunFiber(_) =>
      case RunCb(cb) =>
        if cb in s.kinds && s.kinds[cb].Timeout? {
          var call := s.kinds[cb].call;
          CancelKeeps(HeadTaken(s).io, call.fd, call.event, willing);
        }
    }
  }

  /** The step in which the fiber is switched to. */
  predicate Resumes(s: System, step: Step, f: nat) {
    step.Take? && s.io.queue != [] && s.io.queue[0] == RunFiber(f)
  }

  /** A parked fiber stays as it is until it is switched to. */
  lemma ParkedStays(s: System, step: Step, f: nat)
    requires Inv(s) && Enabled(s, step) && f in s.fibers && s.fibers[f].Parked() && !Resumes(s, step, f)
    ensures f in Next(s, step).fibers && Next(s, step).fibers[f] == s.fibers[f]
    ensures s.canceled <= Next(s, step).canceled
  {
    if step.Take? {
      TakeStays(s, step.f, step.willing, f);
    } else {
      OtherStays(s, step, f);
    }
  }

  lemma TakeStays(s: System, g: nat, willing: bool, f: nat)
    requires Enabled(s, Take(g, willing)) && f in s.fibers && s.fibers[f].Parked() && s.io.queue[0] != RunFiber(f)
    ensures f in Next(s, Take(g, willing)).fibers && Next(s, Take(g, willing)).fibers[f] == s.fibers[f]
    ensures s.canceled <= Next(s, Take(g, willing)).canceled
  {
  }

  lemma OtherStays(s: System, step: Step, f: nat)
    requires Enabled(s, step) && !step.Take? && f in s.fibers && s.fibers[f].Parked()
    ensures f in Next(s, step).fibers && Next(s, step).fibers[f] == s.fibers[f]
    ensures Next(s, step).canceled == s.canceled
  {
  }

  // ------------------------------------------------------------------ nobody is stranded

  /** A fiber parked in do_io is registered for the event of its very call, or it is queued. */
  ghost predicate Findable(s: System) {
    forall f :: f in s.fibers && s.fibers[f].InDoIo? ==>
                  Registered(s.io, s.fibers[f].waiting, f) || RunFiber(f) in s.io.queue
  }

  lemma SameFindable(s: System, s1: System)
    requires Findable(s) && Keeps(s.io, s1.io)
    requires forall f :: f in s1.fibers && s1.fibers[f].InDoIo? ==> f in s.fibers && s.fibers[f] == s1.fibers[f]
    ensures Findable(s1)
  {
  }

  lemma WaitFindable(s: System, timer: Option<nat>, willing: bool)
    requires Inv(s) && Findable(s) && InCall(s) && s.fibers[s.cur.value].call.value.fd != |s.io.fds|
    ensures Findable(Waited(s, timer, willing))
  {
    var call := s.fibers[s.cur.value].call.value;
    AddKeeps(s.io, call.fd, call.event, None, s.cur.value, willing);
  }

  lemma HeadFindable(s: System)
    requires Findable(s) && s.io.queue != []
    requires s.io.queue[0].RunFiber? ==>
               s.io.queue[0].fiber in s.fibers ==> !s.fibers[s.io.queue[0].fiber].InDoIo?
    ensures Findable(HeadTaken(s))
  {
  }

  lemma TakeFindable(s: System, f: nat, willing: bool)
    requires Inv(s) && Findable(s) && Enabled(s, Take(f, willing))
    ensures Findable(Next(s, Take(f, willing)))
  {
    var s1 := Next(s, Take(f, willing));
    TakeKeeps(s, f, willing);
    match s.io.queue[0] {
      case RunFiber(g) =>
        forall h | h in s1.fibers && s1.fibers[h].InDoIo?
          ensures Registered(s1.io, s1.fibers[h].waiting, h) || RunFiber(h) in s1.io.queue
        {
          assert h in s.fibers && s.fibers[h] == s1.fibers[h];
          assert RunFiber(h) in s.io.queue && h != g ==> RunFiber(h) in s.io.queue[1..];
        }
      case RunCb(_) =>
        HeadFindable(s);
        SameFindable(HeadTaken(s), s1);
    }
  }

  lemma StepFindable(s: System, step: Step)
    requires Inv(s) && Findable(s) && Enabled(s, step)
    ensures Findable(Next(s, step))
  {
    if step.Take? {
      TakeFindable(s, step.f, step.willing);
    } else if step.Wait? {
      WaitFindable(s, None, step.willing);
    } else if step.WaitTimed? {
      WaitFindable(s, Some(step.cb), step.willing);
    } else {
      OtherFindable(s, step, Next(s, step));
    }
  }

  lemma OtherFindable(s: System, step: Step, s1: System)
    requires Inv(s) && Findable(s) && Enabled(s, step) && !step.Take? && !step.Wait? && !step.WaitTimed? && s1 == Next(s, step)
    ensures Findable(s1)
  {
    StepKeeps(s, step);
    OthersWait(s, step);
    SameFindable(s, s1);
  }

  lemma OthersWait(s: System, step: Step)
    requires Enabled(s, step) && !step.Take? && !step.Wait? && !step.WaitTimed?
    ensures forall f :: f in Next(s, step).fibers && Next(s, step).fibers[f].InDoIo? ==>
              f in s.fibers && s.fibers[f] == Next(s, step).fibers[f]
  {
  }

  lemma {:induction false} RunFindable(s: System, steps: seq<Step>)
    requires Inv(s) && Findable(s) && IsRun(s, steps)
    ensures Inv(Protocol.Run(s, steps)) && Findable(Protocol.Run(s, steps))
    decreases |steps|
  {
    if steps != [] {
      StepInv(s, steps[0]);
      StepFindable(s, steps[0]);
      RunFindable(Next(s, steps[0]), steps[1..]);
    }
  }

  /** In every reachable state, a fiber that is parked in do_io is registered, with the kernel watching,
      for just the descriptor and the event of its call, or it is in the queue. */
  lemma NobodyStranded(steps: seq<Step>, f: nat, call: Call, timer: Option<nat>)
    requires IsRun(Init(), steps)
    requires var s := Protocol.Run(Init(), steps); f in s.fibers && s.fibers[f] == InDoIo(call, timer)
    ensures var s := Protocol.Run(Init(), steps);
      || RunFiber(f) in s.io.queue
      || (Registered(s.io, call, f) && call.fd in s.io.kernel && s.io.kernel[call.fd].Has(call.event))
  {
    InitInv();
    RunFindable(Init(), steps);
    var s := Protocol.Run(Init(), steps);
    if Registered(s.io, call, f) {
      assert FdOk(s.io, call.fd);
    }
  }

  // ------------------------------------------------------------------ whoever is queued is resumed

  /** How many tasks a run takes. */
  function Takes(steps: seq<Step>): nat {
    if steps == [] then 0 else (if steps[0].Take? then 1 else 0) + Takes(steps[1..])
  }

  /** The queue is first in, first out: an entry moves up by one whenever a task is taken. */
  lemma EntryMoves(s: System, step: Step, k: nat)
    requires Inv(s) && Enabled(s, step) && k < |s.io.queue| && (step.Take? ==> k > 0)
    ensures var k1 := if step.Take? then k - 1 else k;
      k1 < |Next(s, step).io.queue| && Next(s, step).io.queue[k1] == s.io.queue[k]
  {
    if step.Take? {
      TakeKeeps(s, step.f, step.willing);
    } else {
      StepKeeps(s, step);
    }
  }

  lemma RunCons(s: System, steps: seq<Step>, j: nat)
    requires IsRun(s, steps) && j < |steps| && IsRun(Next(s, steps[0]), steps[1..][..j])
    ensures IsRun(s, steps[..j + 1]) && Protocol.Run(s, steps[..j + 1]) == Protocol.Run(Next(s, steps[0]), steps[1..][..j])
  {
    assert steps[..j + 1][0] == steps[0] && steps[..j + 1][1..] == steps[1..][..j];
  }

  lemma WaitsOn(s: System, step: Step, t: Task, k: nat, f: nat, s1: System) returns (k1: nat)
    requires Inv(s) && Enabled(s, step) && s1 == Next(s, step) && f in s.fibers && s.fibers[f].Parked()
    requires k < |s.io.queue| && s.io.queue[k] == t && (step.Take? ==> s.io.queue[0] != t && s.io.queue[0] != RunFiber(f))
    ensures Inv(s1) && f in s1.fibers && s1.fibers[f] == s.fibers[f] && s.canceled <= s1.canceled
    ensures k1 < |s1.io.queue| && s1.io.queue[k1] == t && k1 == if step.Take? then k - 1 else k
  {
    StepInv(s, step);
    ParkedStays(s, step, f);
    EntryMoves(s, step, k);
    k1 := if step.Take? then k - 1 else k;
  }

  /** A queued task is taken once all tasks in front of it have been taken, whatever else happens; and a
      parked fiber is still as it was, unless it has been switched to before. */
  lemma {:induction false} TaskIsTaken(s: System, steps: seq<Step>, t: Task, k: nat, f: nat) returns (i: nat, m: System)
    requires Inv(s) && IsRun(s, steps) && f in s.fibers && s.fibers[f].Parked()
    requires k < |s.io.queue| && s.io.queue[k] == t && Takes(steps) > k
    ensures i < |steps| && IsRun(s, steps[..i]) && m == Protocol.Run(s, steps[..i])
    ensures Inv(m) && steps[i].Take? && Enabled(m, steps[i]) && (m.io.queue[0] == t || m.io.queue[0] == RunFiber(f))
    ensures f in m.fibers && m.fibers[f] == s.fibers[f] && s.canceled <= m.canceled
    decreases |steps|
  {
    if steps[0].Take? && (s.io.queue[0] == t || s.io.queue[0] == RunFiber(f)) {
      i, m := 0, s;
      assert steps[..0] == [];
    } else {
      var s1 := Next(s, steps[0]);
      var k1 := WaitsOn(s, steps[0], t, k, f, s1);
      i, m := TaskIsTaken(s1, steps[1..], t, k1, f);
      RunCons(s, steps, i);
      i := i + 1;
    }
  }

  /** A queued fiber is switched to, as it was when it parked. */
  lemma QueuedIsResumed(s: System, steps: seq<Step>, f: nat, k: nat) returns (i: nat)
    requires Inv(s) && IsRun(s, steps) && f in s.fibers && s.fibers[f].Parked()
    requires k < |s.io.queue| && s.io.queue[k] == RunFiber(f) && Takes(steps) > k
    ensures i < |steps| && IsRun(s, steps[..i])
    ensures var m := Protocol.Run(s, steps[..i]);
      && Inv(m) && Enabled(m, steps[i]) && Resumes(m, steps[i], f)
      && f in m.fibers && m.fibers[f] == s.fibers[f] && s.canceled <= m.canceled
  {
    var m;
    i, m := TaskIsTaken(s, steps, RunFiber(f), k, f);
  }

  /** What a fiber does when it is switched to: in do_io it has cancelled its timer, and leaves the call
      if ETIMEDOUT is noted for it, or else tries again. */
  lemma ResumedFiber(s: System, step: Step, f: nat)
    requires Inv(s) && Enabled(s, step) && Resumes(s, step, f)
    ensures var s1 := Next(s, step);
      && f in s.fibers && s.fibers[f].Parked() && s1.cur == Some(f) && f in s1.fibers
      && (s.fibers[f].InDoIo? ==>
            && s1.fibers[f] == Running(if s.fibers[f].waiting.id in s.canceled then None else Some(s.fibers[f].waiting))
            && (s.fibers[f].timer.Some? ==> RunCb(s.fibers[f].timer.value) !in s1.timers))
      && (!s.fibers[f].InDoIo? ==> s1.fibers[f] == Running(None))
  {
    ResumeInv(s, f);
    if s.fibers[f].InDoIo? && s.fibers[f].timer.Some? {
      WithoutOthers(s.timers, RunCb(s.fibers[f].timer.value));
    }
  }

  // ------------------------------------------------------------------ timeouts

  /** The timeout callback of a call in which the fiber is still registered comes to the head of the
      queue.  It notes ETIMEDOUT; and the fiber is taken out and queued, behind all tasks, if and only if
      the kernel does not refuse and ETIMEDOUT had not been noted before. */
  lemma TimeoutTaken(s: System, g: nat, willing: bool, cb: nat, f: nat, call: Call, timer: Option<nat>, s1: System)
    requires Inv(s) && Enabled(s, Take(g, willing)) && s1 == Next(s, Take(g, willing))
    requires s.io.queue[0] == RunCb(cb) && cb in s.kinds && s.kinds[cb] == Timeout(call)
    requires f in s.fibers && s.fibers[f] == InDoIo(call, timer) && Registered(s.io, call, f)
    ensures call.id in s1.canceled && s1.fibers == s.fibers && s1.timers == s.timers
    ensures if willing && call.id !in s.canceled
            then s1.io.queue == s.io.queue[1..] + [RunFiber(f)] && !Registered(s1.io, call, f)
            else s1.io.queue == s.io.queue[1..] && Registered(s1.io, call, f)
  {
    var io0 := HeadTaken(s).io;
    QueueValid(s.io, io0.queue);
    assert Alive(HeadTaken(s), call.id);
    CancelWakes(io0, call.fd, call.event, willing);
    if willing && call.id !in s.canceled {
      var io1 := Cancelled(io0, call.fd, call.event, willing).0;
      assert io1.queue == io0.queue + io1.queue[|io0.queue|..];
      assert io1.queue[|io0.queue|..] == [RunFiber(f)];
    }
  }

  /** A timeout that comes when no fiber is in its call any more changes nothing. */
  lemma LateTimeout(s: System, g: nat, willing: bool, cb: nat)
    requires Inv(s) && Enabled(s, Take(g, willing)) && s.io.queue[0] == RunCb(cb) && cb in s.kinds && s.kinds[cb].Timeout?
    requires forall f :: f in s.fibers ==> ActiveCall(s.fibers[f]) != Some(s.kinds[cb].call.id)
    ensures Next(s, Take(g, willing)) == HeadTaken(s)
  {
    forall f | f in s.fibers
      ensures !(s.fibers[f].InDoIo? && s.fibers[f].waiting.id == s.kinds[cb].call.id)
    {
      assert ActiveCall(s.fibers[f]) != Some(s.kinds[cb].call.id);
    }
    assert !Alive(HeadTaken(s), s.kinds[cb].call.id);
  }

  /** A timeout takes effect: once its callback has run, the fiber is switched to after the tasks that
      were queued in front of it, and leaves its call with its timer cancelled. */
  lemma TimeoutEndsCall(steps: seq<Step>, s: System, g: nat, cb: nat, f: nat, call: Call, timer: Option<nat>,
                        s1: System, more: seq<Step>) returns (i: nat)
    requires IsRun(Init(), steps) && s == Protocol.Run(Init(), steps)
    requires Enabled(s, Take(g, true)) && s1 == Next(s, Take(g, true)) && call.id !in s.canceled
    requires s.io.queue[0] == RunCb(cb) && cb in s.kinds && s.kinds[cb] == Timeout(call)
    requires f in s.fibers && s.fibers[f] == InDoIo(call, timer) && Registered(s.io, call, f)
    requires IsRun(s1, more) && Takes(more) >= |s.io.queue|
    ensures i < |more| && IsRun(s1, more[..i])
    ensures var m := Protocol.Run(s1, more[..i]);
      && Enabled(m, more[i]) && Resumes(m, more[i], f) && f in m.fibers && m.fibers[f] == InDoIo(call, timer)
      && var m1 := Next(m, more[i]);
         && m1.cur == Some(f) && f in m1.fibers && m1.fibers[f] == Running(None)
         && (timer.Some? ==> RunCb(timer.value) !in m1.timers)
  {
    InitInv();
    RunInv(Init(), steps);
    TimeoutTaken(s, g, true, cb, f, call, timer, s1);
    StepInv(s, Take(g, true));
    i := QueuedIsResumed(s1, more, f, |s1.io.queue| - 1);
    ResumedFiber(Protocol.Run(s1, more[..i]), more[i], f);
  }

  /** A timer of do_io that expires is acted upon once the tasks in front of its callback have been taken:
      either its fiber has come to the head of the queue before, or the callback notes ETIMEDOUT and, with
      a kernel that does not refuse, the fiber is in the queue. */
  lemma ExpiredTimerActs(steps: seq<Step>, s: System, cb: nat, f: nat, call: Call, s1: System, more: seq<Step>) returns (i: nat)
    requires IsRun(Init(), steps) && s == Protocol.Run(Init(), steps)
    requires Enabled(s, Expire(cb)) && s1 == Next(s, Expire(cb)) && cb in s.kinds && s.kinds[cb] == Timeout(call)
    requires f in s.fibers && s.fibers[f] == InDoIo(call, Some(cb))
    requires IsRun(s1, more) && Takes(more) > |s.io.queue|
    ensures i < |more| && IsRun(s1, more[..i])
    ensures var m := Protocol.Run(s1, more[..i]);
      && Enabled(m, more[i]) && more[i].Take? && f in m.fibers && m.fibers[f] == InDoIo(call, Some(cb))
      && (Resumes(m, more[i], f)
          || (&& m.io.queue[0] == RunCb(cb) && call.id in Next(m, more[i]).canceled
              && (more[i].willing && call.id !in m.canceled ==> RunFiber(f) in Next(m, more[i]).io.queue)))
  {
    InitInv();
    RunFindable(Init(), steps);
    StepInv(s, Expire(cb));
    StepFindable(s, Expire(cb));
    var m;
    i, m := TaskIsTaken(s1, more, RunCb(cb), |s.io.queue|, f);
    if !Resumes(m, more[i], f) {
      RunFindable(s1, more[..i]);
      KindKept(s1, more[..i], cb);
      TimeoutTakenFindable(m, more[i].f, more[i].willing, cb, f, call, Some(cb), Next(m, more[i]));
    }
  }

  lemma {:induction false} KindKept(s: System, steps: seq<Step>, cb: nat)
    requires Inv(s) && IsRun(s, steps) && cb in s.kinds
    ensures cb in Protocol.Run(s, steps).kinds && Protocol.Run(s, steps).kinds[cb] == s.kinds[cb]
    decreases |steps|
  {
    if steps != [] {
      StepInv(s, steps[0]);
      KindsStay(s, steps[0], cb);
      KindKept(Next(s, steps[0]), steps[1..], cb);
    }
  }

  lemma TimeoutTakenFindable(s: System, g: nat, willing: bool, cb: nat, f: nat, call: Call, timer: Option<nat>, s1: System)
    requires Inv(s) && Findable(s) && Enabled(s, Take(g, willing)) && s1 == Next(s, Take(g, willing))
    requires s.io.queue[0] == RunCb(cb) && cb in s.kinds && s.kinds[cb] == Timeout(call)
    requires f in s.fibers && s.fibers[f] == InDoIo(call, timer)
    ensures call.id in s1.canceled && s1.canceled <= s.canceled + {call.id} && s1.fibers == s.fibers
    ensures willing && call.id !in s.canceled ==> RunFiber(f) in s1.io.queue
  {
    if Registered(s.io, call, f) {
      TimeoutTaken(s, g, willing, cb, f, call, timer, s1);
    } else {
      TakeKeeps(s, g, willing);
      assert RunFiber(f) in s.io.queue[1..];
    }
    assert Alive(HeadTaken(s), call.id);
  }

  // ------------------------------------------------------------------ a kernel that never refuses

  function ActiveRecord(pc: Pc): Option<Call> {
    match pc
    case Running(call) => call
    case InDoIo(call, _) => Some(call)
    case _ => None
  }

  /** Whoever waits in a call with ETIMEDOUT is queued, and nobody runs in one. */
  predicate Prompt(fibers: map<nat, Pc>, canceled: set<nat>, queue: seq<Task>) {
    forall f :: f in fibers && ActiveRecord(fibers[f]).Some? && ActiveRecord(fibers[f]).value.id in canceled ==>
                  fibers[f].InDoIo? && RunFiber(f) in queue
  }

  predicate IsNamed(call: Call, pc: Pc) {
    ActiveRecord(pc).Some? && ActiveRecord(pc).value.id == call.id ==> ActiveRecord(pc).value == call
  }

  /** A timeout names the call of its fiber. */
  predicate Named(fibers: map<nat, Pc>, kinds: map<nat, Callback>) {
    forall cb, f :: cb in kinds && kinds[cb].Timeout? && f in fibers ==> IsNamed(kinds[cb].call, fibers[f])
  }

  ghost predicate InTime(s: System) {
    Findable(s) && CallTimers(s) && Prompt(s.fibers, s.canceled, s.io.queue) && Named(s.fibers, s.kinds)
  }

  /** Every callback that may cancel an event finds the kernel willing. */
  predicate Willing(steps: seq<Step>) {
    forall i :: 0 <= i < |steps| && steps[i].Take? ==> steps[i].willing
  }

  /** Changing one fiber that is in no call afterwards, or goes on with its call. */
  lemma OneInTime(fibers: map<nat, Pc>, kinds: map<nat, Callback>, canceled: set<nat>, queue: seq<Task>, f: nat, pc: Pc)
    requires Prompt(fibers, canceled, queue) && Named(fibers, kinds)
    requires ActiveRecord(pc).Some? ==> f in fibers && ActiveRecord(fibers[f]) == ActiveRecord(pc) && ActiveRecord(pc).value.id !in canceled
    ensures Prompt(fibers[f := pc], canceled, queue) && Named(fibers[f := pc], kinds)
  {
  }

  /** Timeouts of other calls may come, and tasks may go that are not the fibers of such calls. */
  lemma OtherInTime(fibers: map<nat, Pc>, kinds: map<nat, Callback>, kinds1: map<nat, Callback>, canceled: set<nat>,
                    queue: seq<Task>, queue1: seq<Task>)
    requires Prompt(fibers, canceled, queue) && Named(fibers, kinds)
    requires forall f :: RunFiber(f) in queue ==> RunFiber(f) in queue1
    requires forall cb :: cb in kinds1 && kinds1[cb].Timeout? && (cb !in kinds || kinds[cb] != kinds1[cb]) ==>
               forall f :: f in fibers ==> IsNamed(kinds1[cb].call, fibers[f])
    ensures Prompt(fibers, canceled, queue1) && Named(fibers, kinds1)
  {
  }

  lemma RunningInTime(s: System, step: Step)
    requires Inv(s) && InTime(s) && Enabled(s, step)
    requires step.Return? || step.Sleep? || step.Requeue? || step.Finish?
    ensures var s1 := Next(s, step); Prompt(s1.fibers, s1.canceled, s1.io.queue) && Named(s1.fibers, s1.kinds)
  {
    var s1 := Next(s, step);
    OtherInTime(s.fibers, s.kinds, s1.kinds, s.canceled, s.io.queue, s1.io.queue);
    OneInTime(s.fibers, s1.kinds, s.canceled, s1.io.queue, s.cur.value, s1.fibers[s.cur.value]);
  }

  lemma EnterInTime(s: System, fd: nat, e: Event)
    requires Inv(s) && InTime(s) && Enabled(s, Enter(fd, e))
    ensures var s1 := Next(s, Enter(fd, e)); Prompt(s1.fibers, s1.canceled, s1.io.queue) && Named(s1.fibers, s1.kinds)
  {
    CallsStartClean(s, fd, e);
  }

  lemma WaitInTime(s: System, timer: Option<nat>, willing: bool)
    requires Inv(s) && InTime(s) && InCall(s) && s.fibers[s.cur.value].call.value.fd != |s.io.fds|
    requires timer.Some? ==> timer.value !in s.kinds
    ensures var s1 := Waited(s, timer, willing); Prompt(s1.fibers, s1.canceled, s1.io.queue) && Named(s1.fibers, s1.kinds)
  {
    var me := s.cur.value;
    var call := s.fibers[me].call.value;
    var s1 := Waited(s, timer, willing);
    WaitKeeps(s, timer, willing);
    forall f | f in s.fibers && ActiveRecord(s.fibers[f]).Some? && ActiveRecord(s.fibers[f]).value.id == call.id
      ensures f == me
    {
      assert ActiveCall(s.fibers[f]) == ActiveCall(s.fibers[me]);
    }
    OtherInTime(s.fibers, s.kinds, s1.kinds, s.canceled, s.io.queue, s1.io.queue);
    OneInTime(s.fibers, s1.kinds, s.canceled, s1.io.queue, me, s1.fibers[me]);
  }

  lemma OutsideInTime(s: System, step: Step)
    requires Inv(s) && InTime(s) && Enabled(s, step)
    requires step.Spawn? || step.Push? || step.AddTimer? || step.CancelTimer? || step.WatchCb? || step.Unwatch? || step.Cancel?
             || step.CancelBoth? || step.GoIdle? || step.Expire? || step.DispatchBatch? || step.LeaveIdle?
    ensures var s1 := Next(s, step); Prompt(s1.fibers, s1.canceled, s1.io.queue) && Named(s1.fibers, s1.kinds)
  {
    var s1 := Next(s, step);
    StepKeeps(s, step);
    OtherInTime(s.fibers, s.kinds, s1.kinds, s.canceled, s.io.queue, s1.io.queue);
    if step.Spawn? {
      OneInTime(s.fibers, s1.kinds, s.canceled, s1.io.queue, step.f, Ready);
    }
  }

  lemma ResumeInTime(s: System, g: nat, f: nat, willing: bool)
    requires Inv(s) && InTime(s) && Enabled(s, Take(g, willing)) && s.io.queue[0] == RunFiber(f)
    ensures var s1 := Next(s, Take(g, willing)); Prompt(s1.fibers, s1.canceled, s1.io.queue) && Named(s1.fibers, s1.kinds)
  {
    var s1 := Next(s, Take(g, willing));
    ResumedFiber(s, Take(g, willing), f);
    assert s1.fibers == s.fibers[f := s1.fibers[f]] && s1.kinds == s.kinds && s1.canceled == s.canceled;
    assert s1.io.queue == s.io.queue[1..];
  }

  lemma CallbackInTime(s: System, g: nat, cb: nat)
    requires Inv(s) && InTime(s) && Enabled(s, Take(g, true)) && s.io.queue[0] == RunCb(cb)
    ensures var s1 := Next(s, Take(g, true)); Prompt(s1.fibers, s1.canceled, s1.io.queue) && Named(s1.fibers, s1.kinds)
  {
    var s1 := Next(s, Take(g, true));
    TakeKeeps(s, g, true);
    assert forall f :: RunFiber(f) in s.io.queue ==> RunFiber(f) in s.io.queue[1..];
    OtherInTime(s.fibers, s.kinds, s1.kinds, s.canceled, s.io.queue, s1.io.queue);
    if cb in s.kinds {
      match s.kinds[cb] {
        case User(_) => OneInTime(s.fibers, s.kinds, s.canceled, s1.io.queue, g, Running(None));
        case Awaken(_) =>
        case Timeout(call) => TimeoutInTime(s, g, cb, call, s1);
      }
    }
  }

  lemma TimeoutInTime(s: System, g: nat, cb: nat, call: Call, s1: System)
    requires Inv(s) && InTime(s) && Enabled(s, Take(g, true)) && s1 == Next(s, Take(g, true))
    requires s.io.queue[0] == RunCb(cb) && cb in s.kinds && s.kinds[cb] == Timeout(call)
    requires Prompt(s.fibers, s.canceled, s1.io.queue)
    ensures Prompt(s1.fibers, s1.canceled, s1.io.queue) && Named(s1.fibers, s1.kinds)
  {
    forall f | f in s.fibers && ActiveRecord(s.fibers[f]).Some? && ActiveRecord(s.fibers[f]).value.id == call.id
      ensures s.fibers[f].InDoIo? && RunFiber(f) in s1.io.queue
    {
      assert ActiveRecord(s.fibers[f]).value == call;
      assert s.fibers[f].InDoIo?;
      if call.id !in s.canceled {
        TimeoutTakenFindable(s, g, true, cb, f, call, s.fibers[f].timer, s1);
      }
    }
  }

  lemma StepInTime(s: System, step: Step)
    requires Inv(s) && InTime(s) && Enabled(s, step) && (step.Take? ==> step.willing)
    ensures InTime(Next(s, step))
  {
    StepFindable(s, step);
    StepTimers(s, step);
    if step.Take? {
      match s.io.queue[0] {
        case RunFiber(f) => ResumeInTime(s, step.f, f, step.willing);
        case RunCb(cb) => CallbackInTime(s, step.f, cb);
      }
    } else if step.Enter? {
      EnterInTime(s, step.fd, step.e);
    } else if step.Wait? {
      WaitInTime(s, None, step.willing);
    } else if step.WaitTimed? {
      WaitInTime(s, Some(step.cb), step.willing);
    } else if step.Return? || step.Sleep? || step.Requeue? || step.Finish? {
      RunningInTime(s, step);
    } else {
      OutsideInTime(s, step);
    }
  }

  lemma {:induction false} RunInTime(s: System, steps: seq<Step>)
    requires Inv(s) && InTime(s) && IsRun(s, steps) && Willing(steps)
    ensures Inv(Protocol.Run(s, steps)) && InTime(Protocol.Run(s, steps))
    decreases |steps|
  {
    if steps != [] {
      StepInv(s, steps[0]);
      StepInTime(s, steps[0]);
      RunInTime(Next(s, steps[0]), steps[1..]);
    }
  }

  /** With a kernel that never refuses, nobody waits in a call for which ETIMEDOUT is noted without being
      in the queue: every timeout takes effect. */
  lemma TimeoutsAreInTime(steps: seq<Step>, f: nat, call: Call, timer: Option<nat>)
    requires IsRun(Init(), steps) && Willing(steps)
    requires var s := Protocol.Run(Init(), steps); f in s.fibers && s.fibers[f] == InDoIo(call, timer) && call.id in s.canceled
    ensures RunFiber(f) in Protocol.Run(Init(), steps).io.queue
  {
    InitInv();
    RunInTime(Init(), steps);
  }

  // ------------------------------------------------------------------ events and sleeps

  /** A reported event, or an error, queues the fiber that is registered for it. */
  lemma EventQueues(s: System, batch: seq<Entry>, k: nat, f: nat, call: Call, timer: Option<nat>, s1: System)
    requires Inv(s) && Enabled(s, DispatchBatch(batch)) && s1 == Next(s, DispatchBatch(batch))
    requires f in s.fibers && s.fibers[f] == InDoIo(call, timer) && Registered(s.io, call, f)
    requires k < |batch| && batch[k].fd == call.fd && batch[k].willing && Hits(batch[k], call.event)
    ensures RunFiber(f) in s1.io.queue && !Registered(s1.io, call, f) && s1.fibers == s.fibers && s1.canceled == s.canceled
  {
    BatchKeeps(s.io, batch);
  }

  /** The callback of a sleep queues its fiber behind all tasks. */
  lemma SleepQueues(s: System, g: nat, willing: bool, cb: nat, f: nat, s1: System)
    requires Inv(s) && Enabled(s, Take(g, willing)) && s1 == Next(s, Take(g, willing))
    requires s.io.queue[0] == RunCb(cb) && cb in s.kinds && s.kinds[cb] == Awaken(f)
    ensures s1.io.queue == s.io.queue[1..] + [RunFiber(f)] && s1.fibers == s.fibers
  {
  }

  /** A reported event takes effect: the fiber is switched to after the tasks in front of it, and tries
      its call again, unless ETIMEDOUT has been noted for it meanwhile. */
  lemma EventEndsWait(steps: seq<Step>, s: System, batch: seq<Entry>, k: nat, f: nat, call: Call, timer: Option<nat>,
                      s1: System, more: seq<Step>) returns (i: nat)
    requires IsRun(Init(), steps) && s == Protocol.Run(Init(), steps)
    requires Enabled(s, DispatchBatch(batch)) && s1 == Next(s, DispatchBatch(batch))
    requires f in s.fibers && s.fibers[f] == InDoIo(call, timer) && Registered(s.io, call, f)
    requires k < |batch| && batch[k].fd == call.fd && batch[k].willing && Hits(batch[k], call.event)
    requires IsRun(s1, more) && Takes(more) >= |s1.io.queue|
    ensures i < |more| && IsRun(s1, more[..i])
    ensures var m := Protocol.Run(s1, more[..i]);
      && Enabled(m, more[i]) && Resumes(m, more[i], f)
      && var m1 := Next(m, more[i]);
         && m1.cur == Some(f) && f in m1.fibers
         && m1.fibers[f] == Running(if call.id in m.canceled then None else Some(call))
  {
    InitInv();
    RunInv(Init(), steps);
    EventQueues(s, batch, k, f, call, timer, s1);
    StepInv(s, DispatchBatch(batch));
    var n: nat :| n < |s1.io.queue| && s1.io.queue[n] == RunFiber(f);
    i := QueuedIsResumed(s1, more, f, n);
    ResumedFiber(Protocol.Run(s1, more[..i]), more[i], f);
  }

  /** A sleep that has expired ends: the fiber goes on. */
  lemma SleepEnds(steps: seq<Step>, s: System, g: nat, willing: bool, cb: nat, f: nat, s1: System, more: seq<Step>)
    returns (i: nat)
    requires IsRun(Init(), steps) && s == Protocol.Run(Init(), steps)
    requires Enabled(s, Take(g, willing)) && s1 == Next(s, Take(g, willing))
    requires s.io.queue[0] == RunCb(cb) && cb in s.kinds && s.kinds[cb] == Awaken(f) && f in s.fibers && s.fibers[f] == InSleep
    requires IsRun(s1, more) && Takes(more) >= |s.io.queue|
    ensures i < |more| && IsRun(s1, more[..i])
    ensures var m := Protocol.Run(s1, more[..i]);
      && Enabled(m, more[i]) && Resumes(m, more[i], f)
      && var m1 := Next(m, more[i]);
         m1.cur == Some(f) && f in m1.fibers && m1.fibers[f] == Running(None)
  {
    InitInv();
    RunInv(Init(), steps);
    SleepQueues(s, g, willing, cb, f, s1);
    StepInv(s, Take(g, willing));
    i := QueuedIsResumed(s1, more, f, |s1.io.queue| - 1);
    ResumedFiber(Protocol.Run(s1, more[..i]), more[i], f);
  }
}

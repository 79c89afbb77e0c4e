/** The event registrations of src/IOManager.cc: which fiber or callback waits for which event of
    which file descriptor, what the kernel watches, and how many registrations are pending. */
module Events {

  import opened Common

  datatype Event = READ | WRITE

  /** A set of events. */
  datatype Mask = Mask(read: bool, write: bool)
  {
    predicate Has(e: Event) { if e == READ then read else write }
    predicate Empty() { !read && !write }
    function With(e: Event): Mask { if e == READ then Mask(true, write) else Mask(read, true) }
    function Minus(e: Event): Mask { if e == READ then Mask(false, write) else Mask(read, false) }
    function Bits(): nat { (if read then 1 else 0) + (if write then 1 else 0) }
    predicate Within(m: Mask) { (read ==> m.read) && (write ==> m.write) }
  }

  /** EventContext: the scheduler pointer, and the fiber or the callback to run. */
  datatype EventContext = EventContext(scheduler: bool, fiber: Option<nat>, cb: Option<nat>)

  const EMPTY := EventContext(false, None, None)

  datatype FdState = FdState(mask: Mask, read: EventContext, write: EventContext)
  {
    function Get(e: Event): EventContext { if e == READ then read else write }
    function Put(e: Event, c: EventContext): FdState {
      if e == READ then this.(read := c) else this.(write := c)
    }
  }

  const FRESH := FdState(Mask(false, false), EMPTY, EMPTY)

  datatype Task = RunFiber(fiber: nat) | RunCb(cb: nat)

  /** The registrations, the interest set of the kernel, the pending count and the queue of tasks. */
  datatype Io = Io(fds: seq<FdState>, kernel: map<nat, Mask>, pending: nat, queue: seq<Task>)

  // ------------------------------------------------------------------ the kernel

  /** epoll_ctl: adding fails for a descriptor that is there, changing and deleting for one that is
      not; and every call may fail for reasons of the kernel's own. */
  datatype Ctl = ADD | MOD | DEL

  function EpollCtl(kernel: map<nat, Mask>, op: Ctl, fd: nat, m: Mask, willing: bool): Option<map<nat, Mask>> {
    if !willing || (op == ADD) == (fd in kernel) then None
    else if op == DEL then Some(kernel - {fd})
    else Some(kernel[fd := m])
  }

  // ------------------------------------------------------------------ the operations

  /** What an operation returns, or how it goes wrong. */
  datatype Outcome = Ret(ok: bool) | OutOfBounds | AssertFailed

  /** resizeContext(fd * 1.5) */
  function Resized(fds: seq<FdState>, fd: nat): (r: seq<FdState>)
    ensures fds <= r
  {
    var n := fd + fd / 2;
    fds + seq(if n > |fds| then n - |fds| else 0, _ => FRESH)
  }

  /** addEvent: the waiter is the given callback, or else the running fiber. */
  function Added(io0: Io, fd: nat, e: Event, cb: Option<nat>, self: nat, willing: bool): (Io, Outcome) {
    var io := if fd > |io0.fds| then io0.(fds := Resized(io0.fds, fd)) else io0;
    if fd >= |io.fds| then (io, OutOfBounds) else
    var c := io.fds[fd];
    if c.mask.Has(e) then (io, Ret(false)) else
    var m := c.mask.With(e);
    match EpollCtl(io.kernel, if c.mask.Empty() then ADD else MOD, fd, m, willing)
    case None => (io, Ret(false))
    case Some(k) =>
      if c.Get(e) != EMPTY then (io, AssertFailed) else
      var w := if cb.Some? then EventContext(true, None, cb) else EventContext(true, Some(self), None);
      (io.(fds := io.fds[fd := c.(mask := m).Put(e, w)], kernel := k, pending := io.pending + 1), Ret(true))
  }

  /** The kernel call that all removals share. */
  function Shrink(io: Io, fd: nat, m: Mask, willing: bool): Option<map<nat, Mask>> {
    EpollCtl(io.kernel, if m.Empty() then DEL else MOD, fd, m, willing)
  }

  /** delEvent: the waiter is forgotten. */
  function Deleted(io: Io, fd: nat, e: Event, willing: bool): (Io, Outcome) {
    if fd >= |io.fds| || !io.fds[fd].mask.Has(e) then (io, Ret(false)) else
    var c := io.fds[fd];
    var m := c.mask.Minus(e);
    match Shrink(io, fd, m, willing)
    case None => (io, Ret(false))
    case Some(k) =>
      (io.(fds := io.fds[fd := c.(mask := m).Put(e, EMPTY)], kernel := k, pending := Less(io.pending)), Ret(true))
  }

  /** --m_pendingCnt on a size_t; the count is never 0 there, as PendingPositive shows. */
  function Less(n: nat): nat { if n == 0 then 0xFFFF_FFFF_FFFF_FFFF else n - 1 }

  /** triggerEvent: the fiber or else the callback moves to the queue and leaves the context. */
  function Triggered(c: FdState, e: Event): (FdState, seq<Task>) {
    var w := c.Get(e);
    var (w1, t) :=
      if w.fiber.Some? then (w.(fiber := None), [RunFiber(w.fiber.value)])
      else if w.cb.Some? then (w.(cb := None), [RunCb(w.cb.value)])
      else (w, []);
    (c.(mask := c.mask.Minus(e)).Put(e, w1.(scheduler := false)), t)
  }

  /** triggerEvent and the decrement that follows it. */
  function Trigger(io: Io, fd: nat, e: Event): Io
    requires fd < |io.fds|
  {
    var (c, t) := Triggered(io.fds[fd], e);
    io.(fds := io.fds[fd := c], pending := Less(io.pending), queue := io.queue + t)
  }

  /** cancelEvent: the waiter is queued as if the event had happened. */
  function Cancelled(io: Io, fd: nat, e: Event, willing: bool): (Io, Outcome) {
    if fd >= |io.fds| || !io.fds[fd].mask.Has(e) then (io, Ret(false)) else
    match Shrink(io, fd, io.fds[fd].mask.Minus(e), willing)
    case None => (io, Ret(false))
    case Some(k) => (Trigger(io.(kernel := k), fd, e), Ret(true))
  }

  /** The two triggers at the end of cancelAll and of the dispatch loop. */
  function TriggerAll(io: Io, fd: nat, m: Mask): Io
    requires fd < |io.fds|
  {
    var io1 := if m.read then Trigger(io, fd, READ) else io;
    if m.write then Trigger(io1, fd, WRITE) else io1
  }

  function CancelledAll(io: Io, fd: nat, willing: bool): (Io, Outcome) {
    if fd >= |io.fds| || io.fds[fd].mask.Empty() then (io, Ret(false)) else
    match EpollCtl(io.kernel, DEL, fd, Mask(false, false), willing)
    case None => (io, Ret(false))
    case Some(k) => (TriggerAll(io.(kernel := k), fd, io.fds[fd].mask), Ret(true))
  }

  /** What epoll_wait reports for a descriptor. */
  datatype Report = Report(events: Mask, error: bool)

  /** Errors count as the events that are waited for. */
  function Real(c: FdState, r: Report): Mask {
    if r.error then Mask(r.events.read || c.mask.read, r.events.write || c.mask.write) else r.events
  }

  /** One round of the dispatch loop of Idle.  The reported events are not masked with the registered
      ones, so that triggerEvent can be called for an event nobody registered. */
  function Dispatched(io: Io, fd: nat, r: Report, willing: bool): (Io, Outcome)
    requires fd < |io.fds|
  {
    var c := io.fds[fd];
    var hit := Real(c, r);
    if !(hit.read && c.mask.read) && !(hit.write && c.mask.write) then (io, Ret(false)) else
    var left := Mask(c.mask.read && !hit.read, c.mask.write && !hit.write);
    match Shrink(io, fd, left, willing)
    case None => (io, Ret(false))
    case Some(k) =>
      if !hit.Within(c.mask) then (io, AssertFailed) else (TriggerAll(io.(kernel := k), fd, hit), Ret(true))
  }

  // ------------------------------------------------------------------ what every operation keeps

  /** The number of armed bits. */
  function Armed(fds: seq<FdState>): nat {
    if fds == [] then 0 else Armed(fds[..|fds| - 1]) + fds[|fds| - 1].mask.Bits()
  }

  /** A bit is set exactly when its context names a scheduler and either a fiber or a callback. */
  predicate ContextOk(c: FdState, e: Event) {
    if c.mask.Has(e) then c.Get(e).scheduler && c.Get(e).fiber.Some? != c.Get(e).cb.Some?
    else c.Get(e) == EMPTY
  }

  predicate FdOk(io: Io, fd: nat)
    requires fd < |io.fds|
  {
    var c := io.fds[fd];
    && ContextOk(c, READ) && ContextOk(c, WRITE)
    && (fd in io.kernel <==> !c.mask.Empty())
    && (fd in io.kernel ==> io.kernel[fd] == c.mask)
  }

  /** Kernel mirror, context discipline and accounting. */
  predicate Valid(io: Io) {
    && |io.fds| >= 64
    && (forall fd :: 0 <= fd < |io.fds| ==> FdOk(io, fd))
    && (forall fd :: fd in io.kernel ==> fd < |io.fds|)
    && io.pending == Armed(io.fds)
  }

  /** The state the constructor leaves behind. */
  function Initial(): Io {
    Io(seq(64, _ => FRESH), map[], 0, [])
  }

  lemma {:induction false} ArmedUpdate(fds: seq<FdState>, i: nat, c: FdState)
    requires i < |fds|
    ensures Armed(fds[i := c]) == Armed(fds) - fds[i].mask.Bits() + c.mask.Bits()
    ensures Armed(fds) >= fds[i].mask.Bits()
    decreases |fds|
  {
    var last := |fds| - 1;
    if i < last {
      assert fds[i := c][..last] == fds[..last][i := c];
      ArmedUpdate(fds[..last], i, c);
    } else {
      assert fds[i := c][..last] == fds[..last];
    }
  }

  lemma {:induction false} ArmedFresh(fds: seq<FdState>, n: nat)
    ensures Armed(fds + seq(n, _ => FRESH)) == Armed(fds)
    decreases n
  {
    var s := fds + seq(n, _ => FRESH);
    if n == 0 {
      assert s == fds;
    } else {
      assert s[..|s| - 1] == fds + seq(n - 1, _ => FRESH);
      ArmedFresh(fds, n - 1);
    }
  }

  lemma InitialValid()
    ensures Valid(Initial())
  {
    ArmedFresh([], 64);
    assert [] + seq(64, _ => FRESH) == seq(64, _ => FRESH);
  }

  lemma ResizedValid(io: Io, fd: nat)
    requires Valid(io)
    ensures Valid(io.(fds := Resized(io.fds, fd)))
    ensures fd > |io.fds| ==> fd < |Resized(io.fds, fd)|
  {
    ArmedFresh(io.fds, |Resized(io.fds, fd)| - |io.fds|);
    var r := io.(fds := Resized(io.fds, fd));
    forall k | 0 <= k < |r.fds| ensures FdOk(r, k) {
      assert k < |io.fds| ==> FdOk(io, k) && r.fds[k] == io.fds[k];
    }
  }

  /** Changing one context, one kernel entry and the count together. */
  lemma OneChanged(io: Io, fd: nat, c: FdState, kernel: map<nat, Mask>, pending: nat, queue: seq<Task>)
    requires Valid(io) && fd < |io.fds| && ContextOk(c, READ) && ContextOk(c, WRITE)
    requires kernel == if c.mask.Empty() then io.kernel - {fd} else io.kernel[fd := c.mask]
    requires pending == io.pending - io.fds[fd].mask.Bits() + c.mask.Bits()
    ensures Valid(Io(io.fds[fd := c], kernel, pending, queue))
  {
    var r := Io(io.fds[fd := c], kernel, pending, queue);
    ArmedUpdate(io.fds, fd, c);
    forall k | 0 <= k < |r.fds| ensures FdOk(r, k) {
      assert FdOk(io, k);
    }
  }

  lemma AddEventValid(io: Io, fd: nat, e: Event, cb: Option<nat>, self: nat, willing: bool)
    requires Valid(io)
    ensures Valid(Added(io, fd, e, cb, self, willing).0)
    ensures var o := Added(io, fd, e, cb, self, willing).1;
      o != AssertFailed && (o == OutOfBounds <==> fd == |io.fds|)
  {
    ResizedValid(io, fd);
    var io1 := if fd > |io.fds| then io.(fds := Resized(io.fds, fd)) else io;
    if fd < |io1.fds| {
      assert FdOk(io1, fd);
      var r := Added(io, fd, e, cb, self, willing);
      if r.1 == Ret(true) {
        OneChanged(io1, fd, r.0.fds[fd], r.0.kernel, r.0.pending, r.0.queue);
      }
    }
  }

  /** A set bit is counted, so the count can be decremented. */
  lemma PendingPositive(io: Io, fd: nat)
    requires Valid(io) && fd < |io.fds|
    ensures io.pending >= io.fds[fd].mask.Bits()
  {
    ArmedUpdate(io.fds, fd, io.fds[fd]);
  }

  lemma DelEventValid(io: Io, fd: nat, e: Event, willing: bool)
    requires Valid(io)
    ensures Valid(Deleted(io, fd, e, willing).0) && Deleted(io, fd, e, willing).1.Ret?
  {
    var r := Deleted(io, fd, e, willing);
    if r.1 == Ret(true) {
      assert FdOk(io, fd);
      PendingPositive(io, fd);
      OneChanged(io, fd, r.0.fds[fd], r.0.kernel, r.0.pending, r.0.queue);
    }
  }

  lemma CancelEventValid(io: Io, fd: nat, e: Event, willing: bool)
    requires Valid(io)
    ensures Valid(Cancelled(io, fd, e, willing).0) && Cancelled(io, fd, e, willing).1.Ret?
  {
    var r := Cancelled(io, fd, e, willing);
    if r.1 == Ret(true) {
      assert FdOk(io, fd);
      PendingPositive(io, fd);
      OneChanged(io, fd, r.0.fds[fd], r.0.kernel, r.0.pending, r.0.queue);
    }
  }

  /** Triggering some of the registered events of one descriptor. */
  lemma TriggerAllValid(io: Io, fd: nat, m: Mask, kernel: map<nat, Mask>)
    requires Valid(io) && fd < |io.fds| && m.Within(io.fds[fd].mask)
    requires var left := Mask(io.fds[fd].mask.read && !m.read, io.fds[fd].mask.write && !m.write);
      kernel == if left.Empty() then io.kernel - {fd} else io.kernel[fd := left]
    ensures Valid(TriggerAll(io.(kernel := kernel), fd, m))
  {
    var r := TriggerAll(io.(kernel := kernel), fd, m);
    assert FdOk(io, fd);
    PendingPositive(io, fd);
    assert r.fds == io.fds[fd := r.fds[fd]];
    OneChanged(io, fd, r.fds[fd], r.kernel, r.pending, r.queue);
  }

  lemma CancelAllValid(io: Io, fd: nat, willing: bool)
    requires Valid(io)
    ensures Valid(CancelledAll(io, fd, willing).0) && CancelledAll(io, fd, willing).1.Ret?
    ensures CancelledAll(io, fd, willing).1 == Ret(true) ==> CancelledAll(io, fd, willing).0.fds[fd].mask.Empty()
  {
    var r := CancelledAll(io, fd, willing);
    if r.1 == Ret(true) {
      assert FdOk(io, fd);
      TriggerAllValid(io, fd, io.fds[fd].mask, io.kernel - {fd});
    }
  }

  /** Dispatching keeps everything; its assertion fails exactly when an event is reported together
      with a registered one without being registered itself, and the kernel call succeeds. */
  lemma DispatchValid(io: Io, fd: nat, r: Report, willing: bool)
    requires Valid(io) && fd < |io.fds|
    ensures Valid(Dispatched(io, fd, r, willing).0)
    ensures var c := io.fds[fd];
      Dispatched(io, fd, r, willing).1 == AssertFailed <==>
        willing && !r.events.Within(c.mask) && ((Real(c, r).read && c.mask.read) || (Real(c, r).write && c.mask.write))
  {
    assert FdOk(io, fd);
    var c := io.fds[fd];
    var hit := Real(c, r);
    var d := Dispatched(io, fd, r, willing);
    if d.1 == Ret(true) {
      var left := Mask(c.mask.read && !hit.read, c.mask.write && !hit.write);
      TriggerAllValid(io, fd, hit, if left.Empty() then io.kernel - {fd} else io.kernel[fd := left]);
    }
  }

  /** When the kernel reports what it was told to watch - and nothing has been cancelled between the
      report and the dispatch - the assertion holds. */
  lemma WatchedEventsAreSafe(io: Io, fd: nat, r: Report, willing: bool)
    requires Valid(io) && fd in io.kernel && r.events.Within(io.kernel[fd])
    ensures Dispatched(io, fd, r, willing).1 != AssertFailed
  {
    assert FdOk(io, fd);
    DispatchValid(io, fd, r, willing);
  }

  /** The dispatch that trips: both events of a descriptor are reported, and one of them is cancelled
      before the report is dispatched. */
  lemma StaleReportFails(io: Io, fd: nat)
    requires Valid(io) && fd < |io.fds| && io.fds[fd].mask == Mask(true, true)
    ensures Dispatched(Cancelled(io, fd, WRITE, true).0, fd, Report(Mask(true, true), false), true).1 == AssertFailed
  {
    assert FdOk(io, fd);
    CancelEventValid(io, fd, WRITE, true);
    DispatchValid(Cancelled(io, fd, WRITE, true).0, fd, Report(Mask(true, true), false), true);
  }

  // ------------------------------------------------------------------ who is woken

  /** What a waiter is when it is queued: its fiber, or else its callback. */
  predicate IsTaskOf(t: Task, w: EventContext) {
    match t
    case RunFiber(f) => w.fiber == Some(f)
    case RunCb(cb) => w.fiber == None && w.cb == Some(cb)
  }

  /** The waiters of these events of one descriptor, the reader first. */
  predicate AreWaiters(ts: seq<Task>, c: FdState, hits: Mask) {
    match (hits.read, hits.write)
    case (false, false) => ts == []
    case (true, false) => |ts| == 1 && IsTaskOf(ts[0], c.read)
    case (false, true) => |ts| == 1 && IsTaskOf(ts[0], c.write)
    case (true, true) => |ts| == 2 && IsTaskOf(ts[0], c.read) && IsTaskOf(ts[1], c.write)
  }

  /** These events of one descriptor are taken out; every other registration stays as it is. */
  predicate TakenOut(io: Io, io1: Io, fd: nat, hits: Mask)
    requires fd < |io.fds|
  {
    && |io1.fds| == |io.fds|
    && (forall g :: 0 <= g < |io.fds| && g != fd ==> io1.fds[g] == io.fds[g])
    && (hits.read ==> !io1.fds[fd].mask.read && io1.fds[fd].read == EMPTY)
    && (hits.write ==> !io1.fds[fd].mask.write && io1.fds[fd].write == EMPTY)
    && (!hits.read ==> io1.fds[fd].mask.read == io.fds[fd].mask.read && io1.fds[fd].read == io.fds[fd].read)
    && (!hits.write ==> io1.fds[fd].mask.write == io.fds[fd].mask.write && io1.fds[fd].write == io.fds[fd].write)
    && io1.pending == io.pending - hits.Bits()
  }

  /** These events of one descriptor are taken out, and their waiters are queued behind all tasks. */
  predicate Woken(io: Io, io1: Io, fd: nat, hits: Mask)
    requires fd < |io.fds|
  {
    TakenOut(io, io1, fd, hits) && io.queue <= io1.queue && AreWaiters(io1.queue[|io.queue|..], io.fds[fd], hits)
  }

  /** What triggering does for events that are registered. */
  lemma TriggerAllWakes(io: Io, fd: nat, m: Mask, kernel: map<nat, Mask>)
    requires Valid(io) && fd < |io.fds| && m.Within(io.fds[fd].mask)
    ensures Woken(io, TriggerAll(io.(kernel := kernel), fd, m), fd, m)
  {
    assert FdOk(io, fd);
    PendingPositive(io, fd);
    var c := io.fds[fd];
    var ts := (if m.read then Triggered(c, READ).1 else []) + (if m.write then Triggered(c, WRITE).1 else []);
    assert TriggerAll(io.(kernel := kernel), fd, m).queue == io.queue + ts;
  }

  /** addEvent registers the given callback, or else the running fiber, for just this event. */
  lemma AddRegisters(io: Io, fd: nat, e: Event, cb: Option<nat>, self: nat, willing: bool)
    requires Valid(io) && fd != |io.fds|
    ensures var (io1, o) := Added(io, fd, e, cb, self, willing);
      && fd < |io1.fds| && io1.queue == io.queue
      && (o == Ret(true) <==> willing && !(fd < |io.fds| && io.fds[fd].mask.Has(e)))
      && (o != Ret(true) ==> io1.pending == io.pending && io1.kernel == io.kernel && io.fds <= io1.fds)
      && (o == Ret(true) ==>
            && io1.pending == io.pending + 1 && io1.fds[fd].mask.Has(e) && io1.fds[fd].Get(e).scheduler
            && io1.fds[fd].Get(e).cb == cb && io1.fds[fd].Get(e).fiber == (if cb.Some? then None else Some(self))
            && (forall g, f :: 0 <= g < |io.fds| && (g != fd || f != e) ==>
                  io1.fds[g].Get(f) == io.fds[g].Get(f) && io1.fds[g].mask.Has(f) == io.fds[g].mask.Has(f)))
  {
    ResizedValid(io, fd);
    var io0 := if fd > |io.fds| then io.(fds := Resized(io.fds, fd)) else io;
    assert FdOk(io0, fd);
  }

  /** delEvent forgets one waiter, and queues nobody. */
  lemma DeleteForgets(io: Io, fd: nat, e: Event, willing: bool)
    requires Valid(io)
    ensures var (io1, o) := Deleted(io, fd, e, willing);
      && (o == Ret(true) <==> fd < |io.fds| && io.fds[fd].mask.Has(e) && willing)
      && (o != Ret(true) ==> io1 == io)
      && (o == Ret(true) ==> TakenOut(io, io1, fd, Mask(e == READ, e == WRITE)) && io1.queue == io.queue)
  {
    if fd < |io.fds| {
      assert FdOk(io, fd);
      PendingPositive(io, fd);
    }
  }

  /** cancelEvent takes one waiter out and queues it. */
  lemma CancelWakes(io: Io, fd: nat, e: Event, willing: bool)
    requires Valid(io)
    ensures var (io1, o) := Cancelled(io, fd, e, willing);
      && (o == Ret(true) <==> fd < |io.fds| && io.fds[fd].mask.Has(e) && willing)
      && (o != Ret(true) ==> io1 == io)
      && (o == Ret(true) ==> Woken(io, io1, fd, Mask(e == READ, e == WRITE)))
  {
    if fd < |io.fds| && io.fds[fd].mask.Has(e) && willing {
      assert FdOk(io, fd);
      var m := Mask(e == READ, e == WRITE);
      var io1 := Cancelled(io, fd, e, willing).0;
      assert io1 == TriggerAll(io.(kernel := io1.kernel), fd, m);
      TriggerAllWakes(io, fd, m, io1.kernel);
    }
  }

  /** cancelAll takes every waiter of the descriptor out and queues it. */
  lemma CancelAllWakes(io: Io, fd: nat, willing: bool)
    requires Valid(io)
    ensures var (io1, o) := CancelledAll(io, fd, willing);
      && (o == Ret(true) <==> fd < |io.fds| && !io.fds[fd].mask.Empty() && willing)
      && (o != Ret(true) ==> io1 == io)
      && (o == Ret(true) ==> Woken(io, io1, fd, io.fds[fd].mask))
  {
    if fd < |io.fds| && !io.fds[fd].mask.Empty() && willing {
      assert FdOk(io, fd);
      TriggerAllWakes(io, fd, io.fds[fd].mask, CancelledAll(io, fd, willing).0.kernel);
    }
  }

  /** The registered events that a report hits: an error hits them all. */
  predicate IsHit(hits: Mask, c: FdState, r: Report) {
    && (hits.read <==> c.mask.read && (r.events.read || r.error))
    && (hits.write <==> c.mask.write && (r.events.write || r.error))
  }

  /** The dispatch loop wakes whoever waits for what is reported, and nobody else: the waiters of the
      hit events are queued, the reader first; these events are taken out, and the others stay. */
  lemma DispatchWakes(io: Io, fd: nat, r: Report, willing: bool, hits: Mask)
    requires Valid(io) && fd < |io.fds| && r.events.Within(io.fds[fd].mask) && IsHit(hits, io.fds[fd], r)
    ensures var (io1, o) := Dispatched(io, fd, r, willing);
      && (o == Ret(true) <==> willing && !hits.Empty())
      && (o != Ret(true) ==> io1 == io)
      && (o == Ret(true) ==> Woken(io, io1, fd, hits))
  {
    assert FdOk(io, fd);
    assert hits == Real(io.fds[fd], r);
    if willing && !hits.Empty() {
      TriggerAllWakes(io, fd, hits, Dispatched(io, fd, r, willing).0.kernel);
    }
  }

  // ------------------------------------------------------------------ runs

  datatype Op =
    | Add(fd: nat, e: Event, cb: Option<nat>, self: nat)
    | Del(fd: nat, e: Event)
    | Cancel(fd: nat, e: Event)
    | CancelBoth(fd: nat)
    | Reports(fd: nat, r: Report)

  function Apply(io: Io, op: Op, willing: bool): (Io, Outcome) {
    match op
    case Add(fd, e, cb, self) => Added(io, fd, e, cb, self, willing)
    case Del(fd, e) => Deleted(io, fd, e, willing)
    case Cancel(fd, e) => Cancelled(io, fd, e, willing)
    case CancelBoth(fd) => CancelledAll(io, fd, willing)
    case Reports(fd, r) => if fd < |io.fds| then Dispatched(io, fd, r, willing) else (io, Ret(false))
  }

  function Run(io: Io, ops: seq<(Op, bool)>): Io
    decreases |ops|
  {
    if ops == [] then io else Run(Apply(io, ops[0].0, ops[0].1).0, ops[1..])
  }

  /** Over every run, whatever the kernel refuses: the kernel watches exactly the registered events,
      the pending count is the number of registrations, and every registration has its waiter. */
  lemma {:induction false} RunValid(io: Io, ops: seq<(Op, bool)>)
    requires Valid(io)
    ensures Valid(Run(io, ops))
    decreases |ops|
  {
    if ops != [] {
      var (op, willing) := ops[0];
      match op {
        case Add(fd, e, cb, self) => AddEventValid(io, fd, e, cb, self, willing);
        case Del(fd, e) => DelEventValid(io, fd, e, willing);
        case Cancel(fd, e) => CancelEventValid(io, fd, e, willing);
        case CancelBoth(fd) => CancelAllValid(io, fd, willing);
        case Reports(fd, r) =>
          if fd < |io.fds| {
            DispatchValid(io, fd, r, willing);
          }
      }
      RunValid(Apply(io, op, willing).0, ops[1..]);
    }
  }

  // ------------------------------------------------------------------ one batch of reports

  /** One entry of the array that epoll_wait fills, and whether the kernel call for it succeeds. */
  datatype Entry = Entry(fd: nat, report: Report, willing: bool)

  /** The dispatch loop of Idle, stopped by a failing assertion. */
  function DispatchedAll(io: Io, batch: seq<Entry>): (Io, Outcome)
    decreases |batch|
  {
    if batch == [] then (io, Ret(true)) else
    if batch[0].fd >= |io.fds| then (io, OutOfBounds) else
    var r := Dispatched(io, batch[0].fd, batch[0].report, batch[0].willing);
    if r.1 == AssertFailed then r else DispatchedAll(r.0, batch[1..])
  }

  /** What epoll_wait guarantees: every descriptor at most once, and only events it watches. */
  predicate Reported(kernel: map<nat, Mask>, batch: seq<Entry>) {
    && (forall i, j :: 0 <= i < j < |batch| ==> batch[i].fd != batch[j].fd)
    && (forall i :: 0 <= i < |batch| ==>
        batch[i].fd in kernel && batch[i].report.events.Within(kernel[batch[i].fd]))
  }

  /** Dispatching the first entry leaves a batch that is still reported, and does not trip. */
  lemma OneEntry(io: Io, batch: seq<Entry>)
    requires Valid(io) && batch != [] && Reported(io.kernel, batch)
    ensures var b := batch[0];
      && b.fd in io.kernel && b.fd < |io.fds| && b.report.events.Within(io.kernel[b.fd])
      && var (io1, o) := Dispatched(io, b.fd, b.report, b.willing);
         && Valid(io1) && o.Ret? && Reported(io1.kernel, batch[1..])
         && DispatchedAll(io, batch) == DispatchedAll(io1, batch[1..])
  {
    var b := batch[0];
    assert FdOk(io, b.fd);
    WatchedEventsAreSafe(io, b.fd, b.report, b.willing);
    DispatchValid(io, b.fd, b.report, b.willing);
    var io1 := Dispatched(io, b.fd, b.report, b.willing).0;
    assert forall fd :: fd in io.kernel && fd != b.fd ==> fd in io1.kernel && io1.kernel[fd] == io.kernel[fd];
  }

  /** Whatever the kernel reports and refuses, a whole batch is dispatched without tripping. */
  lemma {:induction false} BatchSafe(io: Io, batch: seq<Entry>)
    requires Valid(io) && Reported(io.kernel, batch)
    ensures Valid(DispatchedAll(io, batch).0) && DispatchedAll(io, batch).1 == Ret(true)
    decreases |batch|
  {
    if batch != [] {
      OneEntry(io, batch);
      var b := batch[0];
      BatchSafe(Dispatched(io, b.fd, b.report, b.willing).0, batch[1..]);
    }
  }

  function Flatten<T>(parts: seq<seq<T>>): seq<T> {
    if parts == [] then [] else parts[0] + Flatten(parts[1..])
  }

  /** The tasks that one entry makes of the registrations of its descriptor. */
  predicate EntryWakes(ts: seq<Task>, c: FdState, b: Entry) {
    var hit := b.willing && (b.report.error || b.report.events.read);
    var hit' := b.willing && (b.report.error || b.report.events.write);
    AreWaiters(ts, c, Mask(c.mask.read && hit, c.mask.write && hit'))
  }

  lemma EntryWakesFirst(io: Io, batch: seq<Entry>) returns (part: seq<Task>, io1: Io)
    requires Valid(io) && batch != [] && Reported(io.kernel, batch)
    ensures batch[0].fd < |io.fds| && EntryWakes(part, io.fds[batch[0].fd], batch[0])
    ensures Valid(io1) && Reported(io1.kernel, batch[1..]) && DispatchedAll(io, batch) == DispatchedAll(io1, batch[1..])
    ensures io1.queue == io.queue + part && |io1.fds| == |io.fds|
    ensures forall g :: 0 <= g < |io.fds| && g != batch[0].fd ==> io1.fds[g] == io.fds[g]
  {
    var b := batch[0];
    OneEntry(io, batch);
    assert FdOk(io, b.fd);
    var c := io.fds[b.fd];
    var hits := Mask(c.mask.read && (b.report.events.read || b.report.error), c.mask.write && (b.report.events.write || b.report.error));
    DispatchWakes(io, b.fd, b.report, b.willing, hits);
    io1 := Dispatched(io, b.fd, b.report, b.willing).0;
    part := io1.queue[|io.queue|..];
    assert io1 == io ==> part == [];
  }

  predicate BatchWaiters(parts: seq<seq<Task>>, fds: seq<FdState>, batch: seq<Entry>) {
    && |parts| == |batch|
    && forall i :: 0 <= i < |batch| ==> batch[i].fd < |fds| && EntryWakes(parts[i], fds[batch[i].fd], batch[i])
  }

  lemma OnePartMore(fds: seq<FdState>, fds1: seq<FdState>, batch: seq<Entry>, part: seq<Task>, rest: seq<seq<Task>>)
    requires batch != [] && batch[0].fd < |fds| && EntryWakes(part, fds[batch[0].fd], batch[0])
    requires forall i :: 0 < i < |batch| ==> batch[0].fd != batch[i].fd
    requires |fds1| == |fds| && forall g :: 0 <= g < |fds| && g != batch[0].fd ==> fds1[g] == fds[g]
    requires BatchWaiters(rest, fds1, batch[1..])
    ensures BatchWaiters([part] + rest, fds, batch)
  {
    var parts := [part] + rest;
    forall i | 0 <= i < |batch| ensures batch[i].fd < |fds| && EntryWakes(parts[i], fds[batch[i].fd], batch[i]) {
      if i > 0 {
        assert batch[1..][i - 1] == batch[i] && parts[i] == rest[i - 1];
      }
    }
  }

  lemma FlattenStep<T>(queue: seq<T>, part: seq<T>, rest: seq<seq<T>>)
    ensures (queue + part) + Flatten(rest) == queue + Flatten([part] + rest)
  {
    assert ([part] + rest)[1..] == rest;
  }

  /** A whole batch wakes, entry by entry, whoever waits for what is reported, and nobody else. */
  lemma {:induction false} BatchWakes(io: Io, batch: seq<Entry>) returns (parts: seq<seq<Task>>)
    requires Valid(io) && Reported(io.kernel, batch)
    ensures BatchWaiters(parts, io.fds, batch)
    ensures DispatchedAll(io, batch).0.queue == io.queue + Flatten(parts)
    decreases |batch|
  {
    if batch == [] {
      parts := [];
    } else {
      var part, io1 := EntryWakesFirst(io, batch);
      var rest := BatchWakes(io1, batch[1..]);
      parts := [part] + rest;
      FlattenStep(io.queue, part, rest);
      OnePartMore(io.fds, io1.fds, batch, part, rest);
    }
  }

  // ------------------------------------------------------------------ the classes

  class FdContext {
    const fd: nat
    var eventType: Mask
    var readEvent: EventContext
    var writeEvent: EventContext

    ghost function State(): FdState
      reads this
    {
      FdState(eventType, readEvent, writeEvent)
    }

    constructor (fd: nat)
      ensures State() == FRESH
    {
      this.fd := fd;
      eventType, readEvent, writeEvent := Mask(false, false), EMPTY, EMPTY;
    }

    method SetContext(e: Event, c: EventContext)
      modifies this
      ensures State() == old(State()).Put(e, c)
    {
      if e == READ {
        readEvent := c;
      } else {
        writeEvent := c;
      }
    }

    method TriggerEvent(e: Event) returns (tasks: seq<Task>)
      requires eventType.Has(e)
      modifies this
      ensures (State(), tasks) == Triggered(old(State()), e)
    {
      eventType := eventType.Minus(e);
      var context := if e == READ then readEvent else writeEvent;
      tasks := [];
      if context.fiber.Some? {
        tasks := [RunFiber(context.fiber.value)];
        context := context.(fiber := None);
      } else if context.cb.Some? {
        tasks := [RunCb(context.cb.value)];
        context := context.(cb := None);
      }
      SetContext(e, context.(scheduler := false));
    }
  }

  /** The registrations of an IOManager.  `kernel` is the interest set that epoll_ctl changes, `queue`
      the list of tasks of the scheduler it inherits. */
  class IOManager {
    var contexts: seq<FdContext>
    var kernel: map<nat, Mask>
    var pendingCnt: nat
    var queue: seq<Task>

    ghost predicate Distinct()
      reads this
    {
      forall i, j :: 0 <= i < j < |contexts| ==> contexts[i] != contexts[j]
    }

    ghost function Fds(): (r: seq<FdState>)
      reads this, contexts
    {
      seq(|contexts|, i requires 0 <= i < |contexts| reads this, contexts => contexts[i].State())
    }

    ghost function State(): Io
      reads this, contexts
    {
      Io(Fds(), kernel, pendingCnt, queue)
    }

    ghost predicate Ok()
      reads this, contexts
    {
      Distinct() && Valid(State())
    }

    constructor ()
      ensures Ok() && State() == Initial() && fresh(contexts)
    {
      contexts, kernel, pendingCnt, queue := [], map[], 0, [];
      new;
      ResizeContext(64);
      assert Fds() == Initial().fds;
      InitialValid();
    }

    method ResizeContext(n: nat)
      requires Distinct() && |contexts| <= n
      modifies `contexts
      ensures Distinct() && old(contexts) <= contexts && |contexts| == n
      ensures forall i :: |old(contexts)| <= i < |contexts| ==> fresh(contexts[i]) && contexts[i].State() == FRESH
    {
      while |contexts| < n
        invariant Distinct() && old(contexts) <= contexts
        invariant |contexts| <= n
        invariant forall i :: |old(contexts)| <= i < |contexts| ==> fresh(contexts[i]) && contexts[i].State() == FRESH
        decreases n - |contexts|
      {
        var c := new FdContext(|contexts|);
        contexts := contexts + [c];
      }
    }

    method Control(op: Ctl, fd: nat, m: Mask, willing: bool) returns (ok: bool)
      modifies `kernel
      ensures Fds() == old(Fds())
      ensures ok == EpollCtl(old(kernel), op, fd, m, willing).Some?
      ensures kernel == if ok then EpollCtl(old(kernel), op, fd, m, willing).value else old(kernel)
    {
      ok := willing && (op == ADD) == (fd !in kernel);
      if ok {
        kernel := if op == DEL then kernel - {fd} else kernel[fd := m];
      }
    }

    /** Only the context of `fd` has changed. */
    twostate lemma OneContext(fd: nat)
      requires old(Distinct()) && contexts == old(contexts) && fd < |contexts|
      requires forall c <- contexts :: c != contexts[fd] ==> c.State() == old(c.State())
      ensures Distinct() && Fds() == old(Fds())[fd := contexts[fd].State()]
    {
    }

    /** The part of addEvent that makes room. */
    method MakeRoom(fd: nat)
      requires Ok()
      modifies `contexts
      ensures Ok() && (fd < |contexts| <==> fd != |old(contexts)|) && old(contexts) <= contexts
      ensures forall c <- contexts :: c in old(contexts) || fresh(c)
      ensures State() == if fd > |old(contexts)| then old(State()).(fds := Resized(old(Fds()), fd)) else old(State())
    {
      ResizedValid(State(), fd);
      if fd > |contexts| {
        ResizeContext(fd + fd / 2);
        assert Fds() == Resized(old(Fds()), fd);
      }
    }

    /** The waiter is the callback, or else the running fiber `self`. */
    method AddEvent(fd: nat, e: Event, cb: Option<nat>, self: nat, willing: bool) returns (o: Outcome)
      requires Ok()
      modifies this, contexts
      ensures Ok() && (forall c <- contexts :: c in old(contexts) || fresh(c))
      ensures (State(), o) == Added(old(State()), fd, e, cb, self, willing)
    {
      MakeRoom(fd);
      if fd >= |contexts| {
        return OutOfBounds;
      }
      assert contexts[fd] in contexts;
      var ok := Register(fd, e, cb, self, willing);
      o := Ret(ok);
    }

    /** The part of addEvent that holds the lock of the context. */
    method Register(fd: nat, e: Event, cb: Option<nat>, self: nat, willing: bool) returns (ok: bool)
      requires Ok() && fd < |contexts|
      modifies `kernel, `pendingCnt, contexts[fd]
      ensures Ok()
      ensures (State(), Ret(ok)) == Added(old(State()), fd, e, cb, self, willing)
    {
      AddEventValid(State(), fd, e, cb, self, willing);
      assert FdOk(State(), fd);
      var context := contexts[fd];
      assert context.State() == Fds()[fd];
      if context.eventType.Has(e) {
        return false;
      }
      ok := Control(if context.eventType.Empty() then ADD else MOD, fd, context.eventType.With(e), willing);
      if ok {
        pendingCnt := pendingCnt + 1;
        context.eventType := context.eventType.With(e);
        assert (if e == READ then context.readEvent else context.writeEvent) == EMPTY;
        context.SetContext(e, if cb.Some? then EventContext(true, None, cb) else EventContext(true, Some(self), None));
        OneContext(fd);
      }
    }

    /** The waiter is forgotten. */
    method DelEvent(fd: nat, e: Event, willing: bool) returns (ok: bool)
      requires Ok()
      modifies `kernel, `pendingCnt, contexts
      ensures Ok() && contexts == old(contexts)
      ensures (State(), Ret(ok)) == Deleted(old(State()), fd, e, willing)
    {
      DelEventValid(State(), fd, e, willing);
      if fd >= |contexts| {
        return false;
      }
      var context := contexts[fd];
      assert context.State() == Fds()[fd];
      if !context.eventType.Has(e) {
        return false;
      }
      PendingPositive(State(), fd);
      var left := context.eventType.Minus(e);
      ok := Control(if left.Empty() then DEL else MOD, fd, left, willing);
      if ok {
        pendingCnt := pendingCnt - 1;
        context.eventType := left;
        context.SetContext(e, EMPTY);
        OneContext(fd);
      }
    }

    /** triggerEvent, the queue push inside it, and the decrement of the pending count after it. */
    method TriggerOne(fd: nat, e: Event)
      requires Distinct() && fd < |contexts| && contexts[fd].eventType.Has(e) && pendingCnt > 0
      modifies `queue, `pendingCnt, contexts[fd]
      ensures Distinct() && State() == Trigger(old(State()), fd, e)
    {
      var tasks := contexts[fd].TriggerEvent(e);
      queue := queue + tasks;
      pendingCnt := pendingCnt - 1;
      OneContext(fd);
    }

    /** The waiter is queued as if the event had happened. */
    method CancelEvent(fd: nat, e: Event, willing: bool) returns (ok: bool)
      requires Ok()
      modifies `kernel, `pendingCnt, `queue, contexts
      ensures Ok() && contexts == old(contexts)
      ensures (State(), Ret(ok)) == Cancelled(old(State()), fd, e, willing)
    {
      CancelEventValid(State(), fd, e, willing);
      if fd >= |contexts| {
        return false;
      }
      var context := contexts[fd];
      assert context.State() == Fds()[fd];
      if !context.eventType.Has(e) {
        return false;
      }
      PendingPositive(State(), fd);
      var left := context.eventType.Minus(e);
      ok := Control(if left.Empty() then DEL else MOD, fd, left, willing);
      if ok {
        TriggerOne(fd, e);
      }
    }

    /** The triggers at the end of cancelAll and of the dispatch loop. */
    method TriggerBoth(fd: nat, m: Mask)
      requires Distinct() && fd < |contexts| && m.Within(contexts[fd].eventType) && pendingCnt >= contexts[fd].eventType.Bits()
      modifies `queue, `pendingCnt, contexts[fd]
      ensures Distinct() && State() == TriggerAll(old(State()), fd, m)
    {
      if m.read {
        TriggerOne(fd, READ);
        assert contexts[fd].State() == Fds()[fd];
      }
      if m.write {
        TriggerOne(fd, WRITE);
      }
    }

    method CancelAll(fd: nat, willing: bool) returns (ok: bool)
      requires Ok()
      modifies `kernel, `pendingCnt, `queue, contexts
      ensures Ok() && contexts == old(contexts)
      ensures (State(), Ret(ok)) == CancelledAll(old(State()), fd, willing)
      ensures ok ==> contexts[fd].eventType.Empty()
    {
      CancelAllValid(State(), fd, willing);
      if fd >= |contexts| {
        return false;
      }
      var context := contexts[fd];
      assert context.State() == Fds()[fd];
      if context.eventType.Empty() {
        return false;
      }
      PendingPositive(State(), fd);
      ok := Control(DEL, fd, Mask(false, false), willing);
      if ok {
        TriggerBoth(fd, context.eventType);
        assert context.State() == Fds()[fd];
      }
    }

    /** One round of the dispatch loop. */
    method Dispatch(b: Entry) returns (o: Outcome)
      requires Ok() && b.fd < |contexts|
      modifies `kernel, `pendingCnt, `queue, contexts
      ensures contexts == old(contexts) && o == Dispatched(old(State()), b.fd, b.report, b.willing).1
      ensures o != AssertFailed ==> Ok() && State() == Dispatched(old(State()), b.fd, b.report, b.willing).0
    {
      assert FdOk(State(), b.fd);
      DispatchValid(State(), b.fd, b.report, b.willing);
      var context := contexts[b.fd];
      assert context.State() == Fds()[b.fd];
      var events := b.report.events;
      if b.report.error {
        events := Mask(events.read || context.eventType.read, events.write || context.eventType.write);
      }
      if !(events.read && context.eventType.read) && !(events.write && context.eventType.write) {
        return Ret(false);
      }
      PendingPositive(State(), b.fd);
      var left := Mask(context.eventType.read && !events.read, context.eventType.write && !events.write);
      var ok := Control(if left.Empty() then DEL else MOD, b.fd, left, b.willing);
      if ok {
        if !events.Within(context.eventType) {
          return AssertFailed;
        }
        TriggerBoth(b.fd, events);
      }
      o := Ret(ok);
    }

    /** The dispatch loop of Idle over everything epoll_wait has reported. */
    method DispatchAll(batch: seq<Entry>) returns (o: Outcome)
      requires Ok()
      modifies `kernel, `pendingCnt, `queue, contexts
      ensures contexts == old(contexts) && o == DispatchedAll(old(State()), batch).1
      ensures o != AssertFailed ==> Ok() && State() == DispatchedAll(old(State()), batch).0
    {
      var i := 0;
      while i < |batch|
        invariant 0 <= i <= |batch| && Ok() && contexts == old(contexts)
        invariant DispatchedAll(old(State()), batch) == DispatchedAll(State(), batch[i..])
      {
        assert batch[i..][0] == batch[i] && batch[i..][1..] == batch[i + 1..];
        if batch[i].fd >= |contexts| {
          return OutOfBounds;
        }
        o := Dispatch(batch[i]);
        if o == AssertFailed {
          return;
        }
        i := i + 1;
      }
      o := Ret(true);
    }
  }
}

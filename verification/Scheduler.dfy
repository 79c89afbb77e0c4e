/** The task queue and the worker loop of src/Schedule1.cc and src/Schedule1.h, and the life of a
    fiber from src/Fiber1.cc.

    A fiber is named by its address.  What a task does while it runs is left to the environment: it
    may push tasks, and in the end it either yields or finishes. */
module Scheduler {
  import opened Common

  const ANY: int := -1

  /** Task: a fiber or a callback, and the thread that has to run it. */
  datatype Task = Task(fiber: Option<nat>, cb: Option<nat>, thread: int)
  {
    predicate Valid() { fiber.Some? || cb.Some? }
    predicate For(t: int) { Valid() && (thread == ANY || thread == t) }
  }

  // ------------------------------------------------------------------ the scan

  /** The queue without its invalid entries, in the same order. */
  function Valids(s: seq<Task>): (r: seq<Task>)
    ensures forall t :: t in r <==> t in s && t.Valid()
  {
    if s == [] then []
    else if s[|s| - 1].Valid() then Valids(s[..|s| - 1]) + [s[|s| - 1]]
    else Valids(s[..|s| - 1])
  }

  /** The first task that the thread may run, or the length of the queue. */
  function FirstFor(s: seq<Task>, thread: int): (i: nat)
    ensures i <= |s| && (i < |s| ==> s[i].For(thread))
    ensures forall j :: 0 <= j < i ==> !s[j].For(thread)
  {
    if s == [] || s[0].For(thread) then 0
    else
      var i := FirstFor(s[1..], thread);
      assert forall j :: 0 < j < i + 1 ==> s[j] == s[1..][j - 1];
      1 + i
  }

  datatype Scan = Scan(tasks: seq<Task>, taken: Option<Task>, needNotify: bool)

  /** What the scan of Run leaves: the first task for this thread is taken, invalid entries in front of
      it are dropped, all the others stay in order; and somebody is notified whenever any are left. */
  function Scanned(s: seq<Task>, thread: int): Scan {
    var i := FirstFor(s, thread);
    if i < |s| then Scan(Valids(s[..i]) + s[i + 1..], Some(s[i]), Valids(s[..i]) + s[i + 1..] != [])
    else Scan(Valids(s), None, Valids(s) != [])
  }

  predicate NoneFor(s: seq<Task>, thread: int) {
    forall t :: t in s ==> !t.For(thread)
  }

  /** One step of the scan: a queue whose front holds nothing for the thread, and the next entry. */
  lemma {:induction false} Passing(front: seq<Task>, left: seq<Task>, thread: int)
    requires NoneFor(front, thread) && left != []
    ensures left[0].For(thread) ==> Scanned(front + left, thread) ==
                                    Scan(Valids(front) + left[1..], Some(left[0]), Valids(front) + left[1..] != [])
    ensures Valids(front + [left[0]]) == if left[0].Valid() then Valids(front) + [left[0]] else Valids(front)
  {
    assert (front + [left[0]])[..|front|] == front;
    if left[0].For(thread) {
      var all := front + left;
      var i := FirstFor(all, thread);
      forall j | 0 <= j < |front| ensures !all[j].For(thread) {
        assert front[j] in front && all[j] == front[j];
      }
      assert all[|front|] == left[0] && i == |front|;
      assert all[..i] == front && all[i + 1..] == left[1..];
    }
  }

  /** Erasing the entry behind `a`. */
  lemma Erasing(a: seq<Task>, b: seq<Task>)
    requires b != []
    ensures (a + b)[|a|] == b[0] && (a + b)[..|a|] + (a + b)[|a| + 1..] == a + b[1..]
    ensures a + b == (a + [b[0]]) + b[1..]
  {
  }

  lemma Scanless(s: seq<Task>, thread: int)
    requires NoneFor(s, thread)
    ensures Scanned(s, thread) == Scan(Valids(s), None, Valids(s) != [])
  {
    if FirstFor(s, thread) < |s| {
      assert false;
    }
  }

  /** A variable of the caller that holds a fiber or a callback. */
  class Slot {
    var value: Option<nat>
  }

  /** m_tasks, and how tasks are pushed and taken. */
  class TaskQueue {
    var tasks: seq<Task>

    constructor ()
      ensures tasks == []
    {
      tasks := [];
    }

    /** The scan loop of Run: `it` is the iterator, and erasing moves the rest of the list up to it. */
    method Take(thread: int) returns (taken: Option<Task>, needNotify: bool)
      modifies this
      ensures Scan(tasks, taken, needNotify) == Scanned(old(tasks), thread)
    {
      taken, needNotify := None, false;
      ghost var front, left := [], tasks;
      var it := 0;
      while it < |tasks|
        invariant front + left == old(tasks) && tasks == Valids(front) + left && it == |Valids(front)|
        invariant NoneFor(front, thread) && needNotify == (it > 0)
        decreases |left|
      {
        var task := tasks[it];
        Erasing(Valids(front), left);
        Erasing(front, left);
        Passing(front, left, thread);
        if task.Valid() {
          if task.thread != ANY && task.thread != thread {
            it := it + 1;
            needNotify := true;
          } else {
            taken := Some(task);
            tasks := tasks[..it] + tasks[it + 1..];
            needNotify := needNotify || it != |tasks|;
            return;
          }
        } else {
          tasks := tasks[..it] + tasks[it + 1..];
        }
        front, left := front + [task], left[1..];
      }
      Scanless(front, thread);
      assert front + [] == front;
    }

    /** addTask for a fiber or callback that is passed by reference or moved: an empty one is queued too. */
    method AddFiber(fiber: Option<nat>, thread: int) returns (ok: bool)
      modifies this
      ensures ok && tasks == old(tasks) + [Task(fiber, None, thread)]
    {
      tasks := tasks + [Task(fiber, None, thread)];
      ok := true;
    }

    method AddCb(cb: Option<nat>, thread: int) returns (ok: bool)
      modifies this
      ensures ok && tasks == old(tasks) + [Task(None, cb, thread)]
    {
      tasks := tasks + [Task(None, cb, thread)];
      ok := true;
    }

    /** addTask for a pointer: an empty pointer or variable is refused, and the caller's variable is
        empty afterwards, so that no second owner is left behind. */
    method AddFiberPtr(slot: Slot?, thread: int) returns (ok: bool)
      modifies this, slot
      ensures ok == (slot != null && old(slot.value.Some?))
      ensures tasks == if ok then old(tasks) + [Task(old(slot.value), None, thread)] else old(tasks)
      ensures slot != null ==> slot.value == None
    {
      ok := slot != null && slot.value.Some?;
      if ok {
        tasks := tasks + [Task(slot.value, None, thread)];
        slot.value := None;
      }
    }

    method AddCbPtr(slot: Slot?, thread: int) returns (ok: bool)
      modifies this, slot
      ensures ok == (slot != null && old(slot.value.Some?))
      ensures tasks == if ok then old(tasks) + [Task(None, old(slot.value), thread)] else old(tasks)
      ensures slot != null ==> slot.value == None
    {
      ok := slot != null && slot.value.Some?;
      if ok {
        tasks := tasks + [Task(None, slot.value, thread)];
        slot.value := None;
      }
    }

    /** pushtasks, for the callbacks of expired timers; the answer says whether to notify. */
    method PushTasks(cbs: seq<Option<nat>>) returns (needNotify: bool)
      modifies this
      ensures tasks == old(tasks) + seq(|cbs|, i requires 0 <= i < |cbs| => Task(None, cbs[i], ANY))
      ensures needNotify == (cbs != [])
    {
      needNotify := false;
      for i := 0 to |cbs|
        invariant tasks == old(tasks) + seq(i, j requires 0 <= j < i => Task(None, cbs[j], ANY))
        invariant needNotify == (i > 0)
      {
        var ok := AddCb(cbs[i], ANY);
        needNotify := ok || needNotify;
      }
    }
  }

  // ------------------------------------------------------------------ the scan loses nothing

  lemma {:induction false} ValidsConcat(a: seq<Task>, b: seq<Task>)
    ensures Valids(a + b) == Valids(a) + Valids(b)
    decreases |b|
  {
    if b == [] {
      assert a + b == a;
    } else {
      assert (a + b)[..|a + b| - 1] == a + b[..|b| - 1];
      ValidsConcat(a, b[..|b| - 1]);
    }
  }

  lemma {:induction false} ValidsTwice(s: seq<Task>)
    ensures Valids(Valids(s)) == Valids(s)
  {
    if s != [] {
      ValidsTwice(s[..|s| - 1]);
      ValidsConcat(Valids(s[..|s| - 1]), [s[|s| - 1]]);
    }
  }

  /** A scan takes one valid task or none, and the others are all still there. */
  lemma ScanConserves(s: seq<Task>, thread: int)
    ensures var r := Scanned(s, thread);
      |Valids(s)| == |Valids(r.tasks)| + if r.taken.Some? then 1 else 0
  {
    var i := FirstFor(s, thread);
    var r := Scanned(s, thread);
    if i < |s| {
      assert s == s[..i] + ([s[i]] + s[i + 1..]);
      ValidsConcat(s[..i], [s[i]] + s[i + 1..]);
      ValidsConcat([s[i]], s[i + 1..]);
      ValidsConcat(Valids(s[..i]), s[i + 1..]);
      ValidsTwice(s[..i]);
      assert Valids([s[i]]) == [s[i]];
    } else {
      ValidsTwice(s);
    }
  }

  // ------------------------------------------------------------------ fibers

  datatype FiberState = INIT | RUNNING | HOLD | TERM

  datatype FiberData = FiberData(state: FiberState, cb: Option<nat>)
  {
    /** Reset: the fiber starts over with another callback, or with none. */
    function Reset(cb: Option<nat>): FiberData { FiberData(INIT, cb) }

    /** SwapIn until the fiber switches back: it yields in the middle of its callback, or gets to the
        end of it (at once, when it has none). */
    function SwappedIn(parks: bool): FiberData {
      if cb.Some? && parks then FiberData(HOLD, cb) else FiberData(TERM, None)
    }
  }

  // ------------------------------------------------------------------ the worker loop

  /** The tasks ever queued, and what became of those that were taken. */
  datatype Tally = Tally(pushed: nat, finished: nat, held: nat, dropped: nat)

  datatype Worker = Worker(tasks: seq<Task>, fibers: map<nat, FiberData>, cbFiber: Option<nat>, tally: Tally)

  function Pushed(w: Worker, more: seq<Task>): Worker {
    w.(tasks := w.tasks + more, tally := w.tally.(pushed := w.tally.pushed + |Valids(more)|))
  }

  /** The fiber runs, pushes the tasks `more`, and is counted as finished or held. */
  function RunFiber(w: Worker, f: nat, parks: bool, more: seq<Task>): Worker
    requires f in w.fibers
  {
    var d := w.fibers[f].SwappedIn(parks);
    var w1 := Pushed(w, more);
    w1.(fibers := w.fibers[f := d],
        tally := if d.state == TERM then w1.tally.(finished := w1.tally.finished + 1)
                 else w1.tally.(held := w1.tally.held + 1))
  }

  /** A callback runs on the callback fiber, which is made if there is none, kept if the callback
      finishes, and given up if it yields. */
  function RunCb(w: Worker, cb: nat, newFiber: nat, parks: bool, more: seq<Task>): Worker
    requires newFiber !in w.fibers && (w.cbFiber.Some? ==> w.cbFiber.value in w.fibers)
  {
    var f := if w.cbFiber.Some? then w.cbFiber.value else newFiber;
    var w1 := RunFiber(w.(fibers := w.fibers[f := FiberData(INIT, Some(cb))]), f, parks, more);
    if w1.fibers[f].state == TERM
    then w1.(fibers := w1.fibers[f := w1.fibers[f].Reset(None)], cbFiber := Some(f))
    else w1.(cbFiber := None)
  }

  /** One round of Run.  Without a task the idle fiber runs, which changes nothing here. */
  function Round(w: Worker, thread: int, newFiber: nat, parks: bool, more: seq<Task>): Worker
    requires RoundOk(w, thread, newFiber)
  {
    var r := Scanned(w.tasks, thread);
    var w1 := w.(tasks := r.tasks);
    if r.taken.None? then w1
    else if r.taken.value.cb.Some? then RunCb(w1, r.taken.value.cb.value, newFiber, parks, more)
    else
      var f := r.taken.value.fiber.value;
      if w.fibers[f].state == TERM then w1.(tally := w1.tally.(dropped := w1.tally.dropped + 1))
      else RunFiber(w1, f, parks, more)
  }

  /** The queue holds fibers that exist, and the address of a new fiber is fresh. */
  predicate RoundOk(w: Worker, thread: int, newFiber: nat) {
    && newFiber !in w.fibers
    && (w.cbFiber.Some? ==> w.cbFiber.value in w.fibers)
    && (forall t :: t in w.tasks && t.fiber.Some? ==> t.fiber.value in w.fibers)
  }

  /** The books balance, with `taken` tasks taken from the queue and not yet accounted for. */
  predicate Books(w: Worker, taken: nat) {
    w.tally.pushed == |Valids(w.tasks)| + w.tally.finished + w.tally.held + w.tally.dropped + taken
  }

  /** The callback fiber is not parked: it has no callback left to return to. */
  predicate CbFiberFree(w: Worker) {
    w.cbFiber.Some? ==>
      && w.cbFiber.value in w.fibers
      && w.fibers[w.cbFiber.value].cb == None
      && w.fibers[w.cbFiber.value].state in {INIT, TERM}
  }

  predicate Balanced(w: Worker) {
    Books(w, 0) && CbFiberFree(w)
  }

  lemma PushedBalanced(w: Worker, more: seq<Task>, taken: nat)
    requires Books(w, taken)
    ensures Books(Pushed(w, more), taken)
  {
    ValidsConcat(w.tasks, more);
  }

  lemma RunFiberBalanced(w: Worker, f: nat, parks: bool, more: seq<Task>)
    requires Books(w, 1) && f in w.fibers
    ensures Books(RunFiber(w, f, parks, more), 0)
    ensures CbFiberFree(w) ==> CbFiberFree(RunFiber(w, f, parks, more))
  {
    PushedBalanced(w, more, 1);
  }

  lemma RunCbBalanced(w: Worker, cb: nat, newFiber: nat, parks: bool, more: seq<Task>)
    requires Books(w, 1) && newFiber !in w.fibers && CbFiberFree(w)
    ensures Balanced(RunCb(w, cb, newFiber, parks, more))
  {
    var f := if w.cbFiber.Some? then w.cbFiber.value else newFiber;
    RunFiberBalanced(w.(fibers := w.fibers[f := FiberData(INIT, Some(cb))]), f, parks, more);
  }

  lemma RoundBalanced(w: Worker, thread: int, newFiber: nat, parks: bool, more: seq<Task>)
    requires Balanced(w) && RoundOk(w, thread, newFiber)
    ensures Balanced(Round(w, thread, newFiber, parks, more))
  {
    ScanConserves(w.tasks, thread);
    var r := Scanned(w.tasks, thread);
    var w1 := w.(tasks := r.tasks);
    if r.taken.Some? {
      if r.taken.value.cb.Some? {
        RunCbBalanced(w1, r.taken.value.cb.value, newFiber, parks, more);
      } else if w.fibers[r.taken.value.fiber.value].state != TERM {
        RunFiberBalanced(w1, r.taken.value.fiber.value, parks, more);
      }
    }
  }

  /** A parked fiber keeps its state and its callback, unless the round resumes that very fiber: the
      callback fiber that is reset and reused is never a parked one. */
  lemma ParkedUntouched(w: Worker, thread: int, newFiber: nat, parks: bool, more: seq<Task>, f: nat)
    requires Balanced(w) && RoundOk(w, thread, newFiber) && f in w.fibers && w.fibers[f].state == HOLD
    ensures var r := Scanned(w.tasks, thread).taken;
      var w1 := Round(w, thread, newFiber, parks, more);
      f in w1.fibers && w1.cbFiber != Some(f) &&
      ((r.None? || r.value.cb.Some? || r.value.fiber != Some(f)) ==> w1.fibers[f] == w.fibers[f])
  {
  }

  // ------------------------------------------------------------------ runs

  datatype Step =
    | Push(more: seq<Task>)
    | Spawn(f: nat, cb: nat)
    | Work(thread: int, newFiber: nat, parks: bool, more: seq<Task>)

  predicate Enabled(w: Worker, step: Step) {
    match step
    case Push(_) => true
    case Spawn(f, _) => f !in w.fibers
    case Work(thread, newFiber, _, _) => RoundOk(w, thread, newFiber)
  }

  function Next(w: Worker, step: Step): Worker
    requires Enabled(w, step)
  {
    match step
    case Push(more) => Pushed(w, more)
    case Spawn(f, cb) => w.(fibers := w.fibers[f := FiberData(INIT, Some(cb))])
    case Work(thread, newFiber, parks, more) => Round(w, thread, newFiber, parks, more)
  }

  predicate IsRun(w: Worker, steps: seq<Step>)
    decreases |steps|
  {
    steps == [] || (Enabled(w, steps[0]) && IsRun(Next(w, steps[0]), steps[1..]))
  }

  function Run(w: Worker, steps: seq<Step>): Worker
    requires IsRun(w, steps)
    decreases |steps|
  {
    if steps == [] then w else Run(Next(w, steps[0]), steps[1..])
  }

  /** Over every run: valid tasks pushed = finished + held + dropped as terminated + still queued. */
  lemma {:induction false} RunBalanced(w: Worker, steps: seq<Step>)
    requires Balanced(w) && IsRun(w, steps)
    ensures Balanced(Run(w, steps))
    decreases |steps|
  {
    if steps != [] {
      match steps[0] {
        case Push(more) => PushedBalanced(w, more, 0);
        case Spawn(_, _) =>
        case Work(thread, newFiber, parks, more) => RoundBalanced(w, thread, newFiber, parks, more);
      }
      RunBalanced(Next(w, steps[0]), steps[1..]);
    }
  }

  // ------------------------------------------------------------------ which task a round runs

  /** Entries that the thread passes over: without fiber and callback, or pinned to another thread. */
  predicate Passed(front: seq<Task>, thread: int) {
    forall t :: t in front ==> (t.fiber == None && t.cb == None) || (t.thread != -1 && t.thread != thread)
  }

  /** The part of the queue in front keeps its tasks and loses the empty entries. */
  ghost predicate Cleared(front: seq<Task>, left: seq<Task>) {
    && (forall t: Task :: multiset(left)[t] == if t.fiber == None && t.cb == None then 0 else multiset(front)[t])
    && ((forall t :: t in front ==> t.fiber.Some? || t.cb.Some?) ==> left == front)
  }

  lemma {:induction false} ValidsCleared(s: seq<Task>)
    ensures Cleared(s, Valids(s))
  {
    if s != [] {
      var n := |s| - 1;
      ValidsCleared(s[..n]);
      assert s == s[..n] + [s[n]];
    }
  }

  lemma Taking(front: seq<Task>, t: Task, rest: seq<Task>, thread: int)
    requires Passed(front, thread) && (t.fiber.Some? || t.cb.Some?) && (t.thread == -1 || t.thread == thread)
    ensures Scanned(front + [t] + rest, thread) == Scan(Valids(front) + rest, Some(t), Valids(front) + rest != [])
  {
    var left := [t] + rest;
    assert left[0] == t && left[1..] == rest && front + left == front + [t] + rest;
    Passing(front, left, thread);
  }

  /** The first task that is unpinned or pinned to this thread is taken, and the others stay in place. */
  lemma FirstIsTaken(front: seq<Task>, t: Task, rest: seq<Task>, thread: int) returns (kept: seq<Task>)
    requires Passed(front, thread) && (t.fiber.Some? || t.cb.Some?) && (t.thread == -1 || t.thread == thread)
    ensures Cleared(front, kept)
    ensures Scanned(front + [t] + rest, thread) == Scan(kept + rest, Some(t), kept + rest != [])
  {
    kept := Valids(front);
    ValidsCleared(front);
    Taking(front, t, rest, thread);
  }

  /** A queue of tasks that are all pinned to other threads has nothing for this one. */
  lemma NothingTaken(s: seq<Task>, thread: int)
    requires Passed(s, thread)
    ensures var r := Scanned(s, thread);
      r.taken == None && Cleared(s, r.tasks) && r.needNotify == (r.tasks != [])
  {
    Scanless(s, thread);
    ValidsCleared(s);
  }

  /** A round runs the fiber of that first task, to its next yield or to its end. */
  lemma FiberIsRun(w: Worker, front: seq<Task>, t: Task, rest: seq<Task>, cb: nat, thread: int, newFiber: nat,
                   parks: bool, more: seq<Task>) returns (kept: seq<Task>)
    requires RoundOk(w, thread, newFiber) && w.tasks == front + [t] + rest && Passed(front, thread)
    requires t.fiber.Some? && t.cb == None && (t.thread == -1 || t.thread == thread)
    requires t.fiber.value in w.fibers && w.fibers[t.fiber.value].state != TERM && w.fibers[t.fiber.value].cb == Some(cb)
    ensures var w1 := Round(w, thread, newFiber, parks, more);
      && Cleared(front, kept) && w1.tasks == kept + rest + more && w1.cbFiber == w.cbFiber
      && w1.fibers == w.fibers[t.fiber.value := if parks then FiberData(HOLD, Some(cb)) else FiberData(TERM, None)]
  {
    kept := FirstIsTaken(front, t, rest, thread);
  }

  lemma RunCbIs(w: Worker, cb: nat, newFiber: nat, parks: bool, more: seq<Task>)
    requires newFiber !in w.fibers && (w.cbFiber.Some? ==> w.cbFiber.value in w.fibers)
    ensures var w1 := RunCb(w, cb, newFiber, parks, more);
      var f := if w.cbFiber.Some? then w.cbFiber.value else newFiber;
      && w1.tasks == w.tasks + more && w1.cbFiber == (if parks then None else Some(f))
      && w1.fibers == w.fibers[f := if parks then FiberData(HOLD, Some(cb)) else FiberData(INIT, None)]
  {
  }

  /** A round runs the callback of that first task on the callback fiber, or on a new one: a fiber that
      yields in it is given up, and one that gets to the end is kept, empty. */
  lemma CallbackIsRun(w: Worker, front: seq<Task>, t: Task, rest: seq<Task>, thread: int, newFiber: nat, parks: bool,
                      more: seq<Task>) returns (kept: seq<Task>)
    requires RoundOk(w, thread, newFiber) && w.tasks == front + [t] + rest && Passed(front, thread)
    requires t.cb.Some? && (t.thread == -1 || t.thread == thread)
    ensures var w1 := Round(w, thread, newFiber, parks, more);
      var f := if w.cbFiber.Some? then w.cbFiber.value else newFiber;
      && Cleared(front, kept) && w1.tasks == kept + rest + more
      && w1.cbFiber == (if parks then None else Some(f))
      && w1.fibers == w.fibers[f := if parks then FiberData(HOLD, t.cb) else FiberData(INIT, None)]
  {
    kept := FirstIsTaken(front, t, rest, thread);
    RunCbIs(w.(tasks := kept + rest), t.cb.value, newFiber, parks, more);
  }

  lemma CountOfParts(a: seq<Task>, b: seq<Task>, t: Task)
    ensures multiset(a + b)[t] == multiset(a)[t] + multiset(b)[t]
  {
  }

  lemma CountAround(a: seq<Task>, kept: seq<Task>, x: Task, b: seq<Task>, t: Task)
    requires x != t && multiset(kept)[t] == multiset(a)[t]
    ensures multiset(kept + b)[t] == multiset(a + ([x] + b))[t]
  {
    CountOfParts(a, [x] + b, t);
    CountOfParts([x], b, t);
    CountOfParts(kept, b, t);
  }

  lemma ValidsKeep(s: seq<Task>, t: Task)
    requires t.fiber.Some? || t.cb.Some?
    ensures multiset(Valids(s))[t] == multiset(s)[t]
  {
    ValidsCleared(s);
  }

  lemma Around(s: seq<Task>, i: nat, kept: seq<Task>, t: Task)
    requires i < |s| && s[i] != t && multiset(kept)[t] == multiset(s[..i])[t]
    ensures multiset(kept + s[i + 1..])[t] == multiset(s)[t]
  {
    assert s == s[..i] + ([s[i]] + s[i + 1..]);
    CountAround(s[..i], kept, s[i], s[i + 1..], t);
  }

  lemma ScanKeeps(s: seq<Task>, thread: int, t: Task)
    requires (t.fiber.Some? || t.cb.Some?) && t.thread != -1 && t.thread != thread
    ensures multiset(Scanned(s, thread).tasks)[t] == multiset(s)[t]
  {
    var i := FirstFor(s, thread);
    if i < |s| {
      ValidsKeep(s[..i], t);
      Around(s, i, Valids(s[..i]), t);
    } else {
      ValidsKeep(s, t);
    }
  }

  /** No round takes a task that is pinned to another thread. */
  lemma PinnedStays(w: Worker, thread: int, newFiber: nat, parks: bool, more: seq<Task>, t: Task)
    requires RoundOk(w, thread, newFiber)
    requires (t.fiber.Some? || t.cb.Some?) && t.thread != -1 && t.thread != thread
    ensures multiset(Round(w, thread, newFiber, parks, more).tasks)[t] >= multiset(w.tasks)[t]
  {
    ScanKeeps(w.tasks, thread, t);
    CountOfParts(Scanned(w.tasks, thread).tasks, more, t);
  }

  /** All the tasks of the fiber are pinned to that thread. */
  predicate PinnedTo(s: seq<Task>, f: nat, owner: int) {
    forall t :: t in s && t.fiber == Some(f) ==> t.thread == owner
  }

  /** The step leaves the fiber to its own thread: it pins every task of it that it pushes, and that
      thread does not get to work. */
  predicate Elsewhere(step: Step, f: nat, owner: int) {
    match step
    case Push(more) => PinnedTo(more, f, owner)
    case Spawn(_, _) => true
    case Work(thread, _, _, more) => thread != owner && PinnedTo(more, f, owner)
  }

  lemma ScanShrinks(s: seq<Task>, thread: int)
    ensures var r := Scanned(s, thread);
      (forall t :: t in r.tasks ==> t in s) && (r.taken.Some? ==> r.taken.value in s && r.taken.value.For(thread))
  {
  }

  lemma PinnedStep(w: Worker, step: Step, f: nat, owner: int)
    requires Balanced(w) && Enabled(w, step) && f in w.fibers && w.fibers[f].state == HOLD
    requires owner != -1 && PinnedTo(w.tasks, f, owner) && Elsewhere(step, f, owner)
    ensures var w1 := Next(w, step);
      Balanced(w1) && f in w1.fibers && w1.fibers[f] == w.fibers[f] && PinnedTo(w1.tasks, f, owner)
  {
    if step.Push? {
      PushedBalanced(w, step.more, 0);
    } else if step.Work? {
      ScanShrinks(w.tasks, step.thread);
      ParkedUntouched(w, step.thread, step.newFiber, step.parks, step.more, f);
      RoundBalanced(w, step.thread, step.newFiber, step.parks, step.more);
    }
  }

  /** A parked fiber whose tasks are pinned to one thread is never run by the others. */
  lemma {:induction false} PinnedWaits(w: Worker, steps: seq<Step>, f: nat, owner: int)
    requires Balanced(w) && IsRun(w, steps) && f in w.fibers && w.fibers[f].state == HOLD
    requires owner != -1 && PinnedTo(w.tasks, f, owner) && forall step :: step in steps ==> Elsewhere(step, f, owner)
    ensures var w1 := Run(w, steps); f in w1.fibers && w1.fibers[f] == w.fibers[f] && PinnedTo(w1.tasks, f, owner)
    decreases |steps|
  {
    if steps != [] {
      PinnedStep(w, steps[0], f, owner);
      PinnedWaits(Next(w, steps[0]), steps[1..], f, owner);
    }
  }

  // ------------------------------------------------------------------ the classes

  class Fiber {
    ghost const addr: nat
    var state: FiberState
    var cb: Option<nat>

    ghost function Data(): FiberData
      reads this
    {
      FiberData(state, cb)
    }

    constructor (ghost addr: nat, cb: nat)
      ensures Data() == FiberData(INIT, Some(cb)) && this.addr == addr
    {
      this.addr, this.state, this.cb := addr, INIT, Some(cb);
    }

    method Reset(cb: Option<nat>)
      modifies this
      ensures Data() == old(Data()).Reset(cb)
    {
      this.cb := cb;
      state := INIT;
    }

    method YieldToHold()
      requires state == RUNNING || state == HOLD
      modifies this
      ensures Data() == FiberData(HOLD, old(cb))
    {
      state := HOLD;
    }

    /** SwapIn, and ContextFunc on the other side of the switch. */
    method SwapIn(parks: bool)
      modifies this
      ensures Data() == old(Data()).SwappedIn(parks)
    {
      state := RUNNING;
      if cb.Some? && parks {
        YieldToHold();
      } else {
        cb := None;
        state := TERM;
      }
    }
  }

  /** One thread in Run. */
  class WorkerThread {
    const queue: TaskQueue
    var fibers: map<nat, Fiber>
    var cbFiber: Option<nat>
    ghost var tally: Tally

    ghost function Fibers(): map<nat, FiberData>
      reads `fibers, fibers.Values
    {
      map f | f in fibers :: fibers[f].Data()
    }

    ghost function State(): Worker
      reads this, queue, fibers.Values
    {
      Worker(queue.tasks, Fibers(), cbFiber, tally)
    }

    ghost predicate Ok()
      reads `fibers
    {
      forall f :: f in fibers ==> fibers[f].addr == f
    }

    constructor (queue: TaskQueue)
      requires queue.tasks == []
      ensures this.queue == queue && Ok() && Balanced(State())
    {
      this.queue := queue;
      fibers, cbFiber, tally := map[], None, Tally(0, 0, 0, 0);
    }

    /** Only the fiber `f` has changed. */
    twostate lemma OneFiber(f: nat)
      requires old(fibers.Keys) <= fibers.Keys && f in fibers
      requires fibers.Keys <= old(fibers.Keys) + {f}
      requires forall g :: g in old(fibers) ==> fibers[g] == old(fibers[g])
      requires forall g :: g in old(fibers) && g != f ==> fibers[g].Data() == old(fibers[g].Data())
      ensures Fibers() == old(Fibers())[f := fibers[f].Data()]
    {
    }

    /** The fiber runs, and is accounted for. */
    method Swap(f: nat, parks: bool, more: seq<Task>)
      requires Ok() && f in fibers
      modifies `tally, queue, fibers[f]
      ensures State() == RunFiber(old(State()), f, parks, more)
    {
      ghost var w := State();
      fibers[f].SwapIn(parks);
      OneFiber(f);
      assert Fibers() == w.fibers[f := w.fibers[f].SwappedIn(parks)];
      queue.tasks := queue.tasks + more;
      tally := tally.(pushed := tally.pushed + |Valids(more)|);
      tally := if fibers[f].state == TERM then tally.(finished := tally.finished + 1) else tally.(held := tally.held + 1);
    }

    /** The callback fiber is reset, or made if there is none. */
    method Prepare(cb: nat, newFiber: nat) returns (f: nat)
      requires Ok() && newFiber !in fibers && (cbFiber.Some? ==> cbFiber.value in fibers)
      modifies `fibers, if cbFiber.Some? && cbFiber.value in fibers then {fibers[cbFiber.value]} else {}
      ensures Ok() && f in fibers && f == if cbFiber.Some? then cbFiber.value else newFiber
      ensures forall g :: g in fibers ==> (g in old(fibers) && fibers[g] == old(fibers[g])) || fresh(fibers[g])
      ensures Fibers() == old(Fibers())[f := FiberData(INIT, Some(cb))]
    {
      if cbFiber.Some? {
        f := cbFiber.value;
        fibers[f].Reset(Some(cb));
      } else {
        f := newFiber;
        var fiber := new Fiber(newFiber, cb);
        fibers := fibers[f := fiber];
      }
      OneFiber(f);
    }

    /** What happens to the callback fiber after the switch. */
    method Settle(f: nat)
      requires Ok() && f in fibers
      modifies `cbFiber, fibers[f]
      ensures Fibers() == if old(fibers[f].state) == TERM then old(Fibers())[f := FiberData(INIT, None)] else old(Fibers())
      ensures cbFiber == if old(fibers[f].state) == TERM then Some(f) else None
    {
      if fibers[f].state == TERM {
        fibers[f].Reset(None);
        cbFiber := Some(f);
        OneFiber(f);
      } else {
        cbFiber := None;
      }
    }

    method ExecuteCb(cb: nat, newFiber: nat, parks: bool, more: seq<Task>)
      requires Ok() && newFiber !in fibers && (cbFiber.Some? ==> cbFiber.value in fibers)
      modifies this, queue, fibers.Values
      ensures Ok() && State() == RunCb(old(State()), cb, newFiber, parks, more)
    {
      ghost var w := State();
      var f := Prepare(cb, newFiber);
      ghost var w1 := w.(fibers := w.fibers[f := FiberData(INIT, Some(cb))]);
      assert State() == w1;
      Swap(f, parks, more);
      ghost var w2 := RunFiber(w1, f, parks, more);
      assert State() == w2 && w2.fibers[f].state == fibers[f].state;
      Settle(f);
      assert State() == if w2.fibers[f].state == TERM
                        then w2.(fibers := w2.fibers[f := FiberData(INIT, None)], cbFiber := Some(f))
                        else w2.(cbFiber := None);
    }

    /** One round of Run. */
    method WorkOnce(thread: int, newFiber: nat, parks: bool, more: seq<Task>) returns (needNotify: bool)
      requires Ok() && RoundOk(State(), thread, newFiber)
      modifies this, queue, fibers.Values
      ensures Ok() && State() == Round(old(State()), thread, newFiber, parks, more)
      ensures needNotify == (Scanned(old(queue.tasks), thread).tasks != [])
    {
      ghost var w := State();
      var taken: Option<Task>;
      taken, needNotify := queue.Take(thread);
      assert Fibers() == w.fibers;
      if taken.Some? {
        if taken.value.cb.Some? {
          ExecuteCb(taken.value.cb.value, newFiber, parks, more);
        } else {
          var f := taken.value.fiber.value;
          assert w.fibers[f].state == fibers[f].state;
          if fibers[f].state == TERM {
            tally := tally.(dropped := tally.dropped + 1);
          } else {
            Swap(f, parks, more);
          }
        }
      }
    }
  }
}

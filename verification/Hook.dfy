/** The control flow of one hooked call, do_io of src/Hook.cc.

    What the kernel answers and how each wait ends is the environment's; here it is two lists, from
    which the call takes answers as it goes.  What the waiting does to the registrations, the timers
    and the queue is the subject of module Protocol. */
module Hook {
  import opened Common

  datatype Errno = EINTR | EAGAIN | ECONNRESET | EPIPE | EBADF | ETIMEDOUT | Other(code: int)

  /** What the original system call returns. */
  datatype Answer = Value(n: nat) | Failure(errno: Errno)

  /** How a wait ends: the event could not be registered, or the fiber was resumed - by the timeout,
      which has noted ETIMEDOUT in timer_info, or not. */
  datatype Wait = Refused | Resumed(timedOut: bool)

  /** What do_io returns; it is still blocked when the lists are used up. */
  datatype Outcome = Returned(answer: Answer) | WaitRefused | Blocked

  /** The descriptor as the FdManager knows it. */
  datatype Fd = Unknown | Known(closed: bool, socket: bool, userNonblock: bool)

  /** What a call has done to its timers and registrations. */
  datatype Action = Arm | Register | Park | Disarm

  /** The actions of one wait. */
  function Waiting(timed: bool, w: Wait): seq<Action> {
    if timed then (if w.Refused? then [Arm, Register, Disarm] else [Arm, Register, Park, Disarm])
    else (if w.Refused? then [Register] else [Register, Park])
  }

  function AllWaiting(timed: bool, ws: seq<Wait>): seq<Action> {
    if ws == [] then [] else AllWaiting(timed, ws[..|ws| - 1]) + Waiting(timed, ws[|ws| - 1])
  }

  /** How often x occurs. */
  function Count<T(==)>(s: seq<T>, x: T): nat {
    if s == [] then 0 else Count(s[..|s| - 1], x) + if s[|s| - 1] == x then 1 else 0
  }

  // ------------------------------------------------------------------ timers and waits are paired

  /** What the actions leave armed, if they are in order: a timer is armed when none is and disarmed
      when one is, and a call with a timeout never registers or parks without a timer. */
  function Replay(timed: bool, armed: bool, actions: seq<Action>): Option<bool>
    decreases |actions|
  {
    if actions == [] then Some(armed)
    else
      match actions[0]
      case Arm => if timed && !armed then Replay(timed, true, actions[1..]) else None
      case Disarm => if armed then Replay(timed, false, actions[1..]) else None
      case _ => if armed == timed then Replay(timed, armed, actions[1..]) else None
  }

  lemma {:induction false} ReplayParts(timed: bool, armed: bool, a: seq<Action>, b: seq<Action>)
    ensures var left := Replay(timed, armed, a);
      Replay(timed, armed, a + b) == if left.None? then None else Replay(timed, left.value, b)
    decreases |a|
  {
    if a == [] {
      assert a + b == b;
    } else {
      assert (a + b)[0] == a[0] && (a + b)[1..] == a[1..] + b;
      ReplayParts(timed, true, a[1..], b);
      ReplayParts(timed, false, a[1..], b);
    }
  }

  lemma ReplayEnd(timed: bool, armed: bool, a: Action)
    ensures Replay(timed, armed, [a]) ==
      match a
      case Arm => if timed && !armed then Some(true) else None
      case Disarm => if armed then Some(false) else None
      case _ => if armed == timed then Some(armed) else None
  {
    assert [a][1..] == [];
  }

  lemma ReplayTwo(timed: bool, armed: bool, a: Action, b: Action)
    ensures var left := Replay(timed, armed, [a]);
      Replay(timed, armed, [a, b]) == if left.None? then None else Replay(timed, left.value, [b])
  {
    ReplayParts(timed, armed, [a], [b]);
    assert [a] + [b] == [a, b];
  }

  lemma OneWait(timed: bool, w: Wait)
    ensures Replay(timed, false, Waiting(timed, w)) == Some(false)
  {
    ReplayEnd(timed, false, Arm);
    ReplayEnd(timed, timed, Register);
    ReplayEnd(timed, timed, Park);
    ReplayEnd(timed, timed, Disarm);
    ReplayTwo(timed, false, Arm, Register);
    ReplayTwo(timed, timed, Register, Park);
    if timed && w.Refused? {
      ReplayParts(true, false, [Arm, Register], [Disarm]);
      assert [Arm, Register] + [Disarm] == Waiting(timed, w);
    } else if timed {
      ReplayTwo(timed, true, Park, Disarm);
      ReplayParts(true, false, [Arm, Register], [Park, Disarm]);
      assert [Arm, Register] + [Park, Disarm] == Waiting(timed, w);
    }
  }

  lemma {:induction false} CountShort(s: seq<Action>, x: Action)
    requires |s| <= 4
    ensures Count(s, x) == (if |s| > 0 && s[0] == x then 1 else 0) + (if |s| > 1 && s[1] == x then 1 else 0)
                         + (if |s| > 2 && s[2] == x then 1 else 0) + (if |s| > 3 && s[3] == x then 1 else 0)
    decreases |s|
  {
    if s != [] {
      CountShort(s[..|s| - 1], x);
    }
  }

  lemma WaitCounts(timed: bool, w: Wait)
    ensures var done := Waiting(timed, w);
      && Count(done, Register) == 1 && Count(done, Park) == (if w == Refused then 0 else 1)
      && Count(done, Arm) == Count(done, Disarm) == (if timed then 1 else 0)
  {
    forall x: Action {
      CountShort(Waiting(timed, w), x);
    }
  }

  lemma {:induction false} CountParts<T>(a: seq<T>, b: seq<T>, x: T)
    ensures Count(a + b, x) == Count(a, x) + Count(b, x)
    decreases |b|
  {
    if b == [] {
      assert a + b == a;
    } else {
      var n := |b| - 1;
      assert (a + b)[..|a + b| - 1] == a + b[..n];
      CountParts(a, b[..n], x);
    }
  }

  /** However the waits end, every timer is disarmed before the call goes on or returns. */
  lemma {:induction false} TimersPaired(timed: bool, ws: seq<Wait>)
    ensures Replay(timed, false, AllWaiting(timed, ws)) == Some(false)
  {
    if ws != [] {
      var n := |ws| - 1;
      TimersPaired(timed, ws[..n]);
      OneWait(timed, ws[n]);
      ReplayParts(timed, false, AllWaiting(timed, ws[..n]), Waiting(timed, ws[n]));
    }
  }

  /** The call registers once for each wait, and parks for each that was not refused. */
  lemma {:induction false} WaitsCounted(timed: bool, ws: seq<Wait>)
    ensures var done := AllWaiting(timed, ws);
      && Count(done, Register) == |ws| && Count(done, Park) == |ws| - Count(ws, Refused)
      && Count(done, Arm) == Count(done, Disarm) == if timed then |ws| else 0
  {
    if ws != [] {
      var n := |ws| - 1;
      var front, last := AllWaiting(timed, ws[..n]), Waiting(timed, ws[n]);
      WaitsCounted(timed, ws[..n]);
      WaitCounts(timed, ws[n]);
      CountParts(front, last, Register);
      CountParts(front, last, Park);
      CountParts(front, last, Arm);
      CountParts(front, last, Disarm);
    }
  }

  // ------------------------------------------------------------------ the call

  /** One wait: the timer is armed before the event is registered, and disarmed on either way out. */
  method WaitOnce(timed: bool, w: Wait) returns (actions: seq<Action>)
    ensures actions == Waiting(timed, w)
  {
    actions := if timed then [Arm] else [];
    actions := actions + [Register];
    if w.Resumed? {
      actions := actions + [Park];
    }
    if timed {
      actions := actions + [Disarm];
    }
  }

  lemma NextCount<T>(s: seq<T>, n: nat, x: T)
    requires n < |s|
    ensures Count(s[..n + 1], x) == Count(s[..n], x) + if s[n] == x then 1 else 0
  {
    assert s[..n + 1][..n] == s[..n];
  }

  lemma NextWait(timed: bool, ws: seq<Wait>, n: nat)
    requires n < |ws|
    ensures AllWaiting(timed, ws[..n + 1]) == AllWaiting(timed, ws[..n]) + Waiting(timed, ws[n])
  {
    assert ws[..n + 1][..n] == ws[..n];
  }

  /** The loop from the label retry on: answers[..asked] have been used, and waits[..waited].

      The result is the last answer, unless the last wait was refused or timed out; all the answers
      before were interruptions or asked to wait, and there was one wait for each of the latter. */
  method Retry(timed: bool, answers: seq<Answer>, waits: seq<Wait>)
    returns (r: Outcome, asked: nat, waited: nat, actions: seq<Action>)
    ensures asked <= |answers| && waited <= |waits| && actions == AllWaiting(timed, waits[..waited])
    ensures forall i :: 0 <= i < waited - 1 ==> waits[i] == Resumed(false)
    ensures forall i :: 0 <= i < asked - 1 ==> answers[i] == Failure(EINTR) || answers[i] == Failure(EAGAIN)
    ensures waited <= Count(answers[..asked], Failure(EAGAIN))
    ensures r != Blocked ==> asked > 0 && waited == Count(answers[..asked], Failure(EAGAIN))
    ensures r != Blocked && answers[asked - 1] != Failure(EAGAIN) ==>
              r == Returned(answers[asked - 1]) && (waited > 0 ==> waits[waited - 1] == Resumed(false))
    ensures r != Blocked && answers[asked - 1] == Failure(EAGAIN) ==>
              waited > 0 && ((waits[waited - 1] == Refused && r == WaitRefused)
                             || (waits[waited - 1] == Resumed(true) && r == Returned(Failure(ETIMEDOUT))))
    ensures r == Blocked ==>
              asked == |answers| || (waited == |waits| && asked > 0 && answers[asked - 1] == Failure(EAGAIN))
  {
    r, asked, waited, actions := Blocked, 0, 0, [];
    assert waits[..0] == [] && answers[..0] == [];
    while asked < |answers|
      invariant asked <= |answers| && waited <= |waits| && actions == AllWaiting(timed, waits[..waited])
      invariant forall i :: 0 <= i < waited ==> waits[i] == Resumed(false)
      invariant forall i :: 0 <= i < asked ==> answers[i] == Failure(EINTR) || answers[i] == Failure(EAGAIN)
      invariant waited == Count(answers[..asked], Failure(EAGAIN))
    {
      var answer := answers[asked];
      NextCount(answers, asked, Failure(EAGAIN));
      asked := asked + 1;
      if answer == Failure(EINTR) {
        continue;
      }
      if answer != Failure(EAGAIN) {
        r := Returned(answer);
        return;
      }
      if waited == |waits| {
        return;
      }
      var w := waits[waited];
      var more := WaitOnce(timed, w);
      NextWait(timed, waits, waited);
      actions, waited := actions + more, waited + 1;
      if w != Resumed(false) {
        r := if w.Refused? then WaitRefused else Returned(Failure(ETIMEDOUT));
        return;
      }
    }
  }

  /** Only with the hook on, and for an open socket that the user has left blocking, the call goes through
      the loop; the others go straight to the system, but for a closed descriptor. */
  method DoIo(hooked: bool, fd: Fd, timed: bool, answers: seq<Answer>, waits: seq<Wait>)
    returns (r: Outcome, asked: nat, waited: nat, actions: seq<Action>)
    ensures asked <= |answers| && waited <= |waits| && actions == AllWaiting(timed, waits[..waited])
    ensures hooked && fd.Known? && fd.closed ==> r == Returned(Failure(EBADF)) && asked == 0
    ensures !(hooked && fd.Known? && fd.closed) && !(hooked && fd == Known(false, true, false)) ==>
              waited == 0 && if answers == [] then r == Blocked else asked == 1 && r == Returned(answers[0])
    ensures hooked && fd == Known(false, true, false) && r != Blocked ==>
              && asked > 0 && waited == Count(answers[..asked], Failure(EAGAIN))
              && (forall i :: 0 <= i < asked - 1 ==> answers[i] == Failure(EINTR) || answers[i] == Failure(EAGAIN))
              && (forall i :: 0 <= i < waited - 1 ==> waits[i] == Resumed(false))
    ensures hooked && fd == Known(false, true, false) && r != Blocked && answers[asked - 1] != Failure(EAGAIN) ==>
              r == Returned(answers[asked - 1]) && (waited > 0 ==> waits[waited - 1] == Resumed(false))
    ensures hooked && fd == Known(false, true, false) && r != Blocked && answers[asked - 1] == Failure(EAGAIN) ==>
              waited > 0 && ((waits[waited - 1] == Refused && r == WaitRefused)
                             || (waits[waited - 1] == Resumed(true) && r == Returned(Failure(ETIMEDOUT))))
    ensures hooked && fd == Known(false, true, false) && r == Blocked ==>
              asked == |answers| || (waited == |waits| && asked > 0 && answers[asked - 1] == Failure(EAGAIN))
  {
    r, asked, waited, actions := Blocked, 0, 0, [];
    if hooked && fd.Known? && fd.closed {
      r := Returned(Failure(EBADF));
    } else if hooked && fd.Known? && fd.socket && !fd.userNonblock {
      r, asked, waited, actions := Retry(timed, answers, waits);
    } else if answers != [] {
      r, asked := Returned(answers[0]), 1;
    }
  }
}

/** The timer set of src/Timer.cc: a std::set of timers ordered by due time and address.

    A pointer is an address, a number.  Every timer ever created keeps its own address, and the
    environment picks the address of a new one, so nothing depends on how equal due times are
    ordered.  Times are 64-bit milliseconds and wrap around. */
module Timers {
  import opened Common

  const WORD_MAX: nat := 0xFFFF_FFFF_FFFF_FFFF

  const HOUR: nat := 60 * 60 * 1000

  /** Arithmetic on uint64_t */
  function Wrap(n: int): nat {
    n % 0x1_0000_0000_0000_0000
  }

  type Addr = nat

  /** The fields of a Timer; the callback is gone once it is cancelled or has fired its last time. */
  datatype TimerData = TimerData(ms: nat, next: nat, repeats: bool, cb: Option<nat>)

  type Memory = map<Addr, TimerData>

  /** m_timers as the addresses in the order of the set, m_notify and m_previoustime. */
  datatype State = State(mem: Memory, timers: seq<Addr>, notify: bool, previous: nat)

  // ------------------------------------------------------------------ the ordered set

  /** Timer::Compare on (due time, address) */
  predicate Before(next1: nat, a1: Addr, next2: nat, a2: Addr) {
    if next1 == next2 then a1 < a2 else next1 < next2
  }

  /** The due time of a timer; the set only holds addresses of timers (Sorted). */
  function Next(mem: Memory, a: Addr): nat {
    if a in mem then mem[a].next else 0
  }

  predicate Less(mem: Memory, a: Addr, b: Addr) {
    Before(Next(mem, a), a, Next(mem, b), b)
  }

  predicate Within(mem: Memory, s: seq<Addr>) {
    forall i :: 0 <= i < |s| ==> s[i] in mem
  }

  predicate Ascending(mem: Memory, s: seq<Addr>) {
    |s| < 2 || (Less(mem, s[0], s[1]) && Ascending(mem, s[1..]))
  }

  predicate Sorted(mem: Memory, s: seq<Addr>) {
    Within(mem, s) && Ascending(mem, s)
  }

  /** std::set::lower_bound: how many elements come before the key. */
  function LowerBound(mem: Memory, s: seq<Addr>, next: nat, a: Addr): (n: nat)
    ensures n <= |s|
  {
    if s == [] || !Before(Next(mem, s[0]), s[0], next, a) then 0 else 1 + LowerBound(mem, s[1..], next, a)
  }

  /** std::set::upper_bound: how many elements do not come behind the key. */
  function UpperBound(mem: Memory, s: seq<Addr>, next: nat, a: Addr): (n: nat)
    ensures n <= |s|
  {
    if s == [] || Before(next, a, Next(mem, s[0]), s[0]) then 0 else 1 + UpperBound(mem, s[1..], next, a)
  }

  /** std::set::find, by key. */
  function Find(mem: Memory, s: seq<Addr>, a: Addr): (r: Option<nat>)
    ensures r.Some? ==> r.value < |s|
  {
    var n := LowerBound(mem, s, Next(mem, a), a);
    if n < |s| && !Less(mem, a, s[n]) then Some(n) else None
  }

  /** std::set::insert, which does nothing when the key is there, and the place of the key. */
  function Insert(mem: Memory, s: seq<Addr>, a: Addr): (seq<Addr>, nat)
  {
    var n := LowerBound(mem, s, Next(mem, a), a);
    if n < |s| && !Less(mem, a, s[n]) then (s, n) else (s[..n] + [a] + s[n..], n)
  }

  function Erase(s: seq<Addr>, i: nat): seq<Addr>
    requires i < |s|
  {
    s[..i] + s[i + 1..]
  }

  // ------------------------------------------------------------------ the operations

  /** addtimer: also says whether the new timer is the first to fall due and nobody knows that yet. */
  function AddTimer(t: State, a: Addr): (State, bool)
    requires a in t.mem
  {
    var (s, i) := Insert(t.mem, t.timers, a);
    var needNotify := i == 0 && !t.notify;
    (t.(timers := s, notify := t.notify || needNotify), needNotify)
  }

  /** addTimer */
  function Added(t: State, a: Addr, ms: nat, cb: Option<nat>, repeats: bool, now: nat): (State, bool)
    requires a !in t.mem
  {
    AddTimer(t.(mem := t.mem[a := TimerData(ms, Wrap(now + ms), repeats, cb)]), a)
  }

  /** What an operation returns, and whether it calls Haslatest. */
  datatype Answer = Answer(ok: bool, notified: bool)

  /** Takes a timer out of the set, changes its times and puts it back, if it is there. */
  function Moved(t: State, a: Addr, ms: nat, next: nat): (State, Answer)
    requires a in t.mem
  {
    var it := Find(t.mem, t.timers, a);
    if it.None? then (t, Answer(false, false)) else
    var mem := t.mem[a := t.mem[a].(ms := ms, next := Wrap(next))];
    var (t1, needNotify) := AddTimer(t.(timers := Erase(t.timers, it.value), mem := mem), a);
    (t1, Answer(true, needNotify))
  }

  /** refresh */
  function Refreshed(t: State, a: Addr, now: nat): (State, Answer)
    requires a in t.mem
  {
    if t.mem[a].cb.None? then (t, Answer(false, false)) else Moved(t, a, t.mem[a].ms, now + t.mem[a].ms)
  }

  /** reset: without from_now the new period is counted from when the timer would have fallen due. */
  function WithReset(t: State, a: Addr, ms: nat, fromNow: bool, now: nat): (State, Answer)
    requires a in t.mem
  {
    if t.mem[a].ms == ms && !fromNow then (t, Answer(true, false))
    else Moved(t, a, ms, (if fromNow then now else t.mem[a].next) + ms)
  }

  /** cancel */
  function Cancelled(t: State, a: Addr): (State, Answer)
    requires a in t.mem
  {
    if t.mem[a].cb.None? then (t, Answer(false, false)) else
    var t1 := t.(mem := t.mem[a := t.mem[a].(cb := None)]);
    var it := Find(t1.mem, t.timers, a);
    if it.None? then (t1, Answer(false, false)) else (t1.(timers := Erase(t.timers, it.value)), Answer(true, false))
  }

  /** getNextTimer: the flag is cleared, and the time until the first timer falls due. */
  function NextTimer(t: State, now: nat): (State, nat)
    requires Within(t.mem, t.timers)
  {
    (t.(notify := false),
     if t.timers == [] then WORD_MAX
     else if t.mem[t.timers[0]].next > now then t.mem[t.timers[0]].next - now else 0)
  }

  /** detectClockRollover, with the wrap-around of m_previoustime - 60*60*1000 */
  predicate Rollover(t: State, now: nat) {
    now < t.previous && now < Wrap(t.previous - HOUR)
  }

  /** A timer before and after it fired. */
  function AfterFiring(d: TimerData, now: nat): TimerData {
    if d.repeats then d.(next := Wrap(now + d.ms)) else d.(cb := None)
  }

  /** One round of the loop over the expired timers. */
  function FireOne(t: State, a: Addr, now: nat): State
    requires a in t.mem
  {
    var mem := t.mem[a := AfterFiring(t.mem[a], now)];
    t.(mem := mem, timers := if t.mem[a].repeats then Insert(mem, t.timers, a).0 else t.timers)
  }

  /** The loop over the expired timers. */
  function Fire(t: State, batch: seq<Addr>, now: nat): (State, seq<nat>)
    requires Within(t.mem, batch)
    decreases |batch|
  {
    if batch == [] then (t, []) else
    var a := batch[0];
    var calls := if t.mem[a].cb.Some? then [t.mem[a].cb.value] else [];
    var t1 := FireOne(t, a, now);
    assert Within(t1.mem, batch[1..]) by { assert forall i :: 0 <= i < |batch[1..]| ==> batch[1..][i] == batch[i + 1]; }
    var (t2, rest) := Fire(t1, batch[1..], now);
    (t2, calls + rest)
  }

  /** One round of the loop, and the rest. */
  lemma FireStep(t: State, batch: seq<Addr>, now: nat)
    requires Within(t.mem, batch) && batch != []
    ensures batch[0] in t.mem && Within(FireOne(t, batch[0], now).mem, batch[1..])
    ensures Fire(t, batch, now).0 == Fire(FireOne(t, batch[0], now), batch[1..], now).0
    ensures Fire(t, batch, now).1 ==
            (if t.mem[batch[0]].cb.Some? then [t.mem[batch[0]].cb.value] else [])
            + Fire(FireOne(t, batch[0], now), batch[1..], now).1
  {
    assert forall i :: 0 <= i < |batch[1..]| ==> batch[1..][i] == batch[i + 1];
  }

  /** What listExpiredCb does: nothing falls due, a batch of timers expires, or the iterator is moved
      past the end of the set, which has no defined meaning. */
  datatype Expiry = Quiet | Batch(timers: seq<Addr>, calls: seq<nat>) | PastTheEnd
  {
    function Callbacks(): seq<nat> { if Batch? then calls else [] }
  }

  /** listExpiredCb, where `probe` is the address of the timer that serves as the key of the search.
      The search finds the first timer behind the key, and the iterator then moves one further. */
  function Expired(t: State, now: nat, probe: Addr): (State, Expiry)
    requires Within(t.mem, t.timers)
  {
    if t.timers == [] then (t, Quiet) else
    var rollover := Rollover(t, now);
    var t1 := if rollover then t else t.(previous := now);
    if !rollover && t.mem[t.timers[0]].next > now then (t1, Quiet) else
    var it := if rollover then |t.timers| else UpperBound(t.mem, t.timers, now, probe);
    if it == |t.timers| then (t1, PastTheEnd) else
    var batch := t.timers[..it + 1];
    var (t2, calls) := Fire(t1.(timers := t.timers[it + 1..]), batch, now);
    (t2, Batch(batch, calls))
  }

  // ------------------------------------------------------------------ the set is a set

  /** An ascending sequence has every element before every later one. */
  lemma {:induction false} Ordered(mem: Memory, s: seq<Addr>)
    requires Ascending(mem, s)
    ensures forall i, j :: 0 <= i < j < |s| ==> Less(mem, s[i], s[j])
  {
    if |s| >= 2 {
      var r := s[1..];
      Ordered(mem, r);
      forall i, j | 0 <= i < j < |s| ensures Less(mem, s[i], s[j]) {
        assert s[j] == r[j - 1];
        if i > 0 {
          assert s[i] == r[i - 1];
        } else if j > 1 {
          assert Less(mem, r[0], r[j - 1]);
        }
      }
    }
  }

  lemma {:induction false} Chained(mem: Memory, s: seq<Addr>)
    requires forall i :: 0 < i < |s| ==> Less(mem, s[i - 1], s[i])
    ensures Ascending(mem, s)
  {
    if |s| >= 2 {
      var r := s[1..];
      forall i | 0 < i < |r| ensures Less(mem, r[i - 1], r[i]) {
        assert Less(mem, s[i + 1 - 1], s[i + 1]);
      }
      assert Less(mem, s[1 - 1], s[1]);
      Chained(mem, r);
    }
  }

  /** What comes before the key is exactly what is in front of its lower bound. */
  lemma {:induction false} LowerSplits(mem: Memory, s: seq<Addr>, next: nat, a: Addr)
    requires Ascending(mem, s)
    ensures forall i :: 0 <= i < |s| ==> (i < LowerBound(mem, s, next, a) <==> Before(Next(mem, s[i]), s[i], next, a))
  {
    if s != [] {
      var r := s[1..];
      LowerSplits(mem, r, next, a);
      Ordered(mem, s);
      forall i | 0 <= i < |s|
        ensures i < LowerBound(mem, s, next, a) <==> Before(Next(mem, s[i]), s[i], next, a)
      {
        if i > 0 {
          assert s[i] == r[i - 1];
          assert Less(mem, s[0], s[i]);
        }
      }
    }
  }

  /** What comes behind the key is exactly what starts at its upper bound. */
  lemma {:induction false} UpperSplits(mem: Memory, s: seq<Addr>, next: nat, a: Addr)
    requires Ascending(mem, s)
    ensures forall i :: 0 <= i < |s| ==> (i < UpperBound(mem, s, next, a) <==> !Before(next, a, Next(mem, s[i]), s[i]))
  {
    if s != [] {
      var r := s[1..];
      UpperSplits(mem, r, next, a);
      Ordered(mem, s);
      forall i | 0 <= i < |s|
        ensures i < UpperBound(mem, s, next, a) <==> !Before(next, a, Next(mem, s[i]), s[i])
      {
        if i > 0 {
          assert s[i] == r[i - 1];
          assert Less(mem, s[0], s[i]);
        }
      }
    }
  }

  /** Searching by key finds exactly the timers that are in the set. */
  lemma FindExact(mem: Memory, s: seq<Addr>, a: Addr)
    requires Ascending(mem, s)
    ensures Find(mem, s, a).Some? <==> a in s
    ensures Find(mem, s, a).Some? ==> s[Find(mem, s, a).value] == a
  {
    LowerSplits(mem, s, Next(mem, a), a);
  }

  /** Inserting keeps the order, adds just the timer, and places it first exactly when no other timer
      falls due before it. */
  lemma InsertSorted(mem: Memory, s: seq<Addr>, a: Addr)
    requires Sorted(mem, s) && a in mem && a !in s
    ensures Sorted(mem, Insert(mem, s, a).0)
    ensures forall b :: b in Insert(mem, s, a).0 <==> b in s || b == a
    ensures Insert(mem, s, a).1 == 0 <==> forall b :: b in s ==> Less(mem, a, b)
  {
    var n := LowerBound(mem, s, Next(mem, a), a);
    LowerSplits(mem, s, Next(mem, a), a);
    Ordered(mem, s);
    var r := s[..n] + [a] + s[n..];
    assert r == Insert(mem, s, a).0;
    forall i | 0 < i < |r| ensures Less(mem, r[i - 1], r[i]) {
      assert i < n ==> r[i - 1] == s[i - 1] && r[i] == s[i];
      assert i > n + 1 ==> r[i - 1] == s[i - 2] && r[i] == s[i - 1];
    }
    Chained(mem, r);
    assert n > 0 ==> s[0] in s && Less(mem, s[0], a);
  }

  lemma InsertWithin(mem: Memory, s: seq<Addr>, a: Addr)
    requires Within(mem, s) && a in mem
    ensures Within(mem, Insert(mem, s, a).0)
  {
    var (r, n) := Insert(mem, s, a);
    forall i | 0 <= i < |r| ensures r[i] in mem {
      assert i < n ==> r[i] == s[i];
      assert r != s && i > n ==> r[i] == s[i - 1];
    }
  }

  lemma EraseSorted(mem: Memory, s: seq<Addr>, i: nat)
    requires Sorted(mem, s) && i < |s|
    ensures Sorted(mem, Erase(s, i))
    ensures forall b :: b in Erase(s, i) <==> b in s && b != s[i]
  {
    Ordered(mem, s);
    var r := Erase(s, i);
    assert forall j :: 0 <= j < |r| ==> r[j] == s[if j < i then j else j + 1];
    Chained(mem, r);
    forall b | b in s && b != s[i] ensures b in r {
      var j :| 0 <= j < |s| && s[j] == b;
      assert r[if j < i then j else j - 1] == b;
    }
  }

  /** As long as no due time in the set changes, the order stays. */
  lemma SameTimes(mem: Memory, mem1: Memory, s: seq<Addr>)
    requires Sorted(mem, s)
    requires forall i :: 0 <= i < |s| ==> s[i] in mem1 && Next(mem1, s[i]) == Next(mem, s[i])
    ensures Sorted(mem1, s)
  {
    Ordered(mem, s);
    forall i | 0 < i < |s| ensures Less(mem1, s[i - 1], s[i]) {
      assert Less(mem, s[i - 1], s[i]);
    }
    Chained(mem1, s);
  }

  /** Changing a timer that is not in the set leaves the order alone. */
  lemma Outside(mem: Memory, s: seq<Addr>, a: Addr, d: TimerData)
    requires Sorted(mem, s) && a !in s
    ensures Sorted(mem[a := d], s)
  {
    SameTimes(mem, mem[a := d], s);
  }

  // ------------------------------------------------------------------ what every operation keeps

  /** The set is strictly ordered, so that each timer is in it once; and a timer that still has its
      callback is in it. */
  predicate Valid(t: State) {
    && Sorted(t.mem, t.timers)
    && (forall a :: a in t.mem && t.mem[a].cb.Some? ==> a in t.timers)
  }

  /** The set after an operation holds the old timers without `out`, and `more`. */
  ghost predicate Holds(s: seq<Addr>, s0: seq<Addr>, out: set<Addr>, more: set<Addr>) {
    forall b :: b in s <==> (b in s0 && b !in out) || b in more
  }

  lemma AddTimerValid(t: State, a: Addr)
    requires Sorted(t.mem, t.timers) && a in t.mem && a !in t.timers
    requires forall b :: b in t.mem && t.mem[b].cb.Some? ==> b in t.timers || b == a
    ensures Valid(AddTimer(t, a).0) && Holds(AddTimer(t, a).0.timers, t.timers, {}, {a})
    ensures AddTimer(t, a).1 <==> !t.notify && forall b :: b in t.timers ==> Less(t.mem, a, b)
    ensures AddTimer(t, a).0.notify == (t.notify || AddTimer(t, a).1)
  {
    InsertSorted(t.mem, t.timers, a);
  }

  lemma AddedValid(t: State, a: Addr, ms: nat, cb: Option<nat>, repeats: bool, now: nat, t1: State, notified: bool)
    requires Valid(t) && a !in t.mem && (t1, notified) == Added(t, a, ms, cb, repeats, now)
    ensures Valid(t1) && Holds(t1.timers, t.timers, {}, {a})
    ensures t1.mem == t.mem[a := TimerData(ms, (now + ms) % 0x1_0000_0000_0000_0000, repeats, cb)]
    ensures notified <==> !t.notify && forall b :: b in t.timers ==> Less(t1.mem, a, b)
    ensures t1.notify == (t.notify || notified)
  {
    var d := TimerData(ms, Wrap(now + ms), repeats, cb);
    Outside(t.mem, t.timers, a, d);
    AddTimerValid(t.(mem := t.mem[a := d]), a);
  }

  lemma MovedValid(t: State, a: Addr, ms: nat, next: nat, t1: State, r: Answer, d: TimerData)
    requires Valid(t) && a in t.mem && (t1, r) == Moved(t, a, ms, next) && d == t.mem[a].(ms := ms, next := Wrap(next))
    ensures Valid(t1) && Holds(t1.timers, t.timers, {}, {}) && (r.ok <==> a in t.timers)
    ensures t1.mem == if r.ok then t.mem[a := d] else t.mem
    ensures r.notified <==> r.ok && !t.notify && forall b :: b in t.timers && b != a ==> Less(t1.mem, a, b)
    ensures t1.notify == (t.notify || r.notified)
  {
    FindExact(t.mem, t.timers, a);
    if a in t.timers {
      var s := Erase(t.timers, Find(t.mem, t.timers, a).value);
      EraseSorted(t.mem, t.timers, Find(t.mem, t.timers, a).value);
      var d := t.mem[a].(ms := ms, next := Wrap(next));
      Outside(t.mem, s, a, d);
      AddTimerValid(t.(timers := s, mem := t.mem[a := d]), a);
    }
  }

  lemma RefreshedValid(t: State, a: Addr, now: nat, t1: State, r: Answer)
    requires Valid(t) && a in t.mem && (t1, r) == Refreshed(t, a, now)
    ensures Valid(t1) && Holds(t1.timers, t.timers, {}, {})
    ensures r.ok <==> t.mem[a].cb.Some?
    ensures t1.mem == if r.ok then t.mem[a := t.mem[a].(next := (now + t.mem[a].ms) % 0x1_0000_0000_0000_0000)] else t.mem
  {
    if t.mem[a].cb.Some? {
      var next := now + t.mem[a].ms;
      MovedValid(t, a, t.mem[a].ms, next, t1, r, t.mem[a].(next := Wrap(next)));
    }
  }

  lemma WithResetValid(t: State, a: Addr, ms: nat, fromNow: bool, now: nat, t1: State, r: Answer)
    requires Valid(t) && a in t.mem && (t1, r) == WithReset(t, a, ms, fromNow, now)
    ensures Valid(t1) && Holds(t1.timers, t.timers, {}, {})
    ensures r.ok <==> a in t.timers || (t.mem[a].ms == ms && !fromNow)
    ensures t1.mem == if (t.mem[a].ms == ms && !fromNow) || a !in t.timers then t.mem
                      else var from := if fromNow then now else t.mem[a].next;
                        t.mem[a := t.mem[a].(ms := ms, next := (from + ms) % 0x1_0000_0000_0000_0000)]
  {
    if !(t.mem[a].ms == ms && !fromNow) {
      var next := (if fromNow then now else t.mem[a].next) + ms;
      MovedValid(t, a, ms, next, t1, r, t.mem[a].(ms := ms, next := Wrap(next)));
    }
  }

  /** Cancelling takes the timer out whenever it still has its callback, and says so. */
  lemma CancelledValid(t: State, a: Addr, t1: State, r: Answer)
    requires Valid(t) && a in t.mem && (t1, r) == Cancelled(t, a)
    ensures Valid(t1) && (r.ok <==> t.mem[a].cb.Some?)
    ensures Holds(t1.timers, t.timers, if r.ok then {a} else {}, {})
    ensures t1.mem == t.mem[a := t.mem[a].(cb := None)]
  {
    if t.mem[a].cb.Some? {
      var mem := t.mem[a := t.mem[a].(cb := None)];
      SameTimes(t.mem, mem, t.timers);
      FindExact(mem, t.timers, a);
      EraseSorted(mem, t.timers, Find(mem, t.timers, a).value);
    }
  }

  /** The first timer of the set is the first to fall due. */
  lemma FirstIsEarliest(t: State, a: Addr)
    requires Valid(t) && a in t.timers
    ensures Next(t.mem, t.timers[0]) <= Next(t.mem, a)
  {
    Ordered(t.mem, t.timers);
    var i :| 0 <= i < |t.timers| && t.timers[i] == a;
    assert i > 0 ==> Less(t.mem, t.timers[0], t.timers[i]);
  }

  // ------------------------------------------------------------------ expiry

  predicate NoDuplicates(s: seq<Addr>) {
    forall i, j :: 0 <= i < j < |s| ==> s[i] != s[j]
  }

  /** The one-shot timers of a batch. */
  function OneShots(mem: Memory, batch: seq<Addr>): set<Addr>
    requires Within(mem, batch)
  {
    set a | a in batch && !mem[a].repeats
  }

  lemma FireOneValid(t: State, a: Addr, now: nat, t1: State)
    requires Sorted(t.mem, t.timers) && a in t.mem && a !in t.timers && t1 == FireOne(t, a, now)
    ensures Sorted(t1.mem, t1.timers) && t1.mem == t.mem[a := AfterFiring(t.mem[a], now)]
    ensures t1 == t.(mem := t1.mem, timers := t1.timers)
    ensures Holds(t1.timers, t.timers, {}, if t.mem[a].repeats then {a} else {})
  {
    Outside(t.mem, t.timers, a, AfterFiring(t.mem[a], now));
    if t.mem[a].repeats {
      InsertSorted(t1.mem, t.timers, a);
    }
  }

  /** What a timer looks like when it has fired: a repeating one is due one period from now, in 64-bit
      milliseconds; another one has lost its callback; and nothing else about it has changed. */
  predicate HasFired(was: TimerData, d: TimerData, now: nat) {
    && d.ms == was.ms && d.repeats == was.repeats
    && (was.repeats ==> d.next == (now + was.ms) % 0x1_0000_0000_0000_0000 && d.cb == was.cb)
    && (!was.repeats ==> d.next == was.next && d.cb == None)
  }

  /** Firing a batch that was taken out of the set: repeaters are back with their next due time, the
      others are out and have lost their callback, and nothing else has changed. */
  lemma {:induction false} FireValid(t: State, batch: seq<Addr>, now: nat, t1: State)
    requires Sorted(t.mem, t.timers) && Within(t.mem, batch) && NoDuplicates(batch)
    requires forall a :: a in batch ==> a !in t.timers
    requires forall a :: a in t.mem && t.mem[a].cb.Some? ==> a in t.timers || a in batch
    requires t1 == Fire(t, batch, now).0
    ensures Valid(t1) && t1.mem.Keys == t.mem.Keys && t1.notify == t.notify && t1.previous == t.previous
    ensures forall a :: a in t.mem ==> if a in batch then HasFired(t.mem[a], t1.mem[a], now) else t1.mem[a] == t.mem[a]
    ensures forall a :: a in t1.timers <==> a in t.timers || (a in batch && t.mem[a].repeats)
    decreases |batch|
  {
    if batch != [] {
      var a := batch[0];
      var s := FireOne(t, a, now);
      FireOneValid(t, a, now, s);
      var rest := batch[1..];
      assert forall i :: 0 <= i < |rest| ==> rest[i] == batch[i + 1];
      assert forall b :: b in batch <==> b == a || b in rest;
      FireValid(s, rest, now, t1);
    }
  }

  /** The callbacks of a batch, in order. */
  function Calls(mem: Memory, batch: seq<Addr>): seq<nat>
    requires Within(mem, batch)
    decreases |batch|
  {
    if batch == [] then []
    else
      assert Within(mem, batch[1..]) by { assert forall i :: 0 <= i < |batch[1..]| ==> batch[1..][i] == batch[i + 1]; }
      (if mem[batch[0]].cb.Some? then [mem[batch[0]].cb.value] else []) + Calls(mem, batch[1..])
  }

  /** The callbacks handed out are those the timers had when the batch was taken. */
  lemma {:induction false} FireCalls(t: State, mem: Memory, batch: seq<Addr>, now: nat)
    requires Within(t.mem, batch) && Within(mem, batch) && NoDuplicates(batch)
    requires forall a :: a in batch ==> mem[a] == t.mem[a]
    ensures Fire(t, batch, now).1 == Calls(mem, batch)
    decreases |batch|
  {
    if batch != [] {
      var rest := batch[1..];
      assert forall i :: 0 <= i < |rest| ==> rest[i] == batch[i + 1];
      assert batch[0] !in rest;
      FireCalls(FireOne(t, batch[0], now), mem, rest, now);
    }
  }

  lemma SortedDistinct(mem: Memory, s: seq<Addr>)
    requires Ascending(mem, s)
    ensures NoDuplicates(s)
  {
    Ordered(mem, s);
    forall i, j | 0 <= i < j < |s| ensures s[i] != s[j] {
      assert Less(mem, s[i], s[j]);
    }
  }

  lemma SortedTail(mem: Memory, s: seq<Addr>, n: nat)
    requires Sorted(mem, s) && n <= |s|
    ensures Sorted(mem, s[n..]) && Within(mem, s[..n])
  {
    Ordered(mem, s);
    forall i | 0 < i < |s[n..]| ensures Less(mem, s[n..][i - 1], s[n..][i]) {
      assert Less(mem, s[n + i - 1], s[n + i]);
    }
    Chained(mem, s[n..]);
  }

  /** Taking the first `n` timers out of the set and firing them. */
  lemma BatchValid(t: State, n: nat, now: nat, batch: seq<Addr>, t1: State, calls: seq<nat>)
    requires Valid(t) && n <= |t.timers| && batch == t.timers[..n] && Within(t.mem, batch)
    requires (t1, calls) == Fire(t.(timers := t.timers[n..]), batch, now)
    ensures Valid(t1) && calls == Calls(t.mem, batch)
    ensures t1.mem.Keys == t.mem.Keys && t1.notify == t.notify && t1.previous == t.previous
    ensures forall a :: a in t.mem ==> if a in batch then HasFired(t.mem[a], t1.mem[a], now) else t1.mem[a] == t.mem[a]
    ensures Holds(t1.timers, t.timers, OneShots(t.mem, batch), {})
  {
    SortedTail(t.mem, t.timers, n);
    SortedDistinct(t.mem, t.timers);
    var t0 := t.(timers := t.timers[n..]);
    assert t.timers == batch + t0.timers;
    assert forall a :: a in t.timers <==> a in batch || a in t0.timers;
    assert forall a :: a in batch ==> a !in t0.timers;
    FireCalls(t0, t.mem, batch, now);
    FireValid(t0, batch, now, t1);
  }

  lemma BatchIs(t: State, now: nat, probe: Addr, t1: State, x: Expiry)
    requires Within(t.mem, t.timers) && (t1, x) == Expired(t, now, probe)
    ensures x.Batch? ==>
              && t.timers != [] && !Rollover(t, now) && 0 < |x.timers| <= |t.timers|
              && x.timers == t.timers[..|x.timers|] && Within(t.mem, x.timers)
              && (t1, x.calls) == Fire(t.(previous := now, timers := t.timers[|x.timers|..]), x.timers, now)
    ensures x.Quiet? ==> t1 == if t.timers == [] then t else t.(previous := now)
    ensures x.PastTheEnd? ==> t.timers != [] && t1 == if Rollover(t, now) then t else t.(previous := now)
  {
  }

  /** What listExpiredCb keeps: the order, and every timer except the one-shot timers of the batch;
      repeating timers are back in the set, due one period from now. */
  lemma ExpiredValid(t: State, now: nat, probe: Addr, t1: State, x: Expiry)
    requires Valid(t) && (t1, x) == Expired(t, now, probe)
    ensures Valid(t1) && t1.mem.Keys == t.mem.Keys
    ensures !x.Batch? ==> t1.mem == t.mem && t1.timers == t.timers
    ensures x.Batch? ==>
              && 0 < |x.timers| <= |t.timers| && x.timers == t.timers[..|x.timers|] && NoDuplicates(x.timers)
              && (forall a :: a in t.mem ==>
                if a in x.timers then HasFired(t.mem[a], t1.mem[a], now) else t1.mem[a] == t.mem[a])
              && Within(t.mem, x.timers) && x.calls == Calls(t.mem, x.timers)
              && Holds(t1.timers, t.timers, OneShots(t.mem, x.timers), {})
  {
    BatchIs(t, now, probe, t1, x);
    if x.Batch? {
      SortedDistinct(t.mem, t.timers);
      BatchValid(t.(previous := now), |x.timers|, now, x.timers, t1, x.calls);
    }
  }

  /** The timers that ought to expire. */
  predicate Due(t: State, now: nat, a: Addr) {
    a in t.timers && a in t.mem && (Rollover(t, now) || t.mem[a].next <= now)
  }

  ghost predicate NobodyDue(t: State, now: nat) {
    forall a :: !Due(t, now, a)
  }

  /** Exactly the due timers have expired. */
  ghost predicate ExpiresTheDue(t: State, now: nat, x: Expiry) {
    match x
    case Quiet => NobodyDue(t, now)
    case Batch(batch, _) => forall a :: a in batch <==> Due(t, now, a)
    case PastTheEnd => false
  }

  /** A timer that falls due in this very millisecond and is placed behind the search key. */
  predicate JustDue(t: State, now: nat, probe: Addr, a: Addr) {
    a in t.timers && a in t.mem && t.mem[a].next == now && probe < a
  }

  ghost predicate OneJustDue(t: State, now: nat, probe: Addr) {
    exists a :: JustDue(t, now, probe, a) && forall b :: JustDue(t, now, probe, b) ==> b == a
  }

  /** The batch reaches one timer behind the search key, whether that one is due or not; and there
      may be no such timer. */
  lemma WhatExpires(t: State, now: nat, probe: Addr)
    requires Valid(t) && t.timers != [] && !Rollover(t, now) && Due(t, now, t.timers[0])
    ensures var n := UpperBound(t.mem, t.timers, now, probe);
      && (forall i :: 0 <= i < |t.timers| ==>
        (i < n <==> Due(t, now, t.timers[i]) && !JustDue(t, now, probe, t.timers[i])))
      && Expired(t, now, probe).1.PastTheEnd? == (n == |t.timers|)
      && (n < |t.timers| ==> Expired(t, now, probe).1.Batch? && Expired(t, now, probe).1.timers == t.timers[..n + 1])
  {
    UpperSplits(t.mem, t.timers, now, probe);
  }

  lemma JustDueAfter(t: State, now: nat, probe: Addr, n: nat)
    requires Valid(t) && n <= |t.timers| && !Rollover(t, now)
    requires Behind(t, now, probe, n)
    ensures n < |t.timers| && (forall a :: a in t.timers[..n + 1] <==> Due(t, now, a))
            <==> OneJustDue(t, now, probe)
  {
    if n < |t.timers| && forall a :: a in t.timers[..n + 1] <==> Due(t, now, a) {
      ExactThenOne(t, now, probe, n);
    }
    if OneJustDue(t, now, probe) {
      OneThenExact(t, now, probe, n);
    }
  }

  /** The first n timers are those that are due in front of the search key. */
  predicate Behind(t: State, now: nat, probe: Addr, n: nat) {
    && n <= |t.timers|
    && forall i :: 0 <= i < |t.timers| ==> (i < n <==> Due(t, now, t.timers[i]) && !JustDue(t, now, probe, t.timers[i]))
  }

  lemma ExactThenOne(t: State, now: nat, probe: Addr, n: nat)
    requires Valid(t) && Behind(t, now, probe, n) && n < |t.timers|
    requires forall a :: a in t.timers[..n + 1] <==> Due(t, now, a)
    ensures OneJustDue(t, now, probe)
  {
    assert t.timers[n] in t.timers[..n + 1];
    assert JustDue(t, now, probe, t.timers[n]);
    forall b | JustDue(t, now, probe, b) ensures b == t.timers[n] {
      assert Due(t, now, b);
      assert b in t.timers[..n + 1];
    }
  }

  lemma OneThenExact(t: State, now: nat, probe: Addr, n: nat)
    requires Valid(t) && !Rollover(t, now) && Behind(t, now, probe, n) && OneJustDue(t, now, probe)
    ensures n < |t.timers| && forall a :: a in t.timers[..n + 1] <==> Due(t, now, a)
  {
    SortedDistinct(t.mem, t.timers);
    Ordered(t.mem, t.timers);
    var a :| JustDue(t, now, probe, a) && forall b :: JustDue(t, now, probe, b) ==> b == a;
    var i :| 0 <= i < |t.timers| && t.timers[i] == a;
    assert i >= n;
    assert Due(t, now, t.timers[n]);
    assert JustDue(t, now, probe, t.timers[n]);
    forall b ensures b in t.timers[..n + 1] <==> Due(t, now, b) {
      if Due(t, now, b) && b != a {
        var j :| 0 <= j < |t.timers| && t.timers[j] == b;
        assert j < n;
      }
      if b in t.timers[..n + 1] {
        var j :| 0 <= j < n + 1 && t.timers[j] == b;
      }
    }
  }

  lemma NothingDue(t: State, now: nat)
    requires Valid(t)
    ensures NobodyDue(t, now) <==> t.timers == [] || !Due(t, now, t.timers[0])
  {
    Ordered(t.mem, t.timers);
    forall a | Due(t, now, a) ensures Due(t, now, t.timers[0]) {
      var i :| 0 <= i < |t.timers| && t.timers[i] == a;
      assert i > 0 ==> Less(t.mem, t.timers[0], t.timers[i]);
    }
  }

  /** listExpiredCb takes exactly the due timers if and only if there is nothing to expire, or the
      clock has not jumped back and exactly one timer is due in this very millisecond with an address
      above that of the search key.  Otherwise the batch is wrong - a timer that is not due too many,
      or a due one left out - or the iterator runs past the end of the set. */
  lemma ExpiryExact(t: State, now: nat, probe: Addr)
    requires Valid(t)
    ensures ExpiresTheDue(t, now, Expired(t, now, probe).1) <==>
              NobodyDue(t, now) || (!Rollover(t, now) && OneJustDue(t, now, probe))
  {
    var x := Expired(t, now, probe).1;
    NothingDue(t, now);
    if t.timers != [] && Due(t, now, t.timers[0]) {
      assert !x.Quiet?;
      if Rollover(t, now) {
        assert x.PastTheEnd?;
      } else {
        WhatExpires(t, now, probe);
        var n := UpperBound(t.mem, t.timers, now, probe);
        JustDueAfter(t, now, probe, n);
      }
    } else {
      assert x.Quiet?;
    }
  }

  lemma {:induction false} AboveAll(s: set<Addr>) returns (p: Addr)
    ensures forall a :: a in s ==> a < p
    decreases |s|
  {
    p := 0;
    if s != {} {
      var a :| a in s;
      var q := AboveAll(s - {a});
      p := if a < q then q else a + 1;
      assert forall b :: b in s ==> b == a || b in s - {a};
    }
  }

  /** Whatever the fresh address of the search key is, exactly the due timers expire. */
  ghost predicate AlwaysExact(t: State, now: nat)
    requires Within(t.mem, t.timers)
  {
    forall probe: Addr :: probe !in t.mem ==> ExpiresTheDue(t, now, Expired(t, now, probe).1)
  }

  /** What a caller can rely on, who cannot know the address of the search key: listExpiredCb takes
      exactly the due timers if and only if nothing is due. */
  lemma ExpiryExactForCallers(t: State, now: nat)
    requires Valid(t)
    ensures AlwaysExact(t, now) <==> NobodyDue(t, now)
  {
    forall probe: Addr ensures NobodyDue(t, now) ==> ExpiresTheDue(t, now, Expired(t, now, probe).1) {
      ExpiryExact(t, now, probe);
    }
    var probe := AboveAll(t.mem.Keys);
    ExpiryExact(t, now, probe);
    assert forall a :: JustDue(t, now, probe, a) ==> a in t.mem.Keys;
    assert probe !in t.mem;
  }

  /** Two timers, due at 5 and at 100: at 10 both expire.  With the first alone, the iterator runs past
      the end of the set. */
  lemma ExpiryFails()
    ensures
      var first := TimerData(5, 5, false, Some(0));
      var second := TimerData(100, 100, false, Some(1));
      var both := State(map[1 := first, 2 := second], [1, 2], false, 0);
      && Valid(both)
      && Expired(both, 10, 3).1.Batch? && Expired(both, 10, 3).1.timers == [1, 2] && !Due(both, 10, 2)
      && Expired(State(map[1 := first], [1], false, 0), 10, 3).1 == PastTheEnd
  {
    var mem := map[1 := TimerData(5, 5, false, Some(0)), 2 := TimerData(100, 100, false, Some(1))];
    var s: seq<Addr> := [1, 2];
    Chained(mem, s);
    var both := State(mem, s, false, 0);
    WhatExpires(both, 10, 3);
    UpperSplits(mem, s, 10, 3);
    var one := State(map[1 := TimerData(5, 5, false, Some(0))], [1], false, 0);
    WhatExpires(one, 10, 3);
    UpperSplits(one.mem, one.timers, 10, 3);
    assert s[..2] == s;
  }

  /** getNextTimer: the time until the timer that falls due first, 0 if one is due, and all ones if there
      is none. */
  lemma NextTimerIs(t: State, now: nat)
    requires Valid(t)
    ensures var wait := NextTimer(t, now).1;
      && (t.timers == [] ==> wait == 0xFFFF_FFFF_FFFF_FFFF)
      && (forall a :: a in t.timers ==> (if t.mem[a].next <= now then wait == 0 else now + wait <= t.mem[a].next))
      && (t.timers != [] ==> exists a :: a in t.timers && (if wait == 0 then t.mem[a].next <= now else now + wait == t.mem[a].next))
  {
    forall a | a in t.timers
      ensures t.mem[t.timers[0]].next <= t.mem[a].next
    {
      FirstIsEarliest(t, a);
    }
    if t.timers != [] {
      assert t.timers[0] in t.timers;
    }
  }

  // ------------------------------------------------------------------ runs

  datatype Op =
    | Add(a: Addr, ms: nat, cb: Option<nat>, repeats: bool, now: nat)
    | Refresh(a: Addr, now: nat)
    | Reset(a: Addr, ms: nat, fromNow: bool, now: nat)
    | Cancel(a: Addr)
    | GetNext(now: nat)
    | Expire(now: nat, n: nat, previous: nat)

  /** Memory hands out fresh addresses, and the other calls are made on existing timers. */
  predicate Enabled(t: State, op: Op)
    requires Within(t.mem, t.timers)
  {
    match op
    case Add(a, _, _, _, _) => a !in t.mem
    case Refresh(a, _) => a in t.mem
    case Reset(a, _, _, _) => a in t.mem
    case Cancel(a) => a in t.mem
    case GetNext(_) => true
    case Expire(_, n, _) => n <= |t.timers|
  }

  /** An expiry that takes the first n timers, whichever number the search has come up with. */
  function Taken(t: State, now: nat, n: nat, previous: nat): (State, seq<nat>)
    requires Within(t.mem, t.timers) && n <= |t.timers|
  {
    assert Within(t.mem, t.timers[..n]);
    Fire(t.(previous := previous, timers := t.timers[n..]), t.timers[..n], now)
  }

  /** listExpiredCb, whenever it has a defined meaning, takes some number of timers. */
  lemma ExpiredIsTaken(t: State, now: nat, probe: Addr, t1: State, x: Expiry)
    requires Within(t.mem, t.timers) && (t1, x) == Expired(t, now, probe) && !x.PastTheEnd?
    ensures x.Batch? ==> 0 < |x.timers| <= |t.timers| && x.timers == t.timers[..|x.timers|]
    ensures var previous := if t.timers == [] then t.previous else now;
      (t1, x.Callbacks()) == Taken(t, now, if x.Batch? then |x.timers| else 0, previous)
  {
    BatchIs(t, now, probe, t1, x);
    if !x.Batch? {
      assert t.timers[0..] == t.timers && t.timers[..0] == [];
    }
  }

  /** So does the expiry that is meant: the due timers are the first ones. */
  lemma DueAreFirst(t: State, now: nat) returns (n: nat)
    requires Valid(t)
    ensures n <= |t.timers| && forall a :: a in t.timers[..n] <==> Due(t, now, a)
  {
    Ordered(t.mem, t.timers);
    n := 0;
    while n < |t.timers| && Due(t, now, t.timers[n])
      invariant n <= |t.timers| && forall i :: 0 <= i < n ==> Due(t, now, t.timers[i])
    {
      n := n + 1;
    }
    forall a | Due(t, now, a) ensures a in t.timers[..n] {
      var i :| 0 <= i < |t.timers| && t.timers[i] == a;
      if i >= n {
        assert false;
      }
    }
  }

  /** The new state, and the timers that expired. */
  function Step(t: State, op: Op): (State, seq<Addr>)
    requires Within(t.mem, t.timers) && Enabled(t, op)
  {
    match op
    case Add(a, ms, cb, repeats, now) => (Added(t, a, ms, cb, repeats, now).0, [])
    case Refresh(a, now) => (Refreshed(t, a, now).0, [])
    case Reset(a, ms, fromNow, now) => (WithReset(t, a, ms, fromNow, now).0, [])
    case Cancel(a) => (Cancelled(t, a).0, [])
    case GetNext(now) => (NextTimer(t, now).0, [])
    case Expire(now, n, previous) => (Taken(t, now, n, previous).0, t.timers[..n])
  }

  /** The timer exists and is out of the set. */
  predicate Gone(t: State, a: Addr) {
    a in t.mem && a !in t.timers
  }

  /** What one step may do: only timers of the set expire, a timer that is out of the set stays out,
      and a one-shot timer that expires is out. */
  ghost predicate Effect(t: State, t1: State, batch: seq<Addr>) {
    && Valid(t1) && t.mem.Keys <= t1.mem.Keys
    && NoDuplicates(batch) && (forall a :: a in batch ==> a in t.timers)
    && (forall a :: Gone(t, a) ==> Gone(t1, a))
    && (forall a :: a in t.mem ==> t1.mem[a].repeats == t.mem[a].repeats)
    && (forall a :: a in batch && a in t.mem && !t.mem[a].repeats ==> Gone(t1, a))
  }

  /** The operations that expire nothing. */
  lemma QuietEffect(t: State, t1: State, out: set<Addr>, more: set<Addr>)
    requires Valid(t1) && t.mem.Keys <= t1.mem.Keys && Holds(t1.timers, t.timers, out, more) && more !! t.mem.Keys
    requires forall a :: a in t.mem ==> t1.mem[a].repeats == t.mem[a].repeats
    ensures Effect(t, t1, [])
  {
  }

  lemma BatchEffect(t: State, t1: State, batch: seq<Addr>, now: nat)
    requires Valid(t) && Valid(t1) && t1.mem.Keys == t.mem.Keys && NoDuplicates(batch)
    requires Within(t.mem, batch) && (forall a :: a in batch ==> a in t.timers)
    requires forall a :: a in t.mem ==> if a in batch then HasFired(t.mem[a], t1.mem[a], now) else t1.mem[a] == t.mem[a]
    requires Holds(t1.timers, t.timers, OneShots(t.mem, batch), {})
    ensures Effect(t, t1, batch)
  {
  }

  lemma ExpireEffect(t: State, now: nat, n: nat, previous: nat, t1: State)
    requires Valid(t) && n <= |t.timers| && t1 == Taken(t, now, n, previous).0
    ensures Effect(t, t1, t.timers[..n])
  {
    var batch := t.timers[..n];
    SortedDistinct(t.mem, t.timers);
    BatchValid(t.(previous := previous), n, now, batch, t1, Taken(t, now, n, previous).1);
    BatchEffect(t, t1, batch, now);
  }

  lemma MoveEffect(t: State, op: Op, t1: State)
    requires Valid(t) && Enabled(t, op) && (op.Refresh? || op.Reset?) && (t1, []) == Step(t, op)
    ensures Effect(t, t1, [])
  {
    match op {
      case Refresh(a, now) =>
        RefreshedValid(t, a, now, t1, Refreshed(t, a, now).1);
      case Reset(a, ms, fromNow, now) =>
        WithResetValid(t, a, ms, fromNow, now, t1, WithReset(t, a, ms, fromNow, now).1);
    }
    QuietEffect(t, t1, {}, {});
  }

  lemma CancelEffect(t: State, a: Addr, t1: State, r: Answer)
    requires Valid(t) && a in t.mem && (t1, r) == Cancelled(t, a)
    ensures Effect(t, t1, [])
  {
    CancelledValid(t, a, t1, r);
    QuietEffect(t, t1, if r.ok then {a} else {}, {});
  }

  lemma AddEffect(t: State, a: Addr, ms: nat, cb: Option<nat>, repeats: bool, now: nat, t1: State, notified: bool)
    requires Valid(t) && a !in t.mem && (t1, notified) == Added(t, a, ms, cb, repeats, now)
    ensures Effect(t, t1, [])
  {
    AddedValid(t, a, ms, cb, repeats, now, t1, notified);
    QuietEffect(t, t1, {}, {a});
  }

  lemma StepValid(t: State, op: Op, t1: State, batch: seq<Addr>)
    requires Valid(t) && Enabled(t, op) && (t1, batch) == Step(t, op)
    ensures Effect(t, t1, batch)
  {
    match op {
      case Add(a, ms, cb, repeats, now) => AddEffect(t, a, ms, cb, repeats, now, t1, Added(t, a, ms, cb, repeats, now).1);
      case Refresh(_, _) => MoveEffect(t, op, t1);
      case Reset(_, _, _, _) => MoveEffect(t, op, t1);
      case Cancel(a) => CancelEffect(t, a, t1, Cancelled(t, a).1);
      case GetNext(now) => QuietEffect(t, t1, {}, {});
      case Expire(now, n, previous) => ExpireEffect(t, now, n, previous, t1);
    }
  }

  /** A run in which every step is enabled. */
  predicate IsRun(t: State, ops: seq<Op>)
    decreases |ops|
  {
    ops == [] || (Within(t.mem, t.timers) && Enabled(t, ops[0]) && IsRun(Step(t, ops[0]).0, ops[1..]))
  }

  /** The state behind a run, and all the timers that expired in it, one after the other. */
  function Run(t: State, ops: seq<Op>): (State, seq<Addr>)
    requires IsRun(t, ops)
    decreases |ops|
  {
    if ops == [] then (t, []) else
    var (t1, batch) := Step(t, ops[0]);
    var (t2, rest) := Run(t1, ops[1..]);
    (t2, batch + rest)
  }

  /** Over every run the set stays strictly ordered and holds every timer that has its callback; a
      timer that is out of the set stays out and never expires again. */
  lemma {:induction false} RunValid(t: State, ops: seq<Op>, a: Addr)
    requires Valid(t) && IsRun(t, ops)
    ensures Valid(Run(t, ops).0)
    ensures Gone(t, a) ==> Gone(Run(t, ops).0, a) && a !in Run(t, ops).1
    decreases |ops|
  {
    if ops != [] {
      var (t1, batch) := Step(t, ops[0]);
      StepValid(t, ops[0], t1, batch);
      RunValid(t1, ops[1..], a);
    }
  }

  /** A timer whose cancel has returned true never expires again. */
  lemma CancelIsFinal(t: State, a: Addr, ops: seq<Op>)
    requires Valid(t) && a in t.mem && Cancelled(t, a).1.ok && IsRun(Cancelled(t, a).0, ops)
    ensures a !in Run(Cancelled(t, a).0, ops).1
  {
    CancelledValid(t, a, Cancelled(t, a).0, Cancelled(t, a).1);
    RunValid(Cancelled(t, a).0, ops, a);
  }

  /** Over every run a one-shot timer expires at most once. */
  lemma {:induction false} OneShotOnce(t: State, ops: seq<Op>, a: Addr)
    requires Valid(t) && IsRun(t, ops) && a in t.mem && !t.mem[a].repeats
    ensures multiset(Run(t, ops).1)[a] <= 1
    decreases |ops|
  {
    if ops != [] {
      var (t1, batch) := Step(t, ops[0]);
      StepValid(t, ops[0], t1, batch);
      AtMostOnce(batch, a);
      if a in batch {
        RunValid(t1, ops[1..], a);
      } else {
        OneShotOnce(t1, ops[1..], a);
      }
    }
  }

  /** The operation is not one on this timer. */
  predicate LeavesAlone(op: Op, a: Addr) {
    match op
    case Refresh(b, _) => b != a
    case Reset(b, _, _, _) => b != a
    case Cancel(b) => b != a
    case _ => true
  }

  lemma OtherTimerStays(t: State, op: Op, t1: State, batch: seq<Addr>, a: Addr)
    requires Valid(t) && Enabled(t, op) && (t1, batch) == Step(t, op)
    requires a in t.timers && a in t.mem && LeavesAlone(op, a) && a !in batch
    ensures a in t1.timers && a in t1.mem && t1.mem[a] == t.mem[a]
  {
    match op {
      case Add(b, ms, cb, repeats, now) => AddedValid(t, b, ms, cb, repeats, now, t1, Added(t, b, ms, cb, repeats, now).1);
      case Refresh(b, now) => RefreshedValid(t, b, now, t1, Refreshed(t, b, now).1);
      case Reset(b, ms, fromNow, now) => WithResetValid(t, b, ms, fromNow, now, t1, WithReset(t, b, ms, fromNow, now).1);
      case Cancel(b) => CancelledValid(t, b, t1, Cancelled(t, b).1);
      case GetNext(_) =>
      case Expire(now, n, previous) => TakenValid(t, now, n, previous, t1);
    }
  }

  lemma TakenValid(t: State, now: nat, n: nat, previous: nat, t1: State)
    requires Valid(t) && n <= |t.timers| && t1 == Taken(t, now, n, previous).0
    ensures Valid(t1) && t1.mem.Keys == t.mem.Keys && Within(t.mem, t.timers[..n])
    ensures forall a :: a in t.mem ==>
              if a in t.timers[..n] then HasFired(t.mem[a], t1.mem[a], now) else t1.mem[a] == t.mem[a]
    ensures forall a :: a in t1.timers <==> a in t.timers && !(a in t.timers[..n] && a in t.mem && !t.mem[a].repeats)
  {
    BatchValid(t.(previous := previous), n, now, t.timers[..n], t1, Taken(t, now, n, previous).1);
  }

  /** A timer that nobody touches and that does not expire stays in the set as it is. */
  lemma {:induction false} UntouchedStays(t: State, ops: seq<Op>, a: Addr)
    requires Valid(t) && IsRun(t, ops) && a in t.timers && a in t.mem && a !in Run(t, ops).1
    requires forall i :: 0 <= i < |ops| ==> LeavesAlone(ops[i], a)
    ensures var t1 := Run(t, ops).0; Valid(t1) && a in t1.timers && a in t1.mem && t1.mem[a] == t.mem[a]
    decreases |ops|
  {
    if ops != [] {
      var (t1, batch) := Step(t, ops[0]);
      StepValid(t, ops[0], t1, batch);
      OtherTimerStays(t, ops[0], t1, batch, a);
      UntouchedStays(t1, ops[1..], a);
    }
  }

  /** A repeating timer expires every period, and no sooner: when it has expired and has then been left
      alone, it is due again exactly from one period later on, with its callback; so an expiry of just
      the due timers takes it again if and only if that time has come. */
  lemma EveryPeriod(t: State, a: Addr, now: nat, n: nat, previous: nat, t1: State, ops: seq<Op>, t2: State, later: nat, n2: nat)
    requires Valid(t) && n <= |t.timers| && a in t.timers[..n] && a in t.mem && t.mem[a].repeats
    requires t1 == Taken(t, now, n, previous).0 && IsRun(t1, ops) && t2 == Run(t1, ops).0 && a !in Run(t1, ops).1
    requires forall i :: 0 <= i < |ops| ==> LeavesAlone(ops[i], a)
    requires now + t.mem[a].ms < 0x1_0000_0000_0000_0000 && !Rollover(t2, later)
    requires n2 <= |t2.timers| && forall b :: b in t2.timers[..n2] <==> Due(t2, later, b)
    ensures a in t2.timers[..n2] <==> later >= now + t.mem[a].ms
    ensures a in t2.mem && t2.mem[a].cb == t.mem[a].cb
  {
    RepeaterFired(t, a, now, n, previous, t1);
    UntouchedStays(t1, ops, a);
    DueAgain(t2, a, later, now + t.mem[a].ms);
  }

  lemma RepeaterFired(t: State, a: Addr, now: nat, n: nat, previous: nat, t1: State)
    requires Valid(t) && n <= |t.timers| && a in t.timers[..n] && a in t.mem && t.mem[a].repeats
    requires t1 == Taken(t, now, n, previous).0 && now + t.mem[a].ms < 0x1_0000_0000_0000_0000
    ensures Valid(t1) && a in t1.timers && a in t1.mem
    ensures t1.mem[a].next == now + t.mem[a].ms && t1.mem[a].cb == t.mem[a].cb
  {
    TakenValid(t, now, n, previous, t1);
    assert HasFired(t.mem[a], t1.mem[a], now);
  }

  lemma DueAgain(t: State, a: Addr, later: nat, next: nat)
    requires a in t.timers && a in t.mem && t.mem[a].next == next && !Rollover(t, later)
    ensures Due(t, later, a) <==> later >= next
  {
  }

  lemma {:induction false} AtMostOnce(s: seq<Addr>, a: Addr)
    requires NoDuplicates(s)
    ensures multiset(s)[a] == if a in s then 1 else 0
    decreases |s|
  {
    if s != [] {
      assert s == [s[0]] + s[1..];
      assert forall i :: 0 <= i < |s[1..]| ==> s[1..][i] == s[i + 1];
      AtMostOnce(s[1..], a);
    }
  }

  // ------------------------------------------------------------------ the classes

  class Timer {
    ghost const addr: Addr
    var ms: nat
    var next: nat
    var repeats: bool
    var cb: Option<nat>

    ghost function Data(): TimerData
      reads this
    {
      TimerData(ms, next, repeats, cb)
    }

    constructor (ghost addr: Addr, ms: nat, cb: Option<nat>, repeats: bool, now: nat)
      ensures Data() == TimerData(ms, Wrap(now + ms), repeats, cb) && this.addr == addr
    {
      this.addr := addr;
      this.ms, this.cb, this.repeats := ms, cb, repeats;
      next := Wrap(now + ms);
    }
  }

  /** `mem` is the memory: the timer at each address. */
  class TimerManager {
    var mem: map<Addr, Timer>
    var timers: seq<Addr>
    var notify: bool
    var previous: nat

    ghost function Mem(): Memory
      reads `mem, mem.Values
    {
      map a | a in mem :: mem[a].Data()
    }

    ghost function Now(): State
      reads this, mem.Values
    {
      State(Mem(), timers, notify, previous)
    }

    /** Every timer is at its own address, and the set holds addresses of timers.  That the set is also
        in order (Valid) follows from the lemmas about the functions that the methods compute. */
    ghost predicate Ok()
      reads `mem, `timers, mem.Values
    {
      (forall a :: a in mem ==> mem[a].addr == a) && Within(Mem(), timers)
    }

    /** Only the timer at `a` has changed. */
    twostate lemma OneTimer(a: Addr)
      requires mem == old(mem) && a in mem
      requires forall b :: b in mem && b != a ==> mem[b].Data() == old(mem[b].Data())
      ensures Mem() == old(Mem())[a := mem[a].Data()]
    {
    }

    constructor (now: nat)
      ensures Ok() && Now() == State(map[], [], false, now)
    {
      mem, timers, notify, previous := map[], [], false, now;
    }

    /** Timer::Compare */
    method Compare(a: Addr, b: Addr) returns (less: bool)
      requires a in mem && b in mem
      ensures less == Less(Mem(), a, b)
    {
      less := if mem[a].next == mem[b].next then a < b else mem[a].next < mem[b].next;
    }

    /** The search behind std::set::find and std::set::insert. */
    method LowerBoundOf(a: Addr) returns (n: nat)
      requires Ok() && a in mem
      ensures n == LowerBound(Mem(), timers, Next(Mem(), a), a)
    {
      n := 0;
      while n < |timers|
        invariant n <= |timers|
        invariant LowerBound(Mem(), timers, Next(Mem(), a), a) == n + LowerBound(Mem(), timers[n..], Next(Mem(), a), a)
      {
        assert timers[n..][0] == timers[n] && timers[n..][1..] == timers[n + 1..];
        var less := Compare(timers[n], a);
        if !less {
          return;
        }
        n := n + 1;
      }
    }

    method FindTimer(a: Addr) returns (it: Option<nat>)
      requires Ok() && a in mem
      ensures it == Find(Mem(), timers, a)
    {
      var n := LowerBoundOf(a);
      if n < |timers| {
        var less := Compare(a, timers[n]);
        return if less then None else Some(n);
      }
      return None;
    }

    method InsertTimer(a: Addr) returns (n: nat)
      requires Ok() && a in mem
      modifies `timers
      ensures Ok() && (timers, n) == old(Insert(Mem(), timers, a))
    {
      InsertWithin(Mem(), timers, a);
      n := LowerBoundOf(a);
      if n < |timers| {
        var less := Compare(a, timers[n]);
        if !less {
          return;
        }
      }
      timers := timers[..n] + [a] + timers[n..];
    }

    /** addtimer, up to the call of Haslatest. */
    method Place(a: Addr) returns (notified: bool)
      requires Ok() && a in mem
      modifies `timers, `notify
      ensures Ok() && (Now(), notified) == old(AddTimer(Now(), a))
    {
      var n := InsertTimer(a);
      notified := n == 0 && !notify;
      if notified {
        notify := true;
      }
    }

    method NewTimer(a: Addr, ms: nat, cb: Option<nat>, repeats: bool, now: nat) returns (notified: bool)
      requires Ok() && a !in mem
      modifies this
      ensures mem.Keys == old(mem.Keys) + {a} && forall b :: b in old(mem) ==> mem[b] == old(mem[b])
      ensures (Now(), notified) == old(Added(Now(), a, ms, cb, repeats, now)) && Ok()
    {
      ghost var t := Now();
      var timer := new Timer(a, ms, cb, repeats, now);
      mem := mem[a := timer];
      assert Now() == t.(mem := t.mem[a := TimerData(ms, Wrap(now + ms), repeats, cb)]);
      notified := Place(a);
    }

    /** Erases the timer, changes its times and inserts it again. */
    method Reinsert(i: nat, a: Addr, ms: nat, next: nat) returns (notified: bool)
      requires Ok() && i < |timers| && a in mem
      modifies `timers, `notify, mem[a]
      ensures Ok()
      ensures (Now(), notified) == old(AddTimer(Now().(
                timers := Erase(timers, i), mem := Mem()[a := Mem()[a].(ms := ms, next := Wrap(next))]), a))
    {
      timers := timers[..i] + timers[i + 1..];
      mem[a].ms := ms;
      mem[a].next := Wrap(next);
      OneTimer(a);
      notified := Place(a);
    }

    /** The common part of refresh and reset. */
    method Move(a: Addr, ms: nat, next: nat) returns (ok: bool, notified: bool)
      requires Ok() && a in mem
      modifies `timers, `notify, mem[a]
      ensures Ok() && (Now(), Answer(ok, notified)) == old(Moved(Now(), a, ms, next))
    {
      ok, notified := false, false;
      var it := FindTimer(a);
      if it.Some? {
        ok := true;
        notified := Reinsert(it.value, a, ms, next);
      }
    }

    method Refresh(a: Addr, now: nat) returns (ok: bool, notified: bool)
      requires Ok() && a in mem
      modifies `timers, `notify, mem[a]
      ensures (Now(), Answer(ok, notified)) == old(Refreshed(Now(), a, now)) && Ok()
    {
      ok, notified := false, false;
      if mem[a].cb.Some? {
        ok, notified := Move(a, mem[a].ms, now + mem[a].ms);
      }
    }

    method Reset(a: Addr, ms: nat, fromNow: bool, now: nat) returns (ok: bool, notified: bool)
      requires Ok() && a in mem
      modifies `timers, `notify, mem[a]
      ensures (Now(), Answer(ok, notified)) == old(WithReset(Now(), a, ms, fromNow, now)) && Ok()
    {
      if mem[a].ms == ms && !fromNow {
        return true, false;
      }
      var next := (if fromNow then now else mem[a].next) + ms;
      assert WithReset(Now(), a, ms, fromNow, now) == Moved(Now(), a, ms, next);
      ok, notified := Move(a, ms, next);
    }

    method EraseTimer(a: Addr) returns (ok: bool)
      requires Ok() && a in mem
      modifies `timers
      ensures Ok() && ok == Find(Mem(), old(timers), a).Some?
      ensures timers == if ok then Erase(old(timers), Find(Mem(), old(timers), a).value) else old(timers)
    {
      var it := FindTimer(a);
      ok := it.Some?;
      if ok {
        timers := timers[..it.value] + timers[it.value + 1..];
      }
    }

    method ClearCallback(a: Addr)
      requires Ok() && a in mem
      modifies mem[a]
      ensures Ok() && Mem() == old(Mem())[a := old(Mem()[a]).(cb := None)]
    {
      mem[a].cb := None;
      OneTimer(a);
    }

    method Cancel(a: Addr) returns (ok: bool)
      requires Ok() && a in mem
      modifies `timers, mem[a]
      ensures (Now(), Answer(ok, false)) == old(Cancelled(Now(), a)) && Ok()
    {
      ok := false;
      if mem[a].cb.Some? {
        ClearCallback(a);
        ok := EraseTimer(a);
      }
    }

    method GetNextTimer(now: nat) returns (wait: nat)
      requires Ok()
      modifies `notify
      ensures Ok() && (Now(), wait) == old(NextTimer(Now(), now))
    {
      notify := false;
      if timers == [] {
        return WORD_MAX;
      }
      var first := mem[timers[0]];
      wait := if first.next > now then first.next - now else 0;
    }

    /** The search behind std::set::upper_bound for the probe. */
    method UpperBoundOf(now: nat, probe: Addr) returns (n: nat)
      requires Ok()
      ensures n == UpperBound(Mem(), timers, now, probe)
    {
      n := 0;
      while n < |timers|
        invariant n <= |timers|
        invariant UpperBound(Mem(), timers, now, probe) == n + UpperBound(Mem(), timers[n..], now, probe)
      {
        assert timers[n..][0] == timers[n] && timers[n..][1..] == timers[n + 1..];
        var timer := mem[timers[n]];
        if Before(now, probe, timer.next, timers[n]) {
          return;
        }
        n := n + 1;
      }
    }

    /** One round of the loop over the expired timers. */
    method FireTimer(a: Addr, now: nat)
      requires Ok() && a in mem
      modifies `timers, mem[a]
      ensures Ok() && Now() == old(FireOne(Now(), a, now))
    {
      ghost var t := Now();
      var timer := mem[a];
      if timer.repeats {
        timer.next := Wrap(now + timer.ms);
        OneTimer(a);
        assert Mem() == t.mem[a := AfterFiring(t.mem[a], now)];
        var _ := InsertTimer(a);
      } else {
        timer.cb := None;
        OneTimer(a);
        assert Mem() == t.mem[a := AfterFiring(t.mem[a], now)];
      }
      assert Now() == FireOne(t, a, now);
    }

    /** The round for the first timer of a batch. */
    method FireHead(batch: seq<Addr>, now: nat) returns (cbs: seq<nat>)
      requires Ok() && Within(Mem(), batch) && batch != []
      modifies `timers, mem.Values
      ensures Ok() && Within(Mem(), batch[1..])
      ensures Fire(Now(), batch[1..], now).0 == old(Fire(Now(), batch, now).0)
      ensures cbs + Fire(Now(), batch[1..], now).1 == old(Fire(Now(), batch, now).1)
    {
      FireStep(Now(), batch, now);
      var timer := mem[batch[0]];
      cbs := if timer.cb.Some? then [timer.cb.value] else [];
      FireTimer(batch[0], now);
    }

    /** The loop over the expired timers. */
    method FireAll(batch: seq<Addr>, now: nat) returns (cbs: seq<nat>)
      requires Ok() && Within(Mem(), batch)
      modifies `timers, mem.Values
      ensures Ok() && (Now(), cbs) == old(Fire(Now(), batch, now))
    {
      ghost var (t1, calls) := Fire(Now(), batch, now);
      cbs := [];
      var rest := batch;
      while rest != []
        invariant mem == old(mem) && Ok() && Within(Mem(), rest)
        invariant t1 == Fire(Now(), rest, now).0 && calls == cbs + Fire(Now(), rest, now).1
        decreases |rest|
      {
        var call := FireHead(rest, now);
        cbs, rest := cbs + call, rest[1..];
      }
      assert cbs + [] == cbs;
    }

    /** Takes the timers before the iterator out of the set and fires them. */
    method TakeAndFire(it: nat, now: nat) returns (cbs: seq<nat>)
      requires Ok() && it <= |timers| && Within(Mem(), timers[..it])
      modifies `timers, mem.Values
      ensures Ok() && (Now(), cbs) == old(Fire(Now().(timers := timers[it..]), timers[..it], now))
    {
      var batch := timers[..it];
      timers := timers[it..];
      cbs := FireAll(batch, now);
    }

    /** detectClockRollover: the clock counts as set back when it is more than an hour behind, or behind at
        all in the first hour of its range. */
    method DetectClockRollover(now: nat) returns (rollover: bool)
      modifies `previous
      ensures rollover == old(Rollover(Now(), now))
      ensures old(previous) < 0x1_0000_0000_0000_0000 ==>
                (rollover <==> now + 3_600_000 < old(previous) || (old(previous) < 3_600_000 && now < old(previous)))
      ensures Now() == if rollover then old(Now()) else old(Now()).(previous := now)
    {
      rollover := now < previous && now < Wrap(previous - HOUR);
      if !rollover {
        previous := now;
      }
    }

    /** The first part of listExpiredCb: how many timers of the set to take, or that the iterator is
        moved past its end. */
    method CountExpired(now: nat, probe: Addr) returns (n: nat, pastTheEnd: bool)
      requires Ok()
      modifies `previous
      ensures pastTheEnd == old(Expired(Now(), now, probe).1.PastTheEnd?)
      ensures n <= |timers| && n == if old(Expired(Now(), now, probe).1.Batch?) then |old(Expired(Now(), now, probe).1.timers)| else 0
      ensures Now() == if timers == [] || old(Rollover(Now(), now)) then old(Now()) else old(Now()).(previous := now)
    {
      ghost var t := Now();
      n, pastTheEnd := 0, false;
      if timers != [] {
        var rollover := DetectClockRollover(now);
        assert mem[timers[0]].next == t.mem[t.timers[0]].next;
        if rollover || mem[timers[0]].next <= now {
          var it := |timers|;
          if !rollover {
            it := UpperBoundOf(now, probe);
          }
          pastTheEnd := it == |timers|;
          n := if pastTheEnd then 0 else it + 1;
        }
      }
    }

    /** listExpiredCb; what it does once the iterator is past the end is not defined. */
    method ListExpiredCb(now: nat, probe: Addr) returns (cbs: seq<nat>, pastTheEnd: bool)
      requires Ok()
      modifies `timers, `previous, mem.Values
      ensures pastTheEnd == old(Expired(Now(), now, probe).1.PastTheEnd?)
      ensures Now() == old(Expired(Now(), now, probe).0) && Ok()
      ensures cbs == old(Expired(Now(), now, probe).1.Callbacks())
    {
      ghost var (t1, x) := Expired(Now(), now, probe);
      BatchIs(Now(), now, probe, t1, x);
      cbs := [];
      var n;
      n, pastTheEnd := CountExpired(now, probe);
      if n > 0 {
        cbs := TakeAndFire(n, now);
      }
    }
  }
}

/** Mutexes and semaphores over whole runs: a mutex is a queue of tickets, and
    both hand over in the order of arrival. */
module Locks {
  import opened Tasks
  import opened Placement
  import opened Scheduler
  import opened SchedulerRuns

  // ------------------------------------------------------------ the abstract mutex

  // The first ticket is the owner's, with its recursion depth; the others wait.
  datatype Ticket = Ticket(who: Tid, depth: int)

  ghost function Ask(q: seq<Ticket>, t: Tid): seq<Ticket> {
    if q == [] then [Ticket(t, 1)]
    else if q[0].who == t then [Ticket(t, q[0].depth + 1)] + q[1..]
    else q + [Ticket(t, 1)]
  }

  ghost function Give(q: seq<Ticket>, t: Tid): seq<Ticket> {
    if q == [] || q[0].who != t then q
    else if q[0].depth == 1 then q[1..]
    else [Ticket(t, q[0].depth - 1)] + q[1..]
  }

  ghost function WaitTickets(w: seq<Tid>): (q: seq<Ticket>)
    ensures |q| == |w| && forall i {:trigger q[i]} :: 0 <= i < |w| ==> q[i] == Ticket(w[i], 1)
  {
    seq(|w|, i requires 0 <= i < |w| => Ticket(w[i], 1))
  }

  ghost function Tickets(s: Sched, m: nat): seq<Ticket>
    requires m in s.mutexes && MutexList(m) in s.queues
  {
    var x := s.mutexes[m];
    if x.count == 0 then [] else [Ticket(x.owner, x.count)] + WaitTickets(s.queues[MutexList(m)])
  }

  // A free mutex has no owner and no waiters; a taken one is owned by a task
  // that is not among its waiters.
  ghost predicate MutexOk(s: Sched, m: nat)
    requires m in s.mutexes && MutexList(m) in s.queues
  {
    var x, w := s.mutexes[m], s.queues[MutexList(m)];
    if x.count == 0 then x.owner == NONE && w == [] else x.count > 0 && x.owner != NONE && x.owner !in w
  }

  datatype Use = Asks | Gives | Leaves

  // What a step does to mutex m: the scans of the task table take and release its
  // mutex, and so do the programs with the others.
  ghost function UseOf(s: Sched, e: Event, m: nat): Use
    requires Inv(s) && Can(s, e)
  {
    match e
    case Lock(m') => if m' == m then Asks else Leaves
    case Unlock(m') => if m' == m then Gives else Leaves
    case WaitBegin => if m == TABLE then Asks else Leaves
    case ExitBegin(_) => if m == TABLE then Asks else Leaves
    case WaitReturn => if m == TABLE then Gives else Leaves
    case WaitLook => if m == TABLE && s.tasks[s.curr].pc.i >= |s.tasks| then Gives else Leaves
    case ExitLook => if m == TABLE && s.tasks[s.curr].pc.i >= |s.tasks| then Gives else Leaves
    case _ => Leaves
  }

  ghost function Used(q: seq<Ticket>, u: Use, t: Tid): seq<Ticket> {
    match u
    case Asks => Ask(q, t)
    case Gives => Give(q, t)
    case Leaves => q
  }

  // The step from s to r did this to mutex m, and kept it in order.
  ghost predicate Did(s: Sched, r: Sched, m: nat, u: Use)
    requires m in s.mutexes && MutexList(m) in s.queues
  {
    && m in r.mutexes && MutexList(m) in r.queues && MutexOk(r, m)
    && Tickets(r, m) == Used(Tickets(s, m), u, s.curr)
  }

  lemma LockTickets(s: Sched, m: nat)
    requires Placed(s, {}) && s.curr == Next(s) && s.curr != IDLE && m in s.mutexes && MutexList(m) in s.queues
      && MutexOk(s, m)
    ensures Did(s, Locked(s, m), m, Asks)
  {
    var x, w := s.mutexes[m], s.queues[MutexList(m)];
    if x.count != 0 && x.owner != s.curr {
      LockWaits(s, m);
    } else {
      hide Placed, Dispatch, SetBlock;
      assert [Ticket(x.owner, x.count)] + WaitTickets(w) == Tickets(s, m) || x.count == 0;
      assert WaitTickets([]) == [];
    }
  }

  lemma LockWaits(s: Sched, m: nat)
    requires Placed(s, {}) && s.curr == Next(s) && s.curr != IDLE && m in s.mutexes && MutexList(m) in s.queues
      && MutexOk(s, m)
    requires s.mutexes[m].count != 0 && s.mutexes[m].owner != s.curr
    ensures Did(s, Locked(s, m), m, Asks)
  {
    var r, w := Locked(s, m), s.queues[MutexList(m)];
    CurrentIsReady(s);
    assert !On(s, MutexList(m), s.curr);
    assert r.queues[MutexList(m)] == w + [s.curr] && r.mutexes == s.mutexes;
    hide Placed, Locked, Shape;
    assert WaitTickets(w + [s.curr]) == WaitTickets(w) + [Ticket(s.curr, 1)];
  }

  lemma UnlockTickets(s: Sched, m: nat)
    requires Placed(s, {}) && s.curr != IDLE && m in s.mutexes && MutexList(m) in s.queues && MutexOk(s, m)
    ensures Did(s, Unlocked(s, m), m, Gives)
  {
    var w := s.queues[MutexList(m)];
    if w != [] {
      assert Distinct(w) && w == [w[0]] + w[1..];
      assert On(s, MutexList(m), w[0]);
      assert Tickets(s, m)[1..] == WaitTickets(w) == [Ticket(w[0], 1)] + WaitTickets(w[1..]);
    }
  }

  ghost predicate SameMutex(s: Sched, r: Sched, m: nat)
    requires m in s.mutexes && MutexList(m) in s.queues
  {
    && m in r.mutexes && MutexList(m) in r.queues
    && r.mutexes[m] == s.mutexes[m] && r.queues[MutexList(m)] == s.queues[MutexList(m)]
  }

  lemma OtherMutex(s: Sched, m: nat, m': nat)
    requires Shape(s) && m in s.mutexes && MutexList(m) in s.queues
    requires m' in s.mutexes && MutexList(m') in s.queues && m' != m
    ensures SameMutex(s, Locked(s, m'), m) && SameMutex(s, Unlocked(s, m'), m)
  {
  }

  lemma OtherSem(s: Sched, m: nat, k: nat)
    requires Shape(s) && m in s.mutexes && MutexList(m) in s.queues && k in s.sems && SemList(k) in s.queues
    ensures SameMutex(s, SemWaited(s, k), m) && SameMutex(s, SemNotified(s, k), m)
  {
  }

  // A list other than ready and sleep, and all counts, are left alone.
  ghost predicate Kept(s: Sched, r: Sched, q: Queue) {
    q in s.queues && q in r.queues && r.queues[q] == s.queues[q] && r.mutexes == s.mutexes && r.sems == s.sems
  }

  ghost predicate IsWaitList(s: Sched, q: Queue) {
    q in s.queues && q != ReadyList && q != SleepList
  }

  lemma MoveKeeps(s: Sched, q: Queue, t: Tid)
    requires Shape(s) && IsWaitList(s, q) && t < |s.tasks|
    ensures Kept(s, SetBlock(s, t), q) && Kept(s, SetReady(s, t), q) && Kept(s, Dispatch(s), q)
  {
  }

  lemma RotateKeeps(s: Sched, q: Queue)
    requires Shape(s) && IsWaitList(s, q)
    ensures Kept(s, Dispatch(SetReady(SetBlock(s, s.curr), s.curr)), q)
  {
    assert s.curr < |s.tasks|;
    hide SetBlock, SetReady, Dispatch, Shape;
    MoveKeeps(s, q, s.curr);
    MoveKeeps(SetBlock(s, s.curr), q, s.curr);
    MoveKeeps(SetReady(SetBlock(s, s.curr), s.curr), q, s.curr);
  }

  lemma YieldKeeps(s: Sched, q: Queue)
    requires Shape(s) && IsWaitList(s, q)
    ensures Kept(s, Yielded(s), q)
  {
    RotateKeeps(s, q);
    hide SetBlock, SetReady, Dispatch;
  }

  lemma SliceKeeps(s: Sched, q: Queue)
    requires Shape(s) && IsWaitList(s, q)
    ensures Kept(s, SliceTick(s), q)
  {
    RotateKeeps(SetTask(s, s.curr, s.tasks[s.curr].(slice := TIME_SLICE)), q);
    hide SetBlock, SetReady, Dispatch;
  }

  lemma PassKeeps(s: Sched, q: Queue)
    requires Shape(s) && IsWaitList(s, q)
    ensures Kept(s, Dispatch(Pass(s)), q) && Kept(s, Rested(s), q)
  {
  }

  lemma TickKeeps(s: Sched, q: Queue)
    requires Shape(s) && IsWaitList(s, q)
    ensures Kept(s, Ticked(s), q)
  {
    SliceKeeps(s, q);
    PassKeeps(SliceTick(s), q);
    hide SliceTick, Pass, Dispatch, Shape;
  }

  lemma ParentsKeep(s: Sched, q: Queue, moved: bool)
    requires Shape(s) && IsWaitList(s, q)
    ensures Kept(s, ParentsWoken(s, moved), q)
  {
  }

  lemma SuspendKeeps(s: Sched, q: Queue)
    requires Shape(s) && IsWaitList(s, q)
    ensures Kept(s, WaitBlocked(s), q)
  {
    var a := SetTask(SetBlock(s, s.curr), s.curr, s.tasks[s.curr].(state := Waiting, pc := WaitAgain));
    MoveKeeps(s, q, s.curr);
    MoveKeeps(a, q, s.curr);
    hide SetBlock, Dispatch, Shape;
  }

  lemma FinishKeeps(s: Sched, q: Queue)
    requires Shape(s) && IsWaitList(s, q) && s.tasks[s.curr].pc.ExitEnd?
    ensures Kept(s, ExitEnded(s), q)
  {
    var pc := s.tasks[s.curr].pc;
    var b := ParentsWoken(s, pc.moved);
    ParentsKeep(s, q, pc.moved);
    var a := SetTask(b, s.curr, b.tasks[s.curr].(status := pc.code, state := Zombie));
    MoveKeeps(a, q, s.curr);
    MoveKeeps(SetBlock(a, s.curr), q, s.curr);
    hide ParentsWoken, SetBlock, Dispatch, Shape;
  }

  lemma SlotsKeep(s: Sched, q: Queue, ms: nat, c: Tid, pc: Pc)
    requires Shape(s) && IsWaitList(s, q) && c < |s.tasks|
    ensures Kept(s, Slept(s, ms), q) && Kept(s, Forked(s, c), q) && Kept(s, SetPc(s, s.curr, pc), q)
  {
  }

  lemma ScansKeep(s: Sched, q: Queue)
    requires Shape(s) && IsWaitList(s, q)
    ensures s.tasks[s.curr].pc.WaitReap? && s.tasks[s.curr].pc.i < |s.tasks| ==> Kept(s, WaitCleared(s), q)
    ensures s.tasks[s.curr].pc.ExitTest? ==> Kept(s, ExitTested(s), q)
  {
  }

  ghost predicate IsQuiet(e: Event) {
    e.Tick? || e.Rest? || e.Yield? || e.SleepFor? || e.Fork? || e.WaitClear? || e.WaitSuspend? || e.ExitCheck?
    || e.ExitFinish?
  }

  lemma QuietStep(s: Sched, e: Event, q: Queue)
    requires Inv(s) && Can(s, e) && IsWaitList(s, q) && IsQuiet(e)
    ensures Kept(s, Step(s, e), q)
  {
    InvFacts(s);
    hide Ticked, Rested, Yielded, Slept, Forked, ExitEnded, WaitBlocked, WaitCleared, ExitTested, Shape, Placed, Keys,
         TasksOk;
    match e
    case Tick => TickKeeps(s, q);
    case Rest => PassKeeps(s, q);
    case Yield => YieldKeeps(s, q);
    case SleepFor(ms) => SlotsKeep(s, q, ms, s.curr, User);
    case Fork(c) => SlotsKeep(s, q, 0, c, User);
    case WaitClear => ScansKeep(s, q);
    case WaitSuspend => SuspendKeeps(s, q);
    case ExitCheck => ScansKeep(s, q);
    case ExitFinish => FinishKeeps(s, q);
  }

  lemma SameTickets(s: Sched, r: Sched, m: nat)
    requires m in s.mutexes && MutexList(m) in s.queues && SameMutex(s, r, m) && MutexOk(s, m)
    ensures Did(s, r, m, Leaves)
  {
  }

  // A mutex operation from inside a scan, where the program counter moves first.
  lemma ScanTickets(s: Sched, m: nat, pc: Pc)
    requires Placed(s, {}) && s.curr == Next(s) && s.curr != IDLE && m in s.mutexes && MutexList(m) in s.queues
      && MutexOk(s, m)
    requires TableThere(s)
    ensures Did(s, Locked(SetPc(s, s.curr, pc), TABLE), m, if m == TABLE then Asks else Leaves)
    ensures Did(s, Unlocked(SetPc(s, s.curr, pc), TABLE), m, if m == TABLE then Gives else Leaves)
  {
    var a := SetPc(s, s.curr, pc);
    PcPlaced(s, pc);
    assert a.curr == s.curr && a.mutexes == s.mutexes && a.queues == s.queues;
    hide Placed, Locked, Unlocked, Shape, SetPc, MutexOk, Next;
    assert MutexOk(a, m) && Tickets(a, m) == Tickets(s, m) by { SameTickets(s, a, m); }
    if m == TABLE {
      LockTickets(a, m);
      UnlockTickets(a, m);
    } else {
      OtherMutex(a, m, TABLE);
      SameTickets(a, Locked(a, TABLE), m);
      SameTickets(a, Unlocked(a, TABLE), m);
    }
    hide Tickets, Ask, Give;
  }

  lemma WaitLookTickets(s: Sched, m: nat)
    requires Inv(s) && s.curr != IDLE && m in s.mutexes && MutexList(m) in s.queues && MutexOk(s, m)
      && s.tasks[s.curr].pc.WaitScan?
    ensures Did(s, WaitLooked(s), m, if m == TABLE && s.tasks[s.curr].pc.i >= |s.tasks| then Gives else Leaves)
  {
    var pc := s.tasks[s.curr].pc;
    InvFacts(s);
    hide Placed, Unlocked, Shape, Did, MutexOk, Keys, TasksOk;
    if pc.i >= |s.tasks| { ScanTickets(s, m, WaitBlock); } else { SameTickets(s, WaitLooked(s), m); }
  }

  lemma ExitLookTickets(s: Sched, m: nat)
    requires Inv(s) && s.curr != IDLE && m in s.mutexes && MutexList(m) in s.queues && MutexOk(s, m)
      && s.tasks[s.curr].pc.ExitScan?
    ensures Did(s, ExitLooked(s), m, if m == TABLE && s.tasks[s.curr].pc.i >= |s.tasks| then Gives else Leaves)
  {
    var pc := s.tasks[s.curr].pc;
    InvFacts(s);
    hide Placed, Unlocked, Shape, Did, MutexOk, Keys, TasksOk;
    if pc.i >= |s.tasks| { ScanTickets(s, m, ExitEnd(pc.moved, pc.code)); } else { SameTickets(s, ExitLooked(s), m); }
  }

  // Every step does to the tickets of every mutex what the abstract mutex does.
  lemma StepTickets(s: Sched, e: Event, m: nat)
    requires Inv(s) && Can(s, e) && m in s.mutexes && MutexList(m) in s.queues && MutexOk(s, m)
    ensures Did(s, Step(s, e), m, UseOf(s, e, m))
  {
    InvFacts(s);
    hide Locked, Unlocked, WaitLooked, ExitLooked, Shape, Placed, Keys, TasksOk, Did, MutexOk, SetPc, KeysKept;
    match e
    case Lock(m') => if m' == m { LockTickets(s, m); } else { OtherMutex(s, m, m'); SameTickets(s, Step(s, e), m); }
    case Unlock(m') => if m' == m { UnlockTickets(s, m); } else { OtherMutex(s, m, m'); SameTickets(s, Step(s, e), m); }
    case WaitBegin => ScanTickets(s, m, WaitScan(SLOT0));
    case WaitLook => WaitLookTickets(s, m);
    case WaitReturn => ScanTickets(s, m, User);
    case ExitBegin(code) => ScanTickets(s, m, ExitScan(SLOT0, false, code));
    case ExitLook => ExitLookTickets(s, m);
    case SemWait(k) => OtherSem(s, m, k); SameTickets(s, Step(s, e), m);
    case SemNotify(k) => OtherSem(s, m, k); SameTickets(s, Step(s, e), m);
    case _ => QuietStep(s, e, MutexList(m)); SameTickets(s, Step(s, e), m);
  }

  // ------------------------------------------------------------ whole runs

  ghost predicate MutexThere(s: Sched, m: nat) {
    m in s.mutexes && MutexList(m) in s.queues && MutexOk(s, m)
  }

  // The abstract mutex, fed with what the run does to mutex m.
  ghost function TicketsRun(q: seq<Ticket>, s: Sched, es: seq<Event>, m: nat): seq<Ticket>
    requires Inv(s) && Legal(s, es)
    decreases |es|
  {
    if es == [] then q
    else
      StepKeepsInv(s, es[0]);
      TicketsRun(Used(q, UseOf(s, es[0], m), s.curr), Step(s, es[0]), es[1..], m)
  }

  // Over any interleaving mutex m is the abstract ticket queue.
  lemma {:induction false} MutexRefinesQueue(s: Sched, es: seq<Event>, m: nat)
    requires Inv(s) && Legal(s, es) && MutexThere(s, m)
    ensures MutexThere(After(s, es), m) && Tickets(After(s, es), m) == TicketsRun(Tickets(s, m), s, es, m)
    decreases |es|
  {
    hide Step, Inv, Legal, Can, After, Used, Tickets, MutexOk;
    if es == [] {
      AfterNone(s);
    } else {
      LegalHead(s, es);
      StepTickets(s, es[0], m);
      MutexRefinesQueue(Step(s, es[0]), es[1..], m);
    }
  }

  // How often task t has asked for mutex m, less how often it has given it back
  // while it owned it.
  ghost function Balance(q: seq<Ticket>, s: Sched, es: seq<Event>, m: nat, t: Tid): int
    requires Inv(s) && Legal(s, es)
    decreases |es|
  {
    if es == [] then 0
    else
      StepKeepsInv(s, es[0]);
      var u := UseOf(s, es[0], m);
      (if s.curr != t then 0 else if u == Asks then 1 else if u == Gives && q != [] && q[0].who == t then -1 else 0)
      + Balance(Used(q, u, s.curr), Step(s, es[0]), es[1..], m, t)
  }

  ghost function Held(q: seq<Ticket>, t: Tid): int {
    if q == [] then 0 else (if q[|q| - 1].who == t then q[|q| - 1].depth else 0) + Held(q[..|q| - 1], t)
  }

  lemma {:induction false} HeldSplit(a: seq<Ticket>, b: seq<Ticket>, t: Tid)
    ensures Held(a + b, t) == Held(a, t) + Held(b, t)
  {
    if b == [] {
      assert a + b == a;
    } else {
      assert (a + b)[..|a + b| - 1] == a + b[..|b| - 1];
      HeldSplit(a, b[..|b| - 1], t);
    }
  }

  lemma HeldHead(q: seq<Ticket>, depth: int, t: Tid)
    requires q != []
    ensures Held([Ticket(q[0].who, depth)] + q[1..], t) == Held(q, t) + if q[0].who == t then depth - q[0].depth else 0
    ensures Held(q[1..], t) == Held(q, t) - if q[0].who == t then q[0].depth else 0
  {
    assert q == [q[0]] + q[1..];
    HeldSplit([q[0]], q[1..], t);
    HeldSplit([Ticket(q[0].who, depth)], q[1..], t);
  }

  lemma HeldUsed(q: seq<Ticket>, u: Use, c: Tid, t: Tid)
    ensures Held(Used(q, u, c), t) == Held(q, t)
      + if c != t then 0 else if u == Asks then 1 else if u == Gives && q != [] && q[0].who == t then -1 else 0
  {
    HeldSplit(q, [Ticket(c, 1)], t);
    assert Held([Ticket(c, 1)], t) == if c == t then 1 else 0;
    if q != [] {
      HeldHead(q, q[0].depth + 1, t);
      HeldHead(q, q[0].depth - 1, t);
    }
    hide Held;
  }

  lemma {:induction false} Ledger(q: seq<Ticket>, s: Sched, es: seq<Event>, m: nat, t: Tid)
    requires Inv(s) && Legal(s, es)
    ensures Held(TicketsRun(q, s, es, m), t) == Held(q, t) + Balance(q, s, es, m, t)
    decreases |es|
  {
    hide Step, Inv, Legal, Can, Used, UseOf, Held;
    if es != [] {
      LegalHead(s, es);
      var u := UseOf(s, es[0], m);
      HeldUsed(q, u, s.curr, t);
      Ledger(Used(q, u, s.curr), Step(s, es[0]), es[1..], m, t);
    }
  }

  // From the boot on: the lock count is the owner's balance, a task that waits has
  // asked once more than it was given, and every other task's balance is zero.
  lemma MutexCounts(s: Sched, es: seq<Event>, m: nat, t: Tid)
    requires Booted(s) && Inv(s) && Legal(s, es) && m in s.mutexes
    ensures MutexThere(After(s, es), m)
    ensures var r, b := After(s, es), Balance([], s, es, m, t);
      if r.mutexes[m].count != 0 && t == r.mutexes[m].owner then b == r.mutexes[m].count
      else if t in r.queues[MutexList(m)] then b == 1
      else b == 0
  {
    assert MutexList(m) in s.queues && Tickets(s, m) == [];
    MutexRefinesQueue(s, es, m);
    Ledger([], s, es, m, t);
    var r := After(s, es);
    var w := r.queues[MutexList(m)];
    HeldSplit([Ticket(r.mutexes[m].owner, r.mutexes[m].count)], WaitTickets(w), t);
    assert Distinct(w);
    HeldWaiting(w, t);
  }

  lemma {:induction false} HeldWaiting(w: seq<Tid>, t: Tid)
    requires Distinct(w)
    ensures Held(WaitTickets(w), t) == if t in w then 1 else 0
  {
    if w != [] {
      var p := w[..|w| - 1];
      assert WaitTickets(w)[..|w| - 1] == WaitTickets(p);
      assert w == p + [w[|w| - 1]];
      HeldWaiting(p, t);
    }
  }

  ghost function Line(q: seq<Ticket>): (r: seq<Tid>)
    ensures |r| == |q| && forall i {:trigger r[i]} :: 0 <= i < |q| ==> r[i] == q[i].who
  {
    seq(|q|, i requires 0 <= i < |q| => q[i].who)
  }

  // Who asked for the mutex without owning it, in the order of asking.
  ghost function Arrivals(q: seq<Ticket>, s: Sched, es: seq<Event>, m: nat): seq<Tid>
    requires Inv(s) && Legal(s, es)
    decreases |es|
  {
    if es == [] then []
    else
      StepKeepsInv(s, es[0]);
      var u := UseOf(s, es[0], m);
      (if u == Asks && (q == [] || q[0].who != s.curr) then [s.curr] else [])
      + Arrivals(Used(q, u, s.curr), Step(s, es[0]), es[1..], m)
  }

  // How often an owner gave it up altogether.
  ghost function Departures(q: seq<Ticket>, s: Sched, es: seq<Event>, m: nat): nat
    requires Inv(s) && Legal(s, es)
    decreases |es|
  {
    if es == [] then 0
    else
      StepKeepsInv(s, es[0]);
      var u := UseOf(s, es[0], m);
      (if u == Gives && q != [] && q[0].who == s.curr && q[0].depth == 1 then 1 else 0)
      + Departures(Used(q, u, s.curr), Step(s, es[0]), es[1..], m)
  }

  lemma LineUsed(q: seq<Ticket>, u: Use, c: Tid)
    ensures Line(Used(q, u, c)) ==
      if u == Asks && (q == [] || q[0].who != c) then Line(q) + [c]
      else if u == Gives && q != [] && q[0].who == c && q[0].depth == 1 then Line(q)[1..]
      else Line(q)
  {
  }

  // One step of the line: x joins, n leave from the front later, y leave now.
  lemma LineShift(l: seq<Tid>, x: seq<Tid>, y: nat, l': seq<Tid>, rest: seq<Tid>, n: nat)
    requires y <= |l| && (x == [] || y == 0) && l' == l[y..] + x && n <= |l' + rest|
    ensures y + n <= |l + (x + rest)| && (l' + rest)[n..] == (l + (x + rest))[y + n..]
  {
    if y == 0 {
      assert l' + rest == l + (x + rest);
    } else {
      assert l' + rest == (l + (x + rest))[y..];
    }
  }

  // The line at a mutex is always the arrivals less the departures from its
  // front: owners follow one another in the order they asked, nobody gets between.
  lemma {:induction false} ArrivalOrder(q: seq<Ticket>, s: Sched, es: seq<Event>, m: nat)
    requires Inv(s) && Legal(s, es)
    ensures Departures(q, s, es, m) <= |Line(q) + Arrivals(q, s, es, m)|
    ensures Line(TicketsRun(q, s, es, m)) == (Line(q) + Arrivals(q, s, es, m))[Departures(q, s, es, m)..]
    decreases |es|
  {
    hide Step, Inv, Legal, Can, Used, UseOf, Line;
    if es != [] {
      LegalHead(s, es);
      var u, c, r := UseOf(s, es[0], m), s.curr, Step(s, es[0]);
      LineUsed(q, u, c);
      var q' := Used(q, u, c);
      ArrivalOrder(q', r, es[1..], m);
      LineShift(Line(q), if u == Asks && (q == [] || q[0].who != c) then [c] else [],
                if u == Gives && q != [] && q[0].who == c && q[0].depth == 1 then 1 else 0,
                Line(q'), Arrivals(q', r, es[1..], m), Departures(q', r, es[1..], m));
    }
  }
}

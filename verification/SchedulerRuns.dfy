/** Whole runs of the scheduler: where tasks are, how long a ready task waits,
    and when a sleeper wakes. */
module SchedulerRuns {
  import opened Tasks
  import opened Placement
  import opened Scheduler

  ghost predicate Legal(s: Sched, es: seq<Event>)
    requires Inv(s)
    decreases |es|
  {
    es == [] || (Can(s, es[0]) && (StepKeepsInv(s, es[0]); Legal(Step(s, es[0]), es[1..])))
  }

  ghost function After(s: Sched, es: seq<Event>): (r: Sched)
    requires Inv(s) && Legal(s, es)
    ensures Inv(r) && |r.tasks| == |s.tasks|
    decreases |es|
  {
    if es == [] then s
    else
      StepKeepsInv(s, es[0]);
      After(Step(s, es[0]), es[1..])
  }

  lemma AfterNone(s: Sched)
    requires Inv(s)
    ensures Legal(s, []) && After(s, []) == s
  {
  }

  lemma LegalHead(s: Sched, es: seq<Event>)
    requires Inv(s) && Legal(s, es) && es != []
    ensures Can(s, es[0]) && Inv(Step(s, es[0])) && Legal(Step(s, es[0]), es[1..])
    ensures After(s, es) == After(Step(s, es[0]), es[1..])
  {
    StepKeepsInv(s, es[0]);
    hide Inv, Can, Step;
  }

  // What task_manager_init and task_first_init leave: only the first task runs.
  ghost predicate Booted(s: Sched) {
    && 2 <= |s.tasks| && s.curr == FIRST && Keys(s) && SleepList in s.queues
    && ReadyList in s.queues && s.queues[ReadyList] == [FIRST]
    && (forall q {:trigger s.queues[q]} :: q in s.queues && q != ReadyList ==> s.queues[q] == [])
    && (forall m {:trigger s.mutexes[m]} :: m in s.mutexes ==> s.mutexes[m] == Mutex(0, NONE))
    && s.tasks[IDLE] == FREE.(used := true, slice := TIME_SLICE)
    && s.tasks[FIRST] == FREE.(used := true, slice := TIME_SLICE, pid := FIRST, state := Ready)
    && forall t: nat {:trigger s.tasks[t]} :: SLOT0 <= t < |s.tasks| ==> s.tasks[t] == FREE
  }

  lemma BootInv(s: Sched)
    requires Booted(s)
    ensures Inv(s)
  {
    assert On(s, ReadyList, FIRST);
  }

  // In every reachable state a started task other than idle is on exactly one
  // list, at one place in it, or waits for a child, or is dead; the current task
  // is the head of the ready list, and idle exactly when that is empty.
  lemma PlacementOnRuns(s: Sched, es: seq<Event>, t: Tid)
    requires Inv(s) && Legal(s, es) && 0 < t < |s.tasks| && After(s, es).tasks[t].used
    ensures var r := After(s, es);
      && ((exists q :: On(r, q, t)) <==> !r.tasks[t].state.Waiting? && !r.tasks[t].state.Zombie?)
      && (forall q, p :: On(r, q, t) && On(r, p, t) ==> q == p)
      && (forall q {:trigger r.queues[q]} :: q in r.queues ==> Once(r.queues[q], t))
      && (r.curr == IDLE <==> r.queues[ReadyList] == []) && (r.curr != IDLE ==> r.curr == r.queues[ReadyList][0])
  {
    var r := After(s, es);
    if r.queues[ReadyList] != [] { assert On(r, ReadyList, r.queues[ReadyList][0]); }
    forall q | q in r.queues ensures Once(r.queues[q], t) {
      assert Distinct(r.queues[q]);
    }
    if Listed(r, t) {
      assert exists q :: On(r, q, t);
    }
  }

  ghost predicate Once(q: seq<Tid>, t: Tid) {
    forall i, j {:trigger q[i], q[j]} :: 0 <= i < |q| && 0 <= j < |q| && q[i] == t == q[j] ==> i == j
  }

  // ------------------------------------------------------------ switching

  lemma DispatchSwitches(s: Sched, c: Tid)
    requires Shape(s) && s.curr == c
    ensures var r := Dispatch(s); r.curr != c ==> r.curr < |r.tasks| && r.tasks[r.curr].state == Running
  {
  }

  ghost predicate Switched(s: Sched, r: Sched) {
    r.curr != s.curr ==> r.curr < |r.tasks| && r.tasks[r.curr].state == Running
  }

  lemma RotateSwitches(s: Sched)
    requires Shape(s)
    ensures Switched(s, Dispatch(SetReady(SetBlock(s, s.curr), s.curr)))
  {
    hide Dispatch;
    assert s.curr < |s.tasks|;
    DispatchSwitches(SetReady(SetBlock(s, s.curr), s.curr), s.curr);
  }

  lemma PassSwitches(s: Sched)
    requires Shape(s)
    ensures Switched(s, Dispatch(Pass(s)))
  {
    hide Dispatch, Shape;
    DispatchSwitches(Pass(s), s.curr);
  }

  lemma SliceSwitches(s: Sched)
    requires Shape(s)
    ensures Switched(s, SliceTick(s))
  {
    hide Dispatch, SetReady, SetBlock, Shape;
    PlacedCurr(s);
    RotateSwitches(SetTask(s, s.curr, s.tasks[s.curr].(slice := TIME_SLICE)));
  }

  lemma PlacedCurr(s: Sched)
    requires Shape(s)
    ensures s.curr < |s.tasks| && s.tasks[s.curr].parent < |s.tasks|
  {
  }

  lemma TickSwitches(s: Sched)
    requires Shape(s)
    ensures Switched(s, Ticked(s)) && Switched(s, Rested(s))
  {
    hide Dispatch, SliceTick, Pass, Shape;
    PlacedCurr(s);
    SliceSwitches(s);
    PassSwitches(SliceTick(s));
    PassSwitches(SetTask(s, s.curr, s.tasks[s.curr].(inTick := false)));
  }

  lemma LockSwitches(s: Sched, m: nat)
    requires Shape(s) && m in s.mutexes && MutexList(m) in s.queues
    ensures Switched(s, Locked(s, m))
  {
    hide Dispatch, Shape;
    PlacedCurr(s);
    DispatchSwitches(Enqueue(SetBlock(s, s.curr), MutexList(m), s.curr), s.curr);
  }

  lemma UnlockSwitches(s: Sched, m: nat)
    requires Shape(s) && m in s.mutexes && MutexList(m) in s.queues
    ensures Switched(s, Unlocked(s, m))
  {
    hide Dispatch, Shape;
    var w := s.queues[MutexList(m)];
    if w != [] {
      HeadInside(s, MutexList(m));
      var a := SetReady(Dequeue(s, MutexList(m)), w[0]).(mutexes := s.mutexes[m := Mutex(1, w[0])]);
      SameShape(SetReady(Dequeue(s, MutexList(m)), w[0]), a);
      DispatchSwitches(a, s.curr);
    }
  }

  lemma SameShape(s: Sched, r: Sched)
    requires Shape(s) && r == s.(mutexes := r.mutexes)
    ensures Shape(r)
  {
  }

  lemma SemSwitches(s: Sched, k: nat)
    requires Shape(s) && k in s.sems && SemList(k) in s.queues
    ensures Switched(s, SemWaited(s, k)) && Switched(s, SemNotified(s, k))
  {
    hide Dispatch;
    assert s.curr < |s.tasks|;
    var w := s.queues[SemList(k)];
    DispatchSwitches(Enqueue(SetBlock(s, s.curr), SemList(k), s.curr), s.curr);
    if w != [] { DispatchSwitches(SetReady(Dequeue(s, SemList(k)), w[0]), s.curr); }
  }

  lemma ScanSwitches(s: Sched, pc: Pc)
    requires Shape(s) && TableThere(s)
    ensures s.curr < |s.tasks| && Switched(s, Locked(SetPc(s, s.curr, pc), TABLE))
    ensures Switched(s, Unlocked(SetPc(s, s.curr, pc), TABLE))
  {
    hide Locked, Unlocked, Shape;
    PlacedCurr(s);
    LockSwitches(SetPc(s, s.curr, pc), TABLE);
    UnlockSwitches(SetPc(s, s.curr, pc), TABLE);
  }

  lemma EndSwitches(s: Sched)
    requires Shape(s)
    ensures Switched(s, WaitBlocked(s)) && (s.tasks[s.curr].pc.ExitEnd? ==> Switched(s, ExitEnded(s)))
  {
    hide Dispatch;
    assert s.curr < |s.tasks|;
    DispatchSwitches(SetTask(SetBlock(s, s.curr), s.curr, s.tasks[s.curr].(state := Waiting, pc := WaitAgain)), s.curr);
    if s.tasks[s.curr].pc.ExitEnd? {
      var b, pc := ParentsWoken(s, s.tasks[s.curr].pc.moved), s.tasks[s.curr].pc;
      var x := b.tasks[s.curr].(status := pc.code, state := Zombie);
      DispatchSwitches(SetBlock(SetTask(b, s.curr, x), s.curr), s.curr);
    }
  }

  // Whenever another task runs after a step, its state says so.
  lemma SwitchedRuns(s: Sched, e: Event)
    requires Inv(s) && Can(s, e)
    ensures Step(s, e).curr != s.curr ==>
      Step(s, e).curr < |Step(s, e).tasks| && Step(s, e).tasks[Step(s, e).curr].state == Running
  {
    hide Ticked, Rested, Locked, Unlocked, SemWaited, SemNotified, ExitEnded, WaitBlocked, Shape, Placed, Keys, TasksOk,
         Dispatch;
    InvFacts(s);
    var pc := s.tasks[s.curr].pc;
    match e
    case Tick => TickSwitches(s);
    case Rest => TickSwitches(s);
    case Yield => RotateSwitches(s);
    case SleepFor(ms) => DispatchSwitches(SetSleep(SetBlock(s, s.curr), s.curr, SleepTicks(ms)), s.curr);
    case Lock(m) => LockSwitches(s, m);
    case Unlock(m) => UnlockSwitches(s, m);
    case SemWait(k) => SemSwitches(s, k);
    case SemNotify(k) => SemSwitches(s, k);
    case WaitBegin => ScanSwitches(s, WaitScan(SLOT0));
    case WaitLook => ScanSwitches(s, WaitBlock);
    case WaitReturn => ScanSwitches(s, User);
    case ExitBegin(code) => ScanSwitches(s, ExitScan(SLOT0, false, code));
    case ExitLook => ScanSwitches(s, ExitEnd(pc.moved, pc.code));
    case WaitSuspend => EndSwitches(s);
    case ExitFinish => EndSwitches(s);
    case _ =>
  }

  // ------------------------------------------------------------ round robin

  // The time slices left to the tasks ahead of t.
  ghost function Ahead(q: seq<Tid>, tasks: seq<Task>, t: Tid): (n: int)
    requires Inside(q, |tasks|)
  {
    if q == [] || q[0] == t then 0 else tasks[q[0]].slice + Ahead(q[1..], tasks, t)
  }

  lemma {:induction false} AheadMore(q: seq<Tid>, q': seq<Tid>, tasks: seq<Task>, tasks': seq<Task>, t: Tid)
    requires Inside(q, |tasks|) && Inside(q', |tasks'|) && |tasks| == |tasks'| && t in q && q <= q'
    requires forall u: Tid {:trigger tasks[u].slice} {:trigger tasks'[u].slice} :: u in q && u != t ==>
      tasks'[u].slice == tasks[u].slice
    ensures Ahead(q', tasks', t) == Ahead(q, tasks, t)
  {
    if q[0] != t {
      assert q == [q[0]] + q[1..] && q' == [q[0]] + q'[1..];
      assert q[1..] <= q'[1..];
      AheadMore(q[1..], q'[1..], tasks, tasks', t);
    }
  }

  lemma {:induction false} AheadBound(s: Sched, q: seq<Tid>, k: nat)
    requires Slices(s) && Inside(q, |s.tasks|) && k < |q| && forall i {:trigger q[i]} :: 0 <= i < |q| ==>
      s.tasks[q[i]].used
    ensures Ahead(q, s.tasks, q[k]) <= TIME_SLICE * k
    ensures q[0] != q[k] ==> Ahead(q, s.tasks, q[k]) > 0
    ensures Ahead(q, s.tasks, q[k]) >= 0
  {
    if q[0] != q[k] {
      AheadBound(s, q[1..], k - 1);
    }
  }

  // A step other than a tick: the ready list only grows at its end, or loses its
  // head, and nobody's time slice on it changes; the sleepers p sleep on, with
  // as many ticks to go.
  ghost predicate Grows(q: seq<Tid>, q': seq<Tid>) {
    q <= q' || (q != [] && q[1..] <= q')
  }

  ghost predicate SameTimes(q: seq<Tid>, p: seq<Tid>, tasks: seq<Task>, tasks': seq<Task>) {
    && |tasks'| == |tasks|
    && (forall u: Tid {:trigger tasks'[u].slice} {:trigger tasks[u].slice} ::
          u in q && u < |tasks| ==> tasks'[u].slice == tasks[u].slice)
    && (forall u: Tid {:trigger tasks'[u].sleepTicks} {:trigger tasks[u].sleepTicks} ::
          u in p && u < |tasks| ==> tasks'[u].sleepTicks == tasks[u].sleepTicks)
  }

  ghost predicate Steady(s: Sched, r: Sched, p: seq<Tid>)
    requires ReadyList in s.queues && ReadyList in r.queues && SleepList in r.queues
  {
    && Grows(s.queues[ReadyList], r.queues[ReadyList]) && SameTimes(s.queues[ReadyList], p, s.tasks, r.tasks)
    && p <= r.queues[SleepList]
  }

  ghost predicate Sleepers(s: Sched, p: seq<Tid>)
    requires SleepList in s.queues
  {
    p <= s.queues[SleepList]
  }

  lemma BlockTail(s: Sched)
    requires Placed(s, {}) && s.curr == Next(s) && s.curr != IDLE
    ensures Shape(s) && s.curr < |s.tasks|
    ensures s.queues[ReadyList] != [] && SetBlock(s, s.curr).queues[ReadyList] == s.queues[ReadyList][1..]
  {
    CurrentIsReady(s);
    WithoutFacts(s.queues[ReadyList], s.curr);
  }

  lemma PlacedShape(s: Sched)
    requires Placed(s, {})
    ensures Shape(s) && s.curr < |s.tasks|
  {
  }

  // Readying, blocking and dispatching leave every time slice.
  lemma MovesKeepTimes(s: Sched, t: Tid, q: seq<Tid>, p: seq<Tid>)
    requires Shape(s) && t < |s.tasks|
    ensures SameTimes(q, p, s.tasks, Dispatch(s).tasks) && SameTimes(q, p, s.tasks, SetReady(s, t).tasks)
    ensures SetReady(s, t).queues[ReadyList] == s.queues[ReadyList] + if t == IDLE then [] else [t]
    ensures SetReady(s, t).queues[SleepList] == s.queues[SleepList]
      && SetBlock(s, t).queues[SleepList] == s.queues[SleepList]
    ensures SetBlock(s, t).tasks == s.tasks && Dispatch(s).queues == s.queues
  {
  }

  lemma TimesRefl(q: seq<Tid>, p: seq<Tid>, a: seq<Task>)
    ensures SameTimes(q, p, a, a)
  {
  }

  lemma TimesTrans(q: seq<Tid>, p: seq<Tid>, a: seq<Task>, b: seq<Task>, c: seq<Task>)
    requires SameTimes(q, p, a, b) && SameTimes(q, p, b, c)
    ensures SameTimes(q, p, a, c)
  {
  }

  lemma JoinSteady(s: Sched, l: Queue, p: seq<Tid>)
    requires Placed(s, {}) && Sleepers(s, p) && s.curr == Next(s) && s.curr != IDLE && l in s.queues && l != ReadyList
    ensures Steady(s, Dispatch(Enqueue(SetBlock(s, s.curr), l, s.curr)), p)
  {
    BlockTail(s);
    MovesKeepTimes(Enqueue(SetBlock(s, s.curr), l, s.curr), s.curr, s.queues[ReadyList], p);
  }

  lemma HeadInside(s: Sched, l: Queue)
    requires Shape(s) && l in s.queues && s.queues[l] != []
    ensures s.queues[l][0] < |s.tasks|
  {
  }

  lemma LeaveSteady(s: Sched, l: Queue, mutexes: map<nat, Mutex>, p: seq<Tid>)
    requires Shape(s) && Sleepers(s, p) && l in s.queues && l != ReadyList && l != SleepList && s.queues[l] != []
    ensures Steady(s, Dispatch(SetReady(Dequeue(s, l), s.queues[l][0]).(mutexes := mutexes)), p)
  {
    hide Dispatch, SetReady, SameTimes, Inside;
    var q, t := s.queues[ReadyList], s.queues[l][0];
    HeadInside(s, l);
    var a := SetReady(Dequeue(s, l), t);
    MovesKeepTimes(Dequeue(s, l), t, q, p);
    MovesKeepTimes(a.(mutexes := mutexes), t, q, p);
    TimesTrans(q, p, s.tasks, a.tasks, Dispatch(a.(mutexes := mutexes)).tasks);
  }

  lemma LockSteady(s: Sched, m: nat, p: seq<Tid>)
    requires Placed(s, {}) && Sleepers(s, p) && s.curr == Next(s) && s.curr != IDLE && m in s.mutexes
      && MutexList(m) in s.queues
    ensures Steady(s, Locked(s, m), p)
  {
    JoinSteady(s, MutexList(m), p);
    hide Placed, Shape, Dispatch, Enqueue, SetBlock;
  }

  lemma UnlockSteady(s: Sched, m: nat, p: seq<Tid>)
    requires Shape(s) && Sleepers(s, p) && m in s.mutexes && MutexList(m) in s.queues
    ensures Steady(s, Unlocked(s, m), p)
  {
    var w := s.queues[MutexList(m)];
    if w != [] { LeaveSteady(s, MutexList(m), s.mutexes[m := Mutex(1, w[0])], p); }
    hide Shape, Dispatch, SetReady, Dequeue;
  }

  lemma SemWaitSteady(s: Sched, k: nat, p: seq<Tid>)
    requires Placed(s, {}) && Sleepers(s, p) && s.curr == Next(s) && s.curr != IDLE && k in s.sems
      && SemList(k) in s.queues
    ensures Steady(s, SemWaited(s, k), p)
  {
    hide Placed, Dispatch, Enqueue, SetBlock, SameTimes;
    PlacedShape(s);
    TimesRefl(s.queues[ReadyList], p, s.tasks);
    JoinSteady(s, SemList(k), p);
  }

  lemma SemNotifySteady(s: Sched, k: nat, p: seq<Tid>)
    requires Shape(s) && Sleepers(s, p) && k in s.sems && SemList(k) in s.queues
    ensures Steady(s, SemNotified(s, k), p)
  {
    hide Dispatch, SameTimes, Inside;
    TimesRefl(s.queues[ReadyList], p, s.tasks);
    if s.queues[SemList(k)] != [] { LeaveSteady(s, SemList(k), s.mutexes, p); }
  }

  lemma PcSteady(s: Sched, pc: Pc, r: Sched, p: seq<Tid>)
    requires Shape(s) && Sleepers(s, p) && Shape(r) && Steady(SetPc(s, s.curr, pc), r, p)
    ensures Steady(s, r, p)
  {
    TimesTrans(s.queues[ReadyList], p, s.tasks, SetPc(s, s.curr, pc).tasks, r.tasks);
  }

  // One that is off every list changes.
  lemma EditSteady(s: Sched, t: Tid, x: Task, p: seq<Tid>)
    requires Placed(s, {}) && Sleepers(s, p) && t < |s.tasks| && x.parent < |s.tasks|
    requires !Listed(s, t) || (x.slice == s.tasks[t].slice && x.sleepTicks == s.tasks[t].sleepTicks)
    ensures Steady(s, SetTask(s, t, x), p)
  {
    assert On(s, ReadyList, t) || On(s, SleepList, t) ==> Listed(s, t);
  }

  lemma YieldSteady(s: Sched, p: seq<Tid>)
    requires Placed(s, {}) && Sleepers(s, p) && s.curr == Next(s) && s.curr != IDLE
    ensures Steady(s, Yielded(s), p)
  {
    hide Dispatch, SetReady, SetBlock, SameTimes, Placed;
    BlockTail(s);
    var q, a := s.queues[ReadyList], SetBlock(s, s.curr);
    TimesRefl(q, p, s.tasks);
    MovesKeepTimes(s, s.curr, q, p);
    MovesKeepTimes(a, s.curr, q, p);
    MovesKeepTimes(SetReady(a, s.curr), s.curr, q, p);
    TimesTrans(q, p, s.tasks, SetReady(a, s.curr).tasks, Dispatch(SetReady(a, s.curr)).tasks);
  }

  lemma SleepSteady(s: Sched, ms: nat, p: seq<Tid>)
    requires Placed(s, {}) && Sleepers(s, p) && s.curr == Next(s) && s.curr != IDLE && SleepTicks(ms) > 0
    ensures Steady(s, Slept(s, ms), p)
  {
    var q, n, b := s.queues[ReadyList], SleepTicks(ms), SetBlock(s, s.curr);
    var a := SetSleep(b, s.curr, n);
    CurrentIsReady(s);
    BlockTail(s);
    assert !On(s, SleepList, s.curr);
    assert SameTimes(q, p, s.tasks, a.tasks);
    hide SameTimes, Placed, Shape, SetBlock, On, SleepTicks, Dispatch;
    MovesKeepTimes(a, s.curr, q, p);
    TimesTrans(q, p, s.tasks, a.tasks, Dispatch(a).tasks);
  }

  lemma PassSteady(s: Sched)
    requires Placed(s, {})
    ensures Steady(s, Dispatch(Pass(s)), [])
  {
    var q := s.queues[ReadyList];
    MovesKeepTimes(Pass(s), IDLE, q, []);
    TimesTrans(q, [], s.tasks, Pass(s).tasks, Dispatch(Pass(s)).tasks);
  }

  lemma RestSteady(s: Sched)
    requires Placed(s, {})
    ensures Steady(s, Rested(s), [])
  {
    var x := s.tasks[s.curr].(inTick := false);
    var a := SetTask(s, s.curr, x);
    EditPlaced(s, s.curr, x, {});
    PassSteady(a);
    TimesTrans(s.queues[ReadyList], [], s.tasks, a.tasks, Dispatch(Pass(a)).tasks);
  }

  lemma ForkSteady(s: Sched, c: Tid, p: seq<Tid>)
    requires Placed(s, {}) && Sleepers(s, p) && SLOT0 <= c < |s.tasks| && !s.tasks[c].used
    ensures Steady(s, Forked(s, c), p)
  {
    var x, q := Task(true, Created, 0, TIME_SLICE, s.curr, c, 0, User, false), s.queues[ReadyList];
    EditSteady(s, c, x, p);
    MovesKeepTimes(SetTask(s, c, x), c, q, p);
    TimesTrans(q, p, s.tasks, SetTask(s, c, x).tasks, Forked(s, c).tasks);
  }

  lemma SuspendSteady(s: Sched, p: seq<Tid>)
    requires Placed(s, {}) && Sleepers(s, p) && s.curr == Next(s) && s.curr != IDLE
    ensures Steady(s, WaitBlocked(s), p)
  {
    var q, a := s.queues[ReadyList],
      SetTask(SetBlock(s, s.curr), s.curr, s.tasks[s.curr].(state := Waiting, pc := WaitAgain));
    BlockTail(s);
    MovesKeepTimes(a, s.curr, q, p);
    TimesTrans(q, p, s.tasks, a.tasks, Dispatch(a).tasks);
  }

  lemma WaitLookSteady(s: Sched, p: seq<Tid>)
    requires Inv(s) && Sleepers(s, p) && s.curr != IDLE && s.tasks[s.curr].pc.WaitScan?
    ensures Steady(s, WaitLooked(s), p)
  {
    var i := s.tasks[s.curr].pc.i;
    InvFacts(s);
    if i >= |s.tasks| {
      UnlockSteady(SetPc(s, s.curr, WaitBlock), TABLE, p);
      hide Unlocked, Inv, Shape, Steady;
      PcSteady(s, WaitBlock, WaitLooked(s), p);
    } else if s.tasks[i].parent == s.curr && s.tasks[i].state == Zombie {
      hide Unlocked;
    } else {
      hide Unlocked;
    }
  }

  lemma ClearSteady(s: Sched, p: seq<Tid>)
    requires Inv(s) && Sleepers(s, p) && s.curr != IDLE && s.tasks[s.curr].pc.WaitReap?
      && s.tasks[s.curr].pc.i < |s.tasks|
    requires s.tasks[s.tasks[s.curr].pc.i].state == Zombie
    ensures Steady(s, WaitCleared(s), p)
  {
    InvFacts(s);
    PcPlaced(s, WaitDone);
    EditSteady(SetPc(s, s.curr, WaitDone), s.tasks[s.curr].pc.i, FREE, p);
    hide Inv, Shape, Steady;
    PcSteady(s, WaitDone, WaitCleared(s), p);
  }

  lemma CheckSteady(s: Sched, p: seq<Tid>)
    requires Inv(s) && Sleepers(s, p) && s.curr != IDLE && s.tasks[s.curr].pc.ExitTest?
    ensures Steady(s, ExitTested(s), p)
  {
    InvFacts(s);
  }

  lemma ExitLookSteady(s: Sched, p: seq<Tid>)
    requires Inv(s) && Sleepers(s, p) && s.curr != IDLE && s.tasks[s.curr].pc.ExitScan?
    ensures Steady(s, ExitLooked(s), p)
  {
    hide Unlocked, Inv, Shape, Steady;
    InvFacts(s);
    var pc := s.tasks[s.curr].pc;
    if pc.i >= |s.tasks| {
      PcPlaced(s, ExitEnd(pc.moved, pc.code));
      UnlockSteady(SetPc(s, s.curr, ExitEnd(pc.moved, pc.code)), TABLE, p);
      PcSteady(s, ExitEnd(pc.moved, pc.code), ExitLooked(s), p);
    } else {
      ExitTurnSteady(s, p);
    }
  }

  lemma ExitTurnSteady(s: Sched, p: seq<Tid>)
    requires Inv(s) && Sleepers(s, p) && s.curr != IDLE && s.tasks[s.curr].pc.ExitScan?
      && s.tasks[s.curr].pc.i < |s.tasks|
    ensures TableThere(s) && Steady(s, ExitLooked(s), p)
  {
    hide Unlocked, Placed, TasksOk;
    InvFacts(s);
  }

  lemma WokenSteady(s: Sched, t: Tid, q: seq<Tid>, p: seq<Tid>)
    requires Shape(s) && t < |s.tasks|
    ensures s.queues[ReadyList] <= Woken(s, t).queues[ReadyList] && Woken(s, t).queues[SleepList] == s.queues[SleepList]
    ensures SameTimes(q, p, s.tasks, Woken(s, t).tasks)
  {
    MovesKeepTimes(s, t, q, p);
  }

  lemma ParentsSteady(s: Sched, moved: bool, p: seq<Tid>)
    requires Shape(s) && Sleepers(s, p)
    ensures s.queues[ReadyList] <= ParentsWoken(s, moved).queues[ReadyList]
    ensures ParentsWoken(s, moved).queues[SleepList] == s.queues[SleepList]
    ensures SameTimes(s.queues[ReadyList], p, s.tasks, ParentsWoken(s, moved).tasks)
  {
    var q, par := s.queues[ReadyList], s.tasks[s.curr].parent;
    var a := if moved && par != FIRST then Woken(s, FIRST) else s;
    WokenSteady(s, FIRST, q, p);
    WokenSteady(a, par, q, p);
    assert SameTimes(q, p, s.tasks, a.tasks);
    hide Shape, Woken, SameTimes;
    TimesTrans(q, p, s.tasks, a.tasks, ParentsWoken(s, moved).tasks);
  }

  lemma FinishSteady(s: Sched, p: seq<Tid>)
    requires Inv(s) && Sleepers(s, p) && s.curr != IDLE && s.tasks[s.curr].pc.ExitEnd?
    ensures Steady(s, ExitEnded(s), p)
  {
    var pc := s.tasks[s.curr].pc;
    CurrentIsReady(s);
    InvFacts(s);
    ParentsPlaced(s, pc.moved);
    ParentsSteady(s, pc.moved, p);
    var b := ParentsWoken(s, pc.moved);
    BlockFirst(b);
    hide Inv, Placed, ParentsWoken, Shape, SameTimes, Steady, SetBlock, SetTask, On, Listed;
    DeathSteady(s, b, b.tasks[s.curr].(status := pc.code, state := Zombie), p);
  }

  lemma DeathSteady(s: Sched, b: Sched, x: Task, p: seq<Tid>)
    requires Shape(s) && Shape(b) && Sleepers(s, p) && b.curr == s.curr != IDLE && s.queues[ReadyList] != []
    requires s.queues[ReadyList] <= b.queues[ReadyList] && b.queues[SleepList] == s.queues[SleepList]
    requires Without(b.queues[ReadyList], s.curr) == b.queues[ReadyList][1..]
    requires SameTimes(s.queues[ReadyList], p, s.tasks, b.tasks) && x.parent < |b.tasks|
    requires x.slice == b.tasks[s.curr].slice && x.sleepTicks == b.tasks[s.curr].sleepTicks
    ensures Steady(s, Dispatch(SetBlock(SetTask(b, s.curr, x), s.curr)), p)
  {
    var q, c := s.queues[ReadyList], SetBlock(SetTask(b, s.curr, x), s.curr);
    MovesKeepTimes(c, IDLE, q, p);
    assert SameTimes(q, p, b.tasks, c.tasks);
    assert c.queues[ReadyList] == b.queues[ReadyList][1..] && c.queues[SleepList] == s.queues[SleepList];
    hide SameTimes, Dispatch, Shape, SetBlock, Without;
    TimesTrans(q, p, s.tasks, b.tasks, c.tasks);
    TimesTrans(q, p, s.tasks, c.tasks, Dispatch(c).tasks);
  }

  lemma BlockFirst(s: Sched)
    requires Placed(s, {}) && s.queues[ReadyList] != [] && s.queues[ReadyList][0] == s.curr && s.curr != IDLE
    ensures Without(s.queues[ReadyList], s.curr) == s.queues[ReadyList][1..]
  {
    WithoutFacts(s.queues[ReadyList], s.curr);
  }

  lemma StepSteady(s: Sched, e: Event, p: seq<Tid>)
    requires Inv(s) && Sleepers(s, p) && Can(s, e) && e != Tick && (e == Rest ==> p == [])
    ensures Steady(s, Step(s, e), p)
  {
    InvFacts(s);
    hide Rested, Yielded, Slept, Locked, Unlocked, SemWaited, SemNotified, Forked, WaitLooked, ExitLooked, ExitEnded,
         WaitBlocked, WaitCleared, ExitTested, Shape, Placed, Keys, TasksOk, Steady;
    var t := s.curr;
    match e
    case Rest => RestSteady(s);
    case Yield => YieldSteady(s, p);
    case SleepFor(ms) => SleepSteady(s, ms, p);
    case Lock(m) => LockSteady(s, m, p);
    case Unlock(m) => UnlockSteady(s, m, p);
    case SemWait(k) => SemWaitSteady(s, k, p);
    case SemNotify(k) => SemNotifySteady(s, k, p);
    case Fork(c) => ForkSteady(s, c, p);
    case WaitBegin =>
      PcPlaced(s, WaitScan(SLOT0));
      LockSteady(SetPc(s, t, WaitScan(SLOT0)), TABLE, p);
      PcSteady(s, WaitScan(SLOT0), Step(s, e), p);
    case WaitLook => WaitLookSteady(s, p);
    case WaitClear => ClearSteady(s, p);
    case WaitReturn => UnlockSteady(SetPc(s, t, User), TABLE, p); PcSteady(s, User, Step(s, e), p);
    case WaitSuspend => SuspendSteady(s, p);
    case ExitBegin(code) =>
      PcPlaced(s, ExitScan(SLOT0, false, code));
      LockSteady(SetPc(s, t, ExitScan(SLOT0, false, code)), TABLE, p);
      PcSteady(s, ExitScan(SLOT0, false, code), Step(s, e), p);
    case ExitLook => ExitLookSteady(s, p);
    case ExitCheck => CheckSteady(s, p);
    case ExitFinish => FinishSteady(s, p);
  }

  ghost function WaitFor(s: Sched, t: Tid): int
    requires Shape(s)
  {
    Ahead(s.queues[ReadyList], s.tasks, t)
  }

  lemma HeadAndTail(s: Sched, t: Tid)
    requires Placed(s, {}) && s.curr == Next(s) && On(s, ReadyList, t) && t != s.curr
    ensures var q := s.queues[ReadyList];
      && q != [] && q[0] == s.curr != IDLE && s.curr !in q[1..] && t in q[1..] && Inside(q[1..], |s.tasks|)
      && WaitFor(s, t) == s.tasks[s.curr].slice + Ahead(q[1..], s.tasks, t) && 1 <= s.tasks[s.curr].slice
  {
    var q := s.queues[ReadyList];
    assert q == [q[0]] + q[1..];
    assert On(s, ReadyList, q[0]);
  }

  lemma SteadyWait(s: Sched, r: Sched, t: Tid)
    requires Placed(s, {}) && s.curr == Next(s) && On(s, ReadyList, t) && t != s.curr && Shape(r) && Steady(s, r, [])
    ensures On(r, ReadyList, t) && WaitFor(r, t) <= WaitFor(s, t)
  {
    var q, q' := s.queues[ReadyList], r.queues[ReadyList];
    HeadAndTail(s, t);
    hide Placed, Shape;
    if q <= q' {
      AheadMore(q, q', s.tasks, r.tasks, t);
    } else {
      assert forall u :: u in q[1..] ==> u in q;
      AheadMore(q[1..], q', s.tasks, r.tasks, t);
    }
  }

  // The head's slice runs out: it goes to the end with a new one.
  lemma SliceOver(s: Sched)
    requires Placed(s, {}) && s.curr == Next(s) && s.curr != IDLE && s.tasks[s.curr].slice == 1
    ensures SliceTick(s).queues[ReadyList] == s.queues[ReadyList][1..] + [s.curr]
    ensures forall u: Tid {:trigger SliceTick(s).tasks[u].slice} :: u < |s.tasks| && u != s.curr ==>
      SliceTick(s).tasks[u].slice == s.tasks[u].slice
  {
    var a, x := SliceTick(s), s.tasks[s.curr].(slice := TIME_SLICE);
    CurrentIsReady(s);
    WithoutFacts(s.queues[ReadyList], s.curr);
    var b := SetBlock(SetTask(s, s.curr, x), s.curr);
    assert b.queues[ReadyList] == s.queues[ReadyList][1..];
    hide Placed, Shape;
    assert a == Dispatch(SetReady(b, s.curr));
  }

  lemma SliceWait(s: Sched, t: Tid)
    requires Placed(s, {}) && s.curr == Next(s) && On(s, ReadyList, t) && t != s.curr
    ensures On(SliceTick(s), ReadyList, t) && WaitFor(SliceTick(s), t) == WaitFor(s, t) - 1
  {
    var q, a := s.queues[ReadyList], SliceTick(s);
    HeadAndTail(s, t);
    if s.tasks[s.curr].slice - 1 == 0 {
      SliceOver(s);
      hide Placed, Shape, SliceTick;
      assert t in a.queues[ReadyList];
      AheadMore(q[1..], q[1..] + [s.curr], s.tasks, a.tasks, t);
    } else {
      AheadMore(q[1..], q[1..], s.tasks, a.tasks, t);
    }
  }

  lemma TickWait(s: Sched, t: Tid)
    requires Inv(s) && On(s, ReadyList, t) && t != s.curr
    ensures On(Ticked(s), ReadyList, t) && WaitFor(Ticked(s), t) == WaitFor(s, t) - 1
  {
    var a := SliceTick(s);
    var q := a.queues[ReadyList];
    SliceWait(s, t);
    InvFacts(s);
    SliceTickPlaced(s);
    if a.curr == s.curr {
      PassSteady(a);
      hide Placed, Shape, SliceTick;
      AheadMore(q, Dispatch(Pass(a)).queues[ReadyList], a.tasks, Dispatch(Pass(a)).tasks, t);
    } else {
      hide Placed, SliceTick;
      AheadMore(q, q, a.tasks, Ticked(s).tasks, t);
    }
  }

  ghost function Ticks(es: seq<Event>): nat {
    if es == [] then 0 else (if es[0] == Tick then 1 else 0) + Ticks(es[1..])
  }

  // Task t is current now or after one of the steps.
  ghost predicate Runs(s: Sched, es: seq<Event>, t: Tid)
    requires Inv(s) && Legal(s, es)
    decreases |es|
  {
    s.curr == t || (es != [] && (StepKeepsInv(s, es[0]); Runs(Step(s, es[0]), es[1..], t)))
  }

  lemma {:induction false} RunsAfterWait(s: Sched, es: seq<Event>, t: Tid)
    requires Inv(s) && Legal(s, es) && On(s, ReadyList, t) && WaitFor(s, t) <= Ticks(es)
    ensures Runs(s, es, t)
    decreases |es|
  {
    if t != s.curr {
      HeadAndTail(s, t);
      TailPositive(s, t);
      assert es != [];
      var e, r := es[0], Step(s, es[0]);
      StepKeepsInv(s, e);
      if e == Tick { TickWait(s, t); } else { StepSteady(s, e, []); SteadyWait(s, r, t); }
      RunsAfterWait(r, es[1..], t);
    }
  }

  lemma TailPositive(s: Sched, t: Tid)
    requires Placed(s, {}) && s.curr == Next(s) && On(s, ReadyList, t) && t != s.curr
    ensures WaitFor(s, t) > 0
  {
    var q := s.queues[ReadyList];
    var k :| 0 <= k < |q| && q[k] == t;
    PlaceBound(s, k);
    HeadAndTail(s, t);
  }

  lemma PlaceBound(s: Sched, k: nat)
    requires Placed(s, {}) && k < |s.queues[ReadyList]|
    ensures WaitFor(s, s.queues[ReadyList][k]) <= TIME_SLICE * k
    ensures s.queues[ReadyList][0] != s.queues[ReadyList][k] ==> WaitFor(s, s.queues[ReadyList][k]) > 0
  {
    var q := s.queues[ReadyList];
    forall i | 0 <= i < |q| ensures s.tasks[q[i]].used {
      assert On(s, ReadyList, q[i]);
    }
    AheadBound(s, q, k);
  }

  // A task at place k of the ready list gets to run within 10 * k timer ticks,
  // whatever else the tasks do.
  lemma RoundRobin(s: Sched, es: seq<Event>, k: nat)
    requires Inv(s) && Legal(s, es) && k < |s.queues[ReadyList]| && TIME_SLICE * k <= Ticks(es)
    ensures Runs(s, es, s.queues[ReadyList][k])
  {
    PlaceBound(s, k);
    assert On(s, ReadyList, s.queues[ReadyList][k]);
    RunsAfterWait(s, es, s.queues[ReadyList][k]);
  }
}

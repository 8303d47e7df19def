/** Timer ticks over whole runs: every tick makes its pass over the sleep list, at
    once or when the task that was switched away goes on, and every time slice is
    ten ticks. */
module Ticks {
  import opened Tasks
  import opened Placement
  import opened Scheduler
  import opened SchedulerRuns
  import opened Sleeping
  import opened ProcessTree

  // What the timer has to do with a task: the ticks left of its slice, and whether
  // it owes the rest of a tick.
  datatype Clock = Clock(slice: int, owes: bool)

  ghost function ClockOf(x: Task): Clock {
    Clock(x.slice, x.inTick)
  }

  ghost function Clocks(ts: seq<Task>): (r: seq<Clock>)
    ensures |r| == |ts| && forall t {:trigger r[t]} :: 0 <= t < |ts| ==> r[t] == ClockOf(ts[t])
  {
    seq(|ts|, t requires 0 <= t < |ts| => ClockOf(ts[t]))
  }

  // The step switches to another task in the middle of a tick.
  ghost predicate Switches(s: Sched, e: Event)
    requires Shape(s)
  {
    e == Tick && SliceTick(s).curr != s.curr
  }

  // What a step of task c does to the clocks: ten ticks for a new task and after the
  // last tick of a slice.
  ghost function ClockStep(v: seq<Clock>, e: Event, c: Tid, switched: bool, cleared: Tid): (r: seq<Clock>)
    requires c < |v|
    ensures |r| == |v|
  {
    match e
    case Tick => v[c := Clock(if v[c].slice == 1 then 10 else v[c].slice - 1, switched)]
    case Rest => v[c := Clock(v[c].slice, false)]
    case Fork(n) => if n < |v| then v[n := Clock(10, false)] else v
    case WaitClear => if cleared < |v| then v[cleared := Clock(0, false)] else v
    case _ => v
  }

  ghost function Cleared(s: Sched): Tid
    requires s.curr < |s.tasks|
  {
    if s.tasks[s.curr].pc.WaitReap? then s.tasks[s.curr].pc.i else 0
  }

  lemma MoveClocks(s: Sched, t: Tid)
    requires Shape(s) && t < |s.tasks|
    ensures Clocks(Dispatch(s).tasks) == Clocks(s.tasks) && Clocks(SetReady(s, t).tasks) == Clocks(s.tasks)
    ensures SetBlock(s, t).tasks == s.tasks
  {
  }

  lemma EditClocks(s: Sched, t: Tid, x: Task)
    requires Shape(s) && t < |s.tasks| && x.parent < |s.tasks|
    ensures Clocks(SetTask(s, t, x).tasks) == Clocks(s.tasks)[t := ClockOf(x)]
    ensures ClockOf(x) == ClockOf(s.tasks[t]) ==> Clocks(SetTask(s, t, x).tasks) == Clocks(s.tasks)
  {
  }

  lemma RotateClocks(s: Sched)
    requires Shape(s)
    ensures Clocks(Dispatch(SetReady(SetBlock(s, s.curr), s.curr)).tasks) == Clocks(s.tasks)
  {
    assert s.curr < |s.tasks|;
    var a := SetBlock(s, s.curr);
    MoveClocks(s, s.curr);
    hide Shape, SetBlock, SetReady, Dispatch;
    MoveClocks(a, s.curr);
    MoveClocks(SetReady(a, s.curr), s.curr);
  }

  lemma PassClocks(s: Sched)
    requires Shape(s)
    ensures Clocks(Dispatch(Pass(s)).tasks) == Clocks(s.tasks)
  {
    assert Clocks(Pass(s).tasks) == Clocks(s.tasks);
    MoveClocks(Pass(s), IDLE);
  }

  lemma ShapeFacts(s: Sched, t: Tid)
    requires Shape(s)
    ensures s.curr < |s.tasks| && FIRST < |s.tasks| && s.tasks[s.curr].parent < |s.tasks|
    ensures t < |s.tasks| ==> s.tasks[t].parent < |s.tasks|
  {
  }

  lemma SliceClocks(s: Sched)
    requires Shape(s)
    ensures s.curr < |s.tasks| && s.tasks[s.curr].parent < |s.tasks|
    ensures var v := Clocks(s.tasks);
      Clocks(SliceTick(s).tasks)
        == v[s.curr := Clock(if v[s.curr].slice == 1 then 10 else v[s.curr].slice - 1, v[s.curr].owes)]
  {
    hide Shape, SetBlock, SetReady, Dispatch, Clocks;
    ShapeFacts(s, IDLE);
    var t := s.tasks[s.curr];
    EditClocks(s, s.curr, t.(slice := TIME_SLICE));
    EditClocks(s, s.curr, t.(slice := t.slice - 1));
    RotateClocks(SetTask(s, s.curr, t.(slice := TIME_SLICE)));
  }

  lemma TickClocks(s: Sched)
    requires Shape(s) && !s.tasks[s.curr].inTick
    ensures Clocks(Ticked(s).tasks) == ClockStep(Clocks(s.tasks), Tick, s.curr, Switches(s, Tick), 0)
  {
    hide Shape, SliceTick, Dispatch, Pass, Clocks, SetTask;
    var a, c := SliceTick(s), s.curr;
    SliceClocks(s);
    ShapeFacts(a, c);
    EditClocks(a, c, a.tasks[c].(inTick := true));
    PassClocks(a);
  }

  lemma RestClocks(s: Sched)
    requires Shape(s)
    ensures Clocks(Rested(s).tasks) == ClockStep(Clocks(s.tasks), Rest, s.curr, false, 0)
  {
    hide Shape, Dispatch, Pass, Clocks, SetTask;
    ShapeFacts(s, s.curr);
    var x := s.tasks[s.curr].(inTick := false);
    EditClocks(s, s.curr, x);
    PassClocks(SetTask(s, s.curr, x));
  }

  lemma JoinClocks(s: Sched, q: Queue)
    requires Shape(s) && q in s.queues
    ensures Clocks(Dispatch(Enqueue(SetBlock(s, s.curr), q, s.curr)).tasks) == Clocks(s.tasks)
  {
    hide Shape, Dispatch, SetReady, Clocks;
    ShapeFacts(s, IDLE);
    MoveClocks(s, s.curr);
    MoveClocks(Enqueue(SetBlock(s, s.curr), q, s.curr), s.curr);
  }

  lemma LeaveClocks(s: Sched, q: Queue, mutexes: map<nat, Mutex>)
    requires Shape(s) && q in s.queues && s.queues[q] != []
    ensures s.queues[q][0] < |s.tasks|
    ensures Clocks(Dispatch(SetReady(Dequeue(s, q), s.queues[q][0]).(mutexes := mutexes)).tasks) == Clocks(s.tasks)
  {
    var t := s.queues[q][0];
    assert Inside(s.queues[q], |s.tasks|) && t < |s.tasks|;
    MoveClocks(Dequeue(s, q), t);
    MoveClocks(SetReady(Dequeue(s, q), t).(mutexes := mutexes), t);
    hide SetReady, Dispatch;
  }

  lemma LockClocks(s: Sched, m: nat)
    requires Shape(s) && m in s.mutexes && MutexList(m) in s.queues
    ensures Clocks(Locked(s, m).tasks) == Clocks(s.tasks)
  {
    hide Shape, Dispatch, SetBlock, Enqueue, Clocks;
    JoinClocks(s, MutexList(m));
  }

  lemma UnlockClocks(s: Sched, m: nat)
    requires Shape(s) && m in s.mutexes && MutexList(m) in s.queues
    ensures Clocks(Unlocked(s, m).tasks) == Clocks(s.tasks)
  {
    hide Shape, Dispatch, SetReady, Dequeue, Clocks;
    var w := s.queues[MutexList(m)];
    if w != [] { LeaveClocks(s, MutexList(m), s.mutexes[m := Mutex(1, w[0])]); }
  }

  lemma SameMutexes(s: Sched, t: Tid)
    requires Shape(s) && t < |s.tasks|
    ensures SetReady(s, t).mutexes == s.mutexes && SetReady(s, t).(mutexes := s.mutexes) == SetReady(s, t)
  {
  }

  lemma SemClocks(s: Sched, k: nat)
    requires Shape(s) && k in s.sems && SemList(k) in s.queues
    ensures Clocks(SemWaited(s, k).tasks) == Clocks(s.tasks) && Clocks(SemNotified(s, k).tasks) == Clocks(s.tasks)
  {
    hide Shape, Dispatch, SetReady, SetBlock, Enqueue, Clocks;
    JoinClocks(s, SemList(k));
    var w := s.queues[SemList(k)];
    if w != [] {
      LeaveClocks(s, SemList(k), s.mutexes);
      SameMutexes(Dequeue(s, SemList(k)), w[0]);
    }
  }

  lemma SleepClocks(s: Sched, ms: nat)
    requires Shape(s)
    ensures Clocks(Slept(s, ms).tasks) == Clocks(s.tasks)
  {
    hide Shape, Dispatch, SetBlock, SleepTicks, Clocks;
    ShapeFacts(s, IDLE);
    var b, n := SetBlock(s, s.curr), SleepTicks(ms);
    MoveClocks(s, s.curr);
    EditClocks(b, s.curr, s.tasks[s.curr].(sleepTicks := n, state := Sleep));
    MoveClocks(SetSleep(b, s.curr, n), s.curr);
  }

  lemma PcClocks(s: Sched, pc: Pc)
    requires Shape(s)
    ensures Shape(SetPc(s, s.curr, pc)) && Clocks(SetPc(s, s.curr, pc).tasks) == Clocks(s.tasks)
    ensures TableThere(s) ==>
      && Clocks(Locked(SetPc(s, s.curr, pc), TABLE).tasks) == Clocks(s.tasks)
      && Clocks(Unlocked(SetPc(s, s.curr, pc), TABLE).tasks) == Clocks(s.tasks)
  {
    hide Locked, Unlocked, Clocks, Shape;
    ShapeFacts(s, IDLE);
    EditClocks(s, s.curr, s.tasks[s.curr].(pc := pc));
    if TableThere(s) {
      LockClocks(SetPc(s, s.curr, pc), TABLE);
      UnlockClocks(SetPc(s, s.curr, pc), TABLE);
    }
  }

  lemma LookClocks(s: Sched)
    requires Shape(s) && TableThere(s)
    ensures s.tasks[s.curr].pc.WaitScan? ==> Clocks(WaitLooked(s).tasks) == Clocks(s.tasks)
    ensures s.tasks[s.curr].pc.ExitScan? ==> Clocks(ExitLooked(s).tasks) == Clocks(s.tasks)
    ensures s.tasks[s.curr].pc.ExitTest? ==> Clocks(ExitTested(s).tasks) == Clocks(s.tasks)
  {
    hide Unlocked, SetPc, Clocks, Shape;
    ShapeFacts(s, IDLE);
    var pc := s.tasks[s.curr].pc;
    forall x: Pc
      ensures Clocks(SetPc(s, s.curr, x).tasks) == Clocks(s.tasks)
      ensures Clocks(Unlocked(SetPc(s, s.curr, x), TABLE).tasks) == Clocks(s.tasks)
    {
      PcClocks(s, x);
    }
    if pc.ExitScan? && pc.i < |s.tasks| {
      ShapeFacts(s, pc.i);
      var a := SetTask(s, pc.i, s.tasks[pc.i].(parent := FIRST));
      EditClocks(s, pc.i, s.tasks[pc.i].(parent := FIRST));
      PcClocks(a, ExitTest(pc.i, pc.moved, pc.code));
    }
  }

  lemma WokenClocks(s: Sched, t: Tid)
    requires Shape(s) && t < |s.tasks|
    ensures Clocks(Woken(s, t).tasks) == Clocks(s.tasks)
  {
    MoveClocks(s, t);
  }

  lemma ParentsClocks(s: Sched, moved: bool)
    requires Shape(s)
    ensures Clocks(ParentsWoken(s, moved).tasks) == Clocks(s.tasks) && ParentsWoken(s, moved).curr == s.curr
  {
    hide Shape, Clocks;
    ShapeFacts(s, IDLE);
    var p := s.tasks[s.curr].parent;
    WokenClocks(s, FIRST);
    WokenClocks(if moved && p != FIRST then Woken(s, FIRST) else s, p);
  }

  lemma FinishClocks(s: Sched)
    requires Shape(s) && s.tasks[s.curr].pc.ExitEnd?
    ensures Clocks(ExitEnded(s).tasks) == Clocks(s.tasks)
  {
    hide Shape, SetBlock, Dispatch, Clocks, ParentsWoken;
    ShapeFacts(s, IDLE);
    var b, pc := ParentsWoken(s, s.tasks[s.curr].pc.moved), s.tasks[s.curr].pc;
    ParentsClocks(s, pc.moved);
    ShapeFacts(b, IDLE);
    var x := b.tasks[s.curr].(status := pc.code, state := Zombie);
    EditClocks(b, s.curr, x);
    MoveClocks(SetTask(b, s.curr, x), s.curr);
    MoveClocks(SetBlock(SetTask(b, s.curr, x), s.curr), s.curr);
  }

  lemma ForkClocks(s: Sched, c: Tid)
    requires Shape(s) && c < |s.tasks|
    ensures Clocks(Forked(s, c).tasks) == Clocks(s.tasks)[c := Clock(10, false)]
  {
    hide Shape, SetReady, Clocks;
    ShapeFacts(s, IDLE);
    var x := Task(true, Created, 0, TIME_SLICE, s.curr, c, 0, User, false);
    EditClocks(s, c, x);
    MoveClocks(SetTask(s, c, x), c);
  }

  lemma ClearClocks(s: Sched)
    requires Shape(s) && s.tasks[s.curr].pc.WaitReap? && s.tasks[s.curr].pc.i < |s.tasks|
    ensures Clocks(WaitCleared(s).tasks) == Clocks(s.tasks)[s.tasks[s.curr].pc.i := Clock(0, false)]
  {
    hide Shape, Clocks;
    ShapeFacts(s, IDLE);
    var i := s.tasks[s.curr].pc.i;
    EditClocks(s, s.curr, s.tasks[s.curr].(pc := WaitDone));
    EditClocks(SetPc(s, s.curr, WaitDone), i, FREE);
  }

  lemma SuspendClocks(s: Sched)
    requires Shape(s)
    ensures Clocks(WaitBlocked(s).tasks) == Clocks(s.tasks)
  {
    hide Shape, Clocks, SetBlock, Dispatch;
    ShapeFacts(s, IDLE);
    var b := SetBlock(s, s.curr);
    MoveClocks(s, s.curr);
    var x := b.tasks[s.curr].(state := Waiting, pc := WaitAgain);
    EditClocks(b, s.curr, x);
    MoveClocks(SetTask(b, s.curr, x), s.curr);
  }

  lemma StepClocks(s: Sched, e: Event)
    requires Inv(s) && Can(s, e)
    ensures Clocks(Step(s, e).tasks) == ClockStep(Clocks(s.tasks), e, s.curr, Switches(s, e), Cleared(s))
  {
    hide Ticked, Rested, Yielded, Slept, Locked, Unlocked, SemWaited, SemNotified, Forked, WaitLooked, ExitLooked,
         ExitEnded, WaitBlocked, WaitCleared, ExitTested, Shape, Placed, Keys, TasksOk, SetPc, Clocks, Dispatch,
         SetReady, SetBlock;
    InvFacts(s);
    match e
    case Tick => TickClocks(s);
    case Rest => RestClocks(s);
    case Yield => YieldClocks(s);
    case SleepFor(ms) => SleepClocks(s, ms);
    case Lock(m) => LockClocks(s, m);
    case Unlock(m) => UnlockClocks(s, m);
    case SemWait(k) => SemClocks(s, k);
    case SemNotify(k) => SemClocks(s, k);
    case Fork(c) => ForkClocks(s, c);
    case WaitBegin => PcClocks(s, WaitScan(SLOT0));
    case WaitLook => LookClocks(s);
    case WaitClear => ClearClocks(s);
    case WaitReturn => PcClocks(s, User);
    case WaitSuspend => SuspendClocks(s);
    case ExitBegin(code) => PcClocks(s, ExitScan(SLOT0, false, code));
    case ExitLook => LookClocks(s);
    case ExitCheck => LookClocks(s);
    case ExitFinish => FinishClocks(s);
  }

  lemma YieldClocks(s: Sched)
    requires Shape(s)
    ensures Clocks(Yielded(s).tasks) == Clocks(s.tasks)
  {
    hide Shape, Clocks, SetBlock, SetReady, Dispatch;
    RotateClocks(s);
  }

  // ------------------------------------------------------------ passes and ticks

  ghost function Owed(v: seq<Clock>): nat {
    if v == [] then 0 else Owed(v[..|v| - 1]) + if v[|v| - 1].owes then 1 else 0
  }

  lemma {:induction false} OwedPut(v: seq<Clock>, t: Tid, x: Clock)
    requires t < |v|
    ensures Owed(v[t := x]) == Owed(v) - (if v[t].owes then 1 else 0) + if x.owes then 1 else 0
  {
    var n := |v| - 1;
    if t == n {
      assert v[t := x][..n] == v[..n];
    } else {
      assert v[t := x][..n] == v[..n][t := x];
      OwedPut(v[..n], t, x);
    }
  }

  // Only a living task owes the rest of a tick.
  ghost predicate OwesOk(s: Sched) {
    forall t: Tid {:trigger s.tasks[t]} :: t < |s.tasks| && s.tasks[t].inTick ==>
      s.tasks[t].used && s.tasks[t].state != Zombie
  }

  ghost function TicksIn(es: seq<Event>): nat {
    if es == [] then 0 else (if es[0] == Tick then 1 else 0) + TicksIn(es[1..])
  }

  lemma StepOwes(s: Sched, e: Event)
    requires Inv(s) && Can(s, e) && OwesOk(s)
    ensures OwesOk(Step(s, e))
    ensures (if IsPass(s, e) then 1 else 0) + Owed(Clocks(Step(s, e).tasks))
      == (if e == Tick then 1 else 0) + Owed(Clocks(s.tasks))
  {
    hide Inv, Step, Can, View, TreeStep, Clocks, SliceTick, Shape;
    StepClocks(s, e);
    StepView(s, e);
    OwesBefore(s, e);
    var v, c := Clocks(s.tasks), s.curr;
    if e == Tick { OwedPut(v, c, Clock(if v[c].slice == 1 then 10 else v[c].slice - 1, Switches(s, e))); }
    else if e == Rest { OwedPut(v, c, Clock(v[c].slice, false)); }
    else if e.Fork? { OwedPut(v, e.c, Clock(10, false)); }
    else if e == WaitClear { OwedPut(v, Cleared(s), Clock(0, false)); }
    OwesAfter(s, e);
  }

  // Who acts owes the rest of a tick exactly when it goes on with it; a free entry
  // and a dead task owe nothing.
  lemma OwesBefore(s: Sched, e: Event)
    requires Inv(s) && Can(s, e) && OwesOk(s)
    ensures Shape(s) && s.curr < |s.tasks| && Clocks(s.tasks)[s.curr].owes == (e == Rest)
    ensures e.Fork? ==> e.c < |s.tasks| && !Clocks(s.tasks)[e.c].owes
    ensures e == WaitClear ==> Cleared(s) < |s.tasks| && !Clocks(s.tasks)[Cleared(s)].owes
  {
    InvFacts(s);
  }

  lemma OwesAfter(s: Sched, e: Event)
    requires Inv(s) && Can(s, e) && OwesOk(s)
    requires Shape(s) && Clocks(Step(s, e).tasks) == ClockStep(Clocks(s.tasks), e, s.curr, Switches(s, e), Cleared(s))
    requires View(Step(s, e).tasks) == TreeStep(View(s.tasks), e, s.curr)
    ensures OwesOk(Step(s, e))
  {
    hide Step, Placed, Keys, SliceTick, Shape;
    var r := Step(s, e);
    InvFacts(s);
    assert TaskOk(s.curr, s.tasks[s.curr]);
    NobodyDeadReady(s);
    CurrentAlive(s);
    hide Alive, TaskOk, TasksOk;
    forall t: Tid | t < |r.tasks| && r.tasks[t].inTick ensures r.tasks[t].used && r.tasks[t].state != Zombie {
      assert Clocks(r.tasks)[t].owes;
      assert View(r.tasks)[t] == NodeOf(r.tasks[t]) && View(s.tasks)[t] == NodeOf(s.tasks[t]);
      assert Clocks(s.tasks)[t] == ClockOf(s.tasks[t]);
    }
  }

  // Over every run the passes made and the passes owed at the end are the ticks and
  // the passes owed at the start: a tick that switches away forgets nothing.
  lemma {:induction false} EveryTickPasses(s: Sched, es: seq<Event>)
    requires Inv(s) && Legal(s, es) && OwesOk(s)
    ensures OwesOk(After(s, es))
    ensures Passes(s, es) + Owed(Clocks(After(s, es).tasks)) == TicksIn(es) + Owed(Clocks(s.tasks))
    decreases |es|
  {
    hide Step, Inv, Legal, Can, After, IsPass, OwesOk, Owed, Clocks;
    if es == [] {
      AfterNone(s);
    } else {
      LegalHead(s, es);
      StepOwes(s, es[0]);
      EveryTickPasses(Step(s, es[0]), es[1..]);
    }
  }

  // So in ticks: a sleeper with n to go is awake once the ticks, with the passes owed
  // at the start and without those owed at the end, are n; and before that it has
  // exactly so many fewer to go.
  lemma SleepsInTicks(s: Sched, es: seq<Event>, t: Tid)
    requires Inv(s) && Legal(s, es) && OwesOk(s) && On(s, SleepList, t)
    ensures t < |s.tasks| && s.tasks[t].sleepTicks > 0
    ensures var n, k := s.tasks[t].sleepTicks,
        TicksIn(es) + Owed(Clocks(s.tasks)) - Owed(Clocks(After(s, es).tasks));
      if k >= n then WakesAt(s, es, t, n)
      else On(After(s, es), SleepList, t) && After(s, es).tasks[t].sleepTicks == n - k
  {
    hide Step, Inv, Legal, Can, After, IsPass, OwesOk, Owed, Clocks, Placed;
    EveryTickPasses(s, es);
    SleepsExactly(s, es, t);
  }

  // From the call on: who asks for ms milliseconds is asleep, and wakes when that many
  // tens, rounded up, have passed in ticks.
  lemma SleepCall(s: Sched, ms: nat, es: seq<Event>)
    requires Inv(s) && OwesOk(s) && Can(s, SleepFor(ms)) && ms < 0x1_0000_0000
    requires Inv(Step(s, SleepFor(ms))) && Legal(Step(s, SleepFor(ms)), es)
    ensures var r, t := Step(s, SleepFor(ms)), s.curr;
      && On(r, SleepList, t) && t < |r.tasks| && r.tasks[t].state == Sleep
      && var n, k := r.tasks[t].sleepTicks,
           TicksIn(es) + Owed(Clocks(r.tasks)) - Owed(Clocks(After(r, es).tasks));
      && ms <= 10 * n < ms + 10
      && if k >= n then WakesAt(r, es, t, n) else On(After(r, es), SleepList, t)
  {
    hide Step, Inv, Legal, After, IsPass, OwesOk, Owed, Clocks, Placed, WakesAt, SleepTicks, TicksIn;
    StepOwes(s, SleepFor(ms));
    FallsAsleep(s, ms);
    TicksRoundUp(ms);
    SleepsInTicks(Step(s, SleepFor(ms)), es, s.curr);
  }

  lemma FallsAsleep(s: Sched, ms: nat)
    requires Inv(s) && Can(s, SleepFor(ms))
    ensures var r, t := Step(s, SleepFor(ms)), s.curr;
      && SleepTicks(ms) > 0 && t < |r.tasks| && On(r, SleepList, t)
      && r.tasks[t].state == Sleep && r.tasks[t].sleepTicks == SleepTicks(ms)
  {
    hide SleepTicks, Keys, TasksOk;
    InvFacts(s);
    CurrentIsReady(s);
    WithoutFacts(s.queues[ReadyList], s.curr);
    assert SetBlock(s, s.curr).queues[ReadyList] == s.queues[ReadyList][1..];
  }

  lemma BootOwesNothing(s: Sched)
    requires Booted(s)
    ensures Inv(s) && OwesOk(s) && Owed(Clocks(s.tasks)) == 0
  {
    BootInv(s);
    NoneOwed(Clocks(s.tasks));
  }

  lemma {:induction false} NoneOwed(v: seq<Clock>)
    requires forall t {:trigger v[t]} :: 0 <= t < |v| ==> !v[t].owes
    ensures Owed(v) == 0
  {
    if v != [] { NoneOwed(v[..|v| - 1]); }
  }

  // ------------------------------------------------------------ time slices

  // The ticks that came while t ran.
  ghost function Charged(s: Sched, es: seq<Event>, t: Tid): nat
    requires Inv(s) && Legal(s, es)
    decreases |es|
  {
    if es == [] then 0
    else
      StepKeepsInv(s, es[0]);
      (if es[0] == Tick && s.curr == t then 1 else 0) + Charged(Step(s, es[0]), es[1..], t)
  }

  // Nobody else takes the entry of t: it is not forked and not reaped.
  ghost predicate Stays(s: Sched, es: seq<Event>, t: Tid)
    requires Inv(s) && Legal(s, es)
    decreases |es|
  {
    es == []
    || (StepKeepsInv(s, es[0]);
        es[0] != Fork(t) && (es[0] == WaitClear ==> Cleared(s) != t) && Stays(Step(s, es[0]), es[1..], t))
  }

  lemma StepSlice(s: Sched, e: Event, t: Tid)
    requires Inv(s) && Can(s, e) && t < |s.tasks| && s.tasks[t].used
    requires e != Fork(t) && (e == WaitClear ==> s.curr < |s.tasks| && Cleared(s) != t)
    ensures t < |Step(s, e).tasks| && 1 <= s.tasks[t].slice
    ensures Step(s, e).tasks[t].slice
      == if e == Tick && s.curr == t then (if s.tasks[t].slice == 1 then 10 else s.tasks[t].slice - 1)
         else s.tasks[t].slice
  {
    StepClocks(s, e);
    InvFacts(s);
    hide Step, Can, Clocks, SliceTick, Keys, TasksOk, Lists;
    assert Clocks(Step(s, e).tasks)[t] == ClockOf(Step(s, e).tasks[t]) && Clocks(s.tasks)[t] == ClockOf(s.tasks[t]);
  }

  lemma StepUsed(s: Sched, e: Event, t: Tid)
    requires Inv(s) && Can(s, e) && t < |s.tasks| && s.tasks[t].used
    requires e == WaitClear ==> s.curr < |s.tasks| && Cleared(s) != t
    ensures t < |Step(s, e).tasks| && Step(s, e).tasks[t].used
  {
    hide Step, Placed, Keys;
    StepView(s, e);
    InvFacts(s);
    assert View(Step(s, e).tasks)[t] == NodeOf(Step(s, e).tasks[t]) && View(s.tasks)[t] == NodeOf(s.tasks[t]);
  }

  // Every slice is ten ticks: what is left of it follows from what was left at the
  // start and the number of ticks that came while the task ran, whatever it or others
  // did between, yielding, sleeping and waiting included.
  lemma {:induction false} SliceLedger(s: Sched, es: seq<Event>, t: Tid)
    requires Inv(s) && Legal(s, es) && t < |s.tasks| && s.tasks[t].used && Stays(s, es, t)
    ensures t < |After(s, es).tasks| && 1 <= s.tasks[t].slice <= 10
    ensures After(s, es).tasks[t].slice == 10 - (10 - s.tasks[t].slice + Charged(s, es, t)) % 10
    decreases |es|
  {
    hide Step, Inv, Legal, Can, After;
    SliceBounds(s, t);
    if es == [] {
      AfterNone(s);
    } else {
      LegalHead(s, es);
      InvCurr(s);
      StepSlice(s, es[0], t);
      StepUsed(s, es[0], t);
      SliceLedger(Step(s, es[0]), es[1..], t);
    }
  }

  lemma SliceBounds(s: Sched, t: Tid)
    requires Inv(s) && t < |s.tasks| && s.tasks[t].used
    ensures 1 <= s.tasks[t].slice <= 10
  {
  }

  lemma InvCurr(s: Sched)
    requires Inv(s)
    ensures Shape(s) && s.curr < |s.tasks|
  {
  }

  // A new task begins with ten.
  lemma ForkSlice(s: Sched, c: Tid)
    requires Inv(s) && Can(s, Fork(c))
    ensures c < |Step(s, Fork(c)).tasks| && Step(s, Fork(c)).tasks[c].slice == 10
  {
    hide Step, Placed, Keys, TasksOk, Clocks;
    StepClocks(s, Fork(c));
    InvFacts(s);
    assert Clocks(Step(s, Fork(c)).tasks)[c] == ClockOf(Step(s, Fork(c)).tasks[c]);
  }
}

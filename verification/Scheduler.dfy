/** The kernel as a transition system: whichever task is current takes the next
    step, or an interrupt arrives. Every step keeps the placement of the tasks. */
module Scheduler {
  import opened Tasks
  import opened Placement

  datatype Event =
    | Tick                     // timer interrupt
    | Rest                     // a task switched away inside a tick goes on with it
    | Yield
    | SleepFor(ms: nat)
    | Lock(m: nat) | Unlock(m: nat)
    | SemWait(k: nat) | SemNotify(k: nat)
    | Fork(c: Tid)
    | WaitBegin | WaitLook | WaitClear | WaitReturn | WaitSuspend
    | ExitBegin(code: int) | ExitLook | ExitCheck | ExitFinish

  ghost predicate Keys(s: Sched) {
    && TableThere(s)
    && (forall m {:trigger MutexList(m)} :: m in s.mutexes ==> MutexList(m) in s.queues)
    && (forall k {:trigger SemList(k)} :: k in s.sems ==> SemList(k) in s.queues)
  }

  // Scans of the table start behind the idle and the first task, only table
  // entries exit, and who waits for a child or is dead is a real task.
  ghost predicate TaskOk(t: Tid, x: Task) {
    && (t < SLOT0 ==> x.used)
    && (x.state.Waiting? || x.state.Zombie? ==> x.used && t != IDLE)
    && match x.pc
       case WaitScan(i) => SLOT0 <= i
       case WaitReap(i, _, _) => SLOT0 <= i
       case ExitScan(i, _, _) => SLOT0 <= i && SLOT0 <= t
       case ExitTest(i, _, _) => SLOT0 <= i && SLOT0 <= t
       case ExitEnd(_, _) => SLOT0 <= t
       case _ => true
  }

  ghost predicate TasksOk(ts: seq<Task>) {
    forall t: nat {:trigger ts[t]} :: t < |ts| ==> TaskOk(t, ts[t])
  }

  ghost predicate Inv(s: Sched) {
    Placed(s, {}) && s.curr == Next(s) && Keys(s) && TasksOk(s.tasks)
  }

  // The steps a program can take. A task that was inside a tick finishes it
  // before anything else; interrupts come at any other time. While it reaps a
  // child a task takes the allocator's mutex, and others as it likes; that the
  // child's entry is still that of a dead task then is ProcessTree.ReapedIsDead.
  ghost predicate Can(s: Sched, e: Event)
    requires Inv(s)
  {
    var me := s.tasks[s.curr];
    if me.inTick then e == Rest
    else match e
      case Tick => true
      case Rest => false
      case SemNotify(k) => k in s.sems
      case Yield => s.curr != IDLE && me.pc.User?
      case SleepFor(ms) => s.curr != IDLE && me.pc.User? && SleepTicks(ms) > 0
      case Lock(m) => s.curr != IDLE && (me.pc.User? || me.pc.WaitReap?) && m in s.mutexes && m != TABLE
      case Unlock(m) => s.curr != IDLE && (me.pc.User? || me.pc.WaitReap?) && m in s.mutexes && m != TABLE
      case SemWait(k) => s.curr != IDLE && me.pc.User? && k in s.sems
      case Fork(c) => s.curr != IDLE && me.pc.User? && SLOT0 <= c < |s.tasks| && !s.tasks[c].used
      case WaitBegin => s.curr != IDLE && (me.pc.User? || me.pc.WaitAgain?)
      case WaitLook => s.curr != IDLE && me.pc.WaitScan?
      case WaitClear => s.curr != IDLE && me.pc.WaitReap? && me.pc.i < |s.tasks| && s.tasks[me.pc.i].state == Zombie
      case WaitReturn => s.curr != IDLE && me.pc.WaitDone?
      case WaitSuspend => s.curr != IDLE && me.pc.WaitBlock?
      case ExitBegin(_) => s.curr != IDLE && s.curr != FIRST && me.pc.User?
      case ExitLook => s.curr != IDLE && me.pc.ExitScan?
      case ExitCheck => s.curr != IDLE && me.pc.ExitTest?
      case ExitFinish => s.curr != IDLE && me.pc.ExitEnd?
  }

  ghost function Step(s: Sched, e: Event): (r: Sched)
    requires Inv(s) && Can(s, e)
    ensures Shape(r) && KeysKept(s, r)
  {
    match e
    case Tick => Ticked(s)
    case Rest => Rested(s)
    case Yield => Yielded(s)
    case SleepFor(ms) => Slept(s, ms)
    case Lock(m) => Locked(s, m)
    case Unlock(m) => Unlocked(s, m)
    case SemWait(k) => SemWaited(s, k)
    case SemNotify(k) => SemNotified(s, k)
    case Fork(c) => Forked(s, c)
    case WaitBegin => WaitLocked(s)
    case WaitLook => WaitLooked(s)
    case WaitClear => WaitCleared(s)
    case WaitReturn => WaitReturned(s)
    case WaitSuspend => WaitBlocked(s)
    case ExitBegin(code) => ExitLocked(s, code)
    case ExitLook => ExitLooked(s)
    case ExitCheck => ExitTested(s)
    case ExitFinish => ExitEnded(s)
  }

  lemma CurrentIsReady(s: Sched)
    requires Placed(s, {}) && s.curr == Next(s) && s.curr != IDLE
    ensures On(s, ReadyList, s.curr) && Listed(s, s.curr) && s.queues[ReadyList] != []
      && s.queues[ReadyList][0] == s.curr
  {
    assert On(s, ReadyList, s.curr);
  }

  // Placement and the current task, per operation.

  lemma YieldPlaced(s: Sched)
    requires Placed(s, {}) && s.curr == Next(s)
    ensures Placed(Yielded(s), {}) && Yielded(s).curr == Next(Yielded(s))
  {
    if |s.queues[ReadyList]| > 1 {
      Rotated(s);
    }
  }

  // To the end of the ready list, and the head runs.
  lemma Rotated(s: Sched)
    requires Placed(s, {}) && s.curr == Next(s)
    ensures Placed(Dispatch(SetReady(SetBlock(s, s.curr), s.curr)), {})
  {
    if s.curr != IDLE {
      CurrentIsReady(s);
      BlockPlaced(s, s.curr);
      ReadyPlaced(SetBlock(s, s.curr), s.curr, {s.curr});
      assert {s.curr} - {s.curr} == {};
    }
    hide Placed;
    DispatchPlaced(SetReady(SetBlock(s, s.curr), s.curr), {});
  }

  lemma SleepPlaced(s: Sched, ms: nat)
    requires Placed(s, {}) && s.curr == Next(s) && s.curr != IDLE && SleepTicks(ms) > 0
    ensures Placed(Slept(s, ms), {}) && Slept(s, ms).curr == Next(Slept(s, ms))
  {
    var n := SleepTicks(ms);
    CurrentIsReady(s);
    BlockPlaced(s, s.curr);
    var a, x := SetBlock(s, s.curr), s.tasks[s.curr].(sleepTicks := n, state := Sleep);
    EditPlaced(a, s.curr, x, {s.curr});
    EnqueuePlaced(SetTask(a, s.curr, x), SleepList, s.curr);
    hide Placed;
    DispatchPlaced(SetSleep(a, s.curr, n), {});
  }

  lemma SliceTickPlaced(s: Sched)
    requires Placed(s, {}) && s.curr == Next(s) && s.tasks[s.curr].used
    ensures Placed(SliceTick(s), {}) && SliceTick(s).curr == Next(SliceTick(s))
  {
    var t := s.tasks[s.curr];
    if t.slice - 1 == 0 {
      EditPlaced(s, s.curr, t.(slice := TIME_SLICE), {});
      Rotated(SetTask(s, s.curr, t.(slice := TIME_SLICE)));
    } else {
      EditPlaced(s, s.curr, t.(slice := t.slice - 1), {});
    }
  }

  lemma TickPlaced(s: Sched)
    requires Placed(s, {}) && s.curr == Next(s) && s.tasks[s.curr].used
    ensures Placed(Ticked(s), {}) && Ticked(s).curr == Next(Ticked(s))
  {
    var a := SliceTick(s);
    SliceTickPlaced(s);
    if a.curr == s.curr {
      PassPlaced(a);
      DispatchPlaced(Pass(a), {});
    } else {
      EditPlaced(a, s.curr, a.tasks[s.curr].(inTick := true), {});
    }
  }

  lemma RestPlaced(s: Sched)
    requires Placed(s, {})
    ensures Placed(Rested(s), {}) && Rested(s).curr == Next(Rested(s))
  {
    var x := s.tasks[s.curr].(inTick := false);
    EditPlaced(s, s.curr, x, {});
    PassPlaced(SetTask(s, s.curr, x));
    DispatchPlaced(Pass(SetTask(s, s.curr, x)), {});
  }

  // Changing a mutex or a semaphore value does not move anyone.
  lemma ValuesPlaced(s: Sched, mutexes: map<nat, Mutex>, sems: map<nat, int>, out: set<Tid>)
    requires Placed(s, out)
    ensures Placed(s.(mutexes := mutexes, sems := sems), out)
  {
    var r := s.(mutexes := mutexes, sems := sems);
    assert forall q, t {:trigger On(r, q, t)} :: On(r, q, t) == On(s, q, t);
    assert forall t {:trigger Listed(r, t)} :: Listed(r, t) == Listed(s, t);
    forall t: Tid | Listed(r, t) && t !in out ensures exists q :: On(r, q, t) {
      var q :| On(s, q, t);
      assert On(r, q, t);
    }
  }

  // The current task joins a wait list.
  lemma JoinPlaced(s: Sched, q: Queue)
    requires Placed(s, {}) && s.curr == Next(s) && s.curr != IDLE && q in s.queues && q != SleepList
    ensures Placed(Dispatch(Enqueue(SetBlock(s, s.curr), q, s.curr)), {})
  {
    CurrentIsReady(s);
    BlockPlaced(s, s.curr);
    EnqueuePlaced(SetBlock(s, s.curr), q, s.curr);
    hide Placed;
    DispatchPlaced(Enqueue(SetBlock(s, s.curr), q, s.curr), {});
  }

  // The first one of a wait list gets ready.
  lemma LeavePlaced(s: Sched, q: Queue)
    requires Placed(s, {}) && q in s.queues && s.queues[q] != []
    ensures s.queues[q][0] < |s.tasks| && Placed(SetReady(Dequeue(s, q), s.queues[q][0]), {})
  {
    var t := s.queues[q][0];
    assert On(s, q, t);
    assert Listed(s, t);
    DequeuePlaced(s, q);
    ReadyPlaced(Dequeue(s, q), t, {t});
    assert {t} - {t} == {};
  }

  lemma LockPlaced(s: Sched, m: nat)
    requires Placed(s, {}) && s.curr == Next(s) && s.curr != IDLE && m in s.mutexes && MutexList(m) in s.queues
    ensures Placed(Locked(s, m), {}) && Locked(s, m).curr == Next(Locked(s, m))
  {
    assert Shape(s);
    hide Placed, On, Listed, Shape;
    var x := s.mutexes[m];
    if x.count == 0 {
      ValuesPlaced(s, s.mutexes[m := Mutex(1, s.curr)], s.sems, {});
    } else if x.owner == s.curr {
      ValuesPlaced(s, s.mutexes[m := x.(count := x.count + 1)], s.sems, {});
    } else {
      JoinPlaced(s, MutexList(m));
    }
  }

  lemma UnlockPlaced(s: Sched, m: nat)
    requires Placed(s, {}) && s.curr == Next(s) && m in s.mutexes && MutexList(m) in s.queues
    ensures Placed(Unlocked(s, m), {}) && Unlocked(s, m).curr == Next(Unlocked(s, m))
  {
    assert Shape(s);
    hide Placed, On, Listed;
    var x, w := s.mutexes[m], s.queues[MutexList(m)];
    ValuesPlaced(s, s.mutexes[m := x.(count := x.count - 1)], s.sems, {});
    ValuesPlaced(s, s.mutexes[m := Mutex(0, NONE)], s.sems, {});
    if w != [] {
      LeavePlaced(s, MutexList(m));
      var a := SetReady(Dequeue(s, MutexList(m)), w[0]);
      ValuesPlaced(a, s.mutexes[m := Mutex(1, w[0])], a.sems, {});
      DispatchPlaced(a.(mutexes := s.mutexes[m := Mutex(1, w[0])]), {});
    }
  }

  lemma SemWaitPlaced(s: Sched, k: nat)
    requires Placed(s, {}) && s.curr == Next(s) && s.curr != IDLE && k in s.sems && SemList(k) in s.queues
    ensures Placed(SemWaited(s, k), {}) && SemWaited(s, k).curr == Next(SemWaited(s, k))
  {
    assert Shape(s);
    hide Placed, On, Listed, Shape;
    if s.sems[k] > 0 {
      ValuesPlaced(s, s.mutexes, s.sems[k := s.sems[k] - 1], {});
    } else {
      JoinPlaced(s, SemList(k));
    }
  }

  lemma SemNotifyPlaced(s: Sched, k: nat)
    requires Placed(s, {}) && s.curr == Next(s) && k in s.sems && SemList(k) in s.queues
    ensures Placed(SemNotified(s, k), {}) && SemNotified(s, k).curr == Next(SemNotified(s, k))
  {
    assert Shape(s);
    hide Placed, On, Listed, Shape;
    var w := s.queues[SemList(k)];
    if w != [] {
      LeavePlaced(s, SemList(k));
      DispatchPlaced(SetReady(Dequeue(s, SemList(k)), w[0]), {});
    } else {
      ValuesPlaced(s, s.mutexes, s.sems[k := s.sems[k] + 1], {});
    }
  }

  lemma PcPlaced(s: Sched, pc: Pc)
    requires Placed(s, {})
    ensures Placed(SetPc(s, s.curr, pc), {}) && Next(SetPc(s, s.curr, pc)) == Next(s)
  {
    EditPlaced(s, s.curr, s.tasks[s.curr].(pc := pc), {});
  }

  lemma ForkPlaced(s: Sched, c: Tid)
    requires Placed(s, {}) && s.curr == Next(s) && s.curr != IDLE && SLOT0 <= c < |s.tasks| && !s.tasks[c].used
    ensures Placed(Forked(s, c), {}) && Forked(s, c).curr == Next(Forked(s, c))
  {
    var x := Task(true, Created, 0, TIME_SLICE, s.curr, c, 0, User, false);
    CurrentIsReady(s);
    assert !Listed(s, c);
    assert forall q {:trigger On(s, q, c)} :: !On(s, q, c);
    AlsoOut(s, c, {});
    EditPlaced(s, c, x, {} + {c});
    ReadyPlaced(SetTask(s, c, x), c, {} + {c});
    assert {} + {c} - {c} == {};
  }

  lemma LookPlaced(s: Sched)
    requires Inv(s) && s.curr != IDLE && s.tasks[s.curr].pc.WaitScan?
    ensures Placed(WaitLooked(s), {}) && WaitLooked(s).curr == Next(WaitLooked(s))
  {
    var i := s.tasks[s.curr].pc.i;
    PcPlaced(s, WaitBlock);
    PcPlaced(s, WaitScan(i + 1));
    if i >= |s.tasks| {
      UnlockPlaced(SetPc(s, s.curr, WaitBlock), TABLE);
    } else {
      PcPlaced(s, WaitReap(i, s.tasks[i].pid, s.tasks[i].status));
    }
  }

  lemma ClearPlaced(s: Sched)
    requires Inv(s) && s.curr != IDLE && s.tasks[s.curr].pc.WaitReap? && s.tasks[s.curr].pc.i < |s.tasks|
    requires s.tasks[s.tasks[s.curr].pc.i].state == Zombie
    ensures Placed(WaitCleared(s), {}) && WaitCleared(s).curr == Next(WaitCleared(s))
  {
    var a, i := SetPc(s, s.curr, WaitDone), s.tasks[s.curr].pc.i;
    PcPlaced(s, WaitDone);
    CurrentIsReady(s);
    assert !Listed(a, i);
    EditPlaced(a, i, FREE, {});
  }

  lemma ExitLookPlaced(s: Sched)
    requires Inv(s) && s.curr != IDLE && s.tasks[s.curr].pc.ExitScan?
    ensures Placed(ExitLooked(s), {}) && ExitLooked(s).curr == Next(ExitLooked(s))
  {
    var pc := s.tasks[s.curr].pc;
    if pc.i >= |s.tasks| {
      PcPlaced(s, ExitEnd(pc.moved, pc.code));
      UnlockPlaced(SetPc(s, s.curr, ExitEnd(pc.moved, pc.code)), TABLE);
    } else if s.tasks[pc.i].parent == s.curr {
      var a := SetTask(s, pc.i, s.tasks[pc.i].(parent := FIRST));
      EditPlaced(s, pc.i, s.tasks[pc.i].(parent := FIRST), {});
      PcPlaced(a, ExitTest(pc.i, pc.moved, pc.code));
    } else {
      PcPlaced(s, ExitScan(pc.i + 1, pc.moved, pc.code));
    }
  }

  // Off the ready list for good or until a child exits.
  lemma SettledPlaced(s: Sched, x: Task)
    requires Placed(s, {}) && s.queues[ReadyList] != [] && s.queues[ReadyList][0] == s.curr && s.curr != IDLE
    requires x.state == Waiting || x.state == Zombie
    requires x.used && x.slice == s.tasks[s.curr].slice && x.parent == s.tasks[s.curr].parent
    ensures Placed(SetTask(SetBlock(s, s.curr), s.curr, x), {})
  {
    assert On(s, ReadyList, s.curr);
    BlockPlaced(s, s.curr);
    EditPlaced(SetBlock(s, s.curr), s.curr, x, {s.curr});
    SettlePlaced(SetTask(SetBlock(s, s.curr), s.curr, x), s.curr);
  }

  lemma SuspendPlaced(s: Sched)
    requires Placed(s, {}) && s.curr == Next(s) && s.curr != IDLE
    ensures Placed(WaitBlocked(s), {})
  {
    CurrentIsReady(s);
    var x := s.tasks[s.curr].(state := Waiting, pc := WaitAgain);
    SettledPlaced(s, x);
    DispatchPlaced(SetTask(SetBlock(s, s.curr), s.curr, x), {});
  }

  // Waking a waiting parent: it was on no list, so it is on the ready list once.
  lemma WokenPlaced(s: Sched, t: Tid)
    requires Placed(s, {}) && t < |s.tasks| && (s.tasks[t].state == Waiting ==> t != IDLE && s.tasks[t].used)
    ensures Placed(Woken(s, t), {}) && Woken(s, t).curr == s.curr
    ensures s.queues[ReadyList] <= Woken(s, t).queues[ReadyList]
    ensures forall u: nat {:trigger Woken(s, t).tasks[u]} :: u < |s.tasks| ==>
      Woken(s, t).tasks[u] == if u == t && s.tasks[u].state == Waiting then s.tasks[u].(state := Ready) else s.tasks[u]
  {
    if s.tasks[t].state == Waiting {
      ReadyPlaced(s, t, {});
      assert {} - {t} == {};
    }
  }

  lemma ParentsPlaced(s: Sched, moved: bool)
    requires Inv(s) && s.curr != IDLE
    ensures var b := ParentsWoken(s, moved);
      && Placed(b, {}) && b.curr == s.curr && b.tasks[s.curr] == s.tasks[s.curr]
      && b.queues[ReadyList] != [] && b.queues[ReadyList][0] == s.curr
  {
    var p := s.tasks[s.curr].parent;
    CurrentIsReady(s);
    assert TaskOk(FIRST, s.tasks[FIRST]) && TaskOk(p, s.tasks[p]);
    assert Shape(s) && Listed(s, s.curr);
    hide Placed, Woken, On, TasksOk, Keys;
    if moved && p != FIRST { WokenPlaced(s, FIRST); }
    WokenPlaced(if moved && p != FIRST then Woken(s, FIRST) else s, p);
  }

  lemma FinishPlaced(s: Sched)
    requires Inv(s) && s.curr != IDLE && s.tasks[s.curr].pc.ExitEnd?
    ensures Placed(ExitEnded(s), {}) && ExitEnded(s).curr == Next(ExitEnded(s))
  {
    var me, pc, b := s.tasks[s.curr], s.tasks[s.curr].pc, ParentsWoken(s, s.tasks[s.curr].pc.moved);
    CurrentIsReady(s);
    ParentsPlaced(s, pc.moved);
    assert Shape(s) && Listed(s, s.curr);
    var x := me.(status := pc.code, state := Zombie);
    hide Placed, ParentsWoken, On, TasksOk, Keys, SetBlock, Shape;
    SettledPlaced(b, x);
    BlockThenDie(b, s.curr, x);
    DispatchPlaced(SetTask(SetBlock(b, s.curr), s.curr, x), {});
  }

  lemma BlockThenDie(s: Sched, t: Tid, x: Task)
    requires Shape(s) && t < |s.tasks| && x.parent < |s.tasks|
    ensures SetBlock(SetTask(s, t, x), t) == SetTask(SetBlock(s, t), t, x)
  {
  }

  lemma StepPlaced(s: Sched, e: Event)
    requires Inv(s) && Can(s, e)
    ensures Placed(Step(s, e), {}) && Step(s, e).curr == Next(Step(s, e))
  {
    hide Placed, Keys, TasksOk, Shape, Ticked, Rested, Yielded, Slept, Locked, Unlocked, SemWaited, SemNotified,
         Forked, WaitLooked, ExitLooked, ExitEnded, WaitCleared;
    InvFacts(s);
    var t := s.curr;
    match e
    case Tick => TickPlaced(s);
    case Rest => RestPlaced(s);
    case Yield => YieldPlaced(s);
    case SleepFor(ms) => SleepPlaced(s, ms);
    case Lock(m) => LockPlaced(s, m);
    case Unlock(m) => UnlockPlaced(s, m);
    case SemWait(k) => SemWaitPlaced(s, k);
    case SemNotify(k) => SemNotifyPlaced(s, k);
    case Fork(c) => ForkPlaced(s, c);
    case WaitBegin => PcPlaced(s, WaitScan(SLOT0)); LockPlaced(SetPc(s, t, WaitScan(SLOT0)), TABLE);
    case WaitLook => LookPlaced(s);
    case WaitClear => ClearPlaced(s);
    case WaitReturn => PcPlaced(s, User); UnlockPlaced(SetPc(s, t, User), TABLE);
    case WaitSuspend => SuspendPlaced(s);
    case ExitBegin(code) =>
      PcPlaced(s, ExitScan(SLOT0, false, code));
      LockPlaced(SetPc(s, t, ExitScan(SLOT0, false, code)), TABLE);
    case ExitLook => ExitLookPlaced(s);
    case ExitCheck => PcPlaced(s, Step(s, e).tasks[t].pc);
    case ExitFinish => FinishPlaced(s);
  }

  lemma InvFacts(s: Sched)
    requires Inv(s)
    ensures Shape(s) && TABLE in s.mutexes && MutexList(TABLE) in s.queues
    ensures s.curr < |s.tasks| && s.tasks[s.curr].used && s.tasks[s.curr].parent < |s.tasks| && Placed(s, {})
      && s.curr == Next(s)
    ensures forall m {:trigger s.mutexes[m]} {:trigger MutexList(m)} :: m in s.mutexes ==> MutexList(m) in s.queues
    ensures forall k {:trigger s.sems[k]} {:trigger SemList(k)} :: k in s.sems ==> SemList(k) in s.queues
  {
    if s.curr != IDLE { CurrentIsReady(s); }
  }

  // ------------------------------------------------------------ the rest of the invariant

  lemma StepKeys(s: Sched, e: Event)
    requires Inv(s) && Can(s, e)
    ensures Keys(Step(s, e))
  {
    InvFacts(s);
    var r := Step(s, e);
    hide Placed, TasksOk, Shape, Step;
    assert KeysKept(s, r);
  }

  lemma TaskReset(s: Sched, t: Tid, x: Task)
    requires Shape(s) && TasksOk(s.tasks) && t < |s.tasks| && x.parent < |s.tasks| && TaskOk(t, x)
    ensures TasksOk(SetTask(s, t, x).tasks)
  {
    hide TaskOk;
  }

  lemma ReadyOk(s: Sched, t: Tid)
    requires Shape(s) && TasksOk(s.tasks) && t < |s.tasks|
    ensures TasksOk(SetReady(s, t).tasks) && TasksOk(SetBlock(s, t).tasks) && TasksOk(Woken(s, t).tasks)
  {
    assert TaskOk(t, s.tasks[t].(state := Ready));
    hide TaskOk, Shape;
  }

  lemma DispatchOk(s: Sched)
    requires Shape(s) && TasksOk(s.tasks)
    ensures TasksOk(Dispatch(s).tasks)
  {
    assert TaskOk(Next(s), s.tasks[Next(s)].(state := Running));
    hide TaskOk, Shape;
  }

  // The current task queues up; the head of a queue gets ready.
  lemma JoinOk(s: Sched, q: Queue)
    requires Shape(s) && TasksOk(s.tasks) && q in s.queues
    ensures TasksOk(Dispatch(Enqueue(SetBlock(s, s.curr), q, s.curr)).tasks)
  {
    ReadyOk(s, s.curr);
    hide TasksOk;
    DispatchOk(Enqueue(SetBlock(s, s.curr), q, s.curr));
  }

  lemma LeaveOk(s: Sched, q: Queue)
    requires Shape(s) && TasksOk(s.tasks) && q in s.queues && s.queues[q] != []
    ensures s.queues[q][0] < |s.tasks| && TasksOk(SetReady(Dequeue(s, q), s.queues[q][0]).tasks)
  {
    ReadyOk(Dequeue(s, q), s.queues[q][0]);
  }

  lemma LockOk(s: Sched, m: nat)
    requires Shape(s) && TasksOk(s.tasks) && m in s.mutexes && MutexList(m) in s.queues
    ensures TasksOk(Locked(s, m).tasks)
  {
    hide TasksOk, Shape, SetBlock, Dispatch;
    JoinOk(s, MutexList(m));
  }

  lemma UnlockOk(s: Sched, m: nat)
    requires Shape(s) && TasksOk(s.tasks) && m in s.mutexes && MutexList(m) in s.queues
    ensures TasksOk(Unlocked(s, m).tasks)
  {
    var w := s.queues[MutexList(m)];
    hide TasksOk, Shape, SetReady, Dispatch, Dequeue;
    if w != [] {
      LeaveOk(s, MutexList(m));
      DispatchOk(SetReady(Dequeue(s, MutexList(m)), w[0]).(mutexes := s.mutexes[m := Mutex(1, w[0])]));
    }
  }

  lemma SemsOk(s: Sched, k: nat)
    requires Shape(s) && TasksOk(s.tasks) && k in s.sems && SemList(k) in s.queues
    ensures TasksOk(SemWaited(s, k).tasks) && TasksOk(SemNotified(s, k).tasks)
  {
    var w := s.queues[SemList(k)];
    hide TasksOk, Shape, SetReady, SetBlock, Dispatch, Dequeue;
    JoinOk(s, SemList(k));
    if w != [] {
      LeaveOk(s, SemList(k));
      DispatchOk(SetReady(Dequeue(s, SemList(k)), w[0]));
    }
  }

  lemma PassOk(s: Sched)
    requires Placed(s, {}) && TasksOk(s.tasks)
    ensures TasksOk(Dispatch(Pass(s)).tasks)
  {
    forall t: nat | t < |s.tasks| ensures TaskOk(t, Pass(s).tasks[t]) {
      assert TaskOk(t, s.tasks[t]);
    }
    DispatchOk(Pass(s));
  }

  // A task goes to the end of the ready list after a change of its fields.
  lemma RotateOk(s: Sched)
    requires Shape(s) && TasksOk(s.tasks)
    ensures TasksOk(Dispatch(SetReady(SetBlock(s, s.curr), s.curr)).tasks)
  {
    hide TaskOk, TasksOk;
    ReadyOk(s, s.curr);
    ReadyOk(SetBlock(s, s.curr), s.curr);
    DispatchOk(SetReady(SetBlock(s, s.curr), s.curr));
  }

  lemma SliceOk(s: Sched)
    requires Shape(s) && TasksOk(s.tasks)
    ensures TasksOk(SliceTick(s).tasks)
  {
    var t := s.tasks[s.curr];
    assert TaskOk(s.curr, s.tasks[s.curr]);
    TaskReset(s, s.curr, t.(slice := t.slice - 1));
    TaskReset(s, s.curr, t.(slice := TIME_SLICE));
    hide TasksOk;
    RotateOk(SetTask(s, s.curr, t.(slice := TIME_SLICE)));
  }

  lemma TickOk(s: Sched)
    requires Placed(s, {}) && s.curr == Next(s) && s.tasks[s.curr].used && TasksOk(s.tasks)
    ensures TasksOk(Ticked(s).tasks)
  {
    var a := SliceTick(s);
    SliceTickPlaced(s);
    SliceOk(s);
    assert Shape(s) && TaskOk(s.curr, a.tasks[s.curr]) && a.tasks[s.curr].parent < |a.tasks|;
    hide TasksOk, Placed, SliceTick, Pass, Shape, Dispatch;
    if a.curr == s.curr {
      PassOk(a);
    } else {
      TaskReset(a, s.curr, a.tasks[s.curr].(inTick := true));
    }
  }

  lemma SleepOk(s: Sched, ms: nat)
    requires Shape(s) && TasksOk(s.tasks) && s.curr != IDLE
    ensures TasksOk(Slept(s, ms).tasks)
  {
    var n := SleepTicks(ms);
    var a, x := SetBlock(s, s.curr), s.tasks[s.curr].(sleepTicks := n, state := Sleep);
    ReadyOk(s, s.curr);
    assert TaskOk(s.curr, s.tasks[s.curr]);
    TaskReset(a, s.curr, x);
    DispatchOk(SetSleep(a, s.curr, n));
  }

  lemma WaitScanOk(s: Sched)
    requires Shape(s) && TableThere(s) && TasksOk(s.tasks) && s.curr != IDLE && s.tasks[s.curr].pc.WaitScan?
    ensures TasksOk(WaitLooked(s).tasks)
  {
    var t, me := s.curr, s.tasks[s.curr];
    assert TaskOk(t, me);
    if me.pc.i >= |s.tasks| {
      hide Unlocked;
      UnlockOk(SetPc(s, t, WaitBlock), TABLE);
    }
  }

  lemma ClearOk(s: Sched)
    requires Shape(s) && TasksOk(s.tasks) && s.curr != IDLE && s.tasks[s.curr].pc.WaitReap?
      && s.tasks[s.curr].pc.i < |s.tasks|
    ensures TasksOk(WaitCleared(s).tasks)
  {
    assert TaskOk(s.curr, s.tasks[s.curr]);
  }

  lemma ExitScanOk(s: Sched)
    requires Shape(s) && TableThere(s) && TasksOk(s.tasks) && s.curr != IDLE && s.tasks[s.curr].pc.ExitScan?
    ensures TasksOk(ExitLooked(s).tasks)
  {
    var t, me := s.curr, s.tasks[s.curr];
    assert TaskOk(t, me);
    if me.pc.i >= |s.tasks| {
      hide Unlocked;
      UnlockOk(SetPc(s, t, ExitEnd(me.pc.moved, me.pc.code)), TABLE);
    }
  }

  lemma EndsOk(s: Sched)
    requires Shape(s) && TasksOk(s.tasks) && s.curr != IDLE && s.tasks[s.curr].used
    ensures TasksOk(WaitBlocked(s).tasks)
    ensures s.tasks[s.curr].pc.ExitEnd? ==> TasksOk(ExitEnded(s).tasks)
  {
    var t, me := s.curr, s.tasks[s.curr];
    assert TaskOk(t, me);
    assert Shape(s) && me.parent < |s.tasks|;
    ReadyOk(s, t);
    TaskReset(SetBlock(s, t), t, me.(state := Waiting, pc := WaitAgain));
    DispatchOk(SetTask(SetBlock(s, t), t, me.(state := Waiting, pc := WaitAgain)));
    if me.pc.ExitEnd? { DyingOk(s, t); }
  }

  lemma WokenOk(s: Sched, t: Tid, u: Tid)
    requires Shape(s) && TasksOk(s.tasks) && t < |s.tasks| && u < |s.tasks|
    ensures TasksOk(Woken(s, t).tasks) && Woken(s, t).curr == s.curr
    ensures var x, y := s.tasks[u], Woken(s, t).tasks[u]; y.used == x.used && y.pc == x.pc && y.parent == x.parent
  {
    ReadyOk(s, t);
    hide TasksOk, TaskOk, Shape;
  }

  lemma ParentsOk(s: Sched, moved: bool)
    requires Shape(s) && TasksOk(s.tasks)
    ensures TasksOk(ParentsWoken(s, moved).tasks) && ParentsWoken(s, moved).tasks[s.curr].used == s.tasks[s.curr].used
    ensures ParentsWoken(s, moved).tasks[s.curr].pc == s.tasks[s.curr].pc
  {
    var p := s.tasks[s.curr].parent;
    assert p < |s.tasks| && s.curr < |s.tasks|;
    hide TasksOk, TaskOk, Woken;
    WokenOk(s, FIRST, s.curr);
    WokenOk(if moved && p != FIRST then Woken(s, FIRST) else s, p, s.curr);
  }

  lemma DyingOk(s: Sched, t: Tid)
    requires Shape(s) && TasksOk(s.tasks) && s.curr == t && t != IDLE && s.tasks[t].used && s.tasks[t].pc.ExitEnd?
    ensures TasksOk(ExitEnded(s).tasks)
  {
    var pc := s.tasks[t].pc;
    var b := ParentsWoken(s, pc.moved);
    ParentsOk(s, pc.moved);
    var x := b.tasks[t].(status := pc.code, state := Zombie);
    assert TaskOk(t, b.tasks[t]) && b.tasks[t].parent < |b.tasks|;
    TaskReset(b, t, x);
    hide TasksOk, TaskOk, Shape, ParentsWoken;
    DispatchOk(SetBlock(SetTask(b, t, x), t));
  }

  lemma PcOk(s: Sched, pc: Pc)
    requires Shape(s) && TasksOk(s.tasks) && TaskOk(s.curr, s.tasks[s.curr].(pc := pc))
    ensures TasksOk(SetPc(s, s.curr, pc).tasks)
  {
    TaskReset(s, s.curr, s.tasks[s.curr].(pc := pc));
  }

  lemma RestOk(s: Sched)
    requires Placed(s, {}) && TasksOk(s.tasks)
    ensures TasksOk(Rested(s).tasks)
  {
    var x := s.tasks[s.curr].(inTick := false);
    assert TaskOk(s.curr, s.tasks[s.curr]);
    EditPlaced(s, s.curr, x, {});
    TaskReset(s, s.curr, x);
    hide TasksOk, Placed, Pass;
    PassOk(SetTask(s, s.curr, x));
  }

  lemma ForkOk(s: Sched, c: Tid)
    requires Shape(s) && TasksOk(s.tasks) && SLOT0 <= c < |s.tasks|
    ensures TasksOk(Forked(s, c).tasks)
  {
    var x := Task(true, Created, 0, TIME_SLICE, s.curr, c, 0, User, false);
    TaskReset(s, c, x);
    ReadyOk(SetTask(s, c, x), c);
  }

  lemma StepTasksOk(s: Sched, e: Event)
    requires Inv(s) && Can(s, e)
    ensures TasksOk(Step(s, e).tasks)
  {
    InvFacts(s);
    var t := s.curr;
    assert TaskOk(t, s.tasks[t]);
    hide Ticked, Rested, Yielded, Slept, Locked, Unlocked, SemWaited, SemNotified, Forked, WaitLooked, ExitLooked,
         ExitEnded, WaitBlocked, Shape, TasksOk, Placed, Keys, SetPc;
    match e
    case Tick => TickOk(s);
    case Rest => RestOk(s);
    case Yield => RotateOk(s); YieldTasks(s);
    case SleepFor(ms) => SleepOk(s, ms);
    case Lock(m) => LockOk(s, m);
    case Unlock(m) => UnlockOk(s, m);
    case SemWait(k) => SemsOk(s, k);
    case SemNotify(k) => SemsOk(s, k);
    case Fork(c) => ForkOk(s, c);
    case WaitBegin => PcOk(s, WaitScan(SLOT0)); LockOk(SetPc(s, t, WaitScan(SLOT0)), TABLE);
    case WaitLook => WaitScanOk(s);
    case WaitClear => ClearOk(s);
    case WaitReturn => PcOk(s, User); UnlockOk(SetPc(s, t, User), TABLE);
    case WaitSuspend => EndsOk(s);
    case ExitBegin(code) =>
      PcOk(s, ExitScan(SLOT0, false, code));
      LockOk(SetPc(s, t, ExitScan(SLOT0, false, code)), TABLE);
    case ExitLook => ExitScanOk(s);
    case ExitCheck => PcOk(s, Step(s, e).tasks[t].pc);
    case ExitFinish => EndsOk(s);
  }

  lemma YieldTasks(s: Sched)
    requires Shape(s)
    ensures Yielded(s) == s || Yielded(s) == Dispatch(SetReady(SetBlock(s, s.curr), s.curr))
  {
  }

  lemma StepKeepsInv(s: Sched, e: Event)
    requires Inv(s) && Can(s, e)
    ensures Inv(Step(s, e))
  {
    StepPlaced(s, e);
    StepKeys(s, e);
    StepTasksOk(s, e);
  }
}

/** Parents and children: what fork, wait and exit do to the process table, seen
    without the scheduling, and the life of every table entry over whole runs. */
module ProcessTree {
  import opened Tasks
  import opened Placement
  import opened Scheduler
  import opened SchedulerRuns

  datatype Node = Node(used: bool, pid: Tid, parent: Tid, dead: bool, status: int, pc: Pc)

  ghost function NodeOf(x: Task): Node {
    Node(x.used, x.pid, x.parent, x.state == Zombie, x.status, x.pc)
  }

  ghost function View(ts: seq<Task>): (v: seq<Node>)
    ensures |v| == |ts| && forall i {:trigger v[i]} :: 0 <= i < |v| ==> v[i] == NodeOf(ts[i])
  {
    seq(|ts|, i requires 0 <= i < |ts| => NodeOf(ts[i]))
  }

  const NOBODY: Node := Node(false, 0, NONE, false, 0, User)

  ghost function At(v: seq<Node>, t: Tid, pc: Pc): seq<Node>
    requires t < |v|
  {
    v[t := v[t].(pc := pc)]
  }

  // The step of task c on the process table alone.
  ghost function TreeStep(v: seq<Node>, e: Event, c: Tid): (r: seq<Node>)
    requires c < |v|
    ensures |r| == |v|
  {
    var pc := v[c].pc;
    match e
    case Fork(n) => if n < |v| then v[n := Node(true, n, c, false, 0, User)] else v
    case WaitBegin => At(v, c, WaitScan(SLOT0))
    case WaitLook =>
      if !pc.WaitScan? then v
      else if pc.i >= |v| then At(v, c, WaitBlock)
      else if v[pc.i].parent == c && v[pc.i].dead then At(v, c, WaitReap(pc.i, v[pc.i].pid, v[pc.i].status))
      else At(v, c, WaitScan(pc.i + 1))
    case WaitClear => if pc.WaitReap? && pc.i < |v| then At(v, c, WaitDone)[pc.i := NOBODY] else v
    case WaitReturn => At(v, c, User)
    case WaitSuspend => At(v, c, WaitAgain)
    case ExitBegin(code) => At(v, c, ExitScan(SLOT0, false, code))
    case ExitLook =>
      if !pc.ExitScan? then v
      else if pc.i >= |v| then At(v, c, ExitEnd(pc.moved, pc.code))
      else if v[pc.i].parent == c then
        At(v[pc.i := v[pc.i].(parent := FIRST)], c, ExitTest(pc.i, pc.moved, pc.code))
      else At(v, c, ExitScan(pc.i + 1, pc.moved, pc.code))
    case ExitCheck =>
      if pc.ExitTest? then At(v, c, ExitScan(pc.i + 1, pc.moved || (pc.i < |v| && v[pc.i].dead), pc.code)) else v
    case ExitFinish => if pc.ExitEnd? then v[c := v[c].(dead := true, status := pc.code)] else v
    case _ => v
  }

  // ------------------------------------------------------------ the kernel takes these steps

  ghost predicate Alive(s: Sched) {
    && 0 < |s.tasks| && s.tasks[IDLE].state != Zombie && ReadyList in s.queues
    && forall t: Tid {:trigger t in s.queues[ReadyList]} :: t in s.queues[ReadyList] ==>
         t < |s.tasks| && s.tasks[t].state != Zombie
  }

  lemma NobodyDeadReady(s: Sched)
    requires Inv(s)
    ensures Alive(s)
  {
    assert TaskOk(IDLE, s.tasks[IDLE]);
    forall t: Tid | t in s.queues[ReadyList] ensures t < |s.tasks| && s.tasks[t].state != Zombie {
      assert On(s, ReadyList, t);
    }
  }

  lemma EditView(s: Sched, t: Tid, x: Task)
    requires Shape(s) && t < |s.tasks| && x.parent < |s.tasks|
    ensures View(SetTask(s, t, x).tasks) == View(s.tasks)[t := NodeOf(x)]
    ensures NodeOf(x) == NodeOf(s.tasks[t]) ==> View(SetTask(s, t, x).tasks) == View(s.tasks)
  {
  }

  lemma DispatchView(s: Sched)
    requires Shape(s) && Alive(s)
    ensures View(Dispatch(s).tasks) == View(s.tasks) && Alive(Dispatch(s))
  {
    if Next(s) != IDLE { assert Next(s) in s.queues[ReadyList]; }
    EditView(s, Next(s), s.tasks[Next(s)].(state := Running));
    hide Shape;
  }

  lemma BlockView(s: Sched)
    requires Shape(s) && Alive(s)
    ensures Alive(SetBlock(s, s.curr)) && SetBlock(s, s.curr).tasks == s.tasks
  {
  }

  lemma ReadyView(s: Sched, t: Tid)
    requires Shape(s) && Alive(s) && t < |s.tasks| && s.tasks[t].state != Zombie
    ensures View(SetReady(s, t).tasks) == View(s.tasks) && Alive(SetReady(s, t))
  {
    EditView(s, t, s.tasks[t].(state := Ready));
    hide Shape;
  }

  lemma EditAlive(s: Sched, t: Tid, x: Task)
    requires Shape(s) && Alive(s) && t < |s.tasks| && x.parent < |s.tasks|
    requires x.state != Zombie || (t != IDLE && t !in s.queues[ReadyList])
    ensures Alive(SetTask(s, t, x))
  {
  }

  lemma RotateView(s: Sched)
    requires Shape(s) && Alive(s) && s.tasks[s.curr].state != Zombie
    ensures View(Dispatch(SetReady(SetBlock(s, s.curr), s.curr)).tasks) == View(s.tasks)
    ensures Alive(Dispatch(SetReady(SetBlock(s, s.curr), s.curr)))
  {
    var a := SetBlock(s, s.curr);
    BlockView(s);
    assert s.curr < |s.tasks|;
    hide Shape, SetBlock, Alive, SetReady, Dispatch;
    ReadyView(a, s.curr);
    DispatchView(SetReady(a, s.curr));
  }

  lemma CurrentAlive(s: Sched)
    requires Shape(s) && Alive(s) && s.curr == Next(s)
    ensures s.tasks[s.curr].state != Zombie
  {
    if s.curr != IDLE { assert s.curr in s.queues[ReadyList]; }
  }

  lemma SliceView(s: Sched)
    requires Shape(s) && Alive(s) && s.tasks[s.curr].state != Zombie
    ensures View(SliceTick(s).tasks) == View(s.tasks) && Alive(SliceTick(s))
  {
    var t := s.tasks[s.curr];
    var x := t.(slice := if t.slice - 1 == 0 then TIME_SLICE else t.slice - 1);
    assert s.curr < |s.tasks| && t.parent < |s.tasks|;
    hide Shape, Alive, View;
    EditView(s, s.curr, x);
    EditAlive(s, s.curr, x);
    if t.slice - 1 == 0 { RotateView(SetTask(s, s.curr, x)); }
  }

  lemma PassView(s: Sched)
    requires Placed(s, {}) && Alive(s)
    ensures View(Dispatch(Pass(s)).tasks) == View(s.tasks)
  {
    var a := Pass(s);
    forall t: Tid | t in s.queues[SleepList] ensures t < |s.tasks| && s.tasks[t].state != Zombie {
      assert On(s, SleepList, t);
    }
    assert Alive(a);
    assert View(a.tasks) == View(s.tasks);
    DispatchView(a);
  }

  lemma TickView(s: Sched)
    requires Inv(s)
    ensures View(Ticked(s).tasks) == View(s.tasks)
  {
    var a := SliceTick(s);
    NobodyDeadReady(s);
    InvFacts(s);
    CurrentAlive(s);
    SliceView(s);
    SliceTickPlaced(s);
    hide Inv, Alive, SliceTick, Pass, Dispatch, Placed;
    if a.curr == s.curr { PassView(a); } else { EditView(a, s.curr, a.tasks[s.curr].(inTick := true)); }
  }

  lemma RestView(s: Sched)
    requires Inv(s)
    ensures View(Rested(s).tasks) == View(s.tasks)
  {
    var x := s.tasks[s.curr].(inTick := false);
    NobodyDeadReady(s);
    CurrentAlive(s);
    EditPlaced(s, s.curr, x, {});
    EditAlive(s, s.curr, x);
    EditView(s, s.curr, x);
    hide Inv, Alive, Pass, Dispatch, Placed;
    PassView(SetTask(s, s.curr, x));
  }

  lemma YieldView(s: Sched)
    requires Inv(s)
    ensures View(Yielded(s).tasks) == View(s.tasks)
  {
    NobodyDeadReady(s);
    CurrentAlive(s);
    RotateView(s);
    hide Inv, Alive, SetReady, SetBlock, Dispatch;
  }

  lemma SleepView(s: Sched, ms: nat)
    requires Inv(s) && s.curr != IDLE
    ensures View(Slept(s, ms).tasks) == View(s.tasks)
  {
    var a, x := SetBlock(s, s.curr), s.tasks[s.curr].(sleepTicks := SleepTicks(ms), state := Sleep);
    NobodyDeadReady(s);
    CurrentAlive(s);
    BlockView(s);
    EditView(a, s.curr, x);
    EditAlive(a, s.curr, x);
    hide Inv, Placed, SetBlock, Dispatch, Shape, SleepTicks;
    DispatchView(SetSleep(a, s.curr, SleepTicks(ms)));
  }

  lemma JoinView(s: Sched, q: Queue)
    requires Shape(s) && Alive(s) && q in s.queues && q != ReadyList
    ensures View(Dispatch(Enqueue(SetBlock(s, s.curr), q, s.curr)).tasks) == View(s.tasks)
  {
    BlockView(s);
    hide SetBlock, Dispatch;
    DispatchView(Enqueue(SetBlock(s, s.curr), q, s.curr));
  }

  lemma LeaveView(s: Sched, q: Queue, mutexes: map<nat, Mutex>)
    requires Placed(s, {}) && Alive(s) && q in s.queues && q != ReadyList && s.queues[q] != []
    ensures s.queues[q][0] < |s.tasks|
    ensures View(Dispatch(SetReady(Dequeue(s, q), s.queues[q][0]).(mutexes := mutexes)).tasks) == View(s.tasks)
  {
    var t, a := s.queues[q][0], Dequeue(s, q);
    assert On(s, q, t);
    assert Alive(a) && a.tasks[t].state != Zombie;
    hide Placed, Dispatch, SetReady, Dequeue, Shape;
    ReadyView(a, t);
    DispatchView(SetReady(a, t).(mutexes := mutexes));
  }

  lemma LockView(s: Sched, m: nat)
    requires Placed(s, {}) && Alive(s) && m in s.mutexes && MutexList(m) in s.queues
    ensures View(Locked(s, m).tasks) == View(s.tasks)
  {
    JoinView(s, MutexList(m));
    hide Placed, Dispatch, SetBlock, Enqueue, Shape, View;
  }

  lemma UnlockView(s: Sched, m: nat)
    requires Placed(s, {}) && Alive(s) && m in s.mutexes && MutexList(m) in s.queues
    ensures View(Unlocked(s, m).tasks) == View(s.tasks)
  {
    var w := s.queues[MutexList(m)];
    if w != [] { LeaveView(s, MutexList(m), s.mutexes[m := Mutex(1, w[0])]); }
    hide Placed, Dispatch, SetReady, Dequeue, Shape, View;
  }

  lemma SemView(s: Sched, k: nat)
    requires Placed(s, {}) && Alive(s) && k in s.sems && SemList(k) in s.queues
    ensures View(SemWaited(s, k).tasks) == View(s.tasks) && View(SemNotified(s, k).tasks) == View(s.tasks)
  {
    assert Shape(s);
    JoinView(s, SemList(k));
    if s.queues[SemList(k)] != [] { LeaveView(s, SemList(k), s.mutexes); }
    hide Placed, Dispatch, SetReady, Dequeue, SetBlock, Enqueue, Shape, View;
  }

  lemma ForkView(s: Sched, c: Tid)
    requires Inv(s) && SLOT0 <= c < |s.tasks|
    ensures View(Forked(s, c).tasks) == View(s.tasks)[c := Node(true, c, s.curr, false, 0, User)]
  {
    var x := Task(true, Created, 0, TIME_SLICE, s.curr, c, 0, User, false);
    NobodyDeadReady(s);
    EditView(s, c, x);
    EditAlive(s, c, x);
    hide Inv, Alive, SetReady;
    ReadyView(SetTask(s, c, x), c);
  }

  lemma PcView(s: Sched, pc: Pc)
    requires Inv(s)
    ensures View(SetPc(s, s.curr, pc).tasks) == At(View(s.tasks), s.curr, pc)
    ensures Alive(SetPc(s, s.curr, pc)) && Placed(SetPc(s, s.curr, pc), {})
  {
    NobodyDeadReady(s);
    CurrentAlive(s);
    PcPlaced(s, pc);
    EditView(s, s.curr, s.tasks[s.curr].(pc := pc));
    EditAlive(s, s.curr, s.tasks[s.curr].(pc := pc));
  }

  // A change of the program counter together with the table's mutex.
  lemma PcLockView(s: Sched, pc: Pc)
    requires Inv(s)
    ensures TableThere(s)
    ensures View(Locked(SetPc(s, s.curr, pc), TABLE).tasks) == At(View(s.tasks), s.curr, pc)
    ensures View(Unlocked(SetPc(s, s.curr, pc), TABLE).tasks) == At(View(s.tasks), s.curr, pc)
  {
    InvFacts(s);
    PcView(s, pc);
    hide Inv, Alive, Locked, Unlocked, View, Placed, Shape;
    LockView(SetPc(s, s.curr, pc), TABLE);
    UnlockView(SetPc(s, s.curr, pc), TABLE);
  }

  lemma WaitLookView(s: Sched)
    requires Inv(s) && s.tasks[s.curr].pc.WaitScan?
    ensures TableThere(s) && View(WaitLooked(s).tasks) == TreeStep(View(s.tasks), WaitLook, s.curr)
  {
    hide Inv, Unlocked, Alive, Placed, SetPc, At, TreeStep, View, Shape, KeysKept;
    InvFacts(s);
    var i := s.tasks[s.curr].pc.i;
    WaitLookTree(s.tasks, s.curr, View(s.tasks));
    if i >= |s.tasks| {
      PcLockView(s, WaitBlock);
    } else if s.tasks[i].parent == s.curr && s.tasks[i].state == Zombie {
      PcView(s, WaitReap(i, s.tasks[i].pid, s.tasks[i].status));
    } else {
      PcView(s, WaitScan(i + 1));
    }
  }

  lemma WaitLookTree(ts: seq<Task>, c: Tid, v: seq<Node>)
    requires c < |ts| && ts[c].pc.WaitScan? && v == View(ts)
    ensures ts[c].pc.i >= |ts| ==> TreeStep(v, WaitLook, c) == At(v, c, WaitBlock)
    ensures var i := ts[c].pc.i; i < |ts| && ts[i].parent == c && ts[i].state == Zombie ==>
      TreeStep(v, WaitLook, c) == At(v, c, WaitReap(i, ts[i].pid, ts[i].status))
    ensures var i := ts[c].pc.i; i < |ts| && !(ts[i].parent == c && ts[i].state == Zombie) ==>
      TreeStep(v, WaitLook, c) == At(v, c, WaitScan(i + 1))
  {
    hide At;
  }

  lemma ReapView(s: Sched, i: Tid)
    requires Inv(s) && i < |s.tasks|
    ensures |At(View(s.tasks), s.curr, WaitDone)| == |s.tasks| && i < |SetPc(s, s.curr, WaitDone).tasks|
    ensures View(SetTask(SetPc(s, s.curr, WaitDone), i, FREE).tasks) == At(View(s.tasks), s.curr, WaitDone)[i := NOBODY]
  {
    hide Inv, Alive, Placed, View;
    InvFacts(s);
    PcView(s, WaitDone);
    EditView(SetPc(s, s.curr, WaitDone), i, FREE);
  }

  lemma ClearView(s: Sched)
    requires Inv(s) && s.tasks[s.curr].pc.WaitReap? && s.tasks[s.curr].pc.i < |s.tasks|
    ensures View(WaitCleared(s).tasks) == TreeStep(View(s.tasks), WaitClear, s.curr)
  {
    ReapView(s, s.tasks[s.curr].pc.i);
    assert View(s.tasks)[s.curr].pc == s.tasks[s.curr].pc;
    hide Inv, View, At;
  }

  lemma CheckView(s: Sched)
    requires Inv(s) && s.tasks[s.curr].pc.ExitTest?
    ensures View(ExitTested(s).tasks) == TreeStep(View(s.tasks), ExitCheck, s.curr)
  {
    hide Inv, View, At, SetPc;
    InvFacts(s);
    var pc := s.tasks[s.curr].pc;
    var dead := pc.i < |s.tasks| && s.tasks[pc.i].state == Zombie;
    PcView(s, ExitScan(pc.i + 1, pc.moved || dead, pc.code));
    assert View(s.tasks)[s.curr].pc == pc && (pc.i < |s.tasks| ==> View(s.tasks)[pc.i].dead == dead);
  }

  lemma ReparentView(s: Sched, i: Tid, pc: Pc)
    requires Inv(s) && i < |s.tasks|
    ensures FIRST < |s.tasks|
    ensures View(SetPc(SetTask(s, i, s.tasks[i].(parent := FIRST)), s.curr, pc).tasks)
      == At(View(s.tasks)[i := View(s.tasks)[i].(parent := FIRST)], s.curr, pc)
  {
    var a := SetTask(s, i, s.tasks[i].(parent := FIRST));
    EditView(s, i, s.tasks[i].(parent := FIRST));
    EditView(a, s.curr, a.tasks[s.curr].(pc := pc));
    hide Inv, Shape;
  }

  lemma ExitLookTree(ts: seq<Task>, c: Tid, v: seq<Node>)
    requires c < |ts| && ts[c].pc.ExitScan? && v == View(ts)
    ensures ts[c].pc.i >= |ts| ==> TreeStep(v, ExitLook, c) == At(v, c, ExitEnd(ts[c].pc.moved, ts[c].pc.code))
    ensures var i := ts[c].pc.i; i < |ts| && ts[i].parent == c ==>
      TreeStep(v, ExitLook, c) == At(v[i := v[i].(parent := FIRST)], c, ExitTest(i, ts[c].pc.moved, ts[c].pc.code))
    ensures var i := ts[c].pc.i; i < |ts| && ts[i].parent != c ==>
      TreeStep(v, ExitLook, c) == At(v, c, ExitScan(i + 1, ts[c].pc.moved, ts[c].pc.code))
  {
    hide At;
  }

  lemma ExitLookView(s: Sched)
    requires Inv(s) && s.tasks[s.curr].pc.ExitScan?
    ensures TableThere(s) && View(ExitLooked(s).tasks) == TreeStep(View(s.tasks), ExitLook, s.curr)
  {
    var pc := s.tasks[s.curr].pc;
    InvFacts(s);
    ExitLookTree(s.tasks, s.curr, View(s.tasks));
    hide Unlocked, Alive, Placed, SetPc, At, TasksOk, Keys, TreeStep, View;
    if pc.i >= |s.tasks| {
      PcLockView(s, ExitEnd(pc.moved, pc.code));
    } else if s.tasks[pc.i].parent == s.curr {
      ReparentView(s, pc.i, ExitTest(pc.i, pc.moved, pc.code));
    } else {
      PcView(s, ExitScan(pc.i + 1, pc.moved, pc.code));
    }
  }

  lemma SuspendView(s: Sched)
    requires Inv(s) && s.curr != IDLE
    ensures View(WaitBlocked(s).tasks) == At(View(s.tasks), s.curr, WaitAgain)
  {
    var a, x := SetBlock(s, s.curr), s.tasks[s.curr].(state := Waiting, pc := WaitAgain);
    NobodyDeadReady(s);
    CurrentAlive(s);
    BlockView(s);
    EditView(a, s.curr, x);
    EditAlive(a, s.curr, x);
    hide Inv, Placed, SetBlock, Dispatch, Shape, Alive;
    DispatchView(SetTask(a, s.curr, x));
  }

  lemma WokenView(s: Sched, t: Tid)
    requires Shape(s) && Alive(s) && t < |s.tasks|
    ensures View(Woken(s, t).tasks) == View(s.tasks) && Alive(Woken(s, t))
  {
    hide Shape, Alive, SetReady;
    if s.tasks[t].state == Waiting { ReadyView(s, t); }
  }

  lemma ParentsView(s: Sched, moved: bool)
    requires Inv(s)
    ensures View(ParentsWoken(s, moved).tasks) == View(s.tasks) && Alive(ParentsWoken(s, moved))
  {
    var p := s.tasks[s.curr].parent;
    NobodyDeadReady(s);
    assert p < |s.tasks|;
    hide Woken, Inv, Alive, View;
    WokenView(s, FIRST);
    WokenView(if moved && p != FIRST then Woken(s, FIRST) else s, p);
  }

  lemma DeathTree(ts: seq<Task>, c: Tid, x: Task)
    requires c < |ts| && ts[c].pc.ExitEnd? && x == ts[c].(status := ts[c].pc.code, state := Zombie)
    ensures View(ts)[c := NodeOf(x)] == TreeStep(View(ts), ExitFinish, c)
  {
  }

  lemma FinishView(s: Sched)
    requires Inv(s) && s.curr != IDLE && s.tasks[s.curr].pc.ExitEnd?
    ensures View(ExitEnded(s).tasks) == TreeStep(View(s.tasks), ExitFinish, s.curr)
  {
    var pc := s.tasks[s.curr].pc;
    var b := ParentsWoken(s, pc.moved);
    InvFacts(s);
    ParentsPlaced(s, pc.moved);
    ParentsView(s, pc.moved);
    var x := b.tasks[s.curr].(status := pc.code, state := Zombie);
    assert s.tasks[s.curr].parent < |s.tasks|;
    DeathTree(s.tasks, s.curr, x);
    hide ParentsWoken, Inv, Placed, Alive, Shape, View, NodeOf, TreeStep, SetTask, SetBlock, Dispatch;
    DeathView(b, x);
  }

  lemma DeathView(b: Sched, x: Task)
    requires Placed(b, {}) && Alive(b) && b.curr != IDLE && x.parent < |b.tasks|
    requires b.queues[ReadyList] != [] && b.queues[ReadyList][0] == b.curr
    ensures View(Dispatch(SetBlock(SetTask(b, b.curr, x), b.curr)).tasks) == View(b.tasks)[b.curr := NodeOf(x)]
  {
    var c := SetBlock(b, b.curr);
    BlockView(b);
    WithoutFacts(b.queues[ReadyList], b.curr);
    EditView(c, b.curr, x);
    EditAlive(c, b.curr, x);
    BlockThenDie(b, b.curr, x);
    hide Placed, Alive, SetBlock, Dispatch, Shape;
    DispatchView(SetTask(c, b.curr, x));
  }

  // Every step of the kernel is a step of the process table, or none.
  lemma StepView(s: Sched, e: Event)
    requires Inv(s) && Can(s, e)
    ensures View(Step(s, e).tasks) == TreeStep(View(s.tasks), e, s.curr)
  {
    InvFacts(s);
    NobodyDeadReady(s);
    hide Ticked, Rested, Yielded, Slept, Locked, Unlocked, SemWaited, SemNotified, Forked, WaitLooked, ExitLooked,
         ExitEnded, WaitBlocked, WaitCleared, ExitTested, Shape, Placed, Keys, TasksOk, View, SetPc, At, Alive;
    match e
    case Tick => TickView(s);
    case Rest => RestView(s);
    case Yield => YieldView(s);
    case SleepFor(ms) => SleepView(s, ms);
    case Lock(m) => LockView(s, m);
    case Unlock(m) => UnlockView(s, m);
    case SemWait(k) => SemView(s, k);
    case SemNotify(k) => SemView(s, k);
    case Fork(c) => ForkView(s, c);
    case WaitBegin => PcLockView(s, WaitScan(SLOT0));
    case WaitLook => WaitLookView(s);
    case WaitClear => ClearView(s);
    case WaitReturn => PcLockView(s, User);
    case WaitSuspend => SuspendView(s);
    case ExitBegin(code) => PcLockView(s, ExitScan(SLOT0, false, code));
    case ExitLook => ExitLookView(s);
    case ExitCheck => CheckView(s);
    case ExitFinish => FinishView(s);
  }

  // ------------------------------------------------------------ what the table keeps

  // A used entry's parent is the first task or a living entry; the child that is
  // being reaped is dead, and what was noted of it is true; who scans on the way
  // out has no child among the entries passed.
  ghost predicate Reaping(v: seq<Node>, t: Tid, i: nat, pid: Tid, status: int) {
    SLOT0 <= i < |v| && v[i].dead && v[i].parent == t && v[i].pid == pid && v[i].status == status
  }

  ghost predicate NodeOk(v: seq<Node>, t: Tid)
    requires t < |v|
  {
    var x := v[t];
    && (if t < SLOT0 then x.parent == NONE && !x.dead else if !x.used then x == NOBODY
        else x.pid == t && (x.parent == FIRST || (SLOT0 <= x.parent < |v| && v[x.parent].used && !v[x.parent].dead)))
    && (x.dead ==> x.pc.ExitEnd?)
    && (x.pc.WaitScan? ==> SLOT0 <= x.pc.i)
    && (x.pc.WaitReap? ==> Reaping(v, t, x.pc.i, x.pc.pid, x.pc.status))
    && (x.pc.ExitScan? || x.pc.ExitTest? ==> SLOT0 <= x.pc.i && SLOT0 <= t)
    && (x.pc.ExitEnd? ==> SLOT0 <= t)
  }

  // Entries below this one are not children of t.
  ghost function Passed(v: seq<Node>, t: Tid): nat
    requires t < |v|
  {
    match v[t].pc
    case ExitScan(i, _, _) => i
    case ExitTest(i, _, _) => i + 1
    case ExitEnd(_, _) => |v|
    case _ => 0
  }

  ghost predicate Tree(v: seq<Node>) {
    && SLOT0 <= |v|
    && (forall t: Tid {:trigger v[t]} :: t < |v| ==> NodeOk(v, t))
    && (forall t: Tid, c: Tid {:trigger Passed(v, t), v[c]} :: t < |v| && SLOT0 <= c < |v| && c < Passed(v, t) ==>
          v[c].parent != t)
  }

  // The programs' side of a step: who acts is a living task, and what it does fits
  // where it is.
  ghost predicate TreeCan(v: seq<Node>, e: Event, c: Tid) {
    && IDLE != c < |v| && v[c].used && !v[c].dead
    && match e
       case Fork(n) => SLOT0 <= n < |v| && !v[n].used && v[c].pc.User?
       case WaitBegin => v[c].pc.User? || v[c].pc.WaitAgain?
       case WaitLook => v[c].pc.WaitScan?
       case WaitClear => v[c].pc.WaitReap?
       case WaitReturn => v[c].pc.WaitDone?
       case WaitSuspend => v[c].pc.WaitBlock?
       case ExitBegin(_) => c != FIRST && v[c].pc.User?
       case ExitLook => v[c].pc.ExitScan?
       case ExitCheck => v[c].pc.ExitTest?
       case ExitFinish => v[c].pc.ExitEnd?
       case _ => true
  }

  ghost function PassedBy(pc: Pc, n: nat): nat {
    match pc
    case ExitScan(i, _, _) => i
    case ExitTest(i, _, _) => i + 1
    case ExitEnd(_, _) => n
    case _ => 0
  }

  // Living task c goes on to pc, and has no child among the entries it has passed.
  lemma AtKeeps(v: seq<Node>, c: Tid, pc: Pc)
    requires Tree(v) && c < |v| && !v[c].dead && (SLOT0 <= c ==> v[c].used)
    requires pc.WaitScan? || pc.ExitScan? || pc.ExitTest? ==> SLOT0 <= pc.i
    requires pc.WaitReap? ==> Reaping(v, c, pc.i, pc.pid, pc.status)
    requires pc.ExitScan? || pc.ExitTest? || pc.ExitEnd? ==> SLOT0 <= c
    requires forall k: Tid {:trigger v[k]} :: SLOT0 <= k < |v| && k < PassedBy(pc, |v|) ==> v[k].parent != c
    ensures Tree(At(v, c, pc))
  {
    var r := At(v, c, pc);
    forall t: Tid | t < |r| ensures NodeOk(r, t) {
      assert NodeOk(v, t);
    }
    forall t: Tid, k: Tid | t < |r| && SLOT0 <= k < |r| && k < Passed(r, t) ensures r[k].parent != t {
      if t != c { assert k < Passed(v, t) && v[k].parent != t; } else { assert v[k].parent != c; }
    }
  }

  // Some other entry i changes.
  lemma EntryKeeps(v: seq<Node>, i: Tid, x: Node)
    requires Tree(v) && SLOT0 <= i < |v| && NodeOk(v[i := x], i)
    requires forall k: Tid {:trigger v[k]} :: k < |v| && v[k].parent == i ==> x.used && !x.dead
    requires forall t: Tid {:trigger Passed(v, t)} :: t < |v| && i < Passed(v, t) ==> x.parent != t
    requires PassedBy(x.pc, |v|) <= Passed(v, i)
    requires forall t: Tid {:trigger v[t].pc} :: t < |v| && t != i && v[t].pc.WaitReap? && v[t].pc.i == i ==>
      Reaping(v[i := x], t, i, v[t].pc.pid, v[t].pc.status)
    ensures Tree(v[i := x])
  {
    var r := v[i := x];
    forall t: Tid | t < |r| ensures NodeOk(r, t) {
      assert NodeOk(v, t) && v[t].parent == v[t].parent;
    }
    forall t: Tid, k: Tid | t < |r| && SLOT0 <= k < |r| && k < Passed(r, t) ensures r[k].parent != t {
      assert k < Passed(v, t) && v[k].parent != t;
    }
  }

  lemma TreeKept(v: seq<Node>, e: Event, c: Tid)
    requires Tree(v) && TreeCan(v, e, c)
    ensures Tree(TreeStep(v, e, c))
  {
    var pc := v[c].pc;
    assert NodeOk(v, c) && NodeOk(v, FIRST);
    match e
    case Fork(n) => assert NodeOk(v, n); ForkKeeps(v, n, c);
    case WaitBegin => AtKeeps(v, c, WaitScan(SLOT0));
    case WaitLook =>
      if pc.i >= |v| {
        AtKeeps(v, c, WaitBlock);
      } else if v[pc.i].parent == c && v[pc.i].dead {
        AtKeeps(v, c, WaitReap(pc.i, v[pc.i].pid, v[pc.i].status));
      } else {
        AtKeeps(v, c, WaitScan(pc.i + 1));
      }
    case WaitClear =>
      AtKeeps(v, c, WaitDone);
      ReapKeeps(At(v, c, WaitDone), pc.i, c);
    case WaitReturn => AtKeeps(v, c, User);
    case WaitSuspend => AtKeeps(v, c, WaitAgain);
    case ExitBegin(code) => AtKeeps(v, c, ExitScan(SLOT0, false, code));
    case ExitLook => ExitLookKeeps(v, c);
    case ExitCheck =>
      forall k: Tid | SLOT0 <= k < |v| && k < pc.i + 1 ensures v[k].parent != c {
        assert k < Passed(v, c);
      }
      AtKeeps(v, c, ExitScan(pc.i + 1, pc.moved || (pc.i < |v| && v[pc.i].dead), pc.code));
    case ExitFinish => DieKeeps(v, c);
    case _ =>
  }

  lemma ForkKeeps(v: seq<Node>, n: Tid, c: Tid)
    requires Tree(v) && TreeCan(v, Fork(n), c)
    ensures Tree(v[n := Node(true, n, c, false, 0, User)])
  {
    assert NodeOk(v, n) && NodeOk(v, c) && n != c;
    forall k: Tid | k < |v| ensures v[k].parent != n && !(v[k].pc.WaitReap? && v[k].pc.i == n) {
      assert NodeOk(v, k);
    }
    EntryKeeps(v, n, Node(true, n, c, false, 0, User));
  }

  lemma ReapKeeps(v: seq<Node>, i: Tid, c: Tid)
    requires Tree(v) && SLOT0 <= i < |v| && v[i].dead && v[i].parent == c < |v| && v[c].pc.WaitDone?
    ensures Tree(v[i := NOBODY])
  {
    forall k: Tid | k < |v| ensures v[k].parent != i && !(v[k].pc.WaitReap? && v[k].pc.i == i) {
      assert NodeOk(v, k);
    }
    forall t: Tid | t < |v| && i < Passed(v, t) ensures NOBODY.parent != t {
      assert NodeOk(v, t);
    }
    EntryKeeps(v, i, NOBODY);
  }

  lemma ExitLookKeeps(v: seq<Node>, c: Tid)
    requires Tree(v) && TreeCan(v, ExitLook, c)
    ensures Tree(TreeStep(v, ExitLook, c))
  {
    var pc := v[c].pc;
    assert NodeOk(v, c) && NodeOk(v, FIRST);
    forall k: Tid | SLOT0 <= k < |v| && k < pc.i ensures v[k].parent != c {
      assert k < Passed(v, c);
    }
    if pc.i >= |v| {
      AtKeeps(v, c, ExitEnd(pc.moved, pc.code));
    } else if v[pc.i].parent == c {
      assert NodeOk(v, pc.i);
      var u := v[pc.i := v[pc.i].(parent := FIRST)];
      forall t: Tid | t < |v| && pc.i < Passed(v, t) ensures FIRST != t {
      }
      forall t: Tid | t < |v| ensures !(v[t].pc.WaitReap? && v[t].pc.i == pc.i) {
        assert NodeOk(v, t);
      }
      EntryKeeps(v, pc.i, v[pc.i].(parent := FIRST));
      AtKeeps(u, c, ExitTest(pc.i, pc.moved, pc.code));
    } else {
      AtKeeps(v, c, ExitScan(pc.i + 1, pc.moved, pc.code));
    }
  }

  // The dying task has passed the whole table: no child is left.
  lemma DieKeeps(v: seq<Node>, c: Tid)
    requires Tree(v) && TreeCan(v, ExitFinish, c)
    ensures Tree(TreeStep(v, ExitFinish, c))
  {
    assert NodeOk(v, c);
    forall k: Tid | k < |v| ensures v[k].parent != c && !(v[k].pc.WaitReap? && v[k].pc.i == c) {
      assert NodeOk(v, k) && k < Passed(v, c);
    }
    forall t: Tid | t < |v| && c < Passed(v, t) ensures v[c].parent != t {
    }
    EntryKeeps(v, c, v[c].(dead := true, status := v[c].pc.code));
  }

  // ------------------------------------------------------------ the life of an entry

  datatype Life = Unborn | Living(parent: Tid) | Dead(parent: Tid, status: int) | Broken

  datatype LifeEvent = Born(c: Tid, parent: Tid) | Adopted(c: Tid) | Died(c: Tid, status: int)
                     | Reaped(c: Tid, parent: Tid, pid: Tid, status: int)

  // What a step means for the life of an entry: for a reaping, what sys_wait
  // hands to its caller.
  ghost function Lives(v: seq<Node>, e: Event, c: Tid): seq<LifeEvent>
    requires c < |v|
  {
    var pc := v[c].pc;
    match e
    case Fork(n) => [Born(n, c)]
    case WaitClear => if pc.WaitReap? && pc.i < |v| then [Reaped(pc.i, c, pc.pid, pc.status)] else []
    case ExitLook => if pc.ExitScan? && pc.i < |v| && v[pc.i].parent == c then [Adopted(pc.i)] else []
    case ExitFinish => if pc.ExitEnd? then [Died(c, pc.code)] else []
    case _ => []
  }

  // An entry is born once, may pass to the first task, dies once, and is then
  // reaped once: by its parent, which gets its number and its status.
  ghost function Lived(l: Life, x: LifeEvent, t: Tid): Life {
    if x.c != t then l
    else match x
      case Born(_, p) => if l == Unborn then Living(p) else Broken
      case Adopted(_) => if l.Living? then Living(FIRST) else if l.Dead? then Dead(FIRST, l.status) else Broken
      case Died(_, code) => if l.Living? then Dead(l.parent, code) else Broken
      case Reaped(_, p, pid, code) => if l == Dead(p, code) && pid == t then Unborn else Broken
  }

  ghost function LivedAll(l: Life, xs: seq<LifeEvent>, t: Tid): Life {
    if xs == [] then l else Lived(l, xs[0], t)
  }

  ghost function LifeIn(v: seq<Node>, t: Tid): Life
    requires t < |v|
  {
    if !v[t].used then Unborn else if v[t].dead then Dead(v[t].parent, v[t].status) else Living(v[t].parent)
  }

  lemma LifeStep(v: seq<Node>, e: Event, c: Tid, t: Tid)
    requires Tree(v) && TreeCan(v, e, c) && SLOT0 <= t < |v|
    ensures LifeIn(TreeStep(v, e, c), t) == LivedAll(LifeIn(v, t), Lives(v, e, c), t)
  {
    assert NodeOk(v, c) && NodeOk(v, t);
    if (e.WaitLook? || e.WaitClear? || e.ExitLook?) && v[c].pc.i < |v| { assert NodeOk(v, v[c].pc.i); }
  }

  ghost predicate TreeInv(s: Sched) {
    Inv(s) && Tree(View(s.tasks))
  }

  // The entry a task is about to clear is that of its dead child, so the step is
  // always possible.
  lemma ReapedIsDead(s: Sched)
    requires TreeInv(s) && s.tasks[s.curr].pc.WaitReap?
    ensures var pc := s.tasks[s.curr].pc;
      pc.i < |s.tasks| && s.tasks[pc.i].state == Zombie && s.tasks[pc.i].parent == s.curr
      && s.tasks[pc.i].pid == pc.pid == pc.i && s.tasks[pc.i].status == pc.status
  {
    var v := View(s.tasks);
    assert NodeOk(v, s.curr) && v[s.curr].pc == s.tasks[s.curr].pc;
    assert NodeOk(v, s.tasks[s.curr].pc.i);
    assert v[s.tasks[s.curr].pc.i] == NodeOf(s.tasks[s.tasks[s.curr].pc.i]);
  }

  lemma CanOnTree(s: Sched, e: Event)
    requires TreeInv(s) && Can(s, e) && s.curr != IDLE
    ensures TreeCan(View(s.tasks), e, s.curr)
  {
    CurrentIsReady(s);
  }

  lemma IdleStep(s: Sched, e: Event)
    requires Inv(s) && Can(s, e) && s.curr == IDLE
    ensures TreeStep(View(s.tasks), e, s.curr) == View(s.tasks) && Lives(View(s.tasks), e, s.curr) == []
  {
  }

  lemma StepKeepsTree(s: Sched, e: Event)
    requires TreeInv(s) && Can(s, e)
    ensures TreeInv(Step(s, e))
  {
    StepKeepsInv(s, e);
    StepView(s, e);
    if s.curr == IDLE {
      IdleStep(s, e);
    } else {
      CanOnTree(s, e);
      TreeKept(View(s.tasks), e, s.curr);
    }
  }

  ghost function LifeRun(l: Life, s: Sched, es: seq<Event>, t: Tid): Life
    requires Inv(s) && Legal(s, es)
    decreases |es|
  {
    if es == [] then l
    else
      StepKeepsInv(s, es[0]);
      LifeRun(LivedAll(l, Lives(View(s.tasks), es[0], s.curr), t), Step(s, es[0]), es[1..], t)
  }

  // Over every run each entry of the process table lives exactly such lives: it
  // is never broken, and the table shows where in its life the entry is. Every
  // used entry has the first task or a living one as its parent.
  lemma {:induction false} LivesOnRuns(s: Sched, es: seq<Event>, t: Tid)
    requires TreeInv(s) && Legal(s, es) && SLOT0 <= t < |s.tasks|
    ensures TreeInv(After(s, es))
    ensures LifeRun(LifeIn(View(s.tasks), t), s, es, t) == LifeIn(View(After(s, es).tasks), t) != Broken
    decreases |es|
  {
    hide Step, Inv, Legal, Can, After, TreeStep, TreeCan, Lives, Tree, View, LifeIn, Lived, LivedAll;
    if es == [] {
      AfterNone(s);
      NotBroken(View(s.tasks), t);
    } else {
      LegalHead(s, es);
      var e, r := es[0], Step(s, es[0]);
      StepKeepsTree(s, e);
      StepView(s, e);
      if s.curr == IDLE {
        IdleStep(s, e);
        NothingLived(LifeIn(View(s.tasks), t), t);
      } else {
        CanOnTree(s, e);
        LifeStep(View(s.tasks), e, s.curr, t);
      }
      LivesOnRuns(r, es[1..], t);
    }
  }

  lemma NotBroken(v: seq<Node>, t: Tid)
    requires t < |v|
    ensures LifeIn(v, t) != Broken
  {
  }

  lemma NothingLived(l: Life, t: Tid)
    ensures LivedAll(l, [], t) == l
  {
  }

  lemma BootTree(s: Sched)
    requires Booted(s)
    ensures TreeInv(s)
  {
    BootInv(s);
    hide Inv;
    var v := View(s.tasks);
    forall t: Tid | t < |v| ensures NodeOk(v, t) && Passed(v, t) == 0 {
      assert v[t] == NodeOf(s.tasks[t]);
    }
  }

  // A zombie has no children, and nobody's parent is one.
  lemma NoOrphans(s: Sched, t: Tid, c: Tid)
    requires TreeInv(s) && t < |s.tasks| && SLOT0 <= c < |s.tasks| && s.tasks[t].state == Zombie
    ensures SLOT0 <= t && s.tasks[t].used && s.tasks[t].pid == t && (s.tasks[c].used ==> s.tasks[c].parent != t)
  {
    assert NodeOk(View(s.tasks), t) && NodeOk(View(s.tasks), c);
  }

  lemma WokenAwake(s: Sched, t: Tid, u: Tid)
    requires Shape(s) && t < |s.tasks| && u < |s.tasks| && s.tasks[IDLE].state != Waiting
    ensures var r := Woken(s, t);
      && r.tasks[t].state != Waiting && r.tasks[IDLE].state != Waiting
      && (s.tasks[u].state != Waiting ==> r.tasks[u].state != Waiting)
      && (r.tasks[u].state != Waiting ==> s.tasks[u].state != Waiting || u == t)
      && s.queues[ReadyList] <= r.queues[ReadyList]
      && (s.tasks[t].state == Waiting && t != IDLE ==> t in r.queues[ReadyList])
  {
  }

  lemma ParentsAwake(s: Sched, moved: bool)
    requires Shape(s) && s.tasks[IDLE].state != Waiting
    ensures var b, p := ParentsWoken(s, moved), s.tasks[s.curr].parent;
      && b.tasks[p].state != Waiting && (moved ==> b.tasks[FIRST].state != Waiting)
      && (s.tasks[p].state == Waiting && p != IDLE ==> p in b.queues[ReadyList])
  {
    var p := s.tasks[s.curr].parent;
    var a := if moved && p != FIRST then Woken(s, FIRST) else s;
    assert p < |s.tasks|;
    hide Woken, Shape;
    WokenAwake(s, FIRST, p);
    WokenAwake(a, p, FIRST);
    WokenAwake(a, p, p);
  }

  lemma DeathLeaves(b: Sched, c: Tid, x: Task, t: Tid)
    requires Shape(b) && c < |b.tasks| && x.parent < |b.tasks| && t < |b.tasks| && t != c && b.tasks[t].state != Waiting
    requires t in b.queues[ReadyList] ==> t in Without(b.queues[ReadyList], c)
    ensures var r := Dispatch(SetBlock(SetTask(b, c, x), c));
      r.tasks[t].state != Waiting && (t in b.queues[ReadyList] ==> t in r.queues[ReadyList])
  {
    hide Shape, Without;
  }

  // An exit leaves no parent waiting: it is on the ready list, and the first task
  // does not wait either if it got a dead child.
  lemma ExitWakesParent(s: Sched)
    requires TreeInv(s) && s.curr != IDLE && s.tasks[s.curr].pc.ExitEnd?
    ensures var r, p := ExitEnded(s), s.tasks[s.curr].parent;
      && FIRST <= p && r.tasks[p].state != Waiting && (s.tasks[s.curr].pc.moved ==> r.tasks[FIRST].state != Waiting)
      && (s.tasks[p].state == Waiting ==> On(r, ReadyList, p))
  {
    var c, p, v, pc := s.curr, s.tasks[s.curr].parent, View(s.tasks), s.tasks[s.curr].pc;
    CurrentIsReady(s);
    assert v[c] == NodeOf(s.tasks[c]);
    assert NodeOk(v, c) && NodeOk(v, FIRST) && c < Passed(v, c) && v[c].parent != c;
    assert FIRST <= p && p != c && c != FIRST && TaskOk(IDLE, s.tasks[IDLE]);
    var b := ParentsWoken(s, pc.moved);
    ParentsPlaced(s, pc.moved);
    WithoutFacts(b.queues[ReadyList], c);
    assert p < |s.tasks| && Shape(s);
    hide Inv, Tree, NodeOk, ParentsWoken, Placed, Shape, View, NodeOf, SetTask, SetBlock, Dispatch;
    ParentsAwake(s, pc.moved);
    var x := b.tasks[c].(status := pc.code, state := Zombie);
    DeathLeaves(b, c, x, p);
    if pc.moved { DeathLeaves(b, c, x, FIRST); }
  }

  // The entry that a reaping clears is as free as at the boot, in every field.
  lemma ClearedEntry(s: Sched)
    requires Inv(s) && Can(s, WaitClear)
    ensures var i, r := s.tasks[s.curr].pc.i, Step(s, WaitClear);
      i < |r.tasks| && r.tasks[i] == Task(false, Created, 0, 0, 0, 0, 0, User, false)
  {
    hide Placed, Keys, TasksOk;
    InvFacts(s);
  }

  // ------------------------------------------------------------ a whole scan

  // In the run t looks at entry i, and it is no dead child of t then.
  ghost predicate SawNone(s: Sched, es: seq<Event>, t: Tid, i: nat)
    requires Inv(s) && Legal(s, es)
    decreases |es|
  {
    es != []
    && ((es[0] == WaitLook && s.curr == t && t < |s.tasks| && s.tasks[t].pc == WaitScan(i) && i < |s.tasks|
         && !(s.tasks[i].parent == t && s.tasks[i].state == Zombie))
        || (StepKeepsInv(s, es[0]); SawNone(Step(s, es[0]), es[1..], t, i)))
  }

  // The first entry that a task at pc has not looked at yet in its scan: number 2 is
  // the first of the table.
  ghost function Unseen(pc: Pc, n: nat): nat {
    match pc
    case WaitScan(i) => i
    case WaitBlock => n
    case _ => 2
  }

  ghost predicate SawAll(s: Sched, es: seq<Event>, t: Tid, from: nat, to: nat)
    requires Inv(s) && Legal(s, es)
  {
    forall i {:trigger SawNone(s, es, t, i)} :: from <= i < to && i < |s.tasks| ==> SawNone(s, es, t, i)
  }

  // How a step moves the scan of t.
  lemma ScanStep(s: Sched, e: Event, t: Tid)
    requires Inv(s) && Can(s, e) && t < |s.tasks|
    ensures t < |Step(s, e).tasks| == |s.tasks|
    ensures var p, p', n := s.tasks[t].pc, Step(s, e).tasks[t].pc, |s.tasks|;
      if e == WaitLook && s.curr == t && p.WaitScan? && p.i < n
         && !(s.tasks[p.i].parent == t && s.tasks[p.i].state == Zombie)
      then Unseen(p', n) == Unseen(p, n) + 1
      else Unseen(p', n) <= Unseen(p, n) || n <= Unseen(p, n)
  {
    hide Step, Placed, Keys;
    StepView(s, e);
    InvFacts(s);
    assert View(Step(s, e).tasks)[t] == NodeOf(Step(s, e).tasks[t]) && View(s.tasks)[t] == NodeOf(s.tasks[t]);
    assert TaskOk(t, s.tasks[t]) && |s.tasks| >= 2;
    if e == WaitLook && s.curr == t { ScanTurn(s.tasks, t); }
  }

  lemma ScanTurn(ts: seq<Task>, t: Tid)
    requires t < |ts| && ts[t].pc.WaitScan?
    ensures var i, r := ts[t].pc.i, TreeStep(View(ts), WaitLook, t)[t].pc;
      if i >= |ts| then r == WaitBlock
      else if ts[i].parent == t && ts[i].state == Zombie then r.WaitReap?
      else r == WaitScan(i + 1)
  {
  }

  // A task that is about to wait for a child has looked at every entry of the table
  // since it entered sys_wait, and none was a dead child of it when it looked; in the
  // middle of a scan that is so of the entries before the place it has got to.
  lemma {:induction false} ScanSeesAll(s: Sched, es: seq<Event>, t: Tid)
    requires Inv(s) && Legal(s, es) && t < |s.tasks|
    ensures t < |After(s, es).tasks| == |s.tasks|
    ensures var pc := After(s, es).tasks[t].pc;
      pc.WaitScan? || pc.WaitBlock? ==>
        SawAll(s, es, t, Unseen(s.tasks[t].pc, |s.tasks|), if pc.WaitScan? then pc.i else |s.tasks|)
    decreases |es|
  {
    hide Step, Inv, Legal, Can, After, Unseen;
    if es == [] {
      AfterNone(s);
      NothingUnseen(s.tasks[t].pc, |s.tasks|);
    } else {
      LegalHead(s, es);
      ScanStep(s, es[0], t);
      ScanSeesAll(Step(s, es[0]), es[1..], t);
      var pc, p := After(s, es).tasks[t].pc, s.tasks[t].pc;
      if pc.WaitScan? || pc.WaitBlock? {
        var to := if pc.WaitScan? then pc.i else |s.tasks|;
        NothingUnseen(p, |s.tasks|);
        forall i | Unseen(p, |s.tasks|) <= i < to && i < |s.tasks| ensures SawNone(s, es, t, i) {
          if Unseen(Step(s, es[0]).tasks[t].pc, |s.tasks|) <= i {
            assert SawNone(Step(s, es[0]), es[1..], t, i);
            SawLater(s, es, t, i);
          } else {
            SawNow(s, es, t, i);
          }
        }
      }
    }
  }

  lemma NothingUnseen(pc: Pc, n: nat)
    ensures pc.WaitScan? ==> Unseen(pc, n) == pc.i
    ensures pc.WaitBlock? ==> Unseen(pc, n) == n
  {
  }

  lemma SawNow(s: Sched, es: seq<Event>, t: Tid, i: nat)
    requires Inv(s) && Legal(s, es) && es != [] && Can(s, es[0])
    requires es[0] == WaitLook && s.curr == t && t < |s.tasks| && s.tasks[t].pc == WaitScan(i) && i < |s.tasks|
    requires !(s.tasks[i].parent == t && s.tasks[i].state == Zombie)
    ensures SawNone(s, es, t, i)
  {
  }

  lemma SawLater(s: Sched, es: seq<Event>, t: Tid, i: nat)
    requires Inv(s) && Legal(s, es) && es != [] && Can(s, es[0])
    requires Inv(Step(s, es[0])) && Legal(Step(s, es[0]), es[1..])
    requires SawNone(Step(s, es[0]), es[1..], t, i)
    ensures SawNone(s, es, t, i)
  {
  }
}

/** Tasks, the lists they are linked in, and the kernel operations that move
    them. Each function is one stretch of kernel code that runs with interrupts
    off; what a list holds is a sequence of task numbers. */
module Tasks {

  type Tid = nat
  const NONE: Tid := 0         // the null pointer; nobody's child
  const IDLE: Tid := 0
  const FIRST: Tid := 1
  const SLOT0: Tid := 2        // task_table[0]
  const TIME_SLICE: int := 10
  const TABLE: nat := 0        // task_table_mutex

  datatype State = Created | Running | Sleep | Ready | Waiting | Zombie

  // Where a task is in sys_wait or sys_exit: between two entries of a scan, between
  // finding a dead child and clearing its entry, or between handing a child over
  // and looking whether it is dead.
  datatype Pc = User | WaitScan(i: nat) | WaitReap(i: nat, pid: Tid, status: int) | WaitDone | WaitBlock | WaitAgain
              | ExitScan(i: nat, moved: bool, code: int) | ExitTest(i: nat, moved: bool, code: int)
              | ExitEnd(moved: bool, code: int)

  // inTick: switched away in the middle of a timer tick, the rest still to do.
  datatype Task = Task(used: bool, state: State, sleepTicks: int, slice: int, parent: Tid, pid: Tid, status: int,
                       pc: Pc, inTick: bool)

  const FREE: Task := Task(false, Created, 0, 0, NONE, 0, 0, User, false)

  datatype Queue = ReadyList | SleepList | MutexList(m: nat) | SemList(k: nat)

  datatype Mutex = Mutex(count: int, owner: Tid)

  datatype Sched = Sched(queues: map<Queue, seq<Tid>>, tasks: seq<Task>, curr: Tid,
                         mutexes: map<nat, Mutex>, sems: map<nat, int>)

  ghost predicate Inside(q: seq<Tid>, n: nat) {
    forall i {:trigger q[i]} :: 0 <= i < |q| ==> q[i] < n
  }

  ghost predicate Shape(s: Sched) {
    && 2 <= |s.tasks| && s.curr < |s.tasks| && ReadyList in s.queues && SleepList in s.queues
    && (forall q {:trigger s.queues[q]} :: q in s.queues ==> Inside(s.queues[q], |s.tasks|))
    && (forall t: nat {:trigger s.tasks[t]} :: t < |s.tasks| ==> s.tasks[t].parent < |s.tasks|)
  }

  // No operation makes or removes a list, a mutex or a semaphore.
  ghost predicate KeysKept(s: Sched, r: Sched) {
    && r.queues.Keys == s.queues.Keys && r.mutexes.Keys == s.mutexes.Keys && r.sems.Keys == s.sems.Keys
    && |r.tasks| == |s.tasks|
  }

  // The list without t, as list_remove leaves it.
  function Without(q: seq<Tid>, t: Tid): (r: seq<Tid>)
    ensures forall i {:trigger r[i]} :: 0 <= i < |r| ==> r[i] in q
  {
    if q == [] then [] else if q[0] == t then q[1..] else [q[0]] + Without(q[1..], t)
  }

  ghost function Put(s: Sched, q: Queue, x: seq<Tid>): (r: Sched)
    requires Shape(s) && q in s.queues && Inside(x, |s.tasks|)
    ensures Shape(r) && KeysKept(s, r)
  {
    s.(queues := s.queues[q := x])
  }

  ghost function SetTask(s: Sched, t: Tid, x: Task): (r: Sched)
    requires Shape(s) && t < |s.tasks| && x.parent < |s.tasks|
    ensures Shape(r) && KeysKept(s, r)
  {
    s.(tasks := s.tasks[t := x])
  }

  ghost function SetReady(s: Sched, t: Tid): (r: Sched)
    requires Shape(s) && t < |s.tasks|
    ensures Shape(r) && KeysKept(s, r)
  {
    if t == IDLE then s
    else SetTask(Put(s, ReadyList, s.queues[ReadyList] + [t]), t, s.tasks[t].(state := Ready))
  }

  ghost function SetBlock(s: Sched, t: Tid): (r: Sched)
    requires Shape(s) && t < |s.tasks|
    ensures Shape(r) && KeysKept(s, r)
  {
    if t == IDLE then s else Put(s, ReadyList, Without(s.queues[ReadyList], t))
  }

  ghost function Enqueue(s: Sched, q: Queue, t: Tid): (r: Sched)
    requires Shape(s) && q in s.queues && t < |s.tasks|
    ensures Shape(r) && KeysKept(s, r)
  {
    Put(s, q, s.queues[q] + [t])
  }

  ghost function Dequeue(s: Sched, q: Queue): (r: Sched)
    requires Shape(s) && q in s.queues && s.queues[q] != []
    ensures Shape(r) && KeysKept(s, r)
  {
    Put(s, q, s.queues[q][1..])
  }

  ghost function Next(s: Sched): (t: Tid)
    requires Shape(s)
    ensures t < |s.tasks|
  {
    if s.queues[ReadyList] == [] then IDLE else s.queues[ReadyList][0]
  }

  ghost function Dispatch(s: Sched): (r: Sched)
    requires Shape(s)
    ensures Shape(r) && KeysKept(s, r) && r.queues == s.queues && r.curr == Next(s)
  {
    var to := Next(s);
    if to == s.curr then s else SetTask(s.(curr := to), to, s.tasks[to].(state := Running))
  }

  ghost function SetPc(s: Sched, t: Tid, pc: Pc): (r: Sched)
    requires Shape(s) && t < |s.tasks|
    ensures Shape(r) && KeysKept(s, r)
  {
    SetTask(s, t, s.tasks[t].(pc := pc))
  }

  // ------------------------------------------------------------ yield, sleep, tick

  ghost function Yielded(s: Sched): (r: Sched)
    requires Shape(s)
    ensures Shape(r) && KeysKept(s, r)
  {
    if |s.queues[ReadyList]| > 1 then Dispatch(SetReady(SetBlock(s, s.curr), s.curr)) else s
  }

  ghost function SetSleep(s: Sched, t: Tid, ticks: nat): (r: Sched)
    requires Shape(s) && t < |s.tasks|
    ensures Shape(r) && KeysKept(s, r)
  {
    if ticks == 0 then s
    else Enqueue(SetTask(s, t, s.tasks[t].(sleepTicks := ticks, state := Sleep)), SleepList, t)
  }

  // Rounded up, in 32-bit arithmetic.
  function SleepTicks(ms: nat): nat {
    (ms + 9) % 0x1_0000_0000 / 10
  }

  ghost function Slept(s: Sched, ms: nat): (r: Sched)
    requires Shape(s)
    ensures Shape(r) && KeysKept(s, r)
  {
    Dispatch(SetSleep(SetBlock(s, s.curr), s.curr, SleepTicks(ms)))
  }

  ghost function SliceTick(s: Sched): (r: Sched)
    requires Shape(s)
    ensures Shape(r) && KeysKept(s, r)
  {
    var t := s.tasks[s.curr];
    if t.slice - 1 == 0
    then Dispatch(SetReady(SetBlock(SetTask(s, s.curr, t.(slice := TIME_SLICE)), s.curr), s.curr))
    else SetTask(s, s.curr, t.(slice := t.slice - 1))
  }

  // The sleepers whose last tick this is, and those with more to go.
  ghost function Waking(q: seq<Tid>, tasks: seq<Task>): (r: seq<Tid>)
    requires Inside(q, |tasks|)
    ensures Inside(r, |tasks|)
    ensures forall t :: t in r <==> t in q && tasks[t].sleepTicks == 1
  {
    if q == [] then []
    else Waking(q[..|q| - 1], tasks) + (if tasks[q[|q| - 1]].sleepTicks == 1 then [q[|q| - 1]] else [])
  }

  ghost function Staying(q: seq<Tid>, tasks: seq<Task>): (r: seq<Tid>)
    requires Inside(q, |tasks|)
    ensures Inside(r, |tasks|)
    ensures forall t :: t in r <==> t in q && tasks[t].sleepTicks != 1
  {
    if q == [] then []
    else Staying(q[..|q| - 1], tasks) + (if tasks[q[|q| - 1]].sleepTicks != 1 then [q[|q| - 1]] else [])
  }

  ghost function Aged(t: Task): Task {
    t.(sleepTicks := t.sleepTicks - 1, state := if t.sleepTicks == 1 then Ready else t.state)
  }

  ghost function AllAged(tasks: seq<Task>, q: seq<Tid>): (r: seq<Task>)
    ensures |r| == |tasks|
    ensures forall t: nat {:trigger r[t]} :: t < |tasks| ==> r[t] == if t in q then Aged(tasks[t]) else tasks[t]
  {
    seq(|tasks|, t requires 0 <= t < |tasks| => if t in q then Aged(tasks[t]) else tasks[t])
  }

  // One pass over the sleep list: everyone's ticks fall, and those with none
  // left go to the end of the ready list in the order they slept.
  ghost function Pass(s: Sched): (r: Sched)
    requires Shape(s)
    ensures Shape(r) && KeysKept(s, r)
  {
    var q := s.queues[SleepList];
    s.(queues := s.queues[SleepList := Staying(q, s.tasks)][ReadyList := s.queues[ReadyList] + Waking(q, s.tasks)],
       tasks := AllAged(s.tasks, q))
  }

  ghost function Ticked(s: Sched): (r: Sched)
    requires Shape(s)
    ensures Shape(r) && KeysKept(s, r)
  {
    var a := SliceTick(s);
    if a.curr == s.curr then Dispatch(Pass(a)) else SetTask(a, s.curr, a.tasks[s.curr].(inTick := true))
  }

  ghost function Rested(s: Sched): (r: Sched)
    requires Shape(s)
    ensures Shape(r) && KeysKept(s, r)
  {
    Dispatch(Pass(SetTask(s, s.curr, s.tasks[s.curr].(inTick := false))))
  }

  // ------------------------------------------------------------ mutex and semaphore

  ghost function Locked(s: Sched, m: nat): (r: Sched)
    requires Shape(s) && m in s.mutexes && MutexList(m) in s.queues
    ensures Shape(r) && KeysKept(s, r)
  {
    var x := s.mutexes[m];
    if x.count == 0 then s.(mutexes := s.mutexes[m := Mutex(1, s.curr)])
    else if x.owner == s.curr then s.(mutexes := s.mutexes[m := x.(count := x.count + 1)])
    else Dispatch(Enqueue(SetBlock(s, s.curr), MutexList(m), s.curr))
  }

  ghost function Unlocked(s: Sched, m: nat): (r: Sched)
    requires Shape(s) && m in s.mutexes && MutexList(m) in s.queues
    ensures Shape(r) && KeysKept(s, r)
  {
    var x, w := s.mutexes[m], s.queues[MutexList(m)];
    if x.owner != s.curr then s
    else if x.count - 1 != 0 then s.(mutexes := s.mutexes[m := x.(count := x.count - 1)])
    else if w == [] then s.(mutexes := s.mutexes[m := Mutex(0, NONE)])
    else Dispatch(SetReady(Dequeue(s, MutexList(m)), w[0]).(mutexes := s.mutexes[m := Mutex(1, w[0])]))
  }

  ghost function SemWaited(s: Sched, k: nat): (r: Sched)
    requires Shape(s) && k in s.sems && SemList(k) in s.queues
    ensures Shape(r) && KeysKept(s, r)
  {
    if s.sems[k] > 0 then s.(sems := s.sems[k := s.sems[k] - 1])
    else Dispatch(Enqueue(SetBlock(s, s.curr), SemList(k), s.curr))
  }

  ghost function SemNotified(s: Sched, k: nat): (r: Sched)
    requires Shape(s) && k in s.sems && SemList(k) in s.queues
    ensures Shape(r) && KeysKept(s, r)
  {
    var w := s.queues[SemList(k)];
    if w != [] then Dispatch(SetReady(Dequeue(s, SemList(k)), w[0]))
    else s.(sems := s.sems[k := s.sems[k] + 1])
  }

  // ------------------------------------------------------------ fork, wait, exit

  ghost function Forked(s: Sched, c: Tid): (r: Sched)
    requires Shape(s) && c < |s.tasks|
    ensures Shape(r) && KeysKept(s, r)
  {
    SetReady(SetTask(s, c, Task(true, Created, 0, TIME_SLICE, s.curr, c, 0, User, false)), c)
  }

  ghost predicate TableThere(s: Sched) {
    TABLE in s.mutexes && MutexList(TABLE) in s.queues
  }

  ghost function WaitLocked(s: Sched): (r: Sched)
    requires Shape(s) && TableThere(s)
    ensures Shape(r) && KeysKept(s, r)
  {
    Locked(SetPc(s, s.curr, WaitScan(SLOT0)), TABLE)
  }

  // One entry of the table: for a dead child the number and the status are noted.
  ghost function WaitLooked(s: Sched): (r: Sched)
    requires Shape(s) && TableThere(s) && s.tasks[s.curr].pc.WaitScan?
    ensures Shape(r) && KeysKept(s, r)
  {
    var i := s.tasks[s.curr].pc.i;
    if i >= |s.tasks| then Unlocked(SetPc(s, s.curr, WaitBlock), TABLE)
    else if s.tasks[i].parent == s.curr && s.tasks[i].state == Zombie then
      SetPc(s, s.curr, WaitReap(i, s.tasks[i].pid, s.tasks[i].status))
    else SetPc(s, s.curr, WaitScan(i + 1))
  }

  // Its memory has been freed: the entry is cleared.
  ghost function WaitCleared(s: Sched): (r: Sched)
    requires Shape(s) && s.tasks[s.curr].pc.WaitReap? && s.tasks[s.curr].pc.i < |s.tasks|
    ensures Shape(r) && KeysKept(s, r)
  {
    SetTask(SetPc(s, s.curr, WaitDone), s.tasks[s.curr].pc.i, FREE)
  }

  ghost function WaitReturned(s: Sched): (r: Sched)
    requires Shape(s) && TableThere(s)
    ensures Shape(r) && KeysKept(s, r)
  {
    Unlocked(SetPc(s, s.curr, User), TABLE)
  }

  ghost function WaitBlocked(s: Sched): (r: Sched)
    requires Shape(s)
    ensures Shape(r) && KeysKept(s, r)
  {
    Dispatch(SetTask(SetBlock(s, s.curr), s.curr, s.tasks[s.curr].(state := Waiting, pc := WaitAgain)))
  }

  ghost function ExitLocked(s: Sched, code: int): (r: Sched)
    requires Shape(s) && TableThere(s)
    ensures Shape(r) && KeysKept(s, r)
  {
    Locked(SetPc(s, s.curr, ExitScan(SLOT0, false, code)), TABLE)
  }

  // One entry of the table: a child is handed to the first task.
  ghost function ExitLooked(s: Sched): (r: Sched)
    requires Shape(s) && TableThere(s) && s.tasks[s.curr].pc.ExitScan?
    ensures Shape(r) && KeysKept(s, r)
  {
    var pc := s.tasks[s.curr].pc;
    if pc.i >= |s.tasks| then Unlocked(SetPc(s, s.curr, ExitEnd(pc.moved, pc.code)), TABLE)
    else if s.tasks[pc.i].parent == s.curr then
      SetPc(SetTask(s, pc.i, s.tasks[pc.i].(parent := FIRST)), s.curr, ExitTest(pc.i, pc.moved, pc.code))
    else SetPc(s, s.curr, ExitScan(pc.i + 1, pc.moved, pc.code))
  }

  // The child handed over is looked at: it may have died meanwhile.
  ghost function ExitTested(s: Sched): (r: Sched)
    requires Shape(s) && s.tasks[s.curr].pc.ExitTest?
    ensures Shape(r) && KeysKept(s, r)
  {
    var pc := s.tasks[s.curr].pc;
    var dead := pc.i < |s.tasks| && s.tasks[pc.i].state == Zombie;
    SetPc(s, s.curr, ExitScan(pc.i + 1, pc.moved || dead, pc.code))
  }

  ghost function Woken(s: Sched, t: Tid): (r: Sched)
    requires Shape(s) && t < |s.tasks|
    ensures Shape(r) && KeysKept(s, r)
  {
    if s.tasks[t].state == Waiting then SetReady(s, t) else s
  }

  // An exiting task wakes the first task if that got dead children, and its own
  // parent, if they wait.
  ghost function ParentsWoken(s: Sched, moved: bool): (r: Sched)
    requires Shape(s)
    ensures Shape(r) && KeysKept(s, r)
  {
    var p := s.tasks[s.curr].parent;
    Woken(if moved && p != FIRST then Woken(s, FIRST) else s, p)
  }

  ghost function ExitEnded(s: Sched): (r: Sched)
    requires Shape(s) && s.tasks[s.curr].pc.ExitEnd?
    ensures Shape(r) && KeysKept(s, r)
  {
    var b, pc := ParentsWoken(s, s.tasks[s.curr].pc.moved), s.tasks[s.curr].pc;
    Dispatch(SetBlock(SetTask(b, s.curr, b.tasks[s.curr].(status := pc.code, state := Zombie)), s.curr))
  }
}

/** Semaphores over whole runs: no token is lost or made, and waiters are released
    in the order they came. */
module Semaphores {
  import opened Tasks
  import opened Placement
  import opened Scheduler
  import opened SchedulerRuns
  import opened Locks

  ghost predicate SemThere(s: Sched, k: nat) {
    k in s.sems && SemList(k) in s.queues
  }

  ghost function Waiters(s: Sched, k: nat): seq<Tid>
    requires SemThere(s, k)
  {
    s.queues[SemList(k)]
  }

  // Nobody waits while there is a token.
  ghost predicate SemOk(s: Sched, k: nat) {
    SemThere(s, k) && s.sems[k] >= 0 && (s.sems[k] > 0 ==> Waiters(s, k) == [])
  }

  // What a step does to semaphore k: the count, less those that wait for one.
  ghost predicate SemStep(s: Sched, r: Sched, k: nat, e: Event)
    requires SemThere(s, k)
  {
    && SemThere(r, k)
    && if e == SemWait(k) && s.sems[k] > 0 then r.sems[k] == s.sems[k] - 1 && Waiters(r, k) == Waiters(s, k)
       else if e == SemWait(k) then r.sems[k] == s.sems[k] && Waiters(r, k) == Waiters(s, k) + [s.curr]
       else if e == SemNotify(k) && Waiters(s, k) != []
       then r.sems[k] == s.sems[k] && Waiters(r, k) == Waiters(s, k)[1..]
       else if e == SemNotify(k) then r.sems[k] == s.sems[k] + 1 && Waiters(r, k) == []
       else r.sems[k] == s.sems[k] && Waiters(r, k) == Waiters(s, k)
  }

  ghost predicate SameSem(s: Sched, r: Sched, k: nat)
    requires SemThere(s, k)
  {
    SemThere(r, k) && r.sems[k] == s.sems[k] && Waiters(r, k) == Waiters(s, k)
  }

  // The current task off the ready list and at the end of the semaphore's.
  lemma JoinsSem(s: Sched, k: nat, k': nat)
    requires Shape(s) && SemThere(s, k) && SemThere(s, k')
    ensures s.curr < |s.tasks|
    ensures var a := Enqueue(SetBlock(s, s.curr), SemList(k'), s.curr);
      && SemThere(a, k) && a.sems == s.sems && IsWaitList(a, SemList(k))
      && Waiters(a, k) == if k == k' then Waiters(s, k) + [s.curr] else Waiters(s, k)
  {
    MoveKeeps(s, SemList(k), s.curr);
    MoveKeeps(s, SemList(k'), s.curr);
  }

  lemma WaitOp(s: Sched, k: nat, k': nat)
    requires Shape(s) && SemThere(s, k) && SemThere(s, k')
    ensures SemStep(s, SemWaited(s, k'), k, SemWait(k'))
  {
    hide SetBlock, Dispatch, Shape, Enqueue;
    if s.sems[k'] <= 0 {
      JoinsSem(s, k, k');
      MoveKeeps(Enqueue(SetBlock(s, s.curr), SemList(k'), s.curr), SemList(k), s.curr);
    }
  }

  lemma NotifyOp(s: Sched, k: nat, k': nat)
    requires Shape(s) && SemThere(s, k) && SemThere(s, k')
    ensures SemStep(s, SemNotified(s, k'), k, SemNotify(k'))
  {
    var w := s.queues[SemList(k')];
    if w != [] {
      assert w[0] < |s.tasks|;
      var a := Dequeue(s, SemList(k'));
      MoveKeeps(a, SemList(k), w[0]);
      MoveKeeps(SetReady(a, w[0]), SemList(k), w[0]);
      hide SetReady, Dispatch, Shape;
    }
  }

  lemma MutexOps(s: Sched, k: nat, m: nat)
    requires Shape(s) && SemThere(s, k) && m in s.mutexes && MutexList(m) in s.queues
    ensures SameSem(s, Locked(s, m), k) && SameSem(s, Unlocked(s, m), k)
  {
  }

  // The same from inside a scan.
  lemma ScanOps(s: Sched, k: nat, pc: Pc)
    requires Shape(s) && SemThere(s, k) && TableThere(s)
    ensures SameSem(s, SetPc(s, s.curr, pc), k)
    ensures SameSem(s, Locked(SetPc(s, s.curr, pc), TABLE), k) && SameSem(s, Unlocked(SetPc(s, s.curr, pc), TABLE), k)
  {
    MutexOps(SetPc(s, s.curr, pc), k, TABLE);
    hide Locked, Unlocked, Shape;
  }

  lemma LookOps(s: Sched, k: nat)
    requires Shape(s) && SemThere(s, k) && TableThere(s)
    ensures s.tasks[s.curr].pc.WaitScan? ==> SameSem(s, WaitLooked(s), k)
    ensures s.tasks[s.curr].pc.ExitScan? ==> SameSem(s, ExitLooked(s), k)
  {
    var pc := s.tasks[s.curr].pc;
    hide Unlocked;
    if pc.WaitScan? {
      ScanOps(s, k, WaitBlock);
      ScanOps(s, k, WaitDone);
      ScanOps(s, k, WaitScan(pc.i + 1));
    } else if pc.ExitScan? {
      ScanOps(s, k, ExitEnd(pc.moved, pc.code));
    }
  }

  lemma SameIsStep(s: Sched, r: Sched, k: nat, e: Event)
    requires SemThere(s, k) && (SameSem(s, r, k) || Kept(s, r, SemList(k))) && !e.SemWait? && !e.SemNotify?
    ensures SemStep(s, r, k, e)
  {
  }

  lemma StepSem(s: Sched, e: Event, k: nat)
    requires Inv(s) && Can(s, e) && SemThere(s, k)
    ensures SemStep(s, Step(s, e), k, e)
  {
    InvFacts(s);
    hide Locked, Unlocked, SemWaited, SemNotified, WaitLooked, ExitLooked, Shape, Placed, Keys, TasksOk, KeysKept,
         SetPc, SemStep, SameSem, Kept;
    match e {
      case SemWait(k') => WaitOp(s, k, k');
      case SemNotify(k') => NotifyOp(s, k, k');
      case Lock(m) => MutexOps(s, k, m);
      case Unlock(m) => MutexOps(s, k, m);
      case WaitBegin => ScanOps(s, k, WaitScan(SLOT0));
      case WaitLook => LookOps(s, k);
      case WaitReturn => ScanOps(s, k, User);
      case ExitBegin(code) => ScanOps(s, k, ExitScan(SLOT0, false, code));
      case ExitLook => LookOps(s, k);
      case _ => QuietStep(s, e, SemList(k));
    }
    if !e.SemWait? && !e.SemNotify? { SameIsStep(s, Step(s, e), k, e); }
  }

  ghost function Count(es: seq<Event>, e: Event): nat {
    if es == [] then 0 else (if es[0] == e then 1 else 0) + Count(es[1..], e)
  }

  // Tokens are conserved: the count less the waiters is what it was at the start
  // plus the notifies less the waits; and nobody ever waits beside a token.
  lemma {:induction false} TokensConserved(s: Sched, es: seq<Event>, k: nat)
    requires Inv(s) && Legal(s, es) && SemOk(s, k)
    ensures var r := After(s, es);
      && SemOk(r, k)
      && r.sems[k] - |Waiters(r, k)| == s.sems[k] - |Waiters(s, k)| + Count(es, SemNotify(k)) - Count(es, SemWait(k))
    decreases |es|
  {
    hide Step, Inv, Legal, Can, After;
    if es == [] {
      AfterNone(s);
    } else {
      LegalHead(s, es);
      StepSem(s, es[0], k);
      TokensConserved(Step(s, es[0]), es[1..], k);
    }
  }

  // Never more waits go through than there were tokens and notifies.
  lemma WaitsGranted(s: Sched, es: seq<Event>, k: nat)
    requires Inv(s) && Legal(s, es) && SemOk(s, k) && Waiters(s, k) == []
    ensures SemOk(After(s, es), k)
    ensures var granted := Count(es, SemWait(k)) - |Waiters(After(s, es), k)|;
      && granted <= s.sems[k] + Count(es, SemNotify(k))
      && (Waiters(After(s, es), k) != [] ==> granted == s.sems[k] + Count(es, SemNotify(k)))
  {
    TokensConserved(s, es, k);
  }

  ghost function Blocked(s: Sched, es: seq<Event>, k: nat): seq<Tid>
    requires Inv(s) && Legal(s, es) && SemThere(s, k)
    decreases |es|
  {
    if es == [] then []
    else
      StepKeepsInv(s, es[0]);
      StepSem(s, es[0], k);
      (if es[0] == SemWait(k) && s.sems[k] <= 0 then [s.curr] else []) + Blocked(Step(s, es[0]), es[1..], k)
  }

  ghost function Released(s: Sched, es: seq<Event>, k: nat): nat
    requires Inv(s) && Legal(s, es) && SemThere(s, k)
    decreases |es|
  {
    if es == [] then 0
    else
      StepKeepsInv(s, es[0]);
      StepSem(s, es[0], k);
      (if es[0] == SemNotify(k) && Waiters(s, k) != [] then 1 else 0) + Released(Step(s, es[0]), es[1..], k)
  }

  // The waiters are those that blocked, less the first ones released.
  lemma {:induction false} ReleaseOrder(s: Sched, es: seq<Event>, k: nat)
    requires Inv(s) && Legal(s, es) && SemThere(s, k)
    ensures SemThere(After(s, es), k) && Released(s, es, k) <= |Waiters(s, k) + Blocked(s, es, k)|
    ensures Waiters(After(s, es), k) == (Waiters(s, k) + Blocked(s, es, k))[Released(s, es, k)..]
    decreases |es|
  {
    hide Step, Inv, Legal, Can, After;
    if es == [] {
      AfterNone(s);
    } else {
      LegalHead(s, es);
      var r := Step(s, es[0]);
      StepSem(s, es[0], k);
      ReleaseOrder(r, es[1..], k);
      LineShift(Waiters(s, k), if es[0] == SemWait(k) && s.sems[k] <= 0 then [s.curr] else [],
                if es[0] == SemNotify(k) && Waiters(s, k) != [] then 1 else 0,
                Waiters(r, k), Blocked(r, es[1..], k), Released(r, es[1..], k));
    }
  }
}

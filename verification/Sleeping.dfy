/** Sleep: how many ticks a number of milliseconds is, and that a sleeper wakes
    after exactly so many passes over the sleep list. */
module Sleeping {
  import opened Tasks
  import opened Placement
  import opened Scheduler
  import opened SchedulerRuns

  // The step passes over the sleep list. A tick that switches away does not: its
  // pass comes when the task that was switched away goes on.
  ghost predicate IsPass(s: Sched, e: Event)
    requires Shape(s)
  {
    e == Rest || (e == Tick && SliceTick(s).curr == s.curr)
  }

  ghost predicate Awake(x: Task) {
    x.state == Ready || x.state == Running
  }

  lemma PassSleeper(s: Sched, t: Tid)
    requires Placed(s, {}) && On(s, SleepList, t)
    ensures t < |s.tasks| && s.tasks[t].sleepTicks > 0
    ensures var r, n := Dispatch(Pass(s)), s.tasks[t].sleepTicks;
      if n == 1 then On(r, ReadyList, t) && Awake(r.tasks[t]) && r.tasks[t].sleepTicks == 0
      else On(r, SleepList, t) && r.tasks[t].sleepTicks == n - 1
  {
    PassOn(s);
    assert On(Pass(s), if s.tasks[t].sleepTicks == 1 then ReadyList else SleepList, t);
  }

  lemma SleeperThere(s: Sched, t: Tid)
    requires Placed(s, {}) && On(s, SleepList, t)
    ensures Shape(s) && s.curr < |s.tasks| && s.tasks[s.curr].parent < |s.tasks| && t < |s.tasks|
  {
  }

  lemma TurnKeepsSleep(s: Sched, t: Tid)
    requires Shape(s) && t < |s.tasks|
    ensures var r := Dispatch(SetReady(SetBlock(s, s.curr), s.curr));
      r.queues[SleepList] == s.queues[SleepList] && r.tasks[t].sleepTicks == s.tasks[t].sleepTicks
  {
  }

  lemma SliceSleeper(s: Sched, t: Tid)
    requires Placed(s, {}) && s.curr == Next(s) && On(s, SleepList, t) && s.tasks[s.curr].used
    ensures t < |s.tasks| && On(SliceTick(s), SleepList, t) && SliceTick(s).tasks[t].sleepTicks == s.tasks[t].sleepTicks
  {
    hide Shape, Without, Dispatch, SetReady, SetBlock;
    SleeperThere(s, t);
    TurnKeepsSleep(SetTask(s, s.curr, s.tasks[s.curr].(slice := TIME_SLICE)), t);
  }

  lemma SleeperStep(s: Sched, e: Event, t: Tid)
    requires Inv(s) && Can(s, e) && On(s, SleepList, t)
    ensures t < |s.tasks| && s.tasks[t].sleepTicks > 0
    ensures var r, n := Step(s, e), s.tasks[t].sleepTicks;
      if !IsPass(s, e) then On(r, SleepList, t) && r.tasks[t].sleepTicks == n
      else if n == 1 then On(r, ReadyList, t) && Awake(r.tasks[t])
      else On(r, SleepList, t) && r.tasks[t].sleepTicks == n - 1
  {
    InvFacts(s);
    assert t < |s.tasks| && s.tasks[t].sleepTicks > 0;
    hide TasksOk, Keys;
    if e == Tick {
      var a := SliceTick(s);
      SliceSleeper(s, t);
      SliceTickPlaced(s);
      hide SliceTick, Pass, Placed, Dispatch;
      if a.curr == s.curr { PassSleeper(a, t); }
    } else if e == Rest {
      var x := s.tasks[s.curr].(inTick := false);
      EditPlaced(s, s.curr, x, {});
      PassSleeper(SetTask(s, s.curr, x), t);
    } else {
      StepSteady(s, e, s.queues[SleepList]);
      hide Step, Placed;
    }
  }

  lemma SleeperReal(s: Sched, t: Tid)
    requires Inv(s) && On(s, SleepList, t)
    ensures Shape(s) && t < |s.tasks| && s.tasks[t].sleepTicks > 0
  {
  }

  ghost function Passes(s: Sched, es: seq<Event>): nat
    requires Inv(s) && Legal(s, es)
    decreases |es|
  {
    if es == [] then 0
    else
      StepKeepsInv(s, es[0]);
      (if IsPass(s, es[0]) then 1 else 0) + Passes(Step(s, es[0]), es[1..])
  }

  // Asleep until the n-th pass, and ready right after it.
  ghost predicate WakesAt(s: Sched, es: seq<Event>, t: Tid, n: nat)
    requires Inv(s) && Legal(s, es)
    decreases |es|
  {
    && On(s, SleepList, t) && es != [] && n > 0
    && (StepKeepsInv(s, es[0]);
        var r := Step(s, es[0]);
        if IsPass(s, es[0]) && n == 1 then On(r, ReadyList, t) && t < |r.tasks| && Awake(r.tasks[t])
        else WakesAt(r, es[1..], t, if IsPass(s, es[0]) then n - 1 else n))
  }

  // A sleeper with n ticks to go wakes at the n-th pass, not before, whatever
  // the other tasks do.
  lemma {:induction false} SleepsExactly(s: Sched, es: seq<Event>, t: Tid)
    requires Inv(s) && Legal(s, es) && On(s, SleepList, t)
    ensures t < |s.tasks| && s.tasks[t].sleepTicks > 0
    ensures var n := s.tasks[t].sleepTicks;
      if Passes(s, es) >= n then WakesAt(s, es, t, n)
      else On(After(s, es), SleepList, t) && After(s, es).tasks[t].sleepTicks == n - Passes(s, es)
    decreases |es|
  {
    hide Step, Inv, Legal, Can, After, IsPass, Placed;
    SleeperReal(s, t);
    if es == [] {
      AfterNone(s);
    } else {
      LegalHead(s, es);
      var r := Step(s, es[0]);
      SleeperStep(s, es[0], t);
      if !(IsPass(s, es[0]) && s.tasks[t].sleepTicks == 1) { SleepsExactly(r, es[1..], t); }
    }
  }

  // Those that wake in one pass go to the ready list in the order they slept.
  lemma {:induction false} WakingOrder(q: seq<Tid>, tasks: seq<Task>, i: nat, j: nat)
    requires Inside(q, |tasks|) && i < j < |q| && tasks[q[i]].sleepTicks == 1 && tasks[q[j]].sleepTicks == 1
    ensures exists a, b :: 0 <= a < b < |Waking(q, tasks)| && Waking(q, tasks)[a] == q[i] && Waking(q, tasks)[b] == q[j]
  {
    var p := q[..|q| - 1];
    var w, w' := Waking(p, tasks), Waking(q, tasks);
    if j == |p| {
      assert q[i] in p;
      var a :| 0 <= a < |w| && w[a] == q[i];
      assert w'[a] == q[i] && w'[|w|] == q[j];
    } else {
      WakingOrder(p, tasks, i, j);
      var a, b :| 0 <= a < b < |w| && w[a] == p[i] && w[b] == p[j];
      assert w'[a] == q[i] && w'[b] == q[j];
    }
  }

  // The ticks are the milliseconds rounded up to tens, but in 32 bits: for 0 and
  // for the nine largest values there is no tick at all.
  lemma TicksRoundUp(ms: nat)
    requires ms < 0x1_0000_0000
    ensures SleepTicks(ms) > 0 <==> 0 < ms < 0xFFFF_FFF7
    ensures SleepTicks(ms) > 0 ==> ms <= 10 * SleepTicks(ms) < ms + 10
  {
  }

  // With no tick to sleep the task leaves the ready list and enters no other:
  // the placement is kept if and only if there is at least one.
  lemma SleepKeepsPlacement(s: Sched, ms: nat)
    requires Inv(s) && s.curr != IDLE
    ensures Placed(Slept(s, ms), {}) <==> SleepTicks(ms) > 0
    ensures SleepTicks(ms) == 0 ==> Listed(Slept(s, ms), s.curr) && forall q :: !On(Slept(s, ms), q, s.curr)
  {
    if SleepTicks(ms) > 0 {
      SleepPlaced(s, ms);
    } else {
      var a, r := SetBlock(s, s.curr), Slept(s, ms);
      CurrentIsReady(s);
      BlockPlaced(s, s.curr);
      DispatchPlaced(a, {s.curr});
      assert Placed(r, {s.curr}) && Listed(r, s.curr);
    }
  }
}

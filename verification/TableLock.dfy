/** The mutex of the process table: the tasks in the middle of a scan are exactly
    its owner and its waiters, so only one of them scans at a time. */
module TableLock {
  import opened Tasks
  import opened Placement
  import opened Scheduler
  import opened SchedulerRuns
  import opened Locks
  import opened ProcessTree

  ghost predicate Scanning(pc: Pc) {
    pc.WaitScan? || pc.WaitReap? || pc.WaitDone? || pc.ExitScan? || pc.ExitTest?
  }

  ghost predicate InLine(q: seq<Ticket>, t: Tid) {
    exists i :: 0 <= i < |q| && q[i].who == t
  }

  ghost predicate LineIsScanners(v: seq<Node>, q: seq<Ticket>) {
    && (forall t: Tid {:trigger InLine(q, t)} :: t < |v| ==> (InLine(q, t) <==> Scanning(v[t].pc)))
    && (forall i {:trigger q[i]} :: 0 <= i < |q| ==> q[i].depth == 1 && q[i].who < |v|)
    && (forall i, j {:trigger q[i], q[j]} :: 0 <= i < j < |q| ==> q[i].who != q[j].who)
  }

  lemma JoinsLine(q: seq<Ticket>, c: Tid, t: Tid)
    requires !InLine(q, c)
    ensures Ask(q, c) == q + [Ticket(c, 1)] && (InLine(Ask(q, c), t) <==> InLine(q, t) || t == c)
  {
    var r := q + [Ticket(c, 1)];
    if q != [] { assert q[0].who != c; }
    assert Ask(q, c) == r;
    if InLine(q, t) {
      var i :| 0 <= i < |q| && q[i].who == t;
      assert r[i].who == t;
    }
    assert r[|q|].who == c;
  }

  lemma LeavesLine(v: seq<Node>, q: seq<Ticket>, t: Tid)
    requires LineIsScanners(v, q) && q != []
    ensures Give(q, q[0].who) == q[1..] && (InLine(q[1..], t) <==> InLine(q, t) && t != q[0].who)
  {
    if InLine(q, t) && t != q[0].who {
      var i :| 0 <= i < |q| && q[i].who == t;
      assert q[1..][i - 1].who == t;
    }
  }

  // The task that runs is not waiting: in the line, it is the owner.
  lemma RunnerIsOwner(s: Sched)
    requires Inv(s) && s.curr != IDLE && MutexThere(s, TABLE) && InLine(Tickets(s, TABLE), s.curr)
    ensures Tickets(s, TABLE)[0].who == s.curr
  {
    CurrentIsReady(s);
    assert !On(s, MutexList(TABLE), s.curr);
    var q := Tickets(s, TABLE);
    forall i | 1 <= i < |q| ensures q[i].who != s.curr {
      assert q[i].who == s.queues[MutexList(TABLE)][i - 1];
    }
  }

  lemma LineStep(v: seq<Node>, q: seq<Ticket>, e: Event, c: Tid, u: Use)
    requires Tree(v) && TreeCan(v, e, c) && LineIsScanners(v, q)
    requires u == Asks <==> e.WaitBegin? || e.ExitBegin?
    requires u == Gives <==> e.WaitReturn? || ((e.WaitLook? || e.ExitLook?) && v[c].pc.i >= |v|)
    requires InLine(q, c) ==> q[0].who == c
    ensures LineIsScanners(TreeStep(v, e, c), Used(q, u, c))
  {
    var r, q' := TreeStep(v, e, c), Used(q, u, c);
    assert NodeOk(v, c);
    assert InLine(q, c) <==> Scanning(v[c].pc);
    if (e.WaitLook? || e.WaitClear?) && v[c].pc.i < |v| { assert NodeOk(v, v[c].pc.i); }
    if e.Fork? { assert NodeOk(v, e.c); }
    forall t: Tid | t < |v| ensures InLine(q', t) <==> Scanning(r[t].pc) {
      assert InLine(q, t) <==> Scanning(v[t].pc);
      if u == Asks { JoinsLine(q, c, t); }
      if u == Gives { LeavesLine(v, q, t); }
    }
    hide Tree, TreeCan, TreeStep, InLine;
    if u == Asks { JoinsLine(q, c, c); NotYet(q, c); }
    if u == Gives { LeavesLine(v, q, c); }
  }

  lemma NotYet(q: seq<Ticket>, c: Tid)
    requires !InLine(q, c)
    ensures forall i {:trigger q[i]} :: 0 <= i < |q| ==> q[i].who != c
  {
  }

  ghost predicate TableInv(s: Sched) {
    TreeInv(s) && MutexThere(s, TABLE) && LineIsScanners(View(s.tasks), Tickets(s, TABLE))
  }

  lemma StepKeepsLine(s: Sched, e: Event)
    requires TableInv(s) && Can(s, e) && s.curr != IDLE
    ensures LineIsScanners(TreeStep(View(s.tasks), e, s.curr), Used(Tickets(s, TABLE), UseOf(s, e, TABLE), s.curr))
  {
    var v, q := View(s.tasks), Tickets(s, TABLE);
    CanOnTree(s, e);
    if InLine(q, s.curr) { RunnerIsOwner(s); }
    assert v[s.curr] == NodeOf(s.tasks[s.curr]);
    hide Tree, TreeCan, TreeStep, LineIsScanners, Used, Tickets, Placed, MutexOk, Keys, TasksOk;
    LineStep(v, q, e, s.curr, UseOf(s, e, TABLE));
  }

  lemma StepKeepsTable(s: Sched, e: Event)
    requires TableInv(s) && Can(s, e)
    ensures TableInv(Step(s, e))
  {
    StepKeepsTree(s, e);
    StepTickets(s, e, TABLE);
    StepView(s, e);
    hide Placed, Tree, TreeStep, LineIsScanners, Tickets, Step, MutexOk, Keys, TasksOk;
    if s.curr == IDLE { IdleStep(s, e); IdleUse(s, e); } else { StepKeepsLine(s, e); }
  }

  lemma IdleUse(s: Sched, e: Event)
    requires Inv(s) && Can(s, e) && s.curr == IDLE
    ensures UseOf(s, e, TABLE) == Leaves
  {
  }

  // From the boot on, a task in the middle of a scan that does not wait owns the
  // table's mutex, locked once; so no two tasks scan at the same time.
  lemma {:induction false} OneScanAtATime(s: Sched, es: seq<Event>, t: Tid)
    requires TableInv(s) && Legal(s, es) && t < |s.tasks|
    ensures TableInv(After(s, es))
    ensures var r := After(s, es);
      Scanning(r.tasks[t].pc) && !On(r, MutexList(TABLE), t) ==> r.mutexes[TABLE] == Mutex(1, t)
    decreases |es|
  {
    hide Step, Inv, Legal, Can, After, Tree, View, LineIsScanners;
    if es == [] {
      AfterNone(s);
      if Scanning(s.tasks[t].pc) && !On(s, MutexList(TABLE), t) { Scanner(s, t); }
    } else {
      LegalHead(s, es);
      StepKeepsTable(s, es[0]);
      OneScanAtATime(Step(s, es[0]), es[1..], t);
    }
  }

  lemma Scanner(s: Sched, t: Tid)
    requires TableInv(s) && t < |s.tasks| && Scanning(s.tasks[t].pc) && !On(s, MutexList(TABLE), t)
    ensures s.mutexes[TABLE] == Mutex(1, t)
  {
    var q := Tickets(s, TABLE);
    assert View(s.tasks)[t] == NodeOf(s.tasks[t]);
    assert InLine(q, t);
    forall i | 1 <= i < |q| ensures q[i].who != t {
      assert q[i].who == s.queues[MutexList(TABLE)][i - 1];
    }
  }

  lemma BootTable(s: Sched)
    requires Booted(s)
    ensures TableInv(s)
  {
    BootTree(s);
    assert MutexThere(s, TABLE) && Tickets(s, TABLE) == [];
    forall t: Tid | t < |s.tasks| ensures !Scanning(View(s.tasks)[t].pc) {
      assert View(s.tasks)[t] == NodeOf(s.tasks[t]);
    }
  }

  // ------------------------------------------------------------ whom an exit wakes

  ghost predicate Exiting(v: seq<Node>, c: Tid) {
    c < |v| && (v[c].pc.ExitScan? || v[c].pc.ExitTest? || v[c].pc.ExitEnd?)
  }

  // Between handing a child over and looking at it the task has the table's mutex,
  // so the entry stays that of a child of the first task, alive or dead.
  ghost predicate Handed(v: seq<Node>, q: seq<Ticket>, c: Tid)
    requires c < |v|
  {
    v[c].pc.ExitTest? ==>
      && q != [] && q[0].who == c
      && v[c].pc.i < |v| && v[v[c].pc.i].used && v[v[c].pc.i].parent == FIRST
  }

  ghost predicate HandInv(s: Sched) {
    TableInv(s) && forall c: Tid {:trigger s.tasks[c]} :: c < |s.tasks| ==> Handed(View(s.tasks), Tickets(s, TABLE), c)
  }

  ghost predicate UseFits(v: seq<Node>, e: Event, a: Tid, u: Use)
    requires a < |v|
  {
    && (u == Asks ==> !Scanning(v[a].pc))
    && (u == Gives ==> e.WaitReturn? || (e.WaitLook? && v[a].pc.WaitScan? && v[a].pc.i >= |v|)
                                     || (e.ExitLook? && v[a].pc.ExitScan? && v[a].pc.i >= |v|))
  }

  // What the step of task a leaves of c between its two turns; a dead child
  // stays dead.
  lemma HandStep(v: seq<Node>, q: seq<Ticket>, e: Event, a: Tid, u: Use, c: Tid)
    requires Tree(v) && TreeCan(v, e, a) && LineIsScanners(v, q) && c < |v| && Handed(v, q, c)
    requires Scanning(v[a].pc) ==> q != [] && q[0].who == a
    requires UseFits(v, e, a, u)
    ensures Handed(TreeStep(v, e, a), Used(q, u, a), c)
    ensures v[c].pc.ExitTest? && v[v[c].pc.i].dead && !(a == c && e.ExitCheck?) ==>
      var r := TreeStep(v, e, a);
      r[c].pc == v[c].pc && r[v[c].pc.i].dead
  {
    var r := TreeStep(v, e, a);
    assert NodeOk(v, a) && NodeOk(v, c);
    if a == c && e.ExitLook? && v[c].pc.i < |v| { assert NodeOk(v, v[c].pc.i); }
    if e.WaitClear? { assert NodeOk(v, v[a].pc.i); }
    hide Tree, LineIsScanners;
    if c != a && v[c].pc.ExitTest? {
      assert !Scanning(v[a].pc);
      OthersLeave(v, e, a, c);
    }
  }

  // A task that does not scan leaves used entries as they are, but for its own death.
  lemma OthersLeave(v: seq<Node>, e: Event, a: Tid, c: Tid)
    requires TreeCan(v, e, a) && !Scanning(v[a].pc) && c < |v| && c != a && v[c].pc.ExitTest?
    requires e.Fork? ==> v[c].used || v[e.c] == NOBODY
    ensures var r := TreeStep(v, e, a);
      && r[c].pc == v[c].pc
      && forall i :: 0 <= i < |v| && v[i].used ==> r[i].used && r[i].parent == v[i].parent && (v[i].dead ==> r[i].dead)
  {
  }

  lemma StepKeepsHand(s: Sched, e: Event)
    requires HandInv(s) && Can(s, e)
    ensures HandInv(Step(s, e))
    ensures forall c: Tid {:trigger s.tasks[c]} :: c < |s.tasks| ==> HandedStays(s, e, c)
  {
    hide Inv, Tree, TreeStep, LineIsScanners, Tickets, Step, MutexOk, Can, Handed, HandedStays;
    StepKeepsTable(s, e);
    var r := Step(s, e);
    forall c: Tid | c < |s.tasks|
      ensures Handed(View(r.tasks), Tickets(r, TABLE), c) && HandedStays(s, e, c)
    {
      assert s.tasks[c] == s.tasks[c];
      if s.curr == IDLE { IdleHand(s, e, c); } else { TaskHand(s, e, c); }
    }
  }

  lemma IdleHand(s: Sched, e: Event, c: Tid)
    requires TableInv(s) && Can(s, e) && s.curr == IDLE && c < |s.tasks| && Handed(View(s.tasks), Tickets(s, TABLE), c)
    ensures TableInv(Step(s, e)) && Handed(View(Step(s, e).tasks), Tickets(Step(s, e), TABLE), c)
      && HandedStays(s, e, c)
  {
    hide Inv, Tree, TreeStep, LineIsScanners, Tickets, Step, MutexOk, Can;
    StepKeepsTable(s, e);
    StepTickets(s, e, TABLE);
    StepView(s, e);
    IdleStep(s, e);
    IdleUse(s, e);
  }

  lemma TaskHand(s: Sched, e: Event, c: Tid)
    requires TableInv(s) && Can(s, e) && s.curr != IDLE && c < |s.tasks| && Handed(View(s.tasks), Tickets(s, TABLE), c)
    ensures TableInv(Step(s, e)) && Handed(View(Step(s, e).tasks), Tickets(Step(s, e), TABLE), c)
      && HandedStays(s, e, c)
  {
    hide Inv, Tree, TreeStep, LineIsScanners, Tickets, Step, MutexOk, Can, Used, TreeCan, UseFits, InLine;
    var v, q := View(s.tasks), Tickets(s, TABLE);
    StepKeepsTable(s, e);
    StepTickets(s, e, TABLE);
    StepView(s, e);
    CanOnTree(s, e);
    if InLine(q, s.curr) { RunnerIsOwner(s); }
    LineNotEmpty(q, s.curr);
    UseIsFit(s, e);
    RunnerScans(v, q, s.curr);
    HandStep(v, q, e, s.curr, UseOf(s, e, TABLE), c);
  }

  lemma LineNotEmpty(q: seq<Ticket>, t: Tid)
    ensures InLine(q, t) ==> q != []
  {
  }

  // If the child just handed over is dead, it still is at the next look.
  ghost predicate HandedStays(s: Sched, e: Event, c: Tid)
    requires Inv(s) && Can(s, e) && c < |s.tasks|
  {
    var v, r := View(s.tasks), View(Step(s, e).tasks);
    v[c].pc.ExitTest? && v[c].pc.i < |v| && v[v[c].pc.i].dead && !(s.curr == c && e.ExitCheck?) ==>
      r[c].pc == v[c].pc && r[v[c].pc.i].dead
  }

  lemma RunnerScans(v: seq<Node>, q: seq<Ticket>, a: Tid)
    requires LineIsScanners(v, q) && a < |v| && (InLine(q, a) ==> q != [] && q[0].who == a)
    ensures Scanning(v[a].pc) ==> q != [] && q[0].who == a
  {
    assert InLine(q, a) <==> Scanning(v[a].pc);
  }

  lemma UseIsFit(s: Sched, e: Event)
    requires Inv(s) && Can(s, e) && s.curr != IDLE
    ensures UseFits(View(s.tasks), e, s.curr, UseOf(s, e, TABLE))
  {
    assert View(s.tasks)[s.curr] == NodeOf(s.tasks[s.curr]);
  }

  // Task c, on its way out, finds that the child it has handed over is dead.
  ghost predicate GivesDead(v: seq<Node>, e: Event, actor: Tid, c: Tid) {
    && actor == c < |v| && e.ExitCheck? && v[c].pc.ExitTest? && v[c].pc.i < |v|
    && v[v[c].pc.i].used && v[v[c].pc.i].parent == FIRST && v[v[c].pc.i].dead
  }

  lemma MovedStep(v: seq<Node>, q: seq<Ticket>, e: Event, actor: Tid, c: Tid)
    requires Tree(v) && TreeCan(v, e, actor) && Exiting(v, c) && Exiting(TreeStep(v, e, actor), c) && Handed(v, q, c)
    ensures TreeStep(v, e, actor)[c].pc.moved == (v[c].pc.moved || GivesDead(v, e, actor, c))
  {
    assert NodeOk(v, c) && NodeOk(v, actor);
  }

  // It is on its way out in every state of the run.
  ghost predicate StaysExiting(s: Sched, es: seq<Event>, c: Tid)
    requires Inv(s) && Legal(s, es)
    decreases |es|
  {
    Exiting(View(s.tasks), c) && (es == [] || (StepKeepsInv(s, es[0]); StaysExiting(Step(s, es[0]), es[1..], c)))
  }

  ghost predicate GaveDead(s: Sched, es: seq<Event>, c: Tid)
    requires Inv(s) && Legal(s, es)
    decreases |es|
  {
    es != [] && (GivesDead(View(s.tasks), es[0], s.curr, c)
      || (StepKeepsInv(s, es[0]); GaveDead(Step(s, es[0]), es[1..], c)))
  }

  // The flag by which an exit decides to wake the first task says, in every
  // interleaving, exactly whether the first task has got a dead child from it. A
  // child may die between the two accesses; then it counts as well.
  lemma {:induction false} MovedOnRuns(s: Sched, es: seq<Event>, c: Tid)
    requires HandInv(s) && Legal(s, es) && StaysExiting(s, es, c)
    ensures HandInv(After(s, es)) && Exiting(View(s.tasks), c) && Exiting(View(After(s, es).tasks), c)
    ensures View(After(s, es).tasks)[c].pc.moved == (View(s.tasks)[c].pc.moved || GaveDead(s, es, c))
    decreases |es|
  {
    hide Step, Inv, Legal, Can, After, TreeStep, TreeCan, Tree, View, Exiting, GivesDead, Tickets, LineIsScanners,
         Handed, HandedStays;
    if es == [] {
      AfterNone(s);
    } else {
      LegalHead(s, es);
      StepKeepsHand(s, es[0]);
      StepView(s, es[0]);
      MovedOnRuns(Step(s, es[0]), es[1..], c);
      if s.curr == IDLE {
        IdleStep(s, es[0]);
        IdleGivesNothing(s, es[0], c);
      } else {
        CanOnTree(s, es[0]);
        HandFact(s, c);
        MovedStep(View(s.tasks), Tickets(s, TABLE), es[0], s.curr, c);
      }
    }
  }

  lemma HandFact(s: Sched, c: Tid)
    requires HandInv(s) && Exiting(View(s.tasks), c)
    ensures c < |View(s.tasks)| && Handed(View(s.tasks), Tickets(s, TABLE), c)
  {
    assert s.tasks[c] == s.tasks[c];
  }

  lemma IdleGivesNothing(s: Sched, e: Event, c: Tid)
    requires Inv(s) && Can(s, e) && s.curr == IDLE
    ensures !GivesDead(View(s.tasks), e, s.curr, c)
  {
  }

  lemma BootHand(s: Sched)
    requires Booted(s)
    ensures HandInv(s)
  {
    BootTable(s);
    hide Inv, Tree, LineIsScanners, Tickets, MutexOk;
    forall c: Tid | c < |s.tasks| ensures Handed(View(s.tasks), Tickets(s, TABLE), c) {
      assert View(s.tasks)[c] == NodeOf(s.tasks[c]);
    }
  }
}

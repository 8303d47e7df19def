/** Where every task is: each one that has started, and neither waits for a
    child nor is dead, is on exactly one list, once. */
module Placement {
  import opened Tasks

  ghost predicate Distinct(q: seq<Tid>) {
    forall i, j {:trigger q[i], q[j]} :: 0 <= i < j < |q| ==> q[i] != q[j]
  }

  ghost predicate On(s: Sched, q: Queue, t: Tid) {
    q in s.queues && t in s.queues[q]
  }

  ghost predicate Listed(s: Sched, t: Tid) {
    0 < t < |s.tasks| && s.tasks[t].used && !s.tasks[t].state.Waiting? && !s.tasks[t].state.Zombie?
  }

  ghost predicate Lists(s: Sched) {
    && (forall q {:trigger s.queues[q]} :: q in s.queues ==> Distinct(s.queues[q]))
    && (forall q, p, t {:trigger On(s, q, t), On(s, p, t)} :: On(s, q, t) && On(s, p, t) ==> q == p)
    && (forall t: nat {:trigger On(s, SleepList, t)} :: On(s, SleepList, t) ==>
          t < |s.tasks| && s.tasks[t].sleepTicks > 0)
  }

  ghost predicate Slices(s: Sched) {
    forall t: nat {:trigger s.tasks[t]} :: t < |s.tasks| && s.tasks[t].used ==> 1 <= s.tasks[t].slice <= TIME_SLICE
  }

  // Everyone is placed, except the tasks in `out`, which are between two lists.
  ghost predicate Placed(s: Sched, out: set<Tid>) {
    && Shape(s) && Lists(s) && Slices(s)
    && (forall q, t {:trigger On(s, q, t)} :: On(s, q, t) ==> Listed(s, t) && t !in out)
    && (forall t {:trigger Listed(s, t)} :: Listed(s, t) && t !in out ==> exists q :: On(s, q, t))
  }

  lemma {:induction false} WithoutFacts(q: seq<Tid>, t: Tid)
    requires Distinct(q)
    ensures Distinct(Without(q, t))
    ensures forall x {:trigger x in Without(q, t)} :: x in Without(q, t) <==> x in q && x != t
    ensures q != [] && q[0] == t ==> Without(q, t) == q[1..]
  {
    if q != [] {
      assert q == [q[0]] + q[1..];
      if q[0] != t { WithoutFacts(q[1..], t); }
    }
  }

  lemma PutOn(s: Sched, q: Queue, x: seq<Tid>)
    requires Shape(s) && q in s.queues && Inside(x, |s.tasks|)
    ensures forall p, t {:trigger On(Put(s, q, x), p, t)} :: On(Put(s, q, x), p, t) <==>
      if p == q then t in x else On(s, p, t)
  {
  }

  lemma SameOut(out: set<Tid>, out': set<Tid>, t: Tid)
    requires out - {t} == out' - {t}
    ensures forall u {:trigger u in out} {:trigger u in out'} :: u != t ==> (u in out <==> u in out')
  {
    forall u | u != t ensures u in out <==> u in out' {
      assert u in out - {t} <==> u in out' - {t};
    }
  }

  lemma DistinctMore(q: seq<Tid>, t: Tid)
    requires Distinct(q) && t !in q
    ensures Distinct(q + [t])
  {
  }

  // A new list for q on which only t comes or goes.
  lemma PutPlaced(s: Sched, q: Queue, x: seq<Tid>, t: Tid, out: set<Tid>, out': set<Tid>)
    requires Placed(s, out) && q in s.queues && Inside(x, |s.tasks|) && Distinct(x)
    requires forall u {:trigger u in x} :: u != t ==> (u in x <==> On(s, q, u))
    requires out - {t} == out' - {t}
    requires t in x ==> Listed(s, t) && t !in out' && (q == SleepList ==> s.tasks[t].sleepTicks > 0)
    requires t in x ==> forall p {:trigger On(s, p, t)} :: !On(s, p, t)
    requires t !in x ==> t in out' && On(s, q, t)
    ensures Placed(Put(s, q, x), out')
  {
    var s' := Put(s, q, x);
    PutOn(s, q, x);
    assert forall u {:trigger Listed(s', u)} :: Listed(s', u) == Listed(s, u);
    SameOut(out, out', t);
    forall u | Listed(s', u) && u !in out' ensures exists p :: On(s', p, u) {
      if u == t {
        assert On(s', q, t);
      } else {
        var p :| On(s, p, u);
        assert On(s', p, u);
      }
    }
    forall p, u | On(s', p, u) ensures Listed(s', u) && u !in out' {
      assert u == t || On(s, p, u);
    }
  }

  lemma BlockPlaced(s: Sched, t: Tid)
    requires Placed(s, {}) && On(s, ReadyList, t)
    ensures Placed(SetBlock(s, t), {t})
  {
    WithoutFacts(s.queues[ReadyList], t);
    PutPlaced(s, ReadyList, Without(s.queues[ReadyList], t), t, {}, {t});
  }

  lemma EnqueuePlaced(s: Sched, q: Queue, t: Tid)
    requires Placed(s, {t}) && q in s.queues && Listed(s, t) && (q == SleepList ==> s.tasks[t].sleepTicks > 0)
    ensures Placed(Enqueue(s, q, t), {})
  {
    assert !On(s, q, t);
    DistinctMore(s.queues[q], t);
    PutPlaced(s, q, s.queues[q] + [t], t, {t}, {});
  }

  lemma DequeuePlaced(s: Sched, q: Queue)
    requires Placed(s, {}) && q in s.queues && s.queues[q] != []
    ensures Placed(Dequeue(s, q), {s.queues[q][0]})
  {
    var l := s.queues[q];
    assert l == [l[0]] + l[1..];
    assert On(s, q, l[0]);
    PutPlaced(s, q, l[1..], l[0], {}, {l[0]});
  }

  // A task field changes, not whether the task belongs on a list.
  lemma EditPlaced(s: Sched, t: Tid, x: Task, out: set<Tid>)
    requires Placed(s, out) && t < |s.tasks| && x.parent < |s.tasks|
    requires Listed(SetTask(s, t, x), t) == Listed(s, t) || t in out
    requires x.used ==> 1 <= x.slice <= TIME_SLICE
    requires On(s, SleepList, t) ==> x.sleepTicks > 0
    ensures Placed(SetTask(s, t, x), out)
  {
    var s' := SetTask(s, t, x);
    assert forall q, u {:trigger On(s', q, u)} :: On(s', q, u) == On(s, q, u);
    forall u | Listed(s', u) && u !in out ensures exists q :: On(s', q, u) {
      assert Listed(s, u);
      var q :| On(s, q, u);
      assert On(s', q, u);
    }
  }

  // A task between lists dies or waits for a child.
  lemma SettlePlaced(s: Sched, t: Tid)
    requires Placed(s, {t}) && !Listed(s, t)
    ensures Placed(s, {})
  {
  }

  lemma ReadyPlaced(s: Sched, t: Tid, out: set<Tid>)
    requires Placed(s, out) && 0 < t < |s.tasks| && s.tasks[t].used
    requires t in out || s.tasks[t].state == Waiting
    ensures Placed(SetReady(s, t), out - {t})
  {
    assert forall q {:trigger On(s, q, t)} :: !On(s, q, t);
    var x := s.tasks[t].(state := Ready);
    var a := SetTask(s, t, x);
    AlsoOut(s, t, out);
    EditPlaced(s, t, x, out + {t});
    assert forall q {:trigger On(a, q, t)} :: !On(a, q, t);
    assert !On(s, ReadyList, t);
    DistinctMore(a.queues[ReadyList], t);
    PutPlaced(a, ReadyList, a.queues[ReadyList] + [t], t, out + {t}, out - {t});
    assert SetReady(s, t) == Put(a, ReadyList, a.queues[ReadyList] + [t]);
  }

  lemma AlsoOut(s: Sched, t: Tid, out: set<Tid>)
    requires Placed(s, out) && forall q {:trigger On(s, q, t)} :: !On(s, q, t)
    ensures Placed(s, out + {t})
  {
  }

  lemma DispatchPlaced(s: Sched, out: set<Tid>)
    requires Placed(s, out)
    ensures Placed(Dispatch(s), out)
  {
    var to := Next(s);
    if to != s.curr {
      if to != IDLE { assert On(s, ReadyList, to); }
      var a := s.(curr := to);
      assert forall q, t {:trigger On(a, q, t)} :: On(a, q, t) == On(s, q, t);
      assert forall t {:trigger Listed(a, t)} :: Listed(a, t) == Listed(s, t);
      forall t | Listed(a, t) && t !in out ensures exists q :: On(a, q, t) {
        var q :| On(s, q, t);
        assert On(a, q, t);
      }
      EditPlaced(a, to, a.tasks[to].(state := Running), out);
    }
  }

  // ------------------------------------------------------------ one pass over the sleepers

  lemma {:induction false} SplitDistinct(q: seq<Tid>, tasks: seq<Task>)
    requires Inside(q, |tasks|) && Distinct(q)
    ensures Distinct(Waking(q, tasks)) && Distinct(Staying(q, tasks))
  {
    if q != [] {
      var p, t := q[..|q| - 1], q[|q| - 1];
      assert t !in p;
      SplitDistinct(p, tasks);
      DistinctMore(if tasks[t].sleepTicks == 1 then Waking(p, tasks) else Staying(p, tasks), t);
    }
  }

  lemma JoinDistinct(a: seq<Tid>, b: seq<Tid>)
    requires Distinct(a) && Distinct(b) && forall t :: t in a ==> t !in b
    ensures Distinct(a + b)
  {
    var c := a + b;
    forall i, j | 0 <= i < j < |c| ensures c[i] != c[j] {
      if i < |a| <= j { assert c[i] in a && c[j] in b; }
    }
  }

  lemma PassOn(s: Sched)
    requires Placed(s, {})
    ensures forall p, t {:trigger On(Pass(s), p, t)} :: On(Pass(s), p, t) <==>
      match p
      case SleepList => On(s, SleepList, t) && s.tasks[t].sleepTicks != 1
      case ReadyList => On(s, ReadyList, t) || (On(s, SleepList, t) && s.tasks[t].sleepTicks == 1)
      case _ => On(s, p, t)
    ensures forall t {:trigger Listed(Pass(s), t)} :: Listed(Pass(s), t) == Listed(s, t)
  {
    forall t ensures Listed(Pass(s), t) == Listed(s, t) {
      if t in s.queues[SleepList] { assert On(s, SleepList, t); }
    }
  }

  lemma PassLists(s: Sched)
    requires Placed(s, {})
    ensures Lists(Pass(s))
  {
    var r, q := Pass(s), s.queues[SleepList];
    PassOn(s);
    SplitDistinct(q, s.tasks);
    forall t | t in s.queues[ReadyList] ensures t !in Waking(q, s.tasks) {
      assert On(s, ReadyList, t) && !On(s, SleepList, t);
    }
    JoinDistinct(s.queues[ReadyList], Waking(q, s.tasks));
    forall p | p in r.queues ensures Distinct(r.queues[p]) {
      assert p in s.queues;
    }
    forall t: nat | On(r, SleepList, t) ensures r.tasks[t].sleepTicks > 0 {
      assert On(s, SleepList, t);
    }
  }

  lemma PassSlices(s: Sched)
    requires Placed(s, {})
    ensures Slices(Pass(s))
  {
    hide Lists;
  }

  lemma PassPlaced(s: Sched)
    requires Placed(s, {})
    ensures Placed(Pass(s), {})
  {
    PassOn(s);
    PassLists(s);
    PassSlices(s);
    hide Lists, Pass, Slices, On, Shape;
    var r := Pass(s);
    forall q: Queue, t: Tid | On(r, q, t) ensures Listed(r, t) {
      assert On(s, q, t) || On(s, SleepList, t);
    }
    forall t: Tid | Listed(r, t) ensures exists p :: On(r, p, t) {
      assert Listed(s, t);
      var p :| On(s, p, t);
      var p' := if p == SleepList && s.tasks[t].sleepTicks == 1 then ReadyList else p;
      assert On(r, p', t);
    }
  }
}

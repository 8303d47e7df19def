/** The task manager as an object: task lists made of linked nodes, and methods
    that are each one stretch of kernel code with interrupts off, proved against
    the operation they stand for. */
module TaskManager {
  import opened Tasks
  import opened Placement
  import opened Scheduler
  import opened SchedulerRuns
  import opened Locks
  import opened Semaphores
  import PT = ProcessTree
  import L = Lists

  // ------------------------------------------------------------ the nodes of the lists

  // Ready and sleep list share one node of a task, the lists of mutexes and
  // semaphores the other.
  function NodeFor(run: seq<L.Node>, wait: seq<L.Node>, q: Queue, t: Tid): L.Node
    requires t < |run| && t < |wait|
  {
    if q == ReadyList || q == SleepList then run[t] else wait[t]
  }

  // One list for each queue and two nodes for each task, none of them twice.
  ghost predicate Storage(lists: map<Queue, L.List>, run: seq<L.Node>, wait: seq<L.Node>) {
    && |run| == |wait|
    && (forall t: Tid {:trigger run[t]} :: t < |run| ==> run[t].owner == t)
    && (forall t: Tid {:trigger wait[t]} :: t < |wait| ==> wait[t].owner == t)
    && (forall t: Tid, u: Tid {:trigger run[t], wait[u]} :: t < |run| && u < |wait| ==> run[t] != wait[u])
    && (forall p, q {:trigger lists[p], lists[q]} :: p in lists && q in lists && p != q ==> lists[p] != lists[q])
  }

  ghost function Objects(lists: map<Queue, L.List>, run: seq<L.Node>, wait: seq<L.Node>): (r: set<object>) {
    (set q | q in lists :: lists[q] as object) + (set n | n in run :: n as object) + (set n | n in wait :: n as object)
  }

  // Nodes of the tasks ts, in this order, for the list at q.
  ghost predicate Spelt(nodes: seq<L.Node>, run: seq<L.Node>, wait: seq<L.Node>, q: Queue, ts: seq<Tid>) {
    && |run| == |wait| && |nodes| == |ts|
    && forall i {:trigger nodes[i]} {:trigger ts[i]} :: 0 <= i < |ts| ==>
         ts[i] < |run| && nodes[i] == NodeFor(run, wait, q, ts[i])
  }

  // The list at q is in order, spells out ts, and lies within repr.
  ghost predicate ListOk(list: L.List, run: seq<L.Node>, wait: seq<L.Node>, q: Queue, ts: seq<Tid>, repr: set<object>)
    reads list, list.nodes
  {
    && list in repr && (forall n :: n in list.nodes ==> n in repr)
    && Spelt(list.nodes, run, wait, q, ts) && list.Valid()
  }

  // Nobody is on a list twice or on two lists.
  ghost predicate Apart(qs: map<Queue, seq<Tid>>) {
    && (forall q {:trigger qs[q]} :: q in qs ==> Distinct(qs[q]))
    && (forall q, p, t {:trigger t in qs[q], t in qs[p]} :: q in qs && p in qs && t in qs[q] && t in qs[p] ==> q == p)
  }

  ghost predicate Nowhere(qs: map<Queue, seq<Tid>>, t: Tid) {
    forall q {:trigger qs[q]} :: q in qs ==> t !in qs[q]
  }

  lemma ApartMore(qs: map<Queue, seq<Tid>>, q: Queue, t: Tid)
    requires Apart(qs) && q in qs && Nowhere(qs, t)
    ensures Apart(qs[q := qs[q] + [t]])
  {
    DistinctMore(qs[q], t);
  }

  lemma ApartLess(qs: map<Queue, seq<Tid>>, q: Queue, t: Tid)
    requires Apart(qs) && q in qs && (qs[q] != [] ==> t in qs[q])
    ensures Apart(qs[q := Without(qs[q], t)]) && Distinct(qs[q])
      && (qs[q] != [] ==> Nowhere(qs[q := Without(qs[q], t)], t))
  {
    WithoutFacts(qs[q], t);
  }

  lemma {:induction false} WithoutAt(q: seq<Tid>, k: nat)
    requires Distinct(q) && k < |q|
    ensures Without(q, q[k]) == q[..k] + q[k + 1..]
    decreases k
  {
    if k == 0 {
      assert q[..0] + q[1..] == q[1..];
    } else {
      assert q == [q[0]] + q[1..] && q[k] == q[1..][k - 1];
      WithoutAt(q[1..], k - 1);
      assert q[..k] + q[k + 1..] == [q[0]] + (q[1..][..k - 1] + q[1..][k..]);
    }
  }

  lemma NotAmong(k: Kernel, lists: map<Queue, L.List>, run: seq<L.Node>, wait: seq<L.Node>)
    ensures k !in Objects(lists, run, wait)
  {
  }

  // Two lists have no node in common.
  ghost predicate Foreign(a: seq<L.Node>, b: seq<L.Node>) {
    forall i, j {:trigger a[i], b[j]} :: 0 <= i < |a| && 0 <= j < |b| ==> a[i] != b[j]
  }

  lemma ForeignIsOut(n: L.Node, a: seq<L.Node>)
    requires Foreign([n], a)
    ensures n !in a
  {
    assert [n][0] == n;
  }

  lemma SpeltHas(nodes: seq<L.Node>, run: seq<L.Node>, wait: seq<L.Node>, q: Queue, ts: seq<Tid>, t: Tid)
    requires Spelt(nodes, run, wait, q, ts) && t < |run|
    ensures t in ts ==> NodeFor(run, wait, q, t) in nodes
    ensures nodes == [] <==> ts == []
  {
    if t in ts {
      var i :| 0 <= i < |ts| && ts[i] == t;
      assert nodes[i] == NodeFor(run, wait, q, t);
    }
  }

  lemma WithoutHead(qs: map<Queue, seq<Tid>>, q: Queue)
    requires Apart(qs) && q in qs && qs[q] != []
    ensures Without(qs[q], qs[q][0]) == qs[q][1..] && qs[q][0] in qs[q]
  {
  }

  lemma Removed(list: L.List, run: seq<L.Node>, wait: seq<L.Node>, q: Queue, nodes: seq<L.Node>, ts: seq<Tid>, t: Tid,
                repr: set<object>)
    requires list in repr && list.Valid() && Spelt(nodes, run, wait, q, ts) && Distinct(ts) && t < |run|
      && (ts != [] ==> t in ts)
    requires forall k :: 0 <= k < |nodes| && nodes[k] == NodeFor(run, wait, q, t) ==>
      list.nodes == nodes[..k] + nodes[k + 1..]
    requires nodes == [] ==> list.nodes == []
    requires forall n :: n in nodes ==> n in repr
    ensures ListOk(list, run, wait, q, Without(ts, t), repr)
  {
    hide L.List.Valid;
    if ts != [] {
      var k :| 0 <= k < |ts| && ts[k] == t;
      WithoutAt(ts, k);
      assert nodes[k] == NodeFor(run, wait, q, t);
      SpeltWithout(nodes, run, wait, q, ts, k);
      hide Spelt, Without, Distinct;
      assert forall n :: n in nodes[..k] + nodes[k + 1..] ==> n in nodes;
    }
  }

  lemma SpeltWithout(nodes: seq<L.Node>, run: seq<L.Node>, wait: seq<L.Node>, q: Queue, ts: seq<Tid>, k: nat)
    requires Spelt(nodes, run, wait, q, ts) && k < |ts|
    ensures Spelt(nodes[..k] + nodes[k + 1..], run, wait, q, ts[..k] + ts[k + 1..])
  {
    var r, us := nodes[..k] + nodes[k + 1..], ts[..k] + ts[k + 1..];
    forall i | 0 <= i < |us| ensures us[i] < |run| && r[i] == NodeFor(run, wait, q, us[i]) {
      if i < k { assert r[i] == nodes[i]; } else { assert r[i] == nodes[i + 1] && us[i] == ts[i + 1]; }
    }
  }

  lemma Beheaded(list: L.List, run: seq<L.Node>, wait: seq<L.Node>, q: Queue, nodes: seq<L.Node>, ts: seq<Tid>,
                 repr: set<object>)
    requires list in repr && list.Valid() && Spelt(nodes, run, wait, q, ts) && ts != [] && list.nodes == nodes[1..]
    requires forall n :: n in nodes ==> n in repr
    ensures ListOk(list, run, wait, q, ts[1..], repr)
  {
    forall i | 0 <= i < |ts[1..]| ensures ts[1..][i] < |run| && nodes[1..][i] == NodeFor(run, wait, q, ts[1..][i]) {
      assert nodes[i + 1] == NodeFor(run, wait, q, ts[i + 1]);
    }
  }

  lemma ApartElements(qs: map<Queue, seq<Tid>>, p: Queue, q: Queue)
    requires Apart(qs) && p in qs && q in qs && p != q
    ensures forall i, j {:trigger qs[p][i], qs[q][j]} :: 0 <= i < |qs[p]| && 0 <= j < |qs[q]| ==> qs[p][i] != qs[q][j]
  {
    forall i, j | 0 <= i < |qs[p]| && 0 <= j < |qs[q]| ensures qs[p][i] != qs[q][j] {
      assert qs[p][i] in qs[p] && qs[q][j] in qs[q];
    }
  }

  lemma Appended(list: L.List, run: seq<L.Node>, wait: seq<L.Node>, q: Queue, nodes: seq<L.Node>, ts: seq<Tid>, t: Tid,
                 repr: set<object>)
    requires list in repr && list.Valid() && Spelt(nodes, run, wait, q, ts) && t < |run|
    requires list.nodes == nodes + [NodeFor(run, wait, q, t)]
    requires forall n :: n in list.nodes ==> n in repr
    ensures ListOk(list, run, wait, q, ts + [t], repr)
  {
  }

  class Kernel {
    const lists: map<Queue, L.List>
    const runNodes: seq<L.Node>
    const waitNodes: seq<L.Node>
    var tasks: seq<Task>
    var currTask: Tid
    var mutexes: map<nat, Mutex>
    var sems: map<nat, int>
    ghost const repr: set<object>
    ghost var queues: map<Queue, seq<Tid>>     // what the lists spell out

    // What task_manager_init and task_first_init leave in the zeroed memory of the
    // lists and nodes: only the first task runs.
    constructor (slots: nat, mutexes: set<nat>, sems: map<nat, int>, lists: map<Queue, L.List>,
                 runNodes: seq<L.Node>, waitNodes: seq<L.Node>)
      requires TABLE in mutexes && Storage(lists, runNodes, waitNodes) && |runNodes| == SLOT0 + slots
      requires forall q {:trigger q in lists} :: q in lists <==>
        q == ReadyList || q == SleepList || (q.MutexList? && q.m in mutexes) || (q.SemList? && q.k in sems)
      requires forall q {:trigger lists[q]} :: q in lists ==> lists[q].Valid() && lists[q].nodes == []
      modifies Objects(lists, runNodes, waitNodes)
      ensures Valid() && Booted(S()) && |tasks| == SLOT0 + slots
      ensures this.mutexes.Keys == mutexes && this.sems == sems
    {
      hide Linked, Apart, Nowhere, Storage, Objects, Booted, AlmostBooted, L.List.Valid, Shape;
      this.lists, this.runNodes, this.waitNodes := lists, runNodes, waitNodes;
      this.repr := Objects(lists, runNodes, waitNodes);
      this.queues := map q | q in lists :: [];
      this.tasks := [FREE.(used := true, slice := TIME_SLICE),
                     FREE.(used := true, slice := TIME_SLICE, pid := FIRST)] + seq(slots, i => FREE);
      this.currTask := FIRST;
      this.mutexes := map m | m in mutexes :: Mutex(0, NONE);
      this.sems := sems;
      new;
      NotAmong(this, lists, runNodes, waitNodes);
      Zeroed(queues, tasks, slots, this.mutexes, sems);
      StartsLinked();
      StartFirst();
    }

    // task_start for the first task
    method StartFirst()
      requires this !in repr && Linked(queues) && Apart(queues) && Nowhere(queues, FIRST) && |tasks| == |runNodes|
      requires AlmostBooted(S())
      modifies this`queues, this`tasks, repr
      ensures Valid() && Booted(S()) && |tasks| == |runNodes|
    {
      hide Linked, Apart, Nowhere, AlmostBooted, Shape, SetReady, Booted;
      FirstGetsReady(S());
      TaskSetReady(FIRST);
    }

    // Empty lists, and nobody anywhere.
    lemma StartsLinked()
      requires this !in repr && repr == Objects(lists, runNodes, waitNodes) && Storage(lists, runNodes, waitNodes)
      requires queues.Keys == lists.Keys && forall q {:trigger lists[q]} {:trigger queues[q]} :: q in lists ==>
        lists[q].Valid() && lists[q].nodes == [] && queues[q] == []
      ensures Linked(queues) && Apart(queues) && forall t :: Nowhere(queues, t)
    {
    }

    ghost function S(): Sched
      reads this
    {
      Sched(queues, tasks, currTask, mutexes, sems)
    }

    // The lists spell out qs.
    ghost predicate Linked(qs: map<Queue, seq<Tid>>)
      reads repr
    {
      && this !in repr && repr == Objects(lists, runNodes, waitNodes) && Storage(lists, runNodes, waitNodes)
      && qs.Keys == lists.Keys
      && (forall q {:trigger lists[q]} :: q in lists ==> lists[q] in repr)
      && (forall q {:trigger lists[q]} :: q in lists ==> forall n :: n in lists[q].nodes ==> n in repr)
      && (forall q {:trigger qs[q]} {:trigger lists[q]} :: q in lists ==>
            ListOk(lists[q], runNodes, waitNodes, q, qs[q], repr))
    }

    ghost predicate Valid()
      reads this, repr
    {
      this !in repr && Linked(queues) && Apart(queues) && Shape(S()) && |tasks| == |runNodes|
    }

    // ---------------------------------------------------------- linking and unlinking

    // list_insert_last
    method Link(q: Queue, t: Tid)
      requires Linked(queues) && Apart(queues) && q in lists && t < |runNodes| && Nowhere(queues, t)
      modifies this`queues, repr
      ensures queues == old(queues)[q := old(queues)[q] + [t]]
      ensures Linked(queues) && Apart(queues)
    {
      hide ListOk, Storage, Objects, Apart, Nowhere, Spelt, Without, Distinct, L.List.Valid;
      ghost var qs := queues;
      LinkFrame(q, t);
      var node := NodeFor(runNodes, waitNodes, q, t);
      ghost var nodes := lists[q].nodes;
      lists[q].InsertLast(node);
      queues := queues[q := queues[q] + [t]];
      ApartMore(qs, q, t);
      Appended(lists[q], runNodes, waitNodes, q, nodes, qs[q], t, repr);
      forall p | p in lists && p != q ensures ListOk(lists[p], runNodes, waitNodes, p, queues[p], repr) {
        assert old(ListOk(lists[p], runNodes, waitNodes, p, qs[p], repr));
        assert Foreign([node], lists[p].nodes);
      }
    }

    // list_remove: t must be on the list, unless that is empty
    method Unlink(q: Queue, t: Tid)
      requires Linked(queues) && Apart(queues) && q in lists && t < |runNodes| && (queues[q] != [] ==> t in queues[q])
      modifies this`queues, repr
      ensures queues == old(queues)[q := Without(old(queues)[q], t)]
      ensures Linked(queues) && Apart(queues) && (old(queues)[q] != [] ==> Nowhere(queues, t))
    {
      hide ListOk, Storage, Objects, Apart, Nowhere, Spelt, Without, Distinct, L.List.Valid;
      ghost var qs := queues;
      UnlinkFrame(q);
      NodeIs(q, t);
      SpeltHas(lists[q].nodes, runNodes, waitNodes, q, queues[q], t);
      var node := NodeFor(runNodes, waitNodes, q, t);
      ghost var nodes := lists[q].nodes;
      var _ := lists[q].Remove(node);
      queues := queues[q := Without(queues[q], t)];
      ApartLess(qs, q, t);
      Removed(lists[q], runNodes, waitNodes, q, nodes, qs[q], t, repr);
      forall p | p in lists && p != q ensures ListOk(lists[p], runNodes, waitNodes, p, queues[p], repr) {
        assert old(ListOk(lists[p], runNodes, waitNodes, p, qs[p], repr));
      }
    }

    // list_remove_first on a list that is not empty
    method UnlinkFirst(q: Queue) returns (t: Tid)
      requires Linked(queues) && Apart(queues) && q in lists && queues[q] != []
      modifies this`queues, repr
      ensures t == old(queues)[q][0] && t < |runNodes| && queues == old(queues)[q := old(queues)[q][1..]]
      ensures Linked(queues) && Apart(queues) && Nowhere(queues, t)
    {
      hide ListOk, Storage, Objects, Apart, Nowhere, Spelt, Without, Distinct, L.List.Valid;
      ghost var qs := queues;
      UnlinkFrame(q);
      OwnersAre(q);
      ghost var nodes := lists[q].nodes;
      var node := lists[q].RemoveFirst();
      t := node.owner;
      assert t == qs[q][0];
      queues := queues[q := queues[q][1..]];
      WithoutHead(qs, q);
      ApartLess(qs, q, t);
      Beheaded(lists[q], runNodes, waitNodes, q, nodes, qs[q], repr);
      forall p | p in lists && p != q ensures ListOk(lists[p], runNodes, waitNodes, p, queues[p], repr) {
        assert old(ListOk(lists[p], runNodes, waitNodes, p, qs[p], repr));
      }
    }

    lemma UnlinkFrame(q: Queue)
      requires Linked(queues) && Apart(queues) && q in lists
      ensures |waitNodes| == |runNodes| && lists[q] in repr && lists[q].Valid()
      ensures forall n :: n in lists[q].nodes ==> n in repr
      ensures forall p {:trigger lists[p]} :: p in lists && p != q ==>
        lists[p] != lists[q] && Foreign(lists[q].nodes, lists[p].nodes)
      ensures Spelt(lists[q].nodes, runNodes, waitNodes, q, queues[q])
    {
      hide ListOk, Objects, Foreign;
      OwnersAre(q);
      hide Spelt;
      forall p | p in lists && p != q ensures lists[p] != lists[q] && Foreign(lists[q].nodes, lists[p].nodes) {
        ListsForeign(p, q);
      }
    }

    lemma OwnersAre(q: Queue)
      requires Linked(queues) && q in lists
      ensures lists[q] in repr && lists[q].Valid() && |lists[q].nodes| == |queues[q]|
      ensures forall n :: n in lists[q].nodes ==> n in repr
      ensures forall i {:trigger lists[q].nodes[i]} {:trigger queues[q][i]} :: 0 <= i < |queues[q]| ==>
        queues[q][i] < |runNodes| && lists[q].nodes[i].owner == queues[q][i]
      ensures Spelt(lists[q].nodes, runNodes, waitNodes, q, queues[q])
    {
      assert ListOk(lists[q], runNodes, waitNodes, q, queues[q], repr);
      forall i | 0 <= i < |queues[q]| ensures queues[q][i] < |runNodes| && lists[q].nodes[i].owner == queues[q][i] {
        var t := queues[q][i];
        assert runNodes[t].owner == t && waitNodes[t].owner == t;
      }
    }

    lemma NodeIs(q: Queue, t: Tid)
      requires Linked(queues) && q in lists && t < |runNodes|
      ensures |waitNodes| == |runNodes| && NodeFor(runNodes, waitNodes, q, t) in repr
        && NodeFor(runNodes, waitNodes, q, t).owner == t
    {
      assert runNodes[t].owner == t && waitNodes[t].owner == t;
      assert runNodes[t] in runNodes && waitNodes[t] in waitNodes;
    }

    lemma ListsForeign(p: Queue, q: Queue)
      requires Linked(queues) && Apart(queues) && p in lists && q in lists && p != q
      ensures lists[p] != lists[q] && Foreign(lists[q].nodes, lists[p].nodes)
    {
      hide Linked, ListOk, Apart, Spelt;
      DifferentLists(p, q);
      OwnersAre(p);
      OwnersAre(q);
      ApartElements(queues, p, q);
    }

    lemma DifferentLists(p: Queue, q: Queue)
      requires Linked(queues) && p in lists && q in lists && p != q
      ensures lists[p] != lists[q] && p in queues && q in queues
    {
      hide ListOk;
    }

    lemma NodeForeign(p: Queue, q: Queue, t: Tid)
      requires Linked(queues) && p in lists && q in lists && t < |runNodes| && p in queues && t !in queues[p]
      ensures |waitNodes| == |runNodes| && Foreign([NodeFor(runNodes, waitNodes, q, t)], lists[p].nodes)
    {
      hide Linked, ListOk, Apart, Spelt;
      NodeIs(q, t);
      OwnersAre(p);
    }

    // The node of t, and those of list q, are not in any other list.
    lemma LinkFrame(q: Queue, t: Tid)
      requires Linked(queues) && Apart(queues) && q in lists && t < |runNodes| && Nowhere(queues, t)
      ensures |waitNodes| == |runNodes| && NodeFor(runNodes, waitNodes, q, t) in repr && lists[q] in repr
        && lists[q].Valid()
      ensures forall n :: n in lists[q].nodes ==> n in repr
      ensures NodeFor(runNodes, waitNodes, q, t) !in lists[q].nodes
      ensures forall p {:trigger lists[p]} :: p in lists ==>
        Foreign([NodeFor(runNodes, waitNodes, q, t)], lists[p].nodes)
      ensures forall p {:trigger lists[p]} :: p in lists && p != q ==>
        lists[p] != lists[q] && Foreign(lists[q].nodes, lists[p].nodes)
      ensures Spelt(lists[q].nodes, runNodes, waitNodes, q, queues[q])
    {
      hide ListOk, Objects, Spelt, Storage, Foreign;
      NodeIs(q, t);
      OwnersAre(q);
      forall p | p in lists
        ensures Foreign([NodeFor(runNodes, waitNodes, q, t)], lists[p].nodes)
        ensures p != q ==> lists[p] != lists[q] && Foreign(lists[q].nodes, lists[p].nodes)
      {
        NodeForeign(p, q, t);
        if p != q { ListsForeign(p, q); }
      }
      ForeignIsOut(NodeFor(runNodes, waitNodes, q, t), lists[q].nodes);
    }

    // list_first and list_node_next
    method FirstNode(q: Queue) returns (n: L.Node?)
      requires Linked(queues) && q in lists
      ensures NodeAt(q, 0, n)
    {
      OwnersAre(q);
      n := lists[q].first;
    }

    method NodeBehind(q: Queue, ghost i: nat, node: L.Node) returns (n: L.Node?)
      requires Linked(queues) && q in lists && i < |queues[q]| && NodeAt(q, i, node)
      ensures NodeAt(q, i + 1, n)
    {
      OwnersAre(q);
      assert lists[q].nodes[i] == node;
      n := node.next;
    }

    // n is the node of the task at place i of queue q, or null behind the last one.
    ghost predicate NodeAt(q: Queue, i: nat, n: L.Node?)
      reads this`queues
    {
      && q in queues && |waitNodes| == |runNodes|
      && if i < |queues[q]| then queues[q][i] < |runNodes| && n == NodeFor(runNodes, waitNodes, q, queues[q][i])
           else n == null
    }

    // ---------------------------------------------------------- lists and dispatch

    // The node of t is linked in behind all others of the ready list.
    method TaskSetReady(t: Tid)
      requires Valid() && t < |tasks| && (t != IDLE ==> Nowhere(queues, t))
      modifies this`queues, this`tasks, repr
      ensures Valid() && S() == SetReady(old(S()), t)
      ensures t != IDLE ==>
        && queues == old(queues)[ReadyList := old(queues[ReadyList]) + [t]]
        && tasks == old(tasks)[t := old(tasks[t]).(state := Ready)]
    {
      hide Linked, Apart, Nowhere;
      if t == IDLE {
        return;
      }
      InLists(ReadyList);
      Link(ReadyList, t);
      tasks := tasks[t := tasks[t].(state := Ready)];
    }

    // The node of t leaves the ready list.
    method TaskSetBlock(t: Tid)
      requires Valid() && t < |tasks| && (t != IDLE && queues[ReadyList] != [] ==> t in queues[ReadyList])
      modifies this`queues, repr
      ensures Valid() && S() == SetBlock(old(S()), t)
      ensures t != IDLE && old(queues[ReadyList]) != [] ==> Nowhere(queues, t)
    {
      hide Linked, Apart, Nowhere, Without;
      if t == IDLE {
        return;
      }
      InLists(ReadyList);
      Unlink(ReadyList, t);
    }

    lemma InLists(q: Queue)
      requires Linked(queues) && q in queues
      ensures q in lists && repr == Objects(lists, runNodes, waitNodes) && this !in repr && |waitNodes| == |runNodes|
    {
    }

    method TaskNextRun() returns (t: Tid)
      requires Valid()
      ensures t == Next(S()) && t < |tasks|
    {
      hide Apart;
      OwnersAre(ReadyList);
      hide Linked;
      if lists[ReadyList].count == 0 {
        return IDLE;
      }
      return lists[ReadyList].first.owner;
    }

    // The task of the first node of the ready list runs, idle when there is none.
    method TaskDispatch()
      requires Valid()
      modifies this`currTask, this`tasks
      ensures Valid() && S() == Dispatch(old(S())) && queues == old(queues)
      ensures currTask == (if queues[ReadyList] == [] then IDLE else queues[ReadyList][0])
      ensures currTask != old(currTask) ==> tasks[currTask].state == Running
    {
      hide Linked, Apart;
      var to := TaskNextRun();
      if to != currTask {
        currTask := to;
        tasks := tasks[to := tasks[to].(state := Running)];
      }
    }

    // What every call that can switch tasks finds: the current task is the first on
    // the ready list, or idle.
    ghost predicate Runs()
      reads this, repr
    {
      Valid() && Placed(S(), {}) && currTask == Next(S())
    }

    // With others ready, the current task goes behind all of them and the one that
    // was second runs.
    method SysSchedYield()
      requires Runs()
      modifies this`queues, this`tasks, this`currTask, repr
      ensures Runs() && S() == Yielded(old(S()))
      ensures if old(|queues[ReadyList]|) > 1
        then currTask == old(queues[ReadyList])[1] && queues[ReadyList] == old(queues[ReadyList])[1..] + [old(currTask)]
        else S() == old(S())
    {
      hide Linked, Apart, Nowhere, Placed, Dispatch, SetReady, SetBlock;
      ghost var s := S();
      YieldPlaced(s);
      YieldTurns(s);
      InLists(ReadyList);
      OwnersAre(ReadyList);
      if lists[ReadyList].count > 1 {
        var c := currTask;
        HeadBlocks(s);
        TaskSetBlock(c);
        TaskSetReady(c);
        TaskDispatch();
      }
    }

    // ---------------------------------------------------------- sleep and tick

    // The node the ready list had is linked into the sleep list.
    method TaskSetSleep(t: Tid, ticks: nat)
      requires Valid() && t < |tasks| && Nowhere(queues, t)
      modifies this`queues, this`tasks, repr
      ensures Valid() && S() == SetSleep(old(S()), t, ticks)
      ensures ticks == 0 ==> S() == old(S())
    {
      hide Linked, Apart, Nowhere;
      if ticks == 0 {
        return;
      }
      tasks := tasks[t := tasks[t].(sleepTicks := ticks, state := Sleep)];
      InLists(SleepList);
      Link(SleepList, t);
    }

    // The current task is last on the sleep list, with the milliseconds rounded up
    // to ticks, and the next one runs; with no ticks it is on no list at all.
    method SysSleep(ms: nat)
      requires Runs() && currTask != IDLE
      modifies this`queues, this`tasks, this`currTask, repr
      ensures Valid() && S() == Slept(old(S()), ms) && currTask == Next(S())
      ensures if SleepTicks(ms) > 0
        then Runs() && queues[SleepList] == old(queues[SleepList]) + [old(currTask)]
             && queues[ReadyList] == old(queues[ReadyList])[1..]
             && tasks[old(currTask)] == old(tasks[currTask]).(sleepTicks := SleepTicks(ms), state := Sleep)
        else Nowhere(queues, old(currTask))
    {
      hide Linked, Apart, Nowhere, Placed, Dispatch, SetSleep, SetBlock, SleepTicks;
      ghost var s := S();
      var c := currTask;
      HeadBlocks(s);
      SleptLists(s, ms);
      TaskSetBlock(c);
      TaskSetSleep(c, SleepTicks(ms));
      TaskDispatch();
    }

    // The loop over the sleep list: who reaches zero leaves it for the end of the
    // ready list. The next node is fetched before the current one moves.
    method SleepPass()
      requires Valid() && Placed(S(), {})
      modifies this`queues, this`tasks, repr
      ensures Valid() && S() == Pass(old(S()))
    {
      hide Placed, Shape, SleepingTasks, QueuesAt, AllAged, Waking, Staying, Without, SetReady, Pass, Inside, KeysKept,
           Distinct, Aged, Linked, Apart, Nowhere;
      ghost var s := S();
      SleepersReal(s);
      PassingEnds(s);
      ghost var q := queues[SleepList];
      InLists(SleepList);
      var curr := FirstNode(SleepList);
      ghost var i := 0;
      while curr != null
        invariant i <= |q| && Valid() && PassAt(s, i)
        invariant if i < |q| then q[i] < |runNodes| && curr == runNodes[q[i]] else curr == null
        decreases |q| - i
      {
        curr := SleepTurn(curr, s, i);
        i := i + 1;
      }
    }

    // i sleepers of the state s have been dealt with.
    ghost predicate PassAt(s: Sched, i: nat)
      reads this
    {
      && SleepingTasks(s) && SleepList in s.queues && i <= |s.queues[SleepList]|
      && |waitNodes| == |runNodes| == |s.tasks|
      && S() == s.(tasks := AllAged(s.tasks, s.queues[SleepList][..i]), queues := QueuesAt(s, i))
    }

    // One turn: a tick less, and off to the ready list when none is left.
    method SleepTurn(curr: L.Node, ghost s: Sched, ghost i: nat) returns (next: L.Node?)
      requires Valid() && PassAt(s, i) && i < |s.queues[SleepList]|
      requires s.queues[SleepList][i] < |runNodes| && curr == runNodes[s.queues[SleepList][i]]
      modifies this`queues, this`tasks, repr
      ensures Valid() && PassAt(s, i + 1)
      ensures var q := s.queues[SleepList];
        if i + 1 < |q| then q[i + 1] < |runNodes| && next == runNodes[q[i + 1]] else next == null
    {
      hide Placed, Shape, SleepingTasks, QueuesAt, AllAged, Waking, Staying, Without, SetReady, Inside, KeysKept,
           Distinct, Aged, Linked, Apart, Nowhere;
      ghost var k := PassingPlace(s, i);
      InLists(SleepList);
      next := NodeBehind(SleepList, k, curr);
      var t := curr.owner;
      NodeIs(SleepList, s.queues[SleepList][i]);
      PassingTasks(s, i);
      PassingQueues(s, i);
      ghost var a, x := tasks, tasks[t];
      AgedTask(x);
      FieldsChange(S(), t, x.(sleepTicks := x.sleepTicks - 1));
      tasks := tasks[t := tasks[t].(sleepTicks := tasks[t].sleepTicks - 1)];
      if tasks[t].sleepTicks == 0 {
        ListShrinks(S(), SleepList, t);
        Unlink(SleepList, t);
        TaskSetReady(t);
        assert tasks == a[t := x.(sleepTicks := 0)][t := Aged(x)] == a[t := Aged(x)];
      }
    }

    // One tick of the current slice; with the last one the task goes behind all
    // others.
    method SliceRound()
      requires Runs() && tasks[currTask].used
      modifies this`queues, this`tasks, this`currTask, repr
      ensures Runs() && S() == SliceTick(old(S()))
    {
      hide Shape, Dispatch, SetReady, SetBlock, Placed, Next, Linked, Apart, Nowhere;
      ghost var s := S();
      SliceTickPlaced(s);
      HeadBlocks(s);
      var c := currTask;
      FieldsChange(s, c, s.tasks[c].(slice := s.tasks[c].slice - 1));
      tasks := tasks[c := tasks[c].(slice := tasks[c].slice - 1)];
      if tasks[c].slice == 0 {
        FieldsChange(s, c, s.tasks[c].(slice := TIME_SLICE));
        tasks := tasks[c := tasks[c].(slice := TIME_SLICE)];
        assert tasks == s.tasks[c := s.tasks[c].(slice := TIME_SLICE)];
        TaskSetBlock(c);
        TaskSetReady(c);
        TaskDispatch();
      }
    }

    // A tick: the slice, and then the pass over the sleepers, unless the task has
    // been switched away; it makes the pass when it runs again.
    method TaskTimeTick()
      requires Valid() && Inv(S())
      modifies this`queues, this`tasks, this`currTask, repr
      ensures Valid() && S() == Ticked(old(S())) && Placed(S(), {})
      ensures var s := old(S()); Shape(s) && (SliceTick(s).curr != s.curr ==> S().tasks[s.curr].inTick)
    {
      hide Inv, Shape, Dispatch, SetReady, SetBlock, Pass, Placed, Next, Linked, Apart, SliceTick;
      ghost var s := S();
      InvFacts(s);
      TickPlaced(s);
      var c := currTask;
      SliceRound();
      if currTask != c {
        FieldsChange(S(), c, tasks[c].(inTick := true));
        tasks := tasks[c := tasks[c].(inTick := true)];
        return;
      }
      SleepPass();
      TaskDispatch();
    }

    // What is left of a tick for a task that was switched away in it.
    method RestOfTick()
      requires Valid() && Inv(S())
      modifies this`queues, this`tasks, this`currTask, repr
      ensures Valid() && S() == Rested(old(S())) && Placed(S(), {})
    {
      hide Inv, Dispatch, Pass, Placed, Shape, Linked, Apart, Next;
      InvFacts(S());
      RestPlaced(S());
      InTickCleared(S());
      FieldsChange(S(), currTask, tasks[currTask].(inTick := false));
      tasks := tasks[currTask := tasks[currTask].(inTick := false)];
      SleepPass();
      TaskDispatch();
    }

    // ---------------------------------------------------------- mutex and semaphore

    // The current task asks for a ticket: it owns the mutex, holds it one deeper, or
    // is the last in the line and another task runs.
    method MutexLock(m: nat)
      requires Runs() && currTask != IDLE && MutexThere(S(), m)
      modifies this`queues, this`tasks, this`currTask, this`mutexes, repr
      ensures Runs() && S() == Locked(old(S()), m) && Did(old(S()), S(), m, Asks)
    {
      hide Linked, Apart, Nowhere, Placed, Dispatch, SetBlock, Did, MutexOk;
      ghost var s := S();
      HeadBlocks(s);
      LockPlaced(s, m);
      LockTickets(s, m);
      var c, x := currTask, mutexes[m];
      if x.count == 0 {
        mutexes := mutexes[m := Mutex(x.count + 1, c)];
      } else if x.owner == c {
        mutexes := mutexes[m := x.(count := x.count + 1)];
      } else {
        TaskSetBlock(c);
        InLists(MutexList(m));
        Link(MutexList(m), c);
        TaskDispatch();
      }
    }

    // The owner gives a level back, and with the last one its ticket: the next in
    // the line owns the mutex. Another task's call does nothing.
    method MutexUnlock(m: nat)
      requires Runs() && currTask != IDLE && MutexThere(S(), m)
      modifies this`queues, this`tasks, this`currTask, this`mutexes, repr
      ensures Runs() && S() == Unlocked(old(S()), m) && Did(old(S()), S(), m, Gives)
    {
      hide Linked, Apart, Nowhere, Placed, Shape, Dispatch, SetReady, Dequeue, KeysKept, Did, MutexOk;
      ghost var s := S();
      ShapeFacts(s);
      UnlockPlaced(s, m);
      UnlockTickets(s, m);
      HandedOver(s, m);
      var c, x := currTask, mutexes[m];
      if x.owner == c {
        mutexes := mutexes[m := x.(count := x.count - 1)];
        if mutexes[m].count == 0 {
          mutexes := mutexes[m := Mutex(0, NONE)];
          InLists(MutexList(m));
          OwnersAre(MutexList(m));
          MutexesAside(s, mutexes);
          if lists[MutexList(m)].count > 0 {
            assert mutexes == s.mutexes[m := Mutex(0, NONE)];
            HandOver(m);
          }
        }
      }
      assert S() == Unlocked(s, m);
    }

    // The first waiter gets ready and owns the mutex.
    method HandOver(m: nat)
      requires Valid() && m in mutexes && MutexList(m) in queues && queues[MutexList(m)] != []
      modifies this`queues, this`tasks, this`currTask, this`mutexes, repr
      ensures Valid()
      ensures var s := old(S()); var w := s.queues[MutexList(m)];
        w[0] < |s.tasks|
        && S() == Dispatch(SetReady(Dequeue(s, MutexList(m)), w[0]).(mutexes := s.mutexes[m := Mutex(1, w[0])]))
    {
      hide Linked, Apart, Nowhere, Shape, Dispatch, SetReady, Dequeue, KeysKept;
      ghost var s := S();
      InLists(MutexList(m));
      HeadThere(s, MutexList(m));
      var t := UnlinkFirst(MutexList(m));
      TaskSetReady(t);
      MutexesAside(S(), s.mutexes[m := Mutex(1, t)]);
      mutexes := mutexes[m := Mutex(1, t)];
      TaskDispatch();
    }

    // A token is taken, or the current task is last among the waiters.
    method SemWait(k: nat)
      requires Runs() && currTask != IDLE && SemThere(S(), k)
      modifies this`queues, this`tasks, this`currTask, this`sems, repr
      ensures Runs() && S() == SemWaited(old(S()), k) && SemStep(old(S()), S(), k, Event.SemWait(k))
    {
      hide Linked, Apart, Nowhere, Placed, Dispatch, SetBlock, SemStep;
      ghost var s := S();
      HeadBlocks(s);
      SemWaitPlaced(s, k);
      WaitOp(s, k, k);
      if sems[k] > 0 {
        sems := sems[k := sems[k] - 1];
      } else {
        var c := currTask;
        TaskSetBlock(c);
        InLists(SemList(k));
        Link(SemList(k), c);
        TaskDispatch();
      }
    }

    // The first waiter is released, or there is a token more.
    method SemNotify(k: nat)
      requires Runs() && SemThere(S(), k)
      modifies this`queues, this`tasks, this`currTask, this`sems, repr
      ensures Runs() && S() == SemNotified(old(S()), k) && SemStep(old(S()), S(), k, Event.SemNotify(k))
    {
      hide Linked, Apart, Nowhere, Placed, Shape, Dispatch, SetReady, Dequeue, KeysKept, SemStep;
      ghost var s := S();
      ShapeFacts(s);
      SemNotifyPlaced(s, k);
      NotifyOp(s, k, k);
      InLists(SemList(k));
      OwnersAre(SemList(k));
      if lists[SemList(k)].count > 0 {
        HeadThere(s, SemList(k));
        var t := UnlinkFirst(SemList(k));
        TaskSetReady(t);
        TaskDispatch();
      } else {
        sems := sems[k := sems[k] + 1];
      }
    }

    // ---------------------------------------------------------- fork, wait, exit

    // The entry becomes a living child of the current task and is last on the ready
    // list; nothing else in the process table changes.
    method SysFork(c: Tid) returns (pid: Tid)
      requires Valid() && CanDo(S(), Fork(c))
      modifies this`queues, this`tasks, repr
      ensures Valid() && Stepped(old(S()), S(), Fork(c)) && pid == c
      ensures ReadyList in queues && queues == old(queues)[ReadyList := old(queues)[ReadyList] + [c]]
    {
      hide Linked, Apart, Nowhere, CanDo, Stepped, SetReady;
      ghost var s := S();
      ForkFacts(s, c);
      var x := Task(true, Created, 0, TIME_SLICE, currTask, c, 0, User, false);
      tasks := tasks[c := x];
      TaskSetReady(c);
      StepDone(s, Fork(c), S());
      return c;
    }

    // One turn of the loop over the table in sys_wait: what is noted and returned is
    // the number and the status of a dead child of this task.
    method WaitLookAt() returns (found: bool, pid: Tid, status: int)
      requires Valid() && CanDo(S(), WaitLook) && MutexThere(S(), TABLE)
      modifies this`queues, this`tasks, this`currTask, this`mutexes, repr
      ensures Valid() && Stepped(old(S()), S(), WaitLook)
      ensures WaitResult(old(S()), found, pid, status)
    {
      hide Linked, Apart, CanDo, Stepped, Unlocked, Did, MutexOk, Placed, Next;
      ghost var s := S();
      WaitFacts(s);
      var c, i := currTask, tasks[currTask].pc.i;
      found, pid, status := false, 0, 0;
      if i >= |tasks| {
        PcMoves(s, WaitBlock);
        tasks := tasks[c := tasks[c].(pc := WaitBlock)];
        MutexUnlock(TABLE);
      } else if tasks[i].parent == c && tasks[i].state == Zombie {
        found, pid, status := true, tasks[i].pid, tasks[i].status;
        PcMoves(s, WaitReap(i, pid, status));
        tasks := tasks[c := tasks[c].(pc := WaitReap(i, pid, status))];
      } else {
        PcMoves(s, WaitScan(i + 1));
        tasks := tasks[c := tasks[c].(pc := WaitScan(i + 1))];
      }
      StepDone(s, WaitLook, S());
    }

    // The dead child's entry is cleared, after its memory was freed.
    method WaitClearEntry()
      requires Valid() && CanDo(S(), WaitClear)
      modifies this`tasks
      ensures Valid() && Stepped(old(S()), S(), WaitClear)
    {
      hide Linked, Apart, CanDo, Stepped;
      ghost var s := S();
      ClearFacts(s);
      var i := tasks[currTask].pc.i;
      tasks := tasks[currTask := tasks[currTask].(pc := WaitDone)];
      tasks := tasks[i := FREE];
      StepDone(s, WaitClear, S());
    }

    // No child was dead: the task waits, on no list, and another one runs.
    method WaitSuspend()
      requires Valid() && CanDo(S(), Event.WaitSuspend)
      modifies this`queues, this`tasks, this`currTask, repr
      ensures Valid() && Stepped(old(S()), S(), Event.WaitSuspend)
      ensures Nowhere(queues, old(currTask)) && currTask != old(currTask)
      ensures old(currTask) < |tasks| && tasks[old(currTask)].state == Waiting
    {
      hide Linked, Apart, Nowhere, CanDo, Stepped, Dispatch, SetBlock, Placed, Next;
      ghost var s := S();
      SuspendFacts(s);
      HeadBlocks(s);
      var c := currTask;
      TaskSetBlock(c);
      tasks := tasks[c := tasks[c].(state := Waiting, pc := WaitAgain)];
      NowhereNext(S(), c);
      TaskDispatch();
      StepDone(s, Event.WaitSuspend, S());
    }

    // One turn of the loop over the table in sys_exit: a child passes to the first
    // task, and is looked at in the next turn.
    method ExitLookAt()
      requires Valid() && CanDo(S(), ExitLook) && MutexThere(S(), TABLE)
      modifies this`queues, this`tasks, this`currTask, this`mutexes, repr
      ensures Valid() && Stepped(old(S()), S(), ExitLook)
    {
      hide Linked, Apart, CanDo, Stepped, Unlocked, Did, MutexOk, Placed, Next;
      ghost var s := S();
      ExitFacts(s);
      var c, pc := currTask, tasks[currTask].pc;
      if pc.i >= |tasks| {
        PcMoves(s, ExitEnd(pc.moved, pc.code));
        tasks := tasks[c := tasks[c].(pc := ExitEnd(pc.moved, pc.code))];
        MutexUnlock(TABLE);
      } else if tasks[pc.i].parent == c {
        ChildMoves(s, pc.i, ExitTest(pc.i, pc.moved, pc.code));
        tasks := tasks[pc.i := tasks[pc.i].(parent := FIRST)];
        tasks := tasks[c := tasks[c].(pc := ExitTest(pc.i, pc.moved, pc.code))];
      } else {
        PcMoves(s, ExitScan(pc.i + 1, pc.moved, pc.code));
        tasks := tasks[c := tasks[c].(pc := ExitScan(pc.i + 1, pc.moved, pc.code))];
      }
      StepDone(s, ExitLook, S());
    }

    // The child just handed over is dead, from before or by now.
    method ExitCheckChild()
      requires Valid() && CanDo(S(), ExitCheck)
      modifies this`tasks
      ensures Valid() && Stepped(old(S()), S(), ExitCheck)
    {
      hide Linked, Apart, CanDo, Stepped, Placed, Next;
      ghost var s := S();
      CheckFacts(s);
      var pc := tasks[currTask].pc;
      var moved := pc.moved;
      if pc.i < |tasks| && tasks[pc.i].state == Zombie {
        moved := true;
      }
      PcMoves(s, ExitScan(pc.i + 1, moved, pc.code));
      tasks := tasks[currTask := tasks[currTask].(pc := ExitScan(pc.i + 1, moved, pc.code))];
      StepDone(s, ExitCheck, S());
    }

    // The first task, if it has got a dead child, and the parent get ready if they wait.
    method WakeParents(moved: bool)
      requires Valid() && CanDo(S(), Event.ExitFinish)
      modifies this`queues, this`tasks, repr
      ensures Valid() && S() == ParentsWoken(old(S()), moved)
    {
      hide Linked, Apart, Nowhere, CanDo, SetReady, Woken, Shape, ParentsWoken;
      ghost var s := S();
      FinishFacts(s);
      WokenFacts(s, moved);
      var parent := tasks[currTask].parent;
      if moved && parent != FIRST {
        if tasks[FIRST].state == Waiting {
          TaskSetReady(FIRST);
        }
      }
      if tasks[parent].state == Waiting {
        TaskSetReady(parent);
      }
    }

    // The task dies with its status and is on no list, and no parent that has got a
    // dead child keeps waiting.
    method ExitFinish()
      requires Valid() && PT.TreeInv(S()) && CanDo(S(), Event.ExitFinish)
      modifies this`queues, this`tasks, this`currTask, repr
      ensures Valid() && PT.TreeInv(S()) && Stepped(old(S()), S(), Event.ExitFinish)
      ensures ParentsAwake(old(S()), S()) && Nowhere(queues, old(currTask))
    {
      hide Linked, Apart, Nowhere, CanDo, Stepped, Dispatch, SetBlock, SetReady, Placed, Next, PT.TreeInv,
           ParentsAwake, ParentsWoken, Shape;
      ghost var s := S();
      FinishFacts(s);
      var c, pc, parent := currTask, tasks[currTask].pc, tasks[currTask].parent;
      WakeParents(pc.moved);
      WokenFacts(s, pc.moved);
      FieldsChange(S(), c, tasks[c].(status := pc.code, state := Zombie));
      tasks := tasks[c := tasks[c].(status := pc.code, state := Zombie)];
      TaskSetBlock(c);
      TaskDispatch();
      StepDone(s, Event.ExitFinish, S());
      EndFacts(s);
    }
  }

  // ------------------------------------------------------------ facts the methods use

  // Before the first task is made ready.
  ghost predicate AlmostBooted(s: Sched) {
    && 2 <= |s.tasks| && s.curr == FIRST && Keys(s) && SleepList in s.queues && ReadyList in s.queues
    && (forall q {:trigger s.queues[q]} :: q in s.queues ==> s.queues[q] == [])
    && (forall m {:trigger s.mutexes[m]} :: m in s.mutexes ==> s.mutexes[m] == Mutex(0, NONE))
    && s.tasks[IDLE] == FREE.(used := true, slice := TIME_SLICE)
    && s.tasks[FIRST] == FREE.(used := true, slice := TIME_SLICE, pid := FIRST)
    && forall t: nat {:trigger s.tasks[t]} :: SLOT0 <= t < |s.tasks| ==> s.tasks[t] == FREE
  }

  lemma Zeroed(queues: map<Queue, seq<Tid>>, tasks: seq<Task>, slots: nat, mutexes: map<nat, Mutex>,
               sems: map<nat, int>)
    requires TABLE in mutexes && forall m {:trigger mutexes[m]} :: m in mutexes ==> mutexes[m] == Mutex(0, NONE)
    requires forall q {:trigger q in queues} :: q in queues <==>
      q == ReadyList || q == SleepList || (q.MutexList? && q.m in mutexes) || (q.SemList? && q.k in sems)
    requires forall q {:trigger queues[q]} :: q in queues ==> queues[q] == []
    requires tasks == [FREE.(used := true, slice := TIME_SLICE), FREE.(used := true, slice := TIME_SLICE, pid := FIRST)]
                      + seq(slots, i => FREE)
    ensures AlmostBooted(Sched(queues, tasks, FIRST, mutexes, sems))
  {
  }

  lemma FirstGetsReady(s: Sched)
    requires AlmostBooted(s)
    ensures Shape(s) && Booted(SetReady(s, FIRST))
  {
  }

  // A task that runs and is not idle is the head of the ready list.
  lemma HeadBlocks(s: Sched)
    requires Placed(s, {}) && s.curr == Next(s)
    ensures s.curr < |s.tasks|
    ensures s.curr != IDLE ==>
      && s.queues[ReadyList] != [] && s.queues[ReadyList][0] == s.curr && s.curr in s.queues[ReadyList]
      && Without(s.queues[ReadyList], s.curr) == s.queues[ReadyList][1..]
    ensures |s.queues[ReadyList]| > 0 ==> s.curr != IDLE
  {
    if s.curr != IDLE {
      CurrentIsReady(s);
      WithoutFacts(s.queues[ReadyList], s.curr);
    } else if |s.queues[ReadyList]| > 0 {
      assert On(s, ReadyList, s.queues[ReadyList][0]);
    }
  }

  lemma YieldTurns(s: Sched)
    requires Placed(s, {}) && s.curr == Next(s)
    ensures var q := s.queues[ReadyList];
      |q| > 1 ==> Yielded(s).queues[ReadyList] == q[1..] + [s.curr] && Yielded(s).curr == q[1]
  {
    HeadBlocks(s);
    hide Placed;
  }

  lemma SleptLists(s: Sched, ms: nat)
    requires Placed(s, {}) && s.curr == Next(s) && s.curr != IDLE
    ensures var r := Slept(s, ms); SleepTicks(ms) > 0 ==>
      && Placed(r, {}) && r.curr == Next(r)
      && r.queues[SleepList] == s.queues[SleepList] + [s.curr] && r.queues[ReadyList] == s.queues[ReadyList][1..]
      && r.tasks[s.curr] == s.tasks[s.curr].(sleepTicks := SleepTicks(ms), state := Sleep)
  {
    hide SleepTicks;
    if SleepTicks(ms) > 0 { SleepPlaced(s, ms); }
    HeadBlocks(s);
    var q := s.queues[ReadyList];
    assert Distinct(q) && s.curr < |s.tasks|;
    hide Placed;
    assert |q| > 1 ==> q[1] != q[0];
  }

  lemma ShapeFacts(s: Sched)
    requires Shape(s)
    ensures ReadyList in s.queues && SleepList in s.queues && s.curr < |s.tasks| && 2 <= |s.tasks|
  {
  }

  lemma MutexesAside(s: Sched, mutexes: map<nat, Mutex>)
    requires Shape(s)
    ensures Shape(s.(mutexes := mutexes))
  {
  }

  // The hand-over as it is made, with the mutex given up first.
  lemma HandedOver(s: Sched, m: nat)
    requires Shape(s) && m in s.mutexes && MutexList(m) in s.queues
    ensures var w, a := s.queues[MutexList(m)], s.(mutexes := s.mutexes[m := Mutex(0, NONE)]); w != [] ==>
      && Shape(a) && w[0] < |s.tasks|
      && SetReady(Dequeue(a, MutexList(m)), w[0]).(mutexes := a.mutexes[m := Mutex(1, w[0])])
         == SetReady(Dequeue(s, MutexList(m)), w[0]).(mutexes := s.mutexes[m := Mutex(1, w[0])])
  {
  }

  // A task's fields change, and its parent stays.
  lemma FieldsChange(s: Sched, t: Tid, x: Task)
    requires Shape(s) && t < |s.tasks| && x.parent == s.tasks[t].parent
    ensures x.parent < |s.tasks| && ReadyList in s.queues && SleepList in s.queues
    ensures s.(tasks := s.tasks[t := x]) == SetTask(s, t, x) && Shape(SetTask(s, t, x))
  {
  }

  lemma ListShrinks(s: Sched, q: Queue, t: Tid)
    requires Shape(s) && q in s.queues
    ensures Shape(s.(queues := s.queues[q := Without(s.queues[q], t)]))
  {
  }

  lemma InTickCleared(s: Sched)
    requires Placed(s, {}) && s.curr < |s.tasks| && s.tasks[s.curr].used
    ensures Placed(s.(tasks := s.tasks[s.curr := s.tasks[s.curr].(inTick := false)]), {})
  {
    EditPlaced(s, s.curr, s.tasks[s.curr].(inTick := false), {});
  }

  lemma PcMoves(s: Sched, pc: Pc)
    requires Placed(s, {}) && s.curr == Next(s)
    ensures var r := s.(tasks := s.tasks[s.curr := s.tasks[s.curr].(pc := pc)]);
      s.curr < |s.tasks| && r == SetPc(s, s.curr, pc) && Shape(r) && Placed(r, {}) && r.curr == Next(r)
    ensures TABLE in s.mutexes && MutexList(TABLE) in s.queues && MutexOk(s, TABLE) ==>
      MutexThere(SetPc(s, s.curr, pc), TABLE)
  {
    PcPlaced(s, pc);
  }

  lemma ChildMoves(s: Sched, i: nat, pc: Pc)
    requires Shape(s) && i < |s.tasks|
    ensures FIRST < |s.tasks| && s.curr < |s.tasks|
    ensures var a := s.tasks[i := s.tasks[i].(parent := FIRST)];
      && s.(tasks := a[s.curr := a[s.curr].(pc := pc)])
           == SetPc(SetTask(s, i, s.tasks[i].(parent := FIRST)), s.curr, pc)
      && Shape(s.(tasks := a[s.curr := a[s.curr].(pc := pc)]))
  {
  }

  // Who has no place on a list: free entries, the dead, and those that wait.
  lemma UnlistedNowhere(s: Sched, t: Tid)
    requires Placed(s, {}) && !Listed(s, t)
    ensures Nowhere(s.queues, t)
  {
    forall q | q in s.queues ensures t !in s.queues[q] {
      assert t in s.queues[q] <==> On(s, q, t);
    }
  }

  lemma UnusedNowhere(s: Sched, c: Tid)
    requires Inv(s) && c < |s.tasks| && !s.tasks[c].used
    ensures Nowhere(s.queues, c)
  {
    UnlistedNowhere(s, c);
  }

  lemma WaitingNowhere(s: Sched, t: Tid)
    requires Inv(s) && t < |s.tasks| && s.tasks[t].state == Waiting
    ensures Nowhere(s.queues, t)
  {
    UnlistedNowhere(s, t);
  }

  lemma DeadNowhere(s: Sched, t: Tid)
    requires PT.TreeInv(s) && t < |s.tasks| && PT.View(s.tasks)[t].dead
    ensures Nowhere(s.queues, t)
  {
    UnlistedNowhere(s, t);
  }

  lemma ParentNowhere(s: Sched, moved: bool)
    requires Inv(s) && s.curr < |s.tasks|
    ensures var p := s.tasks[s.curr].parent; var a := if moved && p != FIRST then Woken(s, FIRST) else s;
      p < |s.tasks| && (a.tasks[p].state == Waiting ==> Nowhere(a.queues, p))
  {
    var p := s.tasks[s.curr].parent;
    assert Shape(s) && TaskOk(FIRST, s.tasks[FIRST]);
    if moved && p != FIRST {
      WokenPlaced(s, FIRST);
      if Woken(s, FIRST).tasks[p].state == Waiting { UnlistedNowhere(Woken(s, FIRST), p); }
    } else if s.tasks[p].state == Waiting {
      UnlistedNowhere(s, p);
    }
  }

  lemma NowhereNext(s: Sched, c: Tid)
    requires Shape(s) && Nowhere(s.queues, c) && c != IDLE && c < |s.tasks|
    ensures Next(s) != c && Dispatch(s).tasks[c].state == s.tasks[c].state
  {
  }

  // ------------------------------------------------------------ methods and events

  ghost predicate CanDo(s: Sched, e: Event) {
    Inv(s) && Can(s, e)
  }

  // From s to r the kernel has taken the step of this event: the invariant holds,
  // and in the process table just that step has happened.
  ghost predicate Stepped(s: Sched, r: Sched, e: Event) {
    && CanDo(s, e) && r == Step(s, e) && Inv(r)
    && s.curr < |s.tasks| && PT.View(r.tasks) == PT.TreeStep(PT.View(s.tasks), e, s.curr)
  }

  lemma StepDone(s: Sched, e: Event, r: Sched)
    requires CanDo(s, e) && r == Step(s, e)
    ensures Stepped(s, r, e)
  {
    StepKeepsInv(s, e);
    PT.StepView(s, e);
    InvFacts(s);
    hide Inv, Can, Step, PT.View, PT.TreeStep;
  }

  // What a turn of sys_wait reports: the dead child at its place in the scan.
  ghost predicate WaitResult(s: Sched, found: bool, pid: Tid, status: int) {
    && s.curr < |s.tasks| && s.tasks[s.curr].pc.WaitScan?
    && var i := s.tasks[s.curr].pc.i;
    && (found <==> i < |s.tasks| && s.tasks[i].parent == s.curr && s.tasks[i].state == Zombie)
    && (found ==> pid == s.tasks[i].pid && status == s.tasks[i].status)
  }

  ghost predicate ParentsAwake(s: Sched, r: Sched) {
    && s.curr < |s.tasks| && s.tasks[s.curr].parent < |r.tasks| && FIRST < |r.tasks|
    && r.tasks[s.tasks[s.curr].parent].state != Waiting
    && (s.tasks[s.curr].pc.ExitEnd? && s.tasks[s.curr].pc.moved ==> r.tasks[FIRST].state != Waiting)
  }

  lemma ForkFacts(s: Sched, c: Tid)
    requires CanDo(s, Fork(c))
    ensures Shape(s) && ReadyList in s.queues && c < |s.tasks| && c != IDLE && s.curr < |s.tasks|
      && Nowhere(s.queues, c)
    ensures Step(s, Fork(c)) == Forked(s, c)
    ensures var x := Task(true, Created, 0, TIME_SLICE, s.curr, c, 0, User, false);
      s.(tasks := s.tasks[c := x]) == SetTask(s, c, x) && Shape(SetTask(s, c, x))
  {
    InvFacts(s);
    UnusedNowhere(s, c);
  }

  lemma WaitFacts(s: Sched)
    requires CanDo(s, WaitLook)
    ensures Shape(s) && Placed(s, {}) && s.curr == Next(s) && s.curr != IDLE && s.curr < |s.tasks| && TableThere(s)
    ensures s.tasks[s.curr].pc.WaitScan? && Step(s, WaitLook) == WaitLooked(s)
  {
    hide Placed, TasksOk, Keys;
    InvFacts(s);
  }

  lemma ClearFacts(s: Sched)
    requires CanDo(s, WaitClear)
    ensures Shape(s) && s.curr < |s.tasks| && s.tasks[s.curr].pc.WaitReap? && s.tasks[s.curr].pc.i < |s.tasks|
    ensures Step(s, WaitClear) == WaitCleared(s) && Shape(WaitCleared(s))
  {
    hide Placed, TasksOk, Keys;
    InvFacts(s);
  }

  lemma SuspendFacts(s: Sched)
    requires CanDo(s, Event.WaitSuspend)
    ensures Shape(s) && Placed(s, {}) && s.curr == Next(s) && s.curr != IDLE && s.curr < |s.tasks|
    ensures Step(s, Event.WaitSuspend) == WaitBlocked(s)
  {
    hide Placed, TasksOk, Keys;
    InvFacts(s);
  }

  lemma ExitFacts(s: Sched)
    requires CanDo(s, ExitLook)
    ensures Shape(s) && Placed(s, {}) && s.curr == Next(s) && s.curr != IDLE && s.curr < |s.tasks| && TableThere(s)
    ensures s.tasks[s.curr].pc.ExitScan? && Step(s, ExitLook) == ExitLooked(s)
  {
    hide Placed, TasksOk, Keys;
    InvFacts(s);
  }

  lemma CheckFacts(s: Sched)
    requires CanDo(s, ExitCheck)
    ensures Shape(s) && Placed(s, {}) && s.curr == Next(s) && s.curr < |s.tasks|
    ensures s.tasks[s.curr].pc.ExitTest? && Step(s, ExitCheck) == ExitTested(s)
  {
    hide Placed, TasksOk, Keys;
    InvFacts(s);
  }

  lemma FinishFacts(s: Sched)
    requires CanDo(s, Event.ExitFinish)
    ensures Shape(s) && Placed(s, {}) && s.curr == Next(s) && s.curr != IDLE && s.curr < |s.tasks| && 2 <= |s.tasks|
    ensures s.tasks[s.curr].pc.ExitEnd? && s.tasks[s.curr].parent < |s.tasks|
    ensures Step(s, Event.ExitFinish) == ExitEnded(s)
  {
    hide Placed, TasksOk, Keys;
    InvFacts(s);
  }

  // Waking the parents: they wait on no list, and the dying task stays where it is.
  lemma WokenFacts(s: Sched, moved: bool)
    requires CanDo(s, Event.ExitFinish)
    ensures var p := s.tasks[s.curr].parent; var a := if moved && p != FIRST then Woken(s, FIRST) else s;
      && Shape(s) && Shape(a) && Shape(ParentsWoken(s, moved)) && |a.tasks| == |s.tasks| && a.curr == s.curr
      && (s.tasks[FIRST].state == Waiting ==> Nowhere(s.queues, FIRST) && Woken(s, FIRST) == SetReady(s, FIRST))
      && (s.tasks[FIRST].state != Waiting ==> Woken(s, FIRST) == s)
      && (a.tasks[p].state == Waiting ==> Nowhere(a.queues, p) && Woken(a, p) == SetReady(a, p))
      && (a.tasks[p].state != Waiting ==> Woken(a, p) == a)
      && ParentsWoken(s, moved) == Woken(a, p)
    ensures var b := ParentsWoken(s, moved);
      s.curr in b.queues[ReadyList] && s.curr < |b.tasks| && b.curr == s.curr && b.tasks[s.curr] == s.tasks[s.curr]
  {
    InvFacts(s);
    if s.tasks[FIRST].state == Waiting { WaitingNowhere(s, FIRST); }
    ParentNowhere(s, moved);
    ParentsPlaced(s, moved);
    hide Inv, Can, Placed, SetReady, Nowhere;
  }

  lemma EndFacts(s: Sched)
    requires PT.TreeInv(s) && CanDo(s, Event.ExitFinish)
    ensures PT.TreeInv(Step(s, Event.ExitFinish)) && ParentsAwake(s, Step(s, Event.ExitFinish))
    ensures Nowhere(Step(s, Event.ExitFinish).queues, s.curr)
  {
    var r := Step(s, Event.ExitFinish);
    InvFacts(s);
    PT.StepKeepsTree(s, Event.ExitFinish);
    PT.FinishView(s);
    PT.ExitWakesParent(s);
    assert PT.View(s.tasks)[s.curr].pc == s.tasks[s.curr].pc;
    assert PT.View(r.tasks)[s.curr].dead;
    hide Inv, Can, Placed, Step, PT.Tree, PT.TreeStep;
    DeadNowhere(r, s.curr);
  }

  // ------------------------------------------------------------ the pass, half way

  ghost predicate SleepingTasks(s: Sched) {
    && Shape(s) && Distinct(s.queues[SleepList])
    && forall t: Tid {:trigger t in s.queues[SleepList]} :: t in s.queues[SleepList] ==> t != IDLE
  }

  lemma AgedTask(x: Task)
    ensures Aged(x) == if x.sleepTicks == 1 then x.(sleepTicks := 0, state := Ready)
      else x.(sleepTicks := x.sleepTicks - 1)
  {
  }

  lemma SleepersReal(s: Sched)
    requires Placed(s, {})
    ensures SleepingTasks(s) && Shape(s) && SleepList in s.queues && ReadyList in s.queues
  {
    forall t: Tid | t in s.queues[SleepList] ensures t != IDLE {
      assert On(s, SleepList, t);
    }
  }

  // The lists after the first i sleepers.
  ghost function QueuesAt(s: Sched, i: nat): (r: map<Queue, seq<Tid>>)
    requires Shape(s) && i <= |s.queues[SleepList]|
    ensures ReadyList in r && SleepList in r
  {
    var q := s.queues[SleepList];
    s.queues[SleepList := Staying(q[..i], s.tasks) + q[i..]][ReadyList := s.queues[ReadyList] + Waking(q[..i], s.tasks)]
  }

  lemma PassingTasks(s: Sched, i: nat)
    requires SleepingTasks(s) && i < |s.queues[SleepList]|
    ensures var q, t, a := s.queues[SleepList], s.queues[SleepList][i], AllAged(s.tasks, s.queues[SleepList][..i]);
      && t != IDLE && t < |s.tasks| && a[t] == s.tasks[t]
      && AllAged(s.tasks, q[..i + 1]) == a[t := Aged(s.tasks[t])]
  {
    assert s.queues[SleepList][i] in s.queues[SleepList];
    AgedNext(s.tasks, s.queues[SleepList], i);
  }

  // Sleeper i is, after i turns, behind those that stay.
  lemma PassingPlace(s: Sched, i: nat) returns (k: nat)
    requires SleepingTasks(s) && i < |s.queues[SleepList]|
    ensures var q, l := s.queues[SleepList], QueuesAt(s, i)[SleepList];
      && k < |l| && l[k] == q[i] && q[i] in l
      && (if i + 1 < |q| then k + 1 < |l| && l[k + 1] == q[i + 1] && q[i + 1] < |s.tasks| else k + 1 == |l|)
  {
    var q := s.queues[SleepList];
    k := |Staying(q[..i], s.tasks)|;
    assert QueuesAt(s, i)[SleepList][k] == q[i];
  }

  lemma PassingQueues(s: Sched, i: nat)
    requires SleepingTasks(s) && i < |s.queues[SleepList]|
    ensures s.queues[SleepList][i] < |s.tasks|
    ensures var a, b, t := QueuesAt(s, i), QueuesAt(s, i + 1), s.queues[SleepList][i];
      b == if s.tasks[t].sleepTicks != 1 then a
           else a[SleepList := Without(a[SleepList], t)][ReadyList := a[ReadyList] + [t]]
  {
    var q, ts := s.queues[SleepList], s.tasks;
    var p, t := q[..i], q[i];
    assert t < |ts| && t !in p;
    assert q[..i + 1][..i] == p && q[i..] == [t] + q[i + 1..];
    var a, w, ready := Staying(p, ts), Waking(p, ts), s.queues[ReadyList];
    assert a + q[i..] == a + [t] + q[i + 1..] && a + [] == a && w + [] == w;
    if ts[t].sleepTicks == 1 {
      WithoutMiddle(a, t, q[i + 1..]);
      assert ready + w + [t] == ready + (w + [t]);
      SetTwice(s.queues, SleepList, ReadyList, a + q[i..], ready + w, a + q[i + 1..], ready + w + [t]);
    }
  }

  lemma SetTwice<K, V>(m: map<K, V>, a: K, b: K, x: V, y: V, x': V, y': V)
    requires a != b
    ensures m[a := x][b := y][a := x'][b := y'] == m[a := x'][b := y']
  {
  }

  lemma AgedNext(ts: seq<Task>, q: seq<Tid>, i: nat)
    requires i < |q| && q[i] < |ts| && q[i] !in q[..i]
    ensures AllAged(ts, q[..i + 1]) == AllAged(ts, q[..i])[q[i] := Aged(ts[q[i]])]
  {
    var l, r := AllAged(ts, q[..i + 1]), AllAged(ts, q[..i])[q[i] := Aged(ts[q[i]])];
    assert q[..i + 1] == q[..i] + [q[i]];
    forall t: Tid | t < |ts| ensures l[t] == r[t] {
      assert t in q[..i + 1] <==> t in q[..i] || t == q[i];
    }
  }

  lemma {:induction false} WithoutMiddle(a: seq<Tid>, t: Tid, b: seq<Tid>)
    requires t !in a
    ensures Without(a + [t] + b, t) == a + b
  {
    if a == [] {
      assert [] + [t] + b == [t] + b;
    } else {
      var l := a + [t] + b;
      assert l[1..] == a[1..] + [t] + b && a == [a[0]] + a[1..];
      WithoutMiddle(a[1..], t, b);
    }
  }

  lemma PassingEnds(s: Sched)
    requires Shape(s)
    ensures var q := s.queues[SleepList];
      && QueuesAt(s, 0) == s.queues && AllAged(s.tasks, q[..0]) == s.tasks
      && Pass(s) == s.(queues := QueuesAt(s, |q|), tasks := AllAged(s.tasks, q[..|q|]))
  {
    var q := s.queues[SleepList];
    assert q[..0] == [] && q[0..] == q && q[..|q|] == q && q[|q|..] == [];
    assert Staying([], s.tasks) + q == q && s.queues[ReadyList] + Waking([], s.tasks) == s.queues[ReadyList];
    assert s.queues[SleepList := q][ReadyList := s.queues[ReadyList]] == s.queues;
    NobodyAged(s.tasks);
    assert Staying(q, s.tasks) + [] == Staying(q, s.tasks);
  }

  lemma NobodyAged(ts: seq<Task>)
    ensures AllAged(ts, []) == ts
  {
    assert forall t: nat :: t < |ts| ==> AllAged(ts, [])[t] == ts[t];
  }

  lemma HeadThere(s: Sched, q: Queue)
    requires Shape(s) && q in s.queues && s.queues[q] != []
    ensures s.queues[q][0] < |s.tasks| && Dequeue(s, q) == s.(queues := s.queues[q := s.queues[q][1..]])
  {
  }
}

/** Open files and their reference counts: a file's count is the number of
    descriptors that refer to it, and it is closed once, with the last of them. */
module FileRefs {

  datatype Slot = Empty | Open(f: nat)

  // Inside sys_close, between dropping the reference and clearing the descriptor;
  // last: the count fell to zero.
  datatype Closing = No | Yes(fd: nat, last: bool)

  // What the file system is told.
  datatype FsCall = FsOpen(f: nat) | FsClose(f: nat)

  datatype Files = Files(refs: seq<int>, fds: seq<seq<Slot>>, closing: seq<Closing>, calls: seq<FsCall>)

  // ------------------------------------------------------------ counting

  ghost function Uses(row: seq<Slot>, f: nat): nat {
    if row == [] then 0 else Uses(row[..|row| - 1], f) + if row[|row| - 1] == Open(f) then 1 else 0
  }

  ghost function AllUses(rows: seq<seq<Slot>>, f: nat): nat {
    if rows == [] then 0 else AllUses(rows[..|rows| - 1], f) + Uses(rows[|rows| - 1], f)
  }

  lemma {:induction false} UsesSet(row: seq<Slot>, i: nat, x: Slot, f: nat)
    requires i < |row|
    ensures Uses(row[i := x], f) == Uses(row, f) - (if row[i] == Open(f) then 1 else 0)
      + (if x == Open(f) then 1 else 0)
  {
    var n := |row| - 1;
    if i == n {
      assert row[i := x][..n] == row[..n];
    } else {
      assert row[i := x][..n] == row[..n][i := x];
      UsesSet(row[..n], i, x, f);
    }
  }

  lemma {:induction false} AllUsesSet(rows: seq<seq<Slot>>, t: nat, row: seq<Slot>, f: nat)
    requires t < |rows|
    ensures AllUses(rows[t := row], f) == AllUses(rows, f) - Uses(rows[t], f) + Uses(row, f)
    ensures Uses(rows[t], f) <= AllUses(rows, f)
  {
    var n := |rows| - 1;
    if t == n {
      assert rows[t := row][..n] == rows[..n];
    } else {
      assert rows[t := row][..n] == rows[..n][t := row];
      AllUsesSet(rows[..n], t, row, f);
    }
  }

  lemma {:induction false} UsesSome(row: seq<Slot>, i: nat, f: nat)
    requires i < |row| && row[i] == Open(f)
    ensures Uses(row, f) > 0
  {
    if i < |row| - 1 { UsesSome(row[..|row| - 1], i, f); }
  }

  lemma {:induction false} UsesNone(row: seq<Slot>, f: nat)
    requires forall i {:trigger row[i]} :: 0 <= i < |row| ==> row[i] == Empty
    ensures Uses(row, f) == 0
  {
    if row != [] { UsesNone(row[..|row| - 1], f); }
  }

  // ------------------------------------------------------------ the operations

  ghost function FirstEmpty(row: seq<Slot>, from: nat): (i: nat)
    requires from <= |row|
    ensures from <= i <= |row| && (i < |row| ==> row[i] == Empty)
    ensures forall k {:trigger row[k]} :: from <= k < i ==> row[k] != Empty
    decreases |row| - from
  {
    if from == |row| || row[from] == Empty then from else FirstEmpty(row, from + 1)
  }

  ghost function FirstUnused(refs: seq<int>, from: nat): (i: nat)
    requires from <= |refs|
    ensures from <= i <= |refs| && (i < |refs| ==> refs[i] == 0)
    ensures forall k {:trigger refs[k]} :: from <= k < i ==> refs[k] != 0
    decreases |refs| - from
  {
    if from == |refs| || refs[from] == 0 then from else FirstUnused(refs, from + 1)
  }

  ghost predicate Shape(s: Files) {
    && |s.closing| == |s.fds|
    && (forall t, i {:trigger s.fds[t][i]} :: 0 <= t < |s.fds| && 0 <= i < |s.fds[t]| && s.fds[t][i].Open? ==>
          s.fds[t][i].f < |s.refs|)
    && (forall t {:trigger s.closing[t]} :: 0 <= t < |s.closing| && s.closing[t].Yes? ==>
          s.closing[t].fd < |s.fds[t]| && s.fds[t][s.closing[t].fd].Open?)
  }

  datatype Event = SysOpen(t: nat, ok: bool) | SysDup(t: nat, fd: nat) | SysFork(t: nat, child: nat)
                 | CloseBegin(t: nat, fd: nat) | CloseEnd(t: nat)

  ghost predicate Holds(s: Files, t: nat, fd: nat)
    requires t < |s.fds|
  {
    fd < |s.fds[t]| && s.fds[t][fd].Open?
  }

  // A task makes one call at a time; opening needs a free entry in the file table;
  // a new task has no descriptors yet.
  ghost predicate Can(s: Files, e: Event)
    requires |s.closing| == |s.fds|
  {
    e.t < |s.fds|
    && match e
       case SysOpen(t, _) => s.closing[t].No? && FirstUnused(s.refs, 0) < |s.refs|
       case SysDup(t, fd) => s.closing[t].No? && Holds(s, t, fd)
       case SysFork(t, c) => s.closing[t].No? && c != t && c < |s.fds| && s.closing[c].No? && |s.fds[c]| == |s.fds[t]|
                             && forall i {:trigger s.fds[c][i]} :: 0 <= i < |s.fds[c]| ==> s.fds[c][i] == Empty
       case CloseBegin(t, fd) => s.closing[t].No? && Holds(s, t, fd)
       case CloseEnd(t) => s.closing[t].Yes?
  }

  ghost function SetFd(s: Files, t: nat, fd: nat, x: Slot): Files
    requires t < |s.fds| && fd < |s.fds[t]|
  {
    s.(fds := s.fds[t := s.fds[t][fd := x]])
  }

  ghost function AddUses(refs: seq<int>, row: seq<Slot>): (r: seq<int>)
    ensures |r| == |refs| && forall f: nat {:trigger r[f]} :: f < |refs| ==> r[f] == refs[f] + Uses(row, f)
  {
    seq(|refs|, f requires 0 <= f < |refs| => refs[f] + Uses(row, f))
  }

  ghost function Opened(s: Files, t: nat, ok: bool): Files
    requires Shape(s) && t < |s.fds| && FirstUnused(s.refs, 0) < |s.refs|
  {
    var f, fd := FirstUnused(s.refs, 0), FirstEmpty(s.fds[t], 0);
    if fd == |s.fds[t]| || !ok then s
    else SetFd(s, t, fd, Open(f)).(refs := s.refs[f := 1], calls := s.calls + [FsOpen(f)])
  }

  ghost function Duped(s: Files, t: nat, fd: nat): Files
    requires Shape(s) && t < |s.fds| && Holds(s, t, fd)
  {
    var f, fd' := s.fds[t][fd].f, FirstEmpty(s.fds[t], 0);
    if fd' == |s.fds[t]| then s else SetFd(s, t, fd', Open(f)).(refs := s.refs[f := s.refs[f] + 1])
  }

  ghost function Forked(s: Files, t: nat, c: nat): Files
    requires t < |s.fds| && c < |s.fds|
  {
    s.(fds := s.fds[c := s.fds[t]], refs := AddUses(s.refs, s.fds[t]))
  }

  ghost function CloseBegun(s: Files, t: nat, fd: nat): Files
    requires Shape(s) && t < |s.fds| && Holds(s, t, fd)
  {
    var f := s.fds[t][fd].f;
    s.(refs := s.refs[f := s.refs[f] - 1], closing := s.closing[t := Yes(fd, s.refs[f] == 1)])
  }

  // The second half: for the last one the file system closes the file, and
  // file_free would drop another reference if there was one.
  ghost function CloseEnded(s: Files, t: nat): Files
    requires Shape(s) && t < |s.fds| && s.closing[t].Yes?
  {
    var fd, last := s.closing[t].fd, s.closing[t].last;
    var f := s.fds[t][fd].f;
    var a := SetFd(s, t, fd, Empty).(closing := s.closing[t := No]);
    if last then a.(refs := s.refs[f := if s.refs[f] != 0 then s.refs[f] - 1 else 0], calls := s.calls + [FsClose(f)])
    else a
  }

  ghost function Step(s: Files, e: Event): Files
    requires Shape(s) && Can(s, e)
  {
    match e
    case SysOpen(t, ok) => Opened(s, t, ok)
    case SysDup(t, fd) => Duped(s, t, fd)
    case SysFork(t, c) => Forked(s, t, c)
    case CloseBegin(t, fd) => CloseBegun(s, t, fd)
    case CloseEnd(t) => CloseEnded(s, t)
  }

  // ------------------------------------------------------------ the invariant

  // A descriptor being closed no longer counts.
  ghost function LiveRow(row: seq<Slot>, c: Closing): (r: seq<Slot>)
    ensures |r| == |row|
  {
    if c.Yes? && c.fd < |row| then row[c.fd := Empty] else row
  }

  ghost function Live(s: Files): (rows: seq<seq<Slot>>)
    requires |s.closing| == |s.fds|
    ensures |rows| == |s.fds| && forall t {:trigger rows[t]} :: 0 <= t < |rows| ==>
      rows[t] == LiveRow(s.fds[t], s.closing[t])
  {
    seq(|s.fds|, t requires 0 <= t < |s.fds| => LiveRow(s.fds[t], s.closing[t]))
  }

  // Task t is closing the last descriptor of f.
  ghost predicate Ends(s: Files, t: nat, f: nat)
    requires |s.closing| == |s.fds|
  {
    t < |s.fds| && s.closing[t].Yes? && s.closing[t].last && s.closing[t].fd < |s.fds[t]|
    && s.fds[t][s.closing[t].fd] == Open(f)
  }

  datatype FsState = Closed | InUse | Wrong

  ghost function Told(calls: seq<FsCall>, f: nat): FsState {
    if calls == [] then Closed
    else
      var before, c := Told(calls[..|calls| - 1], f), calls[|calls| - 1];
      if c == FsOpen(f) then if before == Closed then InUse else Wrong
      else if c == FsClose(f) then if before == InUse then Closed else Wrong
      else before
  }

  ghost predicate Counted(s: Files)
    requires |s.closing| == |s.fds|
  {
    forall f: nat {:trigger s.refs[f]} :: f < |s.refs| ==> s.refs[f] == AllUses(Live(s), f)
  }

  ghost predicate LastOnes(s: Files)
    requires |s.closing| == |s.fds|
  {
    && (forall t: nat, f: nat {:trigger Ends(s, t, f)} :: Ends(s, t, f) ==> f < |s.refs| && s.refs[f] == 0)
    && (forall t: nat, u: nat, f: nat {:trigger Ends(s, t, f), Ends(s, u, f)} :: Ends(s, t, f) && Ends(s, u, f) ==>
          t == u)
  }

  ghost predicate Ending(s: Files, f: nat)
    requires |s.closing| == |s.fds|
  {
    exists t: nat :: Ends(s, t, f)
  }

  // Opens and closes of f alternate in what the file system has been told, and it
  // is open exactly while it has a reference or its last close is under way.
  ghost predicate Calls(s: Files)
    requires |s.closing| == |s.fds|
  {
    forall f: nat {:trigger Told(s.calls, f)} :: f < |s.refs| ==>
      Told(s.calls, f) == if s.refs[f] > 0 || Ending(s, f) then InUse else Closed
  }

  ghost predicate Inv(s: Files) {
    Shape(s) && Counted(s) && LastOnes(s) && Calls(s)
  }

  // The open finds a descriptor and the file system agrees.
  ghost predicate Takes(s: Files, e: Event)
    requires e.SysOpen? && e.t < |s.fds|
  {
    e.ok && FirstEmpty(s.fds[e.t], 0) < |s.fds[e.t]|
  }

  // An open does not take an entry whose last close is still under way.
  ghost predicate Guarded(s: Files, e: Event)
    requires |s.closing| == |s.fds| && e.t < |s.fds|
  {
    e.SysOpen? && Takes(s, e) ==> !Ending(s, FirstUnused(s.refs, 0))
  }

  // ------------------------------------------------------------ every step keeps it

  lemma LiveSet(s: Files, r: Files, t: nat, row: seq<Slot>)
    requires |s.closing| == |s.fds| == |r.fds| == |r.closing| && t < |s.fds|
    requires LiveRow(r.fds[t], r.closing[t]) == row
    requires forall u {:trigger r.fds[u]} {:trigger r.closing[u]} :: 0 <= u < |s.fds| && u != t ==>
      r.fds[u] == s.fds[u] && r.closing[u] == s.closing[u]
    ensures Live(r) == Live(s)[t := row]
  {
    forall u | 0 <= u < |s.fds| ensures Live(r)[u] == Live(s)[t := row][u] {
      assert u != t ==> r.fds[u] == s.fds[u] && r.closing[u] == s.closing[u];
    }
  }

  // One live descriptor changes and one count with it.
  lemma CountOne(s: Files, r: Files, t: nat, fd: nat, x: Slot)
    requires Inv(s) && |s.closing| == |s.fds| && |r.closing| == |r.fds| && |r.refs| == |s.refs| && t < |s.fds|
      && fd < |Live(s)[t]|
    requires Live(r) == Live(s)[t := Live(s)[t][fd := x]]
    requires forall f: nat {:trigger r.refs[f]} :: f < |s.refs| ==>
      r.refs[f] == s.refs[f] - (if Live(s)[t][fd] == Open(f) then 1 else 0) + (if x == Open(f) then 1 else 0)
    ensures Counted(r)
  {
    hide Live, LastOnes, Calls, Shape, AllUses, Uses;
    forall f: nat | f < |r.refs| ensures r.refs[f] == AllUses(Live(r), f) {
      assert s.refs[f] == AllUses(Live(s), f);
      UsesSet(Live(s)[t], fd, x, f);
      AllUsesSet(Live(s), t, Live(s)[t][fd := x], f);
    }
  }

  lemma OpenCounts(s: Files, t: nat)
    requires Inv(s) && Can(s, SysOpen(t, true)) && FirstEmpty(s.fds[t], 0) < |s.fds[t]|
    ensures Counted(Opened(s, t, true))
  {
    hide LastOnes, Calls, AllUses, Uses, FirstEmpty, FirstUnused;
    var r, fd, f := Opened(s, t, true), FirstEmpty(s.fds[t], 0), FirstUnused(s.refs, 0);
    LiveSet(s, r, t, s.fds[t][fd := Open(f)]);
    CountOne(s, r, t, fd, Open(f));
  }

  lemma DupCounts(s: Files, t: nat, fd: nat)
    requires Inv(s) && Can(s, SysDup(t, fd))
    ensures Counted(Duped(s, t, fd))
  {
    hide LastOnes, Calls, AllUses, Uses, FirstEmpty;
    var r, fd', f := Duped(s, t, fd), FirstEmpty(s.fds[t], 0), s.fds[t][fd].f;
    if fd' < |s.fds[t]| {
      LiveSet(s, r, t, s.fds[t][fd' := Open(f)]);
      CountOne(s, r, t, fd', Open(f));
    }
  }

  lemma ForkCounts(s: Files, t: nat, c: nat)
    requires Inv(s) && Can(s, SysFork(t, c))
    ensures Counted(Forked(s, t, c))
  {
    hide LastOnes, Calls, AllUses, Uses;
    var r := Forked(s, t, c);
    LiveSet(s, r, c, s.fds[t]);
    forall f: nat | f < |r.refs| ensures r.refs[f] == AllUses(Live(r), f) {
      assert s.refs[f] == AllUses(Live(s), f);
      UsesNone(Live(s)[c], f);
      AllUsesSet(Live(s), c, s.fds[t], f);
    }
  }

  lemma BeginCounts(s: Files, t: nat, fd: nat)
    requires Inv(s) && Can(s, CloseBegin(t, fd))
    ensures Counted(CloseBegun(s, t, fd))
  {
    hide LastOnes, Calls, AllUses, Uses;
    var r := CloseBegun(s, t, fd);
    LiveSet(s, r, t, s.fds[t][fd := Empty]);
    CountOne(s, r, t, fd, Empty);
  }

  lemma EndCounts(s: Files, t: nat)
    requires Inv(s) && Can(s, CloseEnd(t))
    ensures Counted(CloseEnded(s, t)) && CloseEnded(s, t).refs == s.refs
  {
    hide Calls, AllUses, Uses;
    var r, fd := CloseEnded(s, t), s.closing[t].fd;
    var f := s.fds[t][fd].f;
    if s.closing[t].last { assert Ends(s, t, f); }
    LiveSet(s, r, t, s.fds[t][fd := Empty]);
    assert Live(s)[t] == s.fds[t][fd := Empty];
    assert Live(r) == Live(s);
  }

  // Which last closes are under way after a step.
  lemma StepEnds(s: Files, e: Event, u: nat, g: nat)
    requires Inv(s) && Can(s, e)
    ensures |Step(s, e).closing| == |Step(s, e).fds|
    ensures Ends(Step(s, e), u, g) ==
      if e.CloseBegin? then Ends(s, u, g) || (u == e.t && s.fds[e.t][e.fd] == Open(g) && s.refs[g] == 1)
      else if e.CloseEnd? then Ends(s, u, g) && u != e.t
      else Ends(s, u, g)
  {
    hide Counted, LastOnes, Calls, FirstEmpty, FirstUnused, AddUses;
  }

  lemma StepShape(s: Files, e: Event)
    requires Inv(s) && Can(s, e)
    ensures Shape(Step(s, e)) && |Step(s, e).refs| == |s.refs|
  {
    hide Counted, LastOnes, Calls, FirstUnused, AddUses;
  }

  lemma LiveUse(s: Files, t: nat, fd: nat)
    requires Inv(s) && t < |s.fds| && s.closing[t].No? && Holds(s, t, fd)
    ensures s.fds[t][fd].f < |s.refs| && s.refs[s.fds[t][fd].f] > 0
  {
    hide LastOnes, Calls, Uses, AllUses;
    var f := s.fds[t][fd].f;
    assert s.refs[f] == AllUses(Live(s), f);
    UsesSome(s.fds[t], fd, f);
    AllUsesSet(Live(s), t, s.fds[t], f);
  }

  lemma LiveUses(s: Files, t: nat, f: nat)
    requires Inv(s) && t < |s.fds| && s.closing[t].No? && f < |s.refs|
    ensures s.refs[f] >= Uses(s.fds[t], f)
  {
    hide LastOnes, Calls, Uses, AllUses;
    assert s.refs[f] == AllUses(Live(s), f);
    AllUsesSet(Live(s), t, s.fds[t], f);
  }

  lemma NoneNegative(s: Files, f: nat)
    requires Inv(s) && f < |s.refs|
    ensures s.refs[f] >= 0
  {
    assert s.refs[f] == AllUses(Live(s), f);
  }

  // How the counts move, seen from file g.
  lemma StepRef(s: Files, e: Event, g: nat)
    requires Inv(s) && Can(s, e) && g < |s.refs|
    ensures |Step(s, e).refs| == |s.refs|
    ensures Step(s, e).refs[g] ==
      if e.SysOpen? && Takes(s, e) && g == FirstUnused(s.refs, 0) then 1
      else if e.SysDup? && FirstEmpty(s.fds[e.t], 0) < |s.fds[e.t]| && s.fds[e.t][e.fd] == Open(g) then s.refs[g] + 1
      else if e.SysFork? then s.refs[g] + Uses(s.fds[e.t], g)
      else if e.CloseBegin? && s.fds[e.t][e.fd] == Open(g) then s.refs[g] - 1
      else s.refs[g]
  {
    hide Counted, LastOnes, Calls, FirstEmpty, FirstUnused, Uses;
    StepShape(s, e);
    if e.CloseEnd? { EndCounts(s, e.t); }
  }

  lemma LastRef(s: Files, e: Event, u: nat, g: nat)
    requires Inv(s) && Can(s, e) && Guarded(s, e) && |Step(s, e).closing| == |Step(s, e).fds| && Ends(Step(s, e), u, g)
    ensures g < |Step(s, e).refs| && Step(s, e).refs[g] == 0
  {
    hide Counted, Calls, FirstEmpty, FirstUnused, Uses, Step, Inv;
    StepEnds(s, e, u, g);
    EndsBound(s, e, u, g);
    StepRef(s, e, g);
    match e
    case SysDup(t, fd) => LiveUse(s, t, fd);
    case SysFork(t, c) => LiveUses(s, t, g);
    case CloseBegin(t, fd) => LiveUse(s, t, fd);
    case _ =>
  }

  lemma EndsBound(s: Files, e: Event, u: nat, g: nat)
    requires Inv(s) && Can(s, e)
    ensures Ends(s, u, g) ==> g < |s.refs| && s.refs[g] == 0 && Ending(s, g)
    ensures e.CloseBegin? && s.fds[e.t][e.fd] == Open(g) ==> g < |s.refs|
  {
  }

  lemma StepLast(s: Files, e: Event)
    requires Inv(s) && Can(s, e) && Guarded(s, e)
    ensures |Step(s, e).closing| == |Step(s, e).fds| && LastOnes(Step(s, e))
  {
    hide Calls, Shape, Counted, FirstEmpty, FirstUnused, Ends, Step;
    var r := Step(s, e);
    StepShape(s, e);
    StepEnds(s, e, 0, 0);
    forall u: nat, g: nat | Ends(r, u, g) ensures g < |r.refs| && r.refs[g] == 0 {
      LastRef(s, e, u, g);
    }
    forall u: nat, v: nat, g: nat | Ends(r, u, g) && Ends(r, v, g) ensures u == v {
      StepEnds(s, e, u, g);
      StepEnds(s, e, v, g);
      EndsBound(s, e, u, g);
      EndsBound(s, e, v, g);
      if e.CloseBegin? { LiveUse(s, e.t, e.fd); }
    }
  }

  lemma ToldMore(calls: seq<FsCall>, c: FsCall, f: nat)
    ensures var before := Told(calls, f);
      Told(calls + [c], f) == if c == FsOpen(f) then if before == Closed then InUse else Wrong
                              else if c == FsClose(f) then if before == InUse then Closed else Wrong
                              else before
  {
    assert (calls + [c])[..|calls|] == calls;
  }

  lemma StepTold(s: Files, e: Event, g: nat)
    requires Inv(s) && Can(s, e)
    ensures Told(Step(s, e).calls, g) ==
      if e.SysOpen? && Takes(s, e) && g == FirstUnused(s.refs, 0)
      then if Told(s.calls, g) == Closed then InUse else Wrong
      else if e.CloseEnd? && Ends(s, e.t, g) then if Told(s.calls, g) == InUse then Closed else Wrong
      else Told(s.calls, g)
  {
    hide Counted, LastOnes, Calls, FirstEmpty, FirstUnused, Told;
    match e
    case SysOpen(t, ok) => ToldMore(s.calls, FsOpen(FirstUnused(s.refs, 0)), g);
    case CloseEnd(t) => ToldMore(s.calls, FsClose(s.fds[t][s.closing[t].fd].f), g);
    case _ =>
  }

  lemma StepEnding(s: Files, e: Event, g: nat)
    requires Inv(s) && Can(s, e)
    ensures |Step(s, e).closing| == |Step(s, e).fds|
    ensures Ending(Step(s, e), g) ==
      if e.CloseBegin? then Ending(s, g) || (s.fds[e.t][e.fd] == Open(g) && s.refs[g] == 1)
      else if e.CloseEnd? then Ending(s, g) && !Ends(s, e.t, g)
      else Ending(s, g)
  {
    hide Counted, Calls, Ends, Step;
    StepEnds(s, e, e.t, g);
    var r := Step(s, e);
    if Ending(s, g) {
      var u: nat :| Ends(s, u, g);
      StepEnds(s, e, u, g);
      EndsBound(s, e, u, g);
    }
    if Ending(r, g) {
      var u: nat :| Ends(r, u, g);
      StepEnds(s, e, u, g);
    }
  }

  lemma StepCalls(s: Files, e: Event)
    requires Inv(s) && Can(s, e) && Guarded(s, e)
    ensures |Step(s, e).closing| == |Step(s, e).fds| && Calls(Step(s, e))
  {
    hide Counted, Shape, FirstEmpty, FirstUnused, Ends, Ending, Step, Told, Uses;
    var r := Step(s, e);
    StepShape(s, e);
    StepEnding(s, e, 0);
    forall g: nat | g < |r.refs| ensures Told(r.calls, g) == if r.refs[g] > 0 || Ending(r, g) then InUse else Closed {
      StepTold(s, e, g);
      StepEnding(s, e, g);
      StepRef(s, e, g);
      NoneNegative(s, g);
      EndingRef(s, e.t, g);
      match e
      case SysOpen(t, ok) => UnusedRef(s);
      case SysDup(t, fd) => LiveUse(s, t, fd);
      case SysFork(t, c) => LiveUses(s, t, g);
      case CloseBegin(t, fd) => LiveUse(s, t, fd);
      case CloseEnd(t) =>
    }
  }

  lemma UnusedRef(s: Files)
    ensures FirstUnused(s.refs, 0) < |s.refs| ==> s.refs[FirstUnused(s.refs, 0)] == 0
  {
  }

  lemma EndingRef(s: Files, t: nat, g: nat)
    requires Inv(s) && g < |s.refs|
    ensures Ending(s, g) ==> s.refs[g] == 0
    ensures Ends(s, t, g) ==> Ending(s, g)
  {
  }

  lemma StepKeepsInv(s: Files, e: Event)
    requires Inv(s) && Can(s, e) && Guarded(s, e)
    ensures Inv(Step(s, e))
  {
    StepShape(s, e);
    StepLast(s, e);
    StepCalls(s, e);
    StepCounted(s, e);
    hide Shape, LastOnes, Calls, Counted, Step;
  }

  lemma StepCounted(s: Files, e: Event)
    requires Inv(s) && Can(s, e)
    ensures |Step(s, e).closing| == |Step(s, e).fds| && Counted(Step(s, e))
  {
    hide Counted, LastOnes, Calls;
    StepShape(s, e);
    match e
    case SysOpen(t, ok) => if ok && FirstEmpty(s.fds[t], 0) < |s.fds[t]| { OpenCounts(s, t); } else { Uncounted(s); }
    case SysDup(t, fd) => DupCounts(s, t, fd);
    case SysFork(t, c) => ForkCounts(s, t, c);
    case CloseBegin(t, fd) => BeginCounts(s, t, fd);
    case CloseEnd(t) => EndCounts(s, t);
  }

  lemma Uncounted(s: Files)
    requires Inv(s)
    ensures Counted(s)
  {
  }

  // ------------------------------------------------------------ whole runs

  ghost predicate Legal(s: Files, es: seq<Event>)
    requires Inv(s)
    decreases |es|
  {
    es == [] || (Can(s, es[0]) && Guarded(s, es[0]) && (StepKeepsInv(s, es[0]); Legal(Step(s, es[0]), es[1..])))
  }

  ghost function After(s: Files, es: seq<Event>): (r: Files)
    requires Inv(s) && Legal(s, es)
    ensures Inv(r) && |r.refs| == |s.refs|
    decreases |es|
  {
    if es == [] then s
    else
      StepKeepsInv(s, es[0]);
      StepShape(s, es[0]);
      After(Step(s, es[0]), es[1..])
  }

  // Nothing open.
  ghost predicate Fresh(s: Files) {
    && |s.closing| == |s.fds| && s.calls == []
    && (forall f {:trigger s.refs[f]} :: 0 <= f < |s.refs| ==> s.refs[f] == 0)
    && (forall t {:trigger s.closing[t]} :: 0 <= t < |s.closing| ==> s.closing[t] == No)
    && (forall t, i {:trigger s.fds[t][i]} :: 0 <= t < |s.fds| && 0 <= i < |s.fds[t]| ==> s.fds[t][i] == Empty)
  }

  lemma {:induction false} NobodyUses(rows: seq<seq<Slot>>, f: nat)
    requires forall t, i {:trigger rows[t][i]} :: 0 <= t < |rows| && 0 <= i < |rows[t]| ==> rows[t][i] == Empty
    ensures AllUses(rows, f) == 0
  {
    if rows != [] {
      NobodyUses(rows[..|rows| - 1], f);
      UsesNone(rows[|rows| - 1], f);
    }
  }

  lemma FreshInv(s: Files)
    requires Fresh(s)
    ensures Inv(s)
  {
    assert Live(s) == s.fds;
    forall f: nat | f < |s.refs| ensures s.refs[f] == AllUses(Live(s), f) {
      NobodyUses(s.fds, f);
    }
  }

  // With no close under way the count of every file is the number of descriptors
  // that refer to it, an entry without references has none, and the file system
  // has been told to open and close it in turn, the last time to open it exactly
  // if it is in use.
  lemma CountsOnRuns(s: Files, es: seq<Event>, f: nat)
    requires Inv(s) && Legal(s, es) && f < |s.refs|
    requires forall t {:trigger After(s, es).closing[t]} :: 0 <= t < |After(s, es).closing| ==>
      After(s, es).closing[t].No?
    ensures var r := After(s, es);
      && r.refs[f] == AllUses(r.fds, f)
      && Told(r.calls, f) == if AllUses(r.fds, f) > 0 then InUse else Closed
  {
    var r := After(s, es);
    assert Live(r) == r.fds;
    assert r.refs[f] == AllUses(Live(r), f);
    assert !Ending(r, f);
  }

  // ------------------------------------------------------------ the open that must not come

  // An open during a close keeps the invariant if and only if it does not take
  // the very entry whose last close is under way: sys_close drops the count to
  // zero before the file is closed, so file_alloc sees that entry as free.
  lemma OpenKeepsInvIff(s: Files, t: nat, ok: bool)
    requires Inv(s) && Can(s, SysOpen(t, ok))
    ensures Inv(Opened(s, t, ok)) <==> Guarded(s, SysOpen(t, ok))
  {
    var e := SysOpen(t, ok);
    if Guarded(s, e) {
      StepKeepsInv(s, e);
    } else {
      var f := FirstUnused(s.refs, 0);
      var u: nat :| Ends(s, u, f);
      StepShape(s, e);
      StepEnds(s, e, u, f);
      StepRef(s, e, f);
      assert !LastOnes(Opened(s, t, ok));
    }
  }

  // What happens then: the first task's close goes on and takes the reference the
  // open has just made, so the opened file is in use and looks free again.
  lemma OpenedFileLost(s: Files, t: nat, u: nat, f: nat)
    requires Inv(s) && Can(s, SysOpen(t, true)) && Takes(s, SysOpen(t, true)) && Ends(s, u, f)
      && f == FirstUnused(s.refs, 0)
    ensures Shape(Opened(s, t, true)) && Can(Opened(s, t, true), CloseEnd(u))
    ensures var r := CloseEnded(Opened(s, t, true), u);
      r.refs[f] == 0 && r.fds[t][FirstEmpty(s.fds[t], 0)] == Open(f)
  {
    StepShape(s, SysOpen(t, true));
    hide Counted, LastOnes, Calls;
  }

  // And it can come to that: one task closes its only file while another opens.
  lemma RaceExample()
    ensures var s := Files([0], [[Empty], [Empty]], [No, No], []);
      && Inv(s) && Legal(s, [SysOpen(0, true), CloseBegin(0, 0)])
      && var r := After(s, [SysOpen(0, true), CloseBegin(0, 0)]);
      && Can(r, SysOpen(1, true)) && !Guarded(r, SysOpen(1, true))
  {
    hide Inv, Step, Can, Guarded;
    var s := Files([0], [[Empty], [Empty]], [No, No], []);
    var a := Files([1], [[Open(0)], [Empty]], [No, No], [FsOpen(0)]);
    var b := Files([0], [[Open(0)], [Empty]], [Yes(0, true), No], [FsOpen(0)]);
    var e, f := SysOpen(0, true), CloseBegin(0, 0);
    FreshInv(s);
    RaceOpens(s, a);
    StepKeepsInv(s, e);
    RaceCloses(a, b);
    StepKeepsInv(a, f);
    assert [e, f][1..] == [f] && [f][1..] == [];
  }

  lemma RaceOpens(s: Files, a: Files)
    requires s == Files([0], [[Empty], [Empty]], [No, No], []) && Shape(s)
    requires a == Files([1], [[Open(0)], [Empty]], [No, No], [FsOpen(0)])
    ensures Can(s, SysOpen(0, true)) && Guarded(s, SysOpen(0, true)) && Step(s, SysOpen(0, true)) == a
  {
    assert FirstEmpty([Empty], 0) == 0 && FirstUnused([0], 0) == 0;
    assert [Empty][0 := Open(0)] == [Open(0)] && [0][0 := 1] == [1];
    assert [[Empty], [Empty]][0 := [Open(0)]] == [[Open(0)], [Empty]];
  }

  lemma RaceCloses(a: Files, b: Files)
    requires a == Files([1], [[Open(0)], [Empty]], [No, No], [FsOpen(0)]) && Shape(a)
    requires b == Files([0], [[Open(0)], [Empty]], [Yes(0, true), No], [FsOpen(0)])
    ensures Can(a, CloseBegin(0, 0)) && Guarded(a, CloseBegin(0, 0)) && Step(a, CloseBegin(0, 0)) == b
    ensures Can(b, SysOpen(1, true)) && !Guarded(b, SysOpen(1, true))
  {
    assert [1][0 := 0] == [0] && [No, No][0 := Yes(0, true)] == [Yes(0, true), No];
    assert Ends(b, 0, 0) && FirstUnused(b.refs, 0) == 0 && FirstEmpty(b.fds[1], 0) == 0;
  }
}

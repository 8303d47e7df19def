/** The open-file table and the descriptor tables as an object, each call at once;
    every method is proved against the reference-count operation it stands for. */
module OpenFiles {
  import opened FileRefs

  class FileTable {
    var refs: seq<int>
    var fds: seq<seq<Slot>>
    ghost var closing: seq<Closing>
    ghost var calls: seq<FsCall>

    ghost function S(): Files
      reads this
    {
      Files(refs, fds, closing, calls)
    }

    // Between calls no close is under way.
    ghost predicate Valid()
      reads this
    {
      Inv(S()) && forall t {:trigger closing[t]} :: 0 <= t < |closing| ==> closing[t].No?
    }

    constructor (files: nat, tasks: nat, slots: nat)
      ensures Valid() && Fresh(S()) && |refs| == files && |fds| == tasks
      ensures forall t {:trigger fds[t]} :: 0 <= t < tasks ==> |fds[t]| == slots
    {
      refs := seq(files, i => 0);
      fds := seq(tasks, i => seq(slots, j => Empty));
      closing := seq(tasks, i => No);
      calls := [];
      new;
      FreshInv(S());
    }

    // The first entry without a reference gets one.
    method FileAlloc() returns (ok: bool, f: nat)
      modifies this
      ensures ok <==> FirstUnused(old(refs), 0) < |old(refs)|
      ensures ok ==> f == FirstUnused(old(refs), 0) && f < |refs| && refs == old(refs)[f := 1]
      ensures !ok ==> refs == old(refs)
      ensures fds == old(fds) && closing == old(closing) && calls == old(calls)
    {
      var i := 0;
      while i < |refs|
        invariant 0 <= i <= |refs| && refs == old(refs) && fds == old(fds) && closing == old(closing)
          && calls == old(calls)
        invariant FirstUnused(refs, 0) == FirstUnused(refs, i)
      {
        if refs[i] == 0 {
          refs := refs[i := 1];
          return true, i;
        }
        i := i + 1;
      }
      return false, 0;
    }

    method FileFree(f: nat)
      requires f < |refs|
      modifies this
      ensures refs == old(refs)[f := if old(refs)[f] != 0 then old(refs)[f] - 1 else 0]
      ensures fds == old(fds) && closing == old(closing) && calls == old(calls)
    {
      if refs[f] != 0 {
        refs := refs[f := refs[f] - 1];
      }
    }

    method FileIncRef(f: nat)
      requires f < |refs|
      modifies this
      ensures refs == old(refs)[f := old(refs)[f] + 1]
      ensures fds == old(fds) && closing == old(closing) && calls == old(calls)
    {
      refs := refs[f := refs[f] + 1];
    }

    // The first empty descriptor of task t is set to f.
    method TaskAllocFd(t: nat, f: nat) returns (ok: bool, fd: nat)
      requires t < |fds|
      modifies this
      ensures ok <==> FirstEmpty(old(fds)[t], 0) < |old(fds)[t]|
      ensures ok ==> fd == FirstEmpty(old(fds)[t], 0) && fds == old(fds)[t := old(fds)[t][fd := Open(f)]]
      ensures !ok ==> fds == old(fds)
      ensures refs == old(refs) && closing == old(closing) && calls == old(calls)
    {
      var i := 0;
      while i < |fds[t]|
        invariant 0 <= i <= |fds[t]| && refs == old(refs) && fds == old(fds) && closing == old(closing)
          && calls == old(calls)
        invariant FirstEmpty(fds[t], 0) == FirstEmpty(fds[t], i)
      {
        if fds[t][i] == Empty {
          fds := fds[t := fds[t][i := Open(f)]];
          return true, i;
        }
        i := i + 1;
      }
      return false, 0;
    }

    // agreed: what the file system's own open answers.
    method SysOpen(t: nat, agreed: bool) returns (ok: bool, fd: nat)
      requires Valid() && t < |fds| && FirstUnused(refs, 0) < |refs|
      modifies this
      ensures Valid() && S() == Opened(old(S()), t, agreed)
      ensures ok <==> agreed && FirstEmpty(old(fds)[t], 0) < |old(fds)[t]|
      ensures ok ==> fd == FirstEmpty(old(fds)[t], 0) < |fds[t]| && fds[t][fd].Open?
      ensures ok ==> AllUses(old(fds), fds[t][fd].f) == 0
    {
      hide Counted, LastOnes, Calls, Shape, Told, Uses, AllUses, FirstUnused, FirstEmpty;
      ghost var s := S();
      Unwatched(s, FileRefs.SysOpen(t, agreed));
      StepKeepsInv(s, FileRefs.SysOpen(t, agreed));
      var got, f := FileAlloc();
      Unused(s, f);
      ok, fd := TaskAllocFd(t, f);
      if !ok {
        FileFree(f);
        assert refs == s.refs;
      } else if !agreed {
        FileFree(f);
        fds := fds[t := fds[t][fd := Empty]];
        assert refs == s.refs && fds == s.fds by { Restored(s.fds, t, fd, f); }
        ok := false;
      } else {
        calls := calls + [FsOpen(f)];
      }
    }

    method SysDup(t: nat, fd: nat) returns (ok: bool, fd': nat)
      requires Valid() && t < |fds|
      modifies this
      ensures Valid()
      ensures !Holds(old(S()), t, fd) ==> !ok && S() == old(S())
      ensures Holds(old(S()), t, fd) ==> S() == Duped(old(S()), t, fd)
      ensures ok <==> Holds(old(S()), t, fd) && exists k :: 0 <= k < |old(fds)[t]| && old(fds)[t][k] == Empty
      ensures ok ==> fd' < |fds[t]| && fd < |fds[t]| && fds[t][fd'] == fds[t][fd] == old(fds)[t][fd]
      ensures ok ==> old(fds)[t][fd'] == Empty && forall k :: 0 <= k < fd' ==> old(fds)[t][k] != Empty
    {
      hide Counted, LastOnes, Calls, Told, Uses, AllUses, FirstEmpty;
      ghost var s := S();
      fd' := 0;
      if fd >= |fds[t]| || fds[t][fd] == Empty {
        return false, 0;
      }
      Unwatched(s, FileRefs.SysDup(t, fd));
      StepKeepsInv(s, FileRefs.SysDup(t, fd));
      var f := fds[t][fd].f;
      ok, fd' := TaskAllocFd(t, f);
      if ok {
        FileIncRef(f);
      }
    }

    // The last one also tells the file system.
    method SysClose(t: nat, fd: nat) returns (err: int)
      requires Valid() && t < |fds|
      modifies this
      ensures Valid() && |fds| == |old(fds)| && |refs| == |old(refs)|
      ensures !Holds(old(S()), t, fd) ==> err == -1 && S() == old(S())
      ensures Holds(old(S()), t, fd) ==> err == 0 && var s := old(S());
        && Shape(CloseBegun(s, t, fd)) && CloseBegun(s, t, fd).closing[t].Yes?
        && S() == CloseEnded(CloseBegun(s, t, fd), t) && fds == s.fds[t := s.fds[t][fd := Empty]]
    {
      hide Counted, LastOnes, Calls, Told, Uses, AllUses;
      ghost var s := S();
      if fd >= |fds[t]| || fds[t][fd] == Empty {
        return -1;
      }
      var f := fds[t][fd].f;
      LiveUse(s, t, fd);
      StepKeepsInv(s, CloseBegin(t, fd));
      StepKeepsInv(CloseBegun(s, t, fd), CloseEnd(t));
      var was := refs[f];
      refs := refs[f := refs[f] - 1];
      if was == 1 {
        calls := calls + [FsClose(f)];
        FileFree(f);
      }
      fds := fds[t := fds[t][fd := Empty]];
      assert closing[t := Yes(fd, was == 1)][t := No] == closing;
      return 0;
    }

    // A new task c shares every descriptor of its parent.
    method CopyOpenedFiles(t: nat, c: nat)
      requires Valid() && Can(S(), SysFork(t, c))
      modifies this
      ensures Valid() && S() == Forked(old(S()), t, c)
    {
      hide Inv, Told, AllUses, Uses, AddUses;
      ghost var s := S();
      Unwatched(s, SysFork(t, c));
      StepKeepsInv(s, SysFork(t, c));
      NoUses(s);
      assert s.fds[t][..0] + s.fds[c][0..] == s.fds[c] && s.fds[c := s.fds[c]] == s.fds && s.fds[t][..0] == [];
      var i := 0;
      while i < |fds[t]|
        invariant 0 <= i <= |s.fds[t]| && closing == s.closing && calls == s.calls
        invariant fds == s.fds[c := s.fds[t][..i] + s.fds[c][i..]]
        invariant refs == AddUses(s.refs, s.fds[t][..i])
      {
        var x := fds[t][i];
        CopyMore(s, t, c, i);
        if x.Open? {
          FileIncRef(x.f);
          fds := fds[c := fds[c][i := x]];
        }
        i := i + 1;
      }
      assert s.fds[t][..i] == s.fds[t] && s.fds[t][..i] + s.fds[c][i..] == s.fds[t];
    }

    // sys_exit closes whatever the task still has open.
    method CloseAll(t: nat)
      requires Valid() && t < |fds|
      modifies this
      ensures Valid() && |refs| == |old(refs)|
      ensures fds == old(fds)[t := seq(|old(fds)[t]|, i => Empty)]
      ensures forall f: nat {:trigger refs[f]} :: f < |refs| ==> refs[f] == AllUses(fds, f)
    {
      hide Counted, LastOnes, Calls, Told, AllUses, Uses, Inv, CloseEnded, CloseBegun;
      var fd := 0;
      var n := |fds[t]|;
      while fd < n
        invariant 0 <= fd <= n && Valid() && |fds| == |old(fds)| && |refs| == |old(refs)|
        invariant fds == old(fds)[t := fds[t]] && |fds[t]| == n == |old(fds)[t]|
        invariant forall k {:trigger fds[t][k]} :: 0 <= k < fd ==> fds[t][k] == Empty
        invariant forall k {:trigger fds[t][k]} :: fd <= k < n ==> fds[t][k] == old(fds)[t][k]
      {
        if fds[t][fd] != Empty {
          var err := SysClose(t, fd);
        }
        fd := fd + 1;
      }
      Settled(S());
      assert fds[t] == seq(n, i => Empty);
    }
  }

  // No close is under way, so no open can meet one.
  lemma Unwatched(s: Files, e: Event)
    requires Inv(s) && e.t < |s.fds| && forall t {:trigger s.closing[t]} :: 0 <= t < |s.closing| ==> s.closing[t].No?
    ensures |s.closing| == |s.fds| && s.closing[e.t].No? && Guarded(s, e)
  {
    hide Counted, LastOnes, Calls;
  }

  // An entry without a reference has no descriptor.
  lemma Unused(s: Files, f: nat)
    requires Inv(s) && f < |s.refs| && forall t {:trigger s.closing[t]} :: 0 <= t < |s.closing| ==> s.closing[t].No?
    ensures s.refs[f] == AllUses(s.fds, f)
    ensures f == FirstUnused(s.refs, 0) ==> s.refs[f] == 0
  {
    hide LastOnes, Calls;
    assert Live(s) == s.fds;
    assert s.refs[f] == AllUses(Live(s), f);
  }

  lemma Settled(s: Files)
    requires Inv(s) && forall t {:trigger s.closing[t]} :: 0 <= t < |s.closing| ==> s.closing[t].No?
    ensures forall f: nat {:trigger s.refs[f]} :: f < |s.refs| ==> s.refs[f] == AllUses(s.fds, f)
  {
    forall f: nat | f < |s.refs| ensures s.refs[f] == AllUses(s.fds, f) {
      Unused(s, f);
    }
  }

  lemma Restored(fds: seq<seq<Slot>>, t: nat, fd: nat, f: nat)
    requires t < |fds| && fd < |fds[t]| && fds[t][fd] == Empty
    ensures fds[t := fds[t][fd := Open(f)]][t := fds[t][fd := Open(f)][fd := Empty]] == fds
  {
    assert fds[t][fd := Open(f)][fd := Empty] == fds[t];
  }

  lemma NoUses(s: Files)
    ensures AddUses(s.refs, []) == s.refs
  {
    assert forall f: nat {:trigger s.refs[f]} :: f < |s.refs| ==> AddUses(s.refs, [])[f] == s.refs[f];
  }

  lemma CopyMore(s: Files, t: nat, c: nat, i: nat)
    requires Inv(s) && Can(s, SysFork(t, c)) && i < |s.fds[t]|
    ensures s.fds[t][i].Open? ==> s.fds[t][i].f < |s.refs|
    ensures var x, row, child := s.fds[t][i], s.fds[t], s.fds[t][..i] + s.fds[c][i..];
      (if x.Open? then child[i := x] else child) == row[..i + 1] + s.fds[c][i + 1..]
    ensures var x, before, after := s.fds[t][i], AddUses(s.refs, s.fds[t][..i]), AddUses(s.refs, s.fds[t][..i + 1]);
      after == if x.Open? then before[x.f := before[x.f] + 1] else before
  {
    hide Counted, LastOnes, Calls, Uses, AddUses;
    UsesMore(s.refs, s.fds[t], i);
    assert s.fds[t][..i + 1] == s.fds[t][..i] + [s.fds[t][i]] && s.fds[c][i..] == [s.fds[c][i]] + s.fds[c][i + 1..];
  }

  lemma UsesMore(refs: seq<int>, row: seq<Slot>, i: nat)
    requires i < |row| && (row[i].Open? ==> row[i].f < |refs|)
    ensures var x, before, after := row[i], AddUses(refs, row[..i]), AddUses(refs, row[..i + 1]);
      after == if x.Open? then before[x.f := before[x.f] + 1] else before
  {
    hide AddUses;
    var before, after := AddUses(refs, row[..i]), AddUses(refs, row[..i + 1]);
    assert row[..i + 1][..i] == row[..i];
    assert forall f: nat {:trigger after[f]} :: f < |refs| ==>
      after[f] == before[f] + if row[i] == Open(f) then 1 else 0;
  }
}

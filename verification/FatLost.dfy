/** Lost clusters: marked as in use, and in no file. Appending can lose some, and so
    can removing a file whose entry is out of date; no other call does. */
module FatLost {
  import opened Bytes
  import opened FatTable
  import opened FatLayout
  import opened FatVolume
  import opened FatCursor
  import opened FatFile
  import opened FatDir
  import opened FatStore
  import opened FatSystem
  import opened Klib

  ghost predicate Owned(s: Sys, c: int) {
    exists id :: id in s.files && c in s.files[id].ch
  }

  // Every cluster in use belongs to a file.
  ghost predicate NoLost(s: Sys) {
    forall c {:trigger s.v.table[c]} :: InTable(s.v.table, c) && s.v.table[c] != FREE ==> Owned(s, c)
  }

  // An append loses no cluster when it asks for none, when the file has none, or
  // when the cursor is on the last one; and when it fails for want of clusters.
  ghost predicate LosesNone(free: nat, len: nat, size: nat, n: nat, cb: nat)
    requires 0 < cb
  {
    if CanAppend(free, len, size, n, cb) then Reserve(size, n, cb) == 0 || len == 0 || Quot(size, cb) + 1 == len
    else free < Reserve(size, n, cb)
  }

  // A removal loses none when what it removes has none or its entry has the start.
  ghost predicate OpLosesNone(cb: nat, n: nat, s: Sys, op: Op)
    requires 0 < cb && RootOk(s.v.root, n)
  {
    match op
    case Append(id, buf, ok) =>
      && id in s.files && var r := s.files[id];
      LosesNone(|FreeClusters(s.v.table)|, |r.ch|, r.size, |buf|, cb)
    case Unlink(name, ok) =>
      ok ==>
        var k := Found(s.v.root, n, 0, name);
        k in s.files ==> s.files[k].ch == [] || StoredStart(s.v.root, n, k) == s.files[k].start
    case _ => true
  }

  // A removal frees the clusters of the file that it removes and no others. With an
  // entry that is out of date, or is no file's, it may free clusters in no file.
  ghost predicate FreesItsOwn(n: nat, s: Sys, op: Op)
    requires RootOk(s.v.root, n)
  {
    op.Unlink? && op.ok ==>
      var k := Found(s.v.root, n, 0, op.name);
      0 <= k && Walked(s.v.table, StoredStart(s.v.root, n, k)) == if k in s.files then s.files[k].ch else []
  }

  // ------------------------------------------------------------ appending

  // A table written in the clusters of one file and in free ones, which are in
  // use afterwards.
  ghost predicate Touched(t: Table, t': Table, ch: seq<int>, ch': seq<int>, taken: seq<int>) {
    && |t'| == |t|
    && (forall c :: c in taken ==> InTable(t, c) && t[c] == FREE && t'[c] != FREE)
    && (forall c :: c in ch ==> InTable(t, c) && t[c] != FREE && t'[c] != FREE)
    && (forall c {:trigger t'[c]} :: InTable(t, c) && c !in ch && c !in taken ==> t'[c] == t[c])
    && (forall c :: c in ch' ==> c in ch || c in taken)
  }

  lemma AppendTouches(cb: nat, v: Vol, v': Vol, s: int, s': int, ch: seq<int>, ch': seq<int>, taken: seq<int>,
                      size: nat, buf: seq<byte>)
    requires 0 < cb && Chain(v.table, s, ch) && Appended(cb, v, v', s', ch, ch', taken, size, buf)
    ensures Touched(v.table, v'.table, ch, ch', taken)
  {
    ChainHasNoFree(v.table, s, ch);
    hide Chain, Covers, Content, Takes, CanAppend, Grown, FreeBelow, Fits, Cluster;
  }

  // The clusters held before or taken now are all in the new chain, or one is not.
  lemma KeepsOrCutsOff(cb: nat, v: Vol, v': Vol, s: int, s': int, ch: seq<int>, ch': seq<int>, taken: seq<int>,
                       size: nat, buf: seq<byte>)
    returns (x: int)
    requires 0 < cb && Chain(v.table, s, ch) && Appended(cb, v, v', s', ch, ch', taken, size, buf)
    requires Touched(v.table, v'.table, ch, ch', taken)
    ensures if LosesNone(|FreeClusters(v.table)|, |ch|, size, |buf|, cb)
            then forall c :: c in ch || c in taken ==> c in ch'
            else (x in ch || x in taken) && x !in ch'
  {
    hide Chain, Content, FreeBelow, OnlyTouches, AllFit, Quot, Wanted, Covers;
    x := 0;
    if buf != [] { CoversFew(v, cb, ch, size, |buf|); }
    var free, i := |FreeClusters(v.table)|, Quot(size, cb);
    if !LosesNone(free, |ch|, size, |buf|, cb) {
      assert taken != [];
      if CanAppend(free, |ch|, size, |buf|, cb) {
        x := ch[|ch| - 1];
        ChainIsAcyclic(v.table, s, ch);
        assert x in ch && x !in taken;
      } else {
        x := taken[0];
        assert x in taken && x !in ch;
      }
    }
  }

  lemma AppendLoses(cb: nat, n: nat, s: Sys, id: nat, buf: seq<byte>, ok: bool, s': Sys)
    requires Inv(cb, n, s) && AppendStep(cb, s, id, buf, ok, s')
    ensures NoLost(s') <==> NoLost(s) && OpLosesNone(cb, n, s, Append(id, buf, ok))
  {
    hide Appended, Content, LosesNone, CanAppend, FreeBelow, Chain, EntryOk;
    var r, r' := s.files[id], s'.files[id];
    var taken :| Appended(cb, s.v, s'.v, r'.start, r.ch, r'.ch, taken, r.size, buf);
    assert FileOk(cb, s.v, r);
    AppendTouches(cb, s.v, s'.v, r.start, r'.start, r.ch, r'.ch, taken, r.size, buf);
    var x := KeepsOrCutsOff(cb, s.v, s'.v, r.start, r'.start, r.ch, r'.ch, taken, r.size, buf);
    OthersHoldNone(cb, n, s, id, r.ch + taken);
    hide Inv;
    OwnersAfter(s, id, s', taken, x, LosesNone(|FreeClusters(s.v.table)|, |r.ch|, r.size, |buf|, cb));
  }

  // Neither the file's own clusters nor free ones are in another file.
  lemma OthersHoldNone(cb: nat, n: nat, s: Sys, id: nat, cs: seq<int>)
    requires Inv(cb, n, s) && id in s.files
    requires forall c :: c in cs ==> c in s.files[id].ch || (InTable(s.v.table, c) && s.v.table[c] == FREE)
    ensures forall j, c :: j in s.files && j != id && c in cs ==> c !in s.files[j].ch
  {
    hide Content, Covers, EntryOk;
    forall j, c | j in s.files && j != id && c in cs ensures c !in s.files[j].ch {
      assert FileOk(cb, s.v, s.files[j]);
      ChainHasNoFree(s.v.table, s.files[j].start, s.files[j].ch);
      hide Chain;
      assert Disjoint(s.files[id].ch, s.files[j].ch);
    }
  }

  lemma OwnersAfter(s: Sys, id: nat, s': Sys, taken: seq<int>, x: int, keeps: bool)
    requires id in s.files && id in s'.files && s'.files == s.files[id := s'.files[id]]
    requires Touched(s.v.table, s'.v.table, s.files[id].ch, s'.files[id].ch, taken)
    requires forall j, c :: j in s.files && j != id && c in s.files[id].ch + taken ==> c !in s.files[j].ch
    requires if keeps then forall c :: c in s.files[id].ch || c in taken ==> c in s'.files[id].ch
             else (x in s.files[id].ch || x in taken) && x !in s'.files[id].ch
    ensures NoLost(s') <==> NoLost(s) && keeps
  {
    var t, t', ch, ch' := s.v.table, s'.v.table, s.files[id].ch, s'.files[id].ch;
    forall c | InTable(t, c) && c !in ch && c !in taken ensures Owned(s', c) <==> Owned(s, c) {
      if Owned(s, c) { var j :| j in s.files && c in s.files[j].ch; assert j in s'.files && c in s'.files[j].ch; }
      if Owned(s', c) { var j :| j in s'.files && c in s'.files[j].ch; assert j in s.files && c in s.files[j].ch; }
    }
    if keeps {
      assert forall c :: c in ch || c in taken ==> c in ch';
    } else {
      assert x in ch + taken && InTable(t', x) && t'[x] != FREE && !Owned(s', x);
    }
    if NoLost(s') {
      forall c | InTable(t, c) && t[c] != FREE ensures Owned(s, c) {
        if c !in ch { assert t'[c] != FREE; }
      }
    }
    if NoLost(s) && keeps {
      forall c | InTable(t', c) && t'[c] != FREE ensures Owned(s', c) {
        if c !in ch && c !in taken { assert t[c] != FREE; } else { assert c in s'.files[id].ch; }
      }
    }
  }

  // ------------------------------------------------------------ the other calls

  ghost predicate OwnedBeside(s: Sys, id: nat, c: int) {
    exists j :: j in s.files && j != id && c in s.files[j].ch
  }

  // The walk from `start` meets every cluster in use that no file but `id` has.
  ghost predicate MeetsTheRest(s: Sys, id: nat, start: int) {
    forall c {:trigger s.v.table[c]} ::
      InTable(s.v.table, c) && s.v.table[c] != FREE && !OwnedBeside(s, id, c) ==> c in Walked(s.v.table, start)
  }

  // What the walk from `start` meets is freed, and file `id` emptied or removed.
  lemma FreeingLoses(s: Sys, id: nat, start: int, s': Sys)
    requires s'.v.table == FreeFrom(s.v.table, start)
    requires forall j :: j != id ==> (j in s'.files <==> j in s.files)
    requires forall j :: j in s.files && j != id ==> s'.files[j] == s.files[j]
    requires id in s'.files ==> s'.files[id].ch == []
    ensures NoLost(s') <==> MeetsTheRest(s, id, start)
  {
    WalkClears(s.v.table, start);
    hide FreeFrom, Walked;
    var t, t', cs := s.v.table, s'.v.table, Walked(s.v.table, start);
    assert forall c :: InTable(t, c) ==> t'[c] == if c in cs then FREE else t[c];
    forall c ensures Owned(s', c) <==> OwnedBeside(s, id, c) {
      if Owned(s', c) { var j :| j in s'.files && c in s'.files[j].ch; assert j in s.files && c in s.files[j].ch; }
      if OwnedBeside(s, id, c) {
        var j :| j in s.files && j != id && c in s.files[j].ch;
        assert j in s'.files && c in s'.files[j].ch;
      }
    }
    if NoLost(s') {
      forall c | InTable(t, c) && t[c] != FREE && !OwnedBeside(s, id, c) ensures c in cs {
        assert t'[c] != FREE ==> Owned(s', c);
      }
    }
    if MeetsTheRest(s, id, start) {
      forall c | InTable(t', c) && t'[c] != FREE ensures Owned(s', c) { assert t[c] != FREE; }
    }
  }

  // When it is exactly the file's own clusters that the walk meets.
  lemma OwnMeetsTheRest(s: Sys, id: nat, start: int)
    requires Walked(s.v.table, start) == if id in s.files then s.files[id].ch else []
    ensures MeetsTheRest(s, id, start) <==> NoLost(s)
  {
    hide Walked;
    forall c ensures Owned(s, c) <==> OwnedBeside(s, id, c) || (id in s.files && c in s.files[id].ch) {
      if Owned(s, c) { var j :| j in s.files && c in s.files[j].ch; }
    }
  }

  // With no cluster lost so far, whoever walks into a chain does so at one of its
  // elements, and so meets all the clusters of `id` only from its start.
  lemma MeetsTheRestIff(cb: nat, n: nat, s: Sys, id: nat, start: int)
    requires Inv(cb, n, s) && NoLost(s)
    ensures MeetsTheRest(s, id, start) <==>
      (id in s.files ==> s.files[id].ch == [] || start == s.files[id].start)
  {
    hide Content, Covers, EntryOk;
    if id in s.files {
      MeetsTheChainIff(cb, n, s, id, start);
    } else {
      forall c | InTable(s.v.table, c) && s.v.table[c] != FREE ensures OwnedBeside(s, id, c) { assert Owned(s, c); }
    }
  }

  lemma MeetsTheChainIff(cb: nat, n: nat, s: Sys, id: nat, start: int)
    requires Inv(cb, n, s) && NoLost(s) && id in s.files
    ensures MeetsTheRest(s, id, start) <==> s.files[id].ch == [] || start == s.files[id].start
  {
    hide Content, Covers, EntryOk;
    var r := s.files[id];
    assert FileOk(cb, s.v, r);
    ChainHasNoFree(s.v.table, r.start, r.ch);
    ChainIsAcyclic(s.v.table, r.start, r.ch);
    OwnStartSpares(cb, n, s, id);
    OwnMeetsTheRest(s, id, r.start);
    OthersHoldNone(cb, n, s, id, r.ch);
    if r.ch == [] {
      forall c | InTable(s.v.table, c) && s.v.table[c] != FREE ensures OwnedBeside(s, id, c) { assert Owned(s, c); }
    } else if MeetsTheRest(s, id, start) {
      var c := r.ch[0];
      assert c in r.ch && !OwnedBeside(s, id, c);
      var _ := WalkBeginsIn(cb, n, s, start, c);
    }
  }

  // The file in whose chain a walk that meets c begins, and from where on.
  lemma WalkBeginsIn(cb: nat, n: nat, s: Sys, start: int, c: int)
    returns (j: nat)
    requires Inv(cb, n, s) && NoLost(s) && c in Walked(s.v.table, start)
    ensures j in s.files && start in s.files[j].ch && c in s.files[j].ch
    ensures s.files[j].ch[0] == c ==> start == c
  {
    assert InTable(s.v.table, start) && s.v.table[start] != FREE;
    assert Owned(s, start);
    j :| j in s.files && start in s.files[j].ch;
    var r := s.files[j];
    var i :| 0 <= i < |r.ch| && r.ch[i] == start;
    assert FileOk(cb, s.v, r);
    WalkInChain(s.v.table, r.start, r.ch, i);
    ChainIsAcyclic(s.v.table, r.start, r.ch);
    var k :| 0 <= k < |r.ch[i..]| && r.ch[i..][k] == c;
    assert r.ch[i + k] == c;
  }

  lemma SameChains(s: Sys, s': Sys)
    requires s'.v.table == s.v.table
    requires forall j :: j in s.files ==> j in s'.files && s'.files[j].ch == s.files[j].ch
    requires forall j :: j in s'.files && j !in s.files ==> s'.files[j].ch == []
    ensures NoLost(s') <==> NoLost(s)
  {
    forall c ensures Owned(s', c) <==> Owned(s, c) {
      if Owned(s, c) { var j :| j in s.files && c in s.files[j].ch; assert j in s'.files && c in s'.files[j].ch; }
      if Owned(s', c) { var j :| j in s'.files && c in s'.files[j].ch; assert j in s.files && c in s.files[j].ch; }
    }
  }

  // Removing a file, open or not: no cluster is lost afterwards exactly when the
  // walk from the start in the entry met all that no other file has. With none lost
  // before that means: exactly when the file has no clusters, or the entry has its
  // start. A new file's entry has none until the close, so that it loses them all.
  lemma UnlinkOpenLoses(cb: nat, n: nat, s: Sys, name: seq<byte>, v': Vol)
    requires Inv(cb, n, s) && UnlinkDone(s.v, v', n, name, 0)
    requires Found(s.v.root, n, 0, name) in s.files
    ensures var k := Found(s.v.root, n, 0, name);
      var r, stored, s' := s.files[k], StoredStart(s.v.root, n, k), Sys(v', s.files - {k});
      && (NoLost(s') <==> MeetsTheRest(s, k, stored))
      && (NoLost(s) ==> (NoLost(s') <==> r.ch == [] || stored == r.start))
      && (r.ch != [] && !IsCluster(stored) ==> r.mode == Writable && !NoLost(s'))
  {
    hide Content, Covers, Splice, DirItem, StartOf, Found, MeetsTheRest, NoLost, FreeFrom;
    var k := Found(s.v.root, n, 0, name);
    var r, stored, s' := s.files[k], StoredStart(s.v.root, n, k), Sys(v', s.files - {k});
    FreeingLoses(s, k, stored, s');
    if NoLost(s) { MeetsTheRestIff(cb, n, s, k, stored); }
    assert FileOk(cb, s.v, r) && EntryOk(s.v.root, n, k, r);
    if r.ch != [] && !IsCluster(stored) { MeetsNothing(cb, n, s, k, stored); }
  }

  lemma MeetsNothing(cb: nat, n: nat, s: Sys, id: nat, start: int)
    requires Inv(cb, n, s) && id in s.files && s.files[id].ch != [] && !IsCluster(start)
    ensures !MeetsTheRest(s, id, start) && start != s.files[id].start
  {
    hide Content, Covers, EntryOk;
    var r := s.files[id];
    assert FileOk(cb, s.v, r);
    ChainHasNoFree(s.v.table, r.start, r.ch);
    OthersHoldNone(cb, n, s, id, r.ch);
    assert r.ch[0] in r.ch && !OwnedBeside(s, id, r.ch[0]);
  }

  // After a step no cluster is lost exactly when none was lost before and the step
  // was neither an append nor a removal that loses some. Only a removal that frees
  // what is not its own can give back what was lost.
  lemma StepLoses(cb: nat, n: nat, s: Sys, op: Op, s': Sys)
    requires Inv(cb, n, s) && Step(cb, n, s, op, s')
    ensures NoLost(s) ==> (NoLost(s') <==> OpLosesNone(cb, n, s, op))
    ensures FreesItsOwn(n, s, op) ==> (NoLost(s') <==> NoLost(s) && OpLosesNone(cb, n, s, op))
  {
    hide NoLost, Content, FreeFrom, Walked, Chain, Covers, DirItem, EntryOk, Splice, Found, MeetsTheRest, LosesNone,
         StoredStart, Spares;
    match op
    case Append(id, buf, ok) => AppendLoses(cb, n, s, id, buf, ok, s');
    case Open(name, trunc, creat, index) =>
      var mode :| OpenStep(n, s, name, trunc, creat, mode, index, s');
      var k := Found(s.v.root, n, 0, name);
      if 0 <= k && trunc {
        OwnStartSpares(cb, n, s, k);
        FreeingLoses(s, k, s.files[k].start, s');
        OwnMeetsTheRest(s, k, s.files[k].start);
      }
      else {
        PlaceAgrees(cb, n, s, 0, -1);
        SameChains(s, s');
      }
    case Unlink(name, ok) =>
      if ok { UnlinkLoses(cb, n, s, name, s'); } else { SameChains(s, s'); }
    case Close(_) => SameChains(s, s');
    case Read(_, _, _, _) => SameChains(s, s');
  }

  ghost predicate EachLosesNone(cb: nat, n: nat, states: seq<Sys>, ops: seq<Op>)
    requires 0 < cb && |states| == |ops| + 1
  {
    forall i {:trigger ops[i]} :: 0 <= i < |ops| ==>
      RootOk(states[i].v.root, n) && OpLosesNone(cb, n, states[i], ops[i])
  }

  ghost predicate EachFreesItsOwn(n: nat, states: seq<Sys>, ops: seq<Op>)
    requires |states| == |ops| + 1
  {
    forall i {:trigger ops[i]} :: 0 <= i < |ops| ==>
      RootOk(states[i].v.root, n) && FreesItsOwn(n, states[i], ops[i])
  }

  lemma EachSplits(cb: nat, n: nat, states: seq<Sys>, ops: seq<Op>)
    requires 0 < cb && |states| == |ops| + 1 && ops != [] && Inv(cb, n, states[0])
    ensures EachLosesNone(cb, n, states, ops) <==>
      OpLosesNone(cb, n, states[0], ops[0]) && EachLosesNone(cb, n, states[1..], ops[1..])
    ensures EachFreesItsOwn(n, states, ops) <==>
      FreesItsOwn(n, states[0], ops[0]) && EachFreesItsOwn(n, states[1..], ops[1..])
  {
    hide OpLosesNone, FreesItsOwn;
    forall i | 0 < i < |ops| ensures ops[1..][i - 1] == ops[i] && states[1..][i - 1] == states[i] {}
    forall m | 0 <= m < |ops[1..]| ensures ops[1..][m] == ops[m + 1] && states[1..][m] == states[m + 1] {}
  }

  lemma UnlinkLoses(cb: nat, n: nat, s: Sys, name: seq<byte>, s': Sys)
    requires 0 < cb && Inv(cb, n, s) && UnlinkStep(n, s, name, true, s')
    ensures NoLost(s) ==> (NoLost(s') <==> OpLosesNone(cb, n, s, Unlink(name, true)))
    ensures FreesItsOwn(n, s, Unlink(name, true)) ==>
      (NoLost(s') <==> NoLost(s) && OpLosesNone(cb, n, s, Unlink(name, true)))
  {
    hide NoLost, Content, FreeFrom, Walked, Chain, Covers, DirItem, EntryOk, Splice, Found, MeetsTheRest, StoredStart,
         Spares;
    var k := Found(s.v.root, n, 0, name);
    FreeingLoses(s, k, StoredStart(s.v.root, n, k), s');
    if NoLost(s) { MeetsTheRestIff(cb, n, s, k, StoredStart(s.v.root, n, k)); }
    if FreesItsOwn(n, s, Unlink(name, true)) {
      OwnMeetsTheRest(s, k, StoredStart(s.v.root, n, k));
    }
  }

  // Over a whole run: no cluster is lost at the end when none was lost at the start
  // and every append and removal of the run met its condition; and only then, as
  // long as no removal frees what is not its own.
  lemma {:induction false} RunLoses(cb: nat, n: nat, states: seq<Sys>, ops: seq<Op>)
    requires 0 < cb && Run(cb, n, states, ops) && Inv(cb, n, states[0])
    ensures NoLost(states[0]) && EachLosesNone(cb, n, states, ops) ==> NoLost(states[|ops|])
    ensures EachFreesItsOwn(n, states, ops) ==>
      (NoLost(states[|ops|]) <==> NoLost(states[0]) && EachLosesNone(cb, n, states, ops))
    decreases |ops|
  {
    hide Inv, Step, NoLost, OpLosesNone, FreesItsOwn, Refines;
    if ops != [] {
      RunTail(cb, n, states, ops);
      StepLoses(cb, n, states[0], ops[0], states[1]);
      StepKeepsInv(cb, n, states[0], ops[0], states[1]);
      RunLoses(cb, n, states[1..], ops[1..]);
      EachSplits(cb, n, states, ops);
    }
  }

  // ------------------------------------------------------------ an example

  // How an append that succeeds changes the numbers of the file and of the free
  // clusters.
  lemma AppendNumbers(cb: nat, n: nat, s: Sys, id: nat, buf: seq<byte>, s': Sys)
    requires Inv(cb, n, s) && AppendStep(cb, s, id, buf, true, s')
    ensures var r, r', free := s.files[id], s'.files[id], |FreeClusters(s.v.table)|;
      var k := Takes(free, |r.ch|, r.size, |buf|, cb);
      && r'.size == r.size + |buf| && |r'.ch| == LengthWith(|r.ch|, r.size, k, cb)
      && |FreeClusters(s'.v.table)| == free - k
  {
    hide Appended, Content, CanAppend, FreeBelow, Chain, EntryOk, Takes, LengthWith, Covers;
    var r, r' := s.files[id], s'.files[id];
    var taken :| Appended(cb, s.v, s'.v, r'.start, r.ch, r'.ch, taken, r.size, buf);
    assert FileOk(cb, s.v, r);
    AfterWrite(cb, s.v, s'.v, r.start, r'.start, r.ch, r'.ch, taken, r.size, buf);
  }

  // Half clusters of h bytes appended to an empty file: three at once, and then
  // one by one. The chain grows to 2, 3, 4 clusters, one more than the bytes need,
  // and the last append links behind the third.
  lemma ExampleNumbers(free: nat, h: nat)
    requires 0 < h && 5 <= free
    ensures var cb := 2 * h;
      && Takes(free, 0, 0, 3 * h, cb) == 2 && LengthWith(0, 0, 2, cb) == 2 && LosesNone(free, 0, 0, 3 * h, cb)
      && Takes(free - 2, 2, 3 * h, h, cb) == 1 && LengthWith(2, 3 * h, 1, cb) == 3
      && LosesNone(free - 2, 2, 3 * h, h, cb)
      && Takes(free - 3, 3, 4 * h, h, cb) == 1 && LengthWith(3, 4 * h, 1, cb) == 4
      && LosesNone(free - 3, 3, 4 * h, h, cb)
      && !LosesNone(free - 4, 4, 5 * h, h, cb)
  {
    hide Quot, Rem;
    var cb := 2 * h;
    DivModUnique(0, cb, 0, 0);
    DivModUnique(3 * h, cb, 1, h);
    DivModUnique(4 * h, cb, 2, 0);
    DivModUnique(5 * h, cb, 2, h);
    CeilUnique(3 * h, cb, 2);
    CeilUnique(h, cb, 1);
    CeilUnique(0, cb, 0);
  }

  // Whatever the volume, if it has five free clusters: the fourth of these appends
  // cuts off a cluster that nothing will free.
  lemma LostExample(cb: nat, n: nat, h: nat, states: seq<Sys>, ops: seq<Op>, id: nat)
    requires 0 < h && cb == 2 * h && Run(cb, n, states, ops) && |ops| == 4
    requires Inv(cb, n, states[0]) && NoLost(states[0])
    requires id in states[0].files && states[0].files[id].ch == [] && states[0].files[id].size == 0
    requires 5 <= |FreeClusters(states[0].v.table)|
    requires forall i :: 0 <= i < 4 ==>
      ops[i].Append? && ops[i].id == id && ops[i].ok && |ops[i].buf| == if i == 0 then 3 * h else h
    ensures NoLost(states[3]) && !NoLost(states[4])
  {
    hide Inv, AppendStep, Takes, LengthWith, LosesNone, FreeBelow, NoLost;
    ExampleNumbers(|FreeClusters(states[0].v.table)|, h);
    ExampleStep(cb, n, states, ops, id, 0);
    ExampleStep(cb, n, states, ops, id, 1);
    ExampleStep(cb, n, states, ops, id, 2);
    ExampleStep(cb, n, states, ops, id, 3);
  }

  lemma ExampleStep(cb: nat, n: nat, states: seq<Sys>, ops: seq<Op>, id: nat, i: nat)
    requires 0 < cb && Run(cb, n, states, ops) && i < |ops| && Inv(cb, n, states[i])
    requires ops[i].Append? && ops[i].id == id && ops[i].ok
    ensures Inv(cb, n, states[i + 1]) && id in states[i].files && id in states[i + 1].files
    ensures var s, s', n := states[i], states[i + 1], |ops[i].buf|;
      var r, r', free := s.files[id], s'.files[id], |FreeClusters(s.v.table)|;
      var k := Takes(free, |r.ch|, r.size, n, cb);
      && r'.size == r.size + n && |r'.ch| == LengthWith(|r.ch|, r.size, k, cb)
      && |FreeClusters(s'.v.table)| == free - k
      && (NoLost(s') <==> NoLost(s) && LosesNone(free, |r.ch|, r.size, n, cb))
  {
    hide Inv, Takes, LengthWith, LosesNone, FreeBelow, NoLost;
    assert Step(cb, n, states[i], ops[i], states[i + 1]);
    StepKeepsInv(cb, n, states[i], ops[i], states[i + 1]);
    AppendNumbers(cb, n, states[i], id, ops[i].buf, states[i + 1]);
    StepLoses(cb, n, states[i], ops[i], states[i + 1]);
  }
}

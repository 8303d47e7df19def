/** Removing a file that is open. The entry says where its chain starts, and it is
    written only when the file is closed: in between, the start in it may be that of
    another file by now. What goes wrong then, exactly when, and a run that gets
    there; and what becomes of the handle. */
module FatUnlink {
  import opened Bytes
  import opened FatTable
  import opened FatLayout
  import opened FatVolume
  import opened FatCursor
  import opened FatFile
  import opened FatDir
  import opened FatStore
  import opened FatSystem
  import opened FatLost
  import opened Klib

  // Removing an entry, a file's or not, open or not, keeps the files well formed and
  // apart exactly when the walk from the start in the entry meets no other file.
  lemma UnlinkKeepsInvIff(cb: nat, n: nat, s: Sys, name: seq<byte>, v': Vol)
    requires Inv(cb, n, s) && UnlinkDone(s.v, v', n, name, 0)
    ensures var k: nat := Found(s.v.root, n, 0, name);
      Inv(cb, n, Sys(v', s.files - {k})) <==> Spares(s, k, StoredStart(s.v.root, n, k))
  {
    hide Content, StartOf, SizeOf, Chain, Covers, Splice, DirItem, Found, FreeFrom, Walked;
    var k: nat := Found(s.v.root, n, 0, name);
    var start, s' := StoredStart(s.v.root, n, k), Sys(v', s.files - {k});
    if Spares(s, k, start) {
      OthersBeside(cb, n, s, k, seq(DIR_ITEM, _ => 0), start, s');
      InvFrom(cb, n, s, k, s');
    }
    if Inv(cb, n, s') {
      forall j | j in s.files && j != k ensures Disjoint(Walked(s.v.table, start), s.files[j].ch) {
        assert FileOk(cb, s'.v, s'.files[j]);
        FreedIsInNoChain(s.v.table, start, s'.v.table, s.files[j].start, s.files[j].ch);
      }
    }
  }

  lemma FreedIsInNoChain(t: Table, start: int, t': Table, first: int, ch: seq<int>)
    requires t' == FreeFrom(t, start) && Chain(t', first, ch)
    ensures Disjoint(Walked(t, start), ch)
  {
    WalkClears(t, start);
    ChainHasNoFree(t', first, ch);
    hide Chain, FreeFrom, Walked;
  }

  // With no cluster lost before, the walk meets another file exactly when the start
  // in the entry is in that file's chain; and then frees the chain from there on.
  lemma SparesIff(cb: nat, n: nat, s: Sys, k: nat, start: int)
    requires Inv(cb, n, s) && NoLost(s)
    ensures Spares(s, k, start) <==> forall j :: j in s.files && j != k ==> start !in s.files[j].ch
    ensures forall j, i :: j in s.files && 0 <= i < |s.files[j].ch| && start == s.files[j].ch[i] ==>
      Walked(s.v.table, start) == s.files[j].ch[i..]
  {
    hide Content, Covers, EntryOk, NoLost;
    forall j, i | j in s.files && 0 <= i < |s.files[j].ch| && start == s.files[j].ch[i]
      ensures start in Walked(s.v.table, start) && Walked(s.v.table, start) == s.files[j].ch[i..]
    {
      assert FileOk(cb, s.v, s.files[j]);
      WalkInChain(s.v.table, s.files[j].start, s.files[j].ch, i);
    }
    hide Walked, Chain;
    if forall j :: j in s.files && j != k ==> start !in s.files[j].ch {
      forall j, c | j in s.files && j != k && c in Walked(s.v.table, start) ensures c !in s.files[j].ch {
        var l := WalkBeginsIn(cb, n, s, start, c);
        assert l == k && Disjoint(s.files[k].ch, s.files[j].ch);
      }
    }
  }

  // ------------------------------------------------------------ a run that gets there

  // The only cluster was freed by truncating file a; file b, which had none, gets
  // it; the entry of a still says that it is a's.
  lemma UnlinkOpenExample(cb: nat, n: nat, states: seq<Sys>, ops: seq<Op>, a: nat, b: nat, v': Vol)
    requires 0 < cb && Run(cb, n, states, ops) && |ops| == 3 && Inv(cb, n, states[0])
    requires a != b && a in states[0].files && b in states[0].files && |states[0].v.table| == 3
    requires states[0].files[a].ch == [2] && states[0].files[b].ch == []
    requires ops[0].Open? && ops[0].trunc && Found(states[0].v.root, n, 0, ops[0].name) == a
    requires ops[1].Open? && !ops[1].trunc && Found(states[0].v.root, n, 0, ops[1].name) == b
    requires ops[2].Append? && ops[2].id == b && 0 < |ops[2].buf| <= cb
    requires UnlinkDone(states[3].v, v', n, ops[0].name, 0)
    ensures var s := states[3];
      && Inv(cb, n, s) && ops[2].ok && a in s.files && b in s.files
      && s.files[a].mode == s.files[b].mode == Writable && StoredStart(s.v.root, n, a) == 2
      && s.files[b].ch == [2] && s.files[b].size == |ops[2].buf|
      && |v'.table| == 3 && v'.table[2] == FREE && !Inv(cb, n, Sys(v', s.files - {a}))
  {
    hide Inv, Step, Chain, Found, Slot, FreeFrom, Walked, Splice, DirItem, StartOf, SizeOf, Content, Covers, FreeBelow,
         OpenStep, AppendStep, Spares, UnlinkDone, RootOk;
    Truncates(cb, n, states[0], ops[0], a, states[1]);
    StepKeepsInv(cb, n, states[0], ops[0], states[1]);
    Reopens(cb, n, states[1], ops[1], b, states[2]);
    StepKeepsInv(cb, n, states[1], ops[1], states[2]);
    TakesTheFreed(cb, n, states[2], ops[2], b, states[3]);
    StepKeepsInv(cb, n, states[2], ops[2], states[3]);
    HitsTheOther(cb, n, states[3], ops[0].name, a, b, v');
  }

  lemma Truncates(cb: nat, n: nat, s: Sys, op: Op, a: nat, s': Sys)
    requires 0 < cb && Inv(cb, n, s) && Step(cb, n, s, op, s') && op.Open? && op.trunc
    requires Found(s.v.root, n, 0, op.name) == a && a in s.files && s.files[a].ch == [2]
    ensures s'.v.root == s.v.root && s'.files == s.files[a := Rec(EOC, 0, [], Writable)]
    ensures StoredStart(s.v.root, n, a) == 2
    ensures |s.v.table| == 3 ==> |s'.v.table| == 3 && s'.v.table[2] == FREE
  {
    hide Chain, Found, Slot, Splice, DirItem, StartOf, SizeOf, Content, Covers;
    assert FileOk(cb, s.v, s.files[a]) && EntryOk(s.v.root, n, a, s.files[a]);
    OneCluster(s.v.table, s.files[a].start);
    hide FreeFrom;
  }

  lemma OneCluster(t: Table, start: int)
    requires Chain(t, start, [2])
    ensures start == 2 && |t| > 2 && FreeFrom(t, start)[2] == FREE
  {
    FreeingAChain(t, start, [2]);
    assert InTable(t, [2][0]);
  }

  lemma Reopens(cb: nat, n: nat, s: Sys, op: Op, b: nat, s': Sys)
    requires 0 < cb && Inv(cb, n, s) && Step(cb, n, s, op, s') && op.Open? && !op.trunc
    requires Found(s.v.root, n, 0, op.name) == b && b in s.files
    ensures s'.v == s.v && exists mode :: s'.files == s.files[b := s.files[b].(mode := mode)]
  {
    hide Chain, Found, Slot, Splice, DirItem, StartOf, SizeOf, Content, Covers, FreeFrom;
  }

  lemma TakesTheFreed(cb: nat, n: nat, s: Sys, op: Op, b: nat, s': Sys)
    requires 0 < cb && Inv(cb, n, s) && Step(cb, n, s, op, s') && op.Append? && op.id == b && 0 < |op.buf| <= cb
    requires b in s.files && s.files[b].ch == [] && |s.v.table| == 3 && s.v.table[2] == FREE
    ensures op.ok && s'.v.root == s.v.root && |s'.v.table| == 3
    ensures b in s'.files && s'.files == s.files[b := s'.files[b]]
    ensures s'.files[b].ch == [2] && s'.files[b].size == |op.buf| && s'.files[b].mode == Writable
  {
    hide Appended, Chain, DirItem, StartOf, SizeOf, Content, AllFit, Fits, EntryOk, CanAppend, FreeBelow;
    assert FileOk(cb, s.v, s.files[b]);
    var r' := s'.files[b];
    var taken :| Appended(cb, s.v, s'.v, r'.start, [], r'.ch, taken, 0, op.buf);
    GetsTheFreed(cb, s.v, s'.v, r'.start, r'.ch, taken, op.buf);
  }

  lemma GetsTheFreed(cb: nat, v: Vol, v': Vol, start: int, ch: seq<int>, taken: seq<int>, buf: seq<byte>)
    requires 0 < |buf| <= cb && |v.table| == 3 && v.table[2] == FREE
    requires Appended(cb, v, v', start, [], ch, taken, 0, buf)
    ensures CanAppend(|FreeClusters(v.table)|, 0, 0, |buf|, cb)
    ensures ch == [2] && v'.root == v.root && |v'.table| == 3
  {
    hide FreeBelow, Chain, Content, AllFit, Fits, Quot, Rem, Wanted, FillsChain;
    OneFree(v.table);
    OneWanted(|buf|, cb);
  }

  lemma OneFree(t: Table)
    requires |t| == 3 && t[2] == FREE
    ensures FreeClusters(t) == [2]
  {
    assert FreeBelow(t, 2) == [];
    assert FreeBelow(t, 3) == FreeBelow(t, 2) + [2];
  }

  lemma OneWanted(n: nat, cb: nat)
    requires 0 < n <= cb
    ensures Wanted(0, n, cb) == 1 && Quot(0, cb) == 0
  {
    hide Quot, Rem;
    DivModUnique(0, cb, 0, 0);
    CeilUnique(n, cb, 1);
  }

  lemma HitsTheOther(cb: nat, n: nat, s: Sys, name: seq<byte>, a: nat, b: nat, v': Vol)
    requires Inv(cb, n, s) && UnlinkDone(s.v, v', n, name, 0) && Found(s.v.root, n, 0, name) == a
    requires a != b && b in s.files && s.files[b].ch == [2] && StoredStart(s.v.root, n, a) == 2
    ensures |v'.table| == |s.v.table| > 2 && v'.table[2] == FREE && !Inv(cb, n, Sys(v', s.files - {a}))
  {
    hide Content, StartOf, SizeOf, Covers, Splice, DirItem, Found, EntryOk;
    UnlinkKeepsInvIff(cb, n, s, name, v');
    assert FileOk(cb, s.v, s.files[b]);
    OneCluster(s.v.table, s.files[b].start);
    WalkOfChain(s.v.table, 2, [2]);
    assert 2 in Walked(s.v.table, 2) && 2 in s.files[b].ch;
  }

  // Such runs exist, for every cluster size: here is one from a volume with two
  // files and one cluster.
  lemma UnlinkOpenHappens(cb: nat)
    returns (states: seq<Sys>, ops: seq<Op>)
    requires 0 < cb
    ensures Run(cb, 2, states, ops) && |ops| == 3 && Inv(cb, 2, states[0])
    ensures states[0].files.Keys == {0, 1} && |states[0].v.table| == 3
    ensures states[0].files[0].ch == [2] && states[0].files[1].ch == []
    ensures ops[0].Open? && ops[0].trunc && Found(states[0].v.root, 2, 0, ops[0].name) == 0
    ensures ops[1].Open? && !ops[1].trunc && Found(states[0].v.root, 2, 0, ops[1].name) == 1
    ensures ops[2].Append? && ops[2].id == 1 && 0 < |ops[2].buf| <= cb
  {
    hide Found, Slot, DirItem, StartOf, SizeOf, NewItem, WithFields, AppendStep, Content, Covers, FreeFrom, Chain;
    var a, b: seq<byte> := seq(NAME, _ => 65), seq(NAME, _ => 66);
    var root := TwoEntries(a, b);
    var zeros: seq<byte> := seq(cb, _ => 0);
    var v, w := Vol([EOC, EOC, EOC], root, zeros), Vol([EOC, EOC, FREE], root, zeros);
    var fa, fb := Rec(2, 0, [2], Closed), Rec(EOC, 0, [], Closed);
    var s0, s1 := Sys(v, map[0 := fa, 1 := fb]), Sys(w, map[0 := Rec(EOC, 0, [], Writable), 1 := fb]);
    var s2 := Sys(w, map[0 := Rec(EOC, 0, [], Writable), 1 := fb.(mode := Writable)]);
    var s3 := Sys(v, map[0 := Rec(EOC, 0, [], Writable), 1 := Rec(2, 1, [2], Writable)]);
    states := [s0, s1, s2, s3];
    ops := [Open(a, true, false, 0), Open(b, false, false, 1), Append(1, [0], true)];
    assert a[0] != b[0];
    TwoFound(a, b);
    TwoFilesOk(cb, v, fa, fb);
    FreeingAChain(v.table, 2, [2]);
    assert OpenStep(2, s0, a, true, false, Writable, 0, s1);
    assert OpenStep(2, s1, b, false, false, Writable, 1, s2);
    ZeroAppended(cb, w, v, s2.files);
    assert s3.files == s2.files[1 := Rec(2, 1, [2], Writable)];
  }

  function TwoEntries(a: seq<byte>, b: seq<byte>): (root: seq<byte>)
    requires |a| == |b| == NAME
    ensures |root| == 2 * DIR_ITEM
  {
    WithFields(NewItem(a, 0), 0, 2) + NewItem(b, 0)
  }

  lemma TwoFound(a: seq<byte>, b: seq<byte>)
    requires |a| == |b| == NAME && a != b
    requires a[0] != NAME_END && a[0] != NAME_FREE && b[0] != NAME_END && b[0] != NAME_FREE
    ensures var root := TwoEntries(a, b);
      && RootOk(root, 2) && Found(root, 2, 0, a) == 0 && Found(root, 2, 0, b) == 1
      && DirItem(root, 0)[0] == a[0] && StartOf(DirItem(root, 0)) == 2 && SizeOf(DirItem(root, 0)) == 0
      && DirItem(root, 1)[0] == b[0] && StartOf(DirItem(root, 1)) == EOC && SizeOf(DirItem(root, 1)) == 0
  {
    hide Found, Slot, StartOf, SizeOf, WithFields, NewItem, IsNew;
    NewIsNew(a, 0);
    NewIsNew(b, 0);
    TwoItems(NewItem(a, 0), NewItem(b, 0), a, b);
    UnlinkHidesExample(TwoEntries(a, b), a, b);
  }

  lemma TwoItems(x: seq<byte>, y: seq<byte>, a: seq<byte>, b: seq<byte>)
    requires IsNew(x, a) && IsNew(y, b) && |a| == |b| == NAME
    ensures var root := WithFields(x, 0, 2) + y;
      && NameAt(root, 0) == a && NameAt(root, 1) == b
      && DirItem(root, 0)[0] == a[0] && StartOf(DirItem(root, 0)) == 2 && SizeOf(DirItem(root, 0)) == 0
      && DirItem(root, 1)[0] == b[0] && StartOf(DirItem(root, 1)) == EOC && SizeOf(DirItem(root, 1)) == 0
  {
    hide StartOf, SizeOf, WithFields;
    ClosedItem(x, 0, 2);
    var root := WithFields(x, 0, 2) + y;
    assert DirItem(root, 0) == WithFields(x, 0, 2) && DirItem(root, 1) == y;
    assert y[0] == y[..NAME][0] && x[0] == x[..NAME][0];
  }

  lemma TwoFilesOk(cb: nat, v: Vol, fa: Rec, fb: Rec)
    requires 0 < cb <= |v.data| && v.table == [EOC, EOC, EOC]
    requires fa == Rec(2, 0, [2], Closed) && fb == Rec(EOC, 0, [], Closed) && RootOk(v.root, 2)
    requires EntryOk(v.root, 2, 0, fa) && EntryOk(v.root, 2, 1, fb)
    ensures Inv(cb, 2, Sys(v, map[0 := fa, 1 := fb])) && Chain(v.table, 2, [2])
  {
    hide EntryOk;
    assert |[2]| * cb == cb && (2 - 1) * cb == cb;
    assert FileOk(cb, v, fa) && FileOk(cb, v, fb);
  }

  // One zero byte appended to a file without clusters, on a disk of zeros.
  lemma ZeroAppended(cb: nat, w: Vol, v: Vol, files: map<nat, Rec>)
    requires 0 < cb && w == v.(table := [EOC, EOC, FREE]) && v.table == [EOC, EOC, EOC] && v.data == seq(cb, _ => 0)
    requires 1 in files && files[1] == Rec(EOC, 0, [], Writable)
    ensures AppendStep(cb, Sys(w, files), 1, [0], true, Sys(v, files[1 := Rec(2, 1, [2], Writable)]))
  {
    hide Quot, Rem, Wanted;
    OneFree(w.table);
    OneWanted(1, cb);
    hide FreeBelow;
    assert |[2]| * cb == cb && (2 - 1) * cb == cb;
    assert Covers(v, cb, [2], 1) && Covers(w, cb, [], 0);
    assert Flat(v.data, cb, [2]) == Cluster(v.data, cb, 2) + [];
    assert Content(v, cb, [2], 1) == Content(w, cb, [], 0) + [0];
    assert Appended(cb, w, v, 2, [], [2], [2], 0, [0]);
  }

  // ------------------------------------------------------------ the handle left over

  // The handle of a removed file still has a size and a start, and its close writes
  // them to entry k whatever that is by then. It keeps the files in order, and all
  // that the entries show, exactly when no other file has the entry by then, or one
  // that is being written or has this size and start.
  lemma StaleClose(cb: nat, n: nat, s: Sys, k: nat, size: nat, start: nat)
    requires Inv(cb, n, s) && k < n && size < 0x1_0000_0000 && start < 0x1_0000_0000
    ensures var s' := Sys(ClosedVol(s.v, n, false, k, size, start), s.files);
      && (Inv(cb, n, s') <==>
            (k in s.files && s.files[k].mode != Writable ==> s.files[k].size == size && s.files[k].start == start))
      && (Inv(cb, n, s') ==> View(cb, n, s') == View(cb, n, s))
  {
    hide Content, StartOf, SizeOf, Chain, Covers, DirItem, Splice, WithFields;
    var item := WithFields(DirItem(s.v.root, k), size, start);
    var s' := Sys(ClosedVol(s.v, n, false, k, size, start), s.files);
    ClosedItem(DirItem(s.v.root, k), size, start);
    OthersBeside(cb, n, s, k, item, FREE, s');
    if k in s.files {
      assert FileOk(cb, s.v, s.files[k]) && EntryOk(s.v.root, n, k, s.files[k]);
      RootAside(cb, s.v, s'.v, s.files[k]);
    }
    if k in s.files && s.files[k].mode != Writable ==> s.files[k].size == size && s.files[k].start == start {
      InvFrom(cb, n, s, k, s');
      assert View(cb, n, s)[k] == SlotAt(cb, n, s, k);
      assert View(cb, n, s') == View(cb, n, s);
    }
    if Inv(cb, n, s') && k in s.files { assert EntryOk(s'.v.root, n, k, s'.files[k]); }
  }
}

/** All the files of a volume over whole runs: whatever mixture of opens, reads,
    appends, closes, and removals that spare the other files happens, the chains of
    distinct files stay apart, the entries of closed files stay true, and the volume
    is the ideal directory of FatStore, names, bytes and results. */
module FatSystem {
  import opened Bytes
  import opened FatTable
  import opened FatLayout
  import opened FatVolume
  import opened FatCursor
  import opened FatFile
  import opened FatDir
  import opened FatStore
  import opened Klib

  datatype Mode = Closed | Reading | Writable

  // A file by its directory index: where its chain starts, its size, its chain,
  // and whether it is open.
  datatype Rec = Rec(start: int, size: nat, ch: seq<int>, mode: Mode)

  // The entries not in `files` are other hosts' directories, labels and the like.
  datatype Sys = Sys(v: Vol, files: map<nat, Rec>)

  ghost predicate FileOk(cb: nat, v: Vol, r: Rec) {
    Chain(v.table, r.start, r.ch) && Covers(v, cb, r.ch, r.size) && 0 <= r.start < 0x1_0000
  }

  // The entry is in use, and unless the file is being written it holds where the
  // chain starts and the size.
  ghost predicate EntryOk(root: seq<byte>, n: nat, id: nat, r: Rec)
    requires RootOk(root, n)
  {
    && id < n && DirItem(root, id)[0] != NAME_END && DirItem(root, id)[0] != NAME_FREE
    && (r.mode != Writable ==> StartOf(DirItem(root, id)) == r.start && SizeOf(DirItem(root, id)) == r.size)
  }

  ghost predicate Inv(cb: nat, n: nat, s: Sys) {
    && 0 < cb && RootOk(s.v.root, n)
    && (forall id :: id in s.files ==> FileOk(cb, s.v, s.files[id]) && EntryOk(s.v.root, n, id, s.files[id]))
    && (forall i, j :: i in s.files && j in s.files && i != j ==> Disjoint(s.files[i].ch, s.files[j].ch))
  }

  // A volume with one file of one cluster, as any host writes it: the chain ends in
  // whatever mark there is.
  lemma HostVolume(cb: nat, t: Table, root: seq<byte>, data: seq<byte>, mark: int)
    requires 0 < cb <= |data| && EOC <= mark < 0x1_0000 && |t| == 3 && t[2] == mark
    requires RootOk(root, 1) && root[0] != NAME_END && root[0] != NAME_FREE
    requires StartOf(DirItem(root, 0)) == 2 && SizeOf(DirItem(root, 0)) <= cb
    ensures Inv(cb, 1, Sys(Vol(t, root, data), map[0 := Rec(2, SizeOf(DirItem(root, 0)), [2], Closed)]))
  {
    hide StartOf, SizeOf;
    assert DirItem(root, 0)[0] == root[0];
    assert |[2]| * cb == cb && (2 - 1) * cb == cb;
    var r := Rec(2, SizeOf(DirItem(root, 0)), [2], Closed);
    assert FileOk(cb, Vol(t, root, data), r) && EntryOk(root, 1, 0, r);
  }

  // What entry i of the directory stands for.
  ghost function SlotAt(cb: nat, n: nat, s: Sys, i: nat): Entry
    requires Inv(cb, n, s) && i < n
  {
    var item := DirItem(s.v.root, i);
    if i in s.files then
      assert FileOk(cb, s.v, s.files[i]);
      File(item[..NAME], Content(s.v, cb, s.files[i].ch, s.files[i].size))
    else if item[0] == NAME_END then End
    else if item[0] == NAME_FREE then Free
    else Other(item[..NAME])
  }

  ghost function View(cb: nat, n: nat, s: Sys): (st: seq<Entry>)
    requires Inv(cb, n, s)
    ensures |st| == n && forall i {:trigger st[i]} :: 0 <= i < n ==> st[i] == SlotAt(cb, n, s, i)
  {
    seq(n, i requires 0 <= i < n => SlotAt(cb, n, s, i))
  }

  // ------------------------------------------------------------ steps

  ghost predicate IsNew(item: seq<byte>, name: seq<byte>) {
    |item| == DIR_ITEM && item[..NAME] == name && StartOf(item) == EOC && SizeOf(item) == 0
  }

  // Opening by a short name: an existing file, which must be closed, or a new
  // one, or nothing. Without flags the file is open for reading.
  ghost predicate OpenStep(n: nat, s: Sys, name: seq<byte>, trunc: bool, creat: bool, mode: Mode, index: int, s': Sys) {
    && RootOk(s.v.root, n) && mode != Closed && (mode == Reading ==> !trunc && !creat)
    && var k, p := Found(s.v.root, n, 0, name), Slot(s.v.root, n, 0, -1);
    if 0 <= k then
      && index == k && k in s.files && s.files[k].mode == Closed
      && s' == if trunc
               then Sys(s.v.(table := FreeFrom(s.v.table, s.files[k].start)), s.files[k := Rec(EOC, 0, [], mode)])
               else Sys(s.v, s.files[k := s.files[k].(mode := mode)])
    else if creat && 0 <= p then
      && index == p && |name| == NAME && name[0] != NAME_END && name[0] != NAME_FREE
      && s'.files == s.files[p := Rec(EOC, 0, [], mode)]
      && exists item :: IsNew(item, name) && s'.v == s.v.(root := Splice(s.v.root, p * DIR_ITEM, item))
    else index == -1 && s' == s
  }

  ghost predicate ReadStep(cb: nat, s: Sys, id: nat, at: nat, k: nat, back: seq<byte>, s': Sys) {
    && s' == s && id in s.files && s.files[id].mode != Closed && at <= s.files[id].size
    && Covers(s.v, cb, s.files[id].ch, s.files[id].size)
    && var r := s.files[id];
    back == Content(s.v, cb, r.ch, r.size)[at..if at + k > r.size then r.size else at + k]
  }

  // Writing with the position at the size. One that fails appends nothing, and may
  // lose free clusters. The runs know no cursors: after an append that left the
  // cursor behind (FatFile.CursorStuck) the handle's next write is not this step.
  ghost predicate AppendStep(cb: nat, s: Sys, id: nat, buf: seq<byte>, ok: bool, s': Sys)
    requires 0 < cb
  {
    && id in s.files && s.files[id].mode == Writable
    && ok == CanAppend(|FreeClusters(s.v.table)|, |s.files[id].ch|, s.files[id].size, |buf|, cb)
    && id in s'.files && s'.files == s.files[id := s'.files[id]]
    && var r, r' := s.files[id], s'.files[id];
    && r'.size == r.size + (if ok then |buf| else 0) && r'.mode == Writable && (r'.ch == [] ==> r'.start == r.start)
    && exists taken :: Appended(cb, s.v, s'.v, r'.start, r.ch, r'.ch, taken, r.size, buf)
  }

  ghost predicate CloseStep(n: nat, s: Sys, id: nat, s': Sys) {
    && RootOk(s.v.root, n) && id < n && id in s.files && s.files[id].mode != Closed
    && s'.files == s.files[id := s.files[id].(mode := Closed)]
    && if s.files[id].mode == Reading then s'.v == s.v
       else
         && s.files[id].size < 0x1_0000_0000 && 0 <= s.files[id].start < 0x1_0000
         && s'.v == s.v.(root := Splice(s.v.root, id * DIR_ITEM,
                                        WithFields(DirItem(s.v.root, id), s.files[id].size, s.files[id].start)))
  }

  // Clearing the chain met from `start` on hits no file but `id`.
  ghost predicate Spares(s: Sys, id: nat, start: int) {
    forall j :: j in s.files && j != id ==> Disjoint(Walked(s.v.table, start), s.files[j].ch)
  }

  // Where removing an entry begins to free: what the entry says, true or not.
  ghost function StoredStart(root: seq<byte>, n: nat, k: nat): int
    requires RootOk(root, n) && k < n
  {
    StartOf(DirItem(root, k)) % 0x1_0000
  }

  // Removing by a short name, a file open or not or any other entry. FatUnlink shows
  // that what is freed must spare the other files, and for which open files it may not.
  ghost predicate UnlinkStep(n: nat, s: Sys, name: seq<byte>, ok: bool, s': Sys) {
    && RootOk(s.v.root, n)
    && var k := Found(s.v.root, n, 0, name);
    && ok == (0 <= k)
    && if ok then
         && s'.files == s.files - {k} && Spares(s, k, StoredStart(s.v.root, n, k))
         && s'.v == Vol(FreeFrom(s.v.table, StoredStart(s.v.root, n, k)),
                        Splice(s.v.root, k * DIR_ITEM, seq(DIR_ITEM, _ => 0)), s.v.data)
       else s' == s
  }

  ghost predicate Step(cb: nat, n: nat, s: Sys, op: Op, s': Sys)
    requires 0 < cb
  {
    match op
    case Open(name, trunc, creat, index) => exists mode :: OpenStep(n, s, name, trunc, creat, mode, index, s')
    case Read(id, at, k, back) => ReadStep(cb, s, id, at, k, back, s')
    case Append(id, buf, ok) => AppendStep(cb, s, id, buf, ok, s')
    case Close(id) => CloseStep(n, s, id, s')
    case Unlink(name, ok) => UnlinkStep(n, s, name, ok, s')
  }

  // ------------------------------------------------------------ names

  // The ideal directory finds what the scan of the entries finds.
  lemma {:induction false} LookupAgrees(cb: nat, n: nat, s: Sys, i: nat, name: seq<byte>)
    requires Inv(cb, n, s)
    ensures Lookup(View(cb, n, s), i, name) == Found(s.v.root, n, i, name)
    decreases n - i
  {
    hide Content, Covers, Chain;
    if i < n {
      assert View(cb, n, s)[i] == SlotAt(cb, n, s, i);
      if i in s.files { assert EntryOk(s.v.root, n, i, s.files[i]); }
      LookupAgrees(cb, n, s, i + 1, name);
    }
  }

  lemma {:induction false} PlaceAgrees(cb: nat, n: nat, s: Sys, i: nat, p: int)
    requires Inv(cb, n, s)
    ensures Place(View(cb, n, s), i, p) == Slot(s.v.root, n, i, p)
    ensures Slot(s.v.root, n, i, p) != p ==> Slot(s.v.root, n, i, p) !in s.files
    decreases n - i
  {
    hide Content, Covers, Chain;
    if i < n {
      assert View(cb, n, s)[i] == SlotAt(cb, n, s, i);
      if i in s.files { assert EntryOk(s.v.root, n, i, s.files[i]); }
      PlaceAgrees(cb, n, s, i + 1, if DirItem(s.v.root, i)[0] == NAME_FREE then i else p);
    }
  }

  // ------------------------------------------------------------ one file at a time

  // From s to s' every file but `id` keeps its record, its bytes and its entry.
  ghost predicate KeepsOthers(cb: nat, n: nat, s: Sys, id: nat, s': Sys) {
    && 0 < cb && RootOk(s.v.root, n) && RootOk(s'.v.root, n)
    && (forall j :: j in s'.files && j != id ==> j in s.files)
    && (forall j :: j in s.files && j != id ==>
          && j in s'.files && s'.files[j] == s.files[j]
          && FileOk(cb, s.v, s.files[j]) && FileOk(cb, s'.v, s.files[j])
          && Content(s'.v, cb, s.files[j].ch, s.files[j].size) == Content(s.v, cb, s.files[j].ch, s.files[j].size))
    && (forall j :: 0 <= j < n && j != id ==> DirItem(s'.v.root, j) == DirItem(s.v.root, j))
  }

  // The file that the step named is well formed and apart from the others.
  ghost predicate OwnOk(cb: nat, n: nat, id: nat, s': Sys)
    requires RootOk(s'.v.root, n)
  {
    id in s'.files ==>
      && FileOk(cb, s'.v, s'.files[id]) && EntryOk(s'.v.root, n, id, s'.files[id])
      && forall j :: j in s'.files && j != id ==> Disjoint(s'.files[id].ch, s'.files[j].ch)
  }

  lemma InvFrom(cb: nat, n: nat, s: Sys, id: nat, s': Sys)
    requires Inv(cb, n, s) && KeepsOthers(cb, n, s, id, s') && OwnOk(cb, n, id, s')
    ensures Inv(cb, n, s')
    ensures id < n ==> View(cb, n, s') == View(cb, n, s)[id := SlotAt(cb, n, s', id)]
  {
    hide FileOk, Content, StartOf, SizeOf, DirItem;
    forall j | j in s'.files
      ensures FileOk(cb, s'.v, s'.files[j]) && EntryOk(s'.v.root, n, j, s'.files[j])
    {
      if j != id { assert EntryOk(s.v.root, n, j, s.files[j]); }
    }
    forall i, j | i in s'.files && j in s'.files && i != j ensures Disjoint(s'.files[i].ch, s'.files[j].ch) {
      if i != id && j != id { assert s'.files[i] == s.files[i] && s'.files[j] == s.files[j]; }
    }
    if id < n {
      var st, st' := View(cb, n, s), View(cb, n, s');
      forall j | 0 <= j < n && j != id ensures st'[j] == st[j] {
        assert st'[j] == SlotAt(cb, n, s', j) && st[j] == SlotAt(cb, n, s, j);
      }
    }
  }

  // Freeing clusters that are not another file's leaves that file as it was.
  lemma FreeingKeepsOther(cb: nat, v: Vol, v': Vol, start: int, other: Rec)
    requires FileOk(cb, v, other) && Disjoint(Walked(v.table, start), other.ch)
    requires v'.table == FreeFrom(v.table, start) && v'.data == v.data
    ensures FileOk(cb, v', other)
    ensures Content(v', cb, other.ch, other.size) == Content(v, cb, other.ch, other.size)
  {
    hide Fits, Flat;
    WalkClears(v.table, start);
    ChainHasNoFree(v.table, other.start, other.ch);
    ChainFrame(v.table, v'.table, other.start, other.ch);
  }

  lemma AppendingKeepsOther(cb: nat, v: Vol, v': Vol, s': int, ch: seq<int>, ch': seq<int>, taken: seq<int>,
                            size: nat, x: seq<byte>, other: Rec)
    requires 0 < cb && Writing(cb, v, v', s', ch, ch', taken, size, x)
    requires FileOk(cb, v, other) && Disjoint(ch, other.ch)
    ensures FileOk(cb, v', other) && Disjoint(ch', other.ch)
    ensures Content(v', cb, other.ch, other.size) == Content(v, cb, other.ch, other.size)
  {
    hide Fits, Content, Covers, Chain, OnlyTouches;
    OthersKept(cb, v, v', ch, taken, ch', other.start, other.ch, other.size);
  }

  // A file's own start leads through its own chain.
  lemma OwnStartSpares(cb: nat, n: nat, s: Sys, id: nat)
    requires Inv(cb, n, s) && id in s.files
    ensures Walked(s.v.table, s.files[id].start) == s.files[id].ch && Spares(s, id, s.files[id].start)
  {
    assert FileOk(cb, s.v, s.files[id]);
    WalkOfChain(s.v.table, s.files[id].start, s.files[id].ch);
  }

  lemma RootAside(cb: nat, v: Vol, v': Vol, r: Rec)
    requires FileOk(cb, v, r) && v' == v.(root := v'.root)
    ensures FileOk(cb, v', r) && Content(v', cb, r.ch, r.size) == Content(v, cb, r.ch, r.size)
  {
  }

  // An entry perhaps written, and what a walk from `start` meets perhaps freed.
  lemma OthersBeside(cb: nat, n: nat, s: Sys, id: nat, item: seq<byte>, start: int, s': Sys)
    requires Inv(cb, n, s) && id < n && |item| == DIR_ITEM && s'.v.data == s.v.data
    requires s'.v.root == s.v.root || s'.v.root == Splice(s.v.root, id * DIR_ITEM, item)
    requires s'.v.table == s.v.table || (s'.v.table == FreeFrom(s.v.table, start) && Spares(s, id, start))
    requires forall j :: j != id ==> (j in s'.files <==> j in s.files)
    requires forall j :: j in s.files && j != id ==> s'.files[j] == s.files[j]
    ensures KeepsOthers(cb, n, s, id, s')
    ensures s'.v.root == Splice(s.v.root, id * DIR_ITEM, item) ==> DirItem(s'.v.root, id) == item
  {
    hide Content, FreeFrom, Walked, StartOf, SizeOf, Chain, Covers, Splice, DirItem;
    forall j | j in s.files && j != id
      ensures FileOk(cb, s.v, s.files[j]) && FileOk(cb, s'.v, s.files[j])
      ensures Content(s'.v, cb, s.files[j].ch, s.files[j].size) == Content(s.v, cb, s.files[j].ch, s.files[j].size)
    {
      assert FileOk(cb, s.v, s.files[j]);
      if s'.v.table == s.v.table { RootAside(cb, s.v, s'.v, s.files[j]); }
      else { FreeingKeepsOther(cb, s.v, s'.v, start, s.files[j]); }
    }
    ItemStored(s.v.root, n, id, item, id);
    forall j | 0 <= j < n ensures RootOk(s'.v.root, n)
      && (j != id ==> DirItem(s'.v.root, j) == DirItem(s.v.root, j))
      && (s'.v.root == Splice(s.v.root, id * DIR_ITEM, item) ==> DirItem(s'.v.root, id) == item)
    {
      ItemStored(s.v.root, n, id, item, j);
    }
  }

  // ------------------------------------------------------------ each step

  // What the ideal directory says of a call holds of the volume.
  ghost predicate Refines(cb: nat, n: nat, s: Sys, op: Op, s': Sys) {
    && Inv(cb, n, s) && Inv(cb, n, s')
    && Applicable(View(cb, n, s), op) && View(cb, n, s') == Apply(View(cb, n, s), op)
  }

  lemma {:induction false} FoundIs(root: seq<byte>, n: nat, i: nat, name: seq<byte>)
    requires RootOk(root, n) && Found(root, n, i, name) != -1
    ensures var k := Found(root, n, i, name);
      DirItem(root, k)[..NAME] == name && DirItem(root, k)[0] != NAME_END && DirItem(root, k)[0] != NAME_FREE
    decreases n - i
  {
    if i < n && Found(root, n, i, name) != i { FoundIs(root, n, i + 1, name); }
  }

  lemma EmptyFile(cb: nat, v: Vol, mode: Mode)
    requires 0 < cb
    ensures FileOk(cb, v, Rec(EOC, 0, [], mode)) && Content(v, cb, [], 0) == []
  {
  }

  lemma OpenExisting(cb: nat, n: nat, s: Sys, name: seq<byte>, trunc: bool, creat: bool, mode: Mode, s': Sys)
    requires Inv(cb, n, s) && 0 <= Found(s.v.root, n, 0, name)
    requires OpenStep(n, s, name, trunc, creat, mode, Found(s.v.root, n, 0, name), s')
    ensures Refines(cb, n, s, Open(name, trunc, creat, Found(s.v.root, n, 0, name)), s')
  {
    hide Content, FreeFrom, StartOf, SizeOf, Chain, Covers, Splice, DirItem, Found;
    var k := Found(s.v.root, n, 0, name);
    FoundIs(s.v.root, n, 0, name);
    LookupAgrees(cb, n, s, 0, name);
    OwnStartSpares(cb, n, s, k);
    OthersBeside(cb, n, s, k, DirItem(s.v.root, k), s.files[k].start, s');
    EmptyFile(cb, s'.v, mode);
    assert FileOk(cb, s.v, s.files[k]) && EntryOk(s.v.root, n, k, s.files[k]);
    InvFrom(cb, n, s, k, s');
    assert View(cb, n, s)[k] == SlotAt(cb, n, s, k);
  }

  lemma OpenNew(cb: nat, n: nat, s: Sys, name: seq<byte>, trunc: bool, mode: Mode, index: nat, s': Sys)
    requires Inv(cb, n, s) && Found(s.v.root, n, 0, name) < 0 && index == Slot(s.v.root, n, 0, -1)
    requires OpenStep(n, s, name, trunc, true, mode, index, s')
    ensures Refines(cb, n, s, Open(name, trunc, true, index), s')
  {
    hide Content, FreeFrom, StartOf, SizeOf, Chain, Covers, Splice, DirItem, Found, Slot;
    var item :| IsNew(item, name) && s'.v == s.v.(root := Splice(s.v.root, index * DIR_ITEM, item));
    LookupAgrees(cb, n, s, 0, name);
    PlaceAgrees(cb, n, s, 0, -1);
    OthersBeside(cb, n, s, index, item, FREE, s');
    EmptyFile(cb, s'.v, mode);
    ItemStored(s.v.root, n, index, item, index);
    assert item[0] == item[..NAME][0];
    InvFrom(cb, n, s, index, s');
  }

  lemma OpenRefines(cb: nat, n: nat, s: Sys, name: seq<byte>, trunc: bool, creat: bool, mode: Mode, index: int, s': Sys)
    requires Inv(cb, n, s) && OpenStep(n, s, name, trunc, creat, mode, index, s')
    ensures Refines(cb, n, s, Open(name, trunc, creat, index), s')
  {
    if 0 <= Found(s.v.root, n, 0, name) {
      OpenExisting(cb, n, s, name, trunc, creat, mode, s');
    } else if creat && 0 <= Slot(s.v.root, n, 0, -1) {
      OpenNew(cb, n, s, name, trunc, mode, index, s');
    } else {
      hide Inv, View, SlotAt, Found, Slot;
      LookupAgrees(cb, n, s, 0, name);
      PlaceAgrees(cb, n, s, 0, -1);
    }
  }

  lemma AppendRefines(cb: nat, n: nat, s: Sys, id: nat, buf: seq<byte>, ok: bool, s': Sys)
    requires Inv(cb, n, s) && AppendStep(cb, s, id, buf, ok, s')
    ensures Refines(cb, n, s, Append(id, buf, ok), s')
  {
    hide Content, StartOf, SizeOf, Chain, Covers, DirItem, OnlyTouches, CanAppend, Takes, FreeBelow, Grown;
    var r, r' := s.files[id], s'.files[id];
    var taken :| Appended(cb, s.v, s'.v, r'.start, r.ch, r'.ch, taken, r.size, buf);
    var x := if ok then buf else [];
    assert Writing(cb, s.v, s'.v, r'.start, r.ch, r'.ch, taken, r.size, x);
    hide Writing, Appended;
    assert FileOk(cb, s.v, r) && EntryOk(s.v.root, n, id, r);
    forall j | j in s.files && j != id
      ensures FileOk(cb, s.v, s.files[j]) && FileOk(cb, s'.v, s.files[j]) && Disjoint(r'.ch, s.files[j].ch)
      ensures Content(s'.v, cb, s.files[j].ch, s.files[j].size) == Content(s.v, cb, s.files[j].ch, s.files[j].size)
    {
      AppendingKeepsOther(cb, s.v, s'.v, r'.start, r.ch, r'.ch, taken, r.size, x, s.files[j]);
    }
    AppendedOwn(cb, s.v, s'.v, r, r', taken, x);
    hide FileOk;
    assert KeepsOthers(cb, n, s, id, s') && OwnOk(cb, n, id, s');
    InvFrom(cb, n, s, id, s');
    assert View(cb, n, s)[id] == SlotAt(cb, n, s, id);
  }

  lemma AppendedOwn(cb: nat, v: Vol, v': Vol, r: Rec, r': Rec, taken: seq<int>, x: seq<byte>)
    requires 0 < cb && Writing(cb, v, v', r'.start, r.ch, r'.ch, taken, r.size, x) && FileOk(cb, v, r)
    requires r'.size == r.size + |x| && (r'.ch == [] ==> r'.start == r.start)
    ensures FileOk(cb, v', r') && Content(v', cb, r'.ch, r'.size) == Content(v, cb, r.ch, r.size) + x
    ensures x == [] ==> Content(v', cb, r'.ch, r'.size) == Content(v, cb, r.ch, r.size)
    ensures v'.root == v.root
  {
    hide Content, Covers;
    if r'.ch != [] { assert InTable(v'.table, r'.ch[0]); }
  }

  lemma CloseRefines(cb: nat, n: nat, s: Sys, id: nat, s': Sys)
    requires Inv(cb, n, s) && CloseStep(n, s, id, s')
    ensures Refines(cb, n, s, Close(id), s')
  {
    hide Content, StartOf, SizeOf, Chain, Covers, DirItem, Splice, WithFields;
    var r := s.files[id];
    var item := WithFields(DirItem(s.v.root, id), r.size % 0x1_0000_0000, r.start % 0x1_0000_0000);
    assert FileOk(cb, s.v, r) && EntryOk(s.v.root, n, id, r);
    ClosedItem(DirItem(s.v.root, id), r.size % 0x1_0000_0000, r.start % 0x1_0000_0000);
    OthersBeside(cb, n, s, id, item, FREE, s');
    RootAside(cb, s.v, s'.v, r);
    InvFrom(cb, n, s, id, s');
    assert View(cb, n, s)[id] == SlotAt(cb, n, s, id);
    assert View(cb, n, s') == View(cb, n, s);
  }

  lemma ClosedItem(item: seq<byte>, size: nat, start: nat)
    requires |item| == DIR_ITEM && size < 0x1_0000_0000 && start < 0x1_0000_0000
    ensures var r := WithFields(item, size, start);
      SizeOf(r) == size && StartOf(r) == start && r[..NAME] == item[..NAME] && r[0] == item[0]
  {
    FieldsRoundTrip(item, size, start);
    var r := WithFields(item, size, start);
    assert r[..20][..NAME] == item[..20][..NAME];
    assert r[..NAME][0] == item[..NAME][0];
  }

  lemma UnlinkRefines(cb: nat, n: nat, s: Sys, name: seq<byte>, ok: bool, s': Sys)
    requires Inv(cb, n, s) && UnlinkStep(n, s, name, ok, s')
    ensures Refines(cb, n, s, Unlink(name, ok), s')
  {
    hide Content, StartOf, SizeOf, Chain, Covers, DirItem, Splice, FreeFrom, Walked, Found, StoredStart, Spares;
    LookupAgrees(cb, n, s, 0, name);
    if ok {
      var k := Found(s.v.root, n, 0, name);
      var zero := seq(DIR_ITEM, _ => 0);
      OthersBeside(cb, n, s, k, zero, StoredStart(s.v.root, n, k), s');
      ItemStored(s.v.root, n, k, zero, k);
      InvFrom(cb, n, s, k, s');
      assert View(cb, n, s)[k] == SlotAt(cb, n, s, k);
    }
  }

  lemma ReadRefines(cb: nat, n: nat, s: Sys, id: nat, at: nat, k: nat, back: seq<byte>, s': Sys)
    requires Inv(cb, n, s) && ReadStep(cb, s, id, at, k, back, s')
    ensures Refines(cb, n, s, Read(id, at, k, back), s')
  {
    hide Content, FileOk;
    assert EntryOk(s.v.root, n, id, s.files[id]);
    assert View(cb, n, s)[id] == SlotAt(cb, n, s, id);
  }

  lemma StepRefines(cb: nat, n: nat, s: Sys, op: Op, s': Sys)
    requires Inv(cb, n, s) && Step(cb, n, s, op, s')
    ensures Refines(cb, n, s, op, s')
  {
    hide Inv, Refines, OpenStep, ReadStep, AppendStep, CloseStep, UnlinkStep;
    match op
    case Open(name, trunc, creat, index) =>
      var mode :| OpenStep(n, s, name, trunc, creat, mode, index, s');
      OpenRefines(cb, n, s, name, trunc, creat, mode, index, s');
    case Read(id, at, k, back) => ReadRefines(cb, n, s, id, at, k, back, s');
    case Append(id, buf, ok) => AppendRefines(cb, n, s, id, buf, ok, s');
    case Close(id) => CloseRefines(cb, n, s, id, s');
    case Unlink(name, ok) => UnlinkRefines(cb, n, s, name, ok, s');
  }

  // Whatever the call, the files stay well formed and apart, and the entries of
  // the files not being written stay true; a file comes or goes with its name.
  lemma StepKeepsInv(cb: nat, n: nat, s: Sys, op: Op, s': Sys)
    requires Inv(cb, n, s) && Step(cb, n, s, op, s')
    ensures Inv(cb, n, s')
    ensures op.Unlink? && op.ok ==> s'.files.Keys == s.files.Keys - {Found(s.v.root, n, 0, op.name)}
    ensures op.Open? ==> s'.files.Keys == s.files.Keys + (if op.index < 0 then {} else {op.index as nat})
    ensures op.Read? || op.Append? || op.Close? || (op.Unlink? && !op.ok) ==> s'.files.Keys == s.files.Keys
  {
    hide Content, FreeFrom, StartOf, SizeOf, Chain, Covers, Splice, DirItem, Found, Slot, Inv;
    StepRefines(cb, n, s, op, s');
    assert Refines(cb, n, s, op, s');
  }

  // ------------------------------------------------------------ the methods make these steps

  lemma NoClusterNoBytes(cb: nat, v: Vol, v': Vol, s': int, ch: seq<int>, ch': seq<int>, taken: seq<int>,
                         size: nat, buf: seq<byte>)
    requires 0 < cb && Appended(cb, v, v', s', ch, ch', taken, size, buf) && ch' == []
    ensures CanAppend(|FreeClusters(v.table)|, |ch|, size, |buf|, cb) ==> buf == []
  {
    hide CanAppend, Takes, Grown, Content, FreeBelow, OnlyTouches, Chain, AllFit, Quot;
  }

  // What FatFile.FatfsWrite ensures is a step of the whole volume.
  lemma WriteIsAStep(cb: nat, n: nat, s: Sys, id: nat, v': Vol, start': int, ch': seq<int>, taken: seq<int>,
                     buf: seq<byte>, total: nat)
    requires 0 < cb && id in s.files && s.files[id].mode == Writable
    requires var r := s.files[id];
      && total == (if CanAppend(|FreeClusters(s.v.table)|, |r.ch|, r.size, |buf|, cb) then |buf| else 0)
      && (total == 0 ==> start' == r.start)
      && Appended(cb, s.v, v', start', r.ch, ch', taken, r.size, buf)
    ensures var r := s.files[id];
      Step(cb, n, s, Append(id, buf, CanAppend(|FreeClusters(s.v.table)|, |r.ch|, r.size, |buf|, cb)),
           Sys(v', s.files[id := Rec(start', r.size + total, ch', Writable)]))
  {
    hide Appended, CanAppend, FreeBelow;
    var r := s.files[id];
    var s' := Sys(v', s.files[id := Rec(start', r.size + total, ch', Writable)]);
    if ch' == [] { NoClusterNoBytes(cb, s.v, v', start', r.ch, ch', taken, r.size, buf); }
    assert Appended(cb, s.v, s'.v, s'.files[id].start, r.ch, s'.files[id].ch, taken, r.size, buf);
  }

  // What FatFile.FatfsRead ensures of a file opened at its record is a step.
  lemma ReadIsAStep(cb: nat, n: nat, s: Sys, id: nat, at: nat, k: nat, back: seq<byte>)
    requires Inv(cb, n, s) && id in s.files && s.files[id].mode != Closed && at <= s.files[id].size
    requires FileOk(cb, s.v, s.files[id])
    requires var r := s.files[id];
      back == Content(s.v, cb, r.ch, r.size)[at..if at + k > r.size then r.size else at + k]
    ensures Step(cb, n, s, Read(id, at, k, back), s)
  {
    hide Content;
  }

  // What FatDir.FatfsOpen ensures is a step, and the file it opens is one that
  // reading, writing and seeking can start from.
  lemma OpenIsAStep(cb: nat, n: nat, s: Sys, name: seq<byte>, trunc: bool, creat: bool, tenth: byte, mode: Mode,
                    v': Vol, err: int, sblk: int, size: nat, index: int)
    returns (s': Sys)
    requires Inv(cb, n, s) && |name| == NAME && OpenDone(s.v, v', n, name, trunc, creat, tenth, err, sblk, size, index)
    requires mode != Closed && (mode == Reading ==> !trunc && !creat)
    requires var k := Found(s.v.root, n, 0, name);
      if 0 <= k then k in s.files && s.files[k].mode == Closed else name[0] != NAME_END && name[0] != NAME_FREE
    ensures s'.v == v' && Step(cb, n, s, Open(name, trunc, creat, if err == 0 then index else -1), s')
    ensures err == 0 ==>
      && index in s'.files && var r := s'.files[index];
      && r.mode == mode && r.start == sblk && r.size == size && FileOk(cb, v', r) && CursorAt(r.ch, sblk, 0, cb)
  {
    hide Content, StartOf, SizeOf, DirItem, Splice, Found, Slot, FreeFrom;
    var k := Found(s.v.root, n, 0, name);
    if err != 0 {
      s' := s;
    } else if 0 <= k && !trunc {
      s' := Sys(v', s.files[k := s.files[k].(mode := mode)]);
      assert FileOk(cb, s.v, s.files[k]) && EntryOk(s.v.root, n, k, s.files[k]);
      SeekStart(cb, sblk, sblk, s.files[k].ch);
    } else {
      s' := Sys(v', s.files[index := Rec(EOC, 0, [], mode)]);
      EmptyFile(cb, v', mode);
      if 0 <= k { assert FileOk(cb, s.v, s.files[k]) && EntryOk(s.v.root, n, k, s.files[k]); }
      else { NewIsNew(name, tenth); }
    }
    assert OpenStep(n, s, name, trunc, creat, mode, if err == 0 then index else -1, s');
  }

  lemma NewIsNew(name: seq<byte>, tenth: byte)
    requires |name| == NAME
    ensures IsNew(NewItem(name, tenth), name)
  {
    var item := NewItem(name, tenth);
    assert Le16(item, 20) == 0 && Le16(item, 26) == EOC && Le16(item, 28) == 0 && Le16(item, 30) == 0;
  }

  // What FatDir.FatfsClose ensures of a file that matches its record is a step.
  lemma CloseIsAStep(cb: nat, n: nat, s: Sys, id: nat, v': Vol)
    requires Inv(cb, n, s) && id in s.files && s.files[id].mode != Closed && s.files[id].size < 0x1_0000_0000
    requires 0 <= s.files[id].start < 0x1_0000_0000
      && v' == ClosedVol(s.v, n, s.files[id].mode == Reading, id, s.files[id].size, s.files[id].start)
    ensures Step(cb, n, s, Close(id), Sys(v', s.files[id := s.files[id].(mode := Closed)]))
  {
    hide Content, StartOf, SizeOf, DirItem, Splice, WithFields, Chain, Covers;
    assert FileOk(cb, s.v, s.files[id]) && EntryOk(s.v.root, n, id, s.files[id]);
  }

  // The entry of a closed or read-only file, and of one whose start is as stored,
  // leads through the file's own chain.
  lemma StoredStartSpares(cb: nat, n: nat, s: Sys, k: nat)
    requires Inv(cb, n, s) && k in s.files && k < n
    requires s.files[k].mode != Writable || StoredStart(s.v.root, n, k) == s.files[k].start
    ensures StoredStart(s.v.root, n, k) == s.files[k].start
    ensures Walked(s.v.table, StoredStart(s.v.root, n, k)) == s.files[k].ch && Spares(s, k, StoredStart(s.v.root, n, k))
  {
    hide Content, StartOf, SizeOf, DirItem, Chain, Covers, Walked, Spares;
    assert FileOk(cb, s.v, s.files[k]) && EntryOk(s.v.root, n, k, s.files[k]);
    OwnStartSpares(cb, n, s, k);
  }

  // What FatDir.FatfsUnlink ensures is a step. Nothing is asked of a file that is
  // closed, read-only or has its start stored; of the others exactly what
  // FatUnlink.UnlinkKeepsInvIff finds necessary.
  lemma UnlinkIsAStep(cb: nat, n: nat, s: Sys, name: seq<byte>, v': Vol, err: int)
    requires Inv(cb, n, s) && UnlinkDone(s.v, v', n, name, err)
    requires var k := Found(s.v.root, n, 0, name); 0 <= k ==>
      || (k in s.files && (s.files[k].mode != Writable || StoredStart(s.v.root, n, k) == s.files[k].start))
      || Spares(s, k, StoredStart(s.v.root, n, k))
    ensures Step(cb, n, s, Unlink(name, err == 0),
                 Sys(v', if err == 0 then s.files - {Found(s.v.root, n, 0, name) as nat} else s.files))
  {
    hide Content, StartOf, SizeOf, DirItem, Splice, Chain, Covers, FreeFrom, Walked, Found, Spares;
    var k := Found(s.v.root, n, 0, name);
    if 0 <= k && k in s.files && (s.files[k].mode != Writable || StoredStart(s.v.root, n, k) == s.files[k].start) {
      StoredStartSpares(cb, n, s, k);
    }
  }

  // ------------------------------------------------------------ runs

  ghost predicate Run(cb: nat, n: nat, states: seq<Sys>, ops: seq<Op>)
    requires 0 < cb
  {
    |states| == |ops| + 1 && forall i {:trigger ops[i]} :: 0 <= i < |ops| ==>
      Step(cb, n, states[i], ops[i], states[i + 1])
  }

  lemma RunTail(cb: nat, n: nat, states: seq<Sys>, ops: seq<Op>)
    requires 0 < cb && Run(cb, n, states, ops) && ops != []
    ensures Step(cb, n, states[0], ops[0], states[1]) && Run(cb, n, states[1..], ops[1..])
  {
    hide Step;
    forall i | 0 <= i < |ops[1..]| ensures Step(cb, n, states[1..][i], ops[1..][i], states[1..][i + 1]) {
      assert Step(cb, n, states[i + 1], ops[i + 1], states[i + 2]);
    }
  }

  // The main result: along every run the files stay well formed and apart, the
  // entries of closed files stay true, and every call does to names and bytes,
  // and returns, what it does to the ideal directory.
  lemma {:induction false} RunsRefine(cb: nat, n: nat, states: seq<Sys>, ops: seq<Op>)
    requires 0 < cb && Run(cb, n, states, ops) && Inv(cb, n, states[0])
    ensures Inv(cb, n, states[|ops|])
    ensures Replays(View(cb, n, states[0]), ops, View(cb, n, states[|ops|]))
    decreases |ops|
  {
    hide Inv, Step, View, Apply, Applicable;
    if ops != [] {
      RunTail(cb, n, states, ops);
      StepRefines(cb, n, states[0], ops[0], states[1]);
      RunsRefine(cb, n, states[1..], ops[1..]);
    }
  }
}

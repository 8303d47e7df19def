/** The root directory: opening, creating, truncating, closing and unlinking. */
module FatDir {
  import opened Bytes
  import opened FatTable
  import opened FatLayout
  import opened FatVolume
  import opened FatAlloc
  import opened FatFile

  const NAME: nat := 11
  const NAME_FREE: byte := 0xE5
  const NAME_END: byte := 0x00

  // ------------------------------------------------------------ short names

  function Upper(c: byte): byte {
    if 0x61 <= c <= 0x7A then c - 0x20 else c
  }

  // Eight and three characters padded with blanks: a dot moves on to the ninth.
  ghost function SfnFrom(dest: seq<byte>, curr: nat, path: seq<byte>): (r: seq<byte>)
    requires |dest| == NAME
    ensures |r| == NAME
    decreases |path|
  {
    if path == [] || curr >= NAME then dest
    else if path[0] == 0x2E then SfnFrom(dest, 8, path[1..])
    else SfnFrom(dest[curr := Upper(path[0])], curr + 1, path[1..])
  }

  ghost function Sfn(path: seq<byte>): (r: seq<byte>) {
    SfnFrom(seq(NAME, _ => 0x20), 0, path)
  }

  method ToSfn(path: seq<byte>) returns (dest: seq<byte>)
    ensures dest == Sfn(path)
  {
    dest := seq(NAME, _ => 0x20);
    var curr, src := 0, 0;
    while src < |path| && curr < NAME
      invariant |dest| == NAME && 0 <= curr && src <= |path|
      invariant SfnFrom(dest, curr, path[src..]) == Sfn(path)
    {
      var c := path[src];
      src := src + 1;
      if c == 0x2E {
        curr := 8;
      } else {
        dest := dest[curr := Upper(c)];
        curr := curr + 1;
      }
    }
  }

  // Names that differ in case only are the same short name.
  lemma {:induction false} SfnIgnoresCase(dest: seq<byte>, curr: nat, a: seq<byte>, b: seq<byte>)
    requires |dest| == NAME && |a| == |b| && forall i :: 0 <= i < |a| ==> Upper(a[i]) == Upper(b[i])
    ensures SfnFrom(dest, curr, a) == SfnFrom(dest, curr, b)
    decreases |a|
  {
    if a != [] && curr < NAME {
      assert Upper(a[0]) == Upper(b[0]);
      if a[0] == 0x2E { SfnIgnoresCase(dest, 8, a[1..], b[1..]); }
      else { SfnIgnoresCase(dest[curr := Upper(a[0])], curr + 1, a[1..], b[1..]); }
    }
  }

  // The same character, or a small letter and its capital.
  ghost predicate Capital(c: byte, u: byte) {
    if 0x61 <= c <= 0x7A then u as int == c as int - 0x20 else u == c
  }

  lemma {:induction false} SfnHasNoSmall(dest: seq<byte>, curr: nat, path: seq<byte>)
    requires |dest| == NAME && forall i :: 0 <= i < NAME ==> !(0x61 <= dest[i] <= 0x7A)
    ensures forall i :: 0 <= i < NAME ==> !(0x61 <= SfnFrom(dest, curr, path)[i] <= 0x7A)
    decreases |path|
  {
    if path != [] && curr < NAME {
      if path[0] == 0x2E { SfnHasNoSmall(dest, 8, path[1..]); }
      else { SfnHasNoSmall(dest[curr := Upper(path[0])], curr + 1, path[1..]); }
    }
  }

  // No short name has a small letter, and spelling letters small or as capitals
  // makes no difference.
  lemma SfnFoldsCase(a: seq<byte>, b: seq<byte>)
    requires |a| == |b| && forall i :: 0 <= i < |a| ==> a[i] == b[i] || Capital(a[i], b[i]) || Capital(b[i], a[i])
    ensures Sfn(a) == Sfn(b) && forall i :: 0 <= i < NAME ==> !(0x61 <= Sfn(a)[i] <= 0x7A)
  {
    var blank: seq<byte> := seq(NAME, _ => 0x20);
    SfnIgnoresCase(blank, 0, a, b);
    SfnHasNoSmall(blank, 0, a);
  }

  ghost function ByteAfter(dest: seq<byte>, curr: nat, s: seq<byte>, i: nat): byte
    requires |dest| == NAME && i < NAME
  {
    if curr <= i < curr + |s| then Upper(s[i - curr]) else dest[i]
  }

  // Bytes without a dot are written one after the other, those past the end not.
  ghost function Overwritten(dest: seq<byte>, curr: nat, s: seq<byte>): (r: seq<byte>)
    requires |dest| == NAME
    ensures |r| == NAME
    ensures forall i :: 0 <= i < NAME ==> if curr <= i < curr + |s| then Capital(s[i - curr], r[i]) else r[i] == dest[i]
  {
    seq(NAME, i requires 0 <= i < NAME => ByteAfter(dest, curr, s, i))
  }

  lemma {:induction false} SfnOverwrites(dest: seq<byte>, curr: nat, s: seq<byte>, rest: seq<byte>)
    requires |dest| == NAME && 0x2E !in s
    ensures SfnFrom(dest, curr, s + rest) == SfnFrom(Overwritten(dest, curr, s), curr + |s|, rest)
    decreases |s|
  {
    if s == [] {
      assert s + rest == rest && Overwritten(dest, curr, s) == dest;
    } else if curr >= NAME {
      assert Overwritten(dest, curr, s) == dest;
    } else {
      var first := dest[curr := Upper(s[0])];
      assert (s + rest)[0] == s[0] && s[0] in s && (s + rest)[1..] == s[1..] + rest;
      SfnOverwrites(first, curr + 1, s[1..], rest);
      assert Overwritten(first, curr + 1, s[1..]) == Overwritten(dest, curr, s);
    }
  }

  // Base, dot and extension, byte by byte: capitals, padded with blanks, the base in
  // the first eight bytes and the extension in the last three. What the base has
  // more than eight stays where the extension does not reach; a base of eleven or
  // more fills the name, and the extension is not looked at.
  lemma SfnOfName(base: seq<byte>, ext: seq<byte>)
    requires 0x2E !in base && 0x2E !in ext
    ensures var r := Sfn(base + [0x2E] + ext);
      forall i :: 0 <= i < NAME ==>
        if i >= 8 && i - 8 < |ext| && |base| < 11 then Capital(ext[i - 8], r[i])
        else if i < |base| then Capital(base[i], r[i])
        else r[i] == 0x20
  {
    var blank: seq<byte> := seq(NAME, _ => 0x20);
    var a := Overwritten(blank, 0, base);
    assert base + [0x2E] + ext == base + ([0x2E] + ext);
    SfnOverwrites(blank, 0, base, [0x2E] + ext);
    if |base| < NAME {
      assert ([0x2E] + ext)[1..] == ext && ext + [] == ext;
      SfnOverwrites(a, 8, ext, []);
    }
  }

  // A name without a dot.
  lemma SfnOfBase(base: seq<byte>)
    requires 0x2E !in base
    ensures forall i :: 0 <= i < NAME ==>
      if i < |base| then Capital(base[i], Sfn(base)[i]) else Sfn(base)[i] == 0x20
  {
    assert base + [] == base;
    SfnOverwrites(seq(NAME, _ => 0x20), 0, base, []);
  }

  // ------------------------------------------------------------ entries

  function Le16(s: seq<byte>, at: nat): nat
    requires at + 2 <= |s|
  {
    s[at] as int + 0x100 * (s[at + 1] as int)
  }

  // DIR_FstClusHI and DIR_FstClusL0, and DIR_FileSize.
  function StartOf(item: seq<byte>): nat
    requires |item| == DIR_ITEM
  {
    0x1_0000 * Le16(item, 20) + Le16(item, 26)
  }

  function SizeOf(item: seq<byte>): nat
    requires |item| == DIR_ITEM
  {
    Le16(item, 28) + 0x1_0000 * Le16(item, 30)
  }

  // Where an entry has start and size, low byte first, the upper half of the start
  // apart from the lower.
  lemma FieldBytes(item: seq<byte>)
    requires |item| == 32
    ensures StartOf(item) == item[26] as int + 0x100 * (item[27] as int) + 0x1_0000 * (item[20] as int)
      + 0x100_0000 * (item[21] as int)
    ensures SizeOf(item) == item[28] as int + 0x100 * (item[29] as int) + 0x1_0000 * (item[30] as int)
      + 0x100_0000 * (item[31] as int)
  {
  }

  function Put16(v: nat): seq<byte>
    requires v < 0x1_0000
  {
    [v % 0x100, v / 0x100]
  }

  function WithFields(item: seq<byte>, size: nat, start: nat): (r: seq<byte>)
    requires |item| == DIR_ITEM && size < 0x1_0000_0000 && start < 0x1_0000_0000
    ensures |r| == DIR_ITEM
  {
    item[..20] + Put16(start / 0x1_0000) + item[22..26] + Put16(start % 0x1_0000)
    + Put16(size % 0x1_0000) + Put16(size / 0x1_0000)
  }

  // The fields come back, and the name and the other bytes are kept.
  lemma FieldsRoundTrip(item: seq<byte>, size: nat, start: nat)
    requires |item| == DIR_ITEM && size < 0x1_0000_0000 && start < 0x1_0000_0000
    ensures var r := WithFields(item, size, start);
      SizeOf(r) == size && StartOf(r) == start && r[..20] == item[..20] && r[22..26] == item[22..26]
  {
    var r := WithFields(item, size, start);
    var hi, lo, a, b := start / 0x1_0000, start % 0x1_0000, size % 0x1_0000, size / 0x1_0000;
    assert r[20] == hi % 0x100 && r[21] == hi / 0x100 && r[26] == lo % 0x100 && r[27] == lo / 0x100;
    assert r[28] == a % 0x100 && r[29] == a / 0x100 && r[30] == b % 0x100 && r[31] == b / 0x100;
  }

  function NewItem(name: seq<byte>, tenth: byte): (r: seq<byte>)
    requires |name| == NAME
    ensures |r| == DIR_ITEM
  {
    name + [0, 0, tenth] + [0, 0, 0, 0, 0, 0] + Put16(EOC / 0x1_0000) + [0, 0, 0, 0] + Put16(EOC % 0x1_0000)
      + [0, 0, 0, 0]
  }

  // A new entry, by the places of its fields: the name, no attributes (so a plain
  // file), no times, no size, and a start that is no cluster.
  lemma NewItemFields(name: seq<byte>, tenth: byte)
    requires |name| == NAME
    ensures var item := NewItem(name, tenth);
      && item[..11] == name && item[11] == item[12] == 0 && item[13] == tenth
      && (forall i :: 14 <= i < 20 || 22 <= i < 26 ==> item[i] == 0)
      && StartOf(item) == 0xFFF8 && !IsCluster(StartOf(item)) && SizeOf(item) == 0
  {
    var item := NewItem(name, tenth);
    assert Le16(item, 20) == 0 && Le16(item, 26) == EOC && Le16(item, 28) == 0 && Le16(item, 30) == 0;
  }

  // ------------------------------------------------------------ looking a name up

  ghost predicate RootOk(root: seq<byte>, n: nat) {
    |root| == n * DIR_ITEM
  }

  // The first entry from i on with this name, in front of the END mark, or -1.
  ghost function Found(root: seq<byte>, n: nat, i: nat, name: seq<byte>): (r: int)
    requires RootOk(root, n)
    ensures r == -1 || i <= r < n
    decreases n - i
  {
    if i >= n || DirItem(root, i)[0] == NAME_END then -1
    else if DirItem(root, i)[0] != NAME_FREE && DirItem(root, i)[..NAME] == name then i
    else Found(root, n, i + 1, name)
  }

  // Where a new entry goes: the END mark, or else the last free entry, or else p.
  ghost function Slot(root: seq<byte>, n: nat, i: nat, p: int): (r: int)
    requires RootOk(root, n)
    ensures r == p || i <= r < n
    decreases n - i
  {
    if i >= n then p
    else if DirItem(root, i)[0] == NAME_END then i
    else Slot(root, n, i + 1, if DirItem(root, i)[0] == NAME_FREE then i else p)
  }

  // In bytes: entry k is found exactly when its eleven name bytes are those and it is
  // neither free nor the end, no end is in front of it, and no entry in front of it
  // has the name but free ones.
  lemma {:induction false} FoundIff(root: seq<byte>, n: nat, i: nat, name: seq<byte>, k: nat)
    requires RootOk(root, n) && |name| == 11 && i <= k < n
    ensures Found(root, n, i, name) == k <==>
      && root[32 * k..32 * k + 11] == name && root[32 * k] != 0xE5 && root[32 * k] != 0x00
      && forall j :: i <= j < k ==> root[32 * j] != 0x00 && (root[32 * j..32 * j + 11] == name ==> root[32 * j] == 0xE5)
    decreases n - i
  {
    assert DirItem(root, i)[..NAME] == root[32 * i..32 * i + 11] && DirItem(root, i)[0] == root[32 * i];
    if i < k { FoundIff(root, n, i + 1, name, k); }
  }

  // A new entry goes to the first end, or when there is none to the last free entry.
  lemma {:induction false} SlotIff(root: seq<byte>, n: nat, i: nat, p: int, k: nat)
    requires RootOk(root, n) && i <= k < n && p < i
    ensures Slot(root, n, i, p) == k <==>
      || (root[32 * k] == 0x00 && forall j :: i <= j < k ==> root[32 * j] != 0x00)
      || (root[32 * k] == 0xE5 && (forall j :: i <= j < n ==> root[32 * j] != 0x00)
          && forall j :: k < j < n ==> root[32 * j] != 0xE5)
    decreases n - i
  {
    assert DirItem(root, i)[0] == root[32 * i];
    var p' := if DirItem(root, i)[0] == NAME_FREE then i as int else p;
    if i < k {
      SlotIff(root, n, i + 1, p', k);
    } else if root[32 * i] != 0x00 {
      SlotKept(root, n, i + 1, p');
    }
  }

  lemma {:induction false} SlotKept(root: seq<byte>, n: nat, i: nat, p: int)
    requires RootOk(root, n) && p < i
    ensures Slot(root, n, i, p) == p <==> forall j :: i <= j < n ==> root[32 * j] != 0x00 && root[32 * j] != 0xE5
    decreases n - i
  {
    if i < n {
      assert DirItem(root, i)[0] == root[32 * i];
      SlotKept(root, n, i + 1, if DirItem(root, i)[0] == NAME_FREE then i as int else p);
    }
  }

  ghost function NameAt(root: seq<byte>, i: nat): seq<byte>
    requires (i + 1) * DIR_ITEM <= |root|
  {
    DirItem(root, i)[..NAME]
  }

  // Entries with the same names are found in the same places.
  lemma {:induction false} SameNames(a: seq<byte>, b: seq<byte>, n: nat, i: nat, name: seq<byte>)
    requires RootOk(a, n) && RootOk(b, n)
    requires forall k :: 0 <= k < n ==> NameAt(a, k) == NameAt(b, k)
    ensures Found(a, n, i, name) == Found(b, n, i, name)
    decreases n - i
  {
    if i < n {
      assert NameAt(a, i) == NameAt(b, i);
      assert DirItem(a, i)[0] == NameAt(a, i)[0] && DirItem(b, i)[0] == NameAt(b, i)[0];
      SameNames(a, b, n, i + 1, name);
    }
  }

  lemma ItemStored(root: seq<byte>, n: nat, p: nat, item: seq<byte>, k: nat)
    requires RootOk(root, n) && p < n && k < n && |item| == DIR_ITEM
    ensures RootOk(Splice(root, p * DIR_ITEM, item), n)
    ensures DirItem(Splice(root, p * DIR_ITEM, item), k) == if k == p then item else DirItem(root, k)
  {
    var r := Splice(root, p * DIR_ITEM, item);
    var l, w := DirItem(r, k), if k == p then item else DirItem(root, k);
    assert forall j :: 0 <= j < DIR_ITEM ==> l[j] == w[j];
  }

  // What closing stores is what opening the same name finds again.
  lemma ReopenAfterClose(root: seq<byte>, n: nat, p: nat, size: nat, start: nat, name: seq<byte>)
    requires RootOk(root, n) && Found(root, n, 0, name) == p
    requires size < 0x1_0000_0000 && start < 0x1_0000_0000
    ensures var r := Splice(root, p * DIR_ITEM, WithFields(DirItem(root, p), size, start));
      && RootOk(r, n) && Found(r, n, 0, name) == p
      && SizeOf(DirItem(r, p)) == size && StartOf(DirItem(r, p)) == start
  {
    var item := WithFields(DirItem(root, p), size, start);
    var r := Splice(root, p * DIR_ITEM, item);
    FieldsRoundTrip(DirItem(root, p), size, start);
    ItemStored(root, n, p, item, p);
    forall k | 0 <= k < n ensures NameAt(root, k) == NameAt(r, k) {
      ItemStored(root, n, p, item, k);
      assert item[..NAME] == item[..20][..NAME] == DirItem(root, p)[..20][..NAME];
    }
    SameNames(root, r, n, 0, name);
  }

  // Unlinking writes the END mark, so of the other names exactly those found in
  // front of the entry are still found.
  lemma {:induction false} FoundAfterUnlink(root: seq<byte>, n: nat, p: nat, i: nat, name: seq<byte>)
    requires RootOk(root, n) && i <= p < n
    ensures var r := Splice(root, p * DIR_ITEM, seq(DIR_ITEM, _ => 0));
      RootOk(r, n) && Found(r, n, i, name) == if Found(root, n, i, name) < p then Found(root, n, i, name) else -1
    decreases n - i
  {
    var zero := seq(DIR_ITEM, _ => 0);
    ItemStored(root, n, p, zero, i);
    if i < p { FoundAfterUnlink(root, n, p, i + 1, name); }
  }

  // Entry 0 is removed, and the file of entry 1, still there, is not found.
  lemma UnlinkHidesExample(root: seq<byte>, a: seq<byte>, b: seq<byte>)
    requires RootOk(root, 2) && NameAt(root, 0) == a && NameAt(root, 1) == b && a != b
    requires a[0] != NAME_END && a[0] != NAME_FREE && b[0] != NAME_END && b[0] != NAME_FREE
    ensures Found(root, 2, 0, a) == 0 && Found(root, 2, 0, b) == 1
    ensures var r := Splice(root, 0, seq(DIR_ITEM, _ => 0));
      RootOk(r, 2) && Found(r, 2, 0, b) == -1 && NameAt(r, 1) == b
  {
    assert DirItem(root, 0)[0] == a[0] && DirItem(root, 1)[0] == b[0];
    FoundAfterUnlink(root, 2, 0, 0, b);
    ItemStored(root, 2, 0, seq(DIR_ITEM, _ => 0), 1);
  }

  // A created entry is found under its name exactly when the first byte of the
  // name is not one of the two marks.
  lemma {:induction false} FoundAfterCreate(root: seq<byte>, n: nat, p: nat, i: nat, item: seq<byte>)
    requires RootOk(root, n) && i <= p < n && |item| == DIR_ITEM
    requires Found(root, n, i, item[..NAME]) == -1
    requires Slot(root, n, i, -1) == p
    ensures var r := Splice(root, p * DIR_ITEM, item);
      && RootOk(r, n)
      && (Found(r, n, i, item[..NAME]) == p <==> item[0] != NAME_END && item[0] != NAME_FREE)
  {
    CreatedFound(root, n, p, i, -1, item);
  }

  // The slot q found so far does not matter in front of p.
  lemma {:induction false} CreatedFound(root: seq<byte>, n: nat, p: nat, i: nat, q: int, item: seq<byte>)
    requires RootOk(root, n) && i <= p < n && |item| == DIR_ITEM && q < i
    requires Found(root, n, i, item[..NAME]) == -1
    requires Slot(root, n, i, q) == p
    ensures var r := Splice(root, p * DIR_ITEM, item);
      && RootOk(r, n)
      && (Found(r, n, i, item[..NAME]) == p <==> item[0] != NAME_END && item[0] != NAME_FREE)
    decreases n - i
  {
    ItemStored(root, n, p, item, i);
    var r := Splice(root, p * DIR_ITEM, item);
    assert item[..NAME][0] == item[0];
    if i < p {
      CreatedFound(root, n, p, i + 1, if DirItem(root, i)[0] == NAME_FREE then i else q, item);
    }
  }

  // ------------------------------------------------------------ the operations

  // The scan of fatfs_open.
  method LookUp(fat: Fat, path: seq<byte>) returns (item: seq<byte>, pIndex: int)
    requires fat.Valid()
    modifies fat`currSector, fat.buffer
    ensures fat.Valid()
    ensures var root, n := fat.vol.root, fat.g.rootEntries; var k := Found(root, n, 0, Sfn(path));
      if 0 <= k then pIndex == k && item == DirItem(root, k) else pIndex == Slot(root, n, 0, -1) && item == []
  {
    hide Fat.Valid;
    var name := ToSfn(path);
    item, pIndex := [], -1;
    ghost var root, n := fat.vol.root, fat.g.rootEntries;
    var i := 0;
    while i < fat.g.rootEntries
      invariant 0 <= i <= n && fat.Valid() && item == []
      invariant Found(root, n, 0, name) == Found(root, n, i, name)
      invariant Found(root, n, i, name) == -1 ==> Slot(root, n, 0, -1) == Slot(root, n, i, pIndex)
    {
      var it := fat.ReadDirEntry(i);
      if it[0] == NAME_END {
        pIndex := i;
        return;
      }
      if it[0] == NAME_FREE {
        pIndex := i;
      } else if it[..NAME] == name {
        return it, i;
      }
      i := i + 1;
    }
  }

  // What opening does: the chain of a file found is freed when it is truncated, a
  // new entry is written when nothing is found, and else the volume stays.
  ghost predicate OpenDone(v: Vol, v': Vol, n: nat, name: seq<byte>, trunc: bool, creat: bool, tenth: byte,
                           err: int, sblk: int, size: nat, index: int)
    requires RootOk(v.root, n) && |name| == NAME
  {
    var k, p := Found(v.root, n, 0, name), Slot(v.root, n, 0, -1);
    && err == (if 0 <= k || (creat && 0 <= p) then 0 else -1)
    && v' == (if 0 <= k && trunc then v.(table := FreeFrom(v.table, StartOf(DirItem(v.root, k)) % 0x1_0000))
              else if k < 0 && creat && 0 <= p then v.(root := Splice(v.root, p * DIR_ITEM, NewItem(name, tenth)))
              else v)
    && (err == 0 ==> index == if 0 <= k then k else p)
    && (err == 0 && 0 <= k && !trunc ==> sblk == StartOf(DirItem(v.root, k)) && size == SizeOf(DirItem(v.root, k)))
    && (err == 0 && (k < 0 || trunc) ==> sblk == EOC && size == 0)
  }

  method FatfsOpen(fat: Fat, file: File, path: seq<byte>, trunc: bool, creat: bool, tenth: byte) returns (err: int)
    requires fat.Valid()
    modifies fat, fat.buffer, file`size, file`pos, file`sblk, file`cblk, file`pIndex
    ensures fat.Valid()
    ensures OpenDone(old(fat.vol), fat.vol, fat.g.rootEntries, Sfn(path), trunc, creat, tenth,
                     err, file.sblk, file.size, file.pIndex)
    ensures err == 0 ==> file.pos == 0 && file.cblk == file.sblk
  {
    hide Fat.Valid;
    var item, pIndex := LookUp(fat, path);
    if item != [] {
      ReadFromDirItem(file, item, pIndex);
      if trunc {
        ClusterFreeChain(fat, file.sblk % 0x1_0000);
        file.sblk, file.cblk := EOC, EOC;
        file.size := 0;
      }
      return 0;
    } else if creat && pIndex >= 0 {
      var name := ToSfn(path);
      var newItem := NewItem(name, tenth);
      err := fat.WriteDirEntry(newItem, pIndex);
      assert Le16(newItem, 20) == 0 && Le16(newItem, 26) == EOC && Le16(newItem, 28) == 0 && Le16(newItem, 30) == 0;
      ReadFromDirItem(file, newItem, pIndex);
      return 0;
    } else {
      return -1;
    }
  }

  method ReadFromDirItem(file: File, item: seq<byte>, index: int)
    requires |item| == DIR_ITEM
    modifies file`size, file`pos, file`sblk, file`cblk, file`pIndex
    ensures file.size == SizeOf(item) && file.sblk == file.cblk == StartOf(item) && file.pos == 0
      && file.pIndex == index
  {
    file.size := SizeOf(item);
    file.pos := 0;
    file.pIndex := index;
    file.sblk := StartOf(item);
    file.cblk := file.sblk;
  }

  // What closing does: size and start go to the file's entry.
  ghost function ClosedVol(v: Vol, n: nat, readOnly: bool, index: int, size: nat, start: nat): Vol
    requires RootOk(v.root, n) && size < 0x1_0000_0000 && start < 0x1_0000_0000
  {
    if readOnly || !(0 <= index < n) then v
    else v.(root := Splice(v.root, index * DIR_ITEM, WithFields(DirItem(v.root, index), size, start)))
  }

  method FatfsClose(fat: Fat, file: File)
    requires fat.Valid() && file.size < 0x1_0000_0000 && 0 <= file.sblk < 0x1_0000_0000
    modifies fat, fat.buffer
    ensures fat.Valid()
    ensures fat.vol == ClosedVol(old(fat.vol), fat.g.rootEntries, file.readOnly, file.pIndex, file.size, file.sblk)
  {
    hide Fat.Valid;
    if file.readOnly {
      return;
    }
    var item := fat.ReadDirEntry(file.pIndex);
    if item == [] {
      return;
    }
    item := WithFields(item, file.size, file.sblk);
    var _ := fat.WriteDirEntry(item, file.pIndex);
  }

  // What removing does: the chain is freed and the entry zeroed.
  ghost predicate UnlinkDone(v: Vol, v': Vol, n: nat, name: seq<byte>, err: int)
    requires RootOk(v.root, n)
  {
    var k := Found(v.root, n, 0, name);
    && err == (if 0 <= k then 0 else -1)
    && v' == if 0 <= k
         then Vol(FreeFrom(v.table, StartOf(DirItem(v.root, k)) % 0x1_0000),
                  Splice(v.root, k * DIR_ITEM, seq(DIR_ITEM, _ => 0)), v.data)
         else v
  }

  method FatfsUnlink(fat: Fat, path: seq<byte>) returns (err: int)
    requires fat.Valid()
    modifies fat, fat.buffer
    ensures fat.Valid()
    ensures UnlinkDone(old(fat.vol), fat.vol, fat.g.rootEntries, Sfn(path), err)
  {
    hide Fat.Valid;
    ghost var v, n := fat.vol, fat.g.rootEntries;
    var name := ToSfn(path);
    var i := 0;
    while i < fat.g.rootEntries
      invariant 0 <= i <= n && fat.Valid() && fat.vol == v
      invariant Found(v.root, n, 0, name) == Found(v.root, n, i, name)
    {
      var item := fat.ReadDirEntry(i);
      if item[0] == NAME_END {
        break;
      }
      if item[0] == NAME_FREE {
        i := i + 1;
        continue;
      }
      if item[..NAME] == name {
        var cluster := StartOf(item);
        ClusterFreeChain(fat, cluster % 0x1_0000);
        err := fat.WriteDirEntry(seq(DIR_ITEM, _ => 0), i);
        return;
      }
      i := i + 1;
    }
    return -1;
  }
}

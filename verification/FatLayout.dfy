/** What the sectors of a FAT16 volume mean: the allocation table, the root
    directory and the data region as one value, and the bytes that a chain of
    clusters holds. */
module FatLayout {
  import opened Bytes
  import opened FatTable
  import opened Klib

  const SECTOR: nat := 512
  const DIR_ITEM: nat := 32
  const PAGE: nat := 4096

  // The numbers mounting takes from the boot sector.
  datatype Geometry = Geometry(tblStart: nat, tblSectors: nat, rootEntries: nat, secPerCluster: nat) {
    function Entries(): nat { tblSectors * SECTOR / 2 }
    function RootStart(): nat { tblStart + 2 * tblSectors }
    function DataStart(): nat { RootStart() + rootEntries * DIR_ITEM / SECTOR }
    function ClusterBytes(): nat { secPerCluster * SECTOR }

    // The table fits 16-bit numbering, the directory fills whole sectors and a
    // cluster is a power of two that fits the one-page buffer.
    predicate Ok() {
      && 0 < tblSectors && Entries() <= 0xFFFF
      && rootEntries * DIR_ITEM % SECTOR == 0
      && (secPerCluster == 1 || secPerCluster == 2 || secPerCluster == 4 || secPerCluster == 8)
    }
  }

  datatype Vol = Vol(table: Table, root: seq<byte>, data: seq<byte>)

  // ------------------------------------------------------------ the bytes of a chain

  // Cluster c has a place in a data region of n bytes.
  ghost predicate Fits(n: int, cb: nat, c: int) {
    2 <= c && (c - 1) * cb <= n
  }

  ghost predicate AllFit(data: seq<byte>, cb: nat, cs: seq<int>) {
    forall i {:trigger cs[i]} :: 0 <= i < |cs| ==> Fits(|data|, cb, cs[i])
  }

  lemma Offset(cb: nat, c: int)
    requires 2 <= c
    ensures 0 <= (c - 2) * cb && (c - 2) * cb + cb == (c - 1) * cb
  {
  }

  ghost function Cluster(data: seq<byte>, cb: nat, c: int): (r: seq<byte>)
    requires Fits(|data|, cb, c)
    ensures |r| == cb
  {
    Offset(cb, c);
    data[(c - 2) * cb..(c - 2) * cb + cb]
  }

  ghost function Flat(data: seq<byte>, cb: nat, cs: seq<int>): (r: seq<byte>)
    requires AllFit(data, cb, cs)
  {
    if cs == [] then [] else Cluster(data, cb, cs[0]) + Flat(data, cb, cs[1..])
  }

  lemma {:induction false} FlatLength(data: seq<byte>, cb: nat, cs: seq<int>)
    requires AllFit(data, cb, cs)
    ensures |Flat(data, cb, cs)| == |cs| * cb
  {
    if cs != [] {
      FlatLength(data, cb, cs[1..]);
      assert |cs| * cb == cb + (|cs| - 1) * cb;
    }
  }

  lemma FlatCons(data: seq<byte>, cb: nat, cs: seq<int>)
    requires AllFit(data, cb, cs) && cs != []
    ensures Fits(|data|, cb, cs[0]) && AllFit(data, cb, cs[1..]) && |Cluster(data, cb, cs[0])| == cb
    ensures Flat(data, cb, cs) == Cluster(data, cb, cs[0]) + Flat(data, cb, cs[1..])
  {
  }

  lemma BothFit(data: seq<byte>, cb: nat, a: seq<int>, b: seq<int>)
    requires AllFit(data, cb, a) && AllFit(data, cb, b)
    ensures AllFit(data, cb, a + b)
  {
  }

  lemma {:induction false} FlatConcat(data: seq<byte>, cb: nat, a: seq<int>, b: seq<int>)
    requires AllFit(data, cb, a) && AllFit(data, cb, b)
    ensures AllFit(data, cb, a + b)
    ensures Flat(data, cb, a + b) == Flat(data, cb, a) + Flat(data, cb, b)
  {
    hide Fits, Cluster, AllFit;
    BothFit(data, cb, a, b);
    if a == [] {
      assert a + b == b && [] + Flat(data, cb, b) == Flat(data, cb, b);
    } else {
      FlatCons(data, cb, a);
      FlatCons(data, cb, a + b);
      FlatConcat(data, cb, a[1..], b);
      assert (a + b)[1..] == a[1..] + b;
    }
  }

  lemma {:induction false} FlatFrame(data: seq<byte>, data': seq<byte>, cb: nat, cs: seq<int>)
    requires |data| == |data'| && AllFit(data, cb, cs)
    requires forall i {:trigger cs[i]} :: 0 <= i < |cs| ==> Cluster(data', cb, cs[i]) == Cluster(data, cb, cs[i])
    ensures Flat(data', cb, cs) == Flat(data, cb, cs)
  {
    if cs != [] {
      assert Cluster(data', cb, cs[0]) == Cluster(data, cb, cs[0]);
      assert forall i :: 0 <= i < |cs| - 1 ==> cs[1..][i] == cs[i + 1];
      FlatFrame(data, data', cb, cs[1..]);
    }
  }

  lemma Apart(cb: nat, c: int, d: int)
    requires 2 <= c < d
    ensures (c - 2) * cb + cb <= (d - 2) * cb
  {
    Times(c - 2, 1, cb);
    TimesMonotone(c - 1, d - 2, cb);
  }

  // Writing inside one cluster leaves every other cluster as it was.
  lemma PatchOther(data: seq<byte>, cb: nat, c: int, off: nat, x: seq<byte>, d: int)
    requires Fits(|data|, cb, c) && Fits(|data|, cb, d) && c != d && off + |x| <= cb
    requires 0 <= (c - 2) * cb + off && (c - 2) * cb + off + |x| <= |data|
    ensures Cluster(Splice(data, (c - 2) * cb + off, x), cb, d) == Cluster(data, cb, d)
  {
    if c < d { Apart(cb, c, d); } else { Apart(cb, d, c); }
    Offset(cb, d);
    var at := (c - 2) * cb + off;
    var lo := (d - 2) * cb;
    var r := Splice(data, at, x);
    assert forall j :: lo <= j < lo + cb ==> r[j] == data[j];
    assert r[lo..lo + cb] == data[lo..lo + cb];
  }

  lemma PatchSame(data: seq<byte>, cb: nat, c: int, off: nat, x: seq<byte>)
    requires Fits(|data|, cb, c) && off + |x| <= cb
    requires 0 <= (c - 2) * cb + off && (c - 2) * cb + off + |x| <= |data|
    ensures Cluster(Splice(data, (c - 2) * cb + off, x), cb, c) == Splice(Cluster(data, cb, c), off, x)
  {
    Offset(cb, c);
    var lo := (c - 2) * cb;
    SliceOver(data, lo + off, x, lo, lo + cb);
  }

  // The data region after `x` is written at `off` inside cluster `c`.
  ghost function Patch(data: seq<byte>, cb: nat, c: int, off: nat, x: seq<byte>): (r: seq<byte>)
    requires Fits(|data|, cb, c) && off + |x| <= cb
    ensures |r| == |data|
    ensures Cluster(r, cb, c) == Splice(Cluster(data, cb, c), off, x)
    ensures forall d {:trigger Cluster(r, cb, d)} :: Fits(|data|, cb, d) && d != c ==>
      Cluster(r, cb, d) == Cluster(data, cb, d)
  {
    Offset(cb, c);
    var r := Splice(data, (c - 2) * cb + off, x);
    PatchSame(data, cb, c, off, x);
    assert forall d {:trigger Cluster(r, cb, d)} :: Fits(|data|, cb, d) && d != c ==>
      Cluster(r, cb, d) == Cluster(data, cb, d) by {
      forall d | Fits(|data|, cb, d) && d != c ensures Cluster(r, cb, d) == Cluster(data, cb, d) {
        PatchOther(data, cb, c, off, x, d);
      }
    }
    r
  }

  // `len` bytes at `off` inside element i of n clusters lie within the n.
  lemma Within(i: nat, n: nat, off: nat, len: nat, cb: nat)
    requires i < n && off + len <= cb
    ensures 0 <= i * cb && i * cb + off + len <= n * cb
  {
    Times(i, 1, cb);
    TimesMonotone(i + 1, n, cb);
    TimesMonotone(0, i, cb);
  }

  lemma StepBack(i: nat, cb: nat, off: nat, at: nat)
    requires 0 < i && at == i * cb + off
    ensures at - cb == (i - 1) * cb + off && 0 <= at - cb
  {
    Times(i - 1, 1, cb);
    TimesMonotone(0, i - 1, cb);
  }

  lemma PatchFits(data: seq<byte>, cb: nat, cs: seq<int>, i: nat, off: nat, x: seq<byte>)
    requires AllFit(data, cb, cs) && Distinct(cs) && i < |cs| && off + |x| <= cb
    ensures Fits(|data|, cb, cs[i]) && AllFit(Patch(data, cb, cs[i], off, x), cb, cs) && Distinct(cs[1..])
    ensures i == 0 ==> Flat(Patch(data, cb, cs[0], off, x), cb, cs[1..]) == Flat(data, cb, cs[1..])
    ensures i > 0 ==> Cluster(Patch(data, cb, cs[i], off, x), cb, cs[0]) == Cluster(data, cb, cs[0])
  {
    hide Fits, Splice, Patch, Cluster;
    if i == 0 { FlatFrame(data, Patch(data, cb, cs[0], off, x), cb, cs[1..]); }
  }

  // Writing at `off` inside element i of a chain writes the chain's bytes at
  // i * cb + off and nowhere else.
  lemma {:induction false} FlatPatch(data: seq<byte>, cb: nat, cs: seq<int>, i: nat, off: nat, x: seq<byte>, at: nat)
    requires AllFit(data, cb, cs) && Distinct(cs) && i < |cs| && off + |x| <= cb
    requires at == i * cb + off
    ensures at + |x| <= |Flat(data, cb, cs)|
    ensures AllFit(Patch(data, cb, cs[i], off, x), cb, cs)
    ensures Flat(Patch(data, cb, cs[i], off, x), cb, cs) == Splice(Flat(data, cb, cs), at, x)
    decreases |cs|
  {
    hide Fits, Splice, Patch, Cluster, AllFit, Flat, Distinct;
    PatchFits(data, cb, cs, i, off, x);
    var r := Patch(data, cb, cs[i], off, x);
    FlatCons(data, cb, cs);
    FlatCons(r, cb, cs);
    var head, tail := Cluster(data, cb, cs[0]), Flat(data, cb, cs[1..]);
    if i == 0 {
      SpliceLeft(head, tail, off, x);
    } else {
      StepBack(i, cb, off, at);
      FlatPatch(data, cb, cs[1..], i - 1, off, x, at - cb);
      SpliceRight(head, tail, at - cb, x);
    }
  }

  lemma {:induction false} FlatSlice(data: seq<byte>, cb: nat, cs: seq<int>, i: nat, off: nat, k: nat, at: nat)
    requires AllFit(data, cb, cs) && i < |cs| && off + k <= cb && at == i * cb + off
    ensures at + k <= |Flat(data, cb, cs)|
    ensures Flat(data, cb, cs)[at..at + k] == Cluster(data, cb, cs[i])[off..off + k]
    decreases |cs|
  {
    var head, tail := Cluster(data, cb, cs[0]), Flat(data, cb, cs[1..]);
    if i > 0 {
      StepBack(i, cb, off, at);
      FlatSlice(data, cb, cs[1..], i - 1, off, k, at - cb);
      assert (head + tail)[at..at + k] == tail[at - cb..at - cb + k];
    }
  }

  // ------------------------------------------------------------ the content of a file

  // A file of `size` bytes whose clusters are `ch`.
  ghost predicate Covers(v: Vol, cb: nat, ch: seq<int>, size: nat) {
    0 < cb && AllFit(v.data, cb, ch) && size <= |ch| * cb
  }

  ghost function Content(v: Vol, cb: nat, ch: seq<int>, size: nat): (r: seq<byte>)
    requires Covers(v, cb, ch, size)
    ensures |r| == size
  {
    FlatLength(v.data, cb, ch);
    Flat(v.data, cb, ch)[..size]
  }

  // k bytes of a file that lie within one cluster.
  lemma ContentSlice(v: Vol, cb: nat, ch: seq<int>, size: nat, pos: nat, k: nat)
    requires Covers(v, cb, ch, size) && pos < size && pos + k <= size && Rem(pos, cb) + k <= cb
    ensures Quot(pos, cb) < |ch|
    ensures Content(v, cb, ch, size)[pos..pos + k]
      == Cluster(v.data, cb, ch[Quot(pos, cb)])[Rem(pos, cb)..Rem(pos, cb) + k]
  {
    hide Flat, Cluster, Quot, Rem;
    DivMod(pos, cb);
    FlatLength(v.data, cb, ch);
    QuotBelow(pos, cb, |ch|);
    FlatSlice(v.data, cb, ch, Quot(pos, cb), Rem(pos, cb), k, pos);
    assert Content(v, cb, ch, size)[pos..pos + k] == Flat(v.data, cb, ch)[pos..pos + k];
  }

  // Writing x behind the end of a file, within the cluster that holds the end.
  lemma ContentAppended(v: Vol, cb: nat, ch: seq<int>, size: nat, x: seq<byte>)
    requires Covers(v, cb, ch, size) && Distinct(ch) && Quot(size, cb) < |ch| && Rem(size, cb) + |x| <= cb
    ensures var v' := v.(data := Patch(v.data, cb, ch[Quot(size, cb)], Rem(size, cb), x));
      Covers(v', cb, ch, size + |x|) && Content(v', cb, ch, size + |x|) == Content(v, cb, ch, size) + x
  {
    hide Flat, Cluster, Patch, Quot, Rem;
    var i, off := Quot(size, cb), Rem(size, cb);
    DivMod(size, cb);
    FlatLength(v.data, cb, ch);
    FlatPatch(v.data, cb, ch, i, off, x, size);
    Within(i, |ch|, off, |x|, cb);
    var f := Flat(v.data, cb, ch);
    assert Splice(f, size, x)[..size + |x|] == f[..size] + x;
  }

  // Only the first size bytes count: what is linked behind may change.
  lemma ContentPrefix(v: Vol, cb: nat, a: seq<int>, b: seq<int>, c: seq<int>, size: nat)
    requires Covers(v, cb, a + b, size) && size <= |a| * cb && AllFit(v.data, cb, a) && AllFit(v.data, cb, c)
    ensures Covers(v, cb, a + c, size) && Content(v, cb, a + c, size) == Content(v, cb, a + b, size)
  {
    assert AllFit(v.data, cb, b) by {
      forall i | 0 <= i < |b| ensures Fits(|v.data|, cb, b[i]) { assert (a + b)[|a| + i] == b[i]; }
    }
    FlatConcat(v.data, cb, a, b);
    FlatConcat(v.data, cb, a, c);
    FlatLength(v.data, cb, a);
    TimesMonotone(|a|, |a + c|, cb);
  }
}

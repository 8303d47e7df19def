/** The mounted volume: a partition read and written by whole sectors, one page
    of buffer that doubles as a one-sector cache, and two copies of the
    allocation table. Every operation is specified on the value of the volume,
    as if it worked on the disk directly. */
module FatVolume {
  import opened Bytes
  import opened FatTable
  import opened FatLayout
  import opened Klib

  // ------------------------------------------------------------ what the sectors mean

  // n bytes of data hold every cluster the table has an entry for.
  ghost predicate DataFits(g: Geometry, n: nat) {
    forall c {:trigger Fits(n, g.ClusterBytes(), c)} :: 2 <= c < g.Entries() ==> Fits(n, g.ClusterBytes(), c)
  }

  ghost predicate WellFormed(g: Geometry, v: Vol) {
    && g.Ok()
    && |v.table| == g.Entries()
    && |v.root| == g.rootEntries * DIR_ITEM
    && DataFits(g, |v.data|)
  }

  ghost predicate EntryAt(img: seq<byte>, at: nat, e: int)
    requires at + 1 < |img|
  {
    img[at] == e % 0x100 && img[at + 1] == e / 0x100
  }

  ghost predicate TableAt(img: seq<byte>, at: nat, t: Table)
    requires at + 2 * |t| <= |img|
  {
    forall k {:trigger t[k]} :: 0 <= k < |t| ==> EntryAt(img, at + 2 * k, t[k])
  }

  ghost predicate BytesAt(img: seq<byte>, at: nat, x: seq<byte>)
    requires at + |x| <= |img|
  {
    forall j {:trigger x[j]} :: 0 <= j < |x| ==> img[at + j] == x[j]
  }

  // The bytes of the partition encode v, the table twice.
  ghost predicate Represents(g: Geometry, img: seq<byte>, v: Vol) {
    && WellFormed(g, v)
    && |img| == g.DataStart() * SECTOR + |v.data|
    && TableAt(img, g.tblStart * SECTOR, v.table)
    && TableAt(img, (g.tblStart + g.tblSectors) * SECTOR, v.table)
    && BytesAt(img, g.RootStart() * SECTOR, v.root)
    && BytesAt(img, g.DataStart() * SECTOR, v.data)
  }

  // Byte by byte: both copies of the table hold entry k at 2 k, low byte first; the
  // root directory is behind them, and behind that the clusters from number 2 on.
  lemma PlacesOnDisk(g: Geometry, img: seq<byte>, v: Vol, k: nat, j: nat, c: int, o: nat)
    requires Represents(g, img, v) && k < |v.table| && j < |v.root|
    requires Fits(|v.data|, g.ClusterBytes(), c) && o < g.ClusterBytes()
    ensures var a, b, r := 512 * g.tblStart, 512 * (g.tblStart + g.tblSectors), 512 * (g.tblStart + 2 * g.tblSectors);
      var d := r + 32 * g.rootEntries + (c - 2) * (512 * g.secPerCluster);
      && a + 2 * k + 1 < |img| && v.table[k] == img[a + 2 * k] as int + 0x100 * (img[a + 2 * k + 1] as int)
      && b + 2 * k + 1 < |img| && v.table[k] == img[b + 2 * k] as int + 0x100 * (img[b + 2 * k + 1] as int)
      && r + j < |img| && v.root[j] == img[r + j]
      && 0 <= d && d + o < |img| && Cluster(v.data, g.ClusterBytes(), c)[o] == img[d + o]
  {
    var at := (c - 2) * g.ClusterBytes();
    Offset(g.ClusterBytes(), c);
    assert v.table[k] == v.table[k] && v.data[at + o] == v.data[at + o];
    assert g.DataStart() * 512 == 512 * (g.tblStart + 2 * g.tblSectors) + 32 * g.rootEntries;
    assert Cluster(v.data, g.ClusterBytes(), c)[o] == v.data[at + o];
  }

  // Bytes that are not written over stay.
  lemma BytesKept(img: seq<byte>, at: nat, x: seq<byte>, w: nat, sec: seq<byte>)
    requires at + |x| <= |img| && w + |sec| <= |img| && (w + |sec| <= at || at + |x| <= w)
    requires BytesAt(img, at, x)
    ensures BytesAt(Splice(img, w, sec), at, x)
  {
  }

  lemma TableKept(img: seq<byte>, at: nat, t: Table, w: nat, sec: seq<byte>)
    requires at + 2 * |t| <= |img| && w + |sec| <= |img| && (w + |sec| <= at || at + 2 * |t| <= w)
    requires TableAt(img, at, t)
    ensures TableAt(Splice(img, w, sec), at, t)
  {
  }

  // A sector of the table written back with entry c changed.
  lemma TableChanged(img: seq<byte>, at: nat, t: Table, c: nat, e: int, w: nat, sec: seq<byte>, was: seq<byte>, o: nat)
    requires at + 2 * |t| <= |img| && |was| == |sec| && o + 1 < |sec|
    requires at <= w && w + |sec| <= at + 2 * |t| && at + 2 * c == w + o
    requires TableAt(img, at, t) && 0 <= e < 0x1_0000
    requires BytesAt(img, w, was) && sec == was[o := e % 0x100][o + 1 := e / 0x100]
    ensures c < |t| && TableAt(Splice(img, w, sec), at, t[c := e])
  {
    var r := Splice(img, w, sec);
    forall k | 0 <= k < |t| ensures EntryAt(r, at + 2 * k, t[c := e][k]) {
      assert EntryAt(img, at + 2 * k, t[k]);
      var i := at + 2 * k - w;
      if 0 <= i < |sec| { assert img[w + i] == was[i]; }
      if 0 <= i + 1 < |sec| { assert img[w + i + 1] == was[i + 1]; }
    }
  }

  // The same table twice: a sector of one is the sector of the other.
  lemma SameSector(img: seq<byte>, a: nat, b: nat, t: Table, w: nat, was: seq<byte>)
    requires a + 2 * |t| <= |img| && b + 2 * |t| <= |img| && TableAt(img, a, t) && TableAt(img, b, t)
    requires w + |was| <= 2 * |t| && BytesAt(img, a + w, was)
    ensures BytesAt(img, b + w, was)
  {
    forall j | 0 <= j < |was| ensures img[b + w + j] == was[j] {
      var k := (w + j) / 2;
      assert EntryAt(img, a + 2 * k, t[k]) && EntryAt(img, b + 2 * k, t[k]);
      assert w + j == 2 * k || w + j == 2 * k + 1;
    }
  }

  // A partition encodes one value only.
  lemma RepresentsOne(g: Geometry, img: seq<byte>, v: Vol, w: Vol)
    requires Represents(g, img, v) && Represents(g, img, w)
    ensures v == w
  {
    forall k | 0 <= k < |v.table| ensures v.table[k] == w.table[k] {
      var e, f := v.table[k], w.table[k];
      assert e == e / 0x100 * 0x100 + e % 0x100 && f == f / 0x100 * 0x100 + f % 0x100;
    }
    assert v.table == w.table && v.root == w.root && v.data == w.data;
  }

  // Both copies of a table sector rewritten with entry c changed.
  lemma TableStored(g: Geometry, img: seq<byte>, v: Vol, c: nat, e: int, s: nat, o: nat, was: seq<byte>, sec: seq<byte>)
    requires Represents(g, img, v) && s < g.tblSectors && o < SECTOR && 2 * c == s * SECTOR + o
    requires 0 <= e < 0x1_0000 && |sec| == |was| == SECTOR && o + 1 < SECTOR
    requires BytesAt(img, (g.tblStart + s) * SECTOR, was) && sec == was[o := e % 0x100][o + 1 := e / 0x100]
    ensures c < |v.table|
    ensures Represents(g, StoredTwice(g, img, s, sec), v.(table := v.table[c := e]))
    ensures BytesAt(StoredTwice(g, img, s, sec), (g.tblStart + s) * SECTOR, sec)
  {
    hide TableAt, BytesAt, Splice;
    var t0, t1 := g.tblStart * SECTOR, (g.tblStart + g.tblSectors) * SECTOR;
    var w := s * SECTOR;
    var m := Splice(img, t0 + w, sec);
    SameSector(img, t0, t1, v.table, w, was);
    TableChanged(img, t0, v.table, c, e, t0 + w, sec, was, o);
    TableKept(img, t1, v.table, t0 + w, sec);
    BytesKept(img, t1 + w, was, t0 + w, sec);
    TableChanged(m, t1, v.table, c, e, t1 + w, sec, was, o);
    TableKept(m, t0, v.table[c := e], t1 + w, sec);
    BytesKept(img, g.RootStart() * SECTOR, v.root, t0 + w, sec);
    BytesKept(m, g.RootStart() * SECTOR, v.root, t1 + w, sec);
    BytesKept(img, g.DataStart() * SECTOR, v.data, t0 + w, sec);
    BytesKept(m, g.DataStart() * SECTOR, v.data, t1 + w, sec);
    BytesWritten(img, t0 + w, sec);
    BytesKept(m, t0 + w, sec, t1 + w, sec);
  }

  lemma BytesWritten(img: seq<byte>, w: nat, sec: seq<byte>)
    requires w + |sec| <= |img|
    ensures BytesAt(Splice(img, w, sec), w, sec)
  {
  }

  ghost function StoredTwice(g: Geometry, img: seq<byte>, s: nat, sec: seq<byte>): (r: seq<byte>)
    requires |sec| == SECTOR && (g.tblStart + s + g.tblSectors + 1) * SECTOR <= |img|
    ensures |r| == |img|
  {
    Splice(Splice(img, g.tblStart * SECTOR + s * SECTOR, sec), (g.tblStart + g.tblSectors) * SECTOR + s * SECTOR, sec)
  }

  // Entry c is at offset o of table sector s.
  lemma EntryInSector(g: Geometry, img: seq<byte>, v: Vol, c: nat, s: nat, o: nat, sec: seq<byte>)
    requires Represents(g, img, v) && s < g.tblSectors && o < SECTOR && 2 * c == s * SECTOR + o
    requires |sec| == SECTOR && BytesAt(img, (g.tblStart + s) * SECTOR, sec)
    ensures c < |v.table| && o + 1 < SECTOR && v.table[c] == sec[o] as int + 0x100 * (sec[o + 1] as int)
  {
    assert EntryAt(img, g.tblStart * SECTOR + 2 * c, v.table[c]);
    assert img[(g.tblStart + s) * SECTOR + o] == sec[o] && img[(g.tblStart + s) * SECTOR + (o + 1)] == sec[o + 1];
  }

  // Writing inside the root directory leaves tables and data.
  lemma BesideRoot(g: Geometry, img: seq<byte>, v: Vol, w: nat, sec: seq<byte>)
    requires Represents(g, img, v) && g.RootStart() * SECTOR <= w && w + |sec| <= g.DataStart() * SECTOR
    ensures w + |sec| <= |img|
    ensures TableAt(Splice(img, w, sec), g.tblStart * SECTOR, v.table)
    ensures TableAt(Splice(img, w, sec), (g.tblStart + g.tblSectors) * SECTOR, v.table)
    ensures BytesAt(Splice(img, w, sec), g.DataStart() * SECTOR, v.data)
  {
    hide TableAt, BytesAt, Splice;
    TableKept(img, g.tblStart * SECTOR, v.table, w, sec);
    TableKept(img, (g.tblStart + g.tblSectors) * SECTOR, v.table, w, sec);
    BytesKept(img, g.DataStart() * SECTOR, v.data, w, sec);
  }

  lemma RootStored(g: Geometry, img: seq<byte>, v: Vol, i: nat, s: nat, o: nat, item: seq<byte>, was: seq<byte>)
    requires Represents(g, img, v) && i < g.rootEntries && i * DIR_ITEM == s * SECTOR + o && o < SECTOR
    requires |item| == DIR_ITEM && |was| == SECTOR
    requires (g.RootStart() + s + 1) * SECTOR <= |img| && BytesAt(img, (g.RootStart() + s) * SECTOR, was)
    ensures o + DIR_ITEM <= SECTOR
    ensures var r := Splice(img, (g.RootStart() + s) * SECTOR, Splice(was, o, item));
      && Represents(g, r, v.(root := Splice(v.root, i * DIR_ITEM, item)))
      && BytesAt(r, (g.RootStart() + s) * SECTOR, Splice(was, o, item))
  {
    hide TableAt, BytesAt, Splice;
    var w := (g.RootStart() + s) * SECTOR;
    assert o + DIR_ITEM <= SECTOR && w + SECTOR <= g.DataStart() * SECTOR;
    var sec := Splice(was, o, item);
    BesideRoot(g, img, v, w, sec);
    BytesWritten(img, w, sec);
    BytesChanged(img, g.RootStart() * SECTOR, v.root, i * DIR_ITEM, item, w, was, o);
  }

  // Bytes of a region written back through the sector that holds them.
  lemma BytesChanged(img: seq<byte>, at: nat, x: seq<byte>, p: nat, item: seq<byte>, w: nat, was: seq<byte>, o: nat)
    requires at + |x| <= |img| && BytesAt(img, at, x) && p + |item| <= |x|
    requires at <= w && w + |was| <= at + |x| && BytesAt(img, w, was)
    requires o + |item| <= |was| && at + p == w + o
    ensures BytesAt(Splice(img, w, Splice(was, o, item)), at, Splice(x, p, item))
  {
    var sec := Splice(was, o, item);
    var r, y := Splice(img, w, sec), Splice(x, p, item);
    forall j | 0 <= j < |y| ensures r[at + j] == y[j] {
      var i := at + j - w;
      assert img[at + j] == x[j];
      if 0 <= i < |sec| { assert img[w + i] == was[i]; }
    }
  }

  lemma DataStored(g: Geometry, img: seq<byte>, v: Vol, c: int, off: nat, x: seq<byte>, at: nat)
    requires Represents(g, img, v) && InTable(v.table, c) && off + |x| <= g.ClusterBytes()
    requires at == g.DataStart() * SECTOR + (c - 2) * g.ClusterBytes() + off
    ensures Fits(|v.data|, g.ClusterBytes(), c) && at + |x| <= |img|
    ensures Represents(g, Splice(img, at, x), v.(data := Patch(v.data, g.ClusterBytes(), c, off, x)))
    ensures forall i :: 0 <= i < g.DataStart() * SECTOR ==> Splice(img, at, x)[i] == img[i]
  {
    assert Fits(|v.data|, g.ClusterBytes(), c);
    Offset(g.ClusterBytes(), c);
    TableKept(img, g.tblStart * SECTOR, v.table, at, x);
    TableKept(img, (g.tblStart + g.tblSectors) * SECTOR, v.table, at, x);
    BytesKept(img, g.RootStart() * SECTOR, v.root, at, x);
    var d, rel := g.DataStart() * SECTOR, (c - 2) * g.ClusterBytes() + off;
    assert img[d..][rel..rel + |x|] == img[at..at + |x|];
    assert BytesAt(img, at, img[at..at + |x|]);
    BytesChanged(img, d, v.data, rel, x, at, img[at..at + |x|], 0);
    assert Splice(img[at..at + |x|], 0, x) == x;
  }

  // Where the sectors of cluster c are.
  lemma ClusterPlace(g: Geometry, img: seq<byte>, v: Vol, c: int, at: int)
    requires Represents(g, img, v) && InTable(v.table, c)
    requires at == (g.DataStart() + (c - 2) * g.secPerCluster) * SECTOR
    ensures at == g.DataStart() * SECTOR + (c - 2) * g.ClusterBytes() && 0 <= at && at + g.ClusterBytes() <= |img|
    ensures Fits(|v.data|, g.ClusterBytes(), c)
    ensures Cluster(v.data, g.ClusterBytes(), c) == img[at..at + g.ClusterBytes()]
  {
    assert Fits(|v.data|, g.ClusterBytes(), c);
    Offset(g.ClusterBytes(), c);
    var cl, rel := Cluster(v.data, g.ClusterBytes(), c), (c - 2) * g.ClusterBytes();
    forall k | 0 <= k < |cl| ensures cl[k] == img[at + k] {
      assert cl[k] == v.data[rel + k];
    }
  }

  // ------------------------------------------------------------ the mounted volume

  class Fat {
    const g: Geometry
    const buffer: array<byte>   // fat_buffer: one page
    var currSector: int         // the sector the buffer caches, or -1
    var image: seq<byte>        // the partition behind the device
    ghost var vol: Vol          // what the partition means

    ghost predicate Valid()
      reads this, buffer
      ensures Valid() ==> WellFormed(g, vol)
    {
      && Represents(g, image, vol)
      && buffer.Length == PAGE
      && (currSector == -1 || (g.tblStart <= currSector < g.DataStart() && Caches(currSector)))
    }

    ghost predicate Caches(sector: nat)
      reads this, buffer
    {
      && SECTOR <= buffer.Length && (sector + 1) * SECTOR <= |image|
      && BytesAt(image, sector * SECTOR, buffer[..SECTOR])
    }

    constructor (g: Geometry, image: seq<byte>, ghost v: Vol)
      requires Represents(g, image, v)
      ensures Valid() && fresh(buffer) && this.g == g && vol == v
    {
      this.g, this.image := g, image;
      vol := v;
      currSector := -1;
      buffer := new byte[PAGE];
    }

    // ---------------------------------------------------------- the device

    method DevReadBuffer(sector: nat, n: nat)
      requires n * SECTOR <= buffer.Length && (sector + n) * SECTOR <= |image|
      modifies buffer
      ensures forall i :: 0 <= i < n * SECTOR ==> buffer[i] == image[sector * SECTOR + i]
    {
      forall i | 0 <= i < n * SECTOR {
        buffer[i] := image[sector * SECTOR + i];
      }
    }

    method DevWriteBuffer(sector: nat, n: nat)
      requires n * SECTOR <= buffer.Length && (sector + n) * SECTOR <= |image|
      modifies this`image
      ensures image == Splice(old(image), sector * SECTOR, buffer[..n * SECTOR])
    {
      DevWrite(sector, buffer[..n * SECTOR]);
    }

    method DevWrite(sector: nat, x: seq<byte>)
      requires sector * SECTOR + |x| <= |image|
      modifies this`image
      ensures image == Splice(old(image), sector * SECTOR, x)
    {
      image := image[..sector * SECTOR] + x + image[sector * SECTOR + |x|..];
    }

    // ---------------------------------------------------------- the cache

    method BreadSector(sector: nat)
      requires Valid() && g.tblStart <= sector < g.DataStart()
      modifies this`currSector, buffer
      ensures Valid() && currSector == sector && Caches(sector)
    {
      if sector == currSector {
        return;
      }
      DevReadBuffer(sector, 1);
      assert BytesAt(image, sector * SECTOR, buffer[..SECTOR]);
      currSector := sector;
    }

    method ClusterGetNext(curr: int) returns (next: int)
      requires Valid()
      modifies this`currSector, buffer
      ensures Valid()
      ensures next == Next(vol.table, curr)
    {
      if !IsCluster(curr) {
        return EOC;
      }
      var offset := curr * 2;
      var sector, offSector := offset / SECTOR, offset % SECTOR;
      if sector >= g.tblSectors {
        return EOC;
      }
      BreadSector(g.tblStart + sector);
      hide TableAt, BytesAt;
      EntryInSector(g, image, vol, curr, sector, offSector, buffer[..SECTOR]);
      next := buffer[offSector] as int + 0x100 * (buffer[offSector + 1] as int);
    }

    method ClusterSetNext(curr: int, next: int) returns (err: int)
      requires Valid() && 0 <= next < 0x1_0000
      modifies this, buffer
      ensures Valid()
      ensures err == (if InTable(old(vol).table, curr) then 0 else -1)
      ensures vol == old(vol).(table := SetNext(old(vol).table, curr, next))
    {
      if !IsCluster(curr) {
        return -1;
      }
      var offset := curr * 2;
      var sector, offSector := offset / SECTOR, offset % SECTOR;
      if sector >= g.tblSectors {
        return -1;
      }
      BreadSector(g.tblStart + sector);
      hide TableAt, BytesAt, Splice;
      ghost var was := buffer[..SECTOR];
      buffer[offSector] := next % 0x100;
      buffer[offSector + 1] := next / 0x100;
      BwriteCopies(sector);
      TableStored(g, old(image), vol, curr, next, sector, offSector, was, buffer[..SECTOR]);
      vol := vol.(table := vol.table[curr := next]);
      return 0;
    }

    // The loop that writes the cached table sector to every copy.
    method BwriteCopies(tableSector: nat)
      requires SECTOR <= buffer.Length && (g.tblStart + tableSector + g.tblSectors + 1) * SECTOR <= |image|
      modifies this`image
      ensures image == StoredTwice(g, old(image), tableSector, buffer[..SECTOR])
    {
      var sector := tableSector;
      ghost var img1 := Splice(image, g.tblStart * SECTOR + tableSector * SECTOR, buffer[..SECTOR]);
      for i := 0 to 2
        invariant sector == tableSector + i * g.tblSectors
        invariant i == 0 ==> image == old(image)
        invariant i == 1 ==> image == img1
        invariant i == 2 ==> image == StoredTwice(g, old(image), tableSector, buffer[..SECTOR])
      {
        DevWriteBuffer(g.tblStart + sector, 1);
        sector := sector + g.tblSectors;
      }
    }

    // ---------------------------------------------------------- directory entries

    method ReadDirEntry(index: int) returns (item: seq<byte>)
      requires Valid()
      modifies this`currSector, buffer
      ensures Valid()
      ensures if 0 <= index < g.rootEntries then item == DirItem(vol.root, index) else item == []
    {
      if index < 0 || index >= g.rootEntries {
        return [];
      }
      var offset := index * DIR_ITEM;
      var sector, off := offset / SECTOR, offset % SECTOR;
      BreadSector(g.RootStart() + sector);
      item := buffer[off..off + DIR_ITEM];
      ghost var want, sec := DirItem(vol.root, index), buffer[..SECTOR];
      forall k | 0 <= k < DIR_ITEM ensures item[k] == want[k] {
        assert item[k] == sec[off + k] && want[k] == vol.root[offset + k];
      }
    }

    method WriteDirEntry(item: seq<byte>, index: int) returns (err: int)
      requires Valid() && |item| == DIR_ITEM
      modifies this, buffer
      ensures Valid()
      ensures err == (if 0 <= index < g.rootEntries then 0 else -1)
      ensures vol == if err == 0 then old(vol).(root := Splice(old(vol).root, index * DIR_ITEM, item)) else old(vol)
    {
      hide TableAt, BytesAt, Splice;
      if index < 0 || index >= g.rootEntries {
        return -1;
      }
      var offset := index * DIR_ITEM;
      var sector, off := offset / SECTOR, offset % SECTOR;
      BreadSector(g.RootStart() + sector);
      ghost var was := buffer[..SECTOR];
      PatchBuffer(off, item);
      assert buffer[..SECTOR] == Splice(was, off, item);
      DevWriteBuffer(g.RootStart() + sector, 1);
      RootStored(g, old(image), vol, index, sector, off, item, was);
      vol := vol.(root := Splice(vol.root, index * DIR_ITEM, item));
      return 0;
    }

    // ---------------------------------------------------------- cluster data

    method ReadWhole(c: int) returns (x: seq<byte>)
      requires Valid() && InTable(vol.table, c)
      ensures Fits(|vol.data|, g.ClusterBytes(), c) && x == Cluster(vol.data, g.ClusterBytes(), c)
    {
      var start := g.DataStart() + (c - 2) * g.secPerCluster;
      ClusterPlace(g, image, vol, c, start * SECTOR);
      x := image[start * SECTOR..(start + g.secPerCluster) * SECTOR];
    }

    method ReadPart(c: int, off: nat, n: nat) returns (x: seq<byte>)
      requires Valid() && InTable(vol.table, c) && off + n <= g.ClusterBytes()
      modifies this`currSector, buffer
      ensures Valid()
      ensures Fits(|vol.data|, g.ClusterBytes(), c) && x == Cluster(vol.data, g.ClusterBytes(), c)[off..off + n]
    {
      var start := g.DataStart() + (c - 2) * g.secPerCluster;
      ClusterPlace(g, image, vol, c, start * SECTOR);
      currSector := -1;
      DevReadBuffer(start, g.secPerCluster);
      x := buffer[off..off + n];
      ghost var cl := Cluster(vol.data, g.ClusterBytes(), c);
      forall k | 0 <= k < n ensures x[k] == cl[off..off + n][k] {
        assert x[k] == buffer[off + k] && cl[off + k] == image[start * SECTOR + off + k];
      }
    }

    method WriteWhole(c: int, x: seq<byte>)
      requires Valid() && InTable(vol.table, c) && |x| == g.ClusterBytes()
      modifies this`image, this`vol
      ensures Valid() && Fits(|old(vol).data|, g.ClusterBytes(), c)
      ensures vol == old(vol).(data := Patch(old(vol).data, g.ClusterBytes(), c, 0, x))
    {
      var start := g.DataStart() + (c - 2) * g.secPerCluster;
      ClusterPlace(g, image, vol, c, start * SECTOR);
      DataStored(g, image, vol, c, 0, x, start * SECTOR);
      DevWrite(start, x);
      vol := vol.(data := Patch(vol.data, g.ClusterBytes(), c, 0, x));
    }

    method WritePart(c: int, off: nat, x: seq<byte>)
      requires Valid() && InTable(vol.table, c) && off + |x| <= g.ClusterBytes()
      modifies this, buffer
      ensures Valid() && Fits(|old(vol).data|, g.ClusterBytes(), c)
      ensures vol == old(vol).(data := Patch(old(vol).data, g.ClusterBytes(), c, off, x))
    {
      var start := g.DataStart() + (c - 2) * g.secPerCluster;
      ClusterPlace(g, image, vol, c, start * SECTOR);
      DataStored(g, image, vol, c, off, x, start * SECTOR + off);
      ReadPatchWrite(start, g.secPerCluster, off, x);
      vol := vol.(data := Patch(vol.data, g.ClusterBytes(), c, off, x));
    }

    // The n sectors at `start` go through the buffer, which then caches nothing.
    method ReadPatchWrite(start: nat, n: nat, off: nat, x: seq<byte>)
      requires n * SECTOR <= buffer.Length && (start + n) * SECTOR <= |image| && off + |x| <= n * SECTOR
      modifies this`currSector, this`image, buffer
      ensures currSector == -1 && image == Splice(old(image), start * SECTOR + off, x)
    {
      currSector := -1;
      DevReadBuffer(start, n);
      PatchBuffer(off, x);
      DevWriteBuffer(start, n);
      ghost var want := Splice(old(image), start * SECTOR + off, x);
      assert forall k :: 0 <= k < |image| ==> image[k] == want[k];
    }

    method PatchBuffer(off: nat, x: seq<byte>)
      requires off + |x| <= buffer.Length
      modifies buffer
      ensures forall i :: 0 <= i < buffer.Length ==>
        buffer[i] == if off <= i < off + |x| then x[i - off] else old(buffer[i])
    {
      forall i | 0 <= i < |x| {
        buffer[off + i] := x[i];
      }
    }
  }

  ghost function DirItem(root: seq<byte>, i: nat): (r: seq<byte>)
    requires (i + 1) * DIR_ITEM <= |root|
    ensures |r| == DIR_ITEM
  {
    root[i * DIR_ITEM..(i + 1) * DIR_ITEM]
  }
}

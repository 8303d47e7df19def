/** How many frames are free, and how many an operation will need: the pages it
    maps, and a table for each directory entry of theirs that has none. */
module FrameCount {
  import opened Bytes
  import opened PageTables

  // ------------------------------------------------------------ free frames

  ghost function Free(g: Geo, m: Mem): int {
    g.count - |m.owner|
  }

  ghost predicate Full(g: Geo, m: Mem) {
    forall f: nat {:trigger f in m.owner} :: Managed(g, f) ==> f in m.owner
  }

  ghost function Frames(base: nat, n: nat): (s: set<nat>)
    ensures forall f: nat :: f in s <==> base <= f < base + n
    ensures |s| == n
  {
    if n == 0 then {} else Frames(base, n - 1) + {base + n - 1}
  }

  lemma SmallerSet<T>(a: set<T>, b: set<T>)
    requires a <= b
    ensures |a| <= |b| && (|a| == |b| ==> a == b)
  {
    assert b == a + (b - a);
    assert |b| == |a| + |b - a|;
  }

  // No frame is free exactly when the count says so.
  lemma FullIsNoneFree(g: Geo, m: Mem)
    requires GeoOk(g, m)
    ensures 0 <= Free(g, m) && (Full(g, m) <==> Free(g, m) == 0)
  {
    var all := Frames(g.base, g.count);
    assert m.owner.Keys <= all;
    SmallerSet(m.owner.Keys, all);
    assert |m.owner.Keys| == |m.owner|;
    if Full(g, m) {
      forall f: nat | f in all ensures f in m.owner.Keys { assert Managed(g, f); }
      assert m.owner.Keys == all;
    }
    if Free(g, m) == 0 {
      forall f: nat | Managed(g, f) ensures f in m.owner { assert f in all; }
    }
  }

  lemma ClaimCounts(g: Geo, m: Mem, f: nat)
    requires f !in m.owner
    ensures Free(g, Claimed(m, f)) == Free(g, m) - 1
  {
    assert Claimed(m, f).owner.Keys == m.owner.Keys + {f};
    assert |Claimed(m, f).owner| == |Claimed(m, f).owner.Keys|;
  }

  lemma RoleCounts(owner: map<nat, Role>, f: nat, r: Role)
    requires f in owner
    ensures |owner[f := r]| == |owner|
  {
    assert owner[f := r].Keys == owner.Keys;
    assert |owner[f := r]| == |owner[f := r].Keys| && |owner| == |owner.Keys|;
  }

  // ------------------------------------------------------------ tables

  ghost predicate HasTable(m: Mem, d: nat, i: nat)
    requires d < |m.ram| && i < ENTRIES
  {
    Present(Word(m.ram[d], i))
  }

  // The directory entry i is one of the n pages from v0 on.
  ghost predicate Spans(v0: nat, n: nat, i: nat) {
    0 < n && v0 / ENTRIES <= i <= (v0 + n - 1) / ENTRIES
  }

  // The directory entries of these pages that have no table.
  ghost function Missing(m: Mem, d: nat, v0: nat, n: nat): (s: set<nat>)
    requires d < |m.ram| && v0 + n <= LAST_PAGE
  {
    set i: nat | i < ENTRIES && Spans(v0, n, i) && !HasTable(m, d, i)
  }

  // What a page needs beside its frame.
  ghost function TableFor(m: Mem, d: nat, i: nat): nat
    requires d < |m.ram| && i < ENTRIES
  {
    if HasTable(m, d, i) then 0 else 1
  }

  lemma SpansOneMore(v0: nat, n: nat, i: nat)
    ensures Spans(v0, n + 1, i) <==> Spans(v0, n, i) || i == (v0 + n) / ENTRIES
  {
  }

  lemma MissingMonotone(m: Mem, d: nat, v0: nat, n: nat, n': nat)
    requires d < |m.ram| && n <= n' && v0 + n' <= LAST_PAGE
    ensures Missing(m, d, v0, n) <= Missing(m, d, v0, n') && |Missing(m, d, v0, n)| <= |Missing(m, d, v0, n')|
  {
    SmallerSet(Missing(m, d, v0, n), Missing(m, d, v0, n'));
  }

  // From m to m' address space d got the tables of n pages from v0 on, and no
  // other; `more` frames went beside those.
  ghost predicate Counted(m: Mem, m': Mem, d: nat, v0: nat, n: nat, more: nat)
    requires d < |m.ram| && v0 + n <= LAST_PAGE
  {
    && |m'.ram| == |m.ram| && |m'.owner| == |m.owner| + |Missing(m, d, v0, n)| + more
    && forall i: nat {:trigger HasTable(m', d, i)} :: i < ENTRIES ==>
         (HasTable(m', d, i) <==> HasTable(m, d, i) || Spans(v0, n, i))
  }

  lemma CountNone(m: Mem, d: nat, v0: nat)
    requires d < |m.ram| && v0 <= LAST_PAGE
    ensures Counted(m, m, d, v0, 0, 0)
  {
    assert Missing(m, d, v0, 0) == {};
  }

  // Pages added to pages: what the second stretch misses is what the whole misses
  // beyond the first.
  lemma CountJoins(g: Geo, m0: Mem, m1: Mem, d: nat, v0: nat, a: nat, b: nat)
    requires d < |m0.ram| && v0 + a + b <= LAST_PAGE && Counted(m0, m1, d, v0, a, a)
    ensures |Missing(m0, d, v0, a + b)| == |Missing(m0, d, v0, a)| + |Missing(m1, d, v0 + a, b)|
    ensures b + |Missing(m1, d, v0 + a, b)| <= Free(g, m1) <==> a + b + |Missing(m0, d, v0, a + b)| <= Free(g, m0)
  {
    hide HasTable;
    forall i: nat | i < ENTRIES ensures Spans(v0, a + b, i) <==> Spans(v0, a, i) || Spans(v0 + a, b, i) {}
    var x, y := Missing(m0, d, v0, a), Missing(m1, d, v0 + a, b);
    assert Missing(m0, d, v0, a + b) == x + y && x !! y;
  }

  lemma CountedJoins(m0: Mem, m1: Mem, m2: Mem, d: nat, v0: nat, a: nat, b: nat)
    requires d < |m0.ram| && v0 + a + b <= LAST_PAGE && Counted(m0, m1, d, v0, a, a)
    requires Counted(m1, m2, d, v0 + a, b, b)
    ensures Counted(m0, m2, d, v0, a + b, a + b)
  {
    CountJoins(Geo(0, 0, 0), m0, m1, d, v0, a, b);
    hide HasTable, Missing;
    forall i: nat | i < ENTRIES ensures HasTable(m2, d, i) <==> HasTable(m0, d, i) || Spans(v0, a + b, i) {
      assert Spans(v0, a + b, i) <==> Spans(v0, a, i) || Spans(v0 + a, b, i);
    }
  }

  // The next page finds its table, or makes it.
  lemma CountOneMore(m: Mem, n: Mem, c: Mem, d: nat, v0: nat, k: nat, more: nat)
    requires d < |m.ram| && v0 + k < LAST_PAGE && Counted(m, n, d, v0, k, more) && |c.ram| == |m.ram|
    requires |c.owner| == |n.owner| + TableFor(n, d, (v0 + k) / ENTRIES)
    requires forall i: nat {:trigger HasTable(c, d, i)} :: i < ENTRIES ==>
      (HasTable(c, d, i) <==> HasTable(n, d, i) || i == (v0 + k) / ENTRIES)
    ensures Counted(m, c, d, v0, k + 1, more)
    ensures |Missing(m, d, v0, k + 1)| == |Missing(m, d, v0, k)| + TableFor(n, d, (v0 + k) / ENTRIES)
  {
    hide HasTable;
    var i := (v0 + k) / ENTRIES;
    MissingOneMore(m, n, d, v0, k, more);
    forall j: nat | j < ENTRIES ensures HasTable(c, d, j) <==> HasTable(m, d, j) || Spans(v0, k + 1, j) {
      SpansOneMore(v0, k, j);
    }
  }

  lemma MissingOneMore(m: Mem, n: Mem, d: nat, v0: nat, k: nat, more: nat)
    requires d < |m.ram| && v0 + k < LAST_PAGE && Counted(m, n, d, v0, k, more)
    ensures |Missing(m, d, v0, k + 1)| == |Missing(m, d, v0, k)| + TableFor(n, d, (v0 + k) / ENTRIES)
  {
    hide HasTable, Spans;
    var i := (v0 + k) / ENTRIES;
    var a, b := Missing(m, d, v0, k), Missing(m, d, v0, k + 1);
    forall j: nat | j < ENTRIES ensures j in b <==> j in a || (j == i && !HasTable(n, d, i)) {
      SpansOneMore(v0, k, j);
    }
    if HasTable(n, d, i) { assert b == a; } else { assert b == a + {i} && i !in a; }
  }

  // A change of roles, pages and bytes that leaves the directory alone.
  lemma CountKept(m: Mem, n: Mem, c: Mem, d: nat, v0: nat, k: nat, more: nat, more': nat)
    requires d < |m.ram| && v0 + k <= LAST_PAGE && Counted(m, n, d, v0, k, more) && |c.ram| == |n.ram|
    requires c.ram[d] == n.ram[d] && |c.owner| == |n.owner| - more + more'
    ensures Counted(m, c, d, v0, k, more')
  {
    forall i: nat | i < ENTRIES ensures HasTable(c, d, i) <==> HasTable(n, d, i) {}
  }

  // ------------------------------------------------------------ how far the frames reach

  // How many of n pages can be had, each with its frame and with the tables.
  ghost function PagesHad(free: int, m: Mem, d: nat, v0: nat, n: nat): (k: nat)
    requires d < |m.ram| && v0 + n <= LAST_PAGE
    ensures k <= n
  {
    if n == 0 || n + |Missing(m, d, v0, n)| <= free then n else PagesHad(free, m, d, v0, n - 1)
  }

  // It is the only number of pages that fit while one more does not.
  lemma {:induction false} PagesHadIs(free: int, m: Mem, d: nat, v0: nat, n: nat, k: nat)
    requires d < |m.ram| && v0 + n <= LAST_PAGE && k <= n && k + |Missing(m, d, v0, k)| <= free
    requires k < n ==> free < k + 1 + |Missing(m, d, v0, k + 1)|
    ensures PagesHad(free, m, d, v0, n) == k
    ensures k == n <==> n + |Missing(m, d, v0, n)| <= free
    decreases n
  {
    hide Missing;
    if k < n {
      MissingMonotone(m, d, v0, k + 1, n);
      PagesHadIs(free, m, d, v0, n - 1, k);
    }
  }

  // ------------------------------------------------------------ the pages of an address space

  // Its pages below n, and the directory entries they are in.
  ghost function Pages(m: Mem, d: nat, n: nat): (s: set<nat>)
    requires d < |m.ram| && n <= LAST_PAGE
  {
    set v: nat | FIRST_PAGE <= v < n && Present(Space(m, d, v))
  }

  ghost function Tables(pages: set<nat>): (s: set<nat>) {
    set v | v in pages :: v / ENTRIES
  }

  lemma PagesOneMore(m: Mem, d: nat, n: nat)
    requires d < |m.ram| && FIRST_PAGE <= n < LAST_PAGE
    ensures Pages(m, d, n + 1) == Pages(m, d, n) + (if Present(Space(m, d, n)) then {n} else {})
    ensures n !in Pages(m, d, n)
  {
    hide Space;
  }

  lemma TablesOneMore(pages: set<nat>, n: nat)
    ensures Tables(pages + {n}) == Tables(pages) + {n / ENTRIES}
  {
    forall i | i in Tables(pages) + {n / ENTRIES} ensures i in Tables(pages + {n}) {
      if i == n / ENTRIES { assert n in pages + {n}; }
    }
  }

  lemma PagesMonotone(m: Mem, d: nat, n: nat, n': nat)
    requires d < |m.ram| && n <= n' <= LAST_PAGE
    ensures |Pages(m, d, n)| <= |Pages(m, d, n')| && |Tables(Pages(m, d, n))| <= |Tables(Pages(m, d, n'))|
  {
    hide Space;
    SmallerSet(Pages(m, d, n), Pages(m, d, n'));
    SmallerSet(Tables(Pages(m, d, n)), Tables(Pages(m, d, n')));
  }

  // Halfway through a copy of d: the copy has its directory, the pages below n
  // and the tables these are in.
  ghost predicate CopyCounted(m0: Mem, m: Mem, d: nat, to: nat, n: nat)
    requires d < |m0.ram| && n <= LAST_PAGE
  {
    && to < |m.ram|
    && |m.owner| == |m0.owner| + 1 + |Pages(m0, d, n)| + |Tables(Pages(m0, d, n))|
    && forall i: nat {:trigger HasTable(m, to, i)} :: USER <= i < ENTRIES ==>
         (HasTable(m, to, i) <==> i in Tables(Pages(m0, d, n)))
  }

  // What a copy of d needs: a directory, the pages, and a table for each directory
  // entry with a page.
  ghost function CopyNeeds(m: Mem, d: nat): nat
    requires d < |m.ram|
  {
    1 + |Pages(m, d, LAST_PAGE)| + |Tables(Pages(m, d, LAST_PAGE))|
  }

  lemma CopyCountBegins(m0: Mem, m: Mem, d: nat, to: nat)
    requires d < |m0.ram| && to < |m.ram| && |m.owner| == |m0.owner| + 1
    requires forall i: nat :: USER <= i < ENTRIES ==> !HasTable(m, to, i)
    ensures CopyCounted(m0, m, d, to, FIRST_PAGE)
  {
    assert Pages(m0, d, FIRST_PAGE) == {} && Tables({}) == {};
  }

  lemma CopyCountSkips(m0: Mem, m: Mem, d: nat, to: nat, n: nat, n': nat)
    requires d < |m0.ram| && n <= n' <= LAST_PAGE && CopyCounted(m0, m, d, to, n)
    requires forall v {:trigger Space(m0, d, v)} :: n <= v < n' ==> !Present(Space(m0, d, v))
    ensures CopyCounted(m0, m, d, to, n')
  {
    hide Space, HasTable;
    assert Pages(m0, d, n') == Pages(m0, d, n);
  }

  lemma CopyGrowth(m0: Mem, m: Mem, d: nat, to: nat, n: nat)
    requires d < |m0.ram| && FIRST_PAGE <= n < LAST_PAGE && CopyCounted(m0, m, d, to, n) && Present(Space(m0, d, n))
    ensures |Pages(m0, d, n + 1)| == |Pages(m0, d, n)| + 1
    ensures Tables(Pages(m0, d, n + 1)) == Tables(Pages(m0, d, n)) + {n / ENTRIES}
    ensures |Tables(Pages(m0, d, n + 1))| == |Tables(Pages(m0, d, n))| + TableFor(m, to, n / ENTRIES)
  {
    hide Space, HasTable, Pages;
    PagesOneMore(m0, d, n);
    TablesOneMore(Pages(m0, d, n), n);
    hide Tables;
    var t := Tables(Pages(m0, d, n));
    if n / ENTRIES in t { assert t + {n / ENTRIES} == t; }
  }

  // A page and perhaps its table.
  lemma CopyCountOneMore(m0: Mem, m: Mem, c: Mem, d: nat, to: nat, n: nat)
    requires d < |m0.ram| && FIRST_PAGE <= n < LAST_PAGE && CopyCounted(m0, m, d, to, n) && Present(Space(m0, d, n))
    requires |c.ram| == |m.ram| && |c.owner| == |m.owner| + 1 + TableFor(m, to, n / ENTRIES)
    requires forall i: nat {:trigger HasTable(c, to, i)} :: USER <= i < ENTRIES ==>
      (HasTable(c, to, i) <==> HasTable(m, to, i) || i == n / ENTRIES)
    ensures CopyCounted(m0, c, d, to, n + 1)
  {
    hide Space, HasTable, Pages, Tables;
    CopyGrowth(m0, m, d, to, n);
  }

  // The frames do not reach for page n: so they do not reach for the copy.
  lemma CopyTooBig(g: Geo, m0: Mem, m: Mem, d: nat, to: nat, n: nat)
    requires d < |m0.ram| && FIRST_PAGE <= n < LAST_PAGE && CopyCounted(m0, m, d, to, n) && Present(Space(m0, d, n))
    requires Free(g, m) < 1 + TableFor(m, to, n / ENTRIES)
    ensures Free(g, m0) < CopyNeeds(m0, d)
  {
    hide Space, HasTable, Pages, Tables;
    CopyGrowth(m0, m, d, to, n);
    PagesMonotone(m0, d, n + 1, LAST_PAGE);
  }
}

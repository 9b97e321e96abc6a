/** setupkvm, freevm and copyuvm of OS/xv6-public/vm.c: whole address spaces come and go. */
module VmCopy {
  import opened VmTables
  import opened VmMemory
  import opened Vm
  import opened VmUser

  // ---------------------------------------------------------------- freevm

  ghost predicate NoUserPages(mem: Mem, d: int) { forall w :: 0 <= w < USER ==> !Present(Pte(mem, d, w)) }

  lemma OnlyTables(mem: Mem, d: int, lo: int)
    requires Shape(mem) && Sane(mem, d, lo) && NoUserPages(mem, d)
    ensures Owned(mem, d) == Tabs(mem, d)
  {
    TabOwned(mem, d, lo);
    forall f | f in Owned(mem, d) ensures f in Tabs(mem, d) {
      var p: Place :| At(mem, d, p) == f;
      assert !p.Page?;
    }
  }

  /** The tables of the first i directory entries. */
  ghost function TabsBelow(mem: Mem, d: int, i: int): set<int> {
    set j: int | 0 <= j < ENTRIES && j < i && Present(Pde(mem, d, j)) :: Addr(Pde(mem, d, j))
  }

  lemma TabsBelowNext(mem: Mem, d: int, i: int)
    requires 0 <= i < ENTRIES
    ensures TabsBelow(mem, d, i + 1) == TabsBelow(mem, d, i) + if Present(Pde(mem, d, i)) then {Addr(Pde(mem, d, i))} else {}
  {
    var below, all := TabsBelow(mem, d, i), TabsBelow(mem, d, i + 1);
    var last := if Present(Pde(mem, d, i)) then {Addr(Pde(mem, d, i))} else {};
    forall f | f in all ensures f in below + last {
      var j: int :| 0 <= j < ENTRIES && j < i + 1 && Present(Pde(mem, d, j)) && Addr(Pde(mem, d, j)) == f;
      assert j < i || j == i;
    }
  }

  lemma TabsBelowAll(mem: Mem, d: int)
    ensures TabsBelow(mem, d, 0) == {} && {d} + TabsBelow(mem, d, ENTRIES) == Tabs(mem, d)
  {}

  /** The next table has not been freed yet, and neither has the directory. */
  lemma NextTable(mem: Mem, d: int, lo: int, free: set<int>, i: int)
    requires Shape(mem) && Space(mem, d, lo, free) && 0 <= i <= ENTRIES
    ensures d !in free + TabsBelow(mem, d, i) && 0 < lo <= d < |mem|
    ensures i < ENTRIES && Present(Pde(mem, d, i)) ==>
              lo <= Addr(Pde(mem, d, i)) < |mem| && Addr(Pde(mem, d, i)) !in free + TabsBelow(mem, d, i)
              && Addr(Pde(mem, d, i)) != d
  {
    DirRange(mem, d, lo, free);
    assert At(mem, d, Dir) == d;
    forall j | 0 <= j < ENTRIES && Present(Pde(mem, d, j))
      ensures Addr(Pde(mem, d, j)) != d && lo <= Addr(Pde(mem, d, j)) < |mem| && Addr(Pde(mem, d, j)) !in free
      ensures i < ENTRIES && j != i && Present(Pde(mem, d, i)) ==> Addr(Pde(mem, d, j)) != Addr(Pde(mem, d, i))
    {
      TableInRange(mem, d, lo, j);
      assert At(mem, d, Tab(j)) != At(mem, d, Dir);
      if i < ENTRIES && Present(Pde(mem, d, i)) { TableInRange(mem, d, lo, i); }
      assert At(mem, d, Tab(j)) !in free;
    }
  }

  /** freevm: every frame of the address space, user pages, page tables and directory, is free again. */
  method FreeVm(k: Kmem, d: int)
    requires Holds(k, d)
    modifies k
    ensures k.Valid() && k.Free() == old(Reach(k.mem, d, k.Free()))
    ensures Within(old(k.mem), k.mem, old(Owned(k.mem, d)))
  {
    hide Space, Owned, Tabs, Sane, Within, Pte, Shape, Cleared, Pages, Pde, NoUserPages, TabsBelow, Reach;
    ghost var mem0 := k.mem;
    var _ := DeallocUvm(k, d, KERNBASE, 0);
    ghost var mem1, free1 := k.mem, k.Free();
    AllCleared(mem0, mem1, d);
    SpaceSane(mem1, d, k.lo, free1);
    OnlyTables(mem1, d, k.lo);
    SpaceSane(mem0, d, k.lo, old(k.Free()));
    PagesOwned(mem0, d, k.lo, 0, USER);
    TabOwned(mem0, d, k.lo);
    WithinWider(mem0, mem1, Tabs(mem0, d) + Pages(mem0, d, 0, USER), Owned(mem0, d));
    TabsBelowAll(mem1, d);
    var i := 0;
    assert free1 + {} == free1;
    while i < ENTRIES
      invariant 0 <= i <= ENTRIES && k.Valid() && k.Free() == free1 + TabsBelow(mem1, d, i)
      invariant |k.mem| == |mem1| && 0 <= d < |mem1| && k.mem[d] == mem1[d] && |mem1[d]| == ENTRIES
      invariant Within(mem0, k.mem, Owned(mem0, d))
    {
      NextTable(mem1, d, k.lo, free1, i);
      PdeAt(mem1, d, i);
      TabsBelowNext(mem1, d, i);
      TabIn(mem1, d, i);
      var e := k.mem[d][i];
      if Present(e) {
        ghost var mem2 := k.mem;
        k.Kfree(Addr(e));
        WrittenFrame(mem2, Addr(e), k.mem[Addr(e)], Owned(mem0, d));
        WithinTwice(mem0, mem2, k.mem, Owned(mem0, d), Owned(mem0, d));
      }
      i := i + 1;
    }
    NextTable(mem1, d, k.lo, free1, ENTRIES);
    ghost var mem2 := k.mem;
    k.Kfree(d);
    DirIn(mem0, d);
    WrittenFrame(mem2, d, k.mem[d], Owned(mem0, d));
    WithinTwice(mem0, mem2, k.mem, Owned(mem0, d), Owned(mem0, d));
    ReachIs(mem1, d, free1);
    assert free1 + TabsBelow(mem1, d, ENTRIES) + {d} == Tabs(mem1, d) + free1;
  }

  lemma AllCleared(a: Mem, b: Mem, d: int)
    requires Cleared(a, b, d, PageOf(RoundUp(0)), PageOf(RoundUp(KERNBASE)))
    ensures NoUserPages(b, d) && PageOf(RoundUp(0)) == 0 && PageOf(RoundUp(KERNBASE)) == USER
  {}

  lemma SpaceSane(mem: Mem, d: int, lo: int, free: set<int>)
    requires Space(mem, d, lo, free)
    ensures Sane(mem, d, lo) && 0 <= d < |mem| && (Shape(mem) ==> |mem[d]| == ENTRIES)
  {
    DirRange(mem, d, lo, free);
  }

  lemma PagesOwned(mem: Mem, d: int, lo: int, first: int, last: int)
    requires Shape(mem) && Sane(mem, d, lo)
    ensures Pages(mem, d, first, last) <= Owned(mem, d)
  {
    forall f | f in Pages(mem, d, first, last) ensures f in Owned(mem, d) {
      var w: int :| first <= w < last && 0 <= w < USER && Present(Pte(mem, d, w)) && Addr(Pte(mem, d, w)) == f;
      PageFrame(mem, d, lo, w);
      OwnedIn(mem, d, lo, Page(w));
    }
  }

  lemma WithinWider(a: Mem, b: Mem, s: set<int>, t: set<int>)
    requires Within(a, b, s) && s <= t
    ensures Within(a, b, t)
  {}

  lemma PdeAt(mem: Mem, d: int, i: int)
    requires 0 <= d < |mem| && |mem[d]| == ENTRIES && 0 <= i < ENTRIES
    ensures Pde(mem, d, i) == mem[d][i]
  {}

  lemma TabIn(mem: Mem, d: int, i: int)
    requires 0 <= i < ENTRIES
    ensures Present(Pde(mem, d, i)) ==> Addr(Pde(mem, d, i)) in Tabs(mem, d)
  {}

  lemma DirIn(mem: Mem, d: int)
    ensures d in Tabs(mem, d)
  {}

  lemma ReachIs(mem: Mem, d: int, free: set<int>)
    ensures Reach(mem, d, free) == Owned(mem, d) + free
  {}

  // ---------------------------------------------------------------- setupkvm

  /** A row of kmap: size bytes at virt, mapped to start and what follows. */
  datatype Kmap = Kmap(virt: int, start: int, size: int, perm: int)

  ghost predicate RowOk(m: Kmap) {
    && KERNBASE <= m.virt && m.size > 0 && m.virt + m.size - 1 < WIDTH
    && 0 <= m.start && m.start % PAGE == 0 && 0 <= m.perm < PAGE
  }

  const EXTMEM: int := 0x10_0000
  const PHYSTOP: int := 0xE00_0000
  const DEVSPACE: int := 0xFE00_0000

  /** kmap, for a kernel whose data begins at the virtual address `data`. Sizes are differences of unsigned
      32-bit numbers; the last row ends at 0. */
  function KernelRows(data: int): seq<Kmap> {
    [ Kmap(KERNBASE, 0, EXTMEM, PTE_W),
      Kmap(KERNBASE + EXTMEM, EXTMEM, data - KERNBASE - EXTMEM, 0),
      Kmap(data, data - KERNBASE, PHYSTOP - (data - KERNBASE), PTE_W),
      Kmap(DEVSPACE, DEVSPACE, WIDTH - DEVSPACE, PTE_W) ]
  }

  /** Each row by itself, and the pages where the rows begin and end. */
  lemma RowPages(data: int)
    requires data % PAGE == 0 && KERNBASE + EXTMEM < data < KERNBASE + PHYSTOP
    ensures var rows := KernelRows(data);
            RowOk(rows[0]) && RowOk(rows[1]) && RowOk(rows[2]) && RowOk(rows[3])
            && EndPage(rows[0]) == FirstPage(rows[1]) <= EndPage(rows[1]) == FirstPage(rows[2]) <= EndPage(rows[2]) <= FirstPage(rows[3])
  {}

  /** The rows of the source are in order, for page-aligned data between the text and the end of memory. */
  lemma KernelRowsOk(data: int)
    requires data % PAGE == 0 && KERNBASE + EXTMEM < data < KERNBASE + PHYSTOP
    ensures KmapOk(KernelRows(data))
  {
    hide RowOk, EndPage, FirstPage;
    RowPages(data);
    var rows := KernelRows(data);
    forall i | 0 <= i < |rows| ensures RowOk(rows[i]) {
      if i == 0 {} else if i == 1 {} else if i == 2 {} else {}
    }
  }

  function FirstPage(m: Kmap): int { PageOf(m.virt) }

  function EndPage(m: Kmap): int { PageOf(m.virt + m.size - 1) + 1 }

  /** The rows lie above KERNBASE and share no page. */
  ghost predicate KmapOk(rows: seq<Kmap>) {
    && (forall i :: 0 <= i < |rows| ==> RowOk(rows[i]))
    && forall i, j :: 0 <= i < j < |rows| ==> EndPage(rows[i]) <= FirstPage(rows[j]) || EndPage(rows[j]) <= FirstPage(rows[i])
  }

  /** Page w as row m maps it. */
  function RowEntry(m: Kmap, w: int): int { Entry(PageOf(m.start) + (w - FirstPage(m)), m.perm) }

  predicate InRow(m: Kmap, w: int) { FirstPage(m) <= w < EndPage(m) }

  /** The pages of the first n rows are mapped as they say, and no other page is. */
  ghost predicate KernelPart(mem: Mem, d: int, rows: seq<Kmap>, n: int) {
    && (forall i, w :: 0 <= i < n <= |rows| && InRow(rows[i], w) ==> Pte(mem, d, w) == RowEntry(rows[i], w))
    && (forall w :: (forall i :: 0 <= i < n <= |rows| ==> !InRow(rows[i], w)) ==> !Present(Pte(mem, d, w)))
  }

  /** A zeroed frame is an address space with nothing in it. */
  lemma EmptySpace(mem: Mem, lo: int, free: set<int>, d: int, rows: seq<Kmap>)
    requires 0 < lo <= d < |mem| && d !in free && NONE !in free
    ensures var m := mem[d := Zeros()];
            Space(m, d, lo, free) && Reach(m, d, free) == free + {d} && Scratch(m, d, free) == free + {d}
            && KernelPart(m, d, rows, 0) && Within(mem, m, {d}) && TableSet(m, d) == {}
  {
    var m := mem[d := Zeros()];
    assert forall i: int :: Pde(m, d, i) == 0;
    assert forall w: int :: Pte(m, d, w) == 0;
    assert forall p: Place :: At(m, d, p) == if p == Dir then d else NONE;
    assert forall f: int :: Owns(m, d, f) <==> f == d by { assert At(m, d, Dir) == d; }
    assert Owned(m, d) == {d} && Tabs(m, d) == {d};
  }

  lemma RowFree(mem: Mem, d: int, lo: int, free: set<int>, rows: seq<Kmap>, n: int)
    requires KmapOk(rows) && KernelPart(mem, d, rows, n) && 0 <= n < |rows|
    ensures RowOk(rows[n]) && FirstPage(rows[n]) >= USER
    ensures Mappable(mem, d, lo, free, FirstPage(rows[n]), EndPage(rows[n]) - 1, PageOf(rows[n].start))
  {
    forall v | FirstPage(rows[n]) <= v <= EndPage(rows[n]) - 1 ensures !Present(Pte(mem, d, v)) {
      forall i | 0 <= i < n ensures !InRow(rows[i], v) {}
    }
  }

  lemma RowMapped(a: Mem, b: Mem, d: int, rows: seq<Kmap>, n: int)
    requires KmapOk(rows) && KernelPart(a, d, rows, n) && 0 <= n < |rows|
    requires Mapped(a, b, d, FirstPage(rows[n]), EndPage(rows[n]), PageOf(rows[n].start), rows[n].perm)
    ensures KernelPart(b, d, rows, n + 1)
  {
    forall i, w | 0 <= i < n + 1 && InRow(rows[i], w) ensures Pte(b, d, w) == RowEntry(rows[i], w) {
      if i < n { assert EndPage(rows[i]) <= FirstPage(rows[n]) || EndPage(rows[n]) <= FirstPage(rows[i]); }
    }
    forall w | forall i :: 0 <= i < n + 1 ==> !InRow(rows[i], w) ensures !Present(Pte(b, d, w)) {
      assert !InRow(rows[n], w);
      assert forall i :: 0 <= i < n ==> !InRow(rows[i], w);
    }
  }

  lemma KernelOnly(mem: Mem, d: int, rows: seq<Kmap>)
    requires KmapOk(rows) && KernelPart(mem, d, rows, |rows|)
    ensures NoUserPages(mem, d)
  {
    forall w | 0 <= w < USER ensures !Present(Pte(mem, d, w)) {
      forall i | 0 <= i < |rows| ensures !InRow(rows[i], w) { assert RowOk(rows[i]); }
    }
  }

  /** The directory entries that the first n rows need. */
  ghost function RowTables(rows: seq<Kmap>, n: nat): set<int>
    requires n <= |rows|
  {
    if n == 0 then {} else RowTables(rows, n - 1) + TablesFor(FirstPage(rows[n - 1]), EndPage(rows[n - 1]))
  }

  lemma {:induction false} RowTablesUpTo(rows: seq<Kmap>, n: nat, m: nat)
    requires n <= m <= |rows|
    ensures RowTables(rows, n) <= RowTables(rows, m)
    decreases m - n
  {
    if n < m { RowTablesUpTo(rows, n, m - 1); }
  }

  /** What is there is part of what is needed; strictly, if something is missing. */
  lemma PartOf(now: set<int>, all: set<int>, x: int)
    requires now <= all
    ensures |now| <= |all| && (x in all && x !in now ==> |now| < |all|)
  {
    Smaller(now, all);
    if x in all && x !in now { Smaller(now + {x}, all); }
  }

  /** setupkvm: 0 only when no frame was left; then the frames already taken are not given back. */
  method SetupKvm(k: Kmem, rows: seq<Kmap>) returns (d: int)
    requires k.Valid() && KmapOk(rows)
    modifies k
    ensures k.Valid() && k.Free() <= old(k.Free()) && Within(old(k.mem), k.mem, old(k.Free()))
    ensures d != 0 ==>
              Holds(k, d) && KernelPart(k.mem, d, rows, |rows|) && NoUserPages(k.mem, d)
              && Reach(k.mem, d, k.Free()) == old(k.Free()) && Scratch(k.mem, d, k.Free()) <= old(k.Free())
              && |k.free| + 1 + |TableSet(k.mem, d)| == old(|k.free|) && TableSet(k.mem, d) == RowTables(rows, |rows|)
    ensures d == 0 ==> k.free == [] && old(|k.free|) < 1 + |RowTables(rows, |rows|)|
  {
    hide Space, Owned, Tabs, Sane, Within, Pte, Shape, Reach, Scratch, Mapped, Mappable, KernelPart, NoUserPages, FreeOk, Chain,
         TableSet, TablesFor, UserFrames, Books, RowTables;
    ghost var mem0, free0 := k.mem, k.Free();
    WithinSelf(mem0, free0);
    RowTablesNone(rows);
    d := k.Kalloc();
    if d == 0 {
      return 0;
    }
    LoPositive(k.mem, k.lo, k.freelist, k.free);
    k.Clear(d);
    EmptySpace(mem0, k.lo, k.Free(), d, rows);
    WithinWider(mem0, k.mem, {d}, free0);
    assert k.Free() + {d} == free0;
    var n := 0;
    while n < |rows|
      invariant 0 <= n <= |rows| && Holds(k, d) && KernelPart(k.mem, d, rows, n)
      invariant Reach(k.mem, d, k.Free()) == free0 && Scratch(k.mem, d, k.Free()) == free0 && k.Free() <= free0
      invariant Within(mem0, k.mem, free0)
      invariant |k.free| + 1 + |TableSet(k.mem, d)| == old(|k.free|) && TableSet(k.mem, d) == RowTables(rows, n)
    {
      ghost var mem1, left := k.mem, k.free;
      RowFree(k.mem, d, k.lo, k.Free(), rows, n);
      ghost var first, f := FirstPage(rows[n]), PageOf(rows[n].start);
      var ok, upto := MapPages(k, d, rows[n].virt, rows[n].size, rows[n].start, rows[n].perm);
      BooksOpen(mem1, left, k.mem, k.free, d, UserFrames(first, upto, f), TablesFor(first, upto));
      KernelFrames(first, upto, f);
      assert free0 + {} == free0;
      WithinTwice(mem0, mem1, k.mem, free0, free0);
      TablesForUpTo(first, upto, EndPage(rows[n]));
      RowTablesNext(rows, n);
      if !ok {
        TablesForUpTo(first, upto + 1, EndPage(rows[n]));
        TablesForNext(first, upto);
        PartOf(TableSet(k.mem, d), RowTables(rows, |rows|), upto / ENTRIES);
        return 0;
      }
      RowMapped(mem1, k.mem, d, rows, n);
      n := n + 1;
    }
    KernelOnly(k.mem, d, rows);
  }

  /** A row, entry by entry. */
  lemma RowWord(mem: Mem, d: int, rows: seq<Kmap>, i: int, w: int)
    requires KmapOk(rows) && KernelPart(mem, d, rows, |rows|) && 0 <= i < |rows| && InRow(rows[i], w)
    ensures Pte(mem, d, w) / 4096 == rows[i].start / 4096 + (w - rows[i].virt / 4096)
    ensures Pte(mem, d, w) % 4096 == rows[i].perm - rows[i].perm % 2 + 1
  {
    assert RowOk(rows[i]);
    EntryParts(PageOf(rows[i].start) + (w - FirstPage(rows[i])), rows[i].perm);
  }

  /** What setupkvm leaves, in numbers: physical memory up to PHYSTOP from KERNBASE on, the text read-only,
      the devices at their own addresses, and nothing else. User code may not use any of it. */
  lemma KernelMap(mem: Mem, d: int, data: int, w: int)
    requires data % 4096 == 0 && 0x8010_0000 < data < 0x8E00_0000
    requires KernelPart(mem, d, KernelRows(data), 4)
    ensures 0x8_0000 <= w < 0x8_E000 ==>
              Pte(mem, d, w) / 4096 == w - 0x8_0000 && Pte(mem, d, w) % 4096 == if 0x8_0100 <= w < data / 4096 then 1 else 3
    ensures 0xF_E000 <= w < 0x10_0000 ==> Pte(mem, d, w) / 4096 == w && Pte(mem, d, w) % 4096 == 3
    ensures !(0x8_0000 <= w < 0x8_E000) && !(0xF_E000 <= w < 0x10_0000) ==> Pte(mem, d, w) % 2 == 0
  {
    hide KmapOk, Pte;
    KernelRowsOk(data);
    var rows := KernelRows(data);
    RowEnds(data);
    if 0x8_0000 <= w < 0x8_0100 {
      RowWord(mem, d, rows, 0, w);
    } else if 0x8_0100 <= w < data / 4096 {
      RowWord(mem, d, rows, 1, w);
    } else if data / 4096 <= w < 0x8_E000 {
      RowWord(mem, d, rows, 2, w);
    } else if 0xF_E000 <= w < 0x10_0000 {
      RowWord(mem, d, rows, 3, w);
    } else {
      forall i | 0 <= i < 4 ensures !InRow(rows[i], w) {
        if i == 0 {} else if i == 1 {} else if i == 2 {} else {}
      }
    }
  }

  lemma RowEnds(data: int)
    requires data % 4096 == 0 && 0x8010_0000 < data < 0x8E00_0000
    ensures var rows := KernelRows(data);
            FirstPage(rows[0]) == 0x8_0000 && EndPage(rows[0]) == 0x8_0100 && FirstPage(rows[1]) == 0x8_0100
            && EndPage(rows[1]) == data / 4096 && FirstPage(rows[2]) == data / 4096 && EndPage(rows[2]) == 0x8_E000
            && FirstPage(rows[3]) == 0xF_E000 && EndPage(rows[3]) == 0x10_0000
  {}

  lemma RowTablesNone(rows: seq<Kmap>)
    ensures RowTables(rows, 0) == {}
  {}

  lemma RowTablesNext(rows: seq<Kmap>, n: nat)
    requires n < |rows|
    ensures RowTables(rows, n + 1) == RowTables(rows, n) + TablesFor(FirstPage(rows[n]), EndPage(rows[n]))
    ensures RowTables(rows, n + 1) <= RowTables(rows, |rows|)
  {
    RowTablesUpTo(rows, n + 1, |rows|);
  }

  lemma KernelFrames(first: int, v: int, f: int)
    requires first >= USER
    ensures UserFrames(first, v, f) == {}
  {}

  lemma LoPositive(mem: Mem, lo: int, head: int, free: seq<int>)
    requires FreeOk(mem, lo, head, free)
    ensures 0 < lo && NONE !in Elems(free)
  {}

  // ---------------------------------------------------------------- copyuvm

  /** Pages 0, ..., v - 1 of d have copies in e: the same bytes and the same flags; e has no other user page. */
  ghost predicate Copied(a: Mem, d: int, b: Mem, e: int, v: int) {
    && |a| == |b|
    && (forall w :: 0 <= w < v ==>
          Present(Pte(b, e, w)) && Flags(Pte(b, e, w)) == Flags(Pte(a, d, w))
          && 0 <= Addr(Pte(b, e, w)) < |b| && b[Addr(Pte(b, e, w))] == Word2(a, Addr(Pte(a, d, w))))
    && (forall w :: v <= w < USER ==> !Present(Pte(b, e, w)))
  }

  function Word2(mem: Mem, f: int): Frame { if 0 <= f < |mem| then mem[f] else [] }

  lemma CopiedNone(a: Mem, d: int, b: Mem, e: int)
    requires |a| == |b| && NoUserPages(b, e)
    ensures Copied(a, d, b, e, 0)
  {}

  lemma CopiedNext(a: Mem, d: int, b: Mem, c: Mem, e: int, v: int, f: int)
    requires Copied(a, d, b, e, v) && 0 <= v < USER && PagesKept(b, c, e) && Present(Pte(a, d, v))
    requires Mapped(b, c, e, v, v + 1, f, Flags(Pte(a, d, v))) && 0 <= f < |c| == |b|
    requires c[f] == Word2(a, Addr(Pte(a, d, v)))
    ensures Copied(a, d, c, e, v + 1)
  {
    var flags := Flags(Pte(a, d, v));
    EntryParts(f, flags);
    FlagsOdd(Pte(a, d, v));
    assert Pte(c, e, v) == Entry(f + (v - v), flags);
    forall w | 0 <= w < v
      ensures Pte(c, e, w) == Pte(b, e, w) && c[Addr(Pte(b, e, w))] == b[Addr(Pte(b, e, w))]
    {
      assert Present(Pte(b, e, w));
    }
  }

  lemma FlagsOdd(x: int)
    requires Present(x)
    ensures 0 <= Flags(x) < PAGE && Flags(x) - Flags(x) % 2 + PTE_P == Flags(x)
  {
    assert x == PAGE * (x / PAGE) + x % PAGE;
    assert x == 2 * (2048 * (x / PAGE)) + x % PAGE;
  }

  /** kalloc, memmove and mappages for the page at a. */
  method CopyPage(k: Kmem, e: int, a: int, from: int, perm: int) returns (f: int, ok: bool)
    requires Holds(k, e) && 0 <= PageOf(a) < USER && a == PageOf(a) * PAGE && !Present(Pte(k.mem, e, PageOf(a)))
    requires 0 <= from < |k.mem| && from !in k.free && 0 <= perm < PAGE
    modifies k
    ensures Holds(k, e)
    ensures f == 0 ==> !ok && k.mem == old(k.mem) && k.free == old(k.free)
    ensures f != 0 ==> 0 <= f < |k.mem|
    ensures f != 0 && ok ==>
              k.mem[f] == old(k.mem)[from] && Reach(k.mem, e, k.Free()) == old(Reach(k.mem, e, k.Free()))
              && Mapped(old(k.mem), k.mem, e, PageOf(a), PageOf(a) + 1, f, perm)
    ensures Scratch(k.mem, e, k.Free()) <= old(Scratch(k.mem, e, k.Free())) && k.Free() <= old(k.Free())
    ensures Within(old(k.mem), k.mem, old(Scratch(k.mem, e, k.Free())))
    ensures Reach(k.mem, e, k.Free()) <= old(Reach(k.mem, e, k.Free()))
    ensures !ok ==> k.free == []
    ensures f != 0 ==> |k.free| + 1 + |TableSet(k.mem, e)| == old(|k.free| + |TableSet(k.mem, e)|)
    ensures f != 0 ==> TableGrowth(old(k.mem), k.mem, e, PageOf(a), ok)
  {
    hide Space, Reach, Owned, Scratch, Tabs, Sane, Mapped, Within, Pte, Shape, TableSet;
    ghost var mem0, free0 := k.mem, k.Free();
    WithinSelf(mem0, Scratch(mem0, e, free0));
    f := k.Kalloc();
    if f == 0 {
      return 0, false;
    }
    k.Copy(from, f);
    ok := MapFilled(k, e, a, f, perm, mem0, free0);
  }

  /** The frames that a copy of the first `end` pages takes. */
  ghost function CopyNeeds(rows: seq<Kmap>, end: int): int { 1 + end + |RowTables(rows, |rows|) + TablesFor(0, end)| }

  /** copyuvm of the first sz bytes, all of whose pages are mapped. It fails only when there were fewer
      free frames than the directory, the page tables and the pages of the copy. */
  method CopyUvm(k: Kmem, d: int, sz: int, rows: seq<Kmap>) returns (e: int)
    requires Holds(k, d) && 0 <= sz <= KERNBASE && KmapOk(rows)
    requires forall w :: 0 <= w < PageOf(RoundUp(sz)) ==> Present(Pte(k.mem, d, w))
    modifies k
    ensures Holds(k, d) && SameSpace(old(k.mem), k.mem, d) && Owned(k.mem, d) == old(Owned(k.mem, d))
    ensures PagesKept(old(k.mem), k.mem, d)
    ensures k.Free() <= old(k.Free())
    ensures e == 0 ==> old(|k.free|) < CopyNeeds(rows, PageOf(RoundUp(sz)))
    ensures e != 0 ==>
              Holds(k, e) && Copied(old(k.mem), d, k.mem, e, PageOf(RoundUp(sz)))
              && Reach(k.mem, e, k.Free()) == old(k.Free()) && Owned(k.mem, d) !! Owned(k.mem, e)
    ensures e != 0 ==> forall va: int, write :: 0 <= va < sz ==>
              (UserMay(k.mem, e, va, write) <==> old(UserMay(k.mem, d, va, write)))
              && UserWord(k.mem, e, va) == old(UserWord(k.mem, d, va))
  {
    hide UserMay, UserWord;
    hide Space, Reach, Owned, Scratch, Tabs, Sane, Mapped, Within, Pte, Shape, Copied, PagesKept, SameSpace, NoUserPages,
         KernelPart, KmapOk, Present, RoundUp, PageOf, Flags, Addr, FreeOk, Word, Word2, TableSet,
         TablesFor, RowTables, TableGrowth;
    ghost var mem0, free0, end := k.mem, k.Free(), PageOf(RoundUp(sz));
    e := SetupKvm(k, rows);
    ParentKept(mem0, k.mem, d, k.lo, free0, k.Free());
    Rounded(sz);
    ghost var tables := RowTables(rows, |rows|);
    Smaller(tables, tables + TablesFor(0, end));
    if e == 0 {
      return 0;
    }
    TablesForNext(0, 0);
    SameSize(mem0, k.mem, free0);
    CopiedNone(mem0, d, k.mem, e);
    Rounded(sz);
    RoundedUser(sz);
    var i := 0;
    ghost var v := 0;
    while i < sz
      invariant i == v * PAGE && 0 <= v <= end && Holds(k, e) && Copied(mem0, d, k.mem, e, v)
      invariant Reach(k.mem, e, k.Free()) == free0 && Scratch(k.mem, e, k.Free()) <= free0 && k.Free() <= free0
      invariant Within(mem0, k.mem, free0) && Holds(k, d)
      invariant |k.free| + 1 + v + |TableSet(k.mem, e)| == old(|k.free|)
      invariant tables <= TableSet(k.mem, e) <= tables + TablesFor(0, v)
      decreases end - v
    {
      BelowSize(v, sz);
      PageAt(v);
      ghost var mem1, free1 := k.mem, k.Free();
      ParentKept(mem0, mem1, d, k.lo, free0, free1);
      SameAt(mem0, mem1, d, v);
      var t := WalkPgdir(k, d, i, false);
      PresentTable(mem1, d, v);
      TableKept(mem1, d, k.lo, free1, v);
      TableReads(mem1, d, k.lo, v);
      var pte := k.mem[t][i / PAGE % ENTRIES];
      assert pte == Pte(mem0, d, v);
      PageKept(mem0, mem1, d, k.lo, free1, v);
      FlagsOdd(pte);
      NotCopiedYet(mem0, d, mem1, e, v);
      var f, ok := CopyPage(k, e, i, Addr(pte), Flags(pte));
      WithinTwice(mem0, mem1, k.mem, free0, Scratch(mem1, e, free1));
      ParentKept(mem0, k.mem, d, k.lo, free0, k.Free());
      CopyTables(tables, mem1, k.mem, e, v, end, f, ok);
      if !ok {
        ghost var mem2, free2 := k.mem, k.Free();
        ReachIs(mem2, e, free2);
        FreeVm(k, e);
        WithinTwice(mem0, mem2, k.mem, free0, Owned(mem2, e));
        ParentKept(mem0, k.mem, d, k.lo, free0, k.Free());
        return 0;
      }
      SameSize(mem1, k.mem, Scratch(mem1, e, free1));
      ScratchKeepsPages(mem1, k.mem, e, k.lo, free1);
      CopiedNext(mem0, d, mem1, k.mem, e, v, f);
      i := i + PAGE;
      v := v + 1;
    }
    BelowSize(v, sz);
    ParentKept(mem0, k.mem, d, k.lo, free0, k.Free());
    ChildApart(mem0, k.mem, d, e, k.lo, free0, k.Free());
    CopiedOpen(mem0, d, free0, k.mem, e, k.Free(), k.lo, sz);
  }

  /** User code finds the same words in the copy, and may do the same to them. */
  lemma CopiedOpen(a: Mem, d: int, free0: set<int>, b: Mem, e: int, free: set<int>, lo: int, sz: int)
    requires Shape(a) && Space(a, d, lo, free0) && Space(b, e, lo, free) && 0 <= sz <= KERNBASE
    requires Copied(a, d, b, e, PageOf(RoundUp(sz))) && forall w :: 0 <= w < PageOf(RoundUp(sz)) ==> Present(Pte(a, d, w))
    ensures forall va: int, write :: 0 <= va < sz ==>
              (UserMay(b, e, va, write) <==> UserMay(a, d, va, write)) && UserWord(b, e, va) == UserWord(a, d, va)
  {
    hide UserMay, UserWord, Pte, Sane, Apart;
    RoundedUser(sz);
    forall va: int, write | 0 <= va < sz
      ensures (UserMay(b, e, va, write) <==> UserMay(a, d, va, write)) && UserWord(b, e, va) == UserWord(a, d, va)
    {
      InPages(va, 0, sz);
      PageDecides(a, d, va, write);
      PageDecides(b, e, va, write);
      PageFrame(a, d, lo, va / 0x1000);
    }
  }

  /** The page tables of the copy so far, and what it would have taken. */
  lemma CopyTables(tables: set<int>, a: Mem, b: Mem, e: int, v: int, end: int, f: int, ok: bool)
    requires 0 <= v < end && tables <= TableSet(a, e) <= tables + TablesFor(0, v)
    requires f != 0 ==> TableGrowth(a, b, e, v, ok)
    requires f == 0 ==> TableSet(b, e) == TableSet(a, e) && !ok
    ensures tables <= TableSet(b, e) <= tables + TablesFor(0, v + 1)
    ensures |TableSet(b, e)| <= |tables + TablesFor(0, end)|
    ensures f != 0 && !ok ==> |TableSet(b, e)| < |tables + TablesFor(0, end)|
  {
    TablesForNext(0, v);
    TablesForUpTo(0, v + 1, end);
    PartOf(TableSet(b, e), tables + TablesFor(0, end), v / ENTRIES);
  }

  /** Whatever is done to frames that were free, the parent stays as it is. */
  lemma ParentKept(a: Mem, b: Mem, d: int, lo: int, free0: set<int>, free: set<int>)
    requires Shape(a) && Space(a, d, lo, free0) && Within(a, b, free0) && free <= free0
    ensures Space(b, d, lo, free) && SameSpace(a, b, d) && Owned(b, d) == Owned(a, d) && PagesKept(a, b, d)
  {
    OthersKeep(a, b, free0, d, lo);
    forall p: Place ensures At(b, d, p) !in free { assert At(b, d, p) == At(a, d, p); }
  }

  lemma SameAt(a: Mem, b: Mem, d: int, v: int)
    requires SameSpace(a, b, d)
    ensures Pte(b, d, v) == Pte(a, d, v)
  {}

  lemma PresentTable(mem: Mem, d: int, v: int)
    requires 0 <= v < USER && Present(Pte(mem, d, v))
    ensures HasTable(mem, d, v)
  {}

  lemma PageKept(a: Mem, b: Mem, d: int, lo: int, free: set<int>, v: int)
    requires Shape(b) && Space(b, d, lo, free) && 0 <= v < USER && Present(Pte(b, d, v)) && Pte(b, d, v) == Pte(a, d, v)
    requires PagesKept(a, b, d)
    ensures 0 <= Addr(Pte(a, d, v)) < |b| && Addr(Pte(a, d, v)) !in free && b[Addr(Pte(a, d, v))] == Word2(a, Addr(Pte(a, d, v)))
  {
    PageFrame(b, d, lo, v);
    assert At(b, d, Page(v)) !in free;
  }

  lemma NotCopiedYet(a: Mem, d: int, b: Mem, e: int, v: int)
    requires Copied(a, d, b, e, v) && v < USER
    ensures !Present(Pte(b, e, v))
  {}

  lemma ChildApart(a: Mem, b: Mem, d: int, e: int, lo: int, free0: set<int>, free: set<int>)
    requires Space(a, d, lo, free0) && Owned(b, d) == Owned(a, d) && Reach(b, e, free) == free0
    ensures Owned(b, d) !! Owned(b, e)
  {
    forall f | f in Owned(a, d) ensures f !in free0 {
      var p: Place :| At(a, d, p) == f;
    }
  }
}

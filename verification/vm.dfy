/** OS/xv6-public/vm.c: walking, mapping, growing, shrinking, freeing and copying address spaces. */
module Vm {
  import opened VmTables
  import opened VmMemory

  const KERNBASE: int := 0x8000_0000
  const WIDTH: int := 0x1_0000_0000

  function RoundUp(sz: int): int { (sz + PAGE - 1) / PAGE * PAGE }

  function PageOf(a: int): int { a / PAGE }

  /** An address space, its frames apart from the free ones, all of its tables open to the user. */
  ghost predicate Space(mem: Mem, d: int, lo: int, free: set<int>) {
    Sane(mem, d, lo) && Apart(mem, d, free) && Open(mem, d)
  }

  /** The same user pages with the same entries and the same kernel entries. */
  ghost predicate SamePtes(a: Mem, b: Mem, d: int) { forall v: int :: Pte(b, d, v) == Pte(a, d, v) }

  lemma FreshFrame(mem: Mem, d: int, lo: int, free: set<int>, f: int)
    requires Space(mem, d, lo, free) && f in free
    ensures !Owns(mem, d, f) && f != d && f !in Owned(mem, d)
  {
    assert At(mem, d, Dir) == d;
  }

  /** All frames that the address space has or could get. */
  ghost function Reach(mem: Mem, d: int, free: set<int>): set<int> { Owned(mem, d) + free }

  /** The directory and the page tables. */
  ghost function Tabs(mem: Mem, d: int): set<int> {
    {d} + set i: int | 0 <= i < ENTRIES && Present(Pde(mem, d, i)) :: Addr(Pde(mem, d, i))
  }

  /** The frames that mapping a page may write: tables, and frames that become tables. */
  ghost function Scratch(mem: Mem, d: int, free: set<int>): set<int> { Tabs(mem, d) + free }

  /** The directory entries that have a page table; each is a frame that was taken from the free list. */
  ghost function TableSet(mem: Mem, d: int): set<int> { set i: int | 0 <= i < ENTRIES && Present(Pde(mem, d, i)) }

  /** The directory entries of the pages first, ..., end - 1. */
  ghost function TablesFor(first: int, end: int): set<int> { set w: int | first <= w < end :: w / ENTRIES }

  lemma TablesForNext(first: int, v: int)
    requires first <= v
    ensures TablesFor(first, v + 1) == TablesFor(first, v) + {v / ENTRIES} && TablesFor(first, first) == {}
  {
    forall i | i in TablesFor(first, v + 1) ensures i in TablesFor(first, v) + {v / ENTRIES} {
      var w: int :| first <= w < v + 1 && w / ENTRIES == i;
    }
  }

  lemma NoTableYet(mem: Mem, d: int, v: int)
    requires 0 <= v < ENTRIES * ENTRIES && !HasTable(mem, d, v)
    ensures v / ENTRIES !in TableSet(mem, d)
  {}

  lemma TablesForUpTo(first: int, v: int, end: int)
    requires v <= end
    ensures TablesFor(first, v) <= TablesFor(first, end)
  {
    forall i | i in TablesFor(first, v) ensures i in TablesFor(first, end) {
      var w: int :| first <= w < v && w / ENTRIES == i;
    }
  }

  lemma OwnedIn(mem: Mem, d: int, lo: int, p: Place)
    requires Sane(mem, d, lo) && At(mem, d, p) != NONE
    ensures At(mem, d, p) in Owned(mem, d)
  {
    assert Owns(mem, d, At(mem, d, p));
  }

  // ---------------------------------------------------------------- walkpgdir

  /** A frame of the free list becomes an empty page table. */
  lemma NewTable(mem: Mem, d: int, lo: int, free: set<int>, i: int, t: int)
    requires Shape(mem) && Space(mem, d, lo, free) && 0 <= i < ENTRIES && !Present(Pde(mem, d, i))
    requires t in free && 0 < lo <= t < |mem|
    ensures 0 <= d < |mem| && |mem[d]| == ENTRIES && t != d
    ensures var m := WithTable(mem, d, i, t);
            Space(m, d, lo, free - {t}) && SamePtes(mem, m, d) && Present(Pde(m, d, i)) && Addr(Pde(m, d, i)) == t
            && Reach(m, d, free - {t}) == Reach(mem, d, free)
            && Scratch(m, d, free - {t}) == Scratch(mem, d, free) && Within(mem, m, Scratch(mem, d, free))
            && i !in TableSet(mem, d) && TableSet(m, d) == TableSet(mem, d) + {i}
            && Pde(m, d, i) % 4096 == 7 && forall j: int :: j != i ==> Pde(m, d, j) == Pde(mem, d, j)
  {
    FreshFrame(mem, d, lo, free, t);
    assert At(mem, d, Dir) == d;
    TableAdded(mem, d, lo, i, t);
    EntryParts(t, PTE_W + PTE_U);
    var m := WithTable(mem, d, i, t);
    assert forall j: int :: Pde(m, d, j) == if j == i then Entry(t, PTE_W + PTE_U) else Pde(mem, d, j);
    assert At(m, d, Tab(i)) == t;
    TabsAdded(mem, d, i, t);
    forall p: Place ensures At(m, d, p) !in free - {t} {
      assert At(m, d, p) == if p == Tab(i) then t else At(mem, d, p);
    }
    assert Owned(m, d) == Owned(mem, d) + {t};
  }

  lemma TabsAdded(mem: Mem, d: int, i: int, t: int)
    requires 0 <= d < |mem| && |mem[d]| == ENTRIES && 0 <= i < ENTRIES && !Present(Pde(mem, d, i)) && 0 <= t < |mem| && t != d
    ensures Tabs(WithTable(mem, d, i, t), d) == Tabs(mem, d) + {t}
    ensures TableSet(WithTable(mem, d, i, t), d) == TableSet(mem, d) + {i}
  {
    var m := WithTable(mem, d, i, t);
    EntryParts(t, PTE_W + PTE_U);
    assert Pde(m, d, i) == Entry(t, PTE_W + PTE_U);
    assert forall j :: 0 <= j < ENTRIES && j != i ==> Pde(m, d, j) == Pde(mem, d, j);
    forall f ensures f in Tabs(m, d) <==> f in Tabs(mem, d) + {t} {
      if f in Tabs(mem, d) && f != d {
        var j :| 0 <= j < ENTRIES && Present(Pde(mem, d, j)) && Addr(Pde(mem, d, j)) == f;
        assert Pde(m, d, j) == Pde(mem, d, j);
      }
      if f in Tabs(m, d) && f != d {
        var j :| 0 <= j < ENTRIES && Present(Pde(m, d, j)) && Addr(Pde(m, d, j)) == f;
        assert j != i ==> Pde(m, d, j) == Pde(mem, d, j);
      }
    }
  }

  ghost predicate Holds(k: Kmem, d: int)
    reads k
  {
    k.Valid() && Space(k.mem, d, k.lo, k.Free())
  }

  lemma DirRange(mem: Mem, d: int, lo: int, free: set<int>)
    requires Space(mem, d, lo, free)
    ensures 0 < lo <= d < |mem| && d !in free && d in Owned(mem, d)
  {
    assert At(mem, d, Dir) == d;
    OwnedIn(mem, d, lo, Dir);
  }

  /** walkpgdir: the page table for va, 0 for none; the entry is word PTX(va) of it. */
  method WalkPgdir(k: Kmem, d: int, va: int, alloc: bool) returns (t: int)
    requires Holds(k, d) && 0 <= va < WIDTH
    modifies k
    ensures Holds(k, d) && SamePtes(old(k.mem), k.mem, d)
    ensures t != 0 ==> HasTable(k.mem, d, PageOf(va)) && t == Addr(Pde(k.mem, d, PageOf(va) / ENTRIES))
    ensures t == 0 <==> !HasTable(old(k.mem), d, PageOf(va)) && (!alloc || old(k.free) == [])
    ensures t == 0 || !alloc ==> k.mem == old(k.mem) && k.free == old(k.free)
    ensures Reach(k.mem, d, k.Free()) == old(Reach(k.mem, d, k.Free()))
    ensures Scratch(k.mem, d, k.Free()) == old(Scratch(k.mem, d, k.Free())) && k.Free() <= old(k.Free())
    ensures Within(old(k.mem), k.mem, old(Scratch(k.mem, d, k.Free())))
    ensures |k.free| + |TableSet(k.mem, d)| == old(|k.free| + |TableSet(k.mem, d)|)
    ensures TableSet(k.mem, d) == old(TableSet(k.mem, d)) + if t != 0 then {PageOf(va) / ENTRIES} else {}
    ensures forall i: int :: old(Pde(k.mem, d, i)) % 2 == 1 || i != va / 0x40_0000 ==> Pde(k.mem, d, i) == old(Pde(k.mem, d, i))
    ensures t != 0 ==> Pde(k.mem, d, va / 0x40_0000) % 4096 == 7
  {
    var i := va / (PAGE * ENTRIES);
    PdxIs(va);
    DirRange(k.mem, d, k.lo, k.Free());
    var e := k.mem[d][i];
    assert e == Pde(k.mem, d, i);
    if Present(e) {
      TableOf(k.mem, d, k.lo, PageOf(va));
      TableInRange(k.mem, d, k.lo, i);
      assert i in TableSet(k.mem, d);
      return Addr(e);
    }
    if !alloc {
      return 0;
    }
    ghost var free := k.Free();
    t := k.Kalloc();
    if t == 0 {
      return 0;
    }
    NewTable(k.mem, d, k.lo, free, i, t);
    assert d !in k.free;
    k.Clear(t);
    EntryParts(t, PTE_W + PTE_U);
    k.Store(d, i, Entry(t, PTE_W + PTE_U));
    assert k.mem == WithTable(old(k.mem), d, i, t);
  }

  lemma PdxIs(va: int)
    requires 0 <= va < WIDTH
    ensures va / (PAGE * ENTRIES) == PageOf(va) / ENTRIES && 0 <= PageOf(va) / ENTRIES < ENTRIES
    ensures 0 <= PageOf(va) < ENTRIES * ENTRIES
  {}

  lemma TableInRange(mem: Mem, d: int, lo: int, i: int)
    requires Shape(mem) && Sane(mem, d, lo) && 0 <= i < ENTRIES && Present(Pde(mem, d, i))
    ensures 0 < lo <= Addr(Pde(mem, d, i)) < |mem| && At(mem, d, Tab(i)) == Addr(Pde(mem, d, i))
  {
    assert Pde(mem, d, i) >= 0;
    assert At(mem, d, Tab(i)) != NONE;
  }

  // ---------------------------------------------------------------- one entry

  /** *pte = e, for the entry found by walkpgdir. */
  method SetPte(k: Kmem, d: int, va: int, t: int, e: int)
    requires k.Valid() && Sane(k.mem, d, k.lo) && HasTable(k.mem, d, PageOf(va)) && e >= 0
    requires t == Addr(Pde(k.mem, d, PageOf(va) / ENTRIES)) && t !in k.free
    modifies k`mem
    ensures k.Valid() && k.mem == WithPte(old(k.mem), d, PageOf(va), e)
    ensures Within(old(k.mem), k.mem, Tabs(old(k.mem), d))
  {
    ghost var v := PageOf(va);
    TableOf(k.mem, d, k.lo, v);
    assert At(k.mem, d, Tab(v / ENTRIES)) == t;
    k.Store(t, va / PAGE % ENTRIES, e);
  }

  /** The table of an entry is not free. */
  lemma TableKept(mem: Mem, d: int, lo: int, free: set<int>, v: int)
    requires Shape(mem) && Space(mem, d, lo, free) && HasTable(mem, d, v)
    ensures Addr(Pde(mem, d, v / ENTRIES)) !in free && Sane(mem, d, lo)
  {
    TableOf(mem, d, lo, v);
    assert At(mem, d, Tab(v / ENTRIES)) !in free;
  }

  lemma TabsKept(mem: Mem, d: int, lo: int, v: int, e: int)
    requires Shape(mem) && Sane(mem, d, lo) && 0 <= d < |mem| && HasTable(mem, d, v)
    ensures Open(mem, d) ==> Open(WithPte(mem, d, v, e), d)
    ensures Tabs(WithPte(mem, d, v, e), d) == Tabs(mem, d) && TableSet(WithPte(mem, d, v, e), d) == TableSet(mem, d)
  {
    forall i: int ensures Pde(WithPte(mem, d, v, e), d, i) == Pde(mem, d, i) { SetPteOther(mem, d, lo, v, e, i); }
  }

  /** An unused frame becomes page v. */
  lemma UserMapped(mem: Mem, d: int, lo: int, free: set<int>, v: int, f: int, perm: int)
    requires Shape(mem) && Space(mem, d, lo, free) && HasTable(mem, d, v) && 0 <= v < USER && !Present(Pte(mem, d, v))
    requires lo <= f < |mem| && f !in free && f !in Owned(mem, d) && 0 <= perm < PAGE
    ensures var m := WithPte(mem, d, v, Entry(f, perm));
            Space(m, d, lo, free) && (forall w: int :: Pte(m, d, w) == if w == v then Entry(f, perm) else Pte(mem, d, w))
            && Reach(m, d, free) == Reach(mem, d, free) + {f} && Scratch(m, d, free) == Scratch(mem, d, free)
            && TableSet(m, d) == TableSet(mem, d)
  {
    DirRange(mem, d, lo, free);
    var m := WithPte(mem, d, v, Entry(f, perm));
    assert !Owns(mem, d, f);
    TabsKept(mem, d, lo, v, Entry(f, perm));
    PageAdded(mem, d, lo, v, f, perm);
    forall p: Place ensures At(m, d, p) !in free { assert At(m, d, p) == if p == Page(v) then f else At(mem, d, p); }
    forall w: int ensures Pte(m, d, w) == if w == v then Entry(f, perm) else Pte(mem, d, w) {
      SetPteOther(mem, d, lo, v, Entry(f, perm), w);
    }
  }

  lemma KernelMapped(mem: Mem, d: int, lo: int, free: set<int>, v: int, e: int)
    requires Shape(mem) && Space(mem, d, lo, free) && HasTable(mem, d, v) && USER <= v
    ensures var m := WithPte(mem, d, v, e);
            Space(m, d, lo, free) && (forall w: int :: Pte(m, d, w) == if w == v then e else Pte(mem, d, w))
            && Reach(m, d, free) == Reach(mem, d, free) && Scratch(m, d, free) == Scratch(mem, d, free)
            && TableSet(m, d) == TableSet(mem, d)
  {
    DirRange(mem, d, lo, free);
    var m := WithPte(mem, d, v, e);
    TabsKept(mem, d, lo, v, e);
    KernelSet(mem, d, lo, v, e);
    forall p: Place ensures At(m, d, p) !in free { assert At(m, d, p) == At(mem, d, p); }
    forall w: int ensures Pte(m, d, w) == if w == v then e else Pte(mem, d, w) { SetPteOther(mem, d, lo, v, e, w); }
  }

  // ---------------------------------------------------------------- mappages

  /** The entries after pages first, ..., last - 1 were mapped to consecutive frames from f on. */
  ghost predicate Mapped(a: Mem, b: Mem, d: int, first: int, last: int, f: int, perm: int) {
    forall w: int :: Pte(b, d, w) == if first <= w < last then Entry(f + (w - first), perm) else Pte(a, d, w)
  }

  /** The entries in numbers: the frame, the permissions with bit 0, and an open directory entry above. */
  lemma MappedFlags(a: Mem, k: Kmem, d: int, first: int, last: int, f: int, perm: int)
    requires Mapped(a, k.mem, d, first, last, f, perm) && Holds(k, d) && 0 <= perm < PAGE
    ensures forall w: int :: first <= w < last ==>
              Pte(k.mem, d, w) % 4096 == perm - perm % 2 + 1 && Pte(k.mem, d, w) / 4096 == f + (w - first)
              && Pde(k.mem, d, w / 1024) % 4096 == 7
  {
    forall w: int | first <= w < last
      ensures Pte(k.mem, d, w) % 4096 == perm - perm % 2 + 1 && Pte(k.mem, d, w) / 4096 == f + (w - first)
              && Pde(k.mem, d, w / 1024) % 4096 == 7
    {
      EntryParts(f + (w - first), perm);
    }
  }

  lemma MappedNext(a: Mem, b: Mem, c: Mem, d: int, first: int, v: int, f: int, perm: int)
    requires Mapped(a, b, d, first, v, f, perm) && first <= v
    requires forall w: int :: Pte(c, d, w) == if w == v then Entry(f + (v - first), perm) else Pte(b, d, w)
    ensures Mapped(a, c, d, first, v + 1, f, perm)
  {}

  /** The pages are not mapped, and the frames for user pages are ones that nobody uses. */
  ghost predicate Mappable(mem: Mem, d: int, lo: int, free: set<int>, first: int, last: int, f: int) {
    && (forall v :: first <= v <= last ==> !Present(Pte(mem, d, v)))
    && (forall g :: f <= g <= f + (last - first) && ForUser(first, f, g) ==> Unused(mem, d, lo, free, g))
  }

  ghost predicate Unused(mem: Mem, d: int, lo: int, free: set<int>, f: int) {
    lo <= f < |mem| && f !in free && f !in Owned(mem, d)
  }

  /** The frames that user pages first, ..., v - 1 get. */
  ghost function UserFrames(first: int, v: int, f: int): set<int> { set g: int | f <= g < f + (v - first) && ForUser(first, f, g) }

  /** Frame g is for a page below KERNBASE. */
  ghost predicate ForUser(first: int, f: int, g: int) { first + (g - f) < USER }

  lemma UserFramesNext(first: int, v: int, f: int)
    requires first <= v
    ensures UserFrames(first, first, f) == {}
    ensures UserFrames(first, v + 1, f) == UserFrames(first, v, f) + if v < USER then {f + (v - first)} else {}
    ensures f + (v - first) !in UserFrames(first, v, f)
  {}

  lemma PageStep(a: int, v: int)
    requires a == v * PAGE
    ensures PageOf(a) == v && a + PAGE == (v + 1) * PAGE
  {}

  lemma MappedSame(a: Mem, b: Mem, c: Mem, d: int, first: int, v: int, f: int, perm: int)
    requires Mapped(a, b, d, first, v, f, perm) && SamePtes(b, c, d)
    ensures Mapped(a, c, d, first, v, f, perm)
  {}

  lemma MappedNone(a: Mem, d: int, first: int, f: int, perm: int)
    ensures Mapped(a, a, d, first, first, f, perm)
  {}

  lemma WithinSelf(m: Mem, s: set<int>)
    ensures Within(m, m, s)
  {}

  lemma InWidth(v: int, va: int, size: int)
    requires 0 <= va && size > 0 && va + size - 1 < WIDTH && PageOf(va) <= v <= PageOf(va + size - 1)
    ensures 0 <= v * PAGE < WIDTH
  {}

  lemma EntryIs(p: int, g: int, perm: int)
    requires p == g * PAGE && 0 <= p && 0 <= perm
    ensures p + perm - perm % 2 + PTE_P == Entry(g, perm) && Entry(g, perm) >= 0
  {}

  lemma ReachParts(mem: Mem, d: int, free: set<int>)
    ensures Owned(mem, d) <= Reach(mem, d, free) && free <= Reach(mem, d, free) && Tabs(mem, d) <= Scratch(mem, d, free)
  {}

  /** What may be mapped next is still unmapped, and its frame still unused. */
  lemma StillUnmapped(a: Mem, b: Mem, d: int, lo: int, free: set<int>, first: int, last: int, v: int, f: int, perm: int)
    requires Mappable(a, d, lo, free, first, last, f) && Mapped(a, b, d, first, v, f, perm) && first <= v <= last
    ensures !Present(Pte(b, d, v))
    ensures v < USER ==> lo <= f + (v - first) < |a| && f + (v - first) !in Reach(a, d, free)
  {
    if v < USER { assert Unused(a, d, lo, free, f + (v - first)); }
  }

  lemma NothingMapped(a: Mem, b: Mem, d: int, first: int, f: int, perm: int)
    requires Mapped(a, b, d, first, first, f, perm)
    ensures SamePtes(a, b, d)
  {}

  /** One turn of the loop of mappages, with the page table in hand. */
  method MapOne(k: Kmem, d: int, a: int, t: int, p: int, perm: int)
    requires Holds(k, d) && 0 <= a && a % PAGE == 0 && 0 <= p && p % PAGE == 0 && 0 <= perm < PAGE
    requires HasTable(k.mem, d, PageOf(a)) && t == Addr(Pde(k.mem, d, PageOf(a) / ENTRIES)) && !Present(Pte(k.mem, d, PageOf(a)))
    requires PageOf(a) < USER ==> k.lo <= PageOf(p) < |k.mem| && PageOf(p) !in Reach(k.mem, d, k.Free())
    modifies k`mem
    ensures Holds(k, d)
    ensures forall w: int :: Pte(k.mem, d, w) == if w == PageOf(a) then Entry(PageOf(p), perm) else Pte(old(k.mem), d, w)
    ensures Reach(k.mem, d, k.Free()) == old(Reach(k.mem, d, k.Free())) + if PageOf(a) < USER then {PageOf(p)} else {}
    ensures Scratch(k.mem, d, k.Free()) == old(Scratch(k.mem, d, k.Free())) && TableSet(k.mem, d) == old(TableSet(k.mem, d))
    ensures Within(old(k.mem), k.mem, old(Scratch(k.mem, d, k.Free())))
  {
    hide Space, Reach, Within, WithPte, Entry, Owned, Scratch, Tabs, Sane, TableSet, Pte, Pde, Present;
    ghost var mem0, free0, v := k.mem, k.Free(), PageOf(a);
    WithinSelf(mem0, Scratch(mem0, d, free0));
    EntryIs(p, PageOf(p), perm);
    ReachParts(mem0, d, free0);
    TableKept(mem0, d, k.lo, free0, v);
    SetPte(k, d, a, t, p + perm - perm % 2 + PTE_P);
    WithinTwice(mem0, mem0, k.mem, Scratch(mem0, d, free0), Tabs(mem0, d));
    assert Reach(mem0, d, free0) + {} == Reach(mem0, d, free0);
    if v >= USER {
      KernelMapped(mem0, d, k.lo, free0, v, Entry(PageOf(p), perm));
    } else {
      UserMapped(mem0, d, k.lo, free0, v, PageOf(p), perm);
    }
  }

  /** What has become of the frames: `frames` were added to the address space from outside, the directory
      entries in `tables` have a page table now, whose frames came from the free list, and nothing else was
      written. */
  ghost predicate Books(a: Mem, free: seq<int>, b: Mem, left: seq<int>, d: int, frames: set<int>, tables: set<int>) {
    && Reach(b, d, Elems(left)) == Reach(a, d, Elems(free)) + frames
    && Scratch(b, d, Elems(left)) == Scratch(a, d, Elems(free)) && Elems(left) <= Elems(free)
    && Within(a, b, Scratch(a, d, Elems(free)))
    && |left| + |TableSet(b, d)| == |free| + |TableSet(a, d)| && TableSet(b, d) == TableSet(a, d) + tables
  }

  lemma BooksNone(a: Mem, free: seq<int>, d: int)
    ensures Books(a, free, a, free, d, {}, {})
  {}

  lemma BooksTwice(a: Mem, f: seq<int>, b: Mem, g: seq<int>, c: Mem, h: seq<int>, d: int,
                   frames: set<int>, tables: set<int>, more: set<int>, others: set<int>)
    requires Books(a, f, b, g, d, frames, tables) && Books(b, g, c, h, d, more, others)
    ensures Books(a, f, c, h, d, frames + more, tables + others)
  {
    hide Reach, Scratch, Within, TableSet, Elems;
    WithinTwice(a, b, c, Scratch(a, d, Elems(f)), Scratch(a, d, Elems(f)));
  }

  /** One turn: the page table, and the entry. */
  method MapNext(k: Kmem, d: int, a: int, p: int, perm: int) returns (ok: bool)
    requires Holds(k, d) && 0 <= a < WIDTH && a % PAGE == 0 && 0 <= p && p % PAGE == 0 && 0 <= perm < PAGE
    requires !Present(Pte(k.mem, d, PageOf(a)))
    requires PageOf(a) < USER ==> k.lo <= PageOf(p) < |k.mem| && PageOf(p) !in Reach(k.mem, d, k.Free())
    modifies k
    ensures Holds(k, d)
    ensures ok ==> forall w: int :: Pte(k.mem, d, w) == if w == PageOf(a) then Entry(PageOf(p), perm) else Pte(old(k.mem), d, w)
    ensures !ok ==> SamePtes(old(k.mem), k.mem, d) && k.free == [] && PageOf(a) / ENTRIES !in TableSet(k.mem, d)
    ensures Books(old(k.mem), old(k.free), k.mem, k.free, d,
                  if ok && PageOf(a) < USER then {PageOf(p)} else {}, if ok then {PageOf(a) / ENTRIES} else {})
  {
    hide Space, Reach, Within, HasTable, WithPte, Entry, Present, Owned, Scratch, Tabs, Sane, Addr, Pde, Pte, TableSet;
    ghost var mem0, free0 := k.mem, k.Free();
    ghost var reach, scratch := Reach(mem0, d, free0), Scratch(mem0, d, free0);
    PdxIs(a);
    var t := WalkPgdir(k, d, a, true);
    assert reach + {} == reach;
    if t == 0 {
      NoTableYet(mem0, d, PageOf(a));
      assert TableSet(mem0, d) + {} == TableSet(mem0, d);
      return false;
    }
    ghost var mem1, free1 := k.mem, k.Free();
    StaysUnmapped(mem0, mem1, d, PageOf(a));
    SameSize(mem0, mem1, scratch);
    MapOne(k, d, a, t, p, perm);
    WithinTwice(mem0, mem1, k.mem, scratch, Scratch(mem1, d, free1));
    ok := true;
  }

  /** mappages. The pages before upto are mapped; it stops early only when no frame is left for the page
      table of the next one. */
  method MapPages(k: Kmem, d: int, va: int, size: int, pa: int, perm: int) returns (ok: bool, ghost upto: int)
    requires Holds(k, d) && 0 <= va && size > 0 && va + size - 1 < WIDTH && 0 <= pa && pa % PAGE == 0 && 0 <= perm < PAGE
    requires Mappable(k.mem, d, k.lo, k.Free(), PageOf(va), PageOf(va + size - 1), PageOf(pa))
    modifies k
    ensures Holds(k, d) && PageOf(va) <= upto <= PageOf(va + size - 1) + 1 && (ok <==> upto == PageOf(va + size - 1) + 1)
    ensures Mapped(old(k.mem), k.mem, d, PageOf(va), upto, PageOf(pa), perm)
    ensures forall w: int :: va / 4096 <= w < upto ==>
              Pte(k.mem, d, w) % 4096 == perm - perm % 2 + 1 && Pte(k.mem, d, w) / 4096 == pa / 4096 + (w - va / 4096)
              && Pde(k.mem, d, w / 1024) % 4096 == 7
    ensures !ok ==> k.free == [] && upto / ENTRIES !in TableSet(k.mem, d)
    ensures Books(old(k.mem), old(k.free), k.mem, k.free, d,
                  UserFrames(PageOf(va), upto, PageOf(pa)), TablesFor(PageOf(va), upto))
  {
    hide Space, Reach, Entry, Mapped, Mappable, Present, Owned, Pde, Pte, TableSet, TablesFor, UserFrames, Holds, ForUser,
         Elems, Unused, Books, SamePtes;
    ghost var first, end, f := PageOf(va), PageOf(va + size - 1), PageOf(pa);
    ghost var mem0, free0 := k.mem, k.free;
    var a, p := va / PAGE * PAGE, pa;
    var last := (va + size - 1) / PAGE * PAGE;
    upto := first;
    TablesForNext(first, first);
    UserFramesNext(first, first, f);
    BooksNone(mem0, free0, d);
    MappedNone(mem0, d, first, f, perm);
    while true
      invariant first <= upto <= end && a == upto * PAGE && p == (f + (upto - first)) * PAGE && last == end * PAGE
      invariant Holds(k, d) && Mapped(mem0, k.mem, d, first, upto, f, perm)
      invariant Books(mem0, free0, k.mem, k.free, d, UserFrames(first, upto, f), TablesFor(first, upto))
      decreases end - upto
    {
      PageStep(a, upto);
      PageStep(p, f + (upto - first));
      InWidth(upto, va, size);
      TablesForNext(first, upto);
      UserFramesNext(first, upto, f);
      StillUnmapped(mem0, k.mem, d, k.lo, Elems(free0), first, end, upto, f, perm);
      BooksUnused(mem0, free0, k.mem, k.free, d, UserFrames(first, upto, f), TablesFor(first, upto), f + (upto - first));
      ghost var mem1, free1 := k.mem, k.free;
      ok := MapNext(k, d, a, p, perm);
      BooksTwice(mem0, free0, mem1, free1, k.mem, k.free, d, UserFrames(first, upto, f), TablesFor(first, upto),
                 if ok && upto < USER then {f + (upto - first)} else {}, if ok then {upto / ENTRIES} else {});
      if !ok {
        PlusNothing(UserFrames(first, upto, f));
        PlusNothing(TablesFor(first, upto));
        MappedSame(mem0, mem1, k.mem, d, first, upto, f, perm);
        MappedFlags(mem0, k, d, first, upto, f, perm);
        return;
      }
      MappedNext(mem0, mem1, k.mem, d, first, upto, f, perm);
      upto := upto + 1;
      if a == last {
        MappedFlags(mem0, k, d, first, upto, f, perm);
        return;
      }
      a, p := a + PAGE, p + PAGE;
    }
  }

  lemma PlusNothing(a: set<int>)
    ensures a + {} == a
  {}

  /** A frame outside of everything, and not yet taken, is still outside. */
  lemma BooksUnused(a: Mem, free: seq<int>, b: Mem, left: seq<int>, d: int, frames: set<int>, tables: set<int>, x: int)
    requires Books(a, free, b, left, d, frames, tables)
    ensures |a| == |b| && (x !in Reach(a, d, Elems(free)) && x !in frames ==> x !in Reach(b, d, Elems(left)))
  {}

  lemma StaysUnmapped(a: Mem, b: Mem, d: int, v: int)
    requires SamePtes(a, b, d) && !Present(Pte(a, d, v))
    ensures !Present(Pte(b, d, v))
  {}

  lemma SameSize(a: Mem, b: Mem, s: set<int>)
    requires Within(a, b, s)
    ensures |a| == |b|
  {}
}

/** allocuvm, deallocuvm, freevm, setupkvm and copyuvm of OS/xv6-public/vm.c. */
module VmUser {
  import opened VmTables
  import opened VmMemory
  import opened Vm

  // ---------------------------------------------------------------- deallocuvm

  /** The present entries of pages first, ..., last - 1 were cleared, and no other was touched. */
  ghost predicate Cleared(a: Mem, b: Mem, d: int, first: int, last: int) {
    forall w: int :: Pte(b, d, w) == if first <= w < last && Present(Pte(a, d, w)) then 0 else Pte(a, d, w)
  }

  /** The frames of the user pages first, ..., last - 1. */
  ghost function Pages(mem: Mem, d: int, first: int, last: int): set<int> {
    set w: int | first <= w < last && 0 <= w < USER && Present(Pte(mem, d, w)) :: Addr(Pte(mem, d, w))
  }

  lemma ClearedNone(a: Mem, d: int, first: int)
    ensures Cleared(a, a, d, first, first)
  {}

  /** Pages without an entry can be skipped: clearing them one by one would change nothing. */
  lemma ClearedSkip(a: Mem, b: Mem, d: int, first: int, v: int, next: int)
    requires Cleared(a, b, d, first, v) && first <= v <= next && forall w :: v <= w < next ==> !Present(Pte(b, d, w))
    ensures Cleared(a, b, d, first, next)
  {
    forall w: int ensures Pte(b, d, w) == if first <= w < next && Present(Pte(a, d, w)) then 0 else Pte(a, d, w) {
      if v <= w < next { assert Pte(b, d, w) == Pte(a, d, w); }
    }
  }

  lemma ClearedNext(a: Mem, b: Mem, c: Mem, d: int, first: int, v: int)
    requires Cleared(a, b, d, first, v) && first <= v && Present(Pte(b, d, v))
    requires forall w: int :: Pte(c, d, w) == if w == v then 0 else Pte(b, d, w)
    ensures Cleared(a, c, d, first, v + 1)
  {
    assert Pte(a, d, v) == Pte(b, d, v);
  }

  /** Entries behind `last` are not touched if none of them is there. */
  lemma ClearedCut(a: Mem, b: Mem, d: int, first: int, v: int, last: int)
    requires Cleared(a, b, d, first, v) && first <= last <= v && forall w :: last <= w < v ==> !Present(Pte(a, d, w))
    ensures Cleared(a, b, d, first, last)
  {}

  /** A table that is missing leaves all its pages without an entry. */
  lemma NoTable(mem: Mem, d: int, v: int)
    requires 0 <= v && !Present(Pde(mem, d, v / ENTRIES))
    ensures forall w :: v <= w < (v / ENTRIES + 1) * ENTRIES ==> !Present(Pte(mem, d, w))
  {
    forall w | v <= w < (v / ENTRIES + 1) * ENTRIES ensures !Present(Pte(mem, d, w)) {
      assert w / ENTRIES == v / ENTRIES;
    }
  }

  /** The frame of a page is overwritten: the tables stay as they are. */
  lemma PageJunked(mem: Mem, d: int, lo: int, free: set<int>, v: int, x: Frame)
    requires Shape(mem) && IsFrame(x) && Space(mem, d, lo, free) && HasTable(mem, d, v) && 0 <= v < USER
    requires Present(Pte(mem, d, v))
    ensures var f := Addr(Pte(mem, d, v));
            0 < lo <= f < |mem| && f !in free && HasTable(mem[f := x], d, v) && Sane(mem[f := x], d, lo)
            && Addr(Pde(mem[f := x], d, v / ENTRIES)) == Addr(Pde(mem, d, v / ENTRIES)) != f
            && Tabs(mem[f := x], d) == Tabs(mem, d) && Owned(mem[f := x], d) == Owned(mem, d) && SameSpace(mem, mem[f := x], d)
  {
    PageFrame(mem, d, lo, v);
    DirRange(mem, d, lo, free);
    var f := Addr(Pte(mem, d, v));
    assert At(mem, d, Page(v)) == f && At(mem, d, Dir) == d;
    forall i | 0 <= i < ENTRIES ensures At(mem, d, Tab(i)) != f {
      assert At(mem, d, Tab(i)) == At(mem, d, Page(v)) ==> Tab(i) == Page(v);
    }
    WriteElsewhere(mem, d, lo, f, x);
    var m1 := mem[f := x];
    assert forall i: int :: Pde(m1, d, i) == Pde(mem, d, i);
    assert Tabs(m1, d) == Tabs(mem, d);
    TableOf(mem, d, lo, v);
  }

  /** A page is freed and its entry cleared. */
  lemma PageDropped(mem: Mem, d: int, lo: int, free: set<int>, v: int, x: Frame)
    requires Shape(mem) && IsFrame(x) && Space(mem, d, lo, free) && HasTable(mem, d, v) && 0 <= v < USER
    requires Present(Pte(mem, d, v))
    ensures 0 <= Addr(Pte(mem, d, v)) < |mem|
    ensures var f := Addr(Pte(mem, d, v)); var m := WithPte(mem[f := x], d, v, 0);
            Space(m, d, lo, free + {f}) && Reach(m, d, free + {f}) == Reach(mem, d, free)
            && (forall w: int :: Pte(m, d, w) == if w == v then 0 else Pte(mem, d, w)) && Tabs(m, d) == Tabs(mem, d)
  {
    PageJunked(mem, d, lo, free, v, x);
    PageFrame(mem, d, lo, v);
    DirRange(mem, d, lo, free);
    var f := Addr(Pte(mem, d, v));
    var m1 := mem[f := x];
    assert Pte(m1, d, v) == Pte(mem, d, v);
    PageRemoved(m1, d, lo, v);
    TabsKept(m1, d, lo, v, 0);
    var m := WithPte(m1, d, v, 0);
    forall p: Place ensures At(m, d, p) !in free + {f} { NotDropped(mem, m1, m, d, lo, free, v, p); }
    forall w: int ensures Pte(m, d, w) == if w == v then 0 else Pte(mem, d, w) { SetPteOther(m1, d, lo, v, 0, w); }
  }

  lemma NotDropped(mem: Mem, m1: Mem, m: Mem, d: int, lo: int, free: set<int>, v: int, p: Place)
    requires Shape(mem) && Space(mem, d, lo, free) && 0 <= v < USER && Present(Pte(mem, d, v)) && SameSpace(mem, m1, d)
    requires At(m, d, p) == if p == Page(v) then NONE else At(m1, d, p)
    ensures At(m, d, p) !in free + {Addr(Pte(mem, d, v))}
  {
    PageFrame(mem, d, lo, v);
    assert At(m1, d, p) == At(mem, d, p) && At(mem, d, p) !in free;
    assert At(mem, d, p) == At(mem, d, Page(v)) ==> p == Page(v);
    assert At(mem, d, Page(-1)) == NONE;
  }

  lemma Rounded(sz: int)
    requires 0 <= sz
    ensures RoundUp(sz) == PageOf(RoundUp(sz)) * PAGE && sz <= RoundUp(sz) < sz + PAGE && 0 <= PageOf(RoundUp(sz))
  {}

  lemma RoundedUser(sz: int)
    requires 0 <= sz <= KERNBASE
    ensures PageOf(RoundUp(sz)) <= USER
  {}

  lemma BelowSize(v: int, sz: int)
    requires 0 <= sz
    ensures v * PAGE < sz <==> v < PageOf(RoundUp(sz))
  {
    Rounded(sz);
  }

  /** The jump over a missing page table. */
  lemma Jump(v: int)
    requires 0 <= v < USER
    ensures var a := v * PAGE;
            (a / (PAGE * ENTRIES) + 1) * (PAGE * ENTRIES) - PAGE + PAGE == (v / ENTRIES + 1) * ENTRIES * PAGE
            && v < (v / ENTRIES + 1) * ENTRIES && a / (PAGE * ENTRIES) == v / ENTRIES
  {}

  /** kfree of the frame behind an entry, and *pte = 0. */
  method DropPage(k: Kmem, d: int, va: int, t: int)
    requires Holds(k, d) && HasTable(k.mem, d, PageOf(va)) && 0 <= PageOf(va) < USER && Present(Pte(k.mem, d, PageOf(va)))
    requires t == Addr(Pde(k.mem, d, PageOf(va) / ENTRIES))
    modifies k
    ensures Holds(k, d) && Reach(k.mem, d, k.Free()) == old(Reach(k.mem, d, k.Free())) && Tabs(k.mem, d) == old(Tabs(k.mem, d))
    ensures forall w: int :: Pte(k.mem, d, w) == if w == PageOf(va) then 0 else old(Pte(k.mem, d, w))
    ensures Within(old(k.mem), k.mem, old(Tabs(k.mem, d)) + {old(Addr(Pte(k.mem, d, PageOf(va))))})
    ensures k.Free() == old(k.Free()) + {old(Addr(Pte(k.mem, d, PageOf(va))))}
  {
    hide Space, Reach, Tabs, Sane, Owned, HasTable, WithPte, Pte, Pde, Word;
    ghost var mem0, free0, v := k.mem, k.Free(), PageOf(va);
    TableKept(mem0, d, k.lo, free0, v);
    TableReads(mem0, d, k.lo, v);
    var e := k.mem[t][va / PAGE % ENTRIES];
    assert e == Pte(mem0, d, v);
    PageJunked(mem0, d, k.lo, free0, v, mem0[0]);
    k.Kfree(Addr(e));
    PageJunked(mem0, d, k.lo, free0, v, k.mem[Addr(e)]);
    PageDropped(mem0, d, k.lo, free0, v, k.mem[Addr(e)]);
    SetPte(k, d, va, t, 0);
  }

  lemma TableReads(mem: Mem, d: int, lo: int, v: int)
    requires Shape(mem) && Sane(mem, d, lo) && HasTable(mem, d, v)
    ensures var t := Addr(Pde(mem, d, v / ENTRIES));
            0 <= t < |mem| && |mem[t]| == ENTRIES && 0 <= v % ENTRIES < ENTRIES && Pte(mem, d, v) == mem[t][v % ENTRIES]
  {
    TableOf(mem, d, lo, v);
  }

  lemma DroppedOne(a: Mem, b: Mem, d: int, first: int, last: int, v: int)
    requires Cleared(a, b, d, first, v) && first <= v < last <= USER && 0 <= first && Present(Pte(b, d, v))
    ensures Addr(Pte(b, d, v)) in Pages(a, d, first, last)
  {
    assert Pte(a, d, v) == Pte(b, d, v);
  }

  lemma InPages(va: int, lo: int, hi: int)
    requires 0 <= lo && 0 <= hi && (lo + 4095) / 4096 * 4096 <= va < hi
    ensures PageOf(RoundUp(lo)) <= va / 0x1000 < PageOf(RoundUp(hi))
  {
    Rounded(lo);
    BelowSize(va / 0x1000, hi);
  }

  /** The user cannot get at what was cleared. */
  lemma ClearedClosed(a: Mem, b: Mem, d: int, lo: int, free: set<int>, newsz: int, oldsz: int)
    requires Cleared(a, b, d, PageOf(RoundUp(newsz)), PageOf(RoundUp(oldsz))) && Space(b, d, lo, free) && 0 <= newsz && 0 <= oldsz
    ensures forall va: int, write :: (newsz + 4095) / 4096 * 4096 <= va < oldsz ==> !UserMay(b, d, va, write)
  {
    hide UserMay, UserWord, Pte, Sane, Apart;
    forall va: int, write | (newsz + 4095) / 4096 * 4096 <= va < oldsz ensures !UserMay(b, d, va, write) {
      InPages(va, newsz, oldsz);
      PageDecides(b, d, va, write);
    }
  }

  /** deallocuvm. */
  method DeallocUvm(k: Kmem, d: int, oldsz: int, newsz: int) returns (r: int)
    requires Holds(k, d) && 0 <= oldsz <= KERNBASE && 0 <= newsz
    modifies k
    ensures Holds(k, d) && r == if newsz >= oldsz then oldsz else newsz
    ensures Cleared(old(k.mem), k.mem, d, PageOf(RoundUp(newsz)), PageOf(RoundUp(oldsz)))
    ensures Reach(k.mem, d, k.Free()) == old(Reach(k.mem, d, k.Free())) && Tabs(k.mem, d) == old(Tabs(k.mem, d))
    ensures Within(old(k.mem), k.mem, old(Tabs(k.mem, d)) + old(Pages(k.mem, d, PageOf(RoundUp(newsz)), PageOf(RoundUp(oldsz)))))
    ensures old(k.Free()) <= k.Free()
    ensures forall va: int, write :: (newsz + 4095) / 4096 * 4096 <= va < oldsz ==> !UserMay(k.mem, d, va, write)
  {
    hide Space, Reach, Tabs, Sane, Owned, HasTable, Pte, Pde, Word, Cleared, Pages, Within, RoundUp, PageOf, Present, UserMay;
    ghost var first, last := PageOf(RoundUp(newsz)), PageOf(RoundUp(oldsz));
    ghost var mem0, free0 := k.mem, k.Free();
    ghost var spot := Tabs(mem0, d) + Pages(mem0, d, first, last);
    Rounded(newsz);
    Rounded(oldsz);
    RoundedUser(oldsz);
    WithinSelf(mem0, spot);
    if newsz >= oldsz {
      ClearedEmpty(mem0, d, newsz, oldsz);
      return oldsz;
    }
    var a := RoundUp(newsz);
    ghost var v := first;
    ClearedNone(mem0, d, first);
    while a < oldsz
      invariant a == v * PAGE && 0 <= first <= v && Holds(k, d) && Cleared(mem0, k.mem, d, first, v)
      invariant Reach(k.mem, d, k.Free()) == Reach(mem0, d, free0) && Tabs(k.mem, d) == Tabs(mem0, d) && free0 <= k.Free()
      invariant Within(mem0, k.mem, spot)
      invariant forall w :: last <= w < v ==> !Present(Pte(mem0, d, w))
      decreases last - v
    {
      BelowSize(v, oldsz);
      PageAt(v);
      ghost var mem1 := k.mem;
      var t := WalkPgdir(k, d, a, false);
      if t == 0 {
        Jump(v);
        ghost var next := (v / ENTRIES + 1) * ENTRIES;
        MissingTable(mem1, d, v);
        BehindLast(mem0, mem1, d, first, v, next);
        ClearedSkip(mem0, mem1, d, first, v, next);
        a := (a / (PAGE * ENTRIES) + 1) * (PAGE * ENTRIES) - PAGE;
        v := next - 1;
      } else {
        TableKept(k.mem, d, k.lo, k.Free(), v);
        TableReads(k.mem, d, k.lo, v);
        var e := k.mem[t][a / PAGE % ENTRIES];
        if Present(e) {
          DroppedOne(mem0, mem1, d, first, last, v);
          DropPage(k, d, a, t);
          ClearedNext(mem0, mem1, k.mem, d, first, v);
          WithinTwice(mem0, mem1, k.mem, spot, Tabs(mem1, d) + {Addr(Pte(mem1, d, v))});
        } else {
          ClearedSkip(mem0, mem1, d, first, v, v + 1);
        }
      }
      a := a + PAGE;
      v := v + 1;
    }
    BelowSize(v, oldsz);
    ClearedCut(mem0, k.mem, d, first, v, last);
    ClearedClosed(mem0, k.mem, d, k.lo, k.Free(), newsz, oldsz);
    return newsz;
  }

  lemma ClearedEmpty(mem: Mem, d: int, newsz: int, oldsz: int)
    requires newsz >= oldsz >= 0
    ensures Cleared(mem, mem, d, PageOf(RoundUp(newsz)), PageOf(RoundUp(oldsz)))
  {
    Rounded(newsz);
    BelowSize(PageOf(RoundUp(newsz)), oldsz);
  }

  lemma PageAt(v: int)
    requires 0 <= v < USER
    ensures PageOf(v * PAGE) == v && v * PAGE < WIDTH
  {}

  lemma MissingTable(mem: Mem, d: int, v: int)
    requires 0 <= v < USER && !HasTable(mem, d, v)
    ensures forall w :: v <= w < (v / ENTRIES + 1) * ENTRIES ==> !Present(Pte(mem, d, w))
  {
    NoTable(mem, d, v);
  }

  lemma BehindLast(a: Mem, b: Mem, d: int, first: int, v: int, next: int)
    requires Cleared(a, b, d, first, v) && forall w :: v <= w < next ==> !Present(Pte(b, d, w))
    ensures forall w :: v <= w < next ==> !Present(Pte(a, d, w))
  {
    forall w | v <= w < next ensures !Present(Pte(a, d, w)) { assert Pte(b, d, w) == Pte(a, d, w); }
  }

  // ---------------------------------------------------------------- allocuvm

  /** The user pages of a are still there in b, with the same bytes. */
  ghost predicate PagesKept(a: Mem, b: Mem, d: int) {
    forall w: int :: 0 <= w < USER && Present(Pte(a, d, w)) ==>
      0 <= Addr(Pte(a, d, w)) < |a| == |b| && b[Addr(Pte(a, d, w))] == a[Addr(Pte(a, d, w))]
  }

  /** Writing tables and unused frames does not touch a page. */
  lemma ScratchKeepsPages(a: Mem, b: Mem, d: int, lo: int, free: set<int>)
    requires Shape(a) && Space(a, d, lo, free) && Within(a, b, Scratch(a, d, free))
    ensures PagesKept(a, b, d)
  {
    forall w: int | 0 <= w < USER && Present(Pte(a, d, w))
      ensures 0 <= Addr(Pte(a, d, w)) < |a| == |b| && b[Addr(Pte(a, d, w))] == a[Addr(Pte(a, d, w))]
    {
      PageFrame(a, d, lo, w);
      PageNotTable(a, d, lo, w);
      assert At(a, d, Page(w)) !in free;
    }
  }

  lemma PageNotTable(mem: Mem, d: int, lo: int, w: int)
    requires Shape(mem) && Sane(mem, d, lo) && 0 <= w < USER && Present(Pte(mem, d, w))
    ensures Addr(Pte(mem, d, w)) !in Tabs(mem, d)
  {
    PageFrame(mem, d, lo, w);
    var f := Addr(Pte(mem, d, w));
    assert At(mem, d, Dir) == d && At(mem, d, Page(w)) == f;
    assert f == d ==> Dir == Page(w);
    forall i | 0 <= i < ENTRIES && Present(Pde(mem, d, i)) ensures Addr(Pde(mem, d, i)) != f {
      assert At(mem, d, Tab(i)) == Addr(Pde(mem, d, i));
      assert At(mem, d, Tab(i)) == f ==> Tab(i) == Page(w);
    }
  }

  lemma TabOwned(mem: Mem, d: int, lo: int)
    requires Shape(mem) && Sane(mem, d, lo)
    ensures Tabs(mem, d) <= Owned(mem, d)
  {
    forall f | f in Tabs(mem, d) ensures f in Owned(mem, d) {
      if f == d {
        OwnedIn(mem, d, lo, Dir);
      } else {
        var i :| 0 <= i < ENTRIES && Present(Pde(mem, d, i)) && Addr(Pde(mem, d, i)) == f;
        TableInRange(mem, d, lo, i);
        OwnedIn(mem, d, lo, Tab(i));
      }
    }
  }

  /** Taking a frame off the free list, or putting an unused one on it, leaves the address space alone. */
  lemma SpaceFewer(mem: Mem, d: int, lo: int, free: set<int>, f: int)
    requires Space(mem, d, lo, free) && f in free
    ensures Space(mem, d, lo, free - {f}) && f !in Owned(mem, d) && f != d
    ensures Reach(mem, d, free) == Reach(mem, d, free - {f}) + {f} && f !in Reach(mem, d, free - {f})
    ensures Scratch(mem, d, free - {f}) <= Scratch(mem, d, free)
  {
    FreshFrame(mem, d, lo, free, f);
  }

  lemma SpaceWritten(mem: Mem, d: int, lo: int, free: set<int>, f: int, x: Frame)
    requires Shape(mem) && Space(mem, d, lo, free) && 0 <= f < |mem| && f !in Owned(mem, d)
    ensures var m := mem[f := x];
            Space(m, d, lo, free) && SamePtes(mem, m, d) && Owned(m, d) == Owned(mem, d) && Tabs(m, d) == Tabs(mem, d)
            && TableSet(m, d) == TableSet(mem, d)
  {
    DirRange(mem, d, lo, free);
    forall p: Place ensures At(mem, d, p) != f {
      if At(mem, d, p) == f { OwnedIn(mem, d, lo, p); }
    }
    WriteElsewhere(mem, d, lo, f, x);
    var m := mem[f := x];
    assert forall i: int :: Pde(m, d, i) == Pde(mem, d, i);
    forall p: Place ensures At(m, d, p) !in free { assert At(m, d, p) == At(mem, d, p); }
  }

  const USERPERM: int := PTE_W + PTE_U

  /** What one turn of the loop of allocuvm needs of the page to come. */
  lemma NextPage(mem: Mem, d: int, lo: int, free: set<int>, v: int, f: int)
    requires 0 <= v < USER && !Present(Pte(mem, d, v)) && lo <= f < |mem| && f !in free && f !in Owned(mem, d)
    ensures PageOf(v * PAGE) == PageOf(v * PAGE + PAGE - 1) == v && PageOf(f * PAGE) == f && f * PAGE % PAGE == 0
    ensures v * PAGE + PAGE - 1 < WIDTH && Mappable(mem, d, lo, free, v, v, f)
  {}

  lemma WrittenFrame(a: Mem, f: int, x: Frame, s: set<int>)
    requires 0 <= f < |a| && f in s
    ensures Within(a, a[f := x], s)
  {}

  /** At most the page table of page v is new; it is still missing if the page could not be mapped. */
  ghost predicate TableGrowth(a: Mem, b: Mem, d: int, v: int, ok: bool) {
    TableSet(a, d) <= TableSet(b, d) <= TableSet(a, d) + {v / ENTRIES} && (!ok ==> v / ENTRIES !in TableSet(b, d))
  }

  /** mappages of a frame that was taken from the free list and filled. If it fails, nothing is mapped. */
  method MapFilled(k: Kmem, d: int, a: int, f: int, perm: int, ghost mem0: Mem, ghost free0: set<int>) returns (ok: bool)
    requires k.Valid() && Shape(mem0) && Space(mem0, d, k.lo, free0) && f in free0 && k.Free() == free0 - {f}
    requires k.lo <= f < |mem0| == |k.mem| && k.mem == mem0[f := k.mem[f]] && 0 <= perm < PAGE
    requires 0 <= PageOf(a) < USER && a == PageOf(a) * PAGE && !Present(Pte(mem0, d, PageOf(a)))
    modifies k
    ensures Holds(k, d) && |k.mem| == |mem0| && k.mem[f] == old(k.mem[f]) && f !in k.free
    ensures ok ==>
              Reach(k.mem, d, k.Free()) == Reach(mem0, d, free0)
              && Mapped(mem0, k.mem, d, PageOf(a), PageOf(a) + 1, f, perm)
    ensures !ok ==>
              SamePtes(mem0, k.mem, d) && f !in Reach(k.mem, d, k.Free())
              && Reach(k.mem, d, k.Free()) + {f} == Reach(mem0, d, free0)
    ensures Scratch(k.mem, d, k.Free()) <= Scratch(mem0, d, free0) && k.Free() <= free0
    ensures Within(mem0, k.mem, Scratch(mem0, d, free0))
    ensures |k.free| + |TableSet(k.mem, d)| == old(|k.free|) + |TableSet(mem0, d)|
    ensures TableSet(mem0, d) <= TableSet(k.mem, d) <= TableSet(mem0, d) + {PageOf(a) / ENTRIES}
    ensures !ok ==> k.free == [] && PageOf(a) / ENTRIES !in TableSet(k.mem, d)
  {
    hide Space, Reach, Owned, Scratch, Tabs, Sane, Mapped, Mappable, Within, SamePtes, Pte, Shape, TableSet, TablesFor,
         UserFrames, Books;
    ghost var mem1, free1, v := k.mem, k.Free(), PageOf(a);
    ghost var scratch := Scratch(mem0, d, free0);
    SpaceFewer(mem0, d, k.lo, free0, f);
    SpaceWritten(mem0, d, k.lo, free1, f, mem1[f]);
    SameReach(mem0, mem1, d, free1);
    InScratch(mem0, d, free0, f);
    WrittenFrame(mem0, f, mem1[f], scratch);
    NotPresentSame(mem0, mem1, d, v);
    NextPage(mem1, d, k.lo, free1, v, f);
    NotScratch(mem1, d, k.lo, free1, f);
    ghost var left, upto := k.free, v;
    ok, upto := MapPages(k, d, a, PAGE, f * PAGE, perm);
    OnePage(v, f);
    BooksOpen(mem1, left, k.mem, k.free, d, UserFrames(v, upto, f), TablesFor(v, upto));
    assert Reach(mem1, d, free1) + {} == Reach(mem1, d, free1) && TableSet(mem1, d) + {} == TableSet(mem1, d);
    NotFree(k.mem, d, k.Free(), f);
    WithinAt(mem1, k.mem, Scratch(mem1, d, free1), f);
    WithinTwice(mem0, mem1, k.mem, scratch, Scratch(mem1, d, free1));
    if !ok { NothingMapped(mem1, k.mem, d, v, f, perm); }
    MappedFrom(mem0, mem1, k.mem, d, v, f, perm);
  }

  lemma OnePage(v: int, f: int)
    requires v < USER
    ensures UserFrames(v, v, f) == {} && UserFrames(v, v + 1, f) == {f}
    ensures TablesFor(v, v) == {} && TablesFor(v, v + 1) == {v / ENTRIES}
  {
    UserFramesNext(v, v, f);
    TablesForNext(v, v);
  }

  lemma BooksOpen(a: Mem, free: seq<int>, b: Mem, left: seq<int>, d: int, frames: set<int>, tables: set<int>)
    requires Books(a, free, b, left, d, frames, tables)
    ensures Reach(b, d, Elems(left)) == Reach(a, d, Elems(free)) + frames
    ensures Scratch(b, d, Elems(left)) == Scratch(a, d, Elems(free)) && Elems(left) <= Elems(free)
    ensures Within(a, b, Scratch(a, d, Elems(free)))
    ensures |left| + |TableSet(b, d)| == |free| + |TableSet(a, d)| && TableSet(b, d) == TableSet(a, d) + tables
  {}

  /** kalloc, memset and mappages for the page at a. f is 0 when there was no frame; it is in hand, and
      nothing is mapped, when there was none for a page table. */
  method TakePage(k: Kmem, d: int, a: int) returns (f: int, ok: bool)
    requires Holds(k, d) && 0 <= PageOf(a) < USER && a == PageOf(a) * PAGE && !Present(Pte(k.mem, d, PageOf(a)))
    modifies k
    ensures Holds(k, d)
    ensures f == 0 ==> !ok && k.mem == old(k.mem) && k.free == old(k.free)
    ensures f != 0 ==> f in old(k.Free()) && f !in k.free && k.lo <= f < |k.mem|
    ensures f != 0 && ok ==>
              k.mem[f] == Zeros() && Reach(k.mem, d, k.Free()) == old(Reach(k.mem, d, k.Free()))
              && Mapped(old(k.mem), k.mem, d, PageOf(a), PageOf(a) + 1, f, USERPERM)
    ensures f != 0 && !ok ==>
              SamePtes(old(k.mem), k.mem, d) && f !in Reach(k.mem, d, k.Free())
              && Reach(k.mem, d, k.Free()) + {f} == old(Reach(k.mem, d, k.Free()))
    ensures Scratch(k.mem, d, k.Free()) <= old(Scratch(k.mem, d, k.Free())) && k.Free() <= old(k.Free())
    ensures Within(old(k.mem), k.mem, old(Scratch(k.mem, d, k.Free())))
    ensures !ok ==> k.free == []
    ensures f != 0 ==> |k.free| + 1 + |TableSet(k.mem, d)| == old(|k.free| + |TableSet(k.mem, d)|)
    ensures f != 0 ==> TableGrowth(old(k.mem), k.mem, d, PageOf(a), ok)
  {
    hide Space, Reach, Owned, Scratch, Tabs, Sane, Mapped, Within, SamePtes, Pte, Zeros, Shape, TableSet;
    ghost var mem0, free0 := k.mem, k.Free();
    WithinSelf(mem0, Scratch(mem0, d, free0));
    f := k.Kalloc();
    if f == 0 {
      return 0, false;
    }
    k.Clear(f);
    ok := MapFilled(k, d, a, f, USERPERM, mem0, free0);
  }

  lemma SameReach(a: Mem, b: Mem, d: int, free: set<int>)
    requires Owned(b, d) == Owned(a, d) && Tabs(b, d) == Tabs(a, d)
    ensures Reach(b, d, free) == Reach(a, d, free) && Scratch(b, d, free) == Scratch(a, d, free)
  {}

  lemma InScratch(mem: Mem, d: int, free: set<int>, f: int)
    requires f in free
    ensures f in Scratch(mem, d, free)
  {}

  lemma NotFree(mem: Mem, d: int, free: set<int>, f: int)
    requires f !in Scratch(mem, d, free)
    ensures f !in free
  {}

  lemma NotPresentSame(a: Mem, b: Mem, d: int, v: int)
    requires SamePtes(a, b, d) && !Present(Pte(a, d, v))
    ensures !Present(Pte(b, d, v))
  {}

  lemma NotScratch(mem: Mem, d: int, lo: int, free: set<int>, f: int)
    requires Shape(mem) && Space(mem, d, lo, free) && f !in free && f !in Owned(mem, d)
    ensures f !in Scratch(mem, d, free)
  {
    TabOwned(mem, d, lo);
  }

  lemma WithinAt(a: Mem, b: Mem, s: set<int>, f: int)
    requires Within(a, b, s) && f !in s && 0 <= f < |a|
    ensures |b| == |a| && b[f] == a[f]
  {}

  lemma MappedFrom(a: Mem, b: Mem, c: Mem, d: int, v: int, f: int, perm: int)
    requires SamePtes(a, b, d)
    ensures Mapped(b, c, d, v, v + 1, f, perm) ==> Mapped(a, c, d, v, v + 1, f, perm)
    ensures SamePtes(b, c, d) ==> SamePtes(a, c, d)
  {}

  /** Pages first, ..., v - 1 are new: writable by the user, zeroed, and on frames that were free. */
  ghost predicate Grown(a: Mem, free: set<int>, b: Mem, d: int, first: int, v: int) {
    && |a| == |b|
    && (forall w: int :: first <= w < v ==>
          Present(Pte(b, d, w)) && Flags(Pte(b, d, w)) == USERPERM + PTE_P
          && Addr(Pte(b, d, w)) in free && 0 <= Addr(Pte(b, d, w)) < |b| && b[Addr(Pte(b, d, w))] == Zeros())
    && (forall w: int :: !(first <= w < v) ==> Pte(b, d, w) == Pte(a, d, w))
  }

  /** The user can read and write every new word, and finds 0. */
  lemma GrownOpen(a: Mem, free0: set<int>, b: Mem, d: int, lo: int, free: set<int>, oldsz: int, newsz: int)
    requires Grown(a, free0, b, d, PageOf(RoundUp(oldsz)), PageOf(RoundUp(newsz))) && Space(b, d, lo, free)
    requires 0 <= oldsz <= newsz
    ensures forall va: int :: (oldsz + 4095) / 4096 * 4096 <= va < newsz ==> UserMay(b, d, va, true) && UserWord(b, d, va) == 0
  {
    hide UserMay, UserWord, Pte, Sane, Apart;
    forall va: int | (oldsz + 4095) / 4096 * 4096 <= va < newsz ensures UserMay(b, d, va, true) && UserWord(b, d, va) == 0 {
      InPages(va, oldsz, newsz);
      PageDecides(b, d, va, true);
    }
  }

  lemma GrownNone(a: Mem, free: set<int>, d: int, first: int)
    ensures Grown(a, free, a, d, first, first)
  {}

  lemma GrownNext(a: Mem, free: set<int>, b: Mem, c: Mem, d: int, first: int, v: int, f: int)
    requires Grown(a, free, b, d, first, v) && 0 <= first <= v < USER && PagesKept(b, c, d)
    requires Mapped(b, c, d, v, v + 1, f, USERPERM) && f in free && 0 <= f < |c| == |b| && c[f] == Zeros()
    ensures Grown(a, free, c, d, first, v + 1)
  {
    EntryParts(f, USERPERM);
    assert Pte(c, d, v) == Entry(f + (v - v), USERPERM);
    forall w: int | first <= w < v
      ensures Pte(c, d, w) == Pte(b, d, w) && c[Addr(Pte(b, d, w))] == b[Addr(Pte(b, d, w))]
    {
      assert Present(Pte(b, d, w));
    }
  }

  /** The same pages are mapped, with the same entries. */
  ghost predicate SameMap(a: Mem, b: Mem, d: int) {
    forall w: int :: Present(Pte(b, d, w)) == Present(Pte(a, d, w)) && (Present(Pte(a, d, w)) ==> Pte(b, d, w) == Pte(a, d, w))
  }

  /** Clearing the new pages brings back what was mapped before. */
  lemma GrownCleared(a: Mem, free: set<int>, b: Mem, c: Mem, d: int, first: int, v: int, end: int)
    requires Grown(a, free, b, d, first, v) && v <= end && Cleared(b, c, d, first, end)
    requires forall w :: first <= w < end ==> !Present(Pte(a, d, w))
    ensures SameMap(a, c, d)
  {
    forall w: int
      ensures Present(Pte(c, d, w)) == Present(Pte(a, d, w)) && (Present(Pte(a, d, w)) ==> Pte(c, d, w) == Pte(a, d, w))
    {
      assert Pte(c, d, w) == if first <= w < end && Present(Pte(b, d, w)) then 0 else Pte(b, d, w);
    }
  }

  lemma GrownPages(a: Mem, free: set<int>, b: Mem, d: int, first: int, v: int, end: int)
    requires Grown(a, free, b, d, first, v) && v <= end && forall w :: first <= w < end ==> !Present(Pte(a, d, w))
    ensures Pages(b, d, first, end) <= free
  {
    forall f | f in Pages(b, d, first, end) ensures f in free {
      var w: int :| first <= w < end && 0 <= w < USER && Present(Pte(b, d, w)) && Addr(Pte(b, d, w)) == f;
      assert w < v || Pte(b, d, w) == Pte(a, d, w);
    }
  }

  lemma GrownUnmapped(a: Mem, free: set<int>, b: Mem, d: int, first: int, v: int, end: int)
    requires Grown(a, free, b, d, first, v) && first <= v < end && forall w :: first <= w < end ==> !Present(Pte(a, d, w))
    ensures !Present(Pte(b, d, v))
  {
    assert Pte(b, d, v) == Pte(a, d, v);
  }

  lemma GrownSame(a: Mem, free: set<int>, b: Mem, c: Mem, d: int, first: int, v: int)
    requires Grown(a, free, b, d, first, v) && 0 <= first && v <= USER && SamePtes(b, c, d) && PagesKept(b, c, d) && |b| == |c|
    ensures Grown(a, free, c, d, first, v)
  {
    forall w: int | first <= w < v ensures 0 <= Addr(Pte(b, d, w)) < |b| == |c| && c[Addr(Pte(b, d, w))] == b[Addr(Pte(b, d, w))] {
      assert Present(Pte(b, d, w));
    }
  }

  /** The failure path: what was mapped is unmapped again, and the frame in hand, if any, is freed. */
  method GiveBack(k: Kmem, d: int, oldsz: int, newsz: int, f: int, ghost mem0: Mem, ghost free0: set<int>, ghost v: int)
    requires Holds(k, d) && 0 <= oldsz <= newsz < KERNBASE && v <= PageOf(RoundUp(newsz))
    requires Grown(mem0, free0, k.mem, d, PageOf(RoundUp(oldsz)), v)
    requires forall w :: PageOf(RoundUp(oldsz)) <= w < PageOf(RoundUp(newsz)) ==> !Present(Pte(mem0, d, w))
    requires Scratch(k.mem, d, k.Free()) <= Scratch(mem0, d, free0) && Within(mem0, k.mem, Scratch(mem0, d, free0))
    requires f != 0 ==> k.lo <= f < |k.mem| && f in free0 && f !in Reach(k.mem, d, k.Free())
    modifies k
    ensures Holds(k, d) && SameMap(mem0, k.mem, d)
    ensures Reach(k.mem, d, k.Free()) == old(Reach(k.mem, d, k.Free())) + if f == 0 then {} else {f}
    ensures Within(mem0, k.mem, Scratch(mem0, d, free0))
  {
    hide Space, Owned, Tabs, Sane, Within, Pte, Zeros, Shape, Grown, Cleared, SameMap, RoundUp, PageOf, Pages, Present;
    ghost var first, end := PageOf(RoundUp(oldsz)), PageOf(RoundUp(newsz));
    ghost var mem1, free1 := k.mem, k.Free();
    GrownPages(mem0, free0, mem1, d, first, v, end);
    var _ := DeallocUvm(k, d, newsz, oldsz);
    GrownCleared(mem0, free0, mem1, k.mem, d, first, v, end);
    WithinTwice(mem0, mem1, k.mem, Scratch(mem0, d, free0), Tabs(mem1, d) + Pages(mem1, d, first, end));
    ghost var mem2, free2 := k.mem, k.Free();
    SameSize(mem1, mem2, Tabs(mem1, d) + Pages(mem1, d, first, end));
    if f != 0 {
      ReachParts(mem2, d, free2);
      assert f !in Reach(mem2, d, free2);
      k.Kfree(f);
      SpaceWritten(mem2, d, k.lo, free2, f, k.mem[f]);
      SpaceMore(k.mem, d, k.lo, free2, f);
      SameMapSame(mem0, mem2, k.mem, d);
      WrittenFrame(mem2, f, k.mem[f], Scratch(mem0, d, free0));
      WithinTwice(mem0, mem2, k.mem, Scratch(mem0, d, free0), Scratch(mem0, d, free0));
    }
  }

  lemma SameMapSame(a: Mem, b: Mem, c: Mem, d: int)
    requires SameMap(a, b, d) && SamePtes(b, c, d)
    ensures SameMap(a, c, d)
  {}

  lemma SpaceMore(mem: Mem, d: int, lo: int, free: set<int>, f: int)
    requires Space(mem, d, lo, free) && f !in Owned(mem, d) && 0 <= f < |mem|
    ensures Space(mem, d, lo, free + {f})
  {
    forall p: Place ensures At(mem, d, p) !in free + {f} {
      if At(mem, d, p) == f { OwnedIn(mem, d, lo, p); }
    }
  }

  /** The page tables that pages first, ..., end - 1 need and d does not have. */
  ghost function Missing(mem: Mem, d: int, first: int, end: int): set<int> { TablesFor(first, end) - TableSet(mem, d) }

  /** The frames used so far: a page table at most for each that was missing. */
  lemma TablesBound(a: Mem, b: Mem, d: int, first: int, v: int, end: int)
    requires first <= v <= end && TableSet(a, d) <= TableSet(b, d) <= TableSet(a, d) + TablesFor(first, v)
    ensures |TableSet(b, d)| <= |TableSet(a, d)| + |Missing(a, d, first, end)|
    ensures v < end && v / ENTRIES !in TableSet(b, d) ==> |TableSet(b, d)| < |TableSet(a, d)| + |Missing(a, d, first, end)|
  {
    var old_, now, all := TableSet(a, d), TableSet(b, d), TableSet(a, d) + TablesFor(first, end);
    TablesForUpTo(first, v, end);
    assert all == old_ + Missing(a, d, first, end);
    Smaller(now, all);
    if v < end {
      TablesForNext(first, v);
      TablesForUpTo(first, v + 1, end);
      if v / ENTRIES !in now { Smaller(now + {v / ENTRIES}, all); }
    }
  }

  lemma Smaller(a: set<int>, b: set<int>)
    requires a <= b
    ensures |a| <= |b|
  {
    assert b == a + (b - a);
  }

  lemma TablesGrow(a: Mem, b: Mem, c: Mem, d: int, first: int, v: int, ok: bool)
    requires first <= v && TableSet(a, d) <= TableSet(b, d) <= TableSet(a, d) + TablesFor(first, v)
    requires TableGrowth(b, c, d, v, ok)
    ensures TableSet(a, d) <= TableSet(c, d) <= TableSet(a, d) + TablesFor(first, v + 1)
    ensures !ok ==> TableSet(c, d) <= TableSet(a, d) + TablesFor(first, v) && v / ENTRIES !in TableSet(c, d)
  {
    TablesForNext(first, v);
  }

  /** allocuvm. On success the new pages, and only they, are added, zeroed, on frames that were free;
      on failure the same pages are mapped as before and every frame that is not a page table is free
      again. In both cases no byte of the old pages changes. It fails only when there were fewer free frames
      than new pages and missing page tables. */
  method AllocUvm(k: Kmem, d: int, oldsz: int, newsz: int) returns (r: int)
    requires Holds(k, d) && 0 <= oldsz <= KERNBASE && 0 <= newsz
    requires forall w :: PageOf(RoundUp(oldsz)) <= w < PageOf(RoundUp(newsz)) ==> !Present(Pte(k.mem, d, w))
    modifies k
    ensures Holds(k, d)
    ensures newsz >= 0x8000_0000 ==> r == 0 && k.mem == old(k.mem) && k.free == old(k.free)
    ensures newsz < 0x8000_0000 && newsz < oldsz ==> r == oldsz && k.mem == old(k.mem) && k.free == old(k.free)
    ensures oldsz <= newsz < KERNBASE ==>
              (r == newsz && Grown(old(k.mem), old(k.Free()), k.mem, d, PageOf(RoundUp(oldsz)), PageOf(RoundUp(newsz))))
              || (r == 0 && SameMap(old(k.mem), k.mem, d)
                  && old(|k.free|) < PageOf(RoundUp(newsz)) - PageOf(RoundUp(oldsz))
                                     + |Missing(old(k.mem), d, PageOf(RoundUp(oldsz)), PageOf(RoundUp(newsz)))|)
    ensures r == newsz && oldsz <= newsz ==> forall va: int :: (oldsz + 4095) / 4096 * 4096 <= va < newsz ==>
              UserMay(k.mem, d, va, true) && UserWord(k.mem, d, va) == 0
    ensures Reach(k.mem, d, k.Free()) == old(Reach(k.mem, d, k.Free()))
    ensures PagesKept(old(k.mem), k.mem, d)
  {
    hide Space, Owned, Tabs, Sane, Within, Pte, Zeros, Shape, Grown, Cleared, SameMap, RoundUp, PageOf, Pages, Present,
         UserMay, UserWord, PagesKept, Reach, Scratch, Mapped, SamePtes, TableSet, TablesFor, TableGrowth, Missing;
    ghost var mem0, free0, first, end := k.mem, k.Free(), PageOf(RoundUp(oldsz)), PageOf(RoundUp(newsz));
    ghost var scratch, reach := Scratch(mem0, d, free0), Reach(mem0, d, free0);
    WithinSelf(mem0, scratch);
    ScratchKeepsPages(mem0, mem0, d, k.lo, free0);
    if newsz >= KERNBASE {
      return 0;
    }
    if newsz < oldsz {
      return oldsz;
    }
    Rounded(oldsz);
    Rounded(newsz);
    RoundedUser(newsz);
    BelowSize(first, newsz);
    var a := RoundUp(oldsz);
    ghost var v := first;
    GrownNone(mem0, free0, d, first);
    TablesForNext(first, first);
    RoundsUp(oldsz, newsz);
    while a < newsz
      invariant a == v * PAGE && 0 <= first <= v <= end && Holds(k, d) && Grown(mem0, free0, k.mem, d, first, v)
      invariant Reach(k.mem, d, k.Free()) == reach && Scratch(k.mem, d, k.Free()) <= scratch
      invariant Within(mem0, k.mem, scratch) && k.Free() <= free0
      invariant |k.free| + |TableSet(k.mem, d)| + (v - first) == old(|k.free|) + |TableSet(mem0, d)|
      invariant TableSet(mem0, d) <= TableSet(k.mem, d) <= TableSet(mem0, d) + TablesFor(first, v)
      decreases end - v
    {
      BelowSize(v, newsz);
      PageAt(v);
      GrownUnmapped(mem0, free0, k.mem, d, first, v, end);
      ghost var mem1, free1 := k.mem, k.Free();
      var f, ok := TakePage(k, d, a);
      WithinTwice(mem0, mem1, k.mem, scratch, Scratch(mem1, d, free1));
      SameSize(mem1, k.mem, Scratch(mem1, d, free1));
      ScratchKeepsPages(mem1, k.mem, d, k.lo, free1);
      if !ok {
        TablesBound(mem0, mem1, d, first, v, end);
        if f != 0 {
          GrownSame(mem0, free0, mem1, k.mem, d, first, v);
          TablesGrow(mem0, mem1, k.mem, d, first, v, ok);
          TablesBound(mem0, k.mem, d, first, v, end);
        }
        GiveBack(k, d, oldsz, newsz, f, mem0, free0, v);
        ScratchKeepsPages(mem0, k.mem, d, k.lo, free0);
        return 0;
      }
      GrownNext(mem0, free0, mem1, k.mem, d, first, v, f);
      TablesGrow(mem0, mem1, k.mem, d, first, v, ok);
      a := a + PAGE;
      v := v + 1;
    }
    BelowSize(v, newsz);
    ScratchKeepsPages(mem0, k.mem, d, k.lo, free0);
    GrownOpen(mem0, free0, k.mem, d, k.lo, k.Free(), oldsz, newsz);
    return newsz;
  }

  lemma RoundsUp(a: int, b: int)
    requires 0 <= a <= b
    ensures PageOf(RoundUp(a)) <= PageOf(RoundUp(b))
  {}
}

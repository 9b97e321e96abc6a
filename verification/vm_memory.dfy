/** The frame allocator of OS/xv6-public/kalloc.c, whose free list runs through the free frames
    themselves, and what an operation on one address space may change. */
module VmMemory {
  import opened VmTables

  /** The frames of the free list, first to last; the first word of a free frame holds the next one. */
  ghost predicate Chain(mem: Mem, head: int, free: seq<int>)
    decreases |free|
  {
    if free == [] then head == 0
    else head == free[0] && 0 < head < |mem| && Chain(mem, Word(mem, head, 0), free[1..])
  }

  ghost predicate Distinct(s: seq<int>) { forall i, j :: 0 <= i < j < |s| ==> s[i] != s[j] }

  ghost function Elems(s: seq<int>): set<int> { set f | f in s }

  ghost predicate FreeOk(mem: Mem, lo: int, head: int, free: seq<int>) {
    && 0 < lo && Chain(mem, head, free) && Distinct(free)
    && forall f :: f in free ==> lo <= f < |mem|
  }

  lemma {:induction false} ChainSame(a: Mem, b: Mem, head: int, free: seq<int>)
    requires Chain(a, head, free) && |a| == |b| && forall f :: f in free ==> 0 <= f < |a| && Word(a, f, 0) == Word(b, f, 0)
    ensures Chain(b, head, free)
    decreases |free|
  {
    if free != [] {
      assert free[0] in free;
      assert forall f :: f in free[1..] ==> f in free;
      ChainSame(a, b, Word(a, head, 0), free[1..]);
    }
  }

  /** Changes only in frames of s. */
  ghost predicate Within(a: Mem, b: Mem, s: set<int>) {
    |a| == |b| && forall f :: 0 <= f < |a| && f !in s ==> b[f] == a[f]
  }

  lemma WithinTwice(a: Mem, b: Mem, c: Mem, s: set<int>, t: set<int>)
    requires Within(a, b, s) && Within(b, c, t) && t <= s
    ensures Within(a, c, s)
  {}

  /** Another address space does not notice. */
  lemma OthersKeep(a: Mem, b: Mem, s: set<int>, d: int, lo: int)
    requires Within(a, b, s) && Shape(a) && Sane(a, d, lo) && forall p: Place :: At(a, d, p) !in s
    ensures SameSpace(a, b, d) && Sane(b, d, lo) && Owned(b, d) == Owned(a, d)
    ensures forall v :: 0 <= v < USER && Present(Pte(a, d, v)) ==>
              0 <= Addr(Pte(a, d, v)) < |a| && b[Addr(Pte(a, d, v))] == a[Addr(Pte(a, d, v))]
  {
    assert At(a, d, Dir) == d;
    if d != NONE {
      forall i | 0 <= i < ENTRIES && At(a, d, Tab(i)) != NONE
        ensures 0 <= At(a, d, Tab(i)) < |a| && a[At(a, d, Tab(i))] == b[At(a, d, Tab(i))]
      {
        assert At(a, d, Tab(i)) !in s;
      }
      SameTablesSame(a, b, d);
      SameKeeps(a, b, d, lo);
      forall v | 0 <= v < USER && Present(Pte(a, d, v))
        ensures 0 <= Addr(Pte(a, d, v)) < |a| && b[Addr(Pte(a, d, v))] == a[Addr(Pte(a, d, v))]
      {
        PageFrame(a, d, lo, v);
        assert At(a, d, Page(v)) !in s;
      }
    }
  }

  lemma PageFrame(mem: Mem, d: int, lo: int, v: int)
    requires Shape(mem) && Sane(mem, d, lo) && 0 <= v < USER && Present(Pte(mem, d, v))
    ensures At(mem, d, Page(v)) == Addr(Pte(mem, d, v)) && 0 < lo <= Addr(Pte(mem, d, v)) < |mem|
  {
    var e := Pte(mem, d, v);
    assert e >= 0;
    assert Addr(e) != NONE;
  }

  /** PGROUNDUP, as a frame number. */
  function FirstFrame(a: int): int { (a + PAGE - 1) / PAGE }

  /** The whole frames of a range of addresses. */
  lemma WholeFrame(vstart: int, vend: int, f: int)
    ensures FirstFrame(vstart) <= f < vend / PAGE <==> vstart <= f * 4096 && (f + 1) * 4096 <= vend
  {}

  lemma FrameAt(p: int, f: int, vend: int)
    requires p == f * PAGE && p + PAGE <= vend
    ensures p / PAGE == f && f + 1 <= vend / PAGE
  {}

  class Kmem {
    const lo: int            // the first frame behind the kernel
    var mem: Mem
    var freelist: int        // 0 is the null pointer
    ghost var free: seq<int>

    ghost predicate Valid() reads this { Shape(mem) && FreeOk(mem, lo, freelist, free) }

    ghost function Free(): set<int> reads this`free { Elems(free) }

    /** Before kinit1 the free list is empty. */
    constructor (mem: Mem, lo: int)
      requires Shape(mem) && 0 < lo
      ensures Valid() && this.mem == mem && this.lo == lo && free == []
    {
      this.mem, this.lo, freelist, free := mem, lo, 0, [];
    }

    /** freerange: the whole frames between the two addresses become free. */
    method FreeRange(vstart: int, vend: int)
      requires Valid() && lo * PAGE <= vstart && vend <= |mem| * PAGE
      requires forall f :: f in free ==> f < FirstFrame(vstart) || vend / PAGE <= f
      modifies this`mem, this`freelist, this`free
      ensures Valid() && |mem| == |old(mem)|
      ensures forall f :: f in Free() <==> f in old(Free()) || (vstart <= f * 4096 && (f + 1) * 4096 <= vend)
    {
      hide Chain, Shape;
      var p := FirstFrame(vstart) * PAGE;
      ghost var f := FirstFrame(vstart);
      assert lo <= f;
      while p + PAGE <= vend
        invariant p == f * PAGE && FirstFrame(vstart) <= f && Valid() && |mem| == |old(mem)|
        invariant f <= vend / PAGE || f == FirstFrame(vstart)
        invariant forall g :: g in Free() <==> g in old(Free()) || FirstFrame(vstart) <= g < f
        decreases vend - p
      {
        FrameAt(p, f, vend);
        assert f !in old(Free()) && f !in Free();
        Kfree(p / PAGE);
        p := p + PAGE;
        f := f + 1;
      }
      forall g: int
        ensures FirstFrame(vstart) <= g < vend / PAGE <==> vstart <= g * 4096 && (g + 1) * 4096 <= vend
      {
        WholeFrame(vstart, vend, g);
      }
    }

    /** The free frame that was freed last; its contents are left as they are. */
    method Kalloc() returns (f: int)
      requires Valid()
      modifies this`freelist, this`free
      ensures Valid()
      ensures f == 0 <==> old(free) == []
      ensures if old(free) == [] then free == [] else f == old(free)[0] && free == old(free)[1..]
      ensures f != 0 ==> lo <= f < |mem| && f !in free && Free() == old(Free()) - {f} && f in old(Free())
    {
      f := freelist;
      if f != 0 {
        assert f == free[0] && f in free;
        freelist := mem[f][0];
        assert free == [free[0]] + free[1..];
        assert forall g :: g in free[1..] ==> g in free;
        free := free[1..];
      }
    }

    /** memset(v, 1, PGSIZE) and the link. */
    function Junk(next: int): (x: Frame)
      requires next >= 0
      ensures |x| == ENTRIES && x[0] == next && IsFrame(x)
    {
      seq(ENTRIES, k => if k == 0 then next else 0x0101_0101)
    }

    /** Only a frame that is in use may be freed; outside of the allocatable memory kfree panics. */
    method Kfree(f: int)
      requires Valid() && lo <= f < |mem| && f !in free
      modifies this`mem, this`freelist, this`free
      ensures Valid() && free == [f] + old(free) && Free() == old(Free()) + {f}
      ensures |mem| == |old(mem)| && mem == old(mem)[f := mem[f]]
      ensures mem[f][0] == old(freelist) && freelist == f && forall k :: 1 <= k < 1024 ==> mem[f][k] == 0x0101_0101
    {
      HeadRange(mem, freelist, free);
      ghost var was := mem;
      mem := mem[f := Junk(freelist)];
      ChainSame(was, mem, freelist, free);
      ghost var all := [f] + free;
      assert all[1..] == free;
      freelist := f;
      free := all;
    }

    /** memset(v, 0, PGSIZE) on a frame that is not free. */
    method Clear(f: int)
      requires Valid() && 0 <= f < |mem| && f !in free
      modifies this`mem
      ensures Valid() && mem == old(mem)[f := Zeros()]
    {
      ghost var was := mem;
      mem := mem[f := Zeros()];
      ChainSame(was, mem, freelist, free);
    }

    /** A store of one word into a frame that is not free. */
    method Store(f: int, k: int, e: int)
      requires Valid() && 0 <= f < |mem| && f !in free && 0 <= k < ENTRIES && e >= 0
      modifies this`mem
      ensures Valid() && mem == old(mem)[f := old(mem)[f][k := e]]
    {
      ghost var was := mem;
      mem := mem[f := mem[f][k := e]];
      ChainSame(was, mem, freelist, free);
    }

    method Copy(from: int, to: int)
      requires Valid() && 0 <= from < |mem| && 0 <= to < |mem| && to !in free
      modifies this`mem
      ensures Valid() && mem == old(mem)[to := old(mem)[from]]
    {
      ghost var was := mem;
      mem := mem[to := mem[from]];
      ChainSame(was, mem, freelist, free);
    }
  }

  lemma HeadRange(mem: Mem, head: int, free: seq<int>)
    requires Chain(mem, head, free)
    ensures 0 <= head
  {}
}

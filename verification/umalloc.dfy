/** malloc and free of OS/xv6-public/umalloc.c over an explicit memory of headers. */
module Umalloc {
  import opened UmallocBlocks

  const NULL: int := 0
  const HEADER_BYTES: nat := 8
  const UINT_RANGE: nat := 0x1_0000_0000
  const INT_MAX: nat := 0x7FFF_FFFF

  /** nunits in malloc; the addition is unsigned 32-bit and may wrap. */
  function UnitsFor(nbytes: nat): (n: nat)
    ensures n >= 1
  {
    (nbytes + HEADER_BYTES - 1) % UINT_RANGE / HEADER_BYTES + 1
  }

  /** The request gives the caller enough bytes, and its size in bytes is a positive int for sbrk. */
  predicate RequestFits(nbytes: nat) {
    (UnitsFor(nbytes) - 1) * HEADER_BYTES >= nbytes && UnitsFor(nbytes) * HEADER_BYTES <= INT_MAX
  }

  /** malloc's arithmetic is right exactly for requests up to 2^31 - 16 bytes. */
  lemma RequestFitsIff(nbytes: nat)
    requires nbytes < UINT_RANGE
    ensures RequestFits(nbytes) <==> nbytes <= 0x7FFF_FFF0
  {
    var s := nbytes + HEADER_BYTES - 1;
    if nbytes <= 0xFFFF_FFF8 {
      assert s % UINT_RANGE == s;
    } else {
      assert s % UINT_RANGE == s - UINT_RANGE;
    }
  }

  /** The size in bytes that sbrk gets as an int; beyond, the argument would be negative. */
  predicate Orderable(nbytes: nat) { UnitsFor(nbytes) * HEADER_BYTES <= INT_MAX }

  /** Where malloc does not lose its way in sbrk, the block has room for the request unless the addition
      of the rounding wrapped around, which it does for the seven largest requests. */
  lemma BigEnoughIff(nbytes: nat)
    requires nbytes < UINT_RANGE && Orderable(nbytes)
    ensures (UnitsFor(nbytes) - 1) * HEADER_BYTES >= nbytes <==> nbytes <= 0xFFFF_FFF8
  {
    var s := nbytes + HEADER_BYTES - 1;
    if nbytes <= 0xFFFF_FFF8 {
      assert s % UINT_RANGE == s;
    } else {
      assert s % UINT_RANGE == s - UINT_RANGE;
    }
  }

  lemma FitsMeans(nbytes: nat)
    ensures Orderable(nbytes) ==> UnitsFor(nbytes) * HEADER_BYTES <= INT_MAX
    ensures RequestFits(nbytes) ==> (UnitsFor(nbytes) - 1) * HEADER_BYTES >= nbytes
  {}

  /** The argument of sbrk in morecore: an unsigned product, passed as an int. */
  function SbrkBytes(nu: nat): int {
    var bytes := (if nu < 4096 then 4096 else nu) * HEADER_BYTES % UINT_RANGE;
    if bytes <= INT_MAX then bytes else bytes - UINT_RANGE
  }

  /** malloc asks sbrk for more memory, instead of giving some back, exactly for the requests that Malloc takes. */
  lemma SbrkGrowsIff(nbytes: nat)
    requires nbytes < UINT_RANGE
    ensures SbrkBytes(UnitsFor(nbytes)) > 0 <==> Orderable(nbytes)
  {
    var nu := UnitsFor(nbytes);
    assert nu * HEADER_BYTES <= UINT_RANGE;
    if 4096 <= nu && nu * HEADER_BYTES < UINT_RANGE {
      assert nu * HEADER_BYTES % UINT_RANGE == nu * HEADER_BYTES;
    }
  }

  /** A request of 2^32 - 1 bytes is served with a header and nothing behind it. */
  lemma HugeRequestWraps()
    ensures UnitsFor(0xFFFF_FFFF) == 1 && Orderable(0xFFFF_FFFF) && !RequestFits(0xFFFF_FFFF)
  {
    assert (0xFFFF_FFFF + HEADER_BYTES - 1) % UINT_RANGE == HEADER_BYTES - 2;
  }

  /** bp's header after the first case distinction of free; q is the list successor. */
  function UpperHeader(mem: Memory, bp: int, q: int): Header
    requires bp in mem && q in mem
  {
    if bp + mem[bp].size == q then Header(mem[q].ptr, mem[bp].size + mem[q].size) else Header(q, mem[bp].size)
  }

  /** The memory after the assignments of free, with p in front of bp's place in the list. */
  function FreedMemory(mem: Memory, bp: int, p: int): Memory
    requires bp in mem && p in mem && mem[p].ptr in mem
  {
    var h := UpperHeader(mem, bp, mem[p].ptr);
    mem[bp := h][p := if p + mem[p].size == bp then Header(h.ptr, mem[p].size + h.size) else Header(bp, mem[p].size)]
  }

  ghost predicate SameBut(mem: Memory, m: Memory, a: int, b: int) {
    m.Keys == mem.Keys && a in m && b in m && forall x :: x in m && x != a && x != b ==> m[x] == mem[x]
  }

  lemma MapsAgree(a: Memory, b: Memory)
    requires a.Keys == b.Keys && forall x :: x in a ==> a[x] == b[x]
    ensures a == b
  {
    assert forall x :: x in a ==> x in b && a[x] == b[x];
  }

  lemma RingOf(mem: Memory, free: seq<int>, live: set<int>, blocks: map<int, int>, obtained: set<int>)
    requires Sound(mem, free, live, blocks, obtained)
    ensures Ring(mem, free) && Coalesced(mem, free)
  {}

  /** The headers after bp took over the block q behind it; p is in front of bp in the list. */
  lemma UpperMemory(mem: Memory, p: int, q: int, bp: int, next: int)
    requires p in mem && q in mem && bp in mem && p != bp && q != bp && p != q && mem[q].ptr == next
    requires bp + mem[bp].size == q
    ensures var m := mem[p := Header(next, mem[p].size)][bp := Header(next, mem[bp].size + mem[q].size)];
            SameBut(mem, m, bp, p) && m[p].size == mem[p].size && Header(next, m[bp].size) == UpperHeader(mem, bp, q)
            && m[bp].size == mem[bp].size + mem[q].size
  {}

  ghost function IndexOf(free: seq<int>, p: int): (i: nat)
    requires p in free
    ensures i < |free| && free[i] == p
  {
    var i :| 0 <= i < |free| && free[i] == p;
    i
  }

  class Allocator {
    var mem: Memory
    var freep: int
    var brk: int                   // first unit above the heap

    ghost var free: seq<int>       // the free list, in address order, base first
    ghost var live: set<int>       // headers of the blocks handed out
    ghost var blocks: map<int, int>
    ghost var obtained: set<int>   // units obtained from sbrk
    ghost var refused: nat         // how often sbrk has failed

    ghost predicate Valid()
      reads this
    {
      && brk > BASE && (forall u :: u in obtained ==> u < brk)
      && if freep == NULL then live == {} && blocks == map[] && obtained == {}
         else Sound(mem, free, live, blocks, obtained) && freep in free
    }

    constructor (heap: int)
      requires heap > BASE
      ensures Valid() && live == {} && obtained == {} && refused == 0
    {
      mem, freep, brk := map[], NULL, heap;
      free, live, blocks, obtained, refused := [], {}, map[], {}, 0;
    }

    /** The search loop of free: the place of bp in the list, starting from freep. */
    method Search(bp: int, ghost j: nat) returns (p: int)
      requires Sound(mem, free, live, blocks, obtained) && freep in free && Place(free, j, bp)
      ensures p == free[j]
    {
      p := freep;
      ghost var i :| 0 <= i < |free| && free[i] == freep;
      ghost var n := |free|;
      while !(bp > p && bp < mem[p].ptr)
        invariant 0 <= i < n && p == free[i]
        decreases if i <= j then j - i else j - i + n
      {
        SearchStep(i, j, bp);
        if p >= mem[p].ptr && (bp > p || bp < mem[p].ptr) { break; }
        p := mem[p].ptr;
        i := if i + 1 < n then i + 1 else 0;
      }
      SearchStep(i, j, bp);
    }

    /** At the place itself one of the two exits is taken, and nowhere else. */
    lemma SearchStep(i: nat, j: nat, bp: int)
      requires Ring(mem, free) && Place(free, j, bp) && i < |free|
      ensures free[i] in mem && mem[free[i]].ptr == Next(free, i)
      ensures var p, q := free[i], mem[free[i]].ptr;
              (bp > p && bp < q) || (p >= q && (bp > p || bp < q)) <==> i == j
    {
      if i + 1 < |free| { assert mem[free[i]].ptr == free[i + 1]; }
    }

    method Free(ap: int)
      requires Valid() && ap - 1 in live
      modifies this
      ensures Valid() && freep != NULL && brk == old(brk) && obtained == old(obtained) && refused == old(refused)
      ensures live == old(live) - {ap - 1}
      ensures forall a :: a in live ==> a in blocks && a in old(blocks) && blocks[a] == old(blocks[a])
      ensures exists a :: a in free && a in blocks && blocks[a] >= old(blocks[ap - 1])
    {
      hide Sound, Ring;
      var bp := ap - 1;
      LiveFacts(mem, free, live, blocks, obtained, bp);
      ghost var j := FindPlace(free, bp);
      var p := Search(bp, j);
      ghost var f, bl := FreeSteps(j, bp);
      ghost var m := FreedMemory(mem, bp, p);
      var q := mem[p].ptr;
      if bp + mem[bp].size == q {
        mem := mem[bp := Header(mem[q].ptr, mem[bp].size + mem[q].size)];
      } else {
        mem := mem[bp := Header(q, mem[bp].size)];
      }
      if p + mem[p].size == bp {
        mem := mem[p := Header(mem[bp].ptr, mem[p].size + mem[bp].size)];
      } else {
        mem := mem[p := Header(bp, mem[p].size)];
      }
      freep := p;
      assert mem == m;
      free, blocks, live := f, bl, live - {bp};
    }

    /** First case distinction of free: join bp to the block above it, or leave it. */
    lemma UpperStep(j: nat, bp: int) returns (m: Memory, f: seq<int>, bl: map<int, int>)
      requires Sound(mem, free, live, blocks, obtained) && bp in live && Place(free, j, bp)
      ensures Sound(m, f, live, bl, obtained) && Place(f, j, bp) && f[j] == free[j]
      ensures bp in mem && free[j] in mem && Next(free, j) in mem && mem[free[j]].ptr == Next(free, j)
      ensures SameBut(mem, m, bp, free[j]) && m[free[j]].size == mem[free[j]].size
      ensures Header(Next(f, j), m[bp].size) == UpperHeader(mem, bp, Next(free, j))
      ensures j + 1 < |f| ==> bp + m[bp].size != f[j + 1]
      ensures forall a :: a in live && a != bp ==> a in bl && a in blocks && bl[a] == blocks[a]
      ensures bp in blocks && bp in bl && bl[bp] >= blocks[bp] && free[j] !in live
    {
      LiveFacts(mem, free, live, blocks, obtained, bp);
      LiveSizes(mem, free, live, blocks, obtained);
      SearchStep(j, j, bp);
      NotLive(free, live, blocks, j);
      if bp + mem[bp].size == Next(free, j) {
        m, f, bl := UpperJoined(j, bp);
      } else {
        hide Sound;
        m, f, bl := mem, free, blocks;
      }
    }

    lemma UpperJoined(j: nat, bp: int) returns (m: Memory, f: seq<int>, bl: map<int, int>)
      requires Sound(mem, free, live, blocks, obtained) && bp in live && Place(free, j, bp)
      requires bp in mem && bp > BASE && mem[bp].size > 0 && free[0] == BASE && bp + mem[bp].size == Next(free, j)
      requires forall a :: a in blocks ==> a in mem && mem[a].size == blocks[a] > 0
      ensures Sound(m, f, live, bl, obtained) && Place(f, j, bp) && f[j] == free[j]
      ensures bp in mem && free[j] in mem && Next(free, j) in mem
      ensures SameBut(mem, m, bp, free[j]) && m[free[j]].size == mem[free[j]].size
      ensures Header(Next(f, j), m[bp].size) == UpperHeader(mem, bp, Next(free, j))
      ensures j + 1 < |f| ==> bp + m[bp].size != f[j + 1]
      ensures bp in blocks && Next(free, j) in blocks && Next(free, j) !in live && bl == Merge(blocks, bp, Next(free, j))
    {
      hide Sound, Ring, Coalesced, Without, Merge, Place, SameBut, UpperHeader;
      var p, q, next := free[j], free[j + 1], Next(free, j + 1);
      RingOf(mem, free, live, blocks, obtained);
      UpperPlace(mem, free, j, bp);
      SearchStep(j + 1, j, bp);
      UpperFacts(mem, free, live, blocks, obtained, j, bp);
      JoinUpper(mem, free, live, blocks, obtained, j, bp);
      UpperMemory(mem, p, q, bp, next);
      m := mem[p := Header(next, mem[p].size)][bp := Header(next, mem[bp].size + mem[q].size)];
      f, bl := Without(free, j + 1), Merge(blocks, bp, q);
    }

    /** What the four cases of free leave behind: memory, list and blocks. */
    lemma FreeSteps(j: nat, bp: int) returns (f: seq<int>, bl: map<int, int>)
      requires Sound(mem, free, live, blocks, obtained) && bp in live && Place(free, j, bp)
      ensures bp in mem && free[j] in mem && Next(free, j) in mem && mem[free[j]].ptr == Next(free, j)
      ensures Sound(FreedMemory(mem, bp, free[j]), f, live - {bp}, bl, obtained) && free[j] in f && free[j] >= BASE
      ensures forall a :: a in live && a != bp ==> a in bl && a in blocks && bl[a] == blocks[a]
      ensures bp in blocks && exists a :: a in f && a in bl && bl[a] >= blocks[bp]
    {
      hide Sound;
      var m1, f1, bl1 := UpperStep(j, bp);
      var p := free[j];
      LiveSizes(mem, free, live, blocks, obtained);
      assert p in free;
      LiveSizes(m1, f1, live, bl1, obtained);
      if p + mem[p].size == bp {
        var h := UpperHeader(mem, bp, Next(free, j));
        JoinLower(m1, f1, live, bl1, obtained, j, bp, h);
        MapsAgree(m1[bp := h][p := Header(Next(f1, j), m1[p].size + m1[bp].size)], FreedMemory(mem, bp, p));
        f, bl := f1, Merge(bl1, p, bp);
        assert p in f && bl[p] >= blocks[bp];
      } else {
        LinkPlain(m1, f1, live, bl1, obtained, j, bp);
        MapsAgree(m1[bp := Header(Next(f1, j), m1[bp].size)][p := Header(bp, m1[p].size)], FreedMemory(mem, bp, p));
        f, bl := Inserted(f1, j + 1, bp), bl1;
        InsertedAt(f1, j, bp);
        assert f[j + 1] == bp;
      }
    }
  
    // ---------------------------------------------------------------- malloc

    /** Blocks in use keep their place and size. */
    twostate predicate LiveKept()
      reads this
    {
      forall a :: a in old(live) ==> a in live && a in blocks && a in old(blocks) && blocks[a] == old(blocks[a])
    }

    /** sbrk: either no memory, or nu units somewhere above the old break. */
    method Sbrk(nu: int) returns (p: int)
      requires 0 < nu && nu * HEADER_BYTES <= INT_MAX && brk > BASE
      modifies this`brk, this`refused
      ensures p == -1 ==> brk == old(brk) && refused == old(refused) + 1
      ensures p != -1 ==> p >= old(brk) && brk == p + nu && refused == old(refused)
    {
      if * {
        p := -1;
        refused := refused + 1;
      } else {
        var gap: int :| gap >= 0;
        p := brk + gap;
        brk := p + nu;
      }
    }

    /** n units from p on are new. */
    ghost predicate Grew(a: set<int>, b: set<int>, p: int, n: nat) { b == a + Units(p, n) }

    method Morecore(nu: int) returns (r: int)
      requires Valid() && freep != NULL && 0 < nu && nu * HEADER_BYTES <= INT_MAX
      modifies this
      ensures Valid() && live == old(live) && LiveKept() && old(obtained) <= obtained
      ensures r == NULL ==> freep == old(freep) && free == old(free) && mem == old(mem) && obtained == old(obtained)
      ensures refused == old(refused) + if r == NULL then 1 else 0
      ensures r != NULL ==> r == freep != NULL && exists a :: a in free && a in blocks && blocks[a] >= nu
      ensures r != NULL && nu < 4096 ==> exists p :: p >= old(brk) && Grew(old(obtained), obtained, p, 4096)
      ensures r != NULL && nu >= 4096 ==> exists p :: p >= old(brk) && Grew(old(obtained), obtained, p, nu)
    {
      hide Sound;
      LiveSizes(mem, free, live, blocks, obtained);
      var n := if nu < 4096 then 4096 else nu;
      var p := Sbrk(n);
      if p == -1 { return NULL; }
      AddLive(mem, free, live, blocks, obtained, p, n);
      mem := mem[p := Header(0, n)];
      live, blocks, obtained := live + {p}, blocks[p := n], obtained + Units(p, n);
      assert Grew(old(obtained), obtained, p, n);
      Free(p + 1);
      assert live == old(live);
      r := freep;
    }

    /** The block behind prevp fits exactly: it leaves the list. */
    method CarveWhole(prevp: int, p: int, ghost i: nat)
      requires Valid() && freep != NULL && i < |free| && prevp == free[i] && p == Next(free, i)
      requires p in mem && mem[p].size >= 1
      modifies this`mem, this`freep, this`free, this`live
      ensures Valid() && LiveKept() && p !in old(live) && live == old(live) + {p}
      ensures freep == prevp && p > BASE && p in blocks && blocks[p] == old(mem[p].size)
      ensures free == old(free)[..i + 1] + old(free)[i + 2..] && mem == old(mem)[prevp := mem[prevp]]
    {
      hide Sound, Ring, Without;
      LiveSizes(mem, free, live, blocks, obtained);
      CarveFacts(mem, free, live, blocks, obtained, i, mem[p].size);
      TakeWhole(mem, free, live, blocks, obtained, i + 1);
      mem := mem[prevp := Header(mem[p].ptr, mem[prevp].size)];
      WithoutIs(free, i + 1);
      free, live := Without(free, i + 1), live + {p};
      freep := prevp;
    }

    /** The block behind prevp is larger than needed: its tail is handed out. */
    method CarveTail(prevp: int, p: int, n: int, ghost i: nat) returns (t: int)
      requires Valid() && freep != NULL && i < |free| && prevp == free[i] && p == Next(free, i)
      requires n >= 1 && p in mem && mem[p].size > n
      modifies this`mem, this`freep, this`blocks, this`live
      ensures Valid() && LiveKept() && t !in old(live) && live == old(live) + {t}
      ensures freep == prevp && t > BASE && t in blocks && blocks[t] == n
      ensures free == old(free) && t == p + (old(mem[p].size) - n) && mem[p] == Header(old(mem[p].ptr), old(mem[p].size) - n)
    {
      hide Sound, Ring, Without;
      LiveSizes(mem, free, live, blocks, obtained);
      CarveFacts(mem, free, live, blocks, obtained, i, n);
      TakeTail(mem, free, live, blocks, obtained, p, n, 0);
      mem := mem[p := Header(mem[p].ptr, mem[p].size - n)];
      t := p + mem[p].size;
      mem := mem[t := Header(0, n)];
      live, blocks := live + {t}, Split(blocks, p, n);
      freep := prevp;
      assert free[i] in free;
    }

    /** A block of n units out of the one behind prevp. */
    method Carve(prevp: int, p: int, n: int, ghost i: nat) returns (ap: int)
      requires Valid() && freep != NULL && i < |free| && prevp == free[i] && p == Next(free, i)
      requires n >= 1 && p in mem && mem[p].size >= n
      modifies this`mem, this`freep, this`free, this`blocks, this`live
      ensures Valid() && LiveKept() && freep == prevp && ap > BASE + 1
      ensures ap - 1 !in old(live) && live == old(live) + {ap - 1} && ap - 1 in blocks && blocks[ap - 1] == n
    {
      hide Sound, Next, Ring, Without;
      var t := p;
      if mem[p].size == n {
        CarveWhole(prevp, p, i);
      } else {
        t := CarveTail(prevp, p, n, i);
      }
      assert t !in old(live) && live == old(live) + {t};
      ap := t + 1;
    }

    /** Everything passed since the search (re)started at freep, and before p, is too small. */
    ghost predicate PassedSmall(f: nat, i: nat, n: int)
      requires Linked(mem, free)
      reads this
    {
      forall k :: 0 <= k < |free| && (if f <= i then f < k <= i else k > f || k <= i) ==> mem[free[k]].size < n
    }

    lemma PassedAll(f: nat, i: nat, n: int, a: int)
      requires Linked(mem, free) && f < |free| && i < |free| && PassedSmall(f, i, n)
      requires Next(free, i) == free[f] && Sorted(free) && mem[free[f]].size < n && a in free
      ensures mem[a].size < n
    {
      var k :| 0 <= k < |free| && free[k] == a;
      assert (if i + 1 < |free| then i + 1 else 0) == f;
    }

    lemma PassedNothing(f: nat, n: int)
      requires Linked(mem, free)
      ensures PassedSmall(f, f, n)
    {}

    lemma PassedOne(f: nat, i: nat, n: int) returns (k: nat)
      requires Ring(mem, free) && f < |free| && i < |free| && PassedSmall(f, i, n)
      requires Next(free, i) in mem && mem[Next(free, i)].size < n && Next(free, i) != free[f]
      ensures k < |free| && free[k] == Next(free, i) && PassedSmall(f, k, n)
      ensures (if k < f then f - k else f - k + |free|) < (if i < f then f - i else f - i + |free|)
    {
      k := if i + 1 < |free| then i + 1 else 0;
    }

    /** A whole round without success: every free block is too small. */
    lemma AllSmall(f: nat, i: nat, n: int)
      requires Ring(mem, free) && f < |free| && i < |free| && PassedSmall(f, i, n)
      requires Next(free, i) == free[f] && mem[free[f]].size < n
      ensures forall a :: a in free ==> mem[a].size < n
    {
      forall a | a in free ensures mem[a].size < n { PassedAll(f, i, n, a); }
    }

    /** The first call of malloc sets up the list that holds base only. */
    method EnsureList()
      requires Valid()
      modifies this`freep, this`mem, this`free
      ensures Valid() && freep != NULL && LiveKept()
      ensures old(freep) != NULL ==> mem == old(mem) && free == old(free)
    {
      if freep != NULL { LiveSizes(mem, free, live, blocks, obtained); }
      if freep == NULL {
        freep := BASE;
        mem := mem[BASE := Header(BASE, 0)];
        free := [BASE];
      }
    }

    /** After sbrk has delivered, the search cannot come around without success. */
    lemma PassedNone(f: nat, i: nat, n: int, grown: bool)
      requires Ring(mem, free) && f < |free| && i < |free| && PassedSmall(f, i, n)
      requires Next(free, i) == free[f] && mem[free[f]].size < n
      requires grown ==> exists a :: a in free && a in mem && mem[a].size >= n
      ensures !grown
    {
      if a :| grown && a in free && a in mem && mem[a].size >= n { PassedAll(f, i, n, a); }
    }

    /** Null only when sbrk has refused and no free block is large enough. Otherwise a new block of the
        computed size, which is large enough if the computation did not wrap. */
    method Malloc(nbytes: nat) returns (ap: int)
      requires Valid() && Orderable(nbytes)
      modifies this
      ensures Valid() && LiveKept() && old(obtained) <= obtained
      ensures refused == old(refused) + if ap == NULL then 1 else 0
      ensures ap == NULL ==>
        && live == old(live) && obtained == old(obtained)
        && freep != NULL && forall a :: a in free && a in mem ==> mem[a].size < UnitsFor(nbytes)
      ensures ap != NULL ==>
        && ap - 1 !in old(live) && live == old(live) + {ap - 1}
        && ap - 1 in blocks && blocks[ap - 1] == UnitsFor(nbytes)
        && (RequestFits(nbytes) ==> (blocks[ap - 1] - 1) * HEADER_BYTES >= nbytes)
    {
      var nunits := UnitsFor(nbytes);
      hide Sound, Ring, Linked, Sorted, PassedSmall, UnitsFor, RequestFits, Orderable, IndexOf, Next;
      FitsMeans(nbytes);
      EnsureList();
      LiveSizes(mem, free, live, blocks, obtained);
      var prevp := freep;
      RingFacts(mem, free, live, blocks, obtained);
      ghost var f: nat := IndexOf(free, freep);
      ghost var i: nat, grown := f, false;
      PassedNothing(f, nunits);
      var p := mem[prevp].ptr;
      NextIs(mem, free, i);
      while true
        invariant Valid() && freep != NULL && LiveKept() && live == old(live) && old(obtained) <= obtained
        invariant refused == old(refused)
        invariant !grown ==> obtained == old(obtained)
        invariant f < |free| && i < |free| && free[f] == freep && prevp == free[i] && p == Next(free, i)
        invariant Ring(mem, free) && Linked(mem, free) && PassedSmall(f, i, nunits)
        invariant grown ==> exists a :: a in free && a in mem && mem[a].size >= nunits
        decreases if grown then 0 else 1, if i < f then f - i else f - i + |free|
      {
        NextIs(mem, free, i);
        if mem[p].size >= nunits {
          ap := Carve(prevp, p, nunits, i);
          return;
        }
        if p == freep {
          PassedNone(f, i, nunits, grown);
          AllSmall(f, i, nunits);
          p := Morecore(nunits);
          if p == NULL { return NULL; }
          grown := true;
          RingFacts(mem, free, live, blocks, obtained);
          LiveSizes(mem, free, live, blocks, obtained);
          f := IndexOf(free, freep);
          i := f;
          PassedNothing(f, nunits);
        } else {
          i := PassedOne(f, i, nunits);
        }
        NextIs(mem, free, i);
        prevp, p := p, mem[p].ptr;
      }
    }
  }

  /** base has size 0, so the block found is not base, and prevp is in front of it. */
  lemma CarveFacts(mem: Memory, free: seq<int>, live: set<int>, blocks: map<int, int>, obtained: set<int>, i: nat, n: int)
    requires Sound(mem, free, live, blocks, obtained) && i < |free| && n >= 1
    requires Next(free, i) in mem && mem[Next(free, i)].size >= n
    ensures i + 1 < |free| && Next(free, i) == free[i + 1] && free[i + 1] in free && free[i + 1] > BASE
    ensures free[i] in mem && free[i] >= BASE && mem[free[i + 1]].ptr == Next(free, i + 1)
    ensures free[i + 1] in blocks && blocks[free[i + 1]] == mem[free[i + 1]].size && free[i + 1] !in live
    ensures free[i] in Without(free, i + 1)
  {
    assert free[i + 1] in free;
    FreeIsBlock(mem, free, live, blocks, free[i + 1]);
    assert Without(free, i + 1)[i] == free[i];
    if i + 2 < |free| { assert mem[free[i + 1]].ptr == free[i + 2]; }
  }

  lemma WithoutIs(free: seq<int>, k: nat)
    requires k < |free|
    ensures Without(free, k) == free[..k] + free[k + 1..]
  {}

  lemma NextIs(mem: Memory, free: seq<int>, i: nat)
    requires Linked(mem, free) && i < |free|
    ensures mem[free[i]].ptr == Next(free, i) && Next(free, i) in mem && Next(free, i) in free
  {
    if i + 1 < |free| { assert mem[free[i]].ptr == free[i + 1]; }
  }

  lemma RingFacts(mem: Memory, free: seq<int>, live: set<int>, blocks: map<int, int>, obtained: set<int>)
    requires Sound(mem, free, live, blocks, obtained)
    ensures Ring(mem, free) && Linked(mem, free)
  {}
}

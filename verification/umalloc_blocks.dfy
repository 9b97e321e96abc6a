/** Blocks of the user-space allocator (OS/xv6-public/umalloc.c): tilings of the memory
    obtained from sbrk, and the circular, address-ordered, coalesced free list.
    Addresses and sizes are counted in headers of eight bytes. */
module UmallocBlocks {

  /** union header: the pointer field is used while the block is free. */
  datatype Header = Header(ptr: int, size: int)

  type Memory = map<int, Header>

  /** Address of the static header `base`; the data segment lies below the heap. */
  const BASE: int := 1

  // ---------------------------------------------------------------- tilings

  ghost predicate InBlock(blocks: map<int, int>, a: int, u: int) {
    a in blocks && a <= u < a + blocks[a]
  }

  ghost predicate Disjoint(blocks: map<int, int>) {
    forall a, b :: a in blocks && b in blocks && a < b ==> a + blocks[a] <= b
  }

  /** The blocks are not empty, do not overlap, and cover exactly the units obtained from sbrk. */
  ghost predicate Tiles(blocks: map<int, int>, obtained: set<int>) {
    && (forall a :: a in blocks ==> blocks[a] > 0 && a > BASE)
    && Disjoint(blocks)
    && forall u :: u in obtained <==> exists a :: InBlock(blocks, a, u)
  }

  /** Two neighbouring blocks become one. */
  function Merge(blocks: map<int, int>, a: int, b: int): map<int, int>
    requires a in blocks && b in blocks
  {
    (blocks - {b})[a := blocks[a] + blocks[b]]
  }

  lemma MergeTiles(blocks: map<int, int>, obtained: set<int>, a: int, b: int)
    requires Tiles(blocks, obtained) && a in blocks && b in blocks && a + blocks[a] == b
    ensures Tiles(Merge(blocks, a, b), obtained)
  {
    var m := Merge(blocks, a, b);
    forall u ensures u in obtained <==> exists c :: InBlock(m, c, u) {
      if c: int :| InBlock(blocks, c, u) {
        assert InBlock(m, if c == b then a else c, u);
      }
      if c: int :| InBlock(m, c, u) {
        assert InBlock(blocks, if c == a && u >= b then b else c, u);
      }
    }
  }

  /** The last n units of block a become a block of their own. */
  function Split(blocks: map<int, int>, a: int, n: int): map<int, int>
    requires a in blocks && n <= blocks[a]
  {
    blocks[a := blocks[a] - n][a + blocks[a] - n := n]
  }

  lemma SplitDisjoint(blocks: map<int, int>, a: int, n: int)
    requires Disjoint(blocks) && a in blocks && 0 < n < blocks[a]
    ensures Disjoint(Split(blocks, a, n)) && a + blocks[a] - n !in blocks
  {}

  lemma SplitTiles(blocks: map<int, int>, obtained: set<int>, a: int, n: int)
    requires Tiles(blocks, obtained) && a in blocks && 0 < n < blocks[a]
    ensures Tiles(Split(blocks, a, n), obtained)
    ensures a + blocks[a] - n !in blocks
  {
    SplitDisjoint(blocks, a, n);
    hide Disjoint;
    var m, t := Split(blocks, a, n), a + blocks[a] - n;
    forall u ensures u in obtained <==> exists c :: InBlock(m, c, u) {
      if c: int :| InBlock(blocks, c, u) {
        assert InBlock(m, if c == a && u >= t then t else c, u);
      }
      if c: int :| InBlock(m, c, u) {
        assert InBlock(blocks, if c == t then a else c, u);
      }
    }
  }

  function Units(a: int, n: nat): (r: set<int>)
    ensures forall u :: u in r <==> a <= u < a + n
  {
    if n == 0 then {} else Units(a, n - 1) + {a + n - 1}
  }

  /** sbrk hands out n units above everything handed out before. */
  lemma GrowTiles(blocks: map<int, int>, obtained: set<int>, a: int, n: int)
    requires Tiles(blocks, obtained) && a > BASE && n > 0 && forall u :: u in obtained ==> u < a
    ensures Tiles(blocks[a := n], obtained + Units(a, n))
    ensures a !in blocks && forall b :: b in blocks ==> b + blocks[b] <= a
  {
    var m := blocks[a := n];
    forall b | b in blocks ensures b + blocks[b] <= a {
      var top: int := b + blocks[b] - 1;
      assert InBlock(blocks, b, top);
      assert top in obtained;
    }
    forall u ensures u in obtained + Units(a, n) <==> exists c :: InBlock(m, c, u) {
      if c: int :| InBlock(blocks, c, u) { assert InBlock(m, c, u); }
      if u in Units(a, n) { assert InBlock(m, a, u); }
      if c: int :| InBlock(m, c, u) {
        assert c != a ==> InBlock(blocks, c, u);
      }
    }
  }

  // ---------------------------------------------------------------- the free list

  ghost predicate Sorted(free: seq<int>) {
    forall i, j :: 0 <= i < j < |free| ==> free[i] < free[j]
  }

  /** The list successor of free[k]. */
  function Next(free: seq<int>, k: nat): int
    requires k < |free|
  {
    if k + 1 < |free| then free[k + 1] else free[0]
  }

  /** The pointers form one cycle through `free`. */
  ghost predicate Linked(mem: Memory, free: seq<int>) {
    && (forall i :: 0 <= i < |free| ==> free[i] in mem)
    && (forall i, j :: 0 <= i && j == i + 1 && j < |free| ==> mem[free[i]].ptr == free[j])
    && (|free| > 0 ==> mem[free[|free| - 1]].ptr == free[0])
  }

  /** One cycle in address order, starting at base, with a single wrap. */
  ghost predicate Ring(mem: Memory, free: seq<int>) {
    |free| >= 1 && free[0] == BASE && Sorted(free) && Linked(mem, free) && mem[BASE].size == 0
  }

  /** No two free blocks touch: neighbours have been joined. */
  ghost predicate Coalesced(mem: Memory, free: seq<int>)
    requires Linked(mem, free)
  {
    forall i, j :: 1 <= i < j < |free| ==> free[i] + mem[free[i]].size < free[j]
  }

  /** Every block's header holds its size. */
  ghost predicate Headed(mem: Memory, blocks: map<int, int>) {
    forall a :: a in blocks ==> a in mem && mem[a].size == blocks[a]
  }

  /** Each block is either live or on the free list. */
  ghost predicate Owned(free: seq<int>, live: set<int>, blocks: map<int, int>) {
    (forall a :: a in blocks <==> a in live || (a in free && a != BASE)) && forall a :: a in live ==> a !in free
  }

  ghost predicate Sound(mem: Memory, free: seq<int>, live: set<int>, blocks: map<int, int>, obtained: set<int>) {
    && Tiles(blocks, obtained)
    && Ring(mem, free) && Coalesced(mem, free)
    && Headed(mem, blocks)
    && Owned(free, live, blocks)
  }

  /** The place for address b in the list: free[j] < b < free[j + 1], or b is behind the last. */
  ghost predicate Place(free: seq<int>, j: nat, b: int) {
    j < |free| && free[j] < b && (j + 1 < |free| ==> b < free[j + 1])
  }

  lemma {:induction false} FindPlace(free: seq<int>, b: int) returns (j: nat)
    requires |free| >= 1 && free[0] < b && b !in free
    ensures Place(free, j, b)
  {
    var n := |free| - 1;
    if free[n] < b {
      j := n;
    } else {
      assert free[n] in free;
      j := FindPlace(free[..n], b);
      assert forall x :: x in free[..n] ==> x in free;
      if j + 1 < n { assert free[..n][j + 1] == free[j + 1]; }
    }
  }

  // ---------------------------------------------------------------- the steps of malloc and free

  function Without(free: seq<int>, k: nat): seq<int>
    requires k < |free|
  {
    free[..k] + free[k + 1..]
  }

  function Inserted(free: seq<int>, k: nat, b: int): seq<int>
    requires k <= |free|
  {
    free[..k] + [b] + free[k..]
  }

  lemma WithoutSeq(free: seq<int>, k: nat)
    requires Sorted(free) && k < |free|
    ensures var t := Without(free, k);
            Sorted(t) && |t| == |free| - 1 && (forall i :: 0 <= i < |t| ==> t[i] == free[if i < k then i else i + 1])
    ensures forall a :: a in Without(free, k) <==> a in free && a != free[k]
  {
    var t := Without(free, k);
    assert forall i :: 0 <= i < |t| ==> t[i] == free[if i < k then i else i + 1];
    forall a | a in free && a != free[k] ensures a in t {
      var i :| 0 <= i < |free| && free[i] == a;
      assert t[if i < k then i else i - 1] == a;
    }
  }

  lemma InsertedAt(free: seq<int>, j: nat, b: int)
    requires j < |free|
    ensures var t := Inserted(free, j + 1, b);
            |t| == |free| + 1 && t[j + 1] == b
            && (forall i :: 0 <= i <= j ==> t[i] == free[i]) && (forall i :: j + 1 < i < |t| ==> t[i] == free[i - 1])
  {}

  lemma InsertedSeq(free: seq<int>, j: nat, b: int)
    requires Sorted(free) && Place(free, j, b)
    ensures Sorted(Inserted(free, j + 1, b))
    ensures forall a :: a in Inserted(free, j + 1, b) <==> a in free || a == b
  {
    var t := Inserted(free, j + 1, b);
    InsertedAt(free, j, b);
    forall a | a in free ensures a in t {
      var i :| 0 <= i < |free| && free[i] == a;
      assert t[if i <= j then i else i + 1] == a;
    }
    assert b in t;
    hide Inserted;
    assert forall i :: 0 <= i <= j ==> free[i] <= free[j];
    assert forall i :: j < i < |free| ==> b < free[i];
  }

  /** A store into the header at free[k] leaves the other headers of the list alone. */
  lemma StoreAt(mem: Memory, free: seq<int>, k: nat, h: Header)
    requires Sorted(free) && k < |free| && forall i :: 0 <= i < |free| ==> free[i] in mem
    ensures forall i :: 0 <= i < |free| ==>
              free[i] in mem[free[k] := h] && mem[free[k] := h][free[i]] == if i == k then h else mem[free[i]]
  {}

  lemma RingWithout(mem: Memory, free: seq<int>, k: nat)
    requires Ring(mem, free) && Coalesced(mem, free) && 1 <= k < |free|
    ensures var m := mem[free[k - 1] := Header(Next(free, k), mem[free[k - 1]].size)];
            Ring(m, Without(free, k)) && Coalesced(m, Without(free, k))
  {
    var h := Header(Next(free, k), mem[free[k - 1]].size);
    var t, m := Without(free, k), mem[free[k - 1] := h];
    WithoutSeq(free, k);
    StoreAt(mem, free, k - 1, h);
    hide Without, Sorted;
    forall i, j | 0 <= i && j == i + 1 && j < |t| ensures m[t[i]].ptr == t[j] {
      if i < k { assert t[i] == free[i]; } else { assert t[i] == free[j]; }
      assert i < k - 1 ==> mem[free[i]].ptr == free[j];
      assert i >= k ==> mem[free[j]].ptr == free[j + 1];
    }
    assert Linked(m, t);
  }

  lemma RingInserted(mem: Memory, free: seq<int>, j: nat, b: int, m: Memory)
    requires Ring(mem, free) && Coalesced(mem, free) && Place(free, j, b) && b in mem
    requires j + 1 < |free| ==> b + mem[b].size < free[j + 1]
    requires j >= 1 ==> free[j] + mem[free[j]].size < b
    requires m == mem[b := Header(Next(free, j), mem[b].size)][free[j] := Header(b, mem[free[j]].size)]
    ensures Ring(m, Inserted(free, j + 1, b)) && Coalesced(m, Inserted(free, j + 1, b))
  {
    var t := Inserted(free, j + 1, b);
    InsertedSeq(free, j, b);
    InsertedAt(free, j, b);
    InsertedHeaders(mem, free, j, b, m);
    hide Inserted, Linked;
    forall i, k | 1 <= i < k < |t| ensures t[i] + m[t[i]].size < t[k] {
      if k == j + 1 {
        assert i < j ==> free[i] + mem[free[i]].size < free[j];
      } else if i == j + 1 {
        assert j + 1 < k - 1 ==> free[j + 1] < free[k - 1];
      }
    }
  }

  lemma InsertedHeaders(mem: Memory, free: seq<int>, j: nat, b: int, m: Memory)
    requires Ring(mem, free) && Place(free, j, b) && b in mem
    requires m == mem[b := Header(Next(free, j), mem[b].size)][free[j] := Header(b, mem[free[j]].size)]
    ensures m[b] == Header(Next(free, j), mem[b].size) && m[free[j]].ptr == b
    ensures forall i :: 0 <= i < |free| ==>
              free[i] in m && m[free[i]].size == mem[free[i]].size && (i != j ==> m[free[i]] == mem[free[i]])
    ensures Linked(m, Inserted(free, j + 1, b))
  {
    NotIn(free, j, b);
    StoreAt(mem, free, j, m[free[j]]);
    InsertedAt(free, j, b);
    hide Inserted, Sorted;
    var t := Inserted(free, j + 1, b);
    forall i, k | 0 <= i && k == i + 1 && k < |t| ensures m[t[i]].ptr == t[k] {
      assert i < j ==> mem[free[i]].ptr == free[k];
      assert i > j + 1 ==> mem[free[i - 1]].ptr == free[i];
    }
  }

  lemma NotIn(free: seq<int>, j: nat, b: int)
    requires Sorted(free) && Place(free, j, b)
    ensures b !in free
  {}

  /** A free block is taken out of the list as it is. */
  lemma TakeWhole(mem: Memory, free: seq<int>, live: set<int>, blocks: map<int, int>, obtained: set<int>, k: nat)
    requires Sound(mem, free, live, blocks, obtained) && 1 <= k < |free|
    ensures var m := mem[free[k - 1] := Header(Next(free, k), mem[free[k - 1]].size)];
            Sound(m, Without(free, k), live + {free[k]}, blocks, obtained)
  {
    RingWithout(mem, free, k);
    WithoutSeq(free, k);
    var h := Header(Next(free, k), mem[free[k - 1]].size);
    assert free[k] in free && free[k] != BASE && free[k] != free[0];
    SameSizes(mem, mem[free[k - 1] := h], blocks);
    hide Tiles, Ring, Coalesced, Without, Headed;
  }

  lemma SameSizes(mem: Memory, m: Memory, blocks: map<int, int>)
    requires Headed(mem, blocks) && forall a :: a in mem ==> a in m && m[a].size == mem[a].size
    ensures Headed(m, blocks)
  {}

  /** Changes that keep the pointers of the free blocks, and make none of them larger. */
  lemma SameLinks(mem: Memory, m: Memory, free: seq<int>)
    requires Ring(mem, free) && Coalesced(mem, free)
    requires forall a :: a in free ==> a in m && m[a].ptr == mem[a].ptr && m[a].size <= mem[a].size
    requires BASE in m && m[BASE].size == 0
    ensures Ring(m, free) && Coalesced(m, free)
  {
    assert forall i :: 0 <= i < |free| ==> free[i] in free;
  }

  lemma FreeIsBlock(mem: Memory, free: seq<int>, live: set<int>, blocks: map<int, int>, a: int)
    requires Ring(mem, free) && Headed(mem, blocks) && Owned(free, live, blocks) && a in free && a != BASE
    ensures a in blocks && blocks[a] == mem[a].size && a !in live
  {}

  /** The tail of a free block is cut off. */
  lemma TakeTail(mem: Memory, free: seq<int>, live: set<int>, blocks: map<int, int>, obtained: set<int>,
                 p: int, n: int, x: int)
    requires Sound(mem, free, live, blocks, obtained) && p in free && p != BASE && 0 < n < mem[p].size
    ensures var t := p + mem[p].size - n;
            p in blocks && blocks[p] == mem[p].size && t !in blocks && t !in live && t > BASE
            && Sound(mem[p := Header(mem[p].ptr, mem[p].size - n)][t := Header(x, n)],
                     free, live + {t}, Split(blocks, p, n), obtained)
  {
    var t := p + mem[p].size - n;
    FreeIsBlock(mem, free, live, blocks, p);
    SplitTiles(blocks, obtained, p, n);
    TailNotFree(mem, free, live, blocks, t);
    var m := mem[p := Header(mem[p].ptr, mem[p].size - n)][t := Header(x, n)];
    TailHeaded(mem, m, blocks, p, n, x);
    TailOwned(free, live, blocks, p, n);
    hide Tiles, Owned, Headed;
    SameLinks(mem, m, free);
    hide Ring, Coalesced;
  }

  lemma TailHeaded(mem: Memory, m: Memory, blocks: map<int, int>, p: int, n: int, x: int)
    requires Headed(mem, blocks) && p in blocks && n <= blocks[p]
    requires m == mem[p := Header(mem[p].ptr, blocks[p] - n)][p + blocks[p] - n := Header(x, n)]
    ensures Headed(m, Split(blocks, p, n))
  {}

  lemma TailOwned(free: seq<int>, live: set<int>, blocks: map<int, int>, p: int, n: int)
    requires Owned(free, live, blocks) && p in blocks && n <= blocks[p]
    requires p + blocks[p] - n !in blocks && p + blocks[p] - n != BASE
    ensures Owned(free, live + {p + blocks[p] - n}, Split(blocks, p, n))
  {}

  lemma TailNotFree(mem: Memory, free: seq<int>, live: set<int>, blocks: map<int, int>, t: int)
    requires Owned(free, live, blocks) && t !in blocks && t > BASE
    ensures t !in free && t !in live
  {}

  /** Two neighbouring live blocks are joined. */
  lemma JoinLive(mem: Memory, free: seq<int>, live: set<int>, blocks: map<int, int>, obtained: set<int>, a: int, b: int, x: int)
    requires Sound(mem, free, live, blocks, obtained) && a in live && b in live && a + mem[a].size == b
    ensures Sound(mem[a := Header(x, mem[a].size + mem[b].size)], free, live - {b}, Merge(blocks, a, b), obtained)
  {
    assert a in blocks && b in blocks;
    MergeTiles(blocks, obtained, a, b);
    hide Tiles;
    SameLinks(mem, mem[a := Header(x, mem[a].size + mem[b].size)], free) by { hide Headed; }
    hide Ring, Coalesced;
  }

  /** A live block lies strictly between its neighbours in the list. */
  lemma Between(mem: Memory, free: seq<int>, live: set<int>, blocks: map<int, int>, obtained: set<int>, j: nat, b: int)
    requires Sound(mem, free, live, blocks, obtained) && b in live && Place(free, j, b)
    ensures j + 1 < |free| ==> b + mem[b].size <= free[j + 1]
    ensures free[j] + mem[free[j]].size <= b
  {
    assert b in blocks;
    if j > 0 { FreeIsBlock(mem, free, live, blocks, free[j]); }
    if j + 1 < |free| { FreeIsBlock(mem, free, live, blocks, free[j + 1]); }
  }

  /** The successor of the place of b is touched by b: it is taken out and joined to b. */
  lemma JoinUpper(mem: Memory, free: seq<int>, live: set<int>, blocks: map<int, int>, obtained: set<int>, j: nat, b: int)
    requires Sound(mem, free, live, blocks, obtained) && b in live && Place(free, j, b)
    requires j + 1 < |free| && b + mem[b].size == free[j + 1]
    ensures var p, q, next := free[j], free[j + 1], Next(free, j + 1);
            b in blocks && q in blocks && b != p
            && Sound(mem[p := Header(next, mem[p].size)][b := Header(next, mem[b].size + mem[q].size)],
                     Without(free, j + 1), live, Merge(blocks, b, q), obtained)
  {
    hide Sound, Without, Merge, Next;
    var p, q, next := free[j], free[j + 1], Next(free, j + 1);
    UpperFacts(mem, free, live, blocks, obtained, j, b);
    TakeWhole(mem, free, live, blocks, obtained, j + 1);
    var m := mem[p := Header(next, mem[p].size)];
    assert m[b] == mem[b] && m[q] == mem[q];
    JoinLive(m, Without(free, j + 1), live + {q}, blocks, obtained, b, q, next);
    assert live + {q} - {q} == live;
  }

  lemma UpperFacts(mem: Memory, free: seq<int>, live: set<int>, blocks: map<int, int>, obtained: set<int>, j: nat, b: int)
    requires Sound(mem, free, live, blocks, obtained) && b in live && Place(free, j, b) && j + 1 < |free|
    ensures b in blocks && free[j + 1] in blocks && free[j + 1] !in live && b != free[j] && free[j] != free[j + 1]
    ensures b in mem && free[j] in mem && free[j + 1] in mem
  {
    NotIn(free, j, b);
    FreeIsBlock(mem, free, live, blocks, free[j + 1]);
  }

  /** The place of b once its upper neighbour has left the list. */
  lemma UpperPlace(mem: Memory, free: seq<int>, j: nat, b: int)
    requires Ring(mem, free) && Coalesced(mem, free) && Place(free, j, b) && j + 1 < |free|
    ensures var next, t := Next(free, j + 1), Without(free, j + 1);
            Place(t, j, b) && t[j] == free[j] && Next(t, j) == next
            && (j + 1 < |t| ==> free[j + 1] + mem[free[j + 1]].size < t[j + 1])
  {
    WithoutSeq(free, j + 1);
    hide Without;
  }

  /** Linking a block that touches neither neighbour. */
  lemma LinkPlain(mem: Memory, free: seq<int>, live: set<int>, blocks: map<int, int>, obtained: set<int>, j: nat, b: int)
    requires Sound(mem, free, live, blocks, obtained) && b in live && Place(free, j, b)
    requires j + 1 < |free| ==> b + mem[b].size != free[j + 1]
    requires free[j] + mem[free[j]].size != b
    ensures Sound(mem[b := Header(Next(free, j), mem[b].size)][free[j] := Header(b, mem[free[j]].size)],
                  Inserted(free, j + 1, b), live - {b}, blocks, obtained)
  {
    Between(mem, free, live, blocks, obtained, j, b);
    var m := mem[b := Header(Next(free, j), mem[b].size)][free[j] := Header(b, mem[free[j]].size)];
    assert b in blocks;
    RingInserted(mem, free, j, b, m);
    InsertedSeq(free, j, b);
    NotIn(free, j, b);
    SameSizes(mem, m, blocks);
    hide Tiles, Ring, Coalesced, Inserted, Headed;
  }

  /** Joining a block to the free block below it. */
  lemma JoinLower(mem: Memory, free: seq<int>, live: set<int>, blocks: map<int, int>, obtained: set<int>,
                  j: nat, b: int, x: Header)
    requires Sound(mem, free, live, blocks, obtained) && b in live && Place(free, j, b)
    requires j + 1 < |free| ==> b + mem[b].size != free[j + 1]
    requires free[j] + mem[free[j]].size == b
    ensures var p := free[j];
            p in blocks && b in blocks
            && Sound(mem[b := x][p := Header(Next(free, j), mem[p].size + mem[b].size)], free, live - {b}, Merge(blocks, p, b), obtained)
  {
    hide Tiles, Ring, Coalesced, Headed, Owned, Merge;
    LowerFacts(mem, free, live, blocks, obtained, j, b);
    var p := free[j];
    var h := Header(Next(free, j), mem[p].size + mem[b].size);
    MergeTiles(blocks, obtained, p, b);
    LowerLinks(mem, free, b, x);
    LowerRing(mem[b := x], free, j, b, h);
    LowerHeaded(mem, mem[b := x][p := h], blocks, p, b);
    LowerOwned(free, live, blocks, p, b);
  }

  /** What the free block below, and the block that touches it, look like. */
  lemma LowerFacts(mem: Memory, free: seq<int>, live: set<int>, blocks: map<int, int>, obtained: set<int>, j: nat, b: int)
    requires Sound(mem, free, live, blocks, obtained) && b in live && Place(free, j, b)
    requires j + 1 < |free| ==> b + mem[b].size != free[j + 1]
    requires free[j] + mem[free[j]].size == b
    ensures var p := free[j];
            1 <= j && p in free && p != BASE && p in blocks && b in blocks && p in mem && b in mem && b !in free && b != p
            && blocks[p] == mem[p].size && blocks[b] == mem[b].size && p !in live && mem[p].ptr == Next(free, j)
            && (j + 1 < |free| ==> p + mem[p].size + mem[b].size < free[j + 1])
  {
    hide Tiles;
    LowerPlace(mem, free, j, b);
    assert b in blocks && free[j] in free;
    FreeIsBlock(mem, free, live, blocks, free[j]);
    NotIn(free, j, b);
    Between(mem, free, live, blocks, obtained, j, b);
  }

  lemma LowerPlace(mem: Memory, free: seq<int>, j: nat, b: int)
    requires Ring(mem, free) && Place(free, j, b) && free[j] + mem[free[j]].size == b
    ensures 1 <= j && free[j] != BASE && free[j] in mem && mem[free[j]].ptr == Next(free, j)
  {
    if j + 1 < |free| { assert mem[free[j]].ptr == free[j + 1]; }
  }

  lemma LowerLinks(mem: Memory, free: seq<int>, b: int, x: Header)
    requires Ring(mem, free) && Coalesced(mem, free) && b !in free
    ensures Ring(mem[b := x], free) && Coalesced(mem[b := x], free)
  {
    assert free[0] in free;
    assert forall a :: a in free ==> a in mem by { assert forall i :: 0 <= i < |free| ==> free[i] in mem; }
    SameLinks(mem, mem[b := x], free);
  }

  lemma LowerOwned(free: seq<int>, live: set<int>, blocks: map<int, int>, p: int, b: int)
    requires Owned(free, live, blocks) && p in blocks && b in blocks && b in live && p != b
    ensures Owned(free, live - {b}, Merge(blocks, p, b))
  {}

  lemma LowerRing(mem: Memory, free: seq<int>, j: nat, b: int, h: Header)
    requires Ring(mem, free) && Coalesced(mem, free) && 1 <= j < |free|
    requires h.ptr == mem[free[j]].ptr && (j + 1 < |free| ==> free[j] + h.size < free[j + 1])
    ensures Ring(mem[free[j] := h], free) && Coalesced(mem[free[j] := h], free)
  {
    StoreAt(mem, free, j, h);
  }

  lemma LowerHeaded(mem: Memory, m: Memory, blocks: map<int, int>, p: int, b: int)
    requires Headed(mem, blocks) && p in blocks && b in blocks
    requires p in m && b in m && m == mem[b := m[b]][p := m[p]] && m[p].size == blocks[p] + blocks[b]
    ensures Headed(m, Merge(blocks, p, b))
  {}

  /** A fresh block from sbrk, still outside the list. */
  lemma AddLive(mem: Memory, free: seq<int>, live: set<int>, blocks: map<int, int>, obtained: set<int>, a: int, n: int)
    requires Sound(mem, free, live, blocks, obtained) && n > 0 && a > BASE && forall u :: u in obtained ==> u < a
    ensures a !in live && Sound(mem[a := Header(0, n)], free, live + {a}, blocks[a := n], obtained + Units(a, n))
    ensures forall u :: u in obtained + Units(a, n) ==> u < a + n
  {
    GrowTiles(blocks, obtained, a, n);
    TailNotFree(mem, free, live, blocks, a);
    hide Tiles;
    SameLinks(mem, mem[a := Header(0, n)], free) by { hide Headed, Owned; }
    hide Ring, Coalesced;
  }

  lemma LiveFacts(mem: Memory, free: seq<int>, live: set<int>, blocks: map<int, int>, obtained: set<int>, b: int)
    requires Sound(mem, free, live, blocks, obtained) && b in live
    ensures b in mem && b in blocks && mem[b].size == blocks[b] > 0 && b > BASE && b !in free
    ensures |free| >= 1 && free[0] == BASE
  {}

  lemma LiveSizes(mem: Memory, free: seq<int>, live: set<int>, blocks: map<int, int>, obtained: set<int>)
    requires Sound(mem, free, live, blocks, obtained)
    ensures forall a :: a in live ==> a in blocks
    ensures forall a :: a in blocks ==> a in mem && mem[a].size == blocks[a] > 0
    ensures forall a :: a in free ==> a in mem && a >= BASE
  {}

  lemma NotLive(free: seq<int>, live: set<int>, blocks: map<int, int>, j: nat)
    requires Owned(free, live, blocks) && j < |free|
    ensures free[j] !in live
  {
    assert forall a :: a in live ==> a !in free;
    assert free[j] in free;
  }

  /** Conservation: every unit obtained from sbrk lies in exactly one block, and that block is
      either in use or on the free list, never both. */
  lemma OneOwner(mem: Memory, free: seq<int>, live: set<int>, blocks: map<int, int>, obtained: set<int>, u: int)
    requires Sound(mem, free, live, blocks, obtained)
    ensures u in obtained <==> exists a :: InBlock(blocks, a, u)
    ensures forall a, b :: InBlock(blocks, a, u) && InBlock(blocks, b, u) ==> a == b
    ensures forall a :: InBlock(blocks, a, u) ==> (a in live) != (a in free)
  {
    assert forall a :: a in live ==> a !in free;
  }

  /** The free list is strictly increasing, linked in a cycle, and its blocks do not even touch. */
  lemma FreeListShape(mem: Memory, free: seq<int>, live: set<int>, blocks: map<int, int>, obtained: set<int>, i: nat, j: nat)
    requires Sound(mem, free, live, blocks, obtained) && i < j < |free|
    ensures free[i] in mem && free[j] in mem && free[i] + mem[free[i]].size < free[j]
    ensures mem[free[i]].ptr == free[i + 1] && mem[free[|free| - 1]].ptr == BASE
  {}
}

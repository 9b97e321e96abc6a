/** The two-level page tables of OS/xv6-public/vm.c as they lie in physical memory: what the words of
    the page directory and of the page tables say, and which frames an address space holds. */
module VmTables {

  const ENTRIES: int := 1024          // NPDENTRIES and NPTENTRIES
  const PAGE: int := 4096             // PGSIZE
  const USER: int := 512 * 1024       // pages below KERNBASE
  const PTE_P: int := 1
  const PTE_W: int := 2
  const PTE_U: int := 4

  /** A frame is 1024 words; a word that is an entry is 4096 times a frame number plus flags. */
  type Frame = seq<int>
  type Mem = seq<Frame>

  predicate Present(e: int) { e % 2 == 1 }

  /** PTE_ADDR, as a frame number. */
  function Addr(e: int): int { e / PAGE }

  function Flags(e: int): int { e % PAGE }

  /** pa | perm | PTE_P */
  function Entry(f: int, perm: int): int { f * PAGE + perm - perm % 2 + PTE_P }

  lemma EntryParts(f: int, perm: int)
    requires 0 <= perm < PAGE
    ensures Present(Entry(f, perm)) && Addr(Entry(f, perm)) == f && Flags(Entry(f, perm)) == perm - perm % 2 + PTE_P
  {
    var h := Half(perm);
    EntryOf(f, h, Entry(f, perm));
  }

  lemma Half(perm: int) returns (h: int)
    requires 0 <= perm < PAGE
    ensures 0 <= h < PAGE / 2 && perm - perm % 2 == 2 * h
  {
    h := perm / 2;
  }

  lemma EntryOf(f: int, h: int, e: int)
    requires 0 <= h < PAGE / 2 && e == PAGE * f + (2 * h + 1)
    ensures e % 2 == 1 && e / PAGE == f && e % PAGE == 2 * h + 1
  {
    DivMod(e, f, 2 * h + 1);
    Odd(e, 2048 * f + h);
  }

  lemma Odd(e: int, k: int)
    requires e == 2 * k + 1
    ensures e % 2 == 1
  {}

  lemma DivMod(e: int, f: int, r: int)
    requires e == PAGE * f + r && 0 <= r < PAGE
    ensures e / PAGE == f && e % PAGE == r
  {}

  function Zeros(): (f: Frame)
    ensures |f| == ENTRIES
  {
    seq(ENTRIES, _ => 0)
  }

  function Word(mem: Mem, f: int, k: int): int {
    if 0 <= f < |mem| && 0 <= k < |mem[f]| then mem[f][k] else 0
  }

  function Pde(mem: Mem, d: int, i: int): int { Word(mem, d, i) }

  /** The entry for page v, 0 where there is no page table. */
  function Pte(mem: Mem, d: int, v: int): int {
    if Present(Pde(mem, d, v / ENTRIES)) then Word(mem, Addr(Pde(mem, d, v / ENTRIES)), v % ENTRIES) else 0
  }

  // ---------------------------------------------------------------- what the processor makes of it

  /** Whether user code may read, or write, at va: both entries are present (bit 0) and for the user (bit 2),
      and for writing both are writable (bit 1). */
  predicate UserMay(mem: Mem, d: int, va: int, write: bool) {
    var pde := Word(mem, d, va / 0x40_0000);
    var pte := Word(mem, pde / 0x1000, va / 0x1000 % 0x400);
    && pde % 2 == 1 && pte % 2 == 1 && pde / 4 % 2 == 1 && pte / 4 % 2 == 1
    && (write ==> pde / 2 % 2 == 1 && pte / 2 % 2 == 1)
  }

  /** The aligned word that user code finds at va. */
  function UserWord(mem: Mem, d: int, va: int): int {
    var pde := Word(mem, d, va / 0x40_0000);
    var pte := Word(mem, pde / 0x1000, va / 0x1000 % 0x400);
    Word(mem, pte / 0x1000, va / 4 % 0x400)
  }

  /** Every directory entry leaves the decision to the entries of its table. */
  ghost predicate Open(mem: Mem, d: int) {
    forall i: int :: Pde(mem, d, i) % 2 == 1 ==> Pde(mem, d, i) % 4096 == 7
  }

  lemma OpenSame(a: Mem, b: Mem, d: int)
    requires Open(a, d) && forall i: int :: Pde(b, d, i) == Pde(a, d, i)
    ensures Open(b, d)
  {}

  lemma ByTwo(e: int, x: int, r: int)
    requires e == 2 * x + r && 0 <= r < 2
    ensures e / 2 == x && e % 2 == r
  {}

  lemma ByFour(e: int, x: int, r: int)
    requires e == 4 * x + r && 0 <= r < 4
    ensures e / 4 == x
  {}

  lemma Split(e: int) returns (q: int, r: int)
    ensures e == 4096 * q + r && 0 <= r < 4096 && r == e % 4096
  {
    q, r := e / 4096, e % 4096;
  }

  lemma BitsOf(e: int)
    ensures e % 2 == e % 4096 % 2 && e / 2 % 2 == e % 4096 / 2 % 2 && e / 4 % 2 == e % 4096 / 4 % 2
  {
    var q, r := Split(e);
    ByTwo(e, 2048 * q + r / 2, r % 2);
    ByTwo(e / 2, 1024 * q + r / 2 / 2, r / 2 % 2);
    ByFour(e, 1024 * q + r / 4, r % 4);
    ByTwo(e / 4, 512 * q + r / 4 / 2, r / 4 % 2);
  }

  /** The address va through the two tables of entries. */
  lemma WalkOf(va: int)
    requires 0 <= va
    ensures va / 0x40_0000 == va / 0x1000 / ENTRIES && va / 0x1000 % 0x400 == va / 0x1000 % ENTRIES
  {}

  /** Below an open directory entry the flags of the page decide. */
  lemma PageDecides(mem: Mem, d: int, va: int, write: bool)
    requires Open(mem, d) && 0 <= va
    ensures var e := Pte(mem, d, va / 0x1000);
            (UserMay(mem, d, va, write) <==> e % 2 == 1 && e % 4096 / 4 % 2 == 1 && (write ==> e % 4096 / 2 % 2 == 1))
            && (e % 2 == 1 ==> UserWord(mem, d, va) == Word(mem, Addr(e), va / 4 % 0x400))
  {
    WalkOf(va);
    var pde, e := Pde(mem, d, va / 0x40_0000), Pte(mem, d, va / 0x1000);
    BitsOf(pde);
    BitsOf(e);
  }

  // ---------------------------------------------------------------- what an address space holds

  /** The frames of an address space by what they are for. */
  datatype Place = Dir | Tab(i: int) | Page(v: int)

  const NONE: int := -1

  function At(mem: Mem, d: int, p: Place): int {
    match p
    case Dir => d
    case Tab(i) => if 0 <= i < ENTRIES && Present(Pde(mem, d, i)) then Addr(Pde(mem, d, i)) else NONE
    case Page(v) => if 0 <= v < USER && Present(Pte(mem, d, v)) then Addr(Pte(mem, d, v)) else NONE
  }

  ghost predicate Shape(mem: Mem) { forall f :: 0 <= f < |mem| ==> IsFrame(mem[f]) }

  ghost predicate IsFrame(x: Frame) { |x| == ENTRIES && forall k :: 0 <= k < ENTRIES ==> x[k] >= 0 }

  /** Every frame of the address space is an allocatable one, and has one purpose. */
  ghost predicate Sane(mem: Mem, d: int, lo: int) {
    && d != NONE
    && (forall p: Place :: At(mem, d, p) != NONE ==> 0 < lo <= At(mem, d, p) < |mem|)
    && (forall p: Place, q: Place :: At(mem, d, p) == At(mem, d, q) != NONE ==> p == q)
  }

  ghost predicate Apart(mem: Mem, d: int, free: set<int>) {
    forall p: Place :: At(mem, d, p) !in free
  }

  ghost predicate Owns(mem: Mem, d: int, f: int) { f != NONE && exists p: Place :: At(mem, d, p) == f }

  ghost function Owned(mem: Mem, d: int): set<int> { set f: int | 0 <= f < |mem| && Owns(mem, d, f) }

  /** The same tables with the same entries. */
  ghost predicate SameSpace(a: Mem, b: Mem, d: int) {
    && (forall p: Place :: At(b, d, p) == At(a, d, p))
    && (forall v: int :: Pte(b, d, v) == Pte(a, d, v))
    && (forall i: int :: Pde(b, d, i) == Pde(a, d, i))
  }

  lemma SameKeeps(a: Mem, b: Mem, d: int, lo: int)
    requires Sane(a, d, lo) && SameSpace(a, b, d) && |a| == |b|
    ensures Sane(b, d, lo)
    ensures Owned(b, d) == Owned(a, d)
  {
    assert forall p: Place :: At(b, d, p) == At(a, d, p);
    forall f: int ensures Owns(b, d, f) == Owns(a, d, f) {
      if Owns(b, d, f) { var p: Place :| At(b, d, p) == f; assert At(a, d, p) == f; }
      if Owns(a, d, f) { var p: Place :| At(a, d, p) == f; assert At(b, d, p) == f; }
    }
  }

  // ---------------------------------------------------------------- writing elsewhere

  /** Memory that differs only in frames that are not the directory or a table of d. */
  ghost predicate SameTables(a: Mem, b: Mem, d: int) {
    && |a| == |b| && 0 <= d < |a| && a[d] == b[d]
    && forall i :: 0 <= i < ENTRIES && At(a, d, Tab(i)) != NONE ==>
         0 <= At(a, d, Tab(i)) < |a| && a[At(a, d, Tab(i))] == b[At(a, d, Tab(i))]
  }

  lemma SamePte(a: Mem, b: Mem, d: int, v: int)
    requires SameTables(a, b, d) && |a[d]| == ENTRIES
    ensures Pte(b, d, v) == Pte(a, d, v)
  {
    var i := v / ENTRIES;
    assert Pde(b, d, i) == Pde(a, d, i);
    if Present(Pde(a, d, i)) {
      assert 0 <= i < ENTRIES;
      assert At(a, d, Tab(i)) == Addr(Pde(a, d, i));
      assert At(a, d, Tab(i)) != NONE || Addr(Pde(a, d, i)) == NONE;
    }
  }

  lemma SameTablesSame(a: Mem, b: Mem, d: int)
    requires SameTables(a, b, d) && |a[d]| == ENTRIES
    ensures SameSpace(a, b, d)
  {
    forall v: int ensures Pte(b, d, v) == Pte(a, d, v) { SamePte(a, b, d, v); }
    forall p: Place ensures At(b, d, p) == At(a, d, p) {
      match p
      case Dir =>
      case Tab(i) => assert Pde(b, d, i) == Pde(a, d, i);
      case Page(v) => SamePte(a, b, d, v);
    }
  }

  /** A frame that the address space does not use, or uses for a page, can be overwritten. */
  lemma WriteElsewhere(mem: Mem, d: int, lo: int, f: int, x: Frame)
    requires Sane(mem, d, lo) && 0 <= d < |mem| && |mem[d]| == ENTRIES && 0 <= f < |mem|
    requires f != d && forall i :: 0 <= i < ENTRIES ==> At(mem, d, Tab(i)) != f
    ensures SameSpace(mem, mem[f := x], d) && Sane(mem[f := x], d, lo) && Owned(mem[f := x], d) == Owned(mem, d)
  {
    SameTablesSame(mem, mem[f := x], d);
    SameKeeps(mem, mem[f := x], d, lo);
  }

  // ---------------------------------------------------------------- a new page table

  function WithTable(mem: Mem, d: int, i: int, t: int): Mem
    requires 0 <= d < |mem| && 0 <= t < |mem| && 0 <= i < |mem[d]| && t != d
  {
    mem[t := Zeros()][d := mem[d][i := Entry(t, PTE_W + PTE_U)]]
  }

  lemma TablePte(mem: Mem, d: int, lo: int, i: int, t: int, v: int)
    requires Sane(mem, d, lo) && 0 <= d < |mem| && |mem[d]| == ENTRIES && 0 <= i < ENTRIES && 0 <= t < |mem| && t != d
    requires !Present(Pde(mem, d, i)) && !Owns(mem, d, t)
    ensures Pte(WithTable(mem, d, i, t), d, v) == Pte(mem, d, v)
  {
    EntryParts(t, PTE_W + PTE_U);
    var m := WithTable(mem, d, i, t);
    var j := v / ENTRIES;
    if j == i {
      assert Pde(m, d, j) == Entry(t, PTE_W + PTE_U);
      assert m[t] == Zeros();
    } else {
      assert Pde(m, d, j) == Pde(mem, d, j);
      if Present(Pde(mem, d, j)) {
        assert At(mem, d, Tab(j)) == Addr(Pde(mem, d, j));
        assert At(mem, d, Tab(j)) != NONE ==> At(mem, d, Tab(j)) != At(mem, d, Dir);
      }
    }
  }

  /** A zeroed table adds one frame to the address space and maps nothing. */
  lemma TableAdded(mem: Mem, d: int, lo: int, i: int, t: int)
    requires Sane(mem, d, lo) && 0 <= d < |mem| && |mem[d]| == ENTRIES && 0 <= i < ENTRIES && 0 < lo <= t < |mem|
    requires !Present(Pde(mem, d, i)) && !Owns(mem, d, t) && t != d
    ensures var m := WithTable(mem, d, i, t);
            (forall v: int :: Pte(m, d, v) == Pte(mem, d, v))
            && (forall p: Place :: At(m, d, p) == if p == Tab(i) then t else At(mem, d, p))
            && Sane(m, d, lo) && Owned(m, d) == Owned(mem, d) + {t}
  {
    EntryParts(t, PTE_W + PTE_U);
    var m := WithTable(mem, d, i, t);
    forall v: int ensures Pte(m, d, v) == Pte(mem, d, v) { TablePte(mem, d, lo, i, t, v); }
    forall p: Place ensures At(m, d, p) == if p == Tab(i) then t else At(mem, d, p) {
      match p
      case Dir =>
      case Tab(j) => assert j != i ==> Pde(m, d, j) == Pde(mem, d, j);
      case Page(v) => assert Pte(m, d, v) == Pte(mem, d, v);
    }
    PlaceAdded(mem, m, d, lo, Tab(i), t);
  }

  /** One place that was empty is filled with a frame that was not used. */
  lemma PlaceAdded(a: Mem, b: Mem, d: int, lo: int, x: Place, f: int)
    requires Sane(a, d, lo) && |a| == |b| && 0 < lo <= f < |a| && !Owns(a, d, f) && At(a, d, x) == NONE
    requires forall p: Place :: At(b, d, p) == if p == x then f else At(a, d, p)
    ensures Sane(b, d, lo) && Owned(b, d) == Owned(a, d) + {f}
  {
    forall p: Place, q: Place | At(b, d, p) == At(b, d, q) != NONE ensures p == q {
      assert At(a, d, p) != f && At(a, d, q) != f;
    }
    assert At(b, d, x) == f;
    forall g: int ensures Owns(b, d, g) == (Owns(a, d, g) || g == f) {
      if Owns(b, d, g) { var p: Place :| At(b, d, p) == g; assert p == x || At(a, d, p) == g; }
      if Owns(a, d, g) { var p: Place :| At(a, d, p) == g; assert At(b, d, p) == g; }
    }
  }

  lemma PlaceRemoved(a: Mem, b: Mem, d: int, lo: int, x: Place)
    requires Sane(a, d, lo) && |a| == |b| && At(a, d, x) != NONE
    requires forall p: Place :: At(b, d, p) == if p == x then NONE else At(a, d, p)
    ensures Sane(b, d, lo) && Owned(b, d) == Owned(a, d) - {At(a, d, x)} && At(a, d, x) in Owned(a, d)
  {
    forall p: Place, q: Place | At(b, d, p) == At(b, d, q) != NONE ensures p == q {
      assert At(a, d, p) == At(a, d, q);
    }
    var f := At(a, d, x);
    forall g: int ensures Owns(b, d, g) == (Owns(a, d, g) && g != f) {
      if Owns(b, d, g) { var p: Place :| At(b, d, p) == g; assert At(a, d, p) == g; assert p != x; }
      if Owns(a, d, g) && g != f { var p: Place :| At(a, d, p) == g; assert At(b, d, p) == g; }
    }
    assert Owns(a, d, f);
  }

  // ---------------------------------------------------------------- an entry changes

  function WithPte(mem: Mem, d: int, v: int, e: int): Mem {
    var t := Addr(Pde(mem, d, v / ENTRIES));
    if 0 <= t < |mem| && |mem[t]| == ENTRIES then mem[t := mem[t][v % ENTRIES := e]] else mem
  }

  predicate HasTable(mem: Mem, d: int, v: int) { 0 <= v < ENTRIES * ENTRIES && Present(Pde(mem, d, v / ENTRIES)) }

  lemma TableOf(mem: Mem, d: int, lo: int, v: int)
    requires Shape(mem) && Sane(mem, d, lo) && HasTable(mem, d, v)
    ensures var t := Addr(Pde(mem, d, v / ENTRIES));
            At(mem, d, Tab(v / ENTRIES)) == t && 0 <= t < |mem| && |mem[t]| == ENTRIES && t != d
  {
    var i := v / ENTRIES;
    assert 0 <= i < ENTRIES;
    var t := At(mem, d, Tab(i));
    assert Pde(mem, d, i) >= 0;
    assert t == At(mem, d, Dir) ==> Tab(i) == Dir;
  }

  lemma SetPteOther(mem: Mem, d: int, lo: int, v: int, e: int, w: int)
    requires Shape(mem) && Sane(mem, d, lo) && HasTable(mem, d, v) && 0 <= d < |mem|
    ensures Pde(WithPte(mem, d, v, e), d, w) == Pde(mem, d, w)
    ensures Pte(WithPte(mem, d, v, e), d, w) == if w == v then e else Pte(mem, d, w)
  {
    TableOf(mem, d, lo, v);
    var m := WithPte(mem, d, v, e);
    assert m[d] == mem[d];
    var i, j := v / ENTRIES, w / ENTRIES;
    assert Pde(m, d, j) == Pde(mem, d, j);
    if i == j {
      assert w == v <==> w % ENTRIES == v % ENTRIES;
    } else if Present(Pde(mem, d, j)) {
      assert 0 <= j < ENTRIES;
      var t := At(mem, d, Tab(j));
      assert t == Addr(Pde(mem, d, j));
      assert t == At(mem, d, Tab(i)) && t != NONE ==> Tab(i) == Tab(j);
    }
  }

  /** Installing an unused frame for an unmapped user page. */
  lemma PageAdded(mem: Mem, d: int, lo: int, v: int, f: int, perm: int)
    requires Shape(mem) && Sane(mem, d, lo) && 0 <= d < |mem| && HasTable(mem, d, v)
    requires 0 <= v < USER && !Present(Pte(mem, d, v)) && 0 < lo <= f < |mem| && !Owns(mem, d, f) && 0 <= perm < PAGE
    ensures var m := WithPte(mem, d, v, Entry(f, perm));
            (forall p: Place :: At(m, d, p) == if p == Page(v) then f else At(mem, d, p))
            && Sane(m, d, lo) && Owned(m, d) == Owned(mem, d) + {f}
  {
    EntryParts(f, perm);
    var m := WithPte(mem, d, v, Entry(f, perm));
    SetPteAt(mem, d, lo, v, Entry(f, perm));
    PlaceAdded(mem, m, d, lo, Page(v), f);
  }

  lemma SetPteAt(mem: Mem, d: int, lo: int, v: int, e: int)
    requires Shape(mem) && Sane(mem, d, lo) && 0 <= d < |mem| && HasTable(mem, d, v)
    ensures var m := WithPte(mem, d, v, e);
            forall p: Place :: At(m, d, p) ==
              if p == Page(v) then (if v < USER && Present(e) then Addr(e) else NONE) else At(mem, d, p)
  {
    var m := WithPte(mem, d, v, e);
    forall p: Place
      ensures At(m, d, p) == if p == Page(v) then (if v < USER && Present(e) then Addr(e) else NONE) else At(mem, d, p)
    {
      match p
      case Dir =>
      case Tab(i) => SetPteOther(mem, d, lo, v, e, i);
      case Page(w) => SetPteOther(mem, d, lo, v, e, w);
    }
  }

  lemma PageRemoved(mem: Mem, d: int, lo: int, v: int)
    requires Shape(mem) && Sane(mem, d, lo) && 0 <= d < |mem| && HasTable(mem, d, v)
    requires 0 <= v < USER && Present(Pte(mem, d, v))
    ensures var m := WithPte(mem, d, v, 0);
            (forall p: Place :: At(m, d, p) == if p == Page(v) then NONE else At(mem, d, p))
            && Sane(m, d, lo) && Owned(m, d) == Owned(mem, d) - {Addr(Pte(mem, d, v))}
            && Addr(Pte(mem, d, v)) in Owned(mem, d)
  {
    SetPteAt(mem, d, lo, v, 0);
    TableOf(mem, d, lo, v);
    assert Pte(mem, d, v) >= 0;
    PlaceRemoved(mem, WithPte(mem, d, v, 0), d, lo, Page(v));
  }

  /** Above KERNBASE the entries refer to memory that is not the address space's own. */
  lemma KernelSet(mem: Mem, d: int, lo: int, v: int, e: int)
    requires Shape(mem) && Sane(mem, d, lo) && 0 <= d < |mem| && HasTable(mem, d, v)
    requires v >= USER
    ensures var m := WithPte(mem, d, v, e);
            (forall p: Place :: At(m, d, p) == At(mem, d, p)) && Sane(m, d, lo) && Owned(m, d) == Owned(mem, d)
  {
    var m := WithPte(mem, d, v, e);
    SetPteAt(mem, d, lo, v, e);
    assert At(mem, d, Page(v)) == NONE;
    assert forall p: Place :: At(m, d, p) == At(mem, d, p);
    forall f: int ensures Owns(m, d, f) == Owns(mem, d, f) {
      if Owns(m, d, f) { var p: Place :| At(m, d, p) == f; assert At(mem, d, p) == f; }
      if Owns(mem, d, f) { var p: Place :| At(mem, d, p) == f; assert At(m, d, p) == f; }
    }
  }
}

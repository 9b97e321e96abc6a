/** Paths through edge lists: joining them, and cutting them where they leave a region. */
module RegExpPaths {
  import opened RegExpTree

  lemma {:induction false} WordConcat(a: seq<Edge>, b: seq<Edge>)
    ensures Word(a + b) == Word(a) + Word(b)
  {
    if a == [] {
      assert a + b == b;
    } else {
      assert (a + b)[1..] == a[1..] + b;
      WordConcat(a[1..], b);
    }
  }

  lemma {:induction false} PathConcat(edges: seq<Edge>, p: nat, a: seq<Edge>, q: nat, b: seq<Edge>, r: nat)
    requires Path(edges, p, a, q) && Path(edges, q, b, r)
    ensures Path(edges, p, a + b, r) && Word(a + b) == Word(a) + Word(b)
    decreases a
  {
    WordConcat(a, b);
    if a == [] {
      assert a + b == b;
    } else {
      assert (a + b)[1..] == a[1..] + b;
      PathConcat(edges, a[0].dst, a[1..], q, b, r);
    }
  }

  lemma {:induction false} PathMono(few: seq<Edge>, many: seq<Edge>, p: nat, path: seq<Edge>, q: nat)
    requires Path(few, p, path, q) && forall e :: e in few ==> e in many
    ensures Path(many, p, path, q)
    decreases path
  {
    if path != [] { PathMono(few, many, path[0].dst, path[1..], q); }
  }

  lemma SingleEdge(edges: seq<Edge>, e: Edge)
    requires e in edges
    ensures Path(edges, e.src, [e], e.dst) && Word([e]) == Sym(e.on)
  {
    assert [e][1..] == [];
  }

  lemma NoWord()
    ensures Word([]) == []
  {}

  lemma DeadEnd(edges: seq<Edge>, p: nat, path: seq<Edge>, q: nat)
    requires Path(edges, p, path, q) && forall e :: e in edges ==> e.src != p
    ensures path == [] && p == q
  {}

  /** A path that begins with an epsilon edge has the word of what follows. */
  lemma EpsFirst(path: seq<Edge>)
    requires path != [] && path[0].on == EPS
    ensures Word(path) == Word(path[1..])
  {
    assert [] + Word(path[1..]) == Word(path[1..]);
  }

  /** From a state whose only edge is an epsilon edge into a dead end. */
  lemma EpsLast(edges: seq<Edge>, p: nat, path: seq<Edge>, q: nat)
    requires Path(edges, p, path, q) && p != q
    requires forall e :: e in edges && e.src == p ==> e == Edge(p, EPS, q)
    requires forall e :: e in edges ==> e.src != q
    ensures Word(path) == []
  {
    DeadEnd(edges, q, path[1..], q);
    EpsFirst(path);
  }

  /** Edges that leave `region` are all in `sub`, and lead back into it or to `exit`. */
  ghost predicate Region(edges: seq<Edge>, sub: seq<Edge>, region: nat -> bool, exit: nat) {
    forall e :: e in edges && region(e.src) ==> e in sub && (region(e.dst) || e.dst == exit)
  }

  /** A path that starts in a region and ends outside leaves it through its exit. */
  lemma {:induction false} Cut(edges: seq<Edge>, sub: seq<Edge>, region: nat -> bool, exit: nat,
                               p: nat, path: seq<Edge>, q: nat) returns (k: nat)
    requires Region(edges, sub, region, exit) && !region(exit)
    requires Path(edges, p, path, q) && (region(p) || p == exit) && !region(q)
    ensures k <= |path| && Path(sub, p, path[..k], exit) && Path(edges, exit, path[k..], q)
    ensures Word(path) == Word(path[..k]) + Word(path[k..])
    ensures region(p) ==> k > 0
    decreases path
  {
    if p == exit {
      k := 0;
      assert path[..0] == [] && path[0..] == path;
    } else {
      var j := Cut(edges, sub, region, exit, path[0].dst, path[1..], q);
      k := j + 1;
      assert path[..k] == [path[0]] + path[1..][..j];
      assert path[..k][1..] == path[1..][..j];
      assert path[k..] == path[1..][j..];
    }
    assert path == path[..k] + path[k..];
    WordConcat(path[..k], path[k..]);
  }

  /** A path inside a region whose exit is a dead end uses the region's own edges only. */
  lemma {:induction false} Restrict(edges: seq<Edge>, sub: seq<Edge>, region: nat -> bool, exit: nat,
                                    p: nat, path: seq<Edge>, q: nat)
    requires Region(edges, sub, region, exit) && forall e :: e in edges ==> e.src != exit
    requires Path(edges, p, path, q) && (region(p) || p == exit)
    ensures Path(sub, p, path, q)
    decreases path
  {
    if path != [] { Restrict(edges, sub, region, exit, path[0].dst, path[1..], q); }
  }

  /** A path that must run through a region, leave it at b, and end right behind it. */
  lemma ThroughRegion(edges: seq<Edge>, sub: seq<Edge>, region: nat -> bool, a: nat, b: nat, path: seq<Edge>, q: nat)
    returns (inner: seq<Edge>)
    requires Region(edges, sub, region, b) && !region(b) && !region(q) && b != q && (region(a) || a == b)
    requires forall e :: e in edges && e.src == b ==> e == Edge(b, EPS, q)
    requires forall e :: e in edges ==> e.src != q
    requires Path(edges, a, path, q)
    ensures Path(sub, a, inner, b) && Word(inner) == Word(path)
  {
    var k := Cut(edges, sub, region, b, a, path, q);
    inner := path[..k];
    EpsLast(edges, b, path[k..], q);
    assert Word(inner) + [] == Word(inner);
  }
}

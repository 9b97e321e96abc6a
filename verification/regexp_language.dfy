/** The automaton that StepRegExp builds accepts exactly the language of the tree. */
module RegExpLanguage {
  import opened RegExpTree
  import opened RegExpPaths

  // ---------------------------------------------------------------- which states are used

  /** An element entered at lo and left at hi uses lo, hi and the ids in between:
      nothing leads into lo, nothing leaves hi. */
  ghost predicate Within(edges: seq<Edge>, lo: nat, hi: nat) {
    forall e :: e in edges ==> lo <= e.src < hi && lo < e.dst <= hi
  }

  /** A call from s to f uses s, f and fresh ids: nothing leads into s, nothing leaves f. */
  ghost predicate Fresh(edges: seq<Edge>, s: nat, f: nat, last: nat) {
    forall e :: e in edges ==> (e.src == s || f < e.src <= last) && f <= e.dst <= last
  }

  lemma {:induction false} FanStepEdges(cs: seq<char>, cur: nat)
    ensures forall e :: e in FanStep(cs, cur) <==>
              exists i :: 0 <= i < |cs| && (e == Edge(cur, cs[i], cur + 1) || e == Edge(cur + 1, EPS, cur + 2))
  {
    if cs != [] {
      var p := cs[..|cs| - 1];
      FanStepEdges(p, cur);
      forall e | e in FanStep(cs, cur)
        ensures exists i :: 0 <= i < |cs| && (e == Edge(cur, cs[i], cur + 1) || e == Edge(cur + 1, EPS, cur + 2))
      {
        if e in FanStep(p, cur) {
          var i :| 0 <= i < |p| && (e == Edge(cur, p[i], cur + 1) || e == Edge(cur + 1, EPS, cur + 2));
          assert cs[i] == p[i];
        } else {
          assert cs[|cs| - 1] == cs[|cs| - 1];
        }
      }
      forall i, e | 0 <= i < |cs| && (e == Edge(cur, cs[i], cur + 1) || e == Edge(cur + 1, EPS, cur + 2))
        ensures e in FanStep(cs, cur)
      {
        if i < |p| { assert p[i] == cs[i]; }
      }
    }
  }

  /** Every id a call hands out is fresh, and at most the id it returns. */
  lemma {:induction false} StepFresh(r: RegExp, sigma: seq<char>, s: nat, f: nat)
    requires s < f
    ensures f <= Step(r, sigma, s, f).last && Fresh(Step(r, sigma, s, f).edges, s, f, Step(r, sigma, s, f).last)
    decreases r, 0, 0
  {
    match r
    case Group(alts) => AltsFresh(alts, sigma, s, f, f);
    case _ =>
  }

  lemma {:induction false} AltsFresh(alts: seq<Alt>, sigma: seq<char>, s: nat, f: nat, cur: nat)
    requires s < f <= cur
    ensures var m := Alts(alts, sigma, s, f, cur);
            cur <= m.last
            && forall e :: e in m.edges ==> (e.src == s || cur < e.src <= m.last) && (e.dst == f || cur < e.dst <= m.last)
    decreases alts, 2
  {
    if alts != [] {
      ItemsWithin(alts[0].items, sigma, cur + 1);
      AltsFresh(alts[1..], sigma, s, f, Items(alts[0].items, sigma, cur + 1).last);
    }
  }

  lemma {:induction false} ItemsWithin(items: seq<RegExp>, sigma: seq<char>, cur: nat)
    ensures cur <= Items(items, sigma, cur).last
    ensures Within(Items(items, sigma, cur).edges, cur, Items(items, sigma, cur).last)
    decreases items, 2
  {
    if items != [] {
      ItemWithin(items[0], sigma, cur);
      ItemsWithin(items[1..], sigma, Item(items[0], sigma, cur).last);
    }
  }

  lemma {:induction false} ItemWithin(r: RegExp, sigma: seq<char>, cur: nat)
    ensures cur < Item(r, sigma, cur).last
    ensures Within(Item(r, sigma, cur).edges, cur, Item(r, sigma, cur).last)
    decreases r, 1, 0
  {
    match r
    case Chr(_) =>
    case AnyChr => FanStepEdges(sigma, cur);
    case SetChr(cs) => FanStepEdges(cs, cur);
    case Group(_) => GroupWithin(r, sigma, cur);
    case Star(body) => StarWithin(body, sigma, cur);
  }

  lemma {:induction false} GroupShape(r: RegExp, sigma: seq<char>, cur: nat)
    requires r.Group?
    ensures var e := Step(r, sigma, cur + 1, cur + 2);
            Item(r, sigma, cur).last == e.last + 1 && cur + 2 <= e.last && Fresh(e.edges, cur + 1, cur + 2, e.last)
            && forall x :: x in Item(r, sigma, cur).edges <==>
                 x == Edge(cur, EPS, cur + 1) || x in e.edges || x == Edge(cur + 2, EPS, e.last + 1)
    decreases r, 0, 1
  {
    StepFresh(r, sigma, cur + 1, cur + 2);
  }

  lemma {:induction false} StarShape(body: RegExp, sigma: seq<char>, cur: nat)
    ensures var e := Step(body, sigma, cur + 1, cur + 2);
            Item(Star(body), sigma, cur).last == e.last + 1 && cur + 2 <= e.last
            && Fresh(e.edges, cur + 1, cur + 2, e.last)
            && forall x :: x in Item(Star(body), sigma, cur).edges <==>
                 x == Edge(cur, EPS, cur + 1) || x in e.edges || x == Edge(cur + 1, EPS, cur + 2)
                 || x == Edge(cur + 2, EPS, cur + 1) || x == Edge(cur + 2, EPS, e.last + 1)
    decreases body, 0, 1
  {
    hide Step;
    StepFresh(body, sigma, cur + 1, cur + 2);
    var e := Step(body, sigma, cur + 1, cur + 2);
    assert Item(Star(body), sigma, cur).edges == [Edge(cur, EPS, cur + 1)] + e.edges + LoopEdges(cur, e.last);
  }

  lemma {:induction false} GroupWithin(r: RegExp, sigma: seq<char>, cur: nat)
    requires r.Group?
    ensures cur < Item(r, sigma, cur).last && Within(Item(r, sigma, cur).edges, cur, Item(r, sigma, cur).last)
    decreases r, 0, 2
  {
    hide Item, Step;
    GroupShape(r, sigma, cur);
  }

  lemma {:induction false} StarWithin(body: RegExp, sigma: seq<char>, cur: nat)
    ensures cur < Item(Star(body), sigma, cur).last
    ensures Within(Item(Star(body), sigma, cur).edges, cur, Item(Star(body), sigma, cur).last)
    decreases body, 0, 2
  {
    hide Item, Step;
    StarShape(body, sigma, cur);
  }

  // ---------------------------------------------------------------- every accepted word is in the language

  lemma {:induction false} StepSound(r: RegExp, sigma: seq<char>, s: nat, f: nat, path: seq<Edge>)
    requires s < f && NoStarStar(r) && !r.Star?
    requires Path(Step(r, sigma, s, f).edges, s, path, f)
    ensures Lang(r, sigma, Word(path))
    decreases r, 0, 0
  {
    match r
    case Group(alts) => AltsSound(alts, sigma, s, f, f, path);
    case Chr(c) => assert path == [path[0]];
    case AnyChr => FanSound(sigma, s, f, path);
    case SetChr(cs) => FanSound(cs, s, f, path);
  }

  lemma FanSound(cs: seq<char>, s: nat, f: nat, path: seq<Edge>)
    requires s < f && Path(Fan(cs, s, f), s, path, f)
    ensures OneOf(cs, Word(path))
  {
    var i :| 0 <= i < |cs| && path[0] == Fan(cs, s, f)[i];
    assert path[1..] == [];
    assert Word(path) == Sym(cs[i]);
  }

  lemma FanStepSound(cs: seq<char>, cur: nat, path: seq<Edge>)
    requires Path(FanStep(cs, cur), cur, path, cur + 2)
    ensures OneOf(cs, Word(path))
  {
    FanStepEdges(cs, cur);
    var i :| 0 <= i < |cs| && path[0] == Edge(cur, cs[i], cur + 1);
    EpsLast(FanStep(cs, cur), cur + 1, path[1..], cur + 2);
    assert Word(path) == Sym(cs[i]) + [];
  }

  lemma {:induction false} ItemsSound(items: seq<RegExp>, sigma: seq<char>, cur: nat, path: seq<Edge>)
    requires NoStarStarItems(items)
    requires Path(Items(items, sigma, cur).edges, cur, path, Items(items, sigma, cur).last)
    ensures LangSeq(items, sigma, Word(path))
    decreases items, 2
  {
    if items == [] {
      assert path == [];
    } else {
      var e := Item(items[0], sigma, cur);
      var rest := Items(items[1..], sigma, e.last);
      var edges := Items(items, sigma, cur).edges;
      ItemWithin(items[0], sigma, cur);
      ItemsWithin(items[1..], sigma, e.last);
      var k := Cut(edges, e.edges, x => cur <= x < e.last, e.last, cur, path, rest.last);
      Restrict(edges, rest.edges, x => e.last <= x < rest.last, rest.last, e.last, path[k..], rest.last);
      ItemSound(items[0], sigma, cur, path[..k]);
      ItemsSound(items[1..], sigma, e.last, path[k..]);
      var w, u := Word(path), Word(path[..k]);
      assert w[..|u|] == u && w[|u|..] == Word(path[k..]);
    }
  }

  /** The edges of a list of alternatives, around those of the first one. */
  lemma AltsShape(alts: seq<Alt>, sigma: seq<char>, s: nat, f: nat, cur: nat)
    requires s < f <= cur && alts != []
    ensures var e := Items(alts[0].items, sigma, cur + 1);
            var rest := Alts(alts[1..], sigma, s, f, e.last);
            var edges := Alts(alts, sigma, s, f, cur).edges;
            cur < e.last <= rest.last && Within(e.edges, cur + 1, e.last)
            && (forall x :: x in edges <==>
                  x == Edge(s, EPS, cur + 1) || x in e.edges || x == Edge(e.last, EPS, f) || x in rest.edges)
            && (forall x :: x in rest.edges ==>
                  (x.src == s || e.last < x.src <= rest.last) && (x.dst == f || e.last < x.dst <= rest.last))
  {
    ItemsWithin(alts[0].items, sigma, cur + 1);
    AltsFresh(alts[1..], sigma, s, f, Items(alts[0].items, sigma, cur + 1).last);
  }

  lemma AltsFirst(alts: seq<Alt>, sigma: seq<char>, s: nat, f: nat, cur: nat, path: seq<Edge>)
    requires s < f <= cur && alts != [] && NoStarStarItems(alts[0].items)
    requires Path(Alts(alts, sigma, s, f, cur).edges, cur + 1, path, f)
    ensures LangSeq(alts[0].items, sigma, Word(path))
    decreases alts, 1
  {
    hide Alts, Items, LangSeq, Word, NoStarStarItems, Path;
    AltsShape(alts, sigma, s, f, cur);
    var e := Items(alts[0].items, sigma, cur + 1);
    var inner := ThroughRegion(Alts(alts, sigma, s, f, cur).edges, e.edges, x => cur + 1 <= x < e.last,
                               cur + 1, e.last, path, f);
    ItemsSound(alts[0].items, sigma, cur + 1, inner);
  }

  lemma AltsLater(alts: seq<Alt>, sigma: seq<char>, s: nat, f: nat, cur: nat, path: seq<Edge>)
    requires s < f <= cur && alts != [] && path != [] && path[0] != Edge(s, EPS, cur + 1)
    requires Path(Alts(alts, sigma, s, f, cur).edges, s, path, f)
    ensures Path(Alts(alts[1..], sigma, s, f, Items(alts[0].items, sigma, cur + 1).last).edges, s, path, f)
    ensures cur < Items(alts[0].items, sigma, cur + 1).last
  {
    hide Alts, Items;
    AltsShape(alts, sigma, s, f, cur);
    var e := Items(alts[0].items, sigma, cur + 1);
    var rest := Alts(alts[1..], sigma, s, f, e.last);
    Restrict(Alts(alts, sigma, s, f, cur).edges, rest.edges, x => e.last < x <= rest.last, f, path[0].dst, path[1..], f);
  }

  lemma {:induction false} AltsSound(alts: seq<Alt>, sigma: seq<char>, s: nat, f: nat, cur: nat, path: seq<Edge>)
    requires s < f <= cur && forall i :: 0 <= i < |alts| ==> NoStarStarItems(alts[i].items)
    requires Path(Alts(alts, sigma, s, f, cur).edges, s, path, f)
    ensures exists i :: 0 <= i < |alts| && LangSeq(alts[i].items, sigma, Word(path))
    decreases alts, 2
  {
    hide Items, LangSeq, Word, NoStarStarItems;
    if alts == [] {
      DeadEnd([], s, path, f);
    } else if path[0] == Edge(s, EPS, cur + 1) {
      EpsFirst(path);
      AltsFirst(alts, sigma, s, f, cur, path[1..]);
    } else {
      AltsLater(alts, sigma, s, f, cur, path);
      AltsSound(alts[1..], sigma, s, f, Items(alts[0].items, sigma, cur + 1).last, path);
      var i :| 0 <= i < |alts[1..]| && LangSeq(alts[1..][i].items, sigma, Word(path));
      assert alts[i + 1] == alts[1..][i];
    }
  }

  lemma {:induction false} ItemSound(r: RegExp, sigma: seq<char>, cur: nat, path: seq<Edge>)
    requires NoStarStar(r)
    requires Path(Item(r, sigma, cur).edges, cur, path, Item(r, sigma, cur).last)
    ensures Lang(r, sigma, Word(path))
    decreases r, 1, 0
  {
    match r
    case Chr(c) => assert path == [path[0]];
    case AnyChr => FanStepSound(sigma, cur, path);
    case SetChr(cs) => FanStepSound(cs, cur, path);
    case Group(_) => GroupSound(r, sigma, cur, path);
    case Star(body) =>
      StepFresh(body, sigma, cur + 1, cur + 2);
      assert path[0] == Edge(cur, EPS, cur + 1);
      EpsFirst(path);
      StarSound(body, sigma, cur, cur + 1, path[1..]);
  }

  lemma {:induction false} GroupSound(r: RegExp, sigma: seq<char>, cur: nat, path: seq<Edge>)
    requires r.Group? && NoStarStar(r)
    requires Path(Item(r, sigma, cur).edges, cur, path, Item(r, sigma, cur).last)
    ensures Lang(r, sigma, Word(path))
    decreases r, 0, 1
  {
    hide Item, Step, Lang, Word, NoStarStar;
    GroupShape(r, sigma, cur);
    var e := Step(r, sigma, cur + 1, cur + 2);
    EpsFirst(path);
    var inner := ThroughRegion(Item(r, sigma, cur).edges, e.edges, x => x == cur + 1 || cur + 2 < x <= e.last,
                               cur + 1, cur + 2, path[1..], e.last + 1);
    StepSound(r, sigma, cur + 1, cur + 2, inner);
  }

  lemma StarCons(body: RegExp, sigma: seq<char>, u: seq<char>, v: seq<char>)
    requires Lang(body, sigma, u) && LangStar(body, sigma, v)
    ensures LangStar(body, sigma, u + v)
  {
    if u == [] {
      assert u + v == v;
    } else {
      var w := u + v;
      assert w[..|u|] == u && w[|u|..] == v;
    }
  }

  /** From either end of the loop to the exit: the word is a concatenation of body words. */
  lemma {:induction false} StarSound(body: RegExp, sigma: seq<char>, cur: nat, p: nat, path: seq<Edge>)
    requires NoStarStar(body) && !body.Star? && (p == cur + 1 || p == cur + 2)
    requires Path(Item(Star(body), sigma, cur).edges, p, path, Item(Star(body), sigma, cur).last)
    ensures LangStar(body, sigma, Word(path))
    decreases body, 1, |path|, 1
  {
    hide Item, Step, Lang, Word, NoStarStar;
    StarShape(body, sigma, cur);
    var e := Step(body, sigma, cur + 1, cur + 2);
    var edges := Item(Star(body), sigma, cur).edges;
    if path[0] == Edge(cur + 2, EPS, e.last + 1) {
      DeadEnd(edges, e.last + 1, path[1..], e.last + 1);
      EpsFirst(path);
      NoWord();
    } else if path[0].src == cur + 2 || path[0] == Edge(cur + 1, EPS, cur + 2) {
      EpsFirst(path);
      StarSound(body, sigma, cur, path[0].dst, path[1..]);
    } else {
      StarTurn(body, sigma, cur, path);
    }
  }

  /** One turn of the loop through the body, followed by the rest of the path. */
  lemma {:induction false} StarTurn(body: RegExp, sigma: seq<char>, cur: nat, path: seq<Edge>)
    requires NoStarStar(body) && !body.Star?
    requires Path(Item(Star(body), sigma, cur).edges, cur + 1, path, Item(Star(body), sigma, cur).last)
    requires path != [] && path[0] in Step(body, sigma, cur + 1, cur + 2).edges
    ensures LangStar(body, sigma, Word(path))
    decreases body, 1, |path|, 0
  {
    hide Item, Step, Lang, Word, NoStarStar;
    StarShape(body, sigma, cur);
    var e := Step(body, sigma, cur + 1, cur + 2);
    var k := Cut(Item(Star(body), sigma, cur).edges, e.edges, x => cur + 2 < x <= e.last, cur + 2,
                 path[0].dst, path[1..], e.last + 1);
    var first, rest := path[..k + 1], path[k + 1..];
    assert first[1..] == path[1..][..k] && rest == path[1..][k..] && path == first + rest;
    WordConcat(first, rest);
    StepSound(body, sigma, cur + 1, cur + 2, first);
    StarSound(body, sigma, cur, cur + 2, rest);
    StarCons(body, sigma, Word(first), Word(rest));
  }

  // ---------------------------------------------------------------- every word of the language is accepted

  lemma {:induction false} StepComplete(r: RegExp, sigma: seq<char>, s: nat, f: nat, w: seq<char>) returns (path: seq<Edge>)
    requires s < f && NoStarStar(r) && !r.Star? && Lang(r, sigma, w)
    ensures Path(Step(r, sigma, s, f).edges, s, path, f) && Word(path) == w
    decreases r, 0, 0
  {
    match r
    case Group(alts) =>
      var i :| 0 <= i < |alts| && LangSeq(alts[i].items, sigma, w);
      path := AltsComplete(alts, sigma, s, f, f, i, w);
    case Chr(c) =>
      path := [Edge(s, c, f)];
      SingleEdge(path, path[0]);
    case AnyChr => path := FanComplete(sigma, s, f, w);
    case SetChr(cs) => path := FanComplete(cs, s, f, w);
  }

  lemma FanComplete(cs: seq<char>, s: nat, f: nat, w: seq<char>) returns (path: seq<Edge>)
    requires OneOf(cs, w)
    ensures Path(Fan(cs, s, f), s, path, f) && Word(path) == w
  {
    var i :| 0 <= i < |cs| && w == Sym(cs[i]);
    path := [Fan(cs, s, f)[i]];
    SingleEdge(Fan(cs, s, f), path[0]);
  }

  lemma FanStepComplete(cs: seq<char>, cur: nat, w: seq<char>) returns (path: seq<Edge>)
    requires OneOf(cs, w)
    ensures Path(FanStep(cs, cur), cur, path, cur + 2) && Word(path) == w
  {
    FanStepEdges(cs, cur);
    var i :| 0 <= i < |cs| && w == Sym(cs[i]);
    var a, b := Edge(cur, cs[i], cur + 1), Edge(cur + 1, EPS, cur + 2);
    assert a in FanStep(cs, cur) && b in FanStep(cs, cur);
    SingleEdge(FanStep(cs, cur), a);
    SingleEdge(FanStep(cs, cur), b);
    PathConcat(FanStep(cs, cur), cur, [a], cur + 1, [b], cur + 2);
    path := [a] + [b];
  }

  lemma {:induction false} ItemsComplete(items: seq<RegExp>, sigma: seq<char>, cur: nat, w: seq<char>)
    returns (path: seq<Edge>)
    requires NoStarStarItems(items) && LangSeq(items, sigma, w)
    ensures Path(Items(items, sigma, cur).edges, cur, path, Items(items, sigma, cur).last) && Word(path) == w
    decreases items, 2
  {
    if items == [] {
      path := [];
    } else {
      var k :| 0 <= k <= |w| && Lang(items[0], sigma, w[..k]) && LangSeq(items[1..], sigma, w[k..]);
      var e := Item(items[0], sigma, cur);
      var rest := Items(items[1..], sigma, e.last);
      var edges := Items(items, sigma, cur).edges;
      var a := ItemComplete(items[0], sigma, cur, w[..k]);
      var b := ItemsComplete(items[1..], sigma, e.last, w[k..]);
      PathMono(e.edges, edges, cur, a, e.last);
      PathMono(rest.edges, edges, e.last, b, rest.last);
      PathConcat(edges, cur, a, e.last, b, rest.last);
      path := a + b;
      assert w == w[..k] + w[k..];
    }
  }

  /** An epsilon edge, a path inside the sub-automaton, and an epsilon edge out of it. */
  lemma Bracket(edges: seq<Edge>, sub: seq<Edge>, p: nat, a: nat, inner: seq<Edge>, b: nat, q: nat) returns (path: seq<Edge>)
    requires Edge(p, EPS, a) in edges && Edge(b, EPS, q) in edges && Path(sub, a, inner, b)
    requires forall e :: e in sub ==> e in edges
    ensures Path(edges, p, path, q) && Word(path) == Word(inner)
  {
    SingleEdge(edges, Edge(p, EPS, a));
    SingleEdge(edges, Edge(b, EPS, q));
    PathMono(sub, edges, a, inner, b);
    PathConcat(edges, p, [Edge(p, EPS, a)], a, inner, b);
    PathConcat(edges, p, [Edge(p, EPS, a)] + inner, b, [Edge(b, EPS, q)], q);
    path := [Edge(p, EPS, a)] + inner + [Edge(b, EPS, q)];
    assert Word(path) == [] + Word(inner) + [];
  }

  lemma {:induction false} AltsComplete(alts: seq<Alt>, sigma: seq<char>, s: nat, f: nat, cur: nat, i: nat, w: seq<char>)
    returns (path: seq<Edge>)
    requires s < f <= cur && i < |alts| && NoStarStarItems(alts[i].items) && LangSeq(alts[i].items, sigma, w)
    ensures Path(Alts(alts, sigma, s, f, cur).edges, s, path, f) && Word(path) == w
    decreases alts, 2
  {
    hide Alts, Items, LangSeq, Word, NoStarStarItems, Path;
    AltsShape(alts, sigma, s, f, cur);
    var e := Items(alts[0].items, sigma, cur + 1);
    var edges := Alts(alts, sigma, s, f, cur).edges;
    if i == 0 {
      var inner := ItemsComplete(alts[0].items, sigma, cur + 1, w);
      path := Bracket(edges, e.edges, s, cur + 1, inner, e.last, f);
    } else {
      path := AltsComplete(alts[1..], sigma, s, f, e.last, i - 1, w);
      PathMono(Alts(alts[1..], sigma, s, f, e.last).edges, edges, s, path, f);
    }
  }

  lemma {:induction false} ItemComplete(r: RegExp, sigma: seq<char>, cur: nat, w: seq<char>) returns (path: seq<Edge>)
    requires NoStarStar(r) && Lang(r, sigma, w)
    ensures Path(Item(r, sigma, cur).edges, cur, path, Item(r, sigma, cur).last) && Word(path) == w
    decreases r, 1, 0
  {
    match r
    case Chr(c) =>
      path := [Edge(cur, c, cur + 1)];
      SingleEdge(path, path[0]);
    case AnyChr => path := FanStepComplete(sigma, cur, w);
    case SetChr(cs) => path := FanStepComplete(cs, cur, w);
    case Group(_) =>
      var inner := StepComplete(r, sigma, cur + 1, cur + 2, w);
      path := GroupBracket(r, sigma, cur, inner);
    case Star(body) =>
      var inner := StarComplete(body, sigma, cur, w);
      path := StarBracket(body, sigma, cur, inner);
  }

  lemma GroupBracket(r: RegExp, sigma: seq<char>, cur: nat, inner: seq<Edge>) returns (path: seq<Edge>)
    requires r.Group? && Path(Step(r, sigma, cur + 1, cur + 2).edges, cur + 1, inner, cur + 2)
    ensures Path(Item(r, sigma, cur).edges, cur, path, Item(r, sigma, cur).last) && Word(path) == Word(inner)
  {
    hide Step, Item, Path, Word;
    GroupShape(r, sigma, cur);
    var e := Step(r, sigma, cur + 1, cur + 2);
    path := Bracket(Item(r, sigma, cur).edges, e.edges, cur, cur + 1, inner, cur + 2, e.last + 1);
  }

  lemma StarBracket(body: RegExp, sigma: seq<char>, cur: nat, inner: seq<Edge>) returns (path: seq<Edge>)
    requires Path(Item(Star(body), sigma, cur).edges, cur + 1, inner, cur + 2)
    ensures Path(Item(Star(body), sigma, cur).edges, cur, path, Item(Star(body), sigma, cur).last)
    ensures Word(path) == Word(inner)
  {
    hide Step, Item, Path, Word;
    StarShape(body, sigma, cur);
    var edges := Item(Star(body), sigma, cur).edges;
    path := Bracket(edges, edges, cur, cur + 1, inner, cur + 2, Item(Star(body), sigma, cur).last);
  }

  /** From the loop's entry to its far end, reading a concatenation of body words. */
  lemma {:induction false} StarComplete(body: RegExp, sigma: seq<char>, cur: nat, w: seq<char>) returns (path: seq<Edge>)
    requires NoStarStar(body) && !body.Star? && LangStar(body, sigma, w)
    ensures Path(Item(Star(body), sigma, cur).edges, cur + 1, path, cur + 2) && Word(path) == w
    decreases body, 1, |w|
  {
    hide Item, Step, Lang, Word, NoStarStar, Path;
    StarShape(body, sigma, cur);
    var edges := Item(Star(body), sigma, cur).edges;
    if w == [] {
      path := [Edge(cur + 1, EPS, cur + 2)];
      SingleEdge(edges, path[0]);
    } else {
      var k :| 0 < k <= |w| && Lang(body, sigma, w[..k]) && LangStar(body, sigma, w[k..]);
      var a := StepComplete(body, sigma, cur + 1, cur + 2, w[..k]);
      var b := StarComplete(body, sigma, cur, w[k..]);
      var back := Edge(cur + 2, EPS, cur + 1);
      PathMono(Step(body, sigma, cur + 1, cur + 2).edges, edges, cur + 1, a, cur + 2);
      SingleEdge(edges, back);
      PathConcat(edges, cur + 1, a, cur + 2, [back], cur + 1);
      PathConcat(edges, cur + 1, a + [back], cur + 1, b, cur + 2);
      path := a + [back] + b;
      assert w == w[..k] + [] + w[k..];
    }
  }

  // ---------------------------------------------------------------- theorems

  /** Without a star directly on a star, the automaton accepts exactly the language of the tree. */
  lemma StepExact(r: RegExp, sigma: seq<char>, s: nat, f: nat, w: seq<char>)
    requires s < f && NoStarStar(r) && !r.Star?
    ensures Accepts(Step(r, sigma, s, f).edges, s, w, f) <==> Lang(r, sigma, w)
  {
    if Accepts(Step(r, sigma, s, f).edges, s, w, f) {
      var path :| Path(Step(r, sigma, s, f).edges, s, path, f) && Word(path) == w;
      StepSound(r, sigma, s, f, path);
    }
    if Lang(r, sigma, w) {
      var path := StepComplete(r, sigma, s, f, w);
    }
  }

  lemma {:induction false} AsBuiltSame(r: RegExp, sigma: seq<char>, s: nat, f: nat)
    requires s < f && !r.Star?
    ensures NoStarStar(AsBuilt(r)) && !AsBuilt(r).Star?
    ensures Step(AsBuilt(r), sigma, s, f) == Step(r, sigma, s, f)
    decreases r, 0
  {
    match r
    case Group(alts) => AsBuiltAltsSame(alts, sigma, s, f, f);
    case _ =>
  }

  lemma {:induction false} AsBuiltAltsSame(alts: seq<Alt>, sigma: seq<char>, s: nat, f: nat, cur: nat)
    requires s < f
    ensures |AsBuiltAlts(alts)| == |alts|
    ensures forall i :: 0 <= i < |alts| ==> NoStarStarItems(AsBuiltAlts(alts)[i].items)
    ensures Alts(AsBuiltAlts(alts), sigma, s, f, cur) == Alts(alts, sigma, s, f, cur)
    decreases alts, 2
  {
    if alts != [] {
      AsBuiltItemsSame(alts[0].items, sigma, cur + 1);
      AsBuiltAltsSame(alts[1..], sigma, s, f, Items(alts[0].items, sigma, cur + 1).last);
      assert AsBuiltAlts(alts)[1..] == AsBuiltAlts(alts[1..]);
    }
  }

  lemma {:induction false} AsBuiltItemsSame(items: seq<RegExp>, sigma: seq<char>, cur: nat)
    ensures |AsBuiltItems(items)| == |items| && NoStarStarItems(AsBuiltItems(items))
    ensures Items(AsBuiltItems(items), sigma, cur) == Items(items, sigma, cur)
    decreases items, 2
  {
    if items != [] {
      AsBuiltItemSame(items[0], sigma, cur);
      AsBuiltItemsSame(items[1..], sigma, Item(items[0], sigma, cur).last);
      assert AsBuiltItems(items)[1..] == AsBuiltItems(items[1..]);
    }
  }

  lemma {:induction false} AsBuiltItemSame(r: RegExp, sigma: seq<char>, cur: nat)
    ensures NoStarStar(AsBuilt(r)) && Item(AsBuilt(r), sigma, cur) == Item(r, sigma, cur)
    decreases r, 1
  {
    match r
    case Group(_) => AsBuiltSame(r, sigma, cur + 1, cur + 2);
    case Star(body) =>
      if body.Star? {
        assert Fan([], cur + 1, cur + 2) == [];
      } else {
        AsBuiltSame(body, sigma, cur + 1, cur + 2);
      }
    case _ =>
  }

  /** For EVERY tree: what StepRegExp builds accepts exactly the language of AsBuilt(r). */
  lemma StepAccepts(r: RegExp, sigma: seq<char>, s: nat, f: nat, w: seq<char>)
    requires s < f && !r.Star?
    ensures Accepts(Step(r, sigma, s, f).edges, s, w, f) <==> Lang(AsBuilt(r), sigma, w)
  {
    AsBuiltSame(r, sigma, s, f);
    StepExact(AsBuilt(r), sigma, s, f, w);
  }

  /** The tree of the pattern e** for an element e. */
  function DoubleStar(e: RegExp): RegExp { Group([Alt([Star(Star(e))])]) }

  lemma OnlyElement(x: RegExp, sigma: seq<char>, w: seq<char>)
    ensures Lang(Group([Alt([x])]), sigma, w) <==> Lang(x, sigma, w)
  {
    var alts, items := [Alt([x])], [x];
    assert items[1..] == [] && w[..|w|] == w && w[|w|..] == [];
    assert LangSeq(items, sigma, w) <==> Lang(x, sigma, w) by {
      if LangSeq(items, sigma, w) {
        var k :| 0 <= k <= |w| && Lang(items[0], sigma, w[..k]) && LangSeq(items[1..], sigma, w[k..]);
        assert w[k..] == [] && w[..k] == w;
      }
      assert Lang(x, sigma, w) ==> Lang(items[0], sigma, w[..|w|]) && LangSeq(items[1..], sigma, w[|w|..]);
    }
    assert alts[0].items == items;
  }

  lemma StarHasWord(body: RegExp, sigma: seq<char>, w: seq<char>) returns (u: seq<char>)
    requires w != [] && LangStar(body, sigma, w)
    ensures u != [] && Lang(body, sigma, u)
  {
    var k :| 0 < k <= |w| && Lang(body, sigma, w[..k]) && LangStar(body, sigma, w[k..]);
    u := w[..k];
  }

  lemma StarOne(body: RegExp, sigma: seq<char>, w: seq<char>)
    requires Lang(body, sigma, w)
    ensures LangStar(body, sigma, w)
  {
    StarCons(body, sigma, w, []);
    assert w + [] == w;
  }

  lemma DoubleStarLang(e: RegExp, sigma: seq<char>, w: seq<char>)
    ensures Lang(DoubleStar(e), sigma, w) <==> LangStar(Star(e), sigma, w)
    ensures Accepts(Step(DoubleStar(e), sigma, 0, 1).edges, 0, w, 1) <==> w == []
  {
    StepAccepts(DoubleStar(e), sigma, 0, 1, w);
    OnlyElement(Star(Star(e)), sigma, w);
    var empty := SetChr([]);
    AsBuiltOnly(Star(Star(e)));
    OnlyElement(Star(empty), sigma, w);
    if w != [] && LangStar(empty, sigma, w) {
      var u := StarHasWord(empty, sigma, w);
    }
  }

  lemma AsBuiltOnly(x: RegExp)
    ensures AsBuilt(Group([Alt([x])])) == Group([Alt([AsBuilt(x)])])
  {
    var alts, items := [Alt([x])], [x];
    assert alts[1..] == [] && items[1..] == [];
    assert AsBuiltItems(items) == [AsBuilt(x)] + AsBuiltItems([]) == [AsBuilt(x)];
    assert AsBuiltAlts(alts) == [Alt(AsBuiltItems(alts[0].items))] + AsBuiltAlts([]) == [Alt(AsBuiltItems(items))];
  }

  /** The automaton for the root r, from state 0 to state 1, accepts what r means. */
  ghost predicate BuiltRight(r: RegExp, sigma: seq<char>) {
    forall w :: Accepts(Step(r, sigma, 0, 1).edges, 0, w, 1) <==> Lang(r, sigma, w)
  }

  ghost predicate OnlyEmpty(e: RegExp, sigma: seq<char>) { forall w :: Lang(e, sigma, w) ==> w == [] }

  lemma DoubleStarWrong(e: RegExp, sigma: seq<char>, w: seq<char>)
    requires w != [] && Lang(e, sigma, w)
    ensures !BuiltRight(DoubleStar(e), sigma)
  {
    StarOne(e, sigma, w);
    StarOne(Star(e), sigma, w);
    DoubleStarLang(e, sigma, w);
  }

  lemma DoubleStarRight(e: RegExp, sigma: seq<char>)
    requires OnlyEmpty(e, sigma)
    ensures BuiltRight(DoubleStar(e), sigma)
  {
    forall w ensures Accepts(Step(DoubleStar(e), sigma, 0, 1).edges, 0, w, 1) <==> Lang(DoubleStar(e), sigma, w) {
      DoubleStarLang(e, sigma, w);
      if LangStar(Star(e), sigma, w) && w != [] {
        var u := StarHasWord(Star(e), sigma, w);
        var v := StarHasWord(e, sigma, u);
      }
    }
  }

  /** e** is matched correctly if and only if e matches no word but the empty one. */
  lemma DoubleStarExactIff(e: RegExp, sigma: seq<char>)
    ensures BuiltRight(DoubleStar(e), sigma) <==> OnlyEmpty(e, sigma)
  {
    if OnlyEmpty(e, sigma) {
      DoubleStarRight(e, sigma);
    } else {
      var w :| Lang(e, sigma, w) && w != [];
      DoubleStarWrong(e, sigma, w);
    }
  }

  /** The pattern a** does not match "a". */
  lemma DoubleStarFails()
    ensures !Accepts(Step(DoubleStar(Chr('a')), [], 0, 1).edges, 0, "a", 1) && Lang(DoubleStar(Chr('a')), [], "a")
  {
    DoubleStarLang(Chr('a'), [], "a");
    StarOne(Chr('a'), [], "a");
    StarOne(Star(Chr('a')), [], "a");
  }
}

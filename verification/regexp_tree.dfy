/** Regular-expression trees, the NFA edges that StepRegExp of PL/hw1/regexp_matcher.cc
    emits for them, and what both of them mean. */
module RegExpTree {

  const EPS: char := '\0'

  /** RE_REGEXP and RE_GROUP are both Group. A set holds the primitive values of its
      elements, and these are NUL for an element that is not a plain character. */
  datatype RegExp =
    | Chr(c: char)
    | AnyChr
    | SetChr(cs: seq<char>)
    | Group(alts: seq<Alt>)
    | Star(body: RegExp)

  /** One alternative: the elements between two '|'. */
  datatype Alt = Alt(items: seq<RegExp>)

  datatype Edge = Edge(src: nat, on: char, dst: nat)

  /** The edges pushed by one call, and the id it returns. */
  datatype Emit = Emit(edges: seq<Edge>, last: nat)

  // ---------------------------------------------------------------- what is emitted

  function Fan(cs: seq<char>, s: nat, f: nat): seq<Edge> {
    seq(|cs|, i requires 0 <= i < |cs| => Edge(s, cs[i], f))
  }

  /** As an element, a set takes two ids, and an epsilon edge for every character. */
  function FanStep(cs: seq<char>, cur: nat): seq<Edge> {
    if cs == [] then []
    else FanStep(cs[..|cs| - 1], cur) + [Edge(cur, cs[|cs| - 1], cur + 1), Edge(cur + 1, EPS, cur + 2)]
  }

  function Step(r: RegExp, sigma: seq<char>, s: nat, f: nat): Emit
    decreases r, 0
  {
    match r
    case Group(alts) => Alts(alts, sigma, s, f, f)
    case Chr(c) => Emit([Edge(s, c, f)], f)
    case AnyChr => Emit(Fan(sigma, s, f), f)
    case SetChr(cs) => Emit(Fan(cs, s, f), f)
    case Star(_) => Emit([], f)
  }

  function Alts(alts: seq<Alt>, sigma: seq<char>, s: nat, f: nat, cur: nat): Emit
    decreases alts, 2
  {
    if alts == [] then Emit([], cur)
    else
      var e := Items(alts[0].items, sigma, cur + 1);
      var rest := Alts(alts[1..], sigma, s, f, e.last);
      Emit([Edge(s, EPS, cur + 1)] + e.edges + [Edge(e.last, EPS, f)] + rest.edges, rest.last)
  }

  function Items(items: seq<RegExp>, sigma: seq<char>, cur: nat): Emit
    decreases items, 2
  {
    if items == [] then Emit([], cur)
    else
      var e := Item(items[0], sigma, cur);
      var rest := Items(items[1..], sigma, e.last);
      Emit(e.edges + rest.edges, rest.last)
  }

  function Item(r: RegExp, sigma: seq<char>, cur: nat): Emit
    decreases r, 1
  {
    match r
    case Chr(c) => Emit([Edge(cur, c, cur + 1)], cur + 1)
    case AnyChr => Emit(FanStep(sigma, cur), cur + 2)
    case SetChr(cs) => Emit(FanStep(cs, cur), cur + 2)
    case Group(_) =>
      var e := Step(r, sigma, cur + 1, cur + 2);
      Emit([Edge(cur, EPS, cur + 1)] + e.edges + [Edge(cur + 2, EPS, e.last + 1)], e.last + 1)
    case Star(body) =>
      var e := Step(body, sigma, cur + 1, cur + 2);
      Emit([Edge(cur, EPS, cur + 1)] + e.edges + LoopEdges(cur, e.last), e.last + 1)
  }

  function LoopEdges(cur: nat, last: nat): seq<Edge> {
    [Edge(cur + 1, EPS, cur + 2), Edge(cur + 2, EPS, cur + 1), Edge(cur + 2, EPS, last + 1)]
  }

  // ---------------------------------------------------------------- what the edges accept

  ghost predicate Path(edges: seq<Edge>, p: nat, path: seq<Edge>, q: nat)
    decreases path
  {
    if path == [] then p == q
    else path[0] in edges && path[0].src == p && Path(edges, path[0].dst, path[1..], q)
  }

  function Sym(c: char): seq<char> { if c == EPS then [] else [c] }

  function Word(path: seq<Edge>): seq<char> {
    if path == [] then [] else Sym(path[0].on) + Word(path[1..])
  }

  ghost predicate Accepts(edges: seq<Edge>, p: nat, w: seq<char>, q: nat) {
    exists path :: Path(edges, p, path, q) && Word(path) == w
  }

  // ---------------------------------------------------------------- what the tree means

  ghost predicate OneOf(cs: seq<char>, w: seq<char>) { exists i :: 0 <= i < |cs| && w == Sym(cs[i]) }

  ghost predicate Lang(r: RegExp, sigma: seq<char>, w: seq<char>)
    decreases r, |w|, 0
  {
    match r
    case Chr(c) => w == Sym(c)
    case AnyChr => OneOf(sigma, w)
    case SetChr(cs) => OneOf(cs, w)
    case Group(alts) => exists i :: 0 <= i < |alts| && LangSeq(alts[i].items, sigma, w)
    case Star(body) => LangStar(body, sigma, w)
  }

  /** The concatenation of the languages of `items`. */
  ghost predicate LangSeq(items: seq<RegExp>, sigma: seq<char>, w: seq<char>)
    decreases items, |w|, 1
  {
    if items == [] then w == []
    else exists k :: 0 <= k <= |w| && Lang(items[0], sigma, w[..k]) && LangSeq(items[1..], sigma, w[k..])
  }

  ghost predicate LangStar(body: RegExp, sigma: seq<char>, w: seq<char>)
    decreases body, |w|, 1
  {
    w == [] || exists k :: 0 < k <= |w| && Lang(body, sigma, w[..k]) && LangStar(body, sigma, w[k..])
  }

  /** No star is applied directly to a star. */
  predicate NoStarStar(r: RegExp)
    decreases r, 0
  {
    match r
    case Star(body) => !body.Star? && NoStarStar(body)
    case Group(alts) => forall i :: 0 <= i < |alts| ==> NoStarStarItems(alts[i].items)
    case _ => true
  }

  predicate NoStarStarItems(items: seq<RegExp>)
    decreases items, 1
  {
    forall j :: 0 <= j < |items| ==> NoStarStar(items[j])
  }

  /** The tree whose automaton really is built: StepRegExp has no case for a star at the top,
      so a star over a star loops over nothing. */
  function AsBuilt(r: RegExp): RegExp
    decreases r, 0
  {
    match r
    case Star(body) => if body.Star? then Star(SetChr([])) else Star(AsBuilt(body))
    case Group(alts) => Group(AsBuiltAlts(alts))
    case _ => r
  }

  function AsBuiltAlts(alts: seq<Alt>): seq<Alt>
    decreases alts, 1
  {
    if alts == [] then [] else [Alt(AsBuiltItems(alts[0].items))] + AsBuiltAlts(alts[1..])
  }

  function AsBuiltItems(items: seq<RegExp>): seq<RegExp>
    decreases items, 1
  {
    if items == [] then [] else [AsBuilt(items[0])] + AsBuiltItems(items[1..])
  }
}

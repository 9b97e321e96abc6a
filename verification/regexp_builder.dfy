/** StepRegExp and the accept-state loop of BuildRegExpMatcher, as they are written. */
module RegExpBuilder {
  import opened RegExpTree
  import opened RegExpPaths
  import opened RegExpLanguage

  /** The vector that all calls of StepRegExp push their edges into. */
  class FsaElements {
    var edges: seq<Edge>

    constructor ()
      ensures edges == []
    {
      edges := [];
    }

    method PushBack(e: Edge)
      modifies this
      ensures edges == old(edges) + [e]
    {
      edges := edges + [e];
    }

    /** The loop over the characters of a set (or of the alphabet) inside an alternative. */
    method PushFanStep(cs: seq<char>, cur: nat)
      modifies this
      ensures edges == old(edges) + FanStep(cs, cur)
    {
      for k := 0 to |cs|
        invariant edges == old(edges) + FanStep(cs[..k], cur)
      {
        PushBack(Edge(cur, cs[k], cur + 1));
        PushBack(Edge(cur + 1, EPS, cur + 2));
        assert cs[..k + 1][..k] == cs[..k];
      }
      assert cs[..|cs|] == cs;
    }

    /** The same loop at the top of a call. */
    method PushFan(cs: seq<char>, s: nat, f: nat)
      modifies this
      ensures edges == old(edges) + Fan(cs, s, f)
    {
      for k := 0 to |cs|
        invariant edges == old(edges) + Fan(cs, s, f)[..k]
      {
        PushBack(Edge(s, cs[k], f));
      }
    }

    method StepRegExp(r: RegExp, sigma: seq<char>, s: nat, f: nat) returns (curId: nat)
      modifies this
      ensures edges == old(edges) + Step(r, sigma, s, f).edges
      ensures curId == Step(r, sigma, s, f).last
      decreases r, 0
    {
      curId := f;
      match r {
        case Group(alts) =>
          ghost var all := Alts(alts, sigma, s, f, f);
          for i := 0 to |alts|
            invariant var rest := Alts(alts[i..], sigma, s, f, curId);
                      old(edges) + all.edges == edges + rest.edges && all.last == rest.last
          {
            curId := StepAlternative(alts[i].items, sigma, s, f, curId);
            assert alts[i..][1..] == alts[i + 1..];
          }
        case Chr(c) => PushBack(Edge(s, c, f));
        case AnyChr => PushFan(sigma, s, f);
        case SetChr(cs) => PushFan(cs, s, f);
        case Star(_) =>
      }
    }

    /** The body of the loop over the alternatives. */
    method StepAlternative(items: seq<RegExp>, sigma: seq<char>, s: nat, f: nat, cur: nat) returns (curId: nat)
      modifies this
      ensures var e := Items(items, sigma, cur + 1);
              curId == e.last
              && edges == old(edges) + ([Edge(s, EPS, cur + 1)] + e.edges + [Edge(e.last, EPS, f)])
      decreases items
    {
      curId := cur + 1;
      PushBack(Edge(s, EPS, curId));
      ghost var before := edges;
      ghost var all := Items(items, sigma, cur + 1);
      for j := 0 to |items|
        invariant var rest := Items(items[j..], sigma, curId);
                  before + all.edges == edges + rest.edges && all.last == rest.last
      {
        curId := StepElement(items[j], sigma, curId);
        assert items[j..][1..] == items[j + 1..];
      }
      assert before + all.edges == edges;
      PushBack(Edge(curId, EPS, f));
      assert edges == old(edges) + [Edge(s, EPS, cur + 1)] + all.edges + [Edge(curId, EPS, f)];
    }

    /** The chain of cases over the type of one element. */
    method StepElement(r: RegExp, sigma: seq<char>, cur: nat) returns (curId: nat)
      modifies this
      ensures edges == old(edges) + Item(r, sigma, cur).edges && curId == Item(r, sigma, cur).last
      decreases r, 1
    {
      match r {
        case Chr(c) =>
          PushBack(Edge(cur, c, cur + 1));
          curId := cur + 1;
        case AnyChr =>
          PushFanStep(sigma, cur);
          curId := cur + 2;
        case SetChr(cs) =>
          PushFanStep(cs, cur);
          curId := cur + 2;
        case Group(_) =>
          PushBack(Edge(cur, EPS, cur + 1));
          curId := StepRegExp(r, sigma, cur + 1, cur + 2);
          PushBack(Edge(cur + 2, EPS, curId + 1));
          curId := curId + 1;
        case Star(body) =>
          PushBack(Edge(cur, EPS, cur + 1));
          curId := StepRegExp(body, sigma, cur + 1, cur + 2);
          PushBack(Edge(cur + 1, EPS, cur + 2));
          PushBack(Edge(cur + 2, EPS, cur + 1));
          PushBack(Edge(cur + 2, EPS, curId + 1));
          curId := curId + 1;
      }
    }
  }

  // ---------------------------------------------------------------- accepting states

  /** A set that holds the target of an epsilon edge holds its source too. */
  ghost predicate EpsClosed(edges: seq<Edge>, acc: set<nat>, n: nat)
    requires n <= |edges|
  {
    forall i :: 0 <= i < n && edges[i].on == EPS && edges[i].dst in acc ==> edges[i].src in acc
  }

  lemma {:induction false} ClosedReaches(edges: seq<Edge>, acc: set<nat>, q: nat, path: seq<Edge>)
    requires EpsClosed(edges, acc, |edges|) && 1 in acc && Path(edges, q, path, 1) && Word(path) == []
    ensures q in acc
    decreases path
  {
    if path != [] {
      assert path[0].on == EPS;
      EpsFirst(path);
      ClosedReaches(edges, acc, path[0].dst, path[1..]);
    }
  }

  lemma EpsStep(edges: seq<Edge>, e: Edge)
    requires e in edges && e.on == EPS && Accepts(edges, e.dst, [], 1)
    ensures Accepts(edges, e.src, [], 1)
  {
    var path :| Path(edges, e.dst, path, 1) && Word(path) == [];
    assert ([e] + path)[1..] == path;
    EpsFirst([e] + path);
  }

  lemma AcceptsHere(edges: seq<Edge>, q: nat)
    ensures Accepts(edges, q, [], q)
  {
    assert Path(edges, q, [], q) && Word([]) == [];
  }

  lemma ClosedIsAll(edges: seq<Edge>, acc: set<nat>, q: nat)
    requires EpsClosed(edges, acc, |edges|) && 1 in acc && Accepts(edges, q, [], 1)
    ensures q in acc
  {
    var path :| Path(edges, q, path, 1) && Word(path) == [];
    ClosedReaches(edges, acc, q, path);
  }

  /** The do-while loop of BuildRegExpMatcher: exactly the states that reach state 1 by epsilon edges. */
  method AcceptStates(edges: seq<Edge>) returns (acc: set<nat>)
    ensures forall q :: q in acc <==> Accepts(edges, q, [], 1)
  {
    hide Accepts;
    acc := {1};
    ghost var all := {1} + set e | e in edges :: e.src;
    AcceptsHere(edges, 1);
    var statesCount := 0;
    while statesCount != |acc|
      invariant 1 in acc && acc <= all && statesCount <= |acc|
      invariant forall q :: q in acc ==> Accepts(edges, q, [], 1)
      invariant statesCount == |acc| ==> EpsClosed(edges, acc, |edges|)
      decreases |all| + 1 - statesCount
    {
      Bounded(acc, all);
      statesCount := |acc|;
      ghost var was := acc;
      for i := 0 to |edges|
        invariant was <= acc <= all && statesCount <= |acc|
        invariant forall q :: q in acc ==> Accepts(edges, q, [], 1)
        invariant if acc == was then EpsClosed(edges, acc, i) else statesCount < |acc|
      {
        if edges[i].on == EPS && edges[i].dst in acc {
          EpsStep(edges, edges[i]);
          if edges[i].src !in acc { assert |acc + {edges[i].src}| == |acc| + 1; }
          acc := acc + {edges[i].src};
        }
      }
    }
    forall q | Accepts(edges, q, [], 1) ensures q in acc { ClosedIsAll(edges, acc, q); }
  }

  lemma {:induction false} Bounded(a: set<nat>, b: set<nat>)
    requires a <= b
    ensures |a| <= |b|
    decreases a
  {
    if x :| x in a { Bounded(a - {x}, b - {x}); }
  }

  /** Some run over w from state 0 stops in one of the states of acc. */
  ghost predicate Recognises(edges: seq<Edge>, acc: set<nat>, w: seq<char>) {
    exists q :: q in acc && Accepts(edges, 0, w, q)
  }

  lemma RecognisesIffReach(edges: seq<Edge>, acc: set<nat>, w: seq<char>)
    requires forall q :: q in acc <==> Accepts(edges, q, [], 1)
    ensures Recognises(edges, acc, w) <==> Accepts(edges, 0, w, 1)
  {
    AcceptsHere(edges, 1);
    if Recognises(edges, acc, w) {
      var q :| q in acc && Accepts(edges, 0, w, q);
      var a :| Path(edges, 0, a, q) && Word(a) == w;
      var b :| Path(edges, q, b, 1) && Word(b) == [];
      PathConcat(edges, 0, a, q, b, 1);
      assert w + [] == w;
    }
  }

  /** What a correct matcher for the built tree has to accept. */
  ghost predicate Matches(root: RegExp, sigma: seq<char>, w: seq<char>) { Lang(AsBuilt(root), sigma, w) }

  /** StepRegExp on the root from state 0 to state 1, and its accepting states: together they
      recognise exactly the language of the tree that is built. */
  method BuildNfa(root: RegExp, sigma: seq<char>) returns (edges: seq<Edge>, acc: set<nat>)
    requires root.Group?
    ensures forall w :: Recognises(edges, acc, w) <==> Matches(root, sigma, w)
    ensures NoStarStar(root) ==> forall w :: Recognises(edges, acc, w) <==> Lang(root, sigma, w)
  {
    var elements := new FsaElements();
    var last := elements.StepRegExp(root, sigma, 0, 1);
    edges := elements.edges;
    assert edges == Step(root, sigma, 0, 1).edges;
    acc := AcceptStates(edges);
    forall w ensures Recognises(edges, acc, w) <==> Matches(root, sigma, w) {
      hide Recognises, Accepts, Step;
      RecognisesIffReach(edges, acc, w);
      StepAccepts(root, sigma, 0, 1, w);
    }
    if NoStarStar(root) {
      forall w ensures Recognises(edges, acc, w) <==> Lang(root, sigma, w) {
        hide Recognises, Accepts, Step;
        RecognisesIffReach(edges, acc, w);
        StepExact(root, sigma, 0, 1, w);
      }
    }
  }
}

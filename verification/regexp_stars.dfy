/** Trees with stars directly on stars whose automata are right all the same. */
module RegExpStars {
  import opened RegExpTree
  import opened RegExpLanguage

  /** Each star that stands on a star stands on one that matches nothing but the empty word. */
  ghost predicate Harmless(r: RegExp, sigma: seq<char>)
    decreases r, 0
  {
    match r
    case Star(body) => if body.Star? then OnlyEmpty(body, sigma) else Harmless(body, sigma)
    case Group(alts) => forall i :: 0 <= i < |alts| ==> HarmlessItems(alts[i].items, sigma)
    case _ => true
  }

  ghost predicate HarmlessItems(items: seq<RegExp>, sigma: seq<char>)
    decreases items, 1
  {
    forall j :: 0 <= j < |items| ==> Harmless(items[j], sigma)
  }

  ghost predicate SameLang(a: RegExp, b: RegExp, sigma: seq<char>) { forall w :: Lang(a, sigma, w) <==> Lang(b, sigma, w) }

  lemma {:induction false} StarSame(a: RegExp, b: RegExp, sigma: seq<char>, w: seq<char>)
    requires SameLang(a, b, sigma)
    ensures LangStar(a, sigma, w) <==> LangStar(b, sigma, w)
    decreases |w|
  {
    forall k | 0 < k <= |w| ensures LangStar(a, sigma, w[k..]) <==> LangStar(b, sigma, w[k..]) {
      StarSame(a, b, sigma, w[k..]);
    }
    assert forall k :: 0 < k <= |w| ==> (Lang(a, sigma, w[..k]) <==> Lang(b, sigma, w[..k]));
  }

  /** A star over a star without words, and what is built for it: both match the empty word only. */
  lemma EmptyStars(body: RegExp, sigma: seq<char>)
    requires OnlyEmpty(body, sigma)
    ensures SameLang(Star(SetChr([])), Star(body), sigma)
  {
    forall w ensures Lang(Star(SetChr([])), sigma, w) <==> Lang(Star(body), sigma, w) {
      if w != [] && LangStar(body, sigma, w) { var u := StarHasWord(body, sigma, w); }
      if w != [] && LangStar(SetChr([]), sigma, w) { var u := StarHasWord(SetChr([]), sigma, w); }
    }
  }

  lemma {:induction false} HarmlessSame(r: RegExp, sigma: seq<char>)
    requires Harmless(r, sigma)
    ensures SameLang(AsBuilt(r), r, sigma)
    decreases r, 0
  {
    match r
    case Star(body) =>
      if body.Star? {
        EmptyStars(body, sigma);
      } else {
        HarmlessSame(body, sigma);
        forall w ensures Lang(AsBuilt(r), sigma, w) <==> Lang(r, sigma, w) { StarSame(AsBuilt(body), body, sigma, w); }
      }
    case Group(alts) =>
      forall w ensures Lang(AsBuilt(r), sigma, w) <==> Lang(r, sigma, w) { AltsSame(alts, sigma, w); }
    case _ =>
  }

  ghost predicate SomeAlt(alts: seq<Alt>, sigma: seq<char>, w: seq<char>) {
    exists i :: 0 <= i < |alts| && LangSeq(alts[i].items, sigma, w)
  }

  lemma {:induction false} AltsSame(alts: seq<Alt>, sigma: seq<char>, w: seq<char>)
    requires forall i :: 0 <= i < |alts| ==> HarmlessItems(alts[i].items, sigma)
    ensures SomeAlt(AsBuiltAlts(alts), sigma, w) <==> SomeAlt(alts, sigma, w)
    decreases alts, 1
  {
    if alts != [] {
      ItemsSame(alts[0].items, sigma, w);
      AltsSame(alts[1..], sigma, w);
      var built := AsBuiltAlts(alts);
      assert built[0] == Alt(AsBuiltItems(alts[0].items)) && built[1..] == AsBuiltAlts(alts[1..]);
      FirstOrLater(alts, sigma, w);
      FirstOrLater(built, sigma, w);
    }
  }

  lemma FirstOrLater(alts: seq<Alt>, sigma: seq<char>, w: seq<char>)
    requires alts != []
    ensures SomeAlt(alts, sigma, w) <==> LangSeq(alts[0].items, sigma, w) || SomeAlt(alts[1..], sigma, w)
  {
    if i :| 0 <= i < |alts| && LangSeq(alts[i].items, sigma, w) {
      if i > 0 { assert alts[1..][i - 1] == alts[i]; }
    }
    if i :| 0 <= i < |alts[1..]| && LangSeq(alts[1..][i].items, sigma, w) { assert alts[i + 1] == alts[1..][i]; }
  }

  lemma {:induction false} ItemsSame(items: seq<RegExp>, sigma: seq<char>, w: seq<char>)
    requires HarmlessItems(items, sigma)
    ensures LangSeq(AsBuiltItems(items), sigma, w) <==> LangSeq(items, sigma, w)
    decreases items, 1
  {
    if items != [] {
      HarmlessSame(items[0], sigma);
      var built := AsBuiltItems(items);
      assert built[0] == AsBuilt(items[0]) && built[1..] == AsBuiltItems(items[1..]);
      forall k | 0 <= k <= |w|
        ensures Lang(built[0], sigma, w[..k]) <==> Lang(items[0], sigma, w[..k])
        ensures LangSeq(built[1..], sigma, w[k..]) <==> LangSeq(items[1..], sigma, w[k..])
      {
        ItemsSame(items[1..], sigma, w[k..]);
      }
    }
  }

  /** Every tree in which a starred star has no word but the empty one is built right. */
  lemma HarmlessBuiltRight(r: RegExp, sigma: seq<char>)
    requires !r.Star? && Harmless(r, sigma)
    ensures BuiltRight(r, sigma)
  {
    HarmlessSame(r, sigma);
    forall w ensures Accepts(Step(r, sigma, 0, 1).edges, 0, w, 1) <==> Lang(r, sigma, w) {
      StepAccepts(r, sigma, 0, 1, w);
    }
  }
}

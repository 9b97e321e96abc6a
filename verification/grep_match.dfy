/** The matcher of OS/xv6-public/grep.c: match, matchhere and matchstar, against the language of the pattern. */
module GrepMatch {

  // ---------------------------------------------------------------- patterns

  datatype Atom = One(c: char) | Star(c: char) | End

  /** How a pattern is read: "c*" before anything else, "$" as an anchor only in the last place. */
  function Parse(re: string): (atoms: seq<Atom>)
    ensures |atoms| <= |re|
  {
    if re == "" then []
    else if |re| > 1 && re[1] == '*' then [Star(re[0])] + Parse(re[2..])
    else if re == "$" then [End]
    else [One(re[0])] + Parse(re[1..])
  }

  predicate Fits(c: char, x: char) { c == '.' || c == x }

  /** The word w, followed by `after`, is in the language of the atoms. */
  predicate Spells(atoms: seq<Atom>, w: string, after: string) {
    if atoms == [] then w == ""
    else match atoms[0]
      case One(c) => w != "" && Fits(c, w[0]) && Spells(atoms[1..], w[1..], after)
      case Star(c) => exists k :: 0 <= k <= |w| && All(c, w[..k]) && Spells(atoms[1..], w[k..], after)
      case End => w == "" && after == "" && Spells(atoms[1..], "", "")
  }

  predicate All(c: char, w: string) { forall i :: 0 <= i < |w| ==> Fits(c, w[i]) }

  /** Some prefix of the text is in the language. */
  predicate Here(re: string, text: string) { AtomsHere(Parse(re), text) }

  predicate AtomsHere(atoms: seq<Atom>, text: string) {
    exists n :: 0 <= n <= |text| && Spells(atoms, text[..n], text[n..])
  }

  /** Anchored by '^', or at the beginning of some suffix of the text, the empty one included. */
  predicate Found(re: string, text: string) {
    if re != "" && re[0] == '^' then Here(re[1..], text)
    else exists i :: 0 <= i <= |text| && Here(re, text[i..])
  }

  /** A run of characters that fit c, and then the rest. */
  predicate StarHere(c: char, re: string, text: string) {
    exists k :: 0 <= k <= |text| && All(c, text[..k]) && Here(re, text[k..])
  }

  // ---------------------------------------------------------------- the four cases of matchhere

  lemma HereEmpty(text: string)
    ensures Here("", text)
  {
    assert text[..0] == "";
    assert Spells([], text[..0], text[0..]);
  }

  /** A run of characters, each of which is c, or any if c is '.'. */
  lemma StarExact(c: char, re: string, text: string)
    ensures StarHere(c, re, text) <==>
              exists k :: 0 <= k <= |text| && (forall i :: 0 <= i < k ==> c == '.' || text[i] == c) && Here(re, text[k..])
  {
    forall k | 0 <= k <= |text| ensures All(c, text[..k]) <==> forall i :: 0 <= i < k ==> c == '.' || text[i] == c {
      assert forall i :: 0 <= i < k ==> text[..k][i] == text[i];
    }
    hide All, Here;
  }

  lemma HereStar(re: string, text: string)
    requires |re| > 1 && re[1] == '*'
    ensures Here(re, text) <==> StarHere(re[0], re[2..], text)
    ensures Here(re, text) <==>
              exists k :: 0 <= k <= |text| && (forall i :: 0 <= i < k ==> re[0] == '.' || text[i] == re[0]) && Here(re[2..], text[k..])
  {
    hide Here, StarHere, Fits;
    HereRun(re, text);
    StarExact(re[0], re[2..], text);
  }

  lemma HereRun(re: string, text: string)
    requires |re| > 1 && re[1] == '*'
    ensures Here(re, text) <==> StarHere(re[0], re[2..], text)
  {
    var atoms, rest := Parse(re), Parse(re[2..]);
    assert atoms == [Star(re[0])] + rest && atoms[1..] == rest;
    if Here(re, text) {
      var n :| 0 <= n <= |text| && Spells(atoms, text[..n], text[n..]);
      var k :| 0 <= k <= n && All(re[0], text[..n][..k]) && Spells(rest, text[..n][k..], text[n..]);
      assert text[..n][..k] == text[..k];
      assert text[..n][k..] == text[k..][..n - k] && text[n..] == text[k..][n - k..];
      assert Here(re[2..], text[k..]);
    }
    if StarHere(re[0], re[2..], text) {
      var k :| 0 <= k <= |text| && All(re[0], text[..k]) && Here(re[2..], text[k..]);
      var m :| 0 <= m <= |text[k..]| && Spells(rest, text[k..][..m], text[k..][m..]);
      var n := k + m;
      assert text[..n][..k] == text[..k];
      assert text[..n][k..] == text[k..][..m] && text[n..] == text[k..][m..];
      assert Spells(atoms, text[..n], text[n..]);
    }
  }

  lemma HereEnd(text: string)
    ensures Here("$", text) <==> text == ""
  {
    assert Parse("$") == [End] && [End][1..] == [];
    if text == "" { assert Spells([End], text[..0], text[0..]); }
  }

  lemma HereOne(re: string, text: string)
    requires re != "" && !(|re| > 1 && re[1] == '*') && re != "$"
    ensures Here(re, text) <==> text != "" && (re[0] == '.' || re[0] == text[0]) && Here(re[1..], text[1..])
  {
    var atoms, rest := Parse(re), Parse(re[1..]);
    assert atoms == [One(re[0])] + rest && atoms[1..] == rest;
    if Here(re, text) {
      var n :| 0 <= n <= |text| && Spells(atoms, text[..n], text[n..]);
      assert text[..n][1..] == text[1..][..n - 1] && text[n..] == text[1..][n - 1..];
    }
    if text != "" && Fits(re[0], text[0]) && Here(re[1..], text[1..]) {
      var m :| 0 <= m <= |text[1..]| && Spells(rest, text[1..][..m], text[1..][m..]);
      assert text[..m + 1][1..] == text[1..][..m] && text[m + 1..] == text[1..][m..];
      assert Spells(atoms, text[..m + 1], text[m + 1..]);
    }
  }

  lemma Stops(c: char, text: string, i: nat, k: nat)
    requires i < k <= |text| && !Fits(c, text[i])
    ensures !All(c, text[..k])
  {
    assert text[..k][i] == text[i];
  }

  // ---------------------------------------------------------------- the matcher

  /** match: the pattern and the text are C strings, without their NUL. */
  method Match(re: string, text: string) returns (found: bool)
    ensures found == Found(re, text)
    ensures re != "" && re[0] == '^' ==> found == Here(re[1..], text)
    ensures re == "" || re[0] != '^' ==> (found <==> exists i :: 0 <= i <= |text| && Here(re, text[i..]))
  {
    if re != "" && re[0] == '^' {
      found := MatchHere(re[1..], text);
      return;
    }
    var i := 0;
    while true
      invariant 0 <= i <= |text| && forall k :: 0 <= k < i ==> !Here(re, text[k..])
      decreases |text| - i
    {
      var here := MatchHere(re, text[i..]);
      if here {
        return true;
      }
      if i == |text| {
        return false;
      }
      i := i + 1;
    }
  }

  /** matchhere: the pattern at the beginning of the text. */
  method MatchHere(re: string, text: string) returns (found: bool)
    ensures found == Here(re, text)
    decreases |re|, 0
  {
    if re == "" {
      HereEmpty(text);
      return true;
    }
    if |re| > 1 && re[1] == '*' {
      HereStar(re, text);
      found := MatchStar(re[0], re[2..], text);
      return;
    }
    if re == "$" {
      HereEnd(text);
      return text == "";
    }
    HereOne(re, text);
    if text != "" && Fits(re[0], text[0]) {
      found := MatchHere(re[1..], text[1..]);
      return;
    }
    return false;
  }

  /** matchstar: any number of characters that fit c, and then the pattern. */
  method MatchStar(c: char, re: string, text: string) returns (found: bool)
    ensures found == StarHere(c, re, text)
    ensures found <==> exists k :: 0 <= k <= |text| && (forall i :: 0 <= i < k ==> c == '.' || text[i] == c) && Here(re, text[k..])
    decreases |re|, 1
  {
    StarExact(c, re, text);
    var i := 0;
    while true
      invariant 0 <= i <= |text| && All(c, text[..i])
      invariant forall k :: 0 <= k < i ==> !Here(re, text[k..])
      decreases |text| - i
    {
      var here := MatchHere(re, text[i..]);
      if here {
        return true;
      }
      if i == |text| || !Fits(c, text[i]) {
        forall k | i < k <= |text| ensures !All(c, text[..k]) { Stops(c, text, i, k); }
        return false;
      }
      i := i + 1;
    }
  }
}

/** Which texts OS/xv6-public/sh.c accepts, and the tree of each, without reference to the parser: tokens by
    where they begin and end, and a grammar over the tokens. */
module ShellSyntax {
  import opened ShellGrammar
  import opened ShellRoundTrip
  import opened ShellTokens

  // ---------------------------------------------------------------- tokens

  predicate Blank(c: char) { c in {' ', '\t', '\r', '\n', 11 as char} }

  predicate Sign(c: char) { c in {'<', '|', '>', '&', ';', '(', ')'} }

  /** The token behind position i: white space, then nothing, ">>", a sign, or a longest word; and white space. */
  ghost predicate IsToken(s: string, i: nat, t: Token) {
    var q, e := t.span.q, t.span.eq;
    && i <= q <= e <= t.next <= |s|
    && (forall k :: i <= k < q ==> Blank(s[k])) && (q < |s| ==> !Blank(s[q]))
    && (forall k :: e <= k < t.next ==> Blank(s[k])) && (t.next < |s| ==> !Blank(s[t.next]))
    && if q == |s| || s[q] == '\0' then t.kind == '\0' && e == q
       else if s[q] == '>' && q + 1 < |s| && s[q + 1] == '>' then t.kind == '+' && e == q + 2
       else if Sign(s[q]) then t.kind == s[q] && e == q + 1
       else t.kind == 'a' && q < e && (forall k :: q <= k < e ==> !Blank(s[k]) && !Sign(s[k]))
            && (e < |s| ==> Blank(s[e]) || Sign(s[e]))
  }

  /** What peek does: the cursor moves over white space, and one character is looked at. */
  ghost predicate IsPeek(s: string, i: nat, p: nat, toks: string, found: bool) {
    && i <= p <= |s| && (forall k :: i <= k < p ==> Blank(s[k])) && (p < |s| ==> !Blank(s[p]))
    && (found <==> p < |s| && s[p] != '\0' && s[p] in toks)
  }

  lemma PeekExact(s: string, i: nat, toks: string)
    requires i <= |s|
    ensures IsPeek(s, i, SkipWhite(s, i), toks, Peek(s, i, toks))
  {
    SkipExact(s, i);
  }

  lemma {:induction false} SkipExact(s: string, i: nat)
    requires i <= |s|
    ensures var p := SkipWhite(s, i); (forall k :: i <= k < p ==> Blank(s[k])) && (p < |s| ==> !Blank(s[p]))
    decreases |s| - i
  {
    if i < |s| && White(s[i]) { SkipExact(s, i + 1); }
  }

  lemma {:induction false} WordEndExact(s: string, i: nat)
    requires i <= |s|
    ensures var e := WordEnd(s, i);
            (forall k :: i <= k < e ==> !Blank(s[k]) && !Sign(s[k])) && (e < |s| ==> Blank(s[e]) || Sign(s[e]))
    decreases |s| - i
  {
    if i < |s| && !White(s[i]) && !Symbol(s[i]) { WordEndExact(s, i + 1); }
  }

  lemma TokenExact(s: string, i: nat)
    requires i <= |s|
    ensures IsToken(s, i, GetToken(s, i))
  {
    var q := SkipWhite(s, i);
    SkipExact(s, i);
    WordEndExact(s, q);
    SkipExact(s, GetToken(s, i).span.eq);
    hide SkipWhite;
    if q < |s| && !Blank(s[q]) && !Sign(s[q]) { assert WordEnd(s, q) == WordEnd(s, q + 1); }
    hide WordEnd;
  }

  lemma {:induction false} SkipTwice(s: string, i: nat)
    requires i <= |s|
    ensures SkipWhite(s, SkipWhite(s, i)) == SkipWhite(s, i)
  {
    var p := SkipWhite(s, i);
    assert p < |s| ==> !White(s[p]);
  }

  lemma Skipped(s: string, i: nat)
    requires i <= |s|
    ensures forall toks: string :: Peek(s, SkipWhite(s, i), toks) == Peek(s, i, toks)
    ensures GetToken(s, SkipWhite(s, i)) == GetToken(s, i)
  {
    hide SkipWhite, WordEnd;
    SkipTwice(s, i);
  }

  /** The kind of a token, and its text if it is a word. */
  datatype Tok = Tok(kind: char, word: string)

  /** All tokens from position i on. */
  function Toks(s: string, i: nat): seq<Tok>
    requires i <= |s|
    decreases |s| - i
  {
    var t := GetToken(s, i);
    if t.kind == NUL then [] else [Tok(t.kind, if t.kind == 'a' then Text(s, t.span) else "")] + Toks(s, t.next)
  }

  predicate Starts(ts: seq<Tok>, kinds: set<char>) { ts != [] && ts[0].kind in kinds }

  lemma ToksSkip(s: string, i: nat)
    requires i <= |s|
    ensures Toks(s, SkipWhite(s, i)) == Toks(s, i)
  {
    hide SkipWhite, GetToken;
    Skipped(s, i);
  }

  /** The first token is what gettoken returns, and the others are those behind it. */
  lemma NextTok(s: string, i: nat)
    requires i <= |s|
    ensures var t := GetToken(s, i);
            t.next <= |s| && (t.kind == NUL <==> Toks(s, i) == [])
            && (t.kind != NUL ==> Toks(s, i)[0].kind == t.kind && Toks(s, t.next) == Toks(s, i)[1..]
                                  && Toks(s, i)[0].word == if t.kind == 'a' then Text(s, t.span) else "")
  {
    hide GetToken;
  }

  /** What peek looks for, as kinds of tokens. */
  lemma PeekTok(s: string, i: nat)
    requires i <= |s| && NoNul(s)
    ensures Peek(s, i, "<>") <==> Starts(Toks(s, i), {'<', '>', '+'})
    ensures Peek(s, i, "|)&;") <==> Starts(Toks(s, i), {'|', ')', '&', ';'})
    ensures Peek(s, i, "(") <==> Starts(Toks(s, i), {'('})
    ensures Peek(s, i, ")") <==> Starts(Toks(s, i), {')'})
    ensures Peek(s, i, "|") <==> Starts(Toks(s, i), {'|'})
    ensures Peek(s, i, "&") <==> Starts(Toks(s, i), {'&'})
    ensures Peek(s, i, ";") <==> Starts(Toks(s, i), {';'})
    ensures SkipWhite(s, i) == |s| <==> Toks(s, i) == []
  {
    NextTok(s, i);
    hide SkipWhite, WordEnd, Toks;
  }

  // ---------------------------------------------------------------- the grammar

  /** '<', '>' or '+' for ">>", and the file. */
  datatype CRedir = CRedir(op: char, file: string)

  datatype CArg = CArg(word: string, redirs: seq<CRedir>)

  /** A block with redirections behind it; or redirections, and arguments with redirections behind each. */
  datatype CExec = Block(line: CLine, redirs: seq<CRedir>) | Simple(pre: seq<CRedir>, args: seq<CArg>)

  datatype CPipe = One(exec: CExec) | Piped(exec: CExec, rest: CPipe)

  /** A pipeline and so many '&'; then nothing more, or ';' and another line. */
  datatype CLine = Last(pipe: CPipe, amps: nat) | Then(pipe: CPipe, amps: nat, rest: CLine)

  // What is written.

  function FlatRedirs(rs: seq<CRedir>): seq<Tok> {
    if rs == [] then [] else [Tok(rs[0].op, ""), Tok('a', rs[0].file)] + FlatRedirs(rs[1..])
  }

  function FlatArgs(args: seq<CArg>): seq<Tok> {
    if args == [] then [] else [Tok('a', args[0].word)] + (FlatRedirs(args[0].redirs) + FlatArgs(args[1..]))
  }

  function FlatExec(e: CExec): seq<Tok> {
    match e
    case Block(line, redirs) => [Tok('(', "")] + (FlatLine(line) + ([Tok(')', "")] + FlatRedirs(redirs)))
    case Simple(pre, args) => FlatRedirs(pre) + FlatArgs(args)
  }

  function FlatPipe(p: CPipe): seq<Tok> {
    match p
    case One(e) => FlatExec(e)
    case Piped(e, rest) => FlatExec(e) + ([Tok('|', "")] + FlatPipe(rest))
  }

  function Amps(n: nat): seq<Tok> { seq(n, _ => Tok('&', "")) }

  function FlatLine(l: CLine): seq<Tok> {
    match l
    case Last(p, n) => FlatPipe(p) + Amps(n)
    case Then(p, n, rest) => FlatPipe(p) + (Amps(n) + ([Tok(';', "")] + FlatLine(rest)))
  }

  // What it means.

  /** Input for '<', output for '>' and ">>". */
  function RedsFor(rs: seq<CRedir>): Reds {
    if rs == [] then [] else [(rs[0].file, rs[0].op != '<')] + RedsFor(rs[1..])
  }

  function ArgWords(args: seq<CArg>): seq<string> { if args == [] then [] else [args[0].word] + ArgWords(args[1..]) }

  function ArgReds(args: seq<CArg>): Reds { if args == [] then [] else RedsFor(args[0].redirs) + ArgReds(args[1..]) }

  function TreeExec(e: CExec): Tree {
    match e
    case Block(line, redirs) => WrapTree(TreeLine(line), RedsFor(redirs))
    case Simple(pre, args) => WrapTree(TExec(ArgWords(args)), RedsFor(pre) + ArgReds(args))
  }

  function TreePipe(p: CPipe): Tree {
    match p
    case One(e) => TreeExec(e)
    case Piped(e, rest) => TPipe(TreeExec(e), TreePipe(rest))
  }

  function Backs(t: Tree, n: nat): Tree
    decreases n
  {
    if n == 0 then t else Backs(TBack(t), n - 1)
  }

  function TreeLine(l: CLine): Tree {
    match l
    case Last(p, n) => Backs(TreePipe(p), n)
    case Then(p, n, rest) => TList(Backs(TreePipe(p), n), TreeLine(rest))
  }

  // What is allowed: three redirection signs, and at most nine arguments.

  predicate FitRedirs(rs: seq<CRedir>) { forall k :: 0 <= k < |rs| ==> rs[k].op in {'<', '>', '+'} }

  predicate FitArgs(args: seq<CArg>) { forall k :: 0 <= k < |args| ==> FitRedirs(args[k].redirs) }

  predicate FitExec(e: CExec) {
    match e
    case Block(line, redirs) => FitLine(line) && FitRedirs(redirs)
    case Simple(pre, args) => FitRedirs(pre) && FitArgs(args) && |args| <= 9
  }

  predicate FitPipe(p: CPipe) { FitExec(p.exec) && (p.Piped? ==> FitPipe(p.rest)) }

  predicate FitLine(l: CLine) { FitPipe(l.pipe) && (l.Then? ==> FitLine(l.rest)) }

  // ---------------------------------------------------------------- what is in the grammar is accepted

  /** What may stand behind a command. */
  predicate After(ts: seq<Tok>) { ts == [] || ts[0].kind in {'|', ')', '&', ';'} }

  lemma {:induction false} RedirsIn(s: string, i: nat, rs: seq<CRedir>, rest: seq<Tok>)
    requires i <= |s| && NoNul(s) && FitRedirs(rs) && Toks(s, i) == FlatRedirs(rs) + rest && !Starts(rest, {'<', '>', '+'})
    ensures var r := ParseRedirs(s, i);
            r.Ok? && r.pos <= |s| && ToReds(s, r.val) == RedsFor(rs) && Toks(s, r.pos) == rest
    decreases |rs|
  {
    hide Toks, GetToken, SkipWhite, Peek, Text;
    PeekTok(s, i);
    ToksSkip(s, i);
    if rs == [] {
      assert FlatRedirs(rs) + rest == rest;
    } else {
      var p := SkipWhite(s, i);
      var ts := FlatRedirs(rs[1..]) + rest;
      assert Toks(s, i) == [Tok(rs[0].op, "")] + ([Tok('a', rs[0].file)] + ts);
      NextTok(s, p);
      var op := GetToken(s, p);
      assert Toks(s, op.next) == [Tok('a', rs[0].file)] + ts;
      NextTok(s, op.next);
      var file := GetToken(s, op.next);
      assert Toks(s, file.next) == ts;
      RedirsIn(s, file.next, rs[1..], rest);
    }
  }

  lemma ArgsFlat(args: seq<CArg>, rest: seq<Tok>)
    requires args != []
    ensures FlatArgs(args) + rest == [Tok('a', args[0].word)] + (FlatRedirs(args[0].redirs) + (FlatArgs(args[1..]) + rest))
    ensures After(rest) ==> !Starts(FlatArgs(args[1..]) + rest, {'<', '>', '+'})
  {
    hide FlatRedirs;
    if |args| == 1 { assert FlatArgs(args[1..]) + rest == rest; }
  }

  lemma {:induction false} ArgsIn(s: string, i: nat, args: seq<CArg>, rest: seq<Tok>, argc: nat)
    requires i <= |s| && NoNul(s) && FitArgs(args) && Toks(s, i) == FlatArgs(args) + rest && After(rest) && argc + |args| <= 9
    ensures var r := ParseArgs(s, i, argc);
            r.Ok? && r.pos <= |s| && Texts(s, r.val.0) == ArgWords(args) && ToReds(s, r.val.1) == ArgReds(args)
            && Toks(s, r.pos) == rest
    decreases |args|
  {
    hide Toks, GetToken, SkipWhite, Peek, Text, ParseRedirs;
    PeekTok(s, i);
    ToksSkip(s, i);
    var p := SkipWhite(s, i);
    NextTok(s, p);
    var t := GetToken(s, p);
    if args == [] {
      assert FlatArgs(args) + rest == rest;
      if rest == [] { NextTok(s, t.next); NothingBehind(s, p); }
    } else {
      ArgsFlat(args, rest);
      var ts := FlatArgs(args[1..]) + rest;
      assert Toks(s, t.next) == FlatRedirs(args[0].redirs) + ts;
      RedirsIn(s, t.next, args[0].redirs, ts);
      var r := ParseRedirs(s, t.next);
      ArgsIn(s, r.pos, args[1..], rest, argc + 1);
      ToRedsJoin(s, r.val, ParseArgs(s, r.pos, argc + 1).val.1);
    }
  }

  lemma NothingBehind(s: string, p: nat)
    requires p <= |s| && NoNul(s) && GetToken(s, p).kind == NUL
    ensures Toks(s, GetToken(s, p).next) == []
  {
    TokenExact(s, p);
    TokenExact(s, GetToken(s, p).next);
  }

  lemma {:induction false} ToRedsJoin(s: string, a: seq<Redir>, b: seq<Redir>)
    ensures ToReds(s, a + b) == ToReds(s, a) + ToReds(s, b)
    decreases |a|
  {
    if a == [] {
      assert a + b == b;
    } else {
      assert (a + b)[1..] == a[1..] + b;
      ToRedsJoin(s, a[1..], b);
    }
  }

  lemma SimpleFlat(pre: seq<CRedir>, args: seq<CArg>, rest: seq<Tok>)
    requires FitRedirs(pre) && After(rest)
    ensures FlatExec(Simple(pre, args)) + rest == FlatRedirs(pre) + (FlatArgs(args) + rest)
    ensures !Starts(FlatRedirs(pre) + (FlatArgs(args) + rest), {'('}) && !Starts(FlatArgs(args) + rest, {'<', '>', '+'})
  {
    hide FlatRedirs, FlatArgs;
    ArgsFirst(args, rest);
    RedirsFirst(pre, FlatArgs(args) + rest);
  }

  lemma ArgsFirst(args: seq<CArg>, rest: seq<Tok>)
    ensures args == [] ==> FlatArgs(args) + rest == rest
    ensures args != [] ==> Starts(FlatArgs(args) + rest, {'a'})
  {
    hide FlatRedirs;
  }

  lemma RedirsFirst(pre: seq<CRedir>, rest: seq<Tok>)
    requires FitRedirs(pre)
    ensures pre == [] ==> FlatRedirs(pre) + rest == rest
    ensures pre != [] ==> Starts(FlatRedirs(pre) + rest, {'<', '>', '+'})
  {}

  lemma {:induction false} SimpleIn(s: string, i: nat, pre: seq<CRedir>, args: seq<CArg>, rest: seq<Tok>)
    requires i <= |s| && NoNul(s) && FitExec(Simple(pre, args)) && Toks(s, i) == FlatExec(Simple(pre, args)) + rest && After(rest)
    ensures var r := ParseExec(s, i);
            r.Ok? && r.pos <= |s| && ToTree(s, r.val) == TreeExec(Simple(pre, args)) && Toks(s, r.pos) == rest
  {
    hide Toks, GetToken, SkipWhite, Peek, Text, ParseRedirs, ParseArgs, FlatExec, Starts, ParseBlock;
    PeekTok(s, i);
    ToksSkip(s, i);
    SimpleFlat(pre, args, rest);
    var p := SkipWhite(s, i);
    RedirsIn(s, p, pre, FlatArgs(args) + rest);
    var r := ParseRedirs(s, p);
    ArgsIn(s, r.pos, args, rest, 0);
    var a := ParseArgs(s, r.pos, 0);
    ToRedsJoin(s, r.val, a.val.1);
    WrapBack(s, Exec(a.val.0), r.val + a.val.1);
  }

  lemma BlockFlat(line: CLine, redirs: seq<CRedir>, rest: seq<Tok>)
    ensures FlatExec(Block(line, redirs)) + rest ==
            [Tok('(', "")] + (FlatLine(line) + ([Tok(')', "")] + (FlatRedirs(redirs) + rest)))
  {
    hide FlatLine, FlatRedirs;
  }

  /** The tokens at a position, first one apart. */
  lemma Behind(s: string, i: nat, kind: char, rest: seq<Tok>)
    requires i <= |s| && kind != 'a' && Toks(s, i) == [Tok(kind, "")] + rest
    ensures GetToken(s, i).kind == kind && GetToken(s, i).next <= |s| && Toks(s, GetToken(s, i).next) == rest
  {
    NextTok(s, i);
    hide Toks, GetToken;
    assert Toks(s, i)[1..] == rest;
  }

  lemma {:induction false} ExecIn(s: string, i: nat, e: CExec, rest: seq<Tok>)
    requires i <= |s| && NoNul(s) && FitExec(e) && Toks(s, i) == FlatExec(e) + rest && After(rest)
    ensures var r := ParseExec(s, i);
            r.Ok? && r.pos <= |s| && ToTree(s, r.val) == TreeExec(e) && Toks(s, r.pos) == rest
    decreases e, 0
  {
    hide Toks, GetToken, SkipWhite, Peek, Text, ParseRedirs, ParseLine, FlatExec, FlatLine, FlatRedirs, ParseArgs;
    match e
    case Simple(pre, args) => SimpleIn(s, i, pre, args, rest);
    case Block(line, redirs) =>
      BlockFlat(line, redirs, rest);
      PeekTok(s, i);
      var inner := FlatLine(line) + ([Tok(')', "")] + (FlatRedirs(redirs) + rest));
      Behind(s, i, '(', inner);
      var j := GetToken(s, i).next;
      LineIn(s, j, line, [Tok(')', "")] + (FlatRedirs(redirs) + rest));
      var l := ParseLine(s, j);
      PeekTok(s, l.pos);
      Behind(s, l.pos, ')', FlatRedirs(redirs) + rest);
      var m := GetToken(s, l.pos).next;
      RedirsIn(s, m, redirs, rest);
      WrapBack(s, l.val, ParseRedirs(s, m).val);
  }

  lemma PipedFlat(e: CExec, p: CPipe, rest: seq<Tok>)
    ensures FlatPipe(Piped(e, p)) + rest == FlatExec(e) + ([Tok('|', "")] + (FlatPipe(p) + rest))
  {
    hide FlatExec;
    var b := FlatPipe(p);
    assert [Tok('|', "")] + b + rest == [Tok('|', "")] + (b + rest);
  }

  lemma {:induction false} PipeIn(s: string, i: nat, p: CPipe, rest: seq<Tok>)
    requires i <= |s| && NoNul(s) && FitPipe(p) && Toks(s, i) == FlatPipe(p) + rest && After(rest) && !Starts(rest, {'|'})
    ensures var r := ParsePipe(s, i);
            r.Ok? && r.pos <= |s| && ToTree(s, r.val) == TreePipe(p) && Toks(s, r.pos) == rest
    decreases p, 1
  {
    hide Toks, GetToken, SkipWhite, Peek, Text, ParseExec, FlatExec, TreeExec, FitExec;
    match p
    case One(e) =>
      ExecIn(s, i, e, rest);
      var r := ParseExec(s, i);
      PeekTok(s, r.pos);
      ToksSkip(s, r.pos);
    case Piped(e, q) =>
      PipedFlat(e, q, rest);
      var ts := FlatPipe(q) + rest;
      hide FlatPipe;
      ExecIn(s, i, e, [Tok('|', "")] + ts);
      var r := ParseExec(s, i);
      PeekTok(s, r.pos);
      Behind(s, r.pos, '|', ts);
      PipeIn(s, GetToken(s, r.pos).next, q, rest);
  }

  lemma AmpsNext(n: nat, rest: seq<Tok>)
    ensures n == 0 ==> Amps(n) + rest == rest
    ensures n > 0 ==> Amps(n) + rest == [Tok('&', "")] + (Amps(n - 1) + rest)
    ensures After(rest) ==> After(Amps(n) + rest)
  {
    if n > 0 { assert Amps(n) == [Tok('&', "")] + Amps(n - 1); }
  }

  lemma {:induction false} BacksIn(s: string, i: nat, n: nat, rest: seq<Tok>, c: Cmd)
    requires i <= |s| && NoNul(s) && Toks(s, i) == Amps(n) + rest && !Starts(rest, {'&'})
    ensures var r := ParseBacks(s, i, c); r.1 <= |s| && ToTree(s, r.0) == Backs(ToTree(s, c), n) && Toks(s, r.1) == rest
    decreases n
  {
    hide Toks, GetToken, SkipWhite, Peek, Text, Amps;
    PeekTok(s, i);
    ToksSkip(s, i);
    AmpsNext(n, rest);
    if n > 0 {
      Behind(s, i, '&', Amps(n - 1) + rest);
      BacksIn(s, GetToken(s, i).next, n - 1, rest, Back(c));
    }
  }

  lemma LineFlat(l: CLine, rest: seq<Tok>)
    ensures l.Last? ==> FlatLine(l) + rest == FlatPipe(l.pipe) + (Amps(l.amps) + rest)
    ensures l.Then? ==> FlatLine(l) + rest == FlatPipe(l.pipe) + (Amps(l.amps) + ([Tok(';', "")] + (FlatLine(l.rest) + rest)))
  {
    hide FlatPipe, Amps;
    if l.Then? {
      var a, b, c, d := FlatPipe(l.pipe), Amps(l.amps), [Tok(';', "")], FlatLine(l.rest);
      assert a + (b + (c + d)) + rest == a + (b + (c + (d + rest)));
    }
  }

  lemma {:induction false} LineIn(s: string, i: nat, l: CLine, rest: seq<Tok>)
    requires i <= |s| && NoNul(s) && FitLine(l) && Toks(s, i) == FlatLine(l) + rest && (rest == [] || rest[0].kind == ')')
    ensures var r := ParseLine(s, i);
            r.Ok? && r.pos <= |s| && ToTree(s, r.val) == TreeLine(l) && Toks(s, r.pos) == rest
    decreases l, 2
  {
    hide Toks, GetToken, SkipWhite, Peek, Text, ParsePipe, ParseBacks, FlatPipe, TreePipe, FitPipe, Amps;
    LineFlat(l, rest);
    var more := if l.Last? then rest else [Tok(';', "")] + (FlatLine(l.rest) + rest);
    hide FlatLine;
    AmpsNext(l.amps, more);
    NoBar(l.amps, more);
    PipeIn(s, i, l.pipe, Amps(l.amps) + more);
    var p := ParsePipe(s, i);
    BacksIn(s, p.pos, l.amps, more, p.val);
    var (cmd, q) := ParseBacks(s, p.pos, p.val);
    PeekTok(s, q);
    ToksSkip(s, q);
    if l.Then? {
      Behind(s, q, ';', FlatLine(l.rest) + rest);
      LineIn(s, GetToken(s, q).next, l.rest, rest);
    }
  }

  lemma NoBar(n: nat, rest: seq<Tok>)
    requires !Starts(rest, {'|'})
    ensures !Starts(Amps(n) + rest, {'|'})
  {
    if n == 0 { assert Amps(n) + rest == rest; }
  }

  // ---------------------------------------------------------------- what is accepted is in the grammar

  lemma NoneMore(s: string)
    ensures FitRedirs([]) && ToReds(s, []) == RedsFor([])
  {}

  lemma OneMore(s: string, rs: seq<CRedir>, out: bool, file: Span, more: seq<CRedir>, redirs: seq<Redir>)
    requires rs != [] && rs[1..] == more && rs[0].op in {'<', '>', '+'} && rs[0].file == Text(s, file) && out == (rs[0].op != '<')
    requires FitRedirs(more) && ToReds(s, redirs) == RedsFor(more)
    ensures FitRedirs(rs) && ToReds(s, [Redir(file, out)] + redirs) == RedsFor(rs)
  {
    assert ([Redir(file, out)] + redirs)[1..] == redirs;
    hide Text;
    forall k | 0 <= k < |rs| ensures rs[k].op in {'<', '>', '+'} {
      if k > 0 { assert rs[k] == more[k - 1]; }
    }
  }

  lemma {:induction false} RedirsOut(s: string, i: nat) returns (rs: seq<CRedir>)
    requires i <= |s| && NoNul(s) && ParseRedirs(s, i).Ok?
    ensures var r := ParseRedirs(s, i);
            r.pos <= |s| && FitRedirs(rs) && Toks(s, i) == FlatRedirs(rs) + Toks(s, r.pos) && ToReds(s, r.val) == RedsFor(rs)
    decreases |s| - i
  {
    hide Toks, GetToken, SkipWhite, Peek, Text, RedsFor, FitRedirs, ToReds;
    PeekTok(s, i);
    ToksSkip(s, i);
    rs := [];
    NoneMore(s);
    if Peek(s, i, "<>") {
      var p := SkipWhite(s, i);
      NextTok(s, p);
      var op := GetToken(s, p);
      NextTok(s, op.next);
      var file := GetToken(s, op.next);
      var more := RedirsOut(s, file.next);
      rs := [CRedir(op.kind, Text(s, file.span))] + more;
      OneMore(s, rs, op.kind != '<', file.span, more, ParseRedirs(s, file.next).val);
      assert Toks(s, i) == [Tok(op.kind, "")] + ([Tok('a', Text(s, file.span))] + Toks(s, file.next));
    }
  }

  lemma {:induction false} ArgsOut(s: string, i: nat, argc: nat) returns (args: seq<CArg>)
    requires i <= |s| && NoNul(s) && ParseArgs(s, i, argc).Ok? && argc <= 9
    ensures var r := ParseArgs(s, i, argc);
            r.pos <= |s| && FitArgs(args) && argc + |args| <= 9 && Toks(s, i) == FlatArgs(args) + Toks(s, r.pos)
            && Texts(s, r.val.0) == ArgWords(args) && ToReds(s, r.val.1) == ArgReds(args)
    decreases |s| - i
  {
    hide Toks, GetToken, SkipWhite, Peek, Text, ParseRedirs, FlatRedirs, RedsFor, FitRedirs;
    PeekTok(s, i);
    ToksSkip(s, i);
    var p := SkipWhite(s, i);
    NextTok(s, p);
    var t := GetToken(s, p);
    args := [];
    if Peek(s, i, "|)&;") {
    } else if t.kind == NUL {
      NothingBehind(s, p);
    } else {
      var rs := RedirsOut(s, t.next);
      var r := ParseRedirs(s, t.next);
      var more := ArgsOut(s, r.pos, argc + 1);
      args := [CArg(Text(s, t.span), rs)] + more;
      assert args[1..] == more;
      var end := Toks(s, ParseArgs(s, r.pos, argc + 1).pos);
      assert Toks(s, i) == [Tok('a', Text(s, t.span))] + (FlatRedirs(rs) + (FlatArgs(more) + end));
      ArgsFlat(args, end);
      ToRedsJoin(s, r.val, ParseArgs(s, r.pos, argc + 1).val.1);
    }
  }

  lemma {:induction false} ExecOut(s: string, i: nat) returns (e: CExec)
    requires i <= |s| && NoNul(s) && ParseExec(s, i).Ok?
    ensures var r := ParseExec(s, i);
            r.pos <= |s| && FitExec(e) && Toks(s, i) == FlatExec(e) + Toks(s, r.pos) && ToTree(s, r.val) == TreeExec(e)
    decreases |s| - i, 1
  {
    hide Toks, GetToken, SkipWhite, Peek, Text, ParseRedirs, ParseArgs, ParseBlock, FlatRedirs, FlatArgs, TreeLine, FlatLine;
    if Peek(s, i, "(") {
      e := BlockOut(s, i);
    } else {
      ToksSkip(s, i);
      var p := SkipWhite(s, i);
      var pre := RedirsOut(s, p);
      var r := ParseRedirs(s, p);
      var args := ArgsOut(s, r.pos, 0);
      var a := ParseArgs(s, r.pos, 0);
      e := Simple(pre, args);
      ToRedsJoin(s, r.val, a.val.1);
      WrapBack(s, Exec(a.val.0), r.val + a.val.1);
    }
  }

  lemma {:induction false} BlockOut(s: string, i: nat) returns (e: CExec)
    requires i <= |s| && NoNul(s) && Peek(s, i, "(") && ParseBlock(s, i).Ok?
    ensures var r := ParseBlock(s, i);
            r.pos <= |s| && FitExec(e) && Toks(s, i) == FlatExec(e) + Toks(s, r.pos) && ToTree(s, r.val) == TreeExec(e)
    decreases |s| - i, 0
  {
    hide Toks, GetToken, SkipWhite, Peek, Text, ParseRedirs, ParseLine, FlatRedirs, FlatLine, TreeLine, FitLine;
    PeekTok(s, i);
    NextTok(s, i);
    var j := GetToken(s, i).next;
    var line := LineOut(s, j);
    var l := ParseLine(s, j);
    PeekTok(s, l.pos);
    NextTok(s, l.pos);
    var m := GetToken(s, l.pos).next;
    var redirs := RedirsOut(s, m);
    e := Block(line, redirs);
    var rest := Toks(s, ParseRedirs(s, m).pos);
    BlockFlat(line, redirs, rest);
    hide FlatExec;
    assert Toks(s, l.pos) == [Tok(')', "")] + (FlatRedirs(redirs) + rest);
    assert Toks(s, i) == [Tok('(', "")] + (FlatLine(line) + ([Tok(')', "")] + (FlatRedirs(redirs) + rest)));
    WrapBack(s, l.val, ParseRedirs(s, m).val);
  }

  lemma {:induction false} PipeOut(s: string, i: nat) returns (p: CPipe)
    requires i <= |s| && NoNul(s) && ParsePipe(s, i).Ok?
    ensures var r := ParsePipe(s, i);
            r.pos <= |s| && FitPipe(p) && Toks(s, i) == FlatPipe(p) + Toks(s, r.pos) && ToTree(s, r.val) == TreePipe(p)
    decreases |s| - i, 2
  {
    hide Toks, GetToken, SkipWhite, Peek, Text, ParseExec, FlatExec, TreeExec, FitExec;
    var e := ExecOut(s, i);
    var left := ParseExec(s, i);
    PeekTok(s, left.pos);
    if Peek(s, left.pos, "|") {
      NextTok(s, left.pos);
      var j := GetToken(s, left.pos).next;
      var q := PipeOut(s, j);
      p := Piped(e, q);
      var rest := Toks(s, ParsePipe(s, j).pos);
      PipedFlat(e, q, rest);
      assert Toks(s, left.pos) == [Tok('|', "")] + (FlatPipe(q) + rest);
    } else {
      ToksSkip(s, left.pos);
      p := One(e);
    }
  }

  lemma {:induction false} BacksOut(s: string, i: nat, c: Cmd) returns (n: nat)
    requires i <= |s| && NoNul(s)
    ensures var r := ParseBacks(s, i, c);
            r.1 <= |s| && Toks(s, i) == Amps(n) + Toks(s, r.1) && ToTree(s, r.0) == Backs(ToTree(s, c), n)
    decreases |s| - i
  {
    hide Toks, GetToken, SkipWhite, Peek, Text, Amps;
    PeekTok(s, i);
    n := 0;
    if Peek(s, i, "&") {
      NextTok(s, i);
      var j := GetToken(s, i).next;
      var m := BacksOut(s, j, Back(c));
      n := m + 1;
      AmpsNext(n, Toks(s, ParseBacks(s, j, Back(c)).1));
      assert Toks(s, i) == [Tok('&', "")] + Toks(s, j);
    } else {
      ToksSkip(s, i);
      AmpsNext(0, Toks(s, SkipWhite(s, i)));
    }
  }

  lemma {:induction false} LineOut(s: string, i: nat) returns (l: CLine)
    requires i <= |s| && NoNul(s) && ParseLine(s, i).Ok?
    ensures var r := ParseLine(s, i);
            r.pos <= |s| && FitLine(l) && Toks(s, i) == FlatLine(l) + Toks(s, r.pos) && ToTree(s, r.val) == TreeLine(l)
    decreases |s| - i, 3
  {
    hide Toks, GetToken, SkipWhite, Peek, Text, ParsePipe, ParseBacks, FlatPipe, TreePipe, FitPipe, Amps;
    var p := PipeOut(s, i);
    var pipe := ParsePipe(s, i);
    var n := BacksOut(s, pipe.pos, pipe.val);
    var (cmd, q) := ParseBacks(s, pipe.pos, pipe.val);
    PeekTok(s, q);
    if Peek(s, q, ";") {
      NextTok(s, q);
      var j := GetToken(s, q).next;
      var more := LineOut(s, j);
      l := Then(p, n, more);
      var rest := Toks(s, ParseLine(s, j).pos);
      LineFlat(l, rest);
      assert Toks(s, q) == [Tok(';', "")] + (FlatLine(more) + rest);
    } else {
      ToksSkip(s, q);
      l := Last(p, n);
      LineFlat(l, Toks(s, q));
    }
  }

  // ---------------------------------------------------------------- the language

  /** A text is accepted if and only if its tokens are those of a line of the grammar, and the tree is the one
      that the grammar gives. */
  lemma AcceptedIff(s: string)
    requires NoNul(s)
    ensures ParseCmd(s).Ok? <==> exists l :: FitLine(l) && Toks(s, 0) == FlatLine(l)
    ensures forall l :: FitLine(l) && Toks(s, 0) == FlatLine(l) ==> ParseCmd(s).Ok? && ToTree(s, ParseCmd(s).val) == TreeLine(l)
  {
    hide Toks, ParseLine, FlatLine, TreeLine, FitLine, SkipWhite, ToTree;
    forall l | FitLine(l) && Toks(s, 0) == FlatLine(l) ensures ParseCmd(s).Ok? && ToTree(s, ParseCmd(s).val) == TreeLine(l) {
      assert FlatLine(l) + [] == FlatLine(l);
      LineIn(s, 0, l, []);
      PeekTok(s, ParseLine(s, 0).pos);
    }
    if ParseCmd(s).Ok? {
      var l := LineOut(s, 0);
      PeekTok(s, ParseLine(s, 0).pos);
      assert FlatLine(l) + [] == FlatLine(l);
    }
  }
}

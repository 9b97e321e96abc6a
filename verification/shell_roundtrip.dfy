/** Printing a command tree and parsing the text again gives the same tree. */
module ShellRoundTrip {
  import opened ShellGrammar

  /** A command with its strings spelled out. */
  datatype Tree =
    | TExec(args: seq<string>)
    | TRed(cmd: Tree, file: string, out: bool)
    | TPipe(left: Tree, right: Tree)
    | TList(left: Tree, right: Tree)
    | TBack(cmd: Tree)

  // ---------------------------------------------------------------- from spans to strings

  function Text(s: string, t: Span): string {
    if t.q <= t.eq <= |s| then s[t.q..t.eq] else ""
  }

  function Texts(s: string, ts: seq<Span>): seq<string> {
    if ts == [] then [] else [Text(s, ts[0])] + Texts(s, ts[1..])
  }

  function ToTree(s: string, c: Cmd): Tree {
    match c
    case Exec(argv) => TExec(Texts(s, argv))
    case Red(cmd, r) => TRed(ToTree(s, cmd), Text(s, r.file), r.out)
    case Pipe(l, r) => TPipe(ToTree(s, l), ToTree(s, r))
    case List(l, r) => TList(ToTree(s, l), ToTree(s, r))
    case Back(cmd) => TBack(ToTree(s, cmd))
  }

  // ---------------------------------------------------------------- printing

  predicate IsWord(w: string) { w != "" && forall i :: 0 <= i < |w| ==> WordChar(w[i]) }

  predicate AllWords(ws: seq<string>) { forall i :: 0 <= i < |ws| ==> IsWord(ws[i]) }

  /** Words are free of white space, symbols and NUL, and a command has at most nine of them. */
  predicate Printable(t: Tree) {
    match t
    case TExec(args) => |args| < MAXARGS && AllWords(args)
    case TRed(cmd, file, _) => IsWord(file) && Printable(cmd)
    case TPipe(l, r) => Printable(l) && Printable(r)
    case TList(l, r) => Printable(l) && Printable(r)
    case TBack(cmd) => Printable(cmd)
  }

  function PrintArgs(args: seq<string>): string {
    if args == [] then "" else args[0] + " " + PrintArgs(args[1..])
  }

  function PrintRedir(file: string, out: bool): string { (if out then ">" else "<") + file + " " }

  /** Every operand that is not a simple command is put in parentheses. */
  function Print(t: Tree): string
    decreases t, 0
  {
    match t
    case TExec(args) => PrintArgs(args)
    case TRed(cmd, file, out) => PrintAtom(cmd) + PrintRedir(file, out)
    case TPipe(l, r) => PrintAtom(l) + "|" + PrintAtom(r)
    case TList(l, r) => PrintAtom(l) + ";" + PrintAtom(r)
    case TBack(cmd) => PrintAtom(cmd) + "&"
  }

  function PrintAtom(t: Tree): string
    decreases t, 1
  {
    if t.TExec? || t.TRed? then Print(t) else "(" + Print(t) + ")"
  }

  // ---------------------------------------------------------------- tokens in a text

  /** At position i the text goes on with a and then b. */
  predicate Here(s: string, i: nat, a: string, b: string) { i <= |s| && s[i..] == a + b }

  predicate Clean(b: string) { b == "" || !White(b[0]) }

  lemma HereFirst(s: string, i: nat, a: string, b: string)
    requires Here(s, i, a, b) && a != ""
    ensures i < |s| && s[i] == a[0] && Here(s, i + 1, a[1..], b)
  {
    assert s[i] == s[i..][0] == a[0];
    assert s[i + 1..] == s[i..][1..] == a[1..] + b;
  }

  lemma {:induction false} WordEndAt(s: string, i: nat, w: string, b: string)
    requires Here(s, i, w, b) && b != "" && (White(b[0]) || Symbol(b[0])) && forall k :: 0 <= k < |w| ==> WordChar(w[k])
    ensures WordEnd(s, i) == i + |w|
    decreases |w|
  {
    if w != "" {
      HereFirst(s, i, w, b);
      WordEndAt(s, i + 1, w[1..], b);
    } else {
      assert s[i] == s[i..][0] == b[0];
    }
  }

  lemma SkipNothing(s: string, i: nat, b: string)
    requires Here(s, i, "", b) && Clean(b)
    ensures SkipWhite(s, i) == i && Char(s, i) == if b == "" then NUL else b[0]
  {
    if b != "" { assert s[i] == s[i..][0] == b[0]; }
  }

  lemma WordCase(s: string, i: nat)
    requires i < |s| && WordChar(s[i])
    ensures SkipWhite(s, i) == i && GetToken(s, i) == Token('a', Span(i, WordEnd(s, i)), SkipWhite(s, WordEnd(s, i)))
  {}

  lemma Slice(s: string, i: nat, a: string, b: string)
    requires Here(s, i, a, b)
    ensures i + |a| <= |s| && s[i + |a|..] == b && Text(s, Span(i, i + |a|)) == a
  {
    assert s[i..i + |a|] == s[i..][..|a|];
    assert s[i + |a|..] == s[i..][|a|..];
  }

  /** A word, a blank, and something that is not white space. */
  lemma WordToken(s: string, i: nat, w: string, b: string)
    requires Here(s, i, w + " ", b) && IsWord(w) && Clean(b)
    ensures SkipWhite(s, i) == i && i < |s| && WordChar(s[i]) && s[i] == w[0]
    ensures GetToken(s, i).kind == 'a' && GetToken(s, i).span == Span(i, i + |w|) && GetToken(s, i).next == i + |w| + 1
    ensures Text(s, Span(i, i + |w|)) == w && Here(s, i + |w| + 1, "", b)
  {
    hide *;
    var rest := " " + b;
    Regroup(s, i, w, " ", b);
    WordShape(s, i, w, rest);
    var j: nat := i + |w|;
    Slice(s, i, w, rest);
    BlankShape(s, j, b);
    SkipNothing(s, j + 1, b);
    SkipOne(s, j);
    WordCase(s, i);
    assert GetToken(s, i) == Token('a', Span(i, j), j + 1);
  }

  lemma Regroup(s: string, i: nat, a: string, b: string, c: string)
    requires Here(s, i, a + b, c)
    ensures Here(s, i, a, b + c)
  {
    assert a + b + c == a + (b + c);
  }

  lemma WordShape(s: string, i: nat, w: string, b: string)
    requires Here(s, i, w, b) && IsWord(w) && b != "" && White(b[0])
    ensures i < |s| && s[i] == w[0] && WordChar(s[i]) && WordEnd(s, i) == i + |w|
  {
    HereFirst(s, i, w, b);
    WordEndAt(s, i, w, b);
  }

  lemma BlankShape(s: string, j: nat, b: string)
    requires j <= |s| && s[j..] == " " + b
    ensures j < |s| && s[j] == ' ' && Here(s, j + 1, "", b)
  {
    HereFirst(s, j, " ", b);
  }

  lemma SkipOne(s: string, i: nat)
    requires i < |s| && s[i] == ' '
    ensures SkipWhite(s, i) == SkipWhite(s, i + 1)
  {}

  /** A symbol that is not part of '>>', and something that is not white space. */
  lemma SymbolToken(s: string, i: nat, c: char, b: string)
    requires Here(s, i, [c], b) && Symbol(c) && Clean(b) && (c == '>' ==> b == "" || b[0] != '>')
    ensures SkipWhite(s, i) == i && i < |s| && s[i] == c
    ensures GetToken(s, i).kind == c && GetToken(s, i).next == i + 1 && Here(s, i + 1, "", b)
  {
    HereFirst(s, i, [c], b);
    SkipNothing(s, i + 1, b);
  }

  // ---------------------------------------------------------------- redirections and arguments

  type Reds = seq<(string, bool)>

  function PrintReds(rs: Reds): string {
    if rs == [] then "" else PrintRedir(rs[0].0, rs[0].1) + PrintReds(rs[1..])
  }

  predicate RedWords(rs: Reds) { forall i :: 0 <= i < |rs| ==> IsWord(rs[i].0) }

  function ToReds(s: string, rs: seq<Redir>): Reds {
    if rs == [] then [] else [(Text(s, rs[0].file), rs[0].out)] + ToReds(s, rs[1..])
  }

  /** What may follow a simple command or a block: nothing, or one of `|`, `)`, `&` and `;`. */
  predicate Follow(b: string) { b == "" || b[0] == '|' || b[0] == ')' || b[0] == '&' || b[0] == ';' }

  lemma CleanReds(rs: Reds, b: string)
    requires Clean(b)
    ensures Clean(PrintReds(rs) + b)
    ensures rs != [] ==> PrintReds(rs) + b != "" && ((PrintReds(rs) + b)[0] == '<' || (PrintReds(rs) + b)[0] == '>')
  {
    if rs == [] { assert PrintReds(rs) + b == b; }
  }

  lemma CleanArgs(args: seq<string>, b: string)
    requires Clean(b) && AllWords(args)
    ensures Clean(PrintArgs(args) + b)
    ensures args != [] ==> PrintArgs(args) + b != "" && WordChar((PrintArgs(args) + b)[0])
  {
    if args == [] {
      assert PrintArgs(args) + b == b;
    } else {
      assert (PrintArgs(args) + b)[0] == args[0][0];
    }
  }

  lemma NoRedirs(s: string, i: nat, b: string)
    requires Here(s, i, "", b) && Clean(b) && (b == "" || (b[0] != '<' && b[0] != '>'))
    ensures SkipWhite(s, i) == i && ParseRedirs(s, i) == Ok([], i)
  {
    SkipNothing(s, i, b);
  }

  /** One redirection is read off the text. */
  lemma OneRedir(s: string, i: nat, file: string, out: bool, b: string)
    requires Here(s, i, PrintRedir(file, out), b) && IsWord(file) && Clean(b)
    ensures i + |file| + 2 <= |s| && Here(s, i + |file| + 2, "", b)
    ensures var rest := ParseRedirs(s, i + |file| + 2);
            var span := Span(i + 1, i + 1 + |file|);
            Text(s, span) == file
            && (rest.Ok? ==> ParseRedirs(s, i) == Ok([Redir(span, out)] + rest.val, rest.pos))
  {
    hide *;
    var op := if out then '>' else '<';
    RedirShape(s, i, file, out, b);
    SymbolToken(s, i, op, file + " " + b);
    HereDrop(s, i + 1, file + " ", b);
    WordToken(s, i + 1, file, b);
    HereBound(s, i + |file| + 2, b);
    RedirStep(s, i, Span(i + 1, i + 1 + |file|), out);
  }

  lemma RedirShape(s: string, i: nat, file: string, out: bool, b: string)
    requires Here(s, i, PrintRedir(file, out), b) && IsWord(file)
    ensures var op := if out then '>' else '<';
            Here(s, i, [op], file + " " + b) && Symbol(op) && Clean(file + " " + b)
            && (op == '>' ==> file + " " + b == "" || (file + " " + b)[0] != '>')
  {
    var op := if out then '>' else '<';
    assert PrintRedir(file, out) + b == [op] + (file + " " + b);
    assert (file + " " + b)[0] == file[0];
  }

  lemma HereDrop(s: string, i: nat, a: string, b: string)
    requires Here(s, i, "", a + b)
    ensures Here(s, i, a, b)
  {
    assert "" + (a + b) == a + b;
  }

  lemma HereBound(s: string, i: nat, b: string)
    requires Here(s, i, "", b)
    ensures i <= |s| && |s| - i == |b|
  {}

  lemma RedirStep(s: string, i: nat, span: Span, out: bool)
    requires i < |s| && SkipWhite(s, i) == i && s[i] == (if out then '>' else '<')
    requires GetToken(s, i).kind == s[i] && GetToken(s, i).next == i + 1
    requires i + 1 <= |s| && GetToken(s, i + 1).kind == 'a' && GetToken(s, i + 1).span == span
    ensures var rest := ParseRedirs(s, GetToken(s, i + 1).next);
            rest.Ok? ==> ParseRedirs(s, i) == Ok([Redir(span, out)] + rest.val, rest.pos)
  {
    assert s[i] in "<>";
    hide GetToken, SkipWhite;
  }

  lemma RedsSplit(s: string, i: nat, rs: Reds, b: string)
    requires rs != [] && Here(s, i, PrintReds(rs), b) && RedWords(rs) && Clean(b)
    ensures Here(s, i, PrintRedir(rs[0].0, rs[0].1), PrintReds(rs[1..]) + b) && Clean(PrintReds(rs[1..]) + b)
    ensures IsWord(rs[0].0) && RedWords(rs[1..])
  {
    assert PrintReds(rs) + b == PrintRedir(rs[0].0, rs[0].1) + (PrintReds(rs[1..]) + b);
    CleanReds(rs[1..], b);
  }

  lemma ToRedsCons(s: string, r: Redir, rest: seq<Redir>, rs: Reds)
    requires rs != [] && rs[0] == (Text(s, r.file), r.out) && ToReds(s, rest) == rs[1..]
    ensures ToReds(s, [r] + rest) == rs
  {
    assert ([r] + rest)[1..] == rest;
  }

  lemma NoReds(s: string, i: nat, b: string)
    requires Here(s, i, PrintReds([]), b) && Clean(b) && (b == "" || (b[0] != '<' && b[0] != '>'))
    ensures ParseRedirs(s, i) == Ok([], i) && Here(s, i, "", b) && ToReds(s, []) == []
  {
    NoRedirs(s, i, b);
  }

  /** The redirections behind a command are read back. */
  lemma {:induction false} RedirsBack(s: string, i: nat, rs: Reds, b: string)
    requires Here(s, i, PrintReds(rs), b) && RedWords(rs) && Clean(b) && (b == "" || (b[0] != '<' && b[0] != '>'))
    ensures var r := ParseRedirs(s, i);
            r.Ok? && Here(s, r.pos, "", b) && ToReds(s, r.val) == rs
    decreases |rs|
  {
    hide *;
    if rs == [] {
      NoReds(s, i, b);
    } else {
      var (file, out) := rs[0];
      RedsSplit(s, i, rs, b);
      OneRedir(s, i, file, out, PrintReds(rs[1..]) + b);
      var j := i + |file| + 2;
      HereDrop(s, j, PrintReds(rs[1..]), b);
      RedirsBack(s, j, rs[1..], b);
      ToRedsCons(s, Redir(Span(i + 1, i + 1 + |file|), out), ParseRedirs(s, j).val, rs);
    }
  }

  // ---------------------------------------------------------------- arguments

  lemma ArgsSplit(s: string, i: nat, args: seq<string>, b: string)
    requires args != [] && Here(s, i, PrintArgs(args), b) && Clean(b) && AllWords(args)
    ensures Here(s, i, args[0] + " ", PrintArgs(args[1..]) + b) && Clean(PrintArgs(args[1..]) + b)
    ensures IsWord(args[0]) && AllWords(args[1..])
  {
    hide IsWord, Clean;
    Regroup(s, i, args[0] + " ", PrintArgs(args[1..]), b);
    CleanArgs(args[1..], b);
  }

  lemma TextsCons(s: string, t: Span, rest: seq<Span>, args: seq<string>)
    requires args != [] && Text(s, t) == args[0] && Texts(s, rest) == args[1..]
    ensures Texts(s, [t] + rest) == args
  {
    assert ([t] + rest)[1..] == rest;
  }

  /** The loop of parseexec takes one more argument. */
  lemma ArgStep(s: string, i: nat, argc: nat, t: Token, r: Res<seq<Redir>>)
    requires i < |s| && SkipWhite(s, i) == i && WordChar(s[i]) && argc + 1 < MAXARGS
    requires t == GetToken(s, i) && t.kind == 'a' && r == ParseRedirs(s, t.next) && r.Ok?
    ensures r.pos <= |s|
    ensures var rest := ParseArgs(s, r.pos, argc + 1);
            rest.Ok? ==> ParseArgs(s, i, argc) == Ok(([t.span] + rest.val.0, r.val + rest.val.1), rest.pos)
  {
    hide GetToken, SkipWhite, ParseRedirs;
    assert !Peek(s, i, "|)&;");
  }

  lemma ArgsStop(s: string, i: nat, argc: nat, b: string)
    requires Here(s, i, "", b) && Follow(b)
    ensures ParseArgs(s, i, argc) == Ok(([], []), i) && ParseRedirs(s, i) == Ok([], i) && Clean(b)
  {
    SkipNothing(s, i, b);
    if b == "" {
      assert GetToken(s, i) == Token(NUL, Span(i, i), i);
    } else {
      assert s[i] == b[0] && s[i] in "|)&;";
    }
  }

  lemma NextArg(s: string, i: nat, args: seq<string>, c: string)
    requires args != [] && AllWords(args) && Clean(c) && Here(s, i, "", PrintArgs(args) + c)
    ensures Here(s, i, PrintArgs(args), c) && i < |s| && SkipWhite(s, i) == i && WordChar(s[i])
    ensures ParseRedirs(s, i) == Ok([], i)
  {
    HereDrop(s, i, PrintArgs(args), c);
    CleanArgs(args, c);
    SkipNothing(s, i, PrintArgs(args) + c);
    NoRedirs(s, i, PrintArgs(args) + c);
  }

  /** The arguments, and the redirections behind them, are read back. */
  lemma {:induction false} ArgsBack(s: string, i: nat, args: seq<string>, rs: Reds, b: string, argc: nat)
    requires args != [] && AllWords(args) && RedWords(rs) && Follow(b) && Clean(b) && argc + |args| < MAXARGS
    requires Here(s, i, PrintArgs(args), PrintReds(rs) + b)
    ensures var r := ParseArgs(s, i, argc);
            r.Ok? && Here(s, r.pos, "", b) && Texts(s, r.val.0) == args && ToReds(s, r.val.1) == rs
    decreases |args|
  {
    hide *;
    CleanReds(rs, b);
    ArgsSplit(s, i, args, PrintReds(rs) + b);
    WordToken(s, i, args[0], PrintArgs(args[1..]) + (PrintReds(rs) + b));
    var t := GetToken(s, i);
    if |args| == 1 {
      LastArg(s, t.next, args, PrintReds(rs) + b);
      HereDrop(s, t.next, PrintReds(rs), b);
      FollowReds(b);
      RedirsBack(s, t.next, rs, b);
      var r := ParseRedirs(s, t.next);
      ArgsStop(s, r.pos, argc + 1, b);
      ArgStep(s, i, argc, t, r);
      TextsNone(s, args);
      TextsCons(s, t.span, [], args);
      assert r.val + [] == r.val;
    } else {
      NextArg(s, t.next, args[1..], PrintReds(rs) + b);
      ArgsBack(s, t.next, args[1..], rs, b, argc + 1);
      ArgStep(s, i, argc, t, ParseRedirs(s, t.next));
      var rest := ParseArgs(s, t.next, argc + 1);
      TextsCons(s, t.span, rest.val.0, args);
      assert [] + rest.val.1 == rest.val.1;
    }
  }

  lemma LastArg(s: string, j: nat, args: seq<string>, c: string)
    requires |args| == 1 && Here(s, j, "", PrintArgs(args[1..]) + c)
    ensures Here(s, j, "", c)
  {
    assert PrintArgs(args[1..]) + c == c;
  }

  lemma FollowReds(b: string)
    requires Follow(b)
    ensures Clean(b) && (b == "" || (b[0] != '<' && b[0] != '>'))
  {}

  lemma TextsNone(s: string, args: seq<string>)
    requires |args| == 1
    ensures Texts(s, []) == args[1..]
  {}

  // ---------------------------------------------------------------- simple commands and blocks

  function WrapTree(t: Tree, rs: Reds): Tree
    decreases |rs|
  {
    if rs == [] then t else WrapTree(TRed(t, rs[0].0, rs[0].1), rs[1..])
  }

  lemma {:induction false} WrapBack(s: string, c: Cmd, r: seq<Redir>)
    ensures ToTree(s, Wrap(c, r)) == WrapTree(ToTree(s, c), ToReds(s, r))
    decreases |r|
  {
    if r != [] { WrapBack(s, Red(c, r[0]), r[1..]); }
  }

  /** A simple command is read back. */
  lemma SimpleBack(s: string, i: nat, args: seq<string>, rs: Reds, b: string)
    requires AllWords(args) && |args| < MAXARGS && RedWords(rs) && Follow(b)
    requires Here(s, i, PrintArgs(args), PrintReds(rs) + b)
    ensures var r := ParseExec(s, i);
            r.Ok? && Here(s, r.pos, "", b) && ToTree(s, r.val) == WrapTree(TExec(args), rs)
  {
    hide *;
    FollowReds(b);
    CleanReds(rs, b);
    if args == [] {
      NoArgs(s, i, PrintReds(rs) + b);
      HereDrop(s, i, PrintReds(rs), b);
      RedirsBack(s, i, rs, b);
      var r := ParseRedirs(s, i);
      ArgsStop(s, r.pos, 0, b);
      NotBlock(s, i, rs, b);
      ExecStep(s, i, r, ParseArgs(s, r.pos, 0));
      assert r.val + [] == r.val;
      TextsEmpty(s);
      WrapBack(s, Exec([]), r.val);
      ExecTree(s, [], []);
    } else {
      HereMove(s, i, PrintArgs(args), PrintReds(rs) + b);
      NextArg(s, i, args, PrintReds(rs) + b);
      ArgsBack(s, i, args, rs, b, 0);
      var a := ParseArgs(s, i, 0);
      WordNotBlock(s, i);
      ExecStep(s, i, Ok([], i), a);
      assert [] + a.val.1 == a.val.1;
      WrapBack(s, Exec(a.val.0), a.val.1);
      ExecTree(s, a.val.0, args);
    }
  }

  lemma HereMove(s: string, i: nat, a: string, b: string)
    requires Here(s, i, a, b)
    ensures Here(s, i, "", a + b)
  {
    assert "" + (a + b) == a + b;
  }

  lemma NoArgs(s: string, i: nat, c: string)
    requires Here(s, i, PrintArgs([]), c)
    ensures Here(s, i, "", c)
  {}

  lemma TextsEmpty(s: string)
    ensures Texts(s, []) == []
  {}

  lemma ExecTree(s: string, argv: seq<Span>, args: seq<string>)
    requires Texts(s, argv) == args
    ensures ToTree(s, Exec(argv)) == TExec(args)
  {}

  lemma NotBlock(s: string, i: nat, rs: Reds, b: string)
    requires Here(s, i, PrintReds(rs), b) && Follow(b)
    ensures SkipWhite(s, i) == i && !Peek(s, i, "(")
  {
    CleanReds(rs, b);
    HereMove(s, i, PrintReds(rs), b);
    SkipNothing(s, i, PrintReds(rs) + b);
    if rs == [] { assert PrintReds(rs) + b == b; }
  }

  lemma WordNotBlock(s: string, i: nat)
    requires i < |s| && SkipWhite(s, i) == i && WordChar(s[i])
    ensures !Peek(s, i, "(")
  {}

  lemma ExecStep(s: string, i: nat, r: Res<seq<Redir>>, a: Res<(seq<Span>, seq<Redir>)>)
    requires i <= |s| && SkipWhite(s, i) == i && !Peek(s, i, "(")
    requires r == ParseRedirs(s, i) && r.Ok? && r.pos <= |s| && a == ParseArgs(s, r.pos, 0) && a.Ok?
    ensures ParseExec(s, i) == Ok(Wrap(Exec(a.val.0), r.val + a.val.1), a.pos)
  {
    hide ParseRedirs, ParseArgs, SkipWhite, Peek;
  }

  // ---------------------------------------------------------------- lines

  function Size(t: Tree): nat {
    match t
    case TExec(_) => 0
    case TRed(cmd, _, _) => 1 + Size(cmd)
    case TPipe(l, r) => 1 + Size(l) + Size(r)
    case TList(l, r) => 1 + Size(l) + Size(r)
    case TBack(cmd) => 1 + Size(cmd)
  }

  predicate Simple(t: Tree) { t.TExec? || t.TRed? }

  /** The command under the outermost redirections, and these redirections. */
  function Base(t: Tree): Tree { if t.TRed? then Base(t.cmd) else t }

  function RedsOf(t: Tree): Reds { if t.TRed? then RedsOf(t.cmd) + [(t.file, t.out)] else [] }

  function PrintCore(t: Tree): string { if t.TExec? then PrintArgs(t.args) else "(" + Print(t) + ")" }

  lemma {:induction false} WrapSnoc(t: Tree, rs: Reds, file: string, out: bool)
    ensures WrapTree(t, rs + [(file, out)]) == TRed(WrapTree(t, rs), file, out)
    decreases |rs|
  {
    var all := rs + [(file, out)];
    if rs == [] {
      assert all[1..] == [];
    } else {
      assert all[1..] == rs[1..] + [(file, out)];
      WrapSnoc(TRed(t, rs[0].0, rs[0].1), rs[1..], file, out);
    }
  }

  lemma {:induction false} PrintSnoc(rs: Reds, file: string, out: bool)
    ensures PrintReds(rs + [(file, out)]) == PrintReds(rs) + PrintRedir(file, out)
    decreases |rs|
  {
    var all := rs + [(file, out)];
    if rs == [] {
      assert all[1..] == [];
      assert PrintRedir(file, out) + "" == PrintRedir(file, out);
      assert "" + PrintRedir(file, out) == PrintRedir(file, out);
    } else {
      assert all[1..] == rs[1..] + [(file, out)];
      PrintSnoc(rs[1..], file, out);
      hide PrintRedir;
      var a, b, c := PrintRedir(rs[0].0, rs[0].1), PrintReds(rs[1..]), PrintRedir(file, out);
      assert a + (b + c) == (a + b) + c;
    }
  }

  lemma {:induction false} BaseShape(t: Tree)
    requires Printable(t)
    ensures WrapTree(Base(t), RedsOf(t)) == t && PrintAtom(t) == PrintCore(Base(t)) + PrintReds(RedsOf(t))
    ensures RedWords(RedsOf(t)) && Printable(Base(t)) && !Base(t).TRed? && Size(Base(t)) <= Size(t)
    ensures t.TRed? ==> Size(Base(t)) < Size(t)
    ensures !t.TRed? ==> Base(t) == t
  {
    if t.TRed? {
      hide PrintRedir, PrintReds, PrintCore, WrapTree, PrintAtom, Print;
      BaseShape(t.cmd);
      WrapSnoc(Base(t), RedsOf(t.cmd), t.file, t.out);
      PrintRed(t);
    } else {
      assert PrintCore(t) + "" == PrintCore(t);
    }
  }

  lemma PrintRed(t: Tree)
    requires t.TRed? && PrintAtom(t.cmd) == PrintCore(Base(t)) + PrintReds(RedsOf(t.cmd))
    ensures PrintAtom(t) == PrintCore(Base(t)) + PrintReds(RedsOf(t))
  {
    var rs := RedsOf(t.cmd);
    PrintSnoc(rs, t.file, t.out);
    hide PrintRedir, PrintReds, PrintCore;
    var a, b, c := PrintCore(Base(t)), PrintReds(rs), PrintRedir(t.file, t.out);
    Assoc(a, b, c);
  }

  lemma {:induction false} CleanAtom(t: Tree, b: string)
    requires Printable(t) && Clean(b)
    ensures Clean(PrintAtom(t) + b) && Clean(Print(t) + b)
    decreases t, 0
  {
    match t
    case TExec(args) => CleanArgs(args, b);
    case TRed(cmd, file, out) => CleanJoin(cmd, PrintRedir(file, out), b);
    case TPipe(l, r) => CleanOperator(l, "|" + PrintAtom(r), b);
    case TList(l, r) => CleanOperator(l, ";" + PrintAtom(r), b);
    case TBack(cmd) => CleanOperator(cmd, "&", b);
  }

  lemma {:induction false} CleanJoin(t: Tree, c: string, b: string)
    requires Printable(t) && c != "" && !White(c[0])
    ensures Clean(PrintAtom(t) + c + b)
    decreases t, 1
  {
    assert PrintAtom(t) + c + b == PrintAtom(t) + (c + b);
    CleanAtom(t, c + b);
  }

  lemma {:induction false} CleanOperator(t: Tree, c: string, b: string)
    requires Printable(t) && c != "" && !White(c[0])
    ensures Clean(PrintAtom(t) + c + b) && forall d :: Clean("(" + d + ")" + b)
    decreases t, 2
  {
    CleanJoin(t, c, b);
  }

  /** A block: the line between the parentheses, and the redirections behind them. */
  lemma BlockStep(s: string, i: nat, j: nat, line: Res<Cmd>, r: Res<seq<Redir>>)
    requires i < |s| && SkipWhite(s, i) == i && s[i] == '(' && GetToken(s, i).next == j && j <= |s|
    requires line == ParseLine(s, j) && line.Ok? && line.pos < |s| && SkipWhite(s, line.pos) == line.pos && s[line.pos] == ')'
    requires r == ParseRedirs(s, GetToken(s, line.pos).next) && r.Ok?
    ensures ParseExec(s, i) == Ok(Wrap(line.val, r.val), r.pos)
  {
    assert Peek(s, i, "(") && Peek(s, line.pos, ")");
    hide GetToken, SkipWhite, ParseRedirs, ParseLine, Peek;
  }

  lemma BlockShape(s: string, i: nat, base: Tree, rs: Reds, b: string)
    requires !Simple(base) && Printable(base) && RedWords(rs) && Clean(b) && Here(s, i, PrintCore(base) + PrintReds(rs), b)
    ensures Here(s, i, "(", Print(base) + (")" + (PrintReds(rs) + b)))
    ensures Clean(Print(base) + (")" + (PrintReds(rs) + b))) && Clean(PrintReds(rs) + b)
  {
    CleanReds(rs, b);
    CleanAtom(base, ")" + (PrintReds(rs) + b));
    Bracketed(Print(base), PrintReds(rs), b);
    hide Print, PrintReds;
  }

  lemma Assoc(a: string, b: string, c: string)
    ensures a + b + c == a + (b + c)
  {}

  lemma Bracketed(p: string, q: string, b: string)
    ensures "(" + p + ")" + q + b == "(" + (p + (")" + (q + b)))
  {
    Assoc("(" + p + ")", q, b);
    Assoc("(" + p, ")", q + b);
    Assoc("(", p, ")" + (q + b));
  }

  /** Behind a simple command or a block that is not an operand of '|'. */
  lemma PipeStop(s: string, i: nat, e: Res<Cmd>, b: string)
    requires i <= |s| && e == ParseExec(s, i) && e.Ok? && Here(s, e.pos, "", b) && Follow(b) && (b == "" || b[0] != '|')
    ensures ParsePipe(s, i) == e
  {
    SkipNothing(s, e.pos, b);
    hide ParseExec;
  }

  lemma PipeStep(s: string, i: nat, e: Res<Cmd>, r: Res<Cmd>)
    requires i <= |s| && e == ParseExec(s, i) && e.Ok? && e.pos < |s| && SkipWhite(s, e.pos) == e.pos && s[e.pos] == '|'
    requires r == ParsePipe(s, GetToken(s, e.pos).next) && r.Ok?
    ensures ParsePipe(s, i) == Ok(Pipe(e.val, r.val), r.pos)
  {
    assert Peek(s, e.pos, "|");
    hide ParseExec, Peek, GetToken;
  }

  /** The end of a line: nothing follows, or a closing parenthesis. */
  predicate Closed(b: string) { b == "" || b[0] == ')' }

  lemma LineStop(s: string, i: nat, p: Res<Cmd>, b: string)
    requires i <= |s| && p == ParsePipe(s, i) && p.Ok? && Here(s, p.pos, "", b) && Closed(b)
    ensures ParseLine(s, i) == p
  {
    SkipNothing(s, p.pos, b);
    hide ParsePipe;
  }

  lemma ListStep(s: string, i: nat, p: Res<Cmd>, r: Res<Cmd>)
    requires i <= |s| && p == ParsePipe(s, i) && p.Ok? && p.pos < |s| && SkipWhite(s, p.pos) == p.pos && s[p.pos] == ';'
    requires r == ParseLine(s, GetToken(s, p.pos).next) && r.Ok?
    ensures ParseLine(s, i) == Ok(List(p.val, r.val), r.pos)
  {
    assert Peek(s, p.pos, ";") && !Peek(s, p.pos, "&");
    assert ParseBacks(s, p.pos, p.val) == (p.val, p.pos);
    hide ParsePipe, Peek, GetToken, ParseBacks;
  }

  lemma BackStep(s: string, i: nat, p: Res<Cmd>, j: nat, b: string)
    requires i <= |s| && p == ParsePipe(s, i) && p.Ok? && p.pos < |s| && SkipWhite(s, p.pos) == p.pos && s[p.pos] == '&'
    requires j == GetToken(s, p.pos).next && Here(s, j, "", b) && Closed(b)
    ensures ParseLine(s, i) == Ok(Back(p.val), j)
  {
    SkipNothing(s, j, b);
    assert Peek(s, p.pos, "&") && !Peek(s, j, "&") && !Peek(s, j, ";");
    assert ParseBacks(s, j, Back(p.val)) == (Back(p.val), j);
    assert ParseBacks(s, p.pos, p.val) == (Back(p.val), j);
    hide ParsePipe, Peek, GetToken, ParseBacks;
  }

  /** Parsing what was printed for t as an operand of `|`, `;` or `&`. */
  lemma {:induction false} AtomBack(s: string, i: nat, t: Tree, b: string)
    requires Printable(t) && Follow(b) && Here(s, i, PrintAtom(t), b)
    ensures var r := ParseExec(s, i);
            i <= |s| && r.Ok? && Here(s, r.pos, "", b) && ToTree(s, r.val) == t
    decreases Size(t), if Simple(t) then 0 else 1, 0
  {
    hide *;
    BaseShape(t);
    HereBound'(s, i, PrintAtom(t), b);
    FollowReds(b);
    var base, rs := Base(t), RedsOf(t);
    if base.TExec? {
      ExecShape(s, i, base, rs, b);
      ExecPrintable(base);
      SimpleBack(s, i, base.args, rs, b);
    } else {
      SimpleBase(t);
      BlockShape(s, i, base, rs, b);
      var tail := ")" + (PrintReds(rs) + b);
      SymbolToken(s, i, '(', Print(base) + tail);
      HereDrop(s, i + 1, Print(base), tail);
      ClosedTail(PrintReds(rs) + b);
      LineBack(s, i + 1, base, tail);
      var line := ParseLine(s, i + 1);
      HereDrop(s, line.pos, ")", PrintReds(rs) + b);
      SymbolToken(s, line.pos, ')', PrintReds(rs) + b);
      HereDrop(s, line.pos + 1, PrintReds(rs), b);
      RedirsBack(s, line.pos + 1, rs, b);
      var r := ParseRedirs(s, line.pos + 1);
      HereBound(s, r.pos, b);
      BlockStep(s, i, i + 1, line, r);
      WrapBack(s, line.val, r.val);
    }
  }

  lemma HereBound'(s: string, i: nat, a: string, b: string)
    requires Here(s, i, a, b)
    ensures i <= |s|
  {}

  lemma ExecShape(s: string, i: nat, base: Tree, rs: Reds, b: string)
    requires base.TExec? && Here(s, i, PrintCore(base) + PrintReds(rs), b)
    ensures Here(s, i, PrintArgs(base.args), PrintReds(rs) + b)
  {
    Regroup(s, i, PrintArgs(base.args), PrintReds(rs), b);
  }

  lemma ExecPrintable(base: Tree)
    requires base.TExec? && Printable(base)
    ensures AllWords(base.args) && |base.args| < MAXARGS && base == TExec(base.args)
  {}

  lemma SimpleBase(t: Tree)
    requires !Base(t).TExec? && !Base(t).TRed?
    ensures !Simple(Base(t)) && (t.TRed? ==> Simple(t)) && !t.TExec?
  {}

  lemma ClosedTail(c: string)
    ensures Closed(")" + c) && ")" + c != ""
  {}

  /** Parsing a printed line, at the end of the input or in front of a closing parenthesis. */
  lemma {:induction false} LineBack(s: string, i: nat, t: Tree, b: string)
    requires Printable(t) && Closed(b) && Here(s, i, Print(t), b)
    ensures var r := ParseLine(s, i);
            i <= |s| && r.Ok? && Here(s, r.pos, "", b) && ToTree(s, r.val) == t
    decreases Size(t), if Simple(t) then 1 else 0, 1
  {
    hide *;
    match t
    case TPipe(l, r) => PipeBack(s, i, t, b);
    case TList(l, r) => ListBack(s, i, t, b);
    case TBack(cmd) => BackBack(s, i, t, b);
    case _ =>
      SimplePrint(t);
      ClosedFollow(b);
      AtomLine(s, i, t, b);
  }

  lemma SimplePrint(t: Tree)
    requires t.TExec? || t.TRed?
    ensures PrintAtom(t) == Print(t) && Simple(t)
  {}

  lemma ClosedFollow(b: string)
    requires Closed(b)
    ensures Follow(b) && Clean(b) && (b == "" || b[0] != '|')
  {}

  /** An operand alone makes a line. */
  lemma {:induction false} AtomLine(s: string, i: nat, t: Tree, b: string)
    requires Printable(t) && Closed(b) && Here(s, i, PrintAtom(t), b)
    ensures var r := ParseLine(s, i);
            i <= |s| && r.Ok? && Here(s, r.pos, "", b) && ToTree(s, r.val) == t
    decreases Size(t), if Simple(t) then 0 else 1, 1
  {
    hide *;
    ClosedFollow(b);
    AtomBack(s, i, t, b);
    PipeStop(s, i, ParseExec(s, i), b);
    LineStop(s, i, ParsePipe(s, i), b);
  }

  lemma {:induction false} PipeBack(s: string, i: nat, t: Tree, b: string)
    requires t.TPipe? && Printable(t) && Closed(b) && Here(s, i, Print(t), b)
    ensures var r := ParseLine(s, i);
            i <= |s| && r.Ok? && Here(s, r.pos, "", b) && ToTree(s, r.val) == t
    decreases Size(t), 0, 0
  {
    hide *;
    var tail := PrintAtom(t.right) + b;
    Operands(s, i, t, t.left, t.right, '|', b);
    AtomBack(s, i, t.left, "|" + tail);
    var e := ParseExec(s, i);
    HereDrop(s, e.pos, "|", tail);
    SymbolToken(s, e.pos, '|', tail);
    HereDrop(s, e.pos + 1, PrintAtom(t.right), b);
    ClosedFollow(b);
    AtomBack(s, e.pos + 1, t.right, b);
    PipeStop(s, e.pos + 1, ParseExec(s, e.pos + 1), b);
    PipeStep(s, i, e, ParsePipe(s, e.pos + 1));
    LineStop(s, i, ParsePipe(s, i), b);
    TreeOfPipe(s, e.val, ParsePipe(s, e.pos + 1).val);
  }

  lemma {:induction false} ListBack(s: string, i: nat, t: Tree, b: string)
    requires t.TList? && Printable(t) && Closed(b) && Here(s, i, Print(t), b)
    ensures var r := ParseLine(s, i);
            i <= |s| && r.Ok? && Here(s, r.pos, "", b) && ToTree(s, r.val) == t
    decreases Size(t), 0, 0
  {
    hide *;
    var tail := PrintAtom(t.right) + b;
    Operands(s, i, t, t.left, t.right, ';', b);
    AtomBack(s, i, t.left, ";" + tail);
    var e := ParseExec(s, i);
    NotPipe(";" + tail);
    PipeStop(s, i, e, ";" + tail);
    HereDrop(s, e.pos, ";", tail);
    SymbolToken(s, e.pos, ';', tail);
    HereDrop(s, e.pos + 1, PrintAtom(t.right), b);
    AtomLine(s, e.pos + 1, t.right, b);
    ListStep(s, i, e, ParseLine(s, e.pos + 1));
    TreeOfList(s, e.val, ParseLine(s, e.pos + 1).val);
  }

  lemma {:induction false} BackBack(s: string, i: nat, t: Tree, b: string)
    requires t.TBack? && Printable(t) && Closed(b) && Here(s, i, Print(t), b)
    ensures var r := ParseLine(s, i);
            i <= |s| && r.Ok? && Here(s, r.pos, "", b) && ToTree(s, r.val) == t
    decreases Size(t), 0, 0
  {
    hide *;
    BackShape(s, i, t, b);
    AtomBack(s, i, t.cmd, "&" + b);
    var e := ParseExec(s, i);
    NotPipe("&" + b);
    PipeStop(s, i, e, "&" + b);
    HereDrop(s, e.pos, "&", b);
    ClosedFollow(b);
    SymbolToken(s, e.pos, '&', b);
    BackStep(s, i, e, e.pos + 1, b);
    TreeOfBack(s, e.val);
  }

  lemma Operands(s: string, i: nat, t: Tree, l: Tree, r: Tree, c: char, b: string)
    requires Printable(t) && Closed(b) && Here(s, i, Print(t), b)
    requires (t == TPipe(l, r) && c == '|') || (t == TList(l, r) && c == ';')
    ensures Here(s, i, PrintAtom(l), [c] + (PrintAtom(r) + b)) && Follow([c] + (PrintAtom(r) + b)) && Clean(PrintAtom(r) + b)
    ensures Printable(l) && Printable(r) && Size(l) < Size(t) && Size(r) < Size(t) && Symbol(c)
  {
    CleanAtom(r, b);
    Assoc(PrintAtom(l) + [c], PrintAtom(r), b);
    Assoc(PrintAtom(l), [c], PrintAtom(r) + b);
    hide PrintAtom;
  }

  lemma BackShape(s: string, i: nat, t: Tree, b: string)
    requires t.TBack? && Printable(t) && Here(s, i, Print(t), b)
    ensures Here(s, i, PrintAtom(t.cmd), "&" + b) && Follow("&" + b) && Printable(t.cmd) && Size(t.cmd) < Size(t) && Symbol('&')
  {
    Assoc(PrintAtom(t.cmd), "&", b);
  }

  lemma NotPipe(b: string)
    requires Follow(b)
    ensures b != "" && b[0] != '|' ==> Clean(b)
  {}

  lemma TreeOfPipe(s: string, l: Cmd, r: Cmd)
    ensures ToTree(s, Pipe(l, r)) == TPipe(ToTree(s, l), ToTree(s, r))
  {}

  lemma TreeOfList(s: string, l: Cmd, r: Cmd)
    ensures ToTree(s, List(l, r)) == TList(ToTree(s, l), ToTree(s, r))
  {}

  lemma TreeOfBack(s: string, c: Cmd)
    ensures ToTree(s, Back(c)) == TBack(ToTree(s, c))
  {}

  /** Round trip: for every printable tree, parsecmd of its text consumes the whole text and rebuilds the tree. */
  lemma RoundTrip(t: Tree)
    requires Printable(t)
    ensures var r := ParseCmd(Print(t));
            r.Ok? && r.pos == |Print(t)| && ToTree(Print(t), r.val) == t
  {
    var s := Print(t);
    assert s[0..] == s + "";
    LineBack(s, 0, t, "");
    var line := ParseLine(s, 0);
    assert line.pos == |s| by { HereBound(s, line.pos, ""); }
  }
}

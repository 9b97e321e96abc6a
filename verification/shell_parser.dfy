/** The recursive-descent parser of OS/xv6-public/sh.c as it is written, with its moving cursor,
    and nulterminate, which overwrites the input buffer in place. */
module ShellParser {
  import opened ShellGrammar
  import opened ShellRoundTrip
  import opened ShellTokens
  import opened ShellSyntax

  // ---------------------------------------------------------------- peeking does not change the rest

  lemma SkippedRedirs(s: string, i: nat)
    requires i <= |s|
    ensures ParseRedirs(s, SkipWhite(s, i)) == ParseRedirs(s, i)
  {
    hide SkipWhite, GetToken, Peek;
    SkipTwice(s, i);
    Skipped(s, i);
  }

  lemma SkippedArgs(s: string, i: nat, argc: nat)
    requires i <= |s|
    ensures ParseArgs(s, SkipWhite(s, i), argc) == ParseArgs(s, i, argc)
  {
    hide SkipWhite, GetToken, Peek, ParseRedirs;
    SkipTwice(s, i);
    Skipped(s, i);
  }

  lemma SkippedExec(s: string, i: nat)
    requires i <= |s|
    ensures ParseExec(s, SkipWhite(s, i)) == ParseExec(s, i)
  {
    hide SkipWhite, GetToken, Peek, ParseRedirs, ParseArgs, ParseLine;
    SkipTwice(s, i);
    Skipped(s, i);
  }

  lemma SkippedBacks(s: string, i: nat, cmd: Cmd)
    requires i <= |s|
    ensures ParseBacks(s, SkipWhite(s, i), cmd) == ParseBacks(s, i, cmd)
  {
    hide SkipWhite, GetToken, Peek;
    SkipTwice(s, i);
    Skipped(s, i);
  }

  // ---------------------------------------------------------------- the loops so far

  /** What a loop over redirections has found, followed by what the rest of the input holds. */
  function Joined(done: seq<Redir>, r: Res<seq<Redir>>): Res<seq<Redir>> {
    if r.Panic? then Panic else Ok(done + r.val, r.pos)
  }

  lemma JoinedNone(r: Res<seq<Redir>>)
    ensures Joined([], r) == r
  {
    if r.Ok? { assert [] + r.val == r.val; }
  }

  lemma JoinedSnoc(done: seq<Redir>, x: Redir, r: Res<seq<Redir>>)
    ensures Joined(done, Joined([x], r)) == Joined(done + [x], r)
  {
    if r.Ok? { assert done + ([x] + r.val) == done + [x] + r.val; }
  }

  lemma RedirsTurn(s: string, i: nat)
    requires i <= |s| && SkipWhite(s, i) == i
    ensures Peek(s, i, "<>") ==>
              var op := GetToken(s, i); var file := GetToken(s, op.next);
              op.kind != NUL && op.next > i && ParseRedirs(s, i) ==
              if file.kind != 'a' then Panic
              else Joined([Redir(file.span, op.kind != '<')], ParseRedirs(s, file.next))
    ensures !Peek(s, i, "<>") ==> ParseRedirs(s, i) == Ok([], i)
  {
    hide SkipWhite;
  }

  type Args = Res<(seq<Span>, seq<Redir>)>

  function JoinedArgs(argv: seq<Span>, redirs: seq<Redir>, r: Args): Args {
    if r.Panic? then Panic else Ok((argv + r.val.0, redirs + r.val.1), r.pos)
  }

  lemma JoinedArgsSnoc(argv: seq<Span>, redirs: seq<Redir>, t: Span, more: seq<Redir>, r: Args)
    ensures JoinedArgs(argv, redirs, JoinedArgs([t], more, r)) == JoinedArgs(argv + [t], redirs + more, r)
  {
    if r.Ok? {
      assert argv + ([t] + r.val.0) == argv + [t] + r.val.0;
      assert redirs + (more + r.val.1) == redirs + more + r.val.1;
    }
  }

  lemma JoinedArgsNone(r: Args)
    ensures JoinedArgs([], [], r) == r
  {
    if r.Ok? { assert [] + r.val.0 == r.val.0 && [] + r.val.1 == r.val.1; }
  }

  lemma JoinedArgsEnd(argv: seq<Span>, redirs: seq<Redir>, pos: nat)
    ensures JoinedArgs(argv, redirs, Ok(([], []), pos)) == Ok((argv, redirs), pos)
    ensures JoinedArgs(argv, redirs, Panic) == Panic
  {
    assert argv + [] == argv && redirs + [] == redirs;
  }

  lemma ArgsTurn(s: string, i: nat, argc: nat)
    requires i <= |s| && SkipWhite(s, i) == i
    ensures Peek(s, i, "|)&;") ==> ParseArgs(s, i, argc) == Ok(([], []), i)
    ensures !Peek(s, i, "|)&;") ==>
              var t := GetToken(s, i);
              ParseArgs(s, i, argc) ==
              if t.kind == NUL then Ok(([], []), t.next)
              else if t.kind != 'a' || argc + 1 >= MAXARGS || ParseRedirs(s, t.next).Panic? then Panic
              else JoinedArgs([t.span], ParseRedirs(s, t.next).val, ParseArgs(s, ParseRedirs(s, t.next).pos, argc + 1))
  {
    hide SkipWhite, GetToken, Peek, ParseRedirs;
  }

  lemma SimpleCase(s: string, i: nat)
    requires i <= |s| && SkipWhite(s, i) == i && !Peek(s, i, "(")
    ensures ParseExec(s, i) ==
            var r := ParseRedirs(s, i);
            if r.Panic? || ParseArgs(s, r.pos, 0).Panic? then Panic
            else var a := ParseArgs(s, r.pos, 0); Ok(Wrap(Exec(a.val.0), r.val + a.val.1), a.pos)
  {
    hide SkipWhite, GetToken, Peek, ParseRedirs, ParseArgs;
  }

  predicate Agrees(cmd: Cmd, panic: bool, pos: nat, r: Res<Cmd>) {
    panic == r.Panic? && (r.Ok? ==> cmd == r.val && pos == r.pos)
  }

  class Parser {
    const s: string   // the input; the buffer holds a NUL at |s|, which is `es`
    var pos: nat      // *ps

    ghost predicate Valid() reads this { pos <= |s| }

    constructor (s: string)
      ensures Valid() && this.s == s && pos == 0
    {
      this.s := s;
      pos := 0;
    }

    method SkipBlanks()
      requires Valid()
      modifies this
      ensures Valid() && pos == SkipWhite(s, old(pos))
    {
      while pos < |s| && White(s[pos])
        invariant Valid() && SkipWhite(s, pos) == SkipWhite(s, old(pos))
      {
        pos := pos + 1;
      }
    }

    method NextToken() returns (kind: char, span: Span)
      requires Valid()
      modifies this
      ensures Valid()
      ensures Token(kind, span, pos) == GetToken(s, old(pos)) && IsToken(s, old(pos), Token(kind, span, pos))
    {
      hide IsToken;
      TokenExact(s, pos);
      SkipBlanks();
      var q := pos;
      var c := Char(s, pos);
      kind := c;
      if c == NUL {
      } else if c == '|' || c == '(' || c == ')' || c == ';' || c == '&' || c == '<' {
        pos := pos + 1;
      } else if c == '>' {
        pos := pos + 1;
        if Char(s, pos) == '>' {
          kind := '+';
          pos := pos + 1;
        }
      } else {
        kind := 'a';
        while pos < |s| && !White(s[pos]) && !Symbol(s[pos])
          invariant Valid() && WordEnd(s, pos) == WordEnd(s, q)
        {
          pos := pos + 1;
        }
      }
      span := Span(q, pos);
      SkipBlanks();
    }

    method LookFor(toks: string) returns (found: bool)
      requires Valid()
      modifies this
      ensures Valid() && pos == SkipWhite(s, old(pos))
      ensures found == Peek(s, old(pos), toks)
      ensures IsPeek(s, old(pos), pos, toks, found)
    {
      hide IsPeek;
      PeekExact(s, pos, toks);
      SkipBlanks();
      var c := Char(s, pos);
      found := c != NUL && c in toks;
    }

    // -------------------------------------------------------------- commands

    /** parseredirs, up to the REDIR nodes, which the caller wraps around its command. */
    method Redirections() returns (redirs: seq<Redir>, panic: bool)
      requires Valid()
      modifies this
      ensures Valid()
      ensures var r := ParseRedirs(s, old(pos));
              panic == r.Panic? && (r.Ok? ==> redirs == r.val && pos == r.pos)
      ensures pos >= old(pos)
    {
      hide SkipWhite, GetToken, Peek, ParseRedirs, IsPeek, IsToken;
      redirs, panic := [], false;
      SkippedRedirs(s, pos);
      SkipTwice(s, pos);
      Skipped(s, pos);
      JoinedNone(ParseRedirs(s, pos));
      var more := LookFor("<>");
      while more
        invariant Valid() && SkipWhite(s, pos) == pos && more == Peek(s, pos, "<>") && pos >= old(pos)
        invariant Joined(redirs, ParseRedirs(s, pos)) == ParseRedirs(s, old(pos))
        decreases more, |s| - pos
      {
        RedirsTurn(s, pos);
        var op, _ := NextToken();
        var kind, file := NextToken();
        if kind != 'a' {
          return redirs, true;
        }
        JoinedSnoc(redirs, Redir(file, op != '<'), ParseRedirs(s, pos));
        redirs := redirs + [Redir(file, op != '<')];
        SkippedRedirs(s, pos);
        SkipTwice(s, pos);
        Skipped(s, pos);
        more := LookFor("<>");
      }
      RedirsTurn(s, pos);
    }

    /** parseexec without the block: arguments and redirections in any order. */
    method Simple() returns (cmd: Cmd, panic: bool)
      requires Valid() && SkipWhite(s, pos) == pos && !Peek(s, pos, "(")
      modifies this
      ensures Valid() && Agrees(cmd, panic, pos, ParseExec(s, old(pos)))
    {
      hide SkipWhite, GetToken, Peek, ParseRedirs, ParseArgs, Wrap, ParseExec, Joined, JoinedArgs, IsPeek, IsToken;
      cmd := Exec([]);
      ghost var start := pos;
      SimpleCase(s, start);
      var redirs;
      redirs, panic := Redirections();
      if panic { return; }
      ghost var before, tail, args := redirs, [], ParseArgs(s, pos, 0);
      var argv: seq<Span> := [];
      JoinedArgsNone(args);
      SkippedArgs(s, pos, 0);
      SkipTwice(s, pos);
      Skipped(s, pos);
      var stop := LookFor("|)&;");
      while !stop
        invariant Valid() && SkipWhite(s, pos) == pos && stop == Peek(s, pos, "|)&;") && |argv| < MAXARGS
        invariant redirs == before + tail && JoinedArgs(argv, tail, ParseArgs(s, pos, |argv|)) == args
        decreases !stop, |s| - pos
      {
        ArgsTurn(s, pos, |argv|);
        JoinedArgsEnd(argv, tail, GetToken(s, pos).next);
        var kind, t := NextToken();
        if kind == NUL {
          return Wrap(Exec(argv), redirs), false;
        }
        if kind != 'a' || |argv| + 1 >= MAXARGS {
          return cmd, true;
        }
        var more;
        more, panic := Redirections();
        if panic { return; }
        JoinedArgsSnoc(argv, tail, t, more, ParseArgs(s, pos, |argv| + 1));
        argv, redirs, tail := argv + [t], redirs + more, tail + more;
        SkippedArgs(s, pos, |argv|);
        SkipTwice(s, pos);
        Skipped(s, pos);
        stop := LookFor("|)&;");
      }
      ArgsTurn(s, pos, |argv|);
      JoinedArgsEnd(argv, tail, pos);
      cmd := Wrap(Exec(argv), redirs);
    }

    /** parseexec. */
    method Command() returns (cmd: Cmd, panic: bool)
      requires Valid()
      modifies this
      ensures Valid() && Agrees(cmd, panic, pos, ParseExec(s, old(pos)))
      decreases |s| - pos, 1
    {
      hide SkipWhite, GetToken, Peek, ParseRedirs, ParseArgs, Wrap, IsPeek, IsToken;
      SkippedExec(s, pos);
      SkipTwice(s, pos);
      Skipped(s, pos);
      var block := LookFor("(");
      if block {
        cmd, panic := Block();
      } else {
        cmd, panic := Simple();
      }
    }

    /** parseblock, called only in front of '('. */
    method Block() returns (cmd: Cmd, panic: bool)
      requires Valid() && SkipWhite(s, pos) == pos && Peek(s, pos, "(")
      modifies this
      ensures Valid() && Agrees(cmd, panic, pos, ParseBlock(s, old(pos)))
      decreases |s| - pos, 0
    {
      hide SkipWhite, GetToken, Peek, ParseRedirs, ParseLine, Wrap, IsPeek, IsToken;
      SymbolNext(s, pos, "(");
      var _, _ := NextToken();
      cmd, panic := Line();
      if panic { return; }
      Skipped(s, pos);
      var closed := LookFor(")");
      if !closed {
        return cmd, true;
      }
      var _, _ := NextToken();
      var redirs;
      redirs, panic := Redirections();
      cmd := Wrap(cmd, redirs);
    }

    /** parsepipe. */
    method Pipeline() returns (cmd: Cmd, panic: bool)
      requires Valid()
      modifies this
      ensures Valid() && Agrees(cmd, panic, pos, ParsePipe(s, old(pos)))
      decreases |s| - pos, 2
    {
      hide SkipWhite, GetToken, Peek, ParseExec, IsPeek, IsToken;
      cmd, panic := Command();
      if panic { return; }
      Skipped(s, pos);
      var bar := LookFor("|");
      if bar {
        SymbolNext(s, pos, "|");
        var _, _ := NextToken();
        var right;
        right, panic := Pipeline();
        cmd := Pipe(cmd, right);
      }
    }

    /** parseline. */
    method Line() returns (cmd: Cmd, panic: bool)
      requires Valid()
      modifies this
      ensures Valid() && Agrees(cmd, panic, pos, ParseLine(s, old(pos)))
      decreases |s| - pos, 3
    {
      hide SkipWhite, GetToken, Peek, ParsePipe, IsPeek, IsToken;
      cmd, panic := Pipeline();
      if panic { return; }
      ghost var start, first := pos, cmd;
      SkippedBacks(s, pos, cmd);
      SkipTwice(s, pos);
      Skipped(s, pos);
      var more := LookFor("&");
      while more
        invariant Valid() && SkipWhite(s, pos) == pos && more == Peek(s, pos, "&")
        invariant ParseBacks(s, pos, cmd) == ParseBacks(s, start, first)
        decreases more, |s| - pos
      {
        SymbolNext(s, pos, "&");
        var _, _ := NextToken();
        cmd := Back(cmd);
        SkippedBacks(s, pos, cmd);
        SkipTwice(s, pos);
        Skipped(s, pos);
        more := LookFor("&");
      }
      Skipped(s, pos);
      SkipTwice(s, pos);
      var semi := LookFor(";");
      if semi {
        SymbolNext(s, pos, ";");
        var _, _ := NextToken();
        var right;
        right, panic := Line();
        cmd := List(cmd, right);
      }
    }
  }

  lemma SymbolNext(s: string, i: nat, toks: string)
    requires i <= |s| && Peek(s, i, toks)
    ensures GetToken(s, i).next > i
  {}

  /** nulterminate: writes the terminators of all the strings of the tree, in the tree's own order. */
  method NulTerminate(buf: array<char>, cmd: Cmd)
    requires forall k :: k in Ends(cmd) ==> 0 <= k < buf.Length
    modifies buf
    ensures forall k :: 0 <= k < buf.Length ==> buf[k] == if k in Ends(cmd) then NUL else old(buf[k])
    decreases cmd
  {
    match cmd
    case Exec(argv) =>
      var i := 0;
      while i < |argv|
        invariant 0 <= i <= |argv|
        invariant forall k :: 0 <= k < buf.Length ==> buf[k] == if k in ArgEnds(argv[..i]) then NUL else old(buf[k])
      {
        assert argv[i].eq in Ends(cmd);
        assert argv[..i + 1] == argv[..i] + [argv[i]];
        assert ArgEnds(argv[..i + 1]) == ArgEnds(argv[..i]) + {argv[i].eq};
        buf[argv[i].eq] := NUL;
        i := i + 1;
      }
      assert argv[..i] == argv;
    case Red(inner, r) =>
      assert Ends(cmd) == Ends(inner) + {r.file.eq};
      assert r.file.eq in Ends(cmd) && forall k :: k in Ends(inner) ==> k in Ends(cmd);
      NulTerminate(buf, inner);
      buf[r.file.eq] := NUL;
    case Pipe(l, r) =>
      assert Ends(cmd) == Ends(l) + Ends(r);
      assert forall k :: k in Ends(l) || k in Ends(r) ==> k in Ends(cmd);
      NulTerminate(buf, l);
      NulTerminate(buf, r);
    case List(l, r) =>
      assert Ends(cmd) == Ends(l) + Ends(r);
      assert forall k :: k in Ends(l) || k in Ends(r) ==> k in Ends(cmd);
      NulTerminate(buf, l);
      NulTerminate(buf, r);
    case Back(inner) =>
      assert Ends(cmd) == Ends(inner);
      NulTerminate(buf, inner);
  }

  /** parsecmd on a buffer that holds the text and its NUL: the tree is the grammar's, and each string
      the executor will read from the buffer is exactly the token that was parsed. */
  method ParseCommand(buf: array<char>) returns (cmd: Cmd, panic: bool)
    requires buf.Length > 0 && buf[buf.Length - 1] == NUL && NoNul(buf[..buf.Length - 1])
    modifies buf
    ensures var s := old(buf[..buf.Length - 1]);
            panic == ParseCmd(s).Panic?
            && (!panic ==> cmd == ParseCmd(s).val && FromBuffer(buf[..], cmd) == ToTree(s, cmd))
    ensures var s := old(buf[..buf.Length - 1]);
            (!panic <==> exists l :: FitLine(l) && Toks(s, 0) == FlatLine(l))
            && forall l :: FitLine(l) && Toks(s, 0) == FlatLine(l) ==> FromBuffer(buf[..], cmd) == TreeLine(l)
  {
    hide FitLine, Toks, FlatLine, TreeLine;
    var s := buf[..buf.Length - 1];
    AcceptedIff(s);
    var p := new Parser(s);
    cmd, panic := p.Line();
    if panic { return; }
    var _ := p.LookFor("");
    if p.pos != |s| {
      return cmd, true;
    }
    ParsedProper(s);
    EndsOutside(s, cmd);
    NulTerminate(buf, cmd);
    OwnTokens(buf[..], s, Ends(cmd), cmd);
  }
}

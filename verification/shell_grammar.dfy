/** What the parser of OS/xv6-public/sh.c computes, as functions of the input and a position.
    A position equal to the length stands for `es`, where the buffer holds the final NUL. */
module ShellGrammar {

  const MAXARGS: nat := 10
  const NUL: char := '\0'

  /** A token, from q up to (not including) eq. */
  datatype Span = Span(q: nat, eq: nat)

  /** One redirection; `out` is false for '<', and true for '>' and '>>', which sh.c treats alike. */
  datatype Redir = Redir(file: Span, out: bool)

  /** The command tree; an EXEC node has its argv and eargv, a REDIR node its file and efile. */
  datatype Cmd =
    | Exec(argv: seq<Span>)
    | Red(cmd: Cmd, redir: Redir)
    | Pipe(left: Cmd, right: Cmd)
    | List(left: Cmd, right: Cmd)
    | Back(cmd: Cmd)

  /** panic() ends the process; otherwise a value, and where the cursor stands. */
  datatype Res<T> = Panic | Ok(val: T, pos: nat)

  // ---------------------------------------------------------------- tokens

  predicate White(c: char) { c == ' ' || c == '\t' || c == '\r' || c == '\n' || c == (11 as char) }

  predicate Symbol(c: char) { c == '<' || c == '|' || c == '>' || c == '&' || c == ';' || c == '(' || c == ')' }

  predicate WordChar(c: char) { !White(c) && !Symbol(c) && c != NUL }

  /** *s, for a pointer that may be es. */
  function Char(s: string, i: nat): char { if i < |s| then s[i] else NUL }

  function SkipWhite(s: string, i: nat): (r: nat)
    requires i <= |s|
    ensures i <= r <= |s| && (r < |s| ==> !White(s[r]))
    decreases |s| - i
  {
    if i < |s| && White(s[i]) then SkipWhite(s, i + 1) else i
  }

  function WordEnd(s: string, i: nat): (r: nat)
    requires i <= |s|
    ensures i <= r <= |s|
    decreases |s| - i
  {
    if i < |s| && !White(s[i]) && !Symbol(s[i]) then WordEnd(s, i + 1) else i
  }

  /** Result of gettoken: its value, the token, and the cursor behind the white space that follows. */
  datatype Token = Token(kind: char, span: Span, next: nat)

  function GetToken(s: string, i: nat): (t: Token)
    requires i <= |s|
    ensures i <= t.span.q <= t.span.eq <= t.next <= |s|
    ensures t.kind != NUL ==> i < t.next
  {
    var q := SkipWhite(s, i);
    var c := Char(s, q);
    var kind := if c == NUL || (Symbol(c) && c != '>') then c
                else if c == '>' then (if Char(s, q + 1) == '>' then '+' else '>')
                else 'a';
    var eq := if c == NUL then q
              else if c == '>' && Char(s, q + 1) == '>' then q + 2
              else if Symbol(c) then q + 1
              else WordEnd(s, q);
    Token(kind, Span(q, eq), SkipWhite(s, eq))
  }

  /** peek: moves the cursor to the next character that is not white space, and looks at it. */
  predicate Peek(s: string, i: nat, toks: string)
    requires i <= |s|
  {
    var c := Char(s, SkipWhite(s, i));
    c != NUL && c in toks
  }

  // ---------------------------------------------------------------- commands

  function ParseRedirs(s: string, i: nat): (r: Res<seq<Redir>>)
    requires i <= |s|
    ensures r.Ok? ==> i <= r.pos <= |s|
    decreases |s| - i
  {
    var p := SkipWhite(s, i);
    if !Peek(s, i, "<>") then Ok([], p)
    else
      var op := GetToken(s, p);
      var file := GetToken(s, op.next);
      if file.kind != 'a' then Panic
      else
        var rest := ParseRedirs(s, file.next);
        if rest.Panic? then Panic
        else Ok([Redir(file.span, op.kind != '<')] + rest.val, rest.pos)
  }

  /** The loop of parseexec: arguments, each followed by redirections. */
  function ParseArgs(s: string, i: nat, argc: nat): (r: Res<(seq<Span>, seq<Redir>)>)
    requires i <= |s|
    ensures r.Ok? ==> i <= r.pos <= |s|
    decreases |s| - i
  {
    var p := SkipWhite(s, i);
    if Peek(s, i, "|)&;") then Ok(([], []), p)
    else
      var t := GetToken(s, p);
      if t.kind == NUL then Ok(([], []), t.next)
      else if t.kind != 'a' || argc + 1 >= MAXARGS then Panic
      else
        var r := ParseRedirs(s, t.next);
        if r.Panic? then Panic
        else
          var rest := ParseArgs(s, r.pos, argc + 1);
          if rest.Panic? then Panic
          else Ok(([t.span] + rest.val.0, r.val + rest.val.1), rest.pos)
  }

  /** Each redirection wraps a REDIR node around what is there. */
  function Wrap(cmd: Cmd, redirs: seq<Redir>): Cmd
    decreases |redirs|
  {
    if redirs == [] then cmd else Wrap(Red(cmd, redirs[0]), redirs[1..])
  }

  function ParseExec(s: string, i: nat): (r: Res<Cmd>)
    requires i <= |s|
    ensures r.Ok? ==> i <= r.pos <= |s|
    decreases |s| - i, 1
  {
    if Peek(s, i, "(") then ParseBlock(s, i)
    else
      var r := ParseRedirs(s, SkipWhite(s, i));
      if r.Panic? then Panic
      else
        var a := ParseArgs(s, r.pos, 0);
        if a.Panic? then Panic else Ok(Wrap(Exec(a.val.0), r.val + a.val.1), a.pos)
  }

  function ParseBlock(s: string, i: nat): (r: Res<Cmd>)
    requires i <= |s| && Peek(s, i, "(")
    ensures r.Ok? ==> i <= r.pos <= |s|
    decreases |s| - i, 0
  {
    var line := ParseLine(s, GetToken(s, i).next);
    if line.Panic? || !Peek(s, line.pos, ")") then Panic
    else
      var r := ParseRedirs(s, GetToken(s, line.pos).next);
      if r.Panic? then Panic else Ok(Wrap(line.val, r.val), r.pos)
  }

  function ParsePipe(s: string, i: nat): (r: Res<Cmd>)
    requires i <= |s|
    ensures r.Ok? ==> i <= r.pos <= |s|
    decreases |s| - i, 2
  {
    var left := ParseExec(s, i);
    if left.Panic? then Panic
    else if Peek(s, left.pos, "|") then
      var right := ParsePipe(s, GetToken(s, left.pos).next);
      if right.Panic? then Panic else Ok(Pipe(left.val, right.val), right.pos)
    else Ok(left.val, SkipWhite(s, left.pos))
  }

  /** The loop over '&'. */
  function ParseBacks(s: string, i: nat, cmd: Cmd): (r: (Cmd, nat))
    requires i <= |s|
    ensures i <= r.1 <= |s|
    decreases |s| - i
  {
    if Peek(s, i, "&") then ParseBacks(s, GetToken(s, i).next, Back(cmd)) else (cmd, SkipWhite(s, i))
  }

  function ParseLine(s: string, i: nat): (r: Res<Cmd>)
    requires i <= |s|
    ensures r.Ok? ==> i <= r.pos <= |s|
    decreases |s| - i, 3
  {
    var pipe := ParsePipe(s, i);
    if pipe.Panic? then Panic
    else
      var (cmd, p) := ParseBacks(s, pipe.pos, pipe.val);
      if Peek(s, p, ";") then
        var right := ParseLine(s, GetToken(s, p).next);
        if right.Panic? then Panic else Ok(List(cmd, right.val), right.pos)
      else Ok(cmd, SkipWhite(s, p))
  }

  /** Leftovers behind the line are a syntax error. */
  function ParseCmd(s: string): (r: Res<Cmd>) {
    var line := ParseLine(s, 0);
    if line.Panic? || SkipWhite(s, line.pos) != |s| then Panic else Ok(line.val, |s|)
  }
}

/** What the parser can return at all: its strings are whole words of the input, so that the tree
    can be printed again, and writing a NUL behind each of them damages none. */
module ShellTokens {
  import opened ShellGrammar
  import opened ShellRoundTrip

  /** A C string has no NUL inside. */
  predicate NoNul(s: string) { forall i :: 0 <= i < |s| ==> s[i] != NUL }

  /** A longest possible run of word characters. */
  predicate WholeWord(s: string, t: Span) {
    t.q < t.eq <= |s| && (forall i :: t.q <= i < t.eq ==> WordChar(s[i])) && (t.eq < |s| ==> !WordChar(s[t.eq]))
  }

  predicate WholeWords(s: string, ts: seq<Span>) { forall i :: 0 <= i < |ts| ==> WholeWord(s, ts[i]) }

  predicate WholeFiles(s: string, rs: seq<Redir>) { forall i :: 0 <= i < |rs| ==> WholeWord(s, rs[i].file) }

  /** Every argument and file name is a whole word, and argv keeps room for its final null pointer. */
  predicate Proper(s: string, c: Cmd) {
    match c
    case Exec(argv) => |argv| < MAXARGS && WholeWords(s, argv)
    case Red(cmd, r) => Proper(s, cmd) && WholeWord(s, r.file)
    case Pipe(l, r) => Proper(s, l) && Proper(s, r)
    case List(l, r) => Proper(s, l) && Proper(s, r)
    case Back(cmd) => Proper(s, cmd)
  }

  // ---------------------------------------------------------------- the parser returns proper trees

  lemma {:induction false} WordEndWhole(s: string, i: nat)
    requires i <= |s| && NoNul(s)
    ensures var e := WordEnd(s, i);
            (forall k :: i <= k < e ==> WordChar(s[k])) && (e < |s| ==> !WordChar(s[e]))
    decreases |s| - i
  {
    if i < |s| && !White(s[i]) && !Symbol(s[i]) { WordEndWhole(s, i + 1); }
  }

  lemma TokenWhole(s: string, i: nat)
    requires i <= |s| && NoNul(s)
    ensures var t := GetToken(s, i); t.kind == 'a' ==> WholeWord(s, t.span)
  {
    var q := SkipWhite(s, i);
    WordEndWhole(s, q);
    if GetToken(s, i).kind == 'a' {
      assert q < |s| && WordChar(s[q]);
      assert WordEnd(s, q) == WordEnd(s, q + 1);
    }
  }

  lemma {:induction false} RedirsWhole(s: string, i: nat)
    requires i <= |s| && NoNul(s)
    ensures var r := ParseRedirs(s, i); r.Ok? ==> WholeFiles(s, r.val)
    decreases |s| - i
  {
    var p := SkipWhite(s, i);
    if Peek(s, i, "<>") {
      var op := GetToken(s, p);
      var file := GetToken(s, op.next);
      TokenWhole(s, op.next);
      if file.kind == 'a' { RedirsWhole(s, file.next); }
    }
  }

  predicate FineArgs(s: string, argc: nat, r: Res<(seq<Span>, seq<Redir>)>) {
    r.Ok? ==> WholeWords(s, r.val.0) && WholeFiles(s, r.val.1) && argc + |r.val.0| < MAXARGS
  }

  lemma ArgsAgain(s: string, argc: nat, t: Span, r: seq<Redir>, rest: Res<(seq<Span>, seq<Redir>)>)
    requires WholeWord(s, t) && WholeFiles(s, r) && FineArgs(s, argc + 1, rest) && rest.Ok?
    ensures FineArgs(s, argc, Ok(([t] + rest.val.0, r + rest.val.1), rest.pos))
  {}

  lemma {:induction false} ArgsWhole(s: string, i: nat, argc: nat)
    requires i <= |s| && NoNul(s) && argc < MAXARGS
    ensures FineArgs(s, argc, ParseArgs(s, i, argc))
    decreases |s| - i
  {
    hide SkipWhite, GetToken, Peek, ParseRedirs, ParseArgs, WholeWord, WholeWords, WholeFiles, NoNul;
    var t := GetToken(s, SkipWhite(s, i));
    TokenWhole(s, SkipWhite(s, i));
    if Peek(s, i, "|)&;") || t.kind != 'a' || argc + 1 >= MAXARGS {
      ArgsEnd(s, i, argc);
    } else {
      RedirsWhole(s, t.next);
      var r := ParseRedirs(s, t.next);
      if r.Ok? {
        ArgsWhole(s, r.pos, argc + 1);
        if ParseArgs(s, r.pos, argc + 1).Ok? { ArgsAgain(s, argc, t.span, r.val, ParseArgs(s, r.pos, argc + 1)); }
      }
      ArgsStep(s, i, argc);
    }
  }

  lemma ArgsEnd(s: string, i: nat, argc: nat)
    requires i <= |s| && argc < MAXARGS
    requires var t := GetToken(s, SkipWhite(s, i)); Peek(s, i, "|)&;") || t.kind != 'a' || argc + 1 >= MAXARGS
    ensures FineArgs(s, argc, ParseArgs(s, i, argc))
  {
    hide SkipWhite, GetToken, Peek, ParseRedirs, WholeWord;
  }

  /** One turn of the loop over the arguments. */
  lemma ArgsStep(s: string, i: nat, argc: nat)
    requires i <= |s| && argc + 1 < MAXARGS && !Peek(s, i, "|)&;") && GetToken(s, SkipWhite(s, i)).kind == 'a'
    ensures var t := GetToken(s, SkipWhite(s, i)); var r := ParseRedirs(s, t.next); var all := ParseArgs(s, i, argc);
            if r.Panic? || ParseArgs(s, r.pos, argc + 1).Panic? then all.Panic?
            else var rest := ParseArgs(s, r.pos, argc + 1);
                 all == Ok(([t.span] + rest.val.0, r.val + rest.val.1), rest.pos)
  {
    hide SkipWhite, GetToken, Peek, ParseRedirs;
  }

  lemma {:induction false} WrapProper(s: string, c: Cmd, rs: seq<Redir>)
    requires Proper(s, c) && WholeFiles(s, rs)
    ensures Proper(s, Wrap(c, rs))
    decreases |rs|
  {
    if rs != [] {
      assert WholeWord(s, rs[0].file);
      WrapProper(s, Red(c, rs[0]), rs[1..]);
    }
  }

  predicate Fine(s: string, r: Res<Cmd>) { r.Ok? ==> Proper(s, r.val) }

  lemma {:induction false} ExecProper(s: string, i: nat)
    requires i <= |s| && NoNul(s)
    ensures Fine(s, ParseExec(s, i))
    decreases |s| - i, 1
  {
    if Peek(s, i, "(") {
      BlockProper(s, i);
    } else {
      var p := SkipWhite(s, i);
      RedirsWhole(s, p);
      var r := ParseRedirs(s, p);
      if r.Ok? {
        ArgsWhole(s, r.pos, 0);
        var a := ParseArgs(s, r.pos, 0);
        assert FineArgs(s, 0, a);
        if a.Ok? { WrapProper(s, Exec(a.val.0), r.val + a.val.1); }
      }
    }
  }

  lemma {:induction false} BlockProper(s: string, i: nat)
    requires i <= |s| && NoNul(s) && Peek(s, i, "(")
    ensures Fine(s, ParseBlock(s, i))
    decreases |s| - i, 0
  {
    var p := GetToken(s, i).next;
    LineProper(s, p);
    var line := ParseLine(s, p);
    if line.Ok? && Peek(s, line.pos, ")") {
      var q := GetToken(s, line.pos).next;
      RedirsWhole(s, q);
      if ParseRedirs(s, q).Ok? { WrapProper(s, line.val, ParseRedirs(s, q).val); }
    }
  }

  lemma {:induction false} PipeProper(s: string, i: nat)
    requires i <= |s| && NoNul(s)
    ensures Fine(s, ParsePipe(s, i))
    decreases |s| - i, 2
  {
    ExecProper(s, i);
    var left := ParseExec(s, i);
    if left.Ok? && Peek(s, left.pos, "|") { PipeProper(s, GetToken(s, left.pos).next); }
  }

  lemma {:induction false} BacksProper(s: string, i: nat, c: Cmd)
    requires i <= |s| && Proper(s, c)
    ensures Proper(s, ParseBacks(s, i, c).0)
    decreases |s| - i
  {
    if Peek(s, i, "&") { BacksProper(s, GetToken(s, i).next, Back(c)); }
  }

  lemma {:induction false} LineProper(s: string, i: nat)
    requires i <= |s| && NoNul(s)
    ensures Fine(s, ParseLine(s, i))
    decreases |s| - i, 3
  {
    PipeProper(s, i);
    var pipe := ParsePipe(s, i);
    if pipe.Ok? {
      BacksProper(s, pipe.pos, pipe.val);
      var p := ParseBacks(s, pipe.pos, pipe.val).1;
      if Peek(s, p, ";") { LineProper(s, GetToken(s, p).next); }
    }
  }

  /** Whatever text is accepted, every argument and file name in the tree is a whole word of it. */
  lemma ParsedProper(s: string)
    requires NoNul(s) && ParseCmd(s).Ok?
    ensures Proper(s, ParseCmd(s).val)
  {
    LineProper(s, 0);
  }

  // ---------------------------------------------------------------- printing what was parsed

  lemma WordBack(s: string, t: Span)
    requires WholeWord(s, t)
    ensures IsWord(Text(s, t))
  {
    var w := Text(s, t);
    assert forall i :: 0 <= i < |w| ==> w[i] == s[t.q + i];
  }

  lemma {:induction false} WordsBack(s: string, ts: seq<Span>)
    requires WholeWords(s, ts)
    ensures |Texts(s, ts)| == |ts| && AllWords(Texts(s, ts))
  {
    if ts != [] {
      WordBack(s, ts[0]);
      WordsBack(s, ts[1..]);
    }
  }

  lemma {:induction false} ProperPrintable(s: string, c: Cmd)
    requires Proper(s, c)
    ensures Printable(ToTree(s, c))
  {
    match c
    case Exec(argv) => WordsBack(s, argv);
    case Red(cmd, r) => WordBack(s, r.file); ProperPrintable(s, cmd);
    case Pipe(l, r) => ProperPrintable(s, l); ProperPrintable(s, r);
    case List(l, r) => ProperPrintable(s, l); ProperPrintable(s, r);
    case Back(cmd) => ProperPrintable(s, cmd);
  }

  /** Printing is a normal form: any accepted text and the printing of its tree parse alike. */
  lemma NormalForm(s: string)
    requires NoNul(s) && ParseCmd(s).Ok?
    ensures var t := ToTree(s, ParseCmd(s).val);
            Printable(t) && ParseCmd(Print(t)).Ok? && ToTree(Print(t), ParseCmd(Print(t)).val) == t
  {
    ParsedProper(s);
    ProperPrintable(s, ParseCmd(s).val);
    RoundTrip(ToTree(s, ParseCmd(s).val));
  }

  // ---------------------------------------------------------------- the strings left in the buffer

  /** The C string that starts at q. */
  function CString(b: string, q: nat): string
    decreases |b| - q
  {
    if q < |b| && b[q] != NUL then [b[q]] + CString(b, q + 1) else ""
  }

  function ArgEnds(ts: seq<Span>): set<int> { set i | 0 <= i < |ts| :: ts[i].eq }

  /** The places where nulterminate writes. */
  function Ends(c: Cmd): set<int> {
    match c
    case Exec(argv) => ArgEnds(argv)
    case Red(cmd, r) => Ends(cmd) + {r.file.eq}
    case Pipe(l, r) => Ends(l) + Ends(r)
    case List(l, r) => Ends(l) + Ends(r)
    case Back(cmd) => Ends(cmd)
  }

  /** Every string of the tree, read from the buffer as a C string. */
  function FromBuffer(b: string, c: Cmd): Tree {
    match c
    case Exec(argv) => TExec(seq(|argv|, i requires 0 <= i < |argv| => CString(b, argv[i].q)))
    case Red(cmd, r) => TRed(FromBuffer(b, cmd), CString(b, r.file.q), r.out)
    case Pipe(l, r) => TPipe(FromBuffer(b, l), FromBuffer(b, r))
    case List(l, r) => TList(FromBuffer(b, l), FromBuffer(b, r))
    case Back(cmd) => TBack(FromBuffer(b, cmd))
  }

  /** The buffer after nulterminate: one longer than the text, with a NUL in the places of `at`. */
  predicate Zeroed(b: string, s: string, at: set<int>) {
    |b| == |s| + 1 && forall k :: 0 <= k < |b| ==> b[k] == if k == |s| || k in at then NUL else s[k]
  }

  lemma {:induction false} EndsOutside(s: string, c: Cmd)
    requires Proper(s, c)
    ensures forall k :: k in Ends(c) ==> 0 <= k <= |s| && (k < |s| ==> !WordChar(s[k]))
  {
    match c
    case Exec(argv) =>
    case Red(cmd, r) => EndsOutside(s, cmd);
    case Pipe(l, r) => EndsOutside(s, l); EndsOutside(s, r);
    case List(l, r) => EndsOutside(s, l); EndsOutside(s, r);
    case Back(cmd) => EndsOutside(s, cmd);
  }

  /** No place written lies inside a word. */
  predicate Harmless(s: string, at: set<int>) { forall k :: k in at && 0 <= k < |s| ==> !WordChar(s[k]) }

  lemma {:induction false} OneString(b: string, s: string, at: set<int>, t: Span)
    requires Zeroed(b, s, at) && Harmless(s, at) && WholeWord(s, t) && t.eq in at
    ensures CString(b, t.q) == Text(s, t)
  {
    StringFrom(b, s, at, t, t.q);
  }

  lemma {:induction false} StringFrom(b: string, s: string, at: set<int>, t: Span, i: nat)
    requires Zeroed(b, s, at) && Harmless(s, at) && WholeWord(s, t) && t.eq in at && t.q <= i <= t.eq
    ensures CString(b, i) == s[i..t.eq]
    decreases t.eq - i
  {
    if i < t.eq {
      assert WordChar(s[i]) && b[i] == s[i];
      StringFrom(b, s, at, t, i + 1);
    }
  }

  lemma {:induction false} AllStrings(b: string, s: string, at: set<int>, ts: seq<Span>)
    requires Zeroed(b, s, at) && Harmless(s, at) && WholeWords(s, ts) && ArgEnds(ts) <= at
    ensures Texts(s, ts) == seq(|ts|, i requires 0 <= i < |ts| => CString(b, ts[i].q))
  {
    TextsAt(s, ts);
    forall i | 0 <= i < |ts| ensures CString(b, ts[i].q) == Text(s, ts[i]) {
      assert ts[i].eq in ArgEnds(ts);
      OneString(b, s, at, ts[i]);
    }
  }

  lemma {:induction false} TextsAt(s: string, ts: seq<Span>)
    ensures |Texts(s, ts)| == |ts| && forall i :: 0 <= i < |ts| ==> Texts(s, ts)[i] == Text(s, ts[i])
  {
    if ts != [] { TextsAt(s, ts[1..]); }
  }

  /** Each string ends with its own token, although the terminators of all of them were written. */
  lemma {:induction false} OwnTokens(b: string, s: string, at: set<int>, c: Cmd)
    requires Zeroed(b, s, at) && Harmless(s, at) && Proper(s, c) && Ends(c) <= at
    ensures FromBuffer(b, c) == ToTree(s, c)
  {
    match c
    case Exec(argv) => AllStrings(b, s, at, argv);
    case Red(cmd, r) => OneString(b, s, at, r.file); OwnTokens(b, s, at, cmd);
    case Pipe(l, r) => OwnTokens(b, s, at, l); OwnTokens(b, s, at, r);
    case List(l, r) => OwnTokens(b, s, at, l); OwnTokens(b, s, at, r);
    case Back(cmd) => OwnTokens(b, s, at, cmd);
  }
}

/** The conversion prints the postfix form of the expression, exactly when the stack is large enough;
    and the postfix form has the value of the expression. */
module InfixMeaning {
  import opened InfixGrammar

  // ---------------------------------------------------------------- precedence

  /** Parentheses bind least, and '*' and '/' bind tighter than '+' and '-'; -1 is for what is no operator. */
  lemma Precedences(c: char)
    ensures 0 == Prec('(') == Prec(')') < Prec('+') == Prec('-') < Prec('*') == Prec('/')
    ensures c !in {'+', '-', '*', '/', '(', ')'} ==> Prec(c) == -1
  {}

  /** The trees that the precedences allow are those of the grammar of sums, terms and factors. */
  lemma {:induction false} GrammarIff(e: Expr)
    ensures IsSum(e) <==> WellFormed(e)
    ensures IsTerm(e) <==> WellFormed(e) && Level(e) >= 2
    ensures IsFactor(e) <==> WellFormed(e) && Level(e) >= 3
  {
    match e
    case Leaf(_) => assert IsSum(e) == IsTerm(e) == IsFactor(e);
    case Paren(u) =>
      GrammarIff(u);
      assert IsSum(e) == IsTerm(e) == IsFactor(e);
    case Bin(_, l, r) =>
      GrammarIff(l);
      GrammarIff(r);
      assert IsTerm(e) <==> (e.op == '*' || e.op == '/') && IsTerm(l) && IsFactor(r);
      assert IsSum(e) <==> IsTerm(e) || ((e.op == '+' || e.op == '-') && IsSum(l) && IsTerm(r));
  }

  // ---------------------------------------------------------------- value

  lemma {:induction false} EvalPostfix(e: Expr, rest: string, st: seq<int>, env: char -> int, f: (char, int, int) -> int)
    requires WellFormed(e)
    ensures Eval(Postfix(e) + rest, st, env, f) == Eval(rest, st + [Value(e, env, f)], env, f)
    decreases e
  {
    match e
    case Leaf(c) =>
      assert ([c] + rest)[1..] == rest;
    case Paren(u) =>
      EvalPostfix(u, rest, st, env, f);
    case Bin(op, l, r) =>
      var after := [op] + rest;
      var a, b := Value(l, env, f), Value(r, env, f);
      assert Postfix(e) + rest == Postfix(l) + (Postfix(r) + after);
      EvalPostfix(l, Postfix(r) + after, st, env, f);
      EvalPostfix(r, after, st + [a], env, f);
      var st2 := st + [a] + [b];
      assert after[1..] == rest && st2[..|st2| - 2] == st;
  }

  // ---------------------------------------------------------------- what waits and what is printed

  /** Printed by the time the whole expression is read, and still on the stack then. */
  function Printed(e: Expr): string {
    match e
    case Leaf(c) => [c]
    case Paren(u) => Postfix(u)
    case Bin(op, l, r) => Postfix(l) + Printed(r)
  }

  function Waiting(e: Expr): string {
    match e
    case Leaf(_) => ""
    case Paren(_) => ""
    case Bin(op, _, r) => [op] + Waiting(r)
  }

  function Reversed(s: string): string { if s == "" then "" else Reversed(s[1..]) + [s[0]] }

  lemma {:induction false} PostfixSplit(e: Expr)
    ensures Postfix(e) == Printed(e) + Reversed(Waiting(e))
  {
    match e
    case Leaf(c) =>
    case Paren(u) =>
    case Bin(op, l, r) =>
      PostfixSplit(r);
      assert ([op] + Waiting(r))[1..] == Waiting(r);
  }

  /** Operators that bind at least as tightly as p. */
  predicate Binding(w: string, p: int) { forall i :: 0 <= i < |w| ==> Operator(w[i]) && p <= Prec(w[i]) }

  lemma {:induction false} WaitingBinds(e: Expr)
    requires WellFormed(e)
    ensures Binding(Waiting(e), Level(e))
  {
    if e.Bin? { WaitingBinds(e.right); }
  }

  /** The stack ends in something that binds less tightly than p. */
  predicate Below(s: string, p: int) { s == "" || Prec(Top(s)) < p }

  lemma {:induction false} ReversedSnoc(w: string, c: char)
    ensures Reversed(w + [c]) == [c] + Reversed(w)
  {
    if w == "" {
      assert (w + [c])[1..] == "";
    } else {
      assert (w + [c])[1..] == w[1..] + [c];
      ReversedSnoc(w[1..], c);
    }
  }

  lemma {:induction false} FlushWaiting(v: Conv, s: string, w: string, p: int)
    requires v.stack == s + w && Binding(w, p) && Below(s, p)
    ensures Flush(v, p) == v.(stack := s, out := v.out + Reversed(w))
    decreases |w|
  {
    if w == "" {
      assert s + w == s;
    } else {
      var c, u := w[|w| - 1], w[..|w| - 1];
      assert w == u + [c];
      ReversedSnoc(u, c);
      assert Pop(v.stack) == s + u && Top(v.stack) == c;
      FlushWaiting(v.(stack := s + u, out := v.out + [c]), s, u, p);
      assert v.out + [c] + Reversed(u) == v.out + Reversed(w);
    }
  }

  lemma {:induction false} CloseWaiting(v: Conv, s: string, w: string)
    requires v.stack == s + "(" + w && Binding(w, 1)
    ensures Close(v) == v.(stack := s, out := v.out + Reversed(w))
    decreases |w|
  {
    if w == "" {
      assert Pop(v.stack) == s;
    } else {
      var c, u := w[|w| - 1], w[..|w| - 1];
      assert w == u + [c];
      ReversedSnoc(u, c);
      assert Pop(v.stack) == s + "(" + u && Top(v.stack) == c;
      CloseWaiting(v.(stack := s + "(" + u, out := v.out + [c]), s, u);
      assert v.out + [c] + Reversed(u) == v.out + Reversed(w);
    }
  }

  lemma {:induction false} DrainAll(v: Conv)
    requires !v.exited
    ensures Drain(v) == v.(stack := "", out := v.out + Reversed(v.stack))
    decreases |v.stack|
  {
    if v.stack != "" {
      var c, u := Top(v.stack), Pop(v.stack);
      assert v.stack == u + [c];
      ReversedSnoc(u, c);
      DrainAll(v.(stack := u, out := v.out + [c]));
      assert v.out + [c] + Reversed(u) == v.out + Reversed(v.stack);
    }
  }

  lemma {:induction false} StepsJoin(v: Conv, a: string, b: string)
    ensures Steps(v, a + b) == Steps(Steps(v, a), b)
    decreases |a|
  {
    if a == "" {
      assert a + b == b;
    } else {
      assert (a + b)[1..] == a[1..] + b;
      StepsJoin(Step(v, a[0]), a[1..], b);
    }
  }

  lemma StepsOne(v: Conv, c: char)
    ensures Steps(v, [c]) == Step(v, c)
  {
    assert Steps(Step(v, c), [c][1..]) == Step(v, c);
  }

  // ---------------------------------------------------------------- as long as there is room

  predicate Fresh(v: Conv) { !v.exited && v.lostOps == 0 && v.lostParens == 0 }

  /** Reading a whole expression: the stack gains what waits, and the rest is printed. */
  function Read(v: Conv, e: Expr): Conv { v.(stack := v.stack + Waiting(e), out := v.out + Printed(e)) }

  lemma {:induction false} RoomExact(v: Conv, e: Expr)
    requires WellFormed(e) && Fresh(v) && Below(v.stack, Level(e)) && |v.stack| + Pending(e) <= MAX_STACK_SIZE
    ensures Steps(v, Text(e)) == Read(v, e)
    decreases e, 1
  {
    match e
    case Leaf(c) =>
      StepsOne(v, c);
      assert v.stack + "" == v.stack;
    case Paren(u) => RoomParen(v, u);
    case Bin(op, l, r) => RoomBin(v, op, l, r);
  }

  lemma RoomParen(v: Conv, u: Expr)
    requires WellFormed(u) && Fresh(v) && |v.stack| + 1 + Pending(u) <= MAX_STACK_SIZE
    ensures Steps(v, Text(Paren(u))) == Read(v, Paren(u))
    decreases u, 2
  {
    hide Steps, Step, Text, Waiting, Printed, Postfix, Reversed, WellFormed, Pending;
    var open := v.(stack := v.stack + "(");
    RoomParenFacts(v, u);
    StepsOne(v, '(');
    StepsJoin(v, "(", Text(u) + ")");
    StepsJoin(open, Text(u), ")");
    RoomExact(open, u);
    StepsOne(Read(open, u), ')');
    AfterInner(v, u);
  }

  lemma RoomParenFacts(v: Conv, u: Expr)
    requires WellFormed(u) && Fresh(v) && |v.stack| < MAX_STACK_SIZE
    ensures Text(Paren(u)) == "(" + (Text(u) + ")")
    ensures Step(v, '(') == v.(stack := v.stack + "(") && Below(v.stack + "(", Level(u))
  {
    assert v.stack + ['('] == v.stack + "(" && Top(v.stack + "(") == '(';
  }

  /** The closing parenthesis prints what the expression inside left behind. */
  lemma AfterInner(v: Conv, u: Expr)
    requires WellFormed(u) && Fresh(v)
    ensures Step(Read(v.(stack := v.stack + "("), u), ')') == Read(v, Paren(u))
  {
    hide Close, Waiting, Printed, Postfix, Reversed, WellFormed;
    WaitingBinds(u);
    LevelPositive(u);
    BindingWeaker(Waiting(u), Level(u), 1);
    CloseWaiting(Read(v.(stack := v.stack + "("), u), v.stack, Waiting(u));
    PostfixSplit(u);
    ParenLeaves(u);
    assert v.out + Printed(u) + Reversed(Waiting(u)) == v.out + Postfix(u);
    assert v.stack + "" == v.stack;
  }

  lemma LevelPositive(e: Expr)
    requires WellFormed(e)
    ensures Level(e) >= 1
  {}

  lemma ParenLeaves(u: Expr)
    ensures Waiting(Paren(u)) == "" && Printed(Paren(u)) == Postfix(u)
  {}

  lemma BindingWeaker(w: string, p: int, q: int)
    requires Binding(w, p) && q <= p
    ensures Binding(w, q)
  {}

  lemma OperatorBinds(op: char)
    requires Operator(op)
    ensures 0 < Prec(op) < 3
  {}

  /** The operator flushes what the left operand left behind and takes its place. */
  lemma AfterLeft(v: Conv, op: char, l: Expr)
    requires WellFormed(l) && Operator(op) && Prec(op) <= Level(l) && Fresh(v) && Below(v.stack, Prec(op))
    ensures Step(Read(v, l), op) == Push(v.(out := v.out + Postfix(l)), op)
  {
    hide Flush, Waiting, Printed, Postfix, Reversed, Push, WellFormed, Prec;
    OperatorBinds(op);
    WaitingBinds(l);
    BindingWeaker(Waiting(l), Level(l), Prec(op));
    FlushWaiting(Read(v, l), v.stack, Waiting(l), Prec(op));
    PostfixSplit(l);
    assert v.out + Printed(l) + Reversed(Waiting(l)) == v.out + Postfix(l);
  }

  /** What the stack needs for the left and, above the operator, for the right operand. */
  lemma RoomParts(v: Conv, op: char, l: Expr, r: Expr)
    requires |v.stack| + Pending(Bin(op, l, r)) <= MAX_STACK_SIZE
    ensures |v.stack| + Pending(l) <= MAX_STACK_SIZE && |v.stack| + 1 + Pending(r) <= MAX_STACK_SIZE
  {}

  /** The left operand and the operator. */
  lemma RoomLeft(v: Conv, op: char, l: Expr)
    requires WellFormed(l) && Operator(op) && Prec(op) <= Level(l) && Fresh(v) && Below(v.stack, Prec(op)) && |v.stack| < MAX_STACK_SIZE
    requires Steps(v, Text(l)) == Read(v, l)
    ensures Steps(v, Text(l) + [op]) == v.(stack := v.stack + [op], out := v.out + Postfix(l))
  {
    hide Steps, Step, Text, Below, Operator, Prec, Postfix, WellFormed, Level;
    StepsJoin(v, Text(l), [op]);
    StepsOne(Read(v, l), op);
    AfterLeft(v, op, l);
  }

  lemma ReadBin(v: Conv, op: char, l: Expr, r: Expr)
    ensures Read(v.(stack := v.stack + [op], out := v.out + Postfix(l)), r) == Read(v, Bin(op, l, r))
  {
    hide Postfix;
    assert v.stack + [op] + Waiting(r) == v.stack + Waiting(Bin(op, l, r));
    assert v.out + Postfix(l) + Printed(r) == v.out + Printed(Bin(op, l, r));
  }

  lemma RoomBin(v: Conv, op: char, l: Expr, r: Expr)
    requires WellFormed(Bin(op, l, r)) && Fresh(v) && Below(v.stack, Prec(op))
    requires |v.stack| + Pending(Bin(op, l, r)) <= MAX_STACK_SIZE
    ensures Steps(v, Text(Bin(op, l, r))) == Read(v, Bin(op, l, r))
    decreases Bin(op, l, r), 0
  {
    hide Steps, Step, Text, Below, Operator, Prec, Postfix, Pending, Read, WellFormed, Level;
    RoomBinFacts(v, op, l, r);
    RoomParts(v, op, l, r);
    RoomExact(v, l);
    RoomLeft(v, op, l);
    var mid := v.(stack := v.stack + [op], out := v.out + Postfix(l));
    RoomExact(mid, r);
    StepsJoin(v, Text(l) + [op], Text(r));
    Assoc(Text(l), [op], Text(r));
    ReadBin(v, op, l, r);
  }

  lemma {:induction false} RoomBinFacts(v: Conv, op: char, l: Expr, r: Expr)
    requires WellFormed(Bin(op, l, r)) && Below(v.stack, Prec(op))
    ensures Text(Bin(op, l, r)) == Text(l) + ([op] + Text(r))
    ensures Below(v.stack, Level(l)) && Below(v.stack + [op], Level(r))
    ensures Operator(op) && Prec(op) <= Level(l) && WellFormed(l) && WellFormed(r)
  {
    BinText(op, l, r);
    hide Text, Postfix, Pending;
    assert Top(v.stack + [op]) == op;
  }

  lemma {:induction false} BinText(op: char, l: Expr, r: Expr)
    ensures Text(Bin(op, l, r)) == Text(l) + ([op] + Text(r))
  {
    Assoc(Text(l), [op], Text(r));
  }

  lemma Assoc(a: string, b: string, c: string)
    ensures a + b + c == a + (b + c)
  {}

  // ---------------------------------------------------------------- when there is no room

  predicate Lost(v: Conv) { v.exited || v.lostOps > 0 || v.lostParens > 0 }

  lemma {:induction false} FlushKeeps(v: Conv, p: int)
    ensures var t := Flush(v, p); t.exited == v.exited && t.lostOps == v.lostOps && t.lostParens == v.lostParens
    decreases |v.stack|
  {
    if v.stack != "" && Prec(Top(v.stack)) >= p {
      FlushKeeps(v.(stack := Pop(v.stack), out := v.out + [Top(v.stack)]), p);
    }
  }

  lemma {:induction false} CloseKeeps(v: Conv)
    ensures var t := Close(v); (v.exited ==> t.exited) && t.lostOps == v.lostOps && t.lostParens == v.lostParens
    decreases |v.stack|
  {
    if v.stack != "" && Top(v.stack) != '(' {
      CloseKeeps(v.(stack := Pop(v.stack), out := v.out + [Top(v.stack)]));
    }
  }

  lemma {:induction false} LostStays(v: Conv, s: string)
    requires Lost(v)
    ensures Lost(Steps(v, s))
    decreases |s|
  {
    if s != "" {
      if !v.exited {
        FlushKeeps(v, Prec(s[0]));
        CloseKeeps(v);
      }
      LostStays(Step(v, s[0]), s[1..]);
    }
  }

  /** An expression for which the stack is too small makes push drop something. */
  lemma {:induction false} NoRoomLoses(v: Conv, e: Expr)
    requires WellFormed(e) && Fresh(v) && Below(v.stack, Level(e)) && |v.stack| <= MAX_STACK_SIZE
    requires |v.stack| + Pending(e) > MAX_STACK_SIZE
    ensures Lost(Steps(v, Text(e)))
    decreases e
  {
    if e.Paren? {
      var u := e.e;
      assert Text(e) == "(" + (Text(u) + ")");
      StepsJoin(v, "(", Text(u) + ")");
      StepsOne(v, '(');
      var open := Push(v, '(');
      StepsJoin(open, Text(u), ")");
      if Fresh(open) {
        NoRoomLoses(open, u);
        LostStays(Steps(open, Text(u)), ")");
      } else {
        LostStays(open, Text(u) + ")");
      }
    } else if e.Bin? {
      var op, l, r := e.op, e.left, e.right;
      assert Text(e) == Text(l) + ([op] + Text(r));
      StepsJoin(v, Text(l), [op] + Text(r));
      if |v.stack| + Pending(l) > MAX_STACK_SIZE {
        NoRoomLoses(v, l);
        LostStays(Steps(v, Text(l)), [op] + Text(r));
      } else {
        RoomExact(v, l);
        StepsJoin(Read(v, l), [op], Text(r));
        StepsOne(Read(v, l), op);
        AfterLeft(v, op, l);
        var mid := Push(v.(out := v.out + Postfix(l)), op);
        if Fresh(mid) { NoRoomLoses(mid, r); } else { LostStays(mid, Text(r)); }
      }
    }
  }

  // ---------------------------------------------------------------- nothing lost can be made good

  function Ops(s: string): nat { if s == "" then 0 else Ops(s[1..]) + if Operator(s[0]) then 1 else 0 }

  function Opens(s: string): nat { if s == "" then 0 else Opens(s[1..]) + if s[0] == '(' then 1 else 0 }

  function Closes(s: string): nat { if s == "" then 0 else Closes(s[1..]) + if s[0] == ')' then 1 else 0 }

  lemma {:induction false} CountJoin(a: string, b: string)
    ensures Ops(a + b) == Ops(a) + Ops(b) && Opens(a + b) == Opens(a) + Opens(b) && Closes(a + b) == Closes(a) + Closes(b)
    decreases |a|
  {
    if a == "" {
      assert a + b == b;
    } else {
      assert (a + b)[1..] == a[1..] + b;
      CountJoin(a[1..], b);
    }
  }

  lemma CountOne(c: char)
    ensures Ops([c]) == (if Operator(c) then 1 else 0) && Opens([c]) == (if c == '(' then 1 else 0)
    ensures Closes([c]) == (if c == ')' then 1 else 0)
  {
    assert [c][1..] == "";
  }

  lemma CountPop(s: string)
    requires s != ""
    ensures Ops(s) == Ops(Pop(s)) + Ops([Top(s)]) && Opens(s) == Opens(Pop(s)) + Opens([Top(s)])
  {
    assert s == Pop(s) + [Top(s)];
    CountJoin(Pop(s), [Top(s)]);
  }

  /** Operators seen so far, wherever they went; and parentheses that are open, or were dropped. */
  function OpsSeen(v: Conv): nat { Ops(v.out) + Ops(v.stack) + v.lostOps }

  function OpensSeen(v: Conv): nat { Opens(v.stack) + v.lostParens }

  lemma Print(v: Conv)
    requires v.stack != ""
    ensures var t := v.(stack := Pop(v.stack), out := v.out + [Top(v.stack)]);
            OpsSeen(t) == OpsSeen(v) && OpensSeen(t) + Opens([Top(v.stack)]) == OpensSeen(v)
            && Opens(t.out) == Opens(v.out) + Opens([Top(v.stack)])
  {
    CountPop(v.stack);
    CountJoin(v.out, [Top(v.stack)]);
  }

  lemma {:induction false} FlushCounts(v: Conv, p: int)
    requires p > 0
    ensures OpsSeen(Flush(v, p)) == OpsSeen(v) && OpensSeen(Flush(v, p)) == OpensSeen(v)
    ensures Opens(Flush(v, p).out) == Opens(v.out)
    decreases |v.stack|
  {
    if v.stack != "" && Prec(Top(v.stack)) >= p {
      Print(v);
      CountOne(Top(v.stack));
      FlushCounts(v.(stack := Pop(v.stack), out := v.out + [Top(v.stack)]), p);
    }
  }

  lemma {:induction false} CloseCounts(v: Conv)
    requires !v.exited && !Close(v).exited
    ensures OpsSeen(Close(v)) == OpsSeen(v) && OpensSeen(Close(v)) + 1 == OpensSeen(v)
    ensures Opens(Close(v).out) == Opens(v.out)
    decreases |v.stack|
  {
    if v.stack != "" {
      CountPop(v.stack);
      CountOne(Top(v.stack));
      if Top(v.stack) != '(' {
        Print(v);
        CloseCounts(v.(stack := Pop(v.stack), out := v.out + [Top(v.stack)]));
      }
    }
  }

  lemma PushCounts(v: Conv, c: char)
    requires Operator(c) || c == '('
    ensures OpsSeen(Push(v, c)) == OpsSeen(v) + Ops([c]) && OpensSeen(Push(v, c)) == OpensSeen(v) + Opens([c])
    ensures Push(v, c).out == v.out
  {
    CountOne(c);
    CountJoin(v.stack, [c]);
  }

  lemma StepCounts(v: Conv, c: char)
    requires !v.exited && !Step(v, c).exited
    ensures OpsSeen(Step(v, c)) == OpsSeen(v) + Ops([c])
    ensures OpensSeen(Step(v, c)) + Closes([c]) == OpensSeen(v) + Opens([c])
    ensures Opens(Step(v, c).out) == Opens(v.out)
  {
    CountOne(c);
    if Operator(c) {
      FlushCounts(v, Prec(c));
      PushCounts(Flush(v, Prec(c)), c);
    } else if c == '(' {
      PushCounts(v, c);
    } else if c == ')' {
      CloseCounts(v);
    } else {
      CountJoin(v.out, [c]);
    }
  }

  lemma {:induction false} ExitedStays(v: Conv, s: string)
    requires v.exited
    ensures Steps(v, s) == v
    decreases |s|
  {
    if s != "" { ExitedStays(v, s[1..]); }
  }

  lemma {:induction false} StepsCount(v: Conv, s: string)
    requires !v.exited && !Steps(v, s).exited
    ensures OpsSeen(Steps(v, s)) == OpsSeen(v) + Ops(s)
    ensures OpensSeen(Steps(v, s)) + Closes(s) == OpensSeen(v) + Opens(s)
    ensures Opens(Steps(v, s).out) == Opens(v.out)
    decreases |s|
  {
    if s != "" {
      var t := Step(v, s[0]);
      if t.exited { ExitedStays(t, s[1..]); }
      StepCounts(v, s[0]);
      StepsCount(t, s[1..]);
      CountOne(s[0]);
    }
  }

  lemma {:induction false} ReversedCounts(s: string)
    ensures Ops(Reversed(s)) == Ops(s) && Opens(Reversed(s)) == Opens(s)
  {
    if s != "" {
      ReversedCounts(s[1..]);
      CountJoin(Reversed(s[1..]), [s[0]]);
      CountOne(s[0]);
    }
  }

  /** The text is balanced, and the postfix form has its operators and no parentheses. */
  lemma {:induction false} ExprCounts(e: Expr)
    requires WellFormed(e)
    ensures Opens(Text(e)) == Closes(Text(e)) && Ops(Postfix(e)) == Ops(Text(e)) && Opens(Postfix(e)) == 0
  {
    match e
    case Leaf(c) => CountOne(c);
    case Paren(u) =>
      ExprCounts(u);
      CountJoin("(" + Text(u), ")");
      CountJoin("(", Text(u));
      CountOne('(');
      CountOne(')');
    case Bin(op, l, r) =>
      ExprCounts(l);
      ExprCounts(r);
      CountJoin(Text(l) + [op], Text(r));
      CountJoin(Text(l), [op]);
      CountJoin(Postfix(l) + Postfix(r), [op]);
      CountJoin(Postfix(l), Postfix(r));
      CountOne(op);
  }

  /** Once something is lost, the output is not the postfix form. */
  lemma LostShows(e: Expr)
    requires WellFormed(e) && Lost(Steps(Empty, Text(e)))
    ensures Convert(Text(e)).exited || Convert(Text(e)).out != Postfix(e)
  {
    var v := Steps(Empty, Text(e));
    if !v.exited {
      StepsCount(Empty, Text(e));
      ExprCounts(e);
      DrainAll(v);
      CountJoin(v.out, Reversed(v.stack));
      ReversedCounts(v.stack);
    }
  }

  // ---------------------------------------------------------------- the theorems

  /** The program ends normally and prints the postfix form exactly if no more than twenty operators and
      parentheses wait at any time. */
  lemma PostfixIff(e: Expr)
    requires IsSum(e)
    ensures !Convert(Text(e)).exited && Convert(Text(e)).out == Postfix(e) <==> Pending(e) <= 20
  {
    hide Steps, Drain, Text, Postfix, Waiting, Printed, Reversed, WellFormed, Pending, Level, IsSum;
    GrammarIff(e);
    if Pending(e) <= MAX_STACK_SIZE {
      RoomExact(Empty, e);
      DrainAll(Read(Empty, e));
      PostfixSplit(e);
      assert "" + Waiting(e) == Waiting(e) && "" + Printed(e) == Printed(e);
    } else {
      NoRoomLoses(Empty, e);
      LostShows(e);
    }
  }

  /** Evaluating the output gives the value of the expression, for any meaning of operands and operators. */
  lemma MeaningPreserved(e: Expr, env: char -> int, f: (char, int, int) -> int)
    requires IsSum(e) && Pending(e) <= 20
    ensures Eval(Convert(Text(e)).out, [], env, f) == Some([Value(e, env, f)])
  {
    GrammarIff(e);
    PostfixIff(e);
    EvalPostfix(e, "", [], env, f);
    assert Postfix(e) + "" == Postfix(e) && [] + [Value(e, env, f)] == [Value(e, env, f)];
  }

  /** For any three operands: '*' before '+', wherever it stands, and equals from the left. */
  lemma TimesFirst(a: char, b: char, c: char)
    requires Operand(a) && Operand(b) && Operand(c)
    ensures Convert([a, '+', b, '*', c]).out == [a, b, c, '*', '+']
    ensures Convert([a, '*', b, '+', c]).out == [a, b, '*', c, '+']
    ensures Convert([a, '-', b, '-', c]).out == [a, b, '-', c, '-']
    ensures Convert([a, '/', b, '*', c]).out == [a, b, '/', c, '*']
  {
    hide Convert;
    TwoOps(a, '+', b, '*', c);
    TwoOps(a, '*', b, '+', c);
    TwoOps(a, '-', b, '-', c);
    TwoOps(a, '/', b, '*', c);
  }

  lemma TwoOps(a: char, o: char, b: char, p: char, c: char)
    requires Operand(a) && Operand(b) && Operand(c) && Operator(o) && Operator(p)
    ensures Convert([a, o, b, p, c]).out ==
            if (o == '+' || o == '-') && (p == '*' || p == '/') then [a, b, c, p, o] else [a, b, o, c, p]
  {
    hide Convert, IsSum, WellFormed, Text, Postfix, Pending;
    OneLeaf(a);
    OneLeaf(b);
    OneLeaf(c);
    var x, y, z := Leaf(a), Leaf(b), Leaf(c);
    if (o == '+' || o == '-') && (p == '*' || p == '/') {
      OneBin(p, y, z);
      OneBin(o, x, Bin(p, y, z));
      PostfixIff(Bin(o, x, Bin(p, y, z)));
      assert [a] + [o] + ([b] + [p] + [c]) == [a, o, b, p, c] && [a] + ([b] + [c] + [p]) + [o] == [a, b, c, p, o];
    } else {
      OneBin(o, x, y);
      OneBin(p, Bin(o, x, y), z);
      PostfixIff(Bin(p, Bin(o, x, y), z));
      assert ([a] + [o] + [b]) + [p] + [c] == [a, o, b, p, c] && ([a] + [b] + [o]) + [c] + [p] == [a, b, o, c, p];
    }
  }

  lemma OneLeaf(c: char)
    requires Operand(c)
    ensures var e := Leaf(c); WellFormed(e) && Text(e) == [c] && Postfix(e) == [c] && Pending(e) == 0
  {}

  lemma OneBin(o: char, l: Expr, r: Expr)
    requires Operator(o) && WellFormed(l) && WellFormed(r) && Prec(o) <= Level(l) && Prec(o) < Level(r)
    ensures var e := Bin(o, l, r);
            WellFormed(e) && IsSum(e) && Text(e) == Text(l) + [o] + Text(r) && Postfix(e) == Postfix(l) + Postfix(r) + [o]
            && Pending(e) == if Pending(l) < 1 + Pending(r) then 1 + Pending(r) else Pending(l)
  {
    GrammarIff(Bin(o, l, r));
  }

  /** Unbalanced text: a '(' that is not closed is printed at the end, and a ')' too many ends the program. */
  lemma Unbalanced(e: Expr)
    requires IsSum(e) && Pending(e) < 20
    ensures var v := Convert("(" + Text(e)); !v.exited && v.out == Postfix(e) + "("
    ensures Convert(Text(e) + ")").exited
  {
    GrammarIff(e);
    Unclosed(e);
    Overclosed(e);
  }

  lemma Unclosed(e: Expr)
    requires WellFormed(e) && Pending(e) < MAX_STACK_SIZE
    ensures var v := Convert("(" + Text(e)); !v.exited && v.out == Postfix(e) + "("
  {
    hide Text, Postfix, Waiting, Printed, Reversed, WellFormed, Pending, Level, Steps, Drain, Step;
    RoomParenFacts(Empty, e);
    var open := Empty.(stack := Empty.stack + "(");
    RoomExact(open, e);
    StepsJoin(Empty, "(", Text(e));
    StepsOne(Empty, '(');
    DrainAll(Read(open, e));
    PostfixSplit(e);
    ReversedFirst('(', Waiting(e));
    assert ("" + "(") + Waiting(e) == "(" + Waiting(e);
    assert "" + Printed(e) + (Reversed(Waiting(e)) + "(") == Postfix(e) + "(";
  }

  lemma ReversedFirst(c: char, w: string)
    ensures Reversed([c] + w) == Reversed(w) + [c]
  {
    assert ([c] + w)[1..] == w;
  }

  lemma Overclosed(e: Expr)
    requires WellFormed(e) && Pending(e) <= MAX_STACK_SIZE
    ensures Convert(Text(e) + ")").exited
  {
    hide Text, Postfix, Waiting, Printed, Reversed, WellFormed, Pending, Level, Steps;
    RoomExact(Empty, e);
    StepsJoin(Empty, Text(e), ")");
    StepsOne(Read(Empty, e), ')');
    WaitingBinds(e);
    LevelPositive(e);
    BindingWeaker(Waiting(e), Level(e), 1);
    assert "" + Waiting(e) == Waiting(e);
    CloseEmpty(Read(Empty, e));
  }

  lemma {:induction false} CloseEmpty(v: Conv)
    requires Binding(v.stack, 1)
    ensures Close(v).exited
    decreases |v.stack|
  {
    if v.stack != "" {
      var c, u := Top(v.stack), Pop(v.stack);
      assert v.stack == u + [c] && Operator(c) && Binding(u, 1);
      CloseEmpty(v.(stack := u, out := v.out + [c]));
    }
  }

  // ---------------------------------------------------------------- an expression that is too deep

  /** The operand a in n pairs of parentheses. */
  function Nested(n: nat): Expr { if n == 0 then Leaf('a') else Paren(Nested(n - 1)) }

  lemma {:induction false} NestedShape(n: nat)
    ensures WellFormed(Nested(n)) && Pending(Nested(n)) == n && Postfix(Nested(n)) == "a"
  {
    if n > 0 { NestedShape(n - 1); }
  }

  /** With more than twenty pairs of parentheses around an operand a '(' is dropped, and the last ')' finds
      the stack empty, which ends the program. */
  lemma TooDeep(n: nat)
    requires n > MAX_STACK_SIZE
    ensures WellFormed(Nested(n)) && Convert(Text(Nested(n))).exited
  {
    hide Nested, Steps, Text, Postfix, Pending, WellFormed, Ops, Opens, Closes;
    var v := Steps(Empty, Text(Nested(n)));
    NestedShape(n);
    NoRoomLoses(Empty, Nested(n));
    if !v.exited {
      StepsCount(Empty, Text(Nested(n)));
      ExprCounts(Nested(n));
      NestedOps(n);
      EmptyCounts();
    }
  }

  lemma EmptyCounts()
    ensures Ops("") == 0 && Opens("") == 0
  {}

  lemma {:induction false} NestedOps(n: nat)
    ensures Ops(Text(Nested(n))) == 0
  {
    if n > 0 {
      NestedOps(n - 1);
      CountJoin("(" + Text(Nested(n - 1)), ")");
      CountJoin("(", Text(Nested(n - 1)));
      CountOne('(');
      CountOne(')');
    } else {
      CountOne('a');
    }
  }

  /** n pairs of parentheses around a + b. */
  function DeepSum(n: nat): Expr { if n == 0 then Sum else Paren(DeepSum(n - 1)) }

  const Sum: Expr := Bin('+', Leaf('a'), Leaf('b'))

  lemma SumShape()
    ensures WellFormed(Sum) && Pending(Sum) == 1 && Postfix(Sum) == "ab+"
  {
    assert Pending(Leaf('b')) == 0 && Postfix(Leaf('a')) == ['a'] && Postfix(Leaf('b')) == ['b'];
    assert ['a'] + ['b'] + ['+'] == "ab+";
  }

  lemma ParenShape(e: Expr)
    ensures WellFormed(Paren(e)) == WellFormed(e) && Pending(Paren(e)) == 1 + Pending(e) && Postfix(Paren(e)) == Postfix(e)
  {}

  lemma {:induction false} DeepSumShape(n: nat)
    ensures WellFormed(DeepSum(n)) && Pending(DeepSum(n)) == n + 1 && Postfix(DeepSum(n)) == "ab+"
  {
    hide WellFormed, Pending, Postfix;
    if n > 0 {
      DeepSumShape(n - 1);
      ParenShape(DeepSum(n - 1));
    } else {
      SumShape();
    }
  }

  /** With the stack full of '(' the operator is dropped, and every '(' finds its ')'. */
  lemma {:induction false} DeepSumRuns(v: Conv, n: nat)
    requires !v.exited && |v.stack| + n == MAX_STACK_SIZE && forall i :: 0 <= i < |v.stack| ==> v.stack[i] == '('
    ensures Steps(v, Text(DeepSum(n))) == v.(out := v.out + "ab", lostOps := v.lostOps + 1)
    decreases n
  {
    if n > 0 {
      var open := v.(stack := v.stack + ['(']);
      assert Text(DeepSum(n)) == "(" + (Text(DeepSum(n - 1)) + ")");
      StepsJoin(v, "(", Text(DeepSum(n - 1)) + ")");
      StepsOne(v, '(');
      StepsJoin(open, Text(DeepSum(n - 1)), ")");
      DeepSumRuns(open, n - 1);
      var mid := open.(out := v.out + "ab", lostOps := v.lostOps + 1);
      StepsOne(mid, ')');
      assert Top(mid.stack) == '(' && Pop(mid.stack) == v.stack;
    } else {
      assert Text(DeepSum(0)) == "a" + ("+" + "b");
      StepsJoin(v, "a", "+" + "b");
      StepsOne(v, 'a');
      var v1 := v.(out := v.out + ['a']);
      StepsJoin(v1, "+", "b");
      StepsOne(v1, '+');
      assert Top(v1.stack) == '(';
      var v2 := v1.(lostOps := v.lostOps + 1);
      StepsOne(v2, 'b');
      assert v.out + ['a'] + ['b'] == v.out + "ab";
    }
  }

  /** a + b in twenty pairs of parentheses: the program ends normally and prints "ab". */
  lemma SumTooDeep()
    ensures WellFormed(DeepSum(20)) && Pending(DeepSum(20)) == 21 && Postfix(DeepSum(20)) == "ab+"
    ensures !Convert(Text(DeepSum(20))).exited && Convert(Text(DeepSum(20))).out == "ab"
  {
    hide DeepSum, Steps, Text, Postfix, Pending, WellFormed;
    DeepSumShape(20);
    DeepSumRuns(Empty, 20);
    DrainAll(Empty.(out := "" + "ab", lostOps := 1));
    assert "" + "ab" + "" == "ab";
  }
}

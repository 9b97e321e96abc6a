/** CSE/Lab10/lab10.c: infix expressions with one-character operands, their postfix form, and the
    conversion with a stack of twenty characters, as functions. */
module InfixGrammar {

  const MAX_STACK_SIZE: int := 20

  predicate Operator(c: char) { c == '+' || c == '-' || c == '*' || c == '/' }

  predicate Operand(c: char) { !Operator(c) && c != '(' && c != ')' }

  function Prec(c: char): int {
    if c == '(' || c == ')' then 0 else if c == '+' || c == '-' then 1 else if c == '*' || c == '/' then 2 else -1
  }

  // ---------------------------------------------------------------- expressions

  datatype Expr = Leaf(c: char) | Paren(e: Expr) | Bin(op: char, left: Expr, right: Expr)

  /** How tightly the outermost construct binds. */
  function Level(e: Expr): int { if e.Bin? then Prec(e.op) else 3 }

  /** The tree that the usual rules give: '*' and '/' bind tighter, and equals group to the left. */
  predicate WellFormed(e: Expr) {
    match e
    case Leaf(c) => Operand(c)
    case Paren(u) => WellFormed(u)
    case Bin(op, l, r) =>
      Operator(op) && WellFormed(l) && WellFormed(r) && Prec(op) <= Level(l) && Prec(op) < Level(r)
  }

  /** The same by a grammar of three rules, in which no number says what binds how tightly: a sum is a term, or
      a sum, '+' or '-', and a term; a term is a factor, or a term, '*' or '/', and a factor; a factor is an
      operand, or a sum in parentheses. */
  predicate IsSum(e: Expr)
    decreases e, 2
  {
    IsTerm(e) || (e.Bin? && (e.op == '+' || e.op == '-') && IsSum(e.left) && IsTerm(e.right))
  }

  predicate IsTerm(e: Expr)
    decreases e, 1
  {
    IsFactor(e) || (e.Bin? && (e.op == '*' || e.op == '/') && IsTerm(e.left) && IsFactor(e.right))
  }

  predicate IsFactor(e: Expr)
    decreases e, 0
  {
    (e.Leaf? && e.c !in {'+', '-', '*', '/', '(', ')'}) || (e.Paren? && IsSum(e.e))
  }

  function Text(e: Expr): string {
    match e
    case Leaf(c) => [c]
    case Paren(u) => "(" + Text(u) + ")"
    case Bin(op, l, r) => Text(l) + [op] + Text(r)
  }

  function Postfix(e: Expr): string {
    match e
    case Leaf(c) => [c]
    case Paren(u) => Postfix(u)
    case Bin(op, l, r) => Postfix(l) + Postfix(r) + [op]
  }

  /** The greatest number of operators and parentheses that wait at the same time. */
  function Pending(e: Expr): (n: nat) {
    match e
    case Leaf(_) => 0
    case Paren(u) => 1 + Pending(u)
    case Bin(_, l, r) => Max(Pending(l), 1 + Pending(r))
  }

  function Max(a: nat, b: nat): nat { if a < b then b else a }

  // ---------------------------------------------------------------- the conversion

  /** The stack, bottom first; what was printed; whether pop on an empty stack ended the process; and
      how many operators and parentheses push has dropped. */
  datatype Conv = Conv(stack: string, out: string, exited: bool, lostOps: nat, lostParens: nat)

  function Push(v: Conv, c: char): Conv {
    if |v.stack| < MAX_STACK_SIZE then v.(stack := v.stack + [c])
    else if c == '(' then v.(lostParens := v.lostParens + 1)
    else v.(lostOps := v.lostOps + 1)
  }

  function Top(s: string): char
    requires s != ""
  {
    s[|s| - 1]
  }

  function Pop(s: string): (r: string)
    requires s != ""
    ensures |r| == |s| - 1
  {
    s[..|s| - 1]
  }

  /** Prints the operators on the stack that bind at least as tightly as p. */
  function Flush(v: Conv, p: int): Conv
    decreases |v.stack|
  {
    if v.stack == "" || Prec(Top(v.stack)) < p then v
    else Flush(v.(stack := Pop(v.stack), out := v.out + [Top(v.stack)]), p)
  }

  /** Prints what is on the stack down to the last '(' and removes that. */
  function Close(v: Conv): Conv
    decreases |v.stack|
  {
    if v.stack == "" then v.(exited := true)
    else if Top(v.stack) == '(' then v.(stack := Pop(v.stack))
    else Close(v.(stack := Pop(v.stack), out := v.out + [Top(v.stack)]))
  }

  function Step(v: Conv, c: char): Conv {
    if v.exited then v
    else if Operator(c) then Push(Flush(v, Prec(c)), c)
    else if c == '(' then Push(v, c)
    else if c == ')' then Close(v)
    else v.(out := v.out + [c])
  }

  function Steps(v: Conv, s: string): Conv
    decreases |s|
  {
    if s == "" then v else Steps(Step(v, s[0]), s[1..])
  }

  /** Prints the rest of the stack, top first. */
  function Drain(v: Conv): Conv
    decreases |v.stack|
  {
    if v.exited || v.stack == "" then v else Drain(v.(stack := Pop(v.stack), out := v.out + [Top(v.stack)]))
  }

  const Empty: Conv := Conv("", "", false, 0, 0)

  function Convert(s: string): Conv { Drain(Steps(Empty, s)) }

  // ---------------------------------------------------------------- values

  function Value(e: Expr, env: char -> int, f: (char, int, int) -> int): int {
    match e
    case Leaf(c) => env(c)
    case Paren(u) => Value(u, env, f)
    case Bin(op, l, r) => f(op, Value(l, env, f), Value(r, env, f))
  }

  datatype Option<T> = None | Some(value: T)

  /** The stack machine for postfix text. */
  function Eval(s: string, st: seq<int>, env: char -> int, f: (char, int, int) -> int): Option<seq<int>>
    decreases |s|
  {
    if s == "" then Some(st)
    else if !Operator(s[0]) then Eval(s[1..], st + [env(s[0])], env, f)
    else if |st| < 2 then None
    else Eval(s[1..], st[..|st| - 2] + [f(s[0], st[|st| - 2], st[|st| - 1])], env, f)
  }
}

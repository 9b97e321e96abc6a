/** CSE/Lab10/lab10.c as it is written: the array stack with its top index, and the loop over the text. */
module InfixStack {
  import opened InfixGrammar
  import opened InfixMeaning

  class StackType {
    const stack: array<char>
    var top: int

    ghost predicate Valid() reads this { stack.Length == MAX_STACK_SIZE && -1 <= top < MAX_STACK_SIZE }

    ghost function Contents(): string
      requires Valid()
      reads this, stack
    {
      stack[..top + 1]
    }

    constructor ()
      ensures Valid() && Contents() == "" && fresh(stack)
    {
      stack := new char[MAX_STACK_SIZE];
      top := -1;
    }

    predicate IsEmpty()
      requires Valid()
      reads this, stack
      ensures IsEmpty() == (Contents() == "")
    {
      top == -1
    }

    predicate IsFull() reads this { top == MAX_STACK_SIZE - 1 }

    /** On a full stack the item is dropped. */
    method Push(item: char)
      requires Valid()
      modifies this, stack
      ensures Valid()
      ensures Contents() == if old(|Contents()|) < MAX_STACK_SIZE then old(Contents()) + [item] else old(Contents())
    {
      if !IsFull() {
        top := top + 1;
        stack[top] := item;
      }
    }

    /** On an empty stack the process ends. */
    method Pop() returns (item: char, exited: bool)
      requires Valid()
      modifies this
      ensures Valid() && exited == (old(Contents()) == "")
      ensures if exited then Contents() == "" else item == Top(old(Contents())) && Contents() == InfixGrammar.Pop(old(Contents()))
    {
      if IsEmpty() {
        return '\0', true;
      }
      item, exited := stack[top], false;
      top := top - 1;
    }

    /** And so it does here. */
    method Peek() returns (item: char, exited: bool)
      requires Valid()
      ensures exited == (Contents() == "") && (!exited ==> item == Top(Contents()))
    {
      if IsEmpty() {
        return '\0', true;
      }
      item, exited := stack[top], false;
    }
  }

  /** What the program has printed and what its stack holds, as the state of the specification. */
  predicate Like(stack: string, out: string, v: Conv) { stack == v.stack && out == v.out && !v.exited }

  /** The loop over an operator: prints what binds at least as tightly. */
  method PopOperators(s: StackType, ghost v: Conv, out0: string, p: int) returns (out: string)
    requires s.Valid() && Like(s.Contents(), out0, v)
    modifies s
    ensures s.Valid() && s.Contents() == Flush(v, p).stack && out == Flush(v, p).out
  {
    out := out0;
    ghost var w := v;
    while !s.IsEmpty()
      invariant s.Valid() && Like(s.Contents(), out, w) && Flush(w, p) == Flush(v, p)
      decreases |s.Contents()|
    {
      var t, _ := s.Peek();
      if Prec(t) < p {
        return;
      }
      w := w.(stack := Pop(w.stack), out := w.out + [t]);
      var top, _ := s.Pop();
      out := out + [top];
    }
  }

  /** The loop over ')'; popping an empty stack ends the process. */
  method PopToParen(s: StackType, ghost v: Conv, out0: string) returns (out: string, exited: bool)
    requires s.Valid() && Like(s.Contents(), out0, v)
    modifies s
    ensures s.Valid() && s.Contents() == Close(v).stack && out == Close(v).out && exited == Close(v).exited
  {
    out := out0;
    ghost var w := v;
    var t;
    t, exited := s.Pop();
    while !exited && t != '('
      invariant s.Valid() && !w.exited && out == w.out && Close(w) == Close(v)
      invariant exited == (w.stack == "")
      invariant if exited then s.Contents() == "" else t == Top(w.stack) && s.Contents() == Pop(w.stack)
      decreases |w.stack|
    {
      out := out + [t];
      w := w.(stack := Pop(w.stack), out := w.out + [t]);
      t, exited := s.Pop();
    }
  }

  method PopAll(s: StackType, ghost v: Conv, out0: string) returns (out: string)
    requires s.Valid() && Like(s.Contents(), out0, v)
    modifies s
    ensures s.Valid() && out == Drain(v).out
  {
    out := out0;
    ghost var w := v;
    while !s.IsEmpty()
      invariant s.Valid() && Like(s.Contents(), out, w) && Drain(w) == Drain(v)
      decreases |s.Contents()|
    {
      var t, _ := s.Pop();
      w := w.(stack := Pop(w.stack), out := w.out + [t]);
      out := out + [t];
    }
  }

  /** infix_to_postfix: what is printed, and whether the process ended in pop. */
  method InfixToPostfix(exp: string) returns (out: string, exited: bool)
    ensures out == Convert(exp).out && exited == Convert(exp).exited
  {
    hide Flush, Close, Drain;
    var s := new StackType();
    out, exited := "", false;
    ghost var v := Empty;
    var i := 0;
    assert exp[0..] == exp;
    while i < |exp|
      invariant 0 <= i <= |exp| && s.Valid() && fresh(s) && fresh(s.stack)
      invariant Like(s.Contents(), out, v) && Steps(v, exp[i..]) == Steps(Empty, exp)
    {
      var ch := exp[i];
      ghost var w := Step(v, ch);
      assert exp[i..][0] == ch && exp[i..][1..] == exp[i + 1..];
      if Operator(ch) {
        FlushKeeps(v, Prec(ch));
        out := PopOperators(s, v, out, Prec(ch));
        s.Push(ch);
      } else if ch == '(' {
        s.Push(ch);
      } else if ch == ')' {
        out, exited := PopToParen(s, v, out);
        if exited {
          ExitedStays(w, exp[i + 1..]);
          DrainExited(w);
          return;
        }
      } else {
        out := out + [ch];
      }
      v := w;
      i := i + 1;
    }
    out := PopAll(s, v, out);
    DrainRuns(v);
  }

  lemma DrainExited(v: Conv)
    requires v.exited
    ensures Drain(v) == v
  {}

  lemma {:induction false} DrainRuns(v: Conv)
    ensures Drain(v).exited == v.exited
    decreases |v.stack|
  {
    if !v.exited && v.stack != "" { DrainRuns(v.(stack := Pop(v.stack), out := v.out + [Top(v.stack)])); }
  }
}

/** OS/HW2/HW2-temp-Mlfq as it is written: three ring objects and a process table changed in place.
    Every operation is proved to do what the state machine does. */
module MlfqKernel {
  import opened MlfqRings
  import opened MlfqMachine
  import opened MlfqSafety
  import opened MlfqTicks

  // ---------------------------------------------------------------- dequeue, one turn at a time

  /** Moving the first element to the end does not change what is left when q[i] is taken out. */
  lemma RotateWithout<T>(q: seq<T>, i: int)
    requires 0 < i < |q|
    ensures Without(q[1..] + [q[0]], i - 1) == Without(q, i)
  {
    var r := q[1..] + [q[0]];
    assert r[i..] == q[i + 1..] + [q[0]];
    assert r[..i - 1] == q[1..i];
    assert q[..i] == [q[0]] + q[1..i];
  }

  lemma {:induction false} FirstIs(procs: Table, q: seq<int>, i: nat)
    requires i < |q| && State(procs, q[i]) == RUNNING && forall k :: 0 <= k < i ==> State(procs, q[k]) != RUNNING
    ensures First(procs, q) == i
  {}

  /** The first process of a queue is not the RUNNING one and goes to the end. */
  lemma Turn(procs: Table, q: seq<int>)
    requires q != [] && State(procs, q[0]) != RUNNING && First(procs, q) < |q|
    ensures var r := q[1..] + [q[0]];
            First(procs, q) > 0 && First(procs, r) == First(procs, q) - 1 && SomeReady(procs, r)
            && Without(r, First(procs, r)) == Without(q, First(procs, q))
  {
    var r, i := q[1..] + [q[0]], First(procs, q);
    FirstIs(procs, r, i - 1);
    assert Ready(State(procs, r[i - 1]));
    RotateWithout(q, i);
  }

  lemma NoneReady(procs: Table, q: seq<int>)
    ensures SomeReady(procs, q) || Without(q, First(procs, q)) == q
  {
    var i := First(procs, q);
    assert i < |q| ==> Ready(State(procs, q[i]));
  }

  lemma NoneReadyEmpty(procs: Table, q: seq<int>)
    ensures q == [] ==> !SomeReady(procs, q)
  {}

  lemma FrontRunning(procs: Table, q: seq<int>)
    requires q != [] && State(procs, q[0]) == RUNNING
    ensures First(procs, q) == 0 && Without(q, 0) == q[1..]
  {}

  lemma TakeSame(s: Sys, j: int)
    requires 0 <= j < |s.q|
    ensures !SomeReady(s.procs, s.q[j]) ==> Take(s, j) == s
  {
    if !SomeReady(s.procs, s.q[j]) {
      NoneReady(s.procs, s.q[j]);
      assert s.q[j := s.q[j]] == s.q;
    }
  }

  // ---------------------------------------------------------------- boost, one level at a time

  /** The processes of q moved to level 0. */
  function OnTop(procs: Table, q: seq<int>): Table {
    seq(|procs|, p requires 0 <= p < |procs| => if p in q then procs[p].(qPosi := 0) else procs[p])
  }

  lemma OnTopNone(procs: Table, q: seq<int>)
    ensures OnTop(procs, q[..0]) == procs
  {}

  lemma OnTopSame(procs: Table, q: seq<int>, p: int)
    requires 0 <= p < |procs|
    ensures |OnTop(procs, q)| == |procs| && OnTop(procs, q)[p].state == procs[p].state
  {}

  lemma OnTopNext(procs: Table, q: seq<int>, n: nat)
    requires n < |q| && 0 <= q[n] < |procs|
    ensures var t := OnTop(procs, q[..n]); t[q[n] := t[q[n]].(qPosi := 0)] == OnTop(procs, q[..n + 1])
  {
    assert q[..n + 1] == q[..n] + [q[n]];
  }

  /** What boostMlfq has made of the queues and the table when it comes to level j. */
  function PouredTo(s: Sys, j: int): (Queues, Table)
    requires |s.q| == LEVELS
  {
    if j <= 1 then (s.q, s.procs)
    else if j == 2 then ([s.q[0] + s.q[1], [], s.q[2]], OnTop(s.procs, s.q[1]))
    else ([s.q[0] + s.q[1] + s.q[2], [], []], OnTop(OnTop(s.procs, s.q[1]), s.q[2]))
  }

  lemma PourFacts(s: Sys, j: int)
    requires Inv(s) && 0 < j < LEVELS
    ensures var (q, procs) := PouredTo(s, j);
            |q| == LEVELS && |q[0]| + |q[j]| < SIZE
            && (forall p :: p in q[j] ==> 0 <= p < |procs| && procs[p].state != UNUSED)
            && PouredTo(s, j + 1) == (q[0 := q[0] + q[j]][j := []], OnTop(procs, q[j]))
  {
    Members(s.procs, s.q);
    var (q, procs) := PouredTo(s, j);
    assert s.q == [s.q[0], s.q[1], s.q[2]];
    assert q[0 := q[0] + q[j]][j := []] == PouredTo(s, j + 1).0;
    forall p | p in q[j] ensures 0 <= p < |procs| && procs[p].state != UNUSED {
      assert p in LiveSet(s.procs);
    }
  }

  lemma BoostFacts(s: Sys)
    requires Inv(s)
    ensures |s.q| == LEVELS && PouredTo(s, 1) == (s.q, s.procs)
    ensures Boosted(s) == Sys(PouredTo(s, LEVELS).1, PouredTo(s, LEVELS).0, s.cur, s.ticks)
  {}

  function ReadyCount(procs: Table, q: seq<int>): nat {
    if q == [] then 0 else ReadyCount(procs, q[..|q| - 1]) + if Ready(State(procs, q[|q| - 1])) then 1 else 0
  }

  /** It counts RUNNABLE and RUNNING ones. */
  lemma ReadyCountNext(procs: Table, q: seq<int>, p: int)
    requires 0 <= p < |procs|
    ensures ReadyCount(procs, []) == 0
    ensures ReadyCount(procs, q + [p]) == ReadyCount(procs, q) + if procs[p].state in {RUNNABLE, RUNNING} then 1 else 0
  {
    assert (q + [p])[..|q|] == q;
  }

  lemma {:induction false} ReadyCountZero(procs: Table, q: seq<int>)
    ensures ReadyCount(procs, q) == 0 <==> !SomeReady(procs, q)
  {
    if q != [] {
      var r := q[..|q| - 1];
      ReadyCountZero(procs, r);
      assert forall k :: 0 <= k < |r| ==> r[k] == q[k];
    }
  }

  /** dequeue by the states of the queue's processes. */
  lemma TakeOutcome(s: Sys, j: int)
    requires 0 <= j < |s.q| && (SomeReady(s.procs, s.q[j]) ==> First(s.procs, s.q[j]) < |s.q[j]|)
    requires forall p :: p in s.q[j] ==> 0 <= p < |s.procs|
    ensures if SomeCanRun(s.procs, s.q[j])
            then exists i :: TakenAt(s.procs, s.q[j], Take(s, j).q[j], i)
            else Take(s, j).q == s.q
  {
    assert forall k :: 0 <= k < |s.q[j]| ==> s.q[j][k] in s.q[j];
    if SomeCanRun(s.procs, s.q[j]) {
      var k :| 0 <= k < |s.q[j]| && 0 <= s.q[j][k] < |s.procs| && s.procs[s.q[j][k]].state in {RUNNABLE, RUNNING};
      assert Ready(State(s.procs, s.q[j][k]));
      TakeExact(s, j);
    } else {
      assert !SomeReady(s.procs, s.q[j]);
      TakeSame(s, j);
    }
  }

  // ---------------------------------------------------------------- where dequeue's recursion ends

  /** dequeue calls itself on the queue with its first process moved to the end. */
  predicate Recurses(procs: Table, q: seq<int>) { SomeReady(procs, q) && q != [] && State(procs, q[0]) != RUNNING }

  function Turned(q: seq<int>, n: nat): seq<int>
    decreases n
  {
    if q == [] || n == 0 then q else Turned(q[1..] + [q[0]], n - 1)
  }

  lemma {:induction false} NeverEnds(procs: Table, q: seq<int>, n: nat)
    requires SomeReady(procs, q) && First(procs, q) == |q|
    ensures Recurses(procs, Turned(q, n))
    decreases n
  {
    if n > 0 {
      var r := q[1..] + [q[0]];
      var k :| 0 <= k < |q| && Ready(State(procs, q[k]));
      assert q[k] == r[if k == 0 then |r| - 1 else k - 1];
      assert forall i :: 0 <= i < |r| ==> r[i] == q[if i == |r| - 1 then 0 else i + 1];
      NeverEnds(procs, r, n - 1);
    }
  }

  lemma {:induction false} Ends(procs: Table, q: seq<int>)
    requires First(procs, q) < |q|
    ensures exists n: nat :: !Recurses(procs, Turned(q, n))
    decreases First(procs, q)
  {
    if State(procs, q[0]) == RUNNING {
      assert !Recurses(procs, Turned(q, 0));
    } else {
      Turn(procs, q);
      Ends(procs, q[1..] + [q[0]]);
      var n: nat :| !Recurses(procs, Turned(q[1..] + [q[0]], n));
      assert !Recurses(procs, Turned(q, n + 1));
    }
  }

  /** The recursion of dequeue ends if and only if no process can run, or one is RUNNING. */
  lemma DequeueEndsIff(procs: Table, q: seq<int>)
    ensures (exists n: nat :: !Recurses(procs, Turned(q, n))) <==> (SomeReady(procs, q) ==> First(procs, q) < |q|)
  {
    if !SomeReady(procs, q) {
      assert !Recurses(procs, Turned(q, 0));
    } else if First(procs, q) < |q| {
      Ends(procs, q);
    } else {
      forall n: nat ensures Recurses(procs, Turned(q, n)) { NeverEnds(procs, q, n); }
    }
  }

  // ---------------------------------------------------------------- room in the rings

  lemma {:induction false} FilledShort(procs: Table, n: nat)
    requires n <= |procs|
    ensures |Filled(procs, n)| <= n
  {
    if n > 0 { FilledShort(procs, n - 1); }
  }

  lemma FilledNone(procs: Table)
    ensures Filled(procs, 0) == []
  {}

  lemma FilledNext(procs: Table, i: nat)
    requires i < |procs|
    ensures |Filled(procs, i)| <= i
    ensures Filled(procs, i + 1) == if procs[i].state != UNUSED then Filled(procs, i) + [i] else Filled(procs, i)
  {
    FilledShort(procs, i);
  }

  lemma RoomFor(s: Sys)
    requires Inv(s)
    ensures |s.q| == LEVELS && forall j :: 0 <= j < LEVELS ==> |s.q[j]| < SIZE
  {
    Members(s.procs, s.q);
  }

  lemma OnCpu(s: Sys)
    requires Inv(s)
    ensures Running(s) == (s.cur != NIL) && (s.cur != NIL ==> s.procs[s.cur].state == RUNNING)
  {}

  /** What dequeue needs to know about the queue of the current process. */
  lemma TakeCurrent(s: Sys)
    requires Inv(s) && Running(s)
    ensures var j := s.procs[s.cur].qPosi;
            |s.q| == LEVELS && 0 <= j < LEVELS && |s.q[j]| < SIZE && First(s.procs, s.q[j]) < |s.q[j]|
            && forall p :: p in s.q[j] ==> 0 <= p < |s.procs| && s.procs[p].qPosi == j
  {
    CurrentFound(s);
    RoomFor(s);
    var j := s.procs[s.cur].qPosi;
    forall p | p in s.q[j] ensures 0 <= p < |s.procs| && s.procs[p].qPosi == j { OnOwnLevel(s.procs, s.q, p, j); }
  }

  lemma TakeLeavesRoom(s: Sys, to: int)
    requires Inv(s) && Running(s) && 0 <= to < LEVELS
    ensures |Take(s, s.procs[s.cur].qPosi).q| == LEVELS && |Take(s, s.procs[s.cur].qPosi).q[to]| < SIZE
  {
    RoomFor(s);
  }

  // ---------------------------------------------------------------- the kernel

  class Kernel {
    const q: seq<Mlfq>      // qOfM
    var procs: Table        // ptable.proc
    var cur: int            // proc
    var ticks: int
    ghost var held: Queues  // what the rings hold

    ghost predicate Wired() {
      && |q| == LEVELS
      && q[0] != q[1] && q[0] != q[2] && q[1] != q[2]
      && q[0].queue != q[1].queue && q[0].queue != q[2].queue && q[1].queue != q[2].queue
      && q[0].level == 0 && q[1].level == 1 && q[2].level == 2
    }

    ghost function Rings(): set<object> {
      if |q| == LEVELS then {q[0], q[1], q[2], q[0].queue, q[1].queue, q[2].queue} else {}
    }

    ghost predicate RingsHold()
      reads this`held, Rings()
    {
      && Wired() && |held| == LEVELS
      && (q[0].Valid() && q[0].Held() == held[0])
      && (q[1].Valid() && q[1].Held() == held[1])
      && (q[2].Valid() && q[2].Held() == held[2])
    }

    ghost function View(): Sys reads this { Sys(procs, held, cur, ticks) }

    ghost predicate Valid()
      reads this, Rings()
    {
      RingsHold() && Inv(View())
    }

    // -------------------------------------------------------------- queue operations

    method EnqueueAt(j: int, p: int) returns (ok: bool)
      requires RingsHold() && 0 <= j < LEVELS && 0 <= p < |procs|
      modifies this`held, this`procs, Rings()
      ensures RingsHold() && ok == (|old(held)[j]| < SIZE)
      ensures View() == if ok then Append(old(View()), j, p) else old(View())
    {
      hide RingOk, RingHeld, Slot, Mlfq.Valid, Mlfq.Held;
      ok := q[j].Enqueue(p);
      if ok {
        procs := procs[p := procs[p].(qPosi := q[j].level)];
        held := held[j := held[j] + [p]];
      }
    }

    method NormalDequeueAt(j: int) returns (ret: int)
      requires RingsHold() && 0 <= j < LEVELS && held[j] != []
      modifies this`held, Rings()
      ensures RingsHold() && ret == old(held)[j][0] && held == old(held)[j := old(held)[j][1..]]
    {
      hide RingOk, RingHeld, Slot, Mlfq.Valid, Mlfq.Held;
      ret := q[j].NormalDequeue();
      held := held[j := held[j][1..]];
    }

    method IsEmptyAt(j: int) returns (empty: bool)
      requires RingsHold() && 0 <= j < LEVELS
      ensures empty == (held[j] == [])
    {
      hide RingHeld, Slot;
      EmptyFull(q[j].queue[..], NIL, q[j].front, q[j].rear, q[j].count);
      empty := q[j].IsEmpty();
    }

    /** The walk of checkRcount, from the first process to the first null pointer. */
    method CountReady(j: int) returns (n: int)
      requires RingsHold() && 0 <= j < LEVELS && |held[j]| < SIZE
      ensures n == ReadyCount(procs, held[j])
    {
      hide RingOk, RingHeld, Slot, Mlfq.Valid, Mlfq.Held;
      var i := 0;
      n := q[j].count;
      var p := q[j].IdxPeek(0);
      while p != NIL
        invariant 0 <= i <= |held[j]| == q[j].count
        invariant if i < |held[j]| then p == held[j][i] && p != NIL else p == NIL
        invariant n == |held[j]| - i + ReadyCount(procs, held[j][..i])
        decreases |held[j]| - i
      {
        assert held[j][..i + 1][..i] == held[j][..i];
        if !Ready(State(procs, p)) {
          n := n - 1;
        }
        i := i + 1;
        p := q[j].IdxPeek(i);
      }
      assert held[j][..i] == held[j];
    }

    method CheckRcount(j: int) returns (r: int)
      requires RingsHold() && 0 <= j < LEVELS && |held[j]| < SIZE
      modifies Rings()
      ensures RingsHold() && r == ReadyCount(procs, held[j])
    {
      hide RingOk, RingHeld, Slot, Mlfq.Valid, Mlfq.Held;
      r := CountReady(j);
      q[j].rCount := r;
    }

    /** dequeue: takes out the first RUNNING process; those in front of it move, in order, to the end.
        The value returned is the process that stood first, whichever was taken out. */
    method Dequeue(j: int) returns (ret: int)
      requires RingsHold() && |held| == LEVELS && 0 <= j < LEVELS && |held[j]| < SIZE
      requires SomeReady(procs, held[j]) ==> First(procs, held[j]) < |held[j]|
      requires forall p :: p in held[j] ==> 0 <= p < |procs| && procs[p].qPosi == j
      modifies this`held, this`procs, Rings()
      ensures RingsHold() && View() == Take(old(View()), j)
      ensures if SomeCanRun(old(procs), old(held)[j])
              then |held| == |old(held)| && exists i :: TakenAt(old(procs), old(held)[j], held[j], i)
              else held == old(held)
      ensures ret == if old(SomeReady(procs, held[j])) then old(held)[j][0] else NIL
      decreases First(procs, held[j])
    {
      hide RingsHold, First, Without, ReadyCount, SomeReady, Ready, TakenAt, SomeCanRun;
      ghost var was := held[j];
      TakeOutcome(View(), j);
      NoneReadyEmpty(procs, was);
      TakeSame(View(), j);
      var empty := IsEmptyAt(j);
      if empty {
        return NIL;
      }
      ReadyCountZero(procs, was);
      var ready := CheckRcount(j);
      if ready == 0 {
        return NIL;
      }
      ret := NormalDequeueAt(j);
      assert ret == was[0] && ret in was;
      if State(procs, ret) != RUNNING {
        var _ := EnqueueAt(j, ret);
        assert procs == old(procs);
        assert held == old(held)[j := was[1..] + [was[0]]];
        Turn(procs, was);
        assert forall p :: p in was[1..] + [was[0]] ==> p in was;
        var _ := Dequeue(j);
      } else {
        FrontRunning(procs, was);
      }
    }

    // -------------------------------------------------------------- boost

    /** One level of boostMlfq: everything on it moves to the end of level 0. Level 0 has room for all
        live processes, so the search for another queue never goes on; and a queued process is never UNUSED. */
    method Pour(j: int)
      requires RingsHold() && |held| == LEVELS && 0 < j < LEVELS && |held[0]| + |held[j]| < SIZE
      requires forall p :: p in held[j] ==> 0 <= p < |procs| && procs[p].state != UNUSED
      modifies this`held, this`procs, Rings()
      ensures RingsHold() && held == old(held)[0 := old(held)[0] + old(held)[j]][j := []]
      ensures procs == OnTop(old(procs), old(held)[j])
    {
      hide RingsHold, OnTop, Slot, RingOk;
      ghost var base, was, start := held[0], held[j], procs;
      ghost var n := 0;
      var qCount := CountAt(j);
      var p := PeekAt(j);
      assert was[0..] == was && base + was[..0] == base;
      OnTopNone(start, was);
      while p != NIL && qCount != 0
        invariant RingsHold() && 0 <= n <= |was| && qCount == |was| - n
        invariant held == old(held)[0 := base + was[..n]][j := was[n..]]
        invariant if n < |was| then p == was[n] && p != NIL else p == NIL
        invariant procs == OnTop(start, was[..n])
        decreases |was| - n
      {
        assert p in was;
        OnTopSame(start, was[..n], p);
        var _ := NormalDequeueAt(j);
        qCount := qCount - 1;
        var _ := EnqueueAt(0, p);
        OnTopNext(start, was, n);
        assert base + was[..n] + [p] == base + was[..n + 1];
        n := n + 1;
        p := PeekAt(j);
      }
      assert was[..n] == was && was[n..] == [];
      assert held == old(held)[0 := base + was][j := []];
    }

    method CountAt(j: int) returns (n: int)
      requires RingsHold() && |held| == LEVELS && 0 <= j < LEVELS
      ensures n == |held[j]|
    {
      n := q[j].count;
    }

    method PeekAt(j: int) returns (p: int)
      requires RingsHold() && |held| == LEVELS && 0 <= j < LEVELS
      ensures if held[j] != [] then p == held[j][0] && p != NIL else p == NIL
    {
      p := q[j].IdxPeek(0);
    }

    method Boost()
      requires Valid()
      modifies this`held, this`procs, Rings()
      ensures Valid() && View() == Boosted(old(View()))
      ensures held == [old(held)[0] + old(held)[1] + old(held)[2], [], []]
      ensures |procs| == |old(procs)| && forall p :: 0 <= p < |procs| ==>
                procs[p] == old(procs)[p].(qPosi := procs[p].qPosi)
                && (procs[p].state in {SLEEPING, RUNNABLE, RUNNING} ==> procs[p].qPosi == 0)
    {
      hide RingsHold, Inv, Boosted, Placed, OnTop;
      BoostKeeps(View());
      BoostedExact(View());
      BoostFacts(View());
      ghost var s := View();
      var j := 1;
      while j < LEVELS
        invariant 1 <= j <= LEVELS && RingsHold() && cur == s.cur && ticks == s.ticks
        invariant (held, procs) == PouredTo(s, j)
      {
        PourFacts(s, j);
        Pour(j);
        j := j + 1;
      }
    }

    // -------------------------------------------------------------- processes come and go

    /** The scheduler's start: every entry that is in use goes onto level 0. */
    constructor (procs: Table)
      requires Booted(procs)
      ensures Valid() && View() == Start(procs) && cur == -1 && ticks == 0
      ensures |held| == 3 && held[1] == held[2] == [] && forall i, j :: 0 <= i < j < |held[0]| ==> held[0][i] < held[0][j]
      ensures forall p :: p in held[0] <==> 0 <= p < 64 && procs[p].state != UNUSED
    {
      var q0 := new Mlfq(0);
      var q1 := new Mlfq(1);
      var q2 := new Mlfq(2);
      q := [q0, q1, q2];
      this.procs := procs;
      cur, ticks := NIL, 0;
      held := [[], [], []];
      new;
      FilledInOrder(procs, SIZE);
      Fill();
    }

    method Fill()
      requires RingsHold() && Booted(procs) && View() == Sys(procs, [[], [], []], NIL, 0)
      modifies this`held, this`procs, Rings()
      ensures Valid() && View() == Start(old(procs))
    {
      hide RingsHold, Inv, LiveSet, Filled;
      ghost var table := procs;
      var i := 0;
      FilledNone(table);
      while i < SIZE
        invariant 0 <= i <= SIZE && RingsHold()
        invariant View() == Sys(table, [Filled(table, i), [], []], NIL, 0)
      {
        FilledNext(table, i);
        if procs[i].state != UNUSED {
          assert procs[i := procs[i].(qPosi := 0)] == procs;
          var _ := EnqueueAt(0, i);
        }
        assert held == [Filled(table, i + 1), [], []];
        i := i + 1;
      }
      StartGood(table);
    }

    /** fork, once allocproc has filled in the entry. The 64th live process leaves the machine: then the
        walk over a ring with all of them does not end. */
    method Fork(np: int)
      requires Valid() && Running(View()) && 0 <= np < |procs| && procs[np].state == EMBRYO
      modifies this`held, this`procs, Rings()
      ensures RingsHold() && View() == Forked(old(View()), np)
      ensures |held| == 3 && held == old(held)[0 := old(held)[0] + [np]] && cur == old(cur) && ticks == old(ticks)
      ensures procs == old(procs)[np := old(procs)[np].(state := RUNNABLE, consumed := 0, qPosi := 0, inTick := false)]
      ensures Valid() <==> old(Enabled(View(), Event.Fork(np)))
    {
      hide RingsHold, Inv;
      ghost var s := View();
      RoomFor(s);
      procs := procs[np := procs[np].(state := RUNNABLE, consumed := 0, inTick := false)];
      var _ := EnqueueAt(0, np);
      ForkKeepsIff(s, np);
    }

    /** The end of exit; the wakeups before it are events of their own. */
    method Exit()
      requires Valid() && Running(View())
      modifies this`held, this`procs, this`cur, Rings()
      ensures Valid() && View() == Apply(old(View()), Event.Exit)
      ensures 0 <= old(procs[cur].qPosi) < |old(held)| == |held|
      ensures TakenFrom(old(held[procs[cur].qPosi]), held[old(procs[cur].qPosi)], old(cur))
      ensures held == old(held)[old(procs[cur].qPosi) := held[old(procs[cur].qPosi)]]
      ensures cur == -1 && procs == old(procs)[old(cur) := old(procs[cur]).(state := ZOMBIE)]
    {
      hide RingsHold, Inv, First, SomeReady;
      ExitExact(View());
      StepKeeps(View(), Event.Exit);
      TakeCurrent(View());
      var _ := Dequeue(procs[cur].qPosi);
      Sched(ZOMBIE);
    }

    /** A new state for the current process, and sched. */
    method Sched(state: ProcState)
      requires Running(View())
      modifies this`procs, this`cur
      ensures View() == Leave(old(View()), state)
    {
      procs := procs[cur := procs[cur].(state := state)];
      cur := NIL;
    }

    /** wakeup1. */
    method Wakeup(chan: int)
      modifies this`procs
      ensures View() == old(View()).(procs := Woken(old(procs), chan))
      ensures |procs| == |old(procs)| && forall p :: 0 <= p < |procs| ==>
                procs[p] == if old(procs)[p].state == SLEEPING && old(procs)[p].chan == chan then old(procs)[p].(state := RUNNABLE)
                            else old(procs)[p]
    {
      var p := 0;
      while p < |procs|
        modifies this`procs
        invariant 0 <= p <= |procs| == |old(procs)|
        invariant forall o :: 0 <= o < |procs| ==> procs[o] == if o < p then Woken(old(procs), chan)[o] else old(procs)[o]
      {
        if procs[p].state == SLEEPING && procs[p].chan == chan {
          procs := procs[p := procs[p].(state := RUNNABLE)];
        }
        p := p + 1;
      }
      assert procs == Woken(old(procs), chan);
    }

    // -------------------------------------------------------------- the timer

    /** The current process goes to the end of level `to` and yields. */
    method Move(to: int)
      requires Valid() && Running(View()) && 0 <= to < LEVELS
      modifies this`held, this`procs, this`cur, Rings()
      ensures Valid() && View() == Requeue(old(View()), to) && MovedTo(old(View()), View(), to)
    {
      hide RingsHold, Inv, First, SomeReady, MovedTo;
      OnCpu(View());
      RequeueExact(View(), to);
      RequeueKeeps(View(), to);
      TakeCurrent(View());
      TakeLeavesRoom(View(), to);
      var _ := Dequeue(procs[cur].qPosi);
      var _ := EnqueueAt(to, cur);
      Sched(RUNNABLE);
    }

    method Count()
      requires Inv(View())
      modifies this`procs, this`ticks
      ensures View() == Counted(old(View())) && Clocked(old(View()), View()) && held == old(held) && cur == old(cur)
    {
      hide Inv, Clocked;
      OnCpu(View());
      CountedExact(View());
      if cur != NIL {
        procs := procs[cur := procs[cur].(consumed := (procs[cur].consumed + 1) % WIDTH)];
      }
      ticks := (ticks + 1) % WIDTH;
      Wakeup(TICKS);
    }

    /** The branch of trap that makes the current process give up the CPU. */
    method Judge()
      requires Valid() && Running(View())
      modifies this`held, this`procs, this`cur, Rings()
      ensures Valid() && View() == Judged(old(View()))
      ensures if ticks % 100 == 0 then AllOnZero(old(View()), View())
              else if DemotionDue(old(View()), old(View())) then MovedTo(old(View()), View(), old(procs[cur].qPosi) + 1)
              else if old(procs[cur].pid) > 2 then MovedTo(old(View()), View(), old(procs[cur].qPosi))
              else View() == old(View())
    {
      hide RingsHold, Inv, Requeue, Boosted, AllOnZero, MovedTo;
      OnCpu(View());
      JudgedExact(View());
      JudgedKeeps(View());
      OwnLevel(View());
      BoostRuns(View());
      if ticks % BOOST == 0 {
        Boost();
        Sched(RUNNABLE);
      } else if procs[cur].pid > 2 {
        if procs[cur].consumed % Allot(procs[cur].qPosi) == 0 && procs[cur].qPosi != LEVELS - 1 {
          MarkedKeeps(View(), true);
          procs := procs[cur := procs[cur].(inTick := true)];
          Move(procs[cur].qPosi + 1);
        } else if procs[cur].consumed % QUANTUM == 0 {
          Move(procs[cur].qPosi);
        }
      }
    }

    /** The timer interrupt, up to the first yield. */
    method Tick()
      requires Valid()
      modifies this, Rings()
      ensures Valid() && View() == Apply(old(View()), Event.Tick)
      ensures Clocked(old(View()), View()) && Outcome(old(View()), View())
    {
      hide RingsHold, Inv, Judged, Counted, Clocked, Outcome, MovedTo, AllOnZero, DemotionDue;
      TickExact(View());
      CountedKeeps(View());
      Count();
      OnCpu(View());
      if cur != NIL && procs[cur].state == RUNNING {
        Judge();
      }
    }

    /** The rest of the handler, when a process that was demoted runs again. */
    method FinishTick()
      requires Valid() && Enabled(View(), Event.FinishTick)
      modifies this, Rings()
      ensures Valid() && View() == Apply(old(View()), Event.FinishTick)
      ensures MovedTo(old(View()), View(), old(procs[cur].qPosi)) && !procs[old(cur)].inTick
    {
      hide RingsHold, Inv, MovedTo;
      FinishExact(View());
      MarkedKeeps(View(), false);
      procs := procs[cur := procs[cur].(inTick := false)];
      OwnLevel(View());
      if procs[cur].consumed % QUANTUM == 0 {
        Move(procs[cur].qPosi);
      }
    }
  }
}

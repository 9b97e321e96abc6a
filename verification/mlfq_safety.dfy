/** The queue invariant over all runs of the scheduler, and what the timer does to levels and order. */
module MlfqSafety {
  import opened MlfqRings
  import opened MlfqMachine

  // ---------------------------------------------------------------- the process table changes

  /** The same processes are live, on the same levels. */
  predicate SamePlaces(a: Table, b: Table) {
    |a| == |b| && forall p :: 0 <= p < |a| ==>
      Live(a[p].state) == Live(b[p].state) && (Live(a[p].state) ==> a[p].qPosi == b[p].qPosi)
  }

  lemma SameLive(a: Table, b: Table)
    requires SamePlaces(a, b)
    ensures LiveSet(a) == LiveSet(b)
  {}

  lemma PlacedSame(a: Table, b: Table, q: Queues)
    requires Placed(a, q) && SamePlaces(a, b)
    ensures Placed(b, q) && LiveSet(b) == LiveSet(a)
  {
    SameLive(a, b);
    forall p | 0 <= p < |b| && Live(b[p].state) ensures InQueue(b, q, p) {
      assert InQueue(a, q, p);
    }
  }

  // ---------------------------------------------------------------- a queue changes

  lemma PlacedPush(procs: Table, q: Queues, p: int, j: int, new_: Proc)
    requires Placed(procs, q) && 0 <= p < |procs| && 0 <= j < LEVELS && !Live(procs[p].state)
    requires Live(new_.state) && new_.qPosi == j
    ensures Placed(procs[p := new_], q[j := q[j] + [p]]) && LiveSet(procs[p := new_]) == LiveSet(procs) + {p}
  {
    var procs', q' := procs[p := new_], q[j := q[j] + [p]];
    assert LiveSet(procs') == LiveSet(procs) + {p};
    assert multiset(LiveSet(procs) + {p}) == multiset(LiveSet(procs)) + multiset{p};
    forall o | 0 <= o < |procs'| && Live(procs'[o].state) ensures InQueue(procs', q', o) {
      if o != p { assert InQueue(procs, q, o); }
    }
  }

  lemma PlacedPull(procs: Table, q: Queues, p: int, i: int, new_: Proc)
    requires Placed(procs, q) && 0 <= p < |procs| && Live(procs[p].state) && !Live(new_.state)
    requires 0 <= procs[p].qPosi < LEVELS && 0 <= i < |q[procs[p].qPosi]| && q[procs[p].qPosi][i] == p
    ensures var j := procs[p].qPosi;
            Placed(procs[p := new_], q[j := Without(q[j], i)]) && LiveSet(procs[p := new_]) == LiveSet(procs) - {p}
  {
    var j := procs[p].qPosi;
    var procs', q' := procs[p := new_], q[j := Without(q[j], i)];
    WithoutContents(q[j], i);
    assert LiveSet(procs') == LiveSet(procs) - {p};
    assert multiset(LiveSet(procs) - {p}) == multiset(LiveSet(procs)) - multiset{p};
    forall o | 0 <= o < |procs'| && Live(procs'[o].state) ensures InQueue(procs', q', o) {
      assert InQueue(procs, q, o);
      if procs[o].qPosi == j { StillIn(q[j], i, o); }
    }
  }

  lemma StillIn(q: seq<int>, i: int, o: int)
    requires 0 <= i < |q| && o in q && o != q[i]
    ensures o in Without(q, i)
  {
    assert q == q[..i] + [q[i]] + q[i + 1..];
  }

  lemma PlacedPour(procs: Table, q: Queues)
    requires Placed(procs, q)
    ensures Placed(Lowered(procs, q), [q[0] + q[1] + q[2], [], []]) && LiveSet(Lowered(procs, q)) == LiveSet(procs)
  {
    var low, all := Lowered(procs, q), [q[0] + q[1] + q[2], [], []];
    assert LiveSet(low) == LiveSet(procs);
    Members(procs, q);
    forall p | 0 <= p < |low| && Live(low[p].state) ensures InQueue(low, all, p) {
      assert p in LiveSet(procs) && InQueue(procs, q, p);
      if p in q[1] { OnOwnLevel(procs, q, p, 1); }
      if p in q[2] { OnOwnLevel(procs, q, p, 2); }
    }
  }

  // ---------------------------------------------------------------- giving up the CPU

  lemma LeaveKeeps(s: Sys, state: ProcState)
    requires Inv(s) && Running(s) && (state == RUNNABLE || state == SLEEPING)
    ensures Inv(Leave(s, state))
  {
    PlacedSame(s.procs, Leave(s, state).procs, s.q);
  }

  /** The current process moves to the end of level `to`; the others keep their order, up to rotation. */
  lemma RequeueKeeps(s: Sys, to: int)
    requires Inv(s) && Running(s) && 0 <= to < LEVELS
    ensures Inv(Requeue(s, to))
  {
    CurrentFound(s);
    var j, c := s.procs[s.cur].qPosi, s.cur;
    var i := First(s.procs, s.q[j]);
    var gone, back := s.procs[c].(state := ZOMBIE), s.procs[c].(qPosi := to, state := RUNNABLE);
    PlacedPull(s.procs, s.q, c, i, gone);
    var mid, midQ := s.procs[c := gone], s.q[j := Without(s.q[j], i)];
    PlacedPush(mid, midQ, c, to, back);
    RequeueIs(s, to);
    assert mid[c := back] == s.procs[c := back];
  }

  lemma RequeueIs(s: Sys, to: int)
    requires Inv(s) && Running(s) && 0 <= to < LEVELS && 0 <= s.procs[s.cur].qPosi < LEVELS
    ensures var j := s.procs[s.cur].qPosi;
            var out := s.q[j := Without(s.q[j], First(s.procs, s.q[j]))];
            Requeue(s, to) == Sys(s.procs[s.cur := s.procs[s.cur].(qPosi := to, state := RUNNABLE)],
                                  out[to := out[to] + [s.cur]], NIL, s.ticks)
  {}

  lemma BoostKeeps(s: Sys)
    requires Inv(s)
    ensures Inv(Boosted(s))
  {
    PlacedPour(s.procs, s.q);
  }

  lemma CountedKeeps(s: Sys)
    requires Inv(s)
    ensures Inv(Counted(s)) && Counted(s).cur == s.cur && Counted(s).q == s.q
  {
    PlacedSame(s.procs, Counted(s).procs, s.q);
  }

  lemma MarkedKeeps(s: Sys, inTick: bool)
    requires Inv(s) && Running(s)
    ensures Inv(Marked(s, inTick)) && Running(Marked(s, inTick))
  {
    PlacedSame(s.procs, Marked(s, inTick).procs, s.q);
  }

  lemma JudgedKeeps(s: Sys)
    requires Inv(s) && Running(s)
    ensures Inv(Judged(s))
  {
    hide Inv, Boosted, Leave, Requeue, Marked, First, Without;
    OwnLevel(s);
    BoostKeeps(s);
    BoostRuns(s);
    LeaveKeeps(Boosted(s), RUNNABLE);
    MarkedKeeps(s, true);
    MarkedSame(s, true);
    var p := s.procs[s.cur];
    if p.qPosi != LEVELS - 1 { RequeueKeeps(Marked(s, true), p.qPosi + 1); }
    RequeueKeeps(s, p.qPosi);
  }

  lemma OwnLevel(s: Sys)
    requires Inv(s) && Running(s)
    ensures 0 <= s.procs[s.cur].qPosi < LEVELS
  {
    CurrentFound(s);
  }

  lemma BoostRuns(s: Sys)
    requires Running(s)
    ensures Running(Boosted(s))
  {}

  lemma MarkedSame(s: Sys, inTick: bool)
    requires Running(s)
    ensures Running(Marked(s, inTick)) && Marked(s, inTick).procs[s.cur].qPosi == s.procs[s.cur].qPosi
    ensures Marked(s, inTick).cur == s.cur
  {}

  lemma QuantumKeeps(s: Sys)
    requires Inv(s) && Running(s)
    ensures Inv(Quantum(s))
  {
    OwnLevel(s);
    RequeueKeeps(s, s.procs[s.cur].qPosi);
  }

  // ---------------------------------------------------------------- every event

  lemma ForkKeeps(s: Sys, np: int)
    requires Inv(s) && Enabled(s, Fork(np))
    ensures Inv(Apply(s, Fork(np)))
  {
    var child := s.procs[np].(state := RUNNABLE, consumed := 0, inTick := false, qPosi := 0);
    PlacedPush(s.procs, s.q, np, 0, child);
    assert Apply(s, Fork(np)).procs == s.procs[np := child];
    assert Apply(s, Fork(np)).q == s.q[0 := s.q[0] + [np]];
    assert |LiveSet(s.procs) + {np}| <= |LiveSet(s.procs)| + 1;
  }

  /** The invariant survives a fork if and only if it is not that of the 64th live process. */
  lemma ForkKeepsIff(s: Sys, np: int)
    requires Inv(s) && Running(s) && 0 <= np < |s.procs| && s.procs[np].state == EMBRYO
    ensures Inv(Forked(s, np)) <==> |LiveSet(s.procs)| + 1 < SIZE
  {
    if |LiveSet(s.procs)| + 1 < SIZE {
      ForkKeeps(s, np);
      assert Apply(s, Fork(np)) == Forked(s, np);
    } else {
      var live := LiveSet(s.procs);
      assert np !in live;
      assert LiveSet(Forked(s, np).procs) == live + {np};
    }
  }

  lemma ExitKeeps(s: Sys)
    requires Inv(s) && Enabled(s, Exit)
    ensures Inv(Apply(s, Exit))
  {
    CurrentFound(s);
    var j := s.procs[s.cur].qPosi;
    PlacedPull(s.procs, s.q, s.cur, First(s.procs, s.q[j]), s.procs[s.cur].(state := ZOMBIE));
    CardDrop(LiveSet(s.procs), s.cur);
  }

  lemma CardDrop(s: set<int>, x: int)
    ensures |s - {x}| <= |s|
  {
    if x !in s { assert s - {x} == s; }
  }

  /** The events that leave the queues alone and keep every process as live as it was. */
  lemma TableKeeps(s: Sys, e: Event)
    requires Inv(s) && Enabled(s, e) && (e.Alloc? || e.Free? || e.Reap? || e.Wakeup? || e.Dispatch?)
    ensures Inv(Apply(s, e))
  {
    PlacedSame(s.procs, Apply(s, e).procs, s.q);
  }

  lemma SleepKeeps(s: Sys, chan: int)
    requires Inv(s) && Running(s)
    ensures Inv(Apply(s, Sleep(chan)))
  {
    var t := s.(procs := s.procs[s.cur := s.procs[s.cur].(chan := chan)]);
    PlacedSame(s.procs, t.procs, s.q);
    LeaveKeeps(t, SLEEPING);
  }

  lemma StepKeeps(s: Sys, e: Event)
    requires Inv(s) && Enabled(s, e)
    ensures Inv(Apply(s, e))
  {
    hide Inv, Leave, Counted, Judged, Marked, Quantum;
    match e
    case Fork(np) => ForkKeeps(s, np);
    case Exit => ExitKeeps(s);
    case Sleep(chan) => SleepKeeps(s, chan);
    case Yield => LeaveKeeps(s, RUNNABLE);
    case Tick =>
      CountedKeeps(s);
      if Running(Counted(s)) { JudgedKeeps(Counted(s)); }
    case FinishTick =>
      MarkedKeeps(s, false);
      QuantumKeeps(Marked(s, false));
    case Alloc(_, _) => TableKeeps(s, e);
    case Free(_) => TableKeeps(s, e);
    case Reap(_) => TableKeeps(s, e);
    case Wakeup(_) => TableKeeps(s, e);
    case Dispatch(_) => TableKeeps(s, e);
  }

  // ---------------------------------------------------------------- all runs

  /** The scheduler's first act: the whole table, in its order, onto level 0. */
  function Filled(procs: Table, n: nat): seq<int>
    requires n <= |procs|
  {
    if n == 0 then [] else Filled(procs, n - 1) + if procs[n - 1].state != UNUSED then [n - 1] else []
  }

  /** Each entry that is in use, once, in the order of the table. */
  lemma {:induction false} FilledInOrder(procs: Table, n: nat)
    requires n <= |procs|
    ensures var q := Filled(procs, n);
            (forall i, j :: 0 <= i < j < |q| ==> q[i] < q[j]) && (forall p :: p in q <==> 0 <= p < n && procs[p].state != UNUSED)
  {
    if n > 0 {
      FilledInOrder(procs, n - 1);
      var r := Filled(procs, n - 1);
      forall i | 0 <= i < |r| ensures r[i] < n - 1 { assert r[i] in r; }
    }
  }

  /** At boot the processes that exist wait to run for the first time. */
  predicate Booted(procs: Table) {
    && |procs| == SIZE && |LiveSet(procs)| < SIZE
    && forall p :: 0 <= p < |procs| ==> procs[p].state == UNUSED || (procs[p].state == RUNNABLE && procs[p].qPosi == 0)
  }

  function Start(procs: Table): Sys
    requires Booted(procs)
  {
    Sys(procs, [Filled(procs, SIZE), [], []], NIL, 0)
  }

  function LiveBelow(procs: Table, n: int): set<int> { set p | 0 <= p < n && Live(State(procs, p)) }

  lemma LiveBelowNext(procs: Table, n: int)
    requires 0 < n <= |procs|
    ensures LiveBelow(procs, n) == LiveBelow(procs, n - 1) + if Live(procs[n - 1].state) then {n - 1} else {}
    ensures n - 1 !in LiveBelow(procs, n - 1)
  {}

  lemma GrowContents(s: set<int>, x: int)
    requires x !in s
    ensures multiset(s + {x}) == multiset(s) + multiset{x}
  {}

  lemma {:induction false} FilledHolds(procs: Table, n: nat)
    requires Booted(procs) && n <= |procs|
    ensures multiset(Filled(procs, n)) == multiset(LiveBelow(procs, n))
  {
    if n > 0 {
      FilledHolds(procs, n - 1);
      LiveBelowNext(procs, n);
      var before := LiveBelow(procs, n - 1);
      hide LiveBelow;
      if procs[n - 1].state == RUNNABLE {
        GrowContents(before, n - 1);
      } else {
        assert before + {} == before;
      }
    } else {
      assert LiveBelow(procs, n) == {};
    }
  }

  lemma AllOnTop(procs: Table, q: seq<int>)
    requires multiset(q) == multiset(LiveSet(procs))
    requires forall p :: 0 <= p < |procs| && Live(procs[p].state) ==> procs[p].qPosi == 0
    ensures Placed(procs, [q, [], []])
  {
    var live := LiveSet(procs);
    forall p | 0 <= p < |procs| && Live(procs[p].state) ensures InQueue(procs, [q, [], []], p) {
      assert p in live;
      assert p in multiset(live) && p in multiset(q);
    }
  }

  lemma StartGood(procs: Table)
    requires Booted(procs)
    ensures Inv(Start(procs))
  {
    hide Filled, Placed;
    FilledHolds(procs, SIZE);
    assert LiveSet(procs) == LiveBelow(procs, SIZE);
    AllOnTop(procs, Filled(procs, SIZE));
  }

  predicate Run(s: Sys, run: seq<Event>, t: Sys)
    decreases |run|
  {
    if run == [] then s == t else Enabled(s, run[0]) && Run(Apply(s, run[0]), run[1..], t)
  }

  /** In every reachable state each live process is in exactly one slot, on its own level; the CPU's
      process is RUNNING and can be found in its queue. */
  lemma {:induction false} Invariant(s: Sys, run: seq<Event>, t: Sys)
    requires Inv(s) && Run(s, run, t)
    ensures Inv(t)
    decreases |run|
  {
    if run != [] {
      StepKeeps(s, run[0]);
      Invariant(Apply(s, run[0]), run[1..], t);
    }
  }

  lemma FromBoot(procs: Table, run: seq<Event>, t: Sys)
    requires Booted(procs) && Run(Start(procs), run, t)
    ensures Inv(t)
  {
    StartGood(procs);
    Invariant(Start(procs), run, t);
  }

  // ---------------------------------------------------------------- levels

  predicate LevelStep(s: Sys, t: Sys, p: int)
    requires 0 <= p < |s.procs| && 0 <= p < |t.procs|
  {
    t.procs[p].qPosi == s.procs[p].qPosi || t.procs[p].qPosi == 0 || t.procs[p].qPosi == s.procs[p].qPosi + 1
  }

  lemma JudgedLevel(s: Sys, p: int)
    requires Inv(s) && Running(s) && 0 <= p < SIZE && Live(s.procs[p].state)
    ensures |Judged(s).procs| == SIZE && LevelStep(s, Judged(s), p)
    ensures Judged(s).procs[p].consumed == s.procs[p].consumed
    ensures Judged(s).procs[p].qPosi == s.procs[p].qPosi + 1 ==>
              p == s.cur && s.procs[p].consumed % Allot(s.procs[p].qPosi) == 0
  {
    hide First, Without;
    assert InQueue(s.procs, s.q, p);
  }

  /** One event moves a live process one level down, or to the top, or not at all; and it moves down
      only when the timer finds the allotment of the current process used up. */
  lemma LevelChange(s: Sys, e: Event, p: int)
    requires Inv(s) && Enabled(s, e) && 0 <= p < SIZE && Live(s.procs[p].state)
    ensures |Apply(s, e).procs| == SIZE && LevelStep(s, Apply(s, e), p)
    ensures Apply(s, e).procs[p].qPosi == s.procs[p].qPosi + 1 ==>
              e.Tick? && p == s.cur && Apply(s, e).procs[p].consumed % Allot(s.procs[p].qPosi) == 0
  {
    hide First, Without, Judged;
    assert InQueue(s.procs, s.q, p);
    if e.Tick? && Running(Counted(s)) {
      CountedKeeps(s);
      JudgedLevel(Counted(s), p);
    }
  }

  // ---------------------------------------------------------------- order

  /** A tick that neither boosts nor demotes only rotates the queue of the current process, which ends up
      last; every other queue stays as it is. */
  lemma QuantumRotates(s: Sys)
    requires Inv(s) && Running(s)
    ensures var j := s.procs[s.cur].qPosi; var i := First(s.procs, s.q[j]);
            i < |s.q[j]| && s.q[j][i] == s.cur
            && Quantum(s).q == s.q[j := s.q[j][i + 1..] + s.q[j][..i + 1]]
  {
    CurrentFound(s);
    var j := s.procs[s.cur].qPosi;
    var q := s.q[j];
    var i := First(s.procs, q);
    assert q[i + 1..] + q[..i] + [q[i]] == q[i + 1..] + q[..i + 1];
  }
}

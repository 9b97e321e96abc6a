/** What one timer interrupt does, in numbers: trap.c and mlfq.h of OS/HW2/HW2-temp-Mlfq. */
module MlfqTicks {
  import opened MlfqRings
  import opened MlfqMachine
  import opened MlfqSafety

  /** p is gone from a, and what stood in front of it has moved, in order, behind the rest. */
  ghost predicate TakenFrom(a: seq<int>, b: seq<int>, p: int) {
    exists i :: 0 <= i < |a| && a[i] == p && b == a[i + 1..] + a[..i]
  }

  /** The same, with p at the end. */
  ghost predicate RotatedTo(a: seq<int>, b: seq<int>, p: int) {
    exists i :: 0 <= i < |a| && a[i] == p && b == a[i + 1..] + a[..i] + [p]
  }

  /** A process that is not on the CPU at a tick: it wakes up if it waits for the clock. */
  ghost predicate Bystander(x: Proc, y: Proc) {
    && y.state == (if x.state == SLEEPING && x.chan == 1 then RUNNABLE else x.state)
    && y.pid == x.pid && y.chan == x.chan && y.consumed == x.consumed && y.inTick == x.inTick
  }

  /** The clock and the used time. */
  ghost predicate Clocked(s: Sys, t: Sys) {
    && t.ticks == (s.ticks + 1) % 0x1_0000_0000 && |t.procs| == |s.procs|
    && (forall p :: 0 <= p < |s.procs| && p != s.cur ==> Bystander(s.procs[p], t.procs[p]))
    && (0 <= s.cur < |s.procs| ==>
          t.procs[s.cur].consumed == (s.procs[s.cur].consumed + 1) % 0x1_0000_0000 && t.procs[s.cur].pid == s.procs[s.cur].pid)
  }

  /** Nobody but the current process, and at a boost everybody, changes level. */
  ghost predicate SameLevels(s: Sys, t: Sys) {
    |t.procs| == |s.procs| && forall p :: 0 <= p < |s.procs| && p != s.cur ==> t.procs[p].qPosi == s.procs[p].qPosi
  }

  ghost predicate OffCpu(t: Sys, p: int) { t.cur == -1 && 0 <= p < |t.procs| && t.procs[p].state == RUNNABLE }

  /** The tick counted in t is a boost. */
  ghost predicate BoostDue(t: Sys) { t.ticks % 100 == 0 }

  /** The current process has used up the time it has on its level, which is not the last. */
  ghost predicate DemotionDue(s: Sys, t: Sys)
    requires 0 <= s.cur < |s.procs| && s.cur < |t.procs|
  {
    && t.procs[s.cur].pid > 2
    && ((s.procs[s.cur].qPosi == 0 && t.procs[s.cur].consumed % 5 == 0)
        || (s.procs[s.cur].qPosi == 1 && t.procs[s.cur].consumed % 10 == 0))
  }

  ghost predicate AllOnZero(s: Sys, t: Sys) {
    && |s.q| == 3 && t.q == [s.q[0] + s.q[1] + s.q[2], [], []] && OffCpu(t, s.cur)
    && forall p :: 0 <= p < |t.procs| && t.procs[p].state in {SLEEPING, RUNNABLE, RUNNING} ==> t.procs[p].qPosi == 0
  }

  /** From the end of which level the current process will run again. */
  ghost predicate MovedTo(s: Sys, t: Sys, to: int)
    requires 0 <= s.cur < |s.procs|
  {
    var j := s.procs[s.cur].qPosi;
    && |s.q| == |t.q| == 3 && 0 <= j < 3 && 0 <= to < 3 && OffCpu(t, s.cur) && SameLevels(s, t)
    && t.procs[s.cur].qPosi == to
    && (if to == j then RotatedTo(s.q[j], t.q[j], s.cur)
        else TakenFrom(s.q[j], t.q[j], s.cur) && t.q[to] == s.q[to] + [s.cur])
    && forall l :: 0 <= l < 3 && l != j && l != to ==> t.q[l] == s.q[l]
  }

  ghost predicate Outcome(s: Sys, t: Sys) {
    if s.cur == -1 then t.q == s.q && t.cur == -1 && SameLevels(s, t)
    else
      && 0 <= s.cur < |s.procs| && s.cur < |t.procs|
      && if BoostDue(t) then AllOnZero(s, t)
         else if DemotionDue(s, t) then MovedTo(s, t, s.procs[s.cur].qPosi + 1)
         else if t.procs[s.cur].pid > 2 then MovedTo(s, t, s.procs[s.cur].qPosi)
         else t.q == s.q && t.cur == s.cur && SameLevels(s, t) && t.procs[s.cur].qPosi == s.procs[s.cur].qPosi
  }

  // ---------------------------------------------------------------- the parts of a tick

  lemma CountedExact(s: Sys)
    requires Inv(s)
    ensures var m := Counted(s);
            Clocked(s, m) && SameLevels(s, m) && m.q == s.q && m.cur == s.cur
            && (Running(s) ==> m.procs[s.cur] == s.procs[s.cur].(consumed := (s.procs[s.cur].consumed + 1) % 0x1_0000_0000))
  {
    hide Placed;
    if Running(s) { assert s.procs[s.cur].state == RUNNING; }
  }

  /** Moving the current process changes states, marks and levels, but of nobody else. */
  ghost predicate OnlyCurrent(m: Sys, t: Sys) {
    && |t.procs| == |m.procs| && t.ticks == m.ticks
    && (forall p :: 0 <= p < |m.procs| && p != m.cur ==> t.procs[p] == m.procs[p])
    && (0 <= m.cur < |m.procs| ==> t.procs[m.cur].consumed == m.procs[m.cur].consumed && t.procs[m.cur].pid == m.procs[m.cur].pid)
  }

  lemma RequeueExact(s: Sys, to: int)
    requires Inv(s) && s.cur != -1 && 0 <= to < 3
    ensures Running(s) && MovedTo(s, Requeue(s, to), to) && OnlyCurrent(s, Requeue(s, to))
  {
    CurrentFound(s);
    hide First, Inv;
    var j := s.procs[s.cur].qPosi;
    var i := First(s.procs, s.q[j]);
    var t := Requeue(s, to);
    assert s.q[j][i] == s.cur && Without(s.q[j], i) == s.q[j][i + 1..] + s.q[j][..i];
    InvLevels(s);
    if to == j { assert RotatedTo(s.q[j], t.q[j], s.cur); } else { assert TakenFrom(s.q[j], t.q[j], s.cur); }
  }

  lemma InvLevels(s: Sys)
    requires Inv(s)
    ensures |s.q| == 3 && |s.procs| == SIZE && 0 <= s.ticks < 0x1_0000_0000
  {}

  /** boostMlfq alone. */
  lemma BoostedExact(s: Sys)
    requires Inv(s)
    ensures var t := Boosted(s);
            |s.q| == 3 && t.q == [s.q[0] + s.q[1] + s.q[2], [], []] && t.cur == s.cur && t.ticks == s.ticks
            && |t.procs| == |s.procs| && forall p :: 0 <= p < |s.procs| ==>
                 t.procs[p] == s.procs[p].(qPosi := t.procs[p].qPosi)
                 && (t.procs[p].state in {SLEEPING, RUNNABLE, RUNNING} ==> t.procs[p].qPosi == 0)
  {
    var t := Boosted(s);
    forall p | 0 <= p < |t.procs| && t.procs[p].state in {SLEEPING, RUNNABLE, RUNNING} ensures t.procs[p].qPosi == 0 {
      assert Live(s.procs[p].state);
      assert InQueue(s.procs, s.q, p);
    }
  }

  /** What dequeue takes out is the first RUNNING process, if there is one. */
  lemma TakeExact(s: Sys, j: int)
    requires 0 <= j < |s.q| && First(s.procs, s.q[j]) < |s.q[j]|
    ensures var i := First(s.procs, s.q[j]); TakenAt(s.procs, s.q[j], Take(s, j).q[j], i)
    ensures Take(s, j) == s.(q := s.q[j := Take(s, j).q[j]])
  {}

  ghost predicate SomeCanRun(procs: Table, a: seq<int>) {
    exists k :: 0 <= k < |a| && 0 <= a[k] < |procs| && procs[a[k]].state in {RUNNABLE, RUNNING}
  }

  ghost predicate TakenAt(procs: Table, a: seq<int>, b: seq<int>, i: int) {
    && 0 <= i < |a| && 0 <= a[i] < |procs| && procs[a[i]].state == RUNNING && b == a[i + 1..] + a[..i]
    && forall k :: 0 <= k < i && 0 <= a[k] < |procs| ==> procs[a[k]].state != RUNNING
  }

  lemma BoostExact(s: Sys)
    requires Inv(s) && s.cur != -1
    ensures var t := Leave(Boosted(s), RUNNABLE); Running(s) && AllOnZero(s, t)
    ensures var t := Leave(Boosted(s), RUNNABLE);
            t.ticks == s.ticks && |t.procs| == |s.procs|
            && (forall p :: 0 <= p < |s.procs| && p != s.cur ==> t.procs[p] == s.procs[p].(qPosi := t.procs[p].qPosi))
            && t.procs[s.cur].consumed == s.procs[s.cur].consumed && t.procs[s.cur].pid == s.procs[s.cur].pid
  {
    CurrentFound(s);
    BoostedExact(s);
    hide Boosted, Inv, First;
  }

  /** The state behind the count, judged. */
  lemma JudgedExact(s: Sys)
    requires Inv(s) && s.cur != -1
    ensures Running(s)
    ensures var t := Judged(s);
            |t.procs| == |s.procs| && t.ticks == s.ticks
            && if BoostDue(s) then AllOnZero(s, t)
               else if DemotionDue(s, s) then MovedTo(s, t, s.procs[s.cur].qPosi + 1)
               else if s.procs[s.cur].pid > 2 then MovedTo(s, t, s.procs[s.cur].qPosi)
               else t == s
    ensures !BoostDue(s) ==> OnlyCurrent(s, Judged(s))
  {
    CurrentFound(s);
    hide First, Requeue, MovedTo, Inv, Boosted, AllOnZero;
    var j := s.procs[s.cur].qPosi;
    if BoostDue(s) {
      BoostExact(s);
    } else if s.procs[s.cur].pid > 2 {
      if DemotionDue(s, s) {
        var m := Marked(s, true);
        MarkedKeeps(s, true);
        RequeueExact(m, j + 1);
        MovedSame(s, m, Requeue(m, j + 1), j + 1);
      } else {
        RequeueExact(s, j);
      }
    }
  }

  /** The mark that the handler is not over makes no difference to the queues. */
  lemma MovedSame(s: Sys, m: Sys, t: Sys, to: int)
    requires 0 <= s.cur < |s.procs| && m == Marked(s, true) && MovedTo(m, t, to) && OnlyCurrent(m, t)
    ensures MovedTo(s, t, to) && OnlyCurrent(s, t)
  {}

  /** And what was counted before is not undone. */
  lemma AfterCount(s: Sys, m: Sys, t: Sys)
    requires Clocked(s, m) && SameLevels(s, m) && m.cur == s.cur && m.q == s.q && OnlyCurrent(m, t)
    requires 0 <= s.cur < |s.procs| ==> m.procs[s.cur].qPosi == s.procs[s.cur].qPosi
    ensures Clocked(s, t)
    ensures forall to :: 0 <= s.cur < |s.procs| && MovedTo(m, t, to) ==> MovedTo(s, t, to)
    ensures SameLevels(m, t) ==> SameLevels(s, t)
  {}

  lemma AfterBoost(s: Sys, m: Sys, t: Sys)
    requires Clocked(s, m) && m.cur == s.cur && 0 <= s.cur < |s.procs| && m.q == s.q && AllOnZero(m, t)
    requires t.ticks == m.ticks && |t.procs| == |m.procs|
    requires forall p :: 0 <= p < |m.procs| && p != m.cur ==> t.procs[p] == m.procs[p].(qPosi := t.procs[p].qPosi)
    requires t.procs[m.cur].consumed == m.procs[m.cur].consumed && t.procs[m.cur].pid == m.procs[m.cur].pid
    ensures Clocked(s, t) && AllOnZero(s, t)
  {}

  // ---------------------------------------------------------------- giving up the CPU and getting it

  /** sleep, yield and the choice of the scheduler change no queue, and one process. */
  lemma SwitchesExact(s: Sys, chan: int, p: int)
    requires Inv(s)
    ensures Running(s) ==>
              Apply(s, Sleep(chan)) == s.(cur := -1, procs := s.procs[s.cur := s.procs[s.cur].(state := SLEEPING, chan := chan)])
              && Apply(s, Yield) == s.(cur := -1, procs := s.procs[s.cur := s.procs[s.cur].(state := RUNNABLE)])
    ensures s.cur == -1 && 0 <= p < |s.procs| && s.procs[p].state == RUNNABLE ==>
              Enabled(s, Dispatch(p)) && Apply(s, Dispatch(p)) == s.(cur := p, procs := s.procs[p := s.procs[p].(state := RUNNING)])
    ensures s.cur != -1 ==> Running(s) && !Enabled(s, Dispatch(p))
  {
    hide Placed, LiveSet;
  }

  // ---------------------------------------------------------------- a whole tick

  lemma TickExact(s: Sys)
    requires Inv(s)
    ensures Clocked(s, Apply(s, Tick)) && Outcome(s, Apply(s, Tick))
  {
    hide Inv, MovedTo, AllOnZero, Clocked, OnlyCurrent, SameLevels, Judged, Boosted, Counted;
    var m := Counted(s);
    CountedExact(s);
    CountedKeeps(s);
    if s.cur == -1 {
      NotRunning(m);
    } else {
      CurrentFound(s);
      JudgedExact(m);
      var t := Judged(m);
      if BoostDue(m) {
        BoostIs(m);
        BoostExact(m);
        AfterBoost(s, m, t);
      } else {
        AfterCount(s, m, t);
        CountedSame(s, m);
        SameItself(m);
      }
    }
  }

  lemma NotRunning(m: Sys)
    requires m.cur == -1
    ensures !Running(m)
  {}

  lemma BoostIs(s: Sys)
    requires Running(s) && BoostDue(s)
    ensures Judged(s) == Leave(Boosted(s), RUNNABLE)
  {}

  lemma SameItself(s: Sys)
    ensures SameLevels(s, s) && OnlyCurrent(s, s)
  {}

  lemma CountedSame(s: Sys, m: Sys)
    requires Clocked(s, m) && 0 <= s.cur < |s.procs|
    ensures s.cur < |m.procs|
  {}

  /** The rest of the handler, for a process that was demoted: it is rotated once more. */
  lemma FinishExact(s: Sys)
    requires Inv(s) && Enabled(s, FinishTick)
    ensures Running(s) && MovedTo(s, Apply(s, FinishTick), s.procs[s.cur].qPosi) && OnlyCurrent(s, Apply(s, FinishTick))
    ensures !Apply(s, FinishTick).procs[s.cur].inTick
  {
    hide Inv, MovedTo, First;
    var m := Marked(s, false);
    MarkedKeeps(s, false);
    CurrentFound(m);
    RequeueExact(m, m.procs[m.cur].qPosi);
    UnmarkedSame(s, m, Quantum(m), m.procs[m.cur].qPosi);
  }

  lemma UnmarkedSame(s: Sys, m: Sys, t: Sys, to: int)
    requires 0 <= s.cur < |s.procs| && m == Marked(s, false) && MovedTo(m, t, to) && OnlyCurrent(m, t)
    ensures MovedTo(s, t, to) && OnlyCurrent(s, t)
  {}

  /** The current process leaves its queue, and is a zombie. */
  lemma ExitExact(s: Sys)
    requires Inv(s) && Running(s)
    ensures var t := Apply(s, Exit); var j := s.procs[s.cur].qPosi;
            0 <= j < |s.q| && TakenFrom(s.q[j], t.q[j], s.cur) && t.q == s.q[j := t.q[j]]
            && t.cur == -1 && t.procs == s.procs[s.cur := s.procs[s.cur].(state := ZOMBIE)] && t.ticks == s.ticks
  {
    CurrentFound(s);
    hide First, Inv;
    var j := s.procs[s.cur].qPosi;
    var i := First(s.procs, s.q[j]);
    assert s.q[j][i] == s.cur && Without(s.q[j], i) == s.q[j][i + 1..] + s.q[j][..i];
    assert TakenFrom(s.q[j], Apply(s, Exit).q[j], s.cur);
  }

  /** The current process goes one level down if and only if the tick is no boost, it is neither init nor the
      first shell, and its time is a multiple of 5 on level 0, or of 10 on level 1. */
  lemma DemotedIff(s: Sys)
    requires Inv(s) && s.cur != -1
    ensures var t := Apply(s, Tick); var p := s.cur;
            0 <= p < |s.procs| == |t.procs|
            && (t.procs[p].qPosi == s.procs[p].qPosi + 1 <==>
                  (s.ticks + 1) % 0x1_0000_0000 % 100 != 0 && s.procs[p].pid > 2
                  && var c := (s.procs[p].consumed + 1) % 0x1_0000_0000;
                     (s.procs[p].qPosi == 0 && c % 5 == 0) || (s.procs[p].qPosi == 1 && c % 10 == 0))
  {
    hide Inv, RotatedTo, TakenFrom, Bystander, SameLevels, Apply;
    TickExact(s);
    CurrentLive(s);
  }

  lemma CurrentLive(s: Sys)
    requires Inv(s) && s.cur != -1
    ensures 0 <= s.cur < |s.procs| && 0 <= s.procs[s.cur].qPosi < 3
  {
    CurrentFound(s);
  }
}

/** OS/xv6-public/sleeplock.c on top of sleep and wakeup of proc.c, as interleaved steps of any
    number of processes on any number of CPUs. A step is what happens between two points at
    which another CPU can observe or interfere; the two spinlocks involved are lk->lk and ptable.lock. */
module SleepLock {

  /** Where a process is. The comments name the locks it holds. */
  datatype PC =
    | Outside
    | AcqSpin            // acquiresleep: acquire(&lk->lk)
    | AcqTest            // lk            while (lk->locked)
    | SleepSpin          // lk            sleep: acquire(&ptable.lock)
    | SleepRelease       // lk, ptable    release(lk)
    | SleepMark          // ptable        proc->state = SLEEPING
    | SleepSwitch        // ptable        sched(): the scheduler releases ptable.lock
    | Switched           // not running, until the scheduler picks it
    | WakeRelease        // ptable        release(&ptable.lock)
    | WakeSpin           // acquire(lk)
    | AcqSet             // lk            lk->locked = 1
    | AcqRelease         // lk            release(&lk->lk)
    | Critical
    | RelSpin            // releasesleep: acquire(&lk->lk)
    | RelClear           // lk            lk->locked = 0
    | WakeupSpin         // lk            wakeup: acquire(&ptable.lock)
    | WakeupScan(i: nat) // lk, ptable    the loop of wakeup1 is at process i
    | WakeupDone         // lk, ptable    release(&ptable.lock)
    | RelRelease         // lk            release(&lk->lk)

  datatype State = State(
    locked: bool,        // lk->locked
    pid: int,            // lk->pid; -1 for none
    lk: int,             // holder of the inner spinlock, -1 for none
    ptable: int,         // holder of ptable.lock, -1 for none
    pc: seq<PC>,
    sleeping: seq<bool>) // state == SLEEPING && chan == lk

  /** Step(p): process p runs on. Kill(p): kill() makes a sleeping process runnable. */
  datatype Action = Step(p: nat) | Kill(p: nat)

  predicate HoldsLk(pc: PC) {
    pc.AcqTest? || pc.SleepSpin? || pc.SleepRelease? || pc.AcqSet? || pc.AcqRelease? || pc.RelClear?
    || pc.WakeupSpin? || pc.WakeupScan? || pc.WakeupDone? || pc.RelRelease?
  }

  predicate HoldsPtable(pc: PC) {
    pc.SleepRelease? || pc.SleepMark? || pc.SleepSwitch? || pc.WakeRelease? || pc.WakeupScan? || pc.WakeupDone?
  }

  /** Between the assignment in acquiresleep and the one in releasesleep. */
  predicate Owns(pc: PC) { pc.AcqRelease? || pc.Critical? || pc.RelSpin? || pc.RelClear? }

  predicate Enabled(s: State, a: Action) {
    a.p < |s.pc| == |s.sleeping|
    && match a
       case Kill(p) => s.ptable == -1
       case Step(p) =>
         match s.pc[p]
         case AcqSpin | WakeSpin | RelSpin => s.lk == -1
         case SleepSpin | WakeupSpin => s.ptable == -1
         case Switched => !s.sleeping[p] && s.ptable == -1
         case _ => true
  }

  function Goto(s: State, p: nat, pc: PC): State
    requires p < |s.pc|
  {
    s.(pc := s.pc[p := pc])
  }

  function DoStep(s: State, p: nat): State
    requires p < |s.pc| == |s.sleeping|
  {
    match s.pc[p]
    case Outside => Goto(s, p, AcqSpin)
    case AcqSpin => Goto(s, p, AcqTest).(lk := p)
    case AcqTest => Goto(s, p, if s.locked then SleepSpin else AcqSet)
    case SleepSpin => Goto(s, p, SleepRelease).(ptable := p)
    case SleepRelease => Goto(s, p, SleepMark).(lk := -1)
    case SleepMark => Goto(s, p, SleepSwitch).(sleeping := s.sleeping[p := true])
    case SleepSwitch => Goto(s, p, Switched).(ptable := -1)
    case Switched => Goto(s, p, WakeRelease).(ptable := p)
    case WakeRelease => Goto(s, p, WakeSpin).(ptable := -1)
    case WakeSpin => Goto(s, p, AcqTest).(lk := p)
    case AcqSet => Goto(s, p, AcqRelease).(locked := true, pid := p)
    case AcqRelease => Goto(s, p, Critical).(lk := -1)
    case Critical => Goto(s, p, RelSpin)
    case RelSpin => Goto(s, p, RelClear).(lk := p)
    case RelClear => Goto(s, p, WakeupSpin).(locked := false, pid := -1)
    case WakeupSpin => Goto(s, p, WakeupScan(0)).(ptable := p)
    case WakeupScan(i) =>
      if i < |s.pc| then Goto(s, p, WakeupScan(i + 1)).(sleeping := s.sleeping[i := false]) else Goto(s, p, WakeupDone)
    case WakeupDone => Goto(s, p, RelRelease).(ptable := -1)
    case RelRelease => Goto(s, p, Outside).(lk := -1)
  }

  function Apply(s: State, a: Action): State {
    if !Enabled(s, a) then s
    else match a
      case Kill(p) => s.(sleeping := s.sleeping[p := false])
      case Step(p) => DoStep(s, p)
  }

  function Init(n: nat): State {
    State(false, -1, -1, -1, seq(n, _ => Outside), seq(n, _ => false))
  }

  /** The state after an interleaving of n processes. */
  function Exec(n: nat, run: seq<Action>): State {
    if run == [] then Init(n) else Apply(Exec(n, run[..|run| - 1]), run[|run| - 1])
  }

  // ---------------------------------------------------------------- invariant

  /** A releaser at pc has yet to wake process p. */
  predicate WillWake(pc: PC, p: nat) {
    pc.WakeupSpin? || (pc.WakeupScan? && pc.i <= p)
  }

  /** The spinlocks are held by whoever is at a place where the code holds them. */
  ghost predicate LocksInv(s: State) {
    && |s.pc| == |s.sleeping| && -1 <= s.lk < |s.pc| && -1 <= s.ptable < |s.pc|
    && (forall q :: 0 <= q < |s.pc| ==> (HoldsLk(s.pc[q]) <==> s.lk == q))
    && (forall q :: 0 <= q < |s.pc| ==> (HoldsPtable(s.pc[q]) <==> s.ptable == q))
  }

  /** The sleep-lock is locked exactly while its owner is between the two assignments. */
  ghost predicate OwnerInv(s: State) {
    && (s.locked ==> 0 <= s.pid < |s.pc| && Owns(s.pc[s.pid]))
    && (forall p :: 0 <= p < |s.pc| && Owns(s.pc[p]) ==> s.locked && s.pid == p)
    && (forall p :: 0 <= p < |s.pc| && s.pc[p].AcqSet? ==> !s.locked)
    && (forall p :: 0 <= p < |s.pc| && (s.pc[p].SleepSpin? || s.pc[p].SleepRelease?) ==> s.locked)
  }

  /** A process that is asleep, or has given up lk->lk in order to fall asleep, will be woken. */
  ghost predicate SleepInv(s: State)
    requires LocksInv(s)
  {
    && (forall p :: 0 <= p < |s.pc| && s.sleeping[p] ==> s.pc[p].SleepSwitch? || s.pc[p].Switched?)
    && (forall p :: 0 <= p < |s.pc| && (s.sleeping[p] || s.pc[p].SleepMark?) && !s.locked ==>
          s.lk != -1 && WillWake(s.pc[s.lk], p))
  }

  ghost predicate Inv(s: State) { LocksInv(s) && OwnerInv(s) && SleepInv(s) }

  /** A lock changes hands only from p to nobody, or from nobody to p. */
  predicate Handed(was: int, now: int, p: int) { now == was || (was == -1 && now == p) || (was == p && now == -1) }

  /** What a step of p does to the locks, seen from p alone. */
  lemma StepLocal(s: State, p: nat)
    requires Enabled(s, Step(p))
    requires (HoldsLk(s.pc[p]) <==> s.lk == p) && (HoldsPtable(s.pc[p]) <==> s.ptable == p)
    ensures var t := DoStep(s, p);
            |t.pc| == |s.pc| && t.pc == s.pc[p := t.pc[p]] && |t.sleeping| == |s.sleeping|
            && Handed(s.lk, t.lk, p) && (HoldsLk(t.pc[p]) <==> t.lk == p)
            && Handed(s.ptable, t.ptable, p) && (HoldsPtable(t.pc[p]) <==> t.ptable == p)
  {}

  lemma StepLocks(s: State, p: nat)
    requires LocksInv(s) && Enabled(s, Step(p))
    ensures LocksInv(DoStep(s, p)) && |DoStep(s, p).pc| == |s.pc| && DoStep(s, p).pc == s.pc[p := DoStep(s, p).pc[p]]
  {
    StepLocal(s, p);
    hide DoStep, HoldsLk, HoldsPtable;
  }

  /** What a step of p does to the sleep-lock, seen from p alone. */
  lemma OwnerLocal(s: State, p: nat)
    requires LocksInv(s) && OwnerInv(s) && Enabled(s, Step(p))
    ensures var t := DoStep(s, p);
            |t.pc| == |s.pc|
            && ((t.locked == s.locked && t.pid == s.pid && Owns(t.pc[p]) == Owns(s.pc[p]))
                || (!s.locked && t.locked && t.pid == p && Owns(t.pc[p]) && s.lk == p)
                || (s.locked && !t.locked && Owns(s.pc[p]) && !Owns(t.pc[p]) && s.lk == p && t.lk == p))
            && (t.pc[p].AcqSet? ==> !t.locked)
            && (t.pc[p].SleepSpin? || t.pc[p].SleepRelease? ==> t.locked)
  {}

  lemma StepOwner(s: State, p: nat)
    requires LocksInv(s) && OwnerInv(s) && Enabled(s, Step(p))
    ensures OwnerInv(DoStep(s, p))
  {
    StepLocks(s, p);
    OwnerLocal(s, p);
    hide DoStep;
  }

  /** What a step of p does to the sleepers. */
  lemma SleepLocal(s: State, p: nat)
    requires LocksInv(s) && OwnerInv(s) && Enabled(s, Step(p)) && (s.sleeping[p] ==> s.pc[p].SleepSwitch? || s.pc[p].Switched?)
    ensures var t := DoStep(s, p);
            |t.sleeping| == |t.pc| == |s.pc|
            && (t.sleeping[p] ==> t.pc[p].SleepSwitch? || t.pc[p].Switched?)
            && (t.sleeping[p] || t.pc[p].SleepMark? ==> s.sleeping[p] || s.pc[p].SleepMark? || t.locked)
            && (forall q :: 0 <= q < |t.pc| && q != p && t.sleeping[q] ==> s.sleeping[q])
  {}

  /** A releaser that steps on still wakes everybody who is left asleep. */
  lemma ScanLocal(s: State, p: nat, q: nat)
    requires LocksInv(s) && Enabled(s, Step(p)) && q < |s.pc| && s.lk == p && WillWake(s.pc[p], q)
    ensures var t := DoStep(s, p);
            |t.sleeping| == |t.pc| == |s.pc| && t.lk == p
            && (WillWake(t.pc[p], q) || (!t.sleeping[q] && !t.pc[q].SleepMark?))
  {
    if s.pc[p].WakeupScan? && s.pc[p].i == q && q != p {
      assert HoldsPtable(s.pc[p]) && s.ptable == p && !HoldsPtable(s.pc[q]);
    }
  }

  /** Releasing turns the owner into a releaser that will wake everybody. */
  lemma ClearLocal(s: State, p: nat)
    requires LocksInv(s) && OwnerInv(s) && Enabled(s, Step(p)) && s.locked && !DoStep(s, p).locked
    ensures DoStep(s, p).lk == p && |DoStep(s, p).pc| == |s.pc| && DoStep(s, p).pc[p].WakeupSpin?
  {}

  lemma StepSleep(s: State, p: nat)
    requires Inv(s) && Enabled(s, Step(p)) && LocksInv(DoStep(s, p))
    ensures SleepInv(DoStep(s, p))
  {
    StepLocks(s, p);
    StepLocal(s, p);
    SleepLocal(s, p);
    var t := DoStep(s, p);
    forall q | 0 <= q < |t.pc| && (t.sleeping[q] || t.pc[q].SleepMark?) && !t.locked
      ensures t.lk != -1 && WillWake(t.pc[t.lk], q)
    {
      if s.locked {
        ClearLocal(s, p);
      } else if s.lk == p {
        ScanLocal(s, p, q);
      }
    }
    hide DoStep, HoldsLk, HoldsPtable;
  }

  lemma StepKeeps(s: State, p: nat)
    requires Inv(s) && Enabled(s, Step(p))
    ensures Inv(DoStep(s, p)) && |DoStep(s, p).pc| == |s.pc|
  {
    StepLocks(s, p);
    StepOwner(s, p);
    StepSleep(s, p);
    hide LocksInv, OwnerInv, SleepInv;
  }

  lemma KillKeeps(s: State, p: nat)
    requires Inv(s) && p < |s.pc|
    ensures Inv(s.(sleeping := s.sleeping[p := false]))
  {}

  lemma {:induction false} Invariant(n: nat, run: seq<Action>)
    ensures Inv(Exec(n, run)) && |Exec(n, run).pc| == n
  {
    if run != [] {
      hide Inv, DoStep;
      var s := Exec(n, run[..|run| - 1]);
      Invariant(n, run[..|run| - 1]);
      var a := run[|run| - 1];
      if Enabled(s, a) {
        match a
        case Step(p) => StepKeeps(s, p);
        case Kill(p) => KillKeeps(s, p);
      }
    }
  }

  // ---------------------------------------------------------------- theorems

  /** At most one process is between acquiresleep and releasesleep, and lk->pid names it. */
  lemma MutualExclusion(n: nat, run: seq<Action>, p: nat, q: nat)
    requires p < n && q < n
    ensures var s := Exec(n, run);
            |s.pc| == n && (s.pc[p].Critical? && s.pc[q].Critical? ==> p == q) && (s.pc[p].Critical? ==> s.locked && s.pid == p)
  {
    Invariant(n, run);
  }

  /** No lost wakeup: nobody sleeps on a free lock, except while the process that freed it still
      holds the inner spinlock and has the sleeper ahead of it in its scan. */
  lemma NoLostWakeup(n: nat, run: seq<Action>, p: nat)
    requires p < n
    ensures var s := Exec(n, run);
            |s.pc| == |s.sleeping| == n
            && (s.sleeping[p] && !s.locked ==> 0 <= s.lk < n && HoldsLk(s.pc[s.lk]) && WillWake(s.pc[s.lk], p))
  {
    Invariant(n, run);
  }

  /** No deadlock: while nobody is in the critical section, and somebody is on the way into or
      out of it, some such process can take a step. */
  lemma Progress(n: nat, run: seq<Action>, p: nat)
    requires p < n
    requires var s := Exec(n, run);
             |s.pc| == n && !s.pc[p].Outside? && forall q :: 0 <= q < n ==> !s.pc[q].Critical?
    ensures exists q: nat :: q < n && !Exec(n, run).pc[q].Outside? && Enabled(Exec(n, run), Step(q))
  {
    Invariant(n, run);
    var s := Exec(n, run);
    if s.ptable != -1 {
      assert Enabled(s, Step(s.ptable));
    } else if s.lk != -1 {
      assert Enabled(s, Step(s.lk));
    } else if s.pc[p].Switched? && s.sleeping[p] {
      assert s.locked && Enabled(s, Step(s.pid));
    } else {
      assert Enabled(s, Step(p));
    }
  }

  // ---------------------------------------------------------------- what the calls are for

  /** k steps of process p, while nobody else runs. */
  function Alone(s: State, p: nat, k: nat): State
    decreases k
  {
    if k == 0 then s else Alone(Apply(s, Step(p)), p, k - 1)
  }

  lemma AloneNext(s: State, p: nat, k: nat)
    requires k > 0
    ensures Alone(s, p, k) == Alone(Apply(s, Step(p)), p, k - 1)
  {}

  lemma Overwrites(pc: seq<PC>, p: nat, a: PC, b: PC)
    requires p < |pc|
    ensures pc[p := a][p := b] == pc[p := b]
  {}

  /** One step that is not held up. */
  lemma Free(s: State, p: nat)
    requires p < |s.pc| == |s.sleeping| && Enabled(s, Step(p))
    ensures Apply(s, Step(p)) == DoStep(s, p)
  {}

  /** acquiresleep on a free lock gets it. */
  lemma Acquires(s: State, p: nat)
    requires p < |s.pc| == |s.sleeping| && s.pc[p] == Outside && !s.locked && s.lk == -1
    ensures Alone(s, p, 5) == s.(locked := true, pid := p, pc := s.pc[p := Critical])
  {
    hide Apply;
    Overwrites(s.pc, p, AcqSpin, AcqTest);
    Overwrites(s.pc, p, AcqTest, AcqSet);
    Overwrites(s.pc, p, AcqSet, AcqRelease);
    Overwrites(s.pc, p, AcqRelease, Critical);
    var s1 := s.(pc := s.pc[p := AcqSpin]);
    var s2 := s.(pc := s.pc[p := AcqTest], lk := p);
    var s3 := s.(pc := s.pc[p := AcqSet], lk := p);
    var s4 := s.(pc := s.pc[p := AcqRelease], lk := p, locked := true, pid := p);
    Free(s, p);
    Free(s1, p);
    Free(s2, p);
    Free(s3, p);
    Free(s4, p);
    AloneNext(s, p, 5);
    AloneNext(s1, p, 4);
    AloneNext(s2, p, 3);
    AloneNext(s3, p, 2);
    AloneNext(s4, p, 1);
  }

  /** acquiresleep on a lock that is taken goes to sleep, and keeps neither spinlock. */
  lemma FallsAsleep(s: State, p: nat)
    requires p < |s.pc| == |s.sleeping| && s.pc[p] == Outside && s.locked && s.lk == s.ptable == -1
    ensures Alone(s, p, 7) == s.(pc := s.pc[p := Switched], sleeping := s.sleeping[p := true])
  {
    hide Apply;
    Overwrites(s.pc, p, AcqSpin, AcqTest);
    Overwrites(s.pc, p, AcqTest, SleepSpin);
    Overwrites(s.pc, p, SleepSpin, SleepRelease);
    Overwrites(s.pc, p, SleepRelease, SleepMark);
    Overwrites(s.pc, p, SleepMark, SleepSwitch);
    Overwrites(s.pc, p, SleepSwitch, Switched);
    var s1 := s.(pc := s.pc[p := AcqSpin]);
    var s2 := s.(pc := s.pc[p := AcqTest], lk := p);
    var s3 := s.(pc := s.pc[p := SleepSpin], lk := p);
    var s4 := s.(pc := s.pc[p := SleepRelease], lk := p, ptable := p);
    var s5 := s.(pc := s.pc[p := SleepMark], ptable := p);
    var s6 := s.(pc := s.pc[p := SleepSwitch], ptable := p, sleeping := s.sleeping[p := true]);
    Free(s, p);
    Free(s1, p);
    Free(s2, p);
    Free(s3, p);
    Free(s4, p);
    Free(s5, p);
    Free(s6, p);
    AloneNext(s, p, 7);
    AloneNext(s1, p, 6);
    AloneNext(s2, p, 5);
    AloneNext(s3, p, 4);
    AloneNext(s4, p, 3);
    AloneNext(s5, p, 2);
    AloneNext(s6, p, 1);
  }

  /** The first i processes as they are, and nobody asleep behind them. */
  function Awake(sleeping: seq<bool>, i: nat): seq<bool>
    requires i <= |sleeping|
  {
    sleeping[..i] + seq(|sleeping| - i, _ => false)
  }

  /** The loop of wakeup1. */
  lemma {:induction false} Scans(s: State, p: nat, i: nat)
    requires p < |s.pc| == |s.sleeping| && i <= |s.pc| && s.pc[p] == WakeupScan(i)
    ensures Alone(s, p, |s.pc| - i) == s.(pc := s.pc[p := WakeupScan(|s.pc|)], sleeping := Awake(s.sleeping, i))
    decreases |s.pc| - i
  {
    if i == |s.pc| {
      assert s.pc[p := WakeupScan(|s.pc|)] == s.pc && Awake(s.sleeping, i) == s.sleeping;
    } else {
      Free(s, p);
      AloneNext(s, p, |s.pc| - i);
      var t := DoStep(s, p);
      Scans(t, p, i + 1);
      assert Awake(t.sleeping, i + 1) == Awake(s.sleeping, i);
      assert t.pc[p := WakeupScan(|s.pc|)] == s.pc[p := WakeupScan(|s.pc|)];
    }
  }

  lemma {:induction false} AloneJoin(s: State, p: nat, j: nat, k: nat)
    ensures Alone(s, p, j + k) == Alone(Alone(s, p, j), p, k)
    decreases j
  {
    if j > 0 { AloneJoin(Apply(s, Step(p)), p, j - 1, k); }
  }

  /** releasesleep frees the lock and wakes everybody who slept on it. */
  lemma Releases(s: State, p: nat)
    requires p < |s.pc| == |s.sleeping| && s.pc[p] == Critical && s.lk == s.ptable == -1
    ensures Alone(s, p, |s.pc| + 7) ==
            s.(locked := false, pid := -1, pc := s.pc[p := Outside], sleeping := seq(|s.sleeping|, _ => false))
  {
    hide Apply;
    var n := |s.pc|;
    var s4 := s.(pc := s.pc[p := WakeupScan(0)], lk := p, ptable := p, locked := false, pid := -1);
    ReleaseStarts(s, p);
    AloneJoin(s, p, 4, n + 3);
    Scans(s4, p, 0);
    AloneJoin(s4, p, n, 3);
    var all := seq(n, _ => false);
    assert Awake(s.sleeping, 0) == all;
    var s5 := s4.(pc := s.pc[p := WakeupScan(n)], sleeping := all);
    assert s4.pc[p := WakeupScan(n)] == s5.pc;
    ReleaseEnds(s5, p);
    assert s5.pc[p := Outside] == s.pc[p := Outside];
  }

  lemma ReleaseStarts(s: State, p: nat)
    requires p < |s.pc| == |s.sleeping| && s.pc[p] == Critical && s.lk == s.ptable == -1
    ensures Alone(s, p, 4) == s.(pc := s.pc[p := WakeupScan(0)], lk := p, ptable := p, locked := false, pid := -1)
  {
    hide Apply;
    Overwrites(s.pc, p, RelSpin, RelClear);
    Overwrites(s.pc, p, RelClear, WakeupSpin);
    Overwrites(s.pc, p, WakeupSpin, WakeupScan(0));
    var s1 := s.(pc := s.pc[p := RelSpin]);
    var s2 := s.(pc := s.pc[p := RelClear], lk := p);
    var s3 := s.(pc := s.pc[p := WakeupSpin], lk := p, locked := false, pid := -1);
    Free(s, p);
    Free(s1, p);
    Free(s2, p);
    Free(s3, p);
    AloneNext(s, p, 4);
    AloneNext(s1, p, 3);
    AloneNext(s2, p, 2);
    AloneNext(s3, p, 1);
  }

  lemma ReleaseEnds(s: State, p: nat)
    requires p < |s.pc| == |s.sleeping| && s.pc[p] == WakeupScan(|s.pc|) && s.lk == s.ptable == p
    ensures Alone(s, p, 3) == s.(pc := s.pc[p := Outside], lk := -1, ptable := -1)
  {
    hide Apply;
    Overwrites(s.pc, p, WakeupDone, RelRelease);
    Overwrites(s.pc, p, RelRelease, Outside);
    var s1 := s.(pc := s.pc[p := WakeupDone]);
    var s2 := s.(pc := s.pc[p := RelRelease], ptable := -1);
    Free(s, p);
    Free(s1, p);
    Free(s2, p);
    AloneNext(s, p, 3);
    AloneNext(s1, p, 2);
    AloneNext(s2, p, 1);
  }
}

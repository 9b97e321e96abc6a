/** The three-level scheduler of OS/HW2/HW2-temp-Mlfq on one CPU as a state machine: what fork, exit,
    sleep, the timer and the boost do to the process table and the queues. */
module MlfqMachine {
  import opened MlfqRings

  const LEVELS: int := 3
  const BOOST: int := 100             // MLFQ_BOOST_TIME
  const QUANTUM: int := 1             // timeQuan, the same on every level
  const TICKS: int := 1               // the channel &ticks
  const WIDTH: int := 0x1_0000_0000   // ticks and consumedTime are 32 bits wide

  function Allot(level: int): int { if level == 0 then 5 else if level == 1 then 10 else 20 }

  datatype ProcState = UNUSED | EMBRYO | SLEEPING | RUNNABLE | RUNNING | ZOMBIE

  /** inTick: the process gave up the CPU in the middle of the timer handler, behind the demotion. */
  datatype Proc = Proc(state: ProcState, pid: int, chan: int, consumed: int, qPosi: int, inTick: bool)

  type Table = seq<Proc>
  type Queues = seq<seq<int>>

  /** cur is the process on the CPU, or NIL. */
  datatype Sys = Sys(procs: Table, q: Queues, cur: int, ticks: int)

  predicate Live(s: ProcState) { s == SLEEPING || s == RUNNABLE || s == RUNNING }

  predicate Ready(s: ProcState) { s == RUNNABLE || s == RUNNING }

  function LiveSet(procs: Table): set<int> { set p | 0 <= p < |procs| && Live(procs[p].state) }

  function State(procs: Table, p: int): ProcState { if 0 <= p < |procs| then procs[p].state else UNUSED }

  // ---------------------------------------------------------------- queue operations

  /** Position of the first process that is RUNNING; the length if there is none. */
  function First(procs: Table, q: seq<int>): (i: nat)
    ensures i <= |q| && (i < |q| ==> State(procs, q[i]) == RUNNING)
    ensures forall k :: 0 <= k < i ==> State(procs, q[k]) != RUNNING
  {
    if q == [] || State(procs, q[0]) == RUNNING then 0 else 1 + First(procs, q[1..])
  }

  predicate SomeReady(procs: Table, q: seq<int>) { exists k :: 0 <= k < |q| && Ready(State(procs, q[k])) }

  /** Without the element at i, beginning behind it. */
  function Without<T>(q: seq<T>, i: int): seq<T> {
    if 0 <= i < |q| then q[i + 1..] + q[..i] else q
  }

  function Append(s: Sys, j: int, p: int): Sys {
    if 0 <= j < |s.q| && 0 <= p < |s.procs| then
      s.(q := s.q[j := s.q[j] + [p]], procs := s.procs[p := s.procs[p].(qPosi := j)])
    else s
  }

  /** dequeue. */
  function Take(s: Sys, j: int): Sys {
    if 0 <= j < |s.q| then s.(q := s.q[j := Without(s.q[j], First(s.procs, s.q[j]))]) else s
  }

  function Lowered(procs: Table, qs: Queues): Table {
    seq(|procs|, p requires 0 <= p < |procs| =>
      if |qs| == LEVELS && (p in qs[1] || p in qs[2]) then procs[p].(qPosi := 0) else procs[p])
  }

  /** boostMlfq: everything back to level 0, in the order of the levels. */
  function Boosted(s: Sys): Sys {
    if |s.q| == LEVELS then s.(q := [s.q[0] + s.q[1] + s.q[2], [], []], procs := Lowered(s.procs, s.q)) else s
  }

  // ---------------------------------------------------------------- events

  datatype Event =
    | Alloc(np: int, pid: int)   // allocproc
    | Free(np: int)              // fork gives an entry up
    | Fork(np: int)
    | Exit
    | Reap(p: int)               // wait
    | Sleep(chan: int)
    | Wakeup(chan: int)
    | Yield
    | Dispatch(p: int)           // scheduler
    | Tick                       // timer interrupt
    | FinishTick                 // the rest of a timer interrupt, after a demotion

  predicate Running(s: Sys) { 0 <= s.cur < |s.procs| }

  predicate Enabled(s: Sys, e: Event) {
    match e
    case Alloc(np, _) => State(s.procs, np) == UNUSED && 0 <= np < |s.procs|
    case Free(np) => State(s.procs, np) == EMBRYO
    case Fork(np) => Running(s) && State(s.procs, np) == EMBRYO && |LiveSet(s.procs)| + 1 < SIZE
    case Exit => Running(s)
    case Reap(p) => State(s.procs, p) == ZOMBIE
    case Sleep(_) => Running(s)
    case Wakeup(_) => true
    case Yield => Running(s)
    case Dispatch(p) => s.cur == NIL && State(s.procs, p) == RUNNABLE
    case Tick => true
    case FinishTick => Running(s) && s.procs[s.cur].inTick
  }

  /** The child is RUNNABLE, behind everyone on level 0. */
  function Forked(s: Sys, np: int): Sys {
    if 0 <= np < |s.procs| then
      Append(s.(procs := s.procs[np := s.procs[np].(state := RUNNABLE, consumed := 0, inTick := false)]), 0, np)
    else s
  }

  function Become(s: Sys, p: int, state: ProcState): Sys {
    if 0 <= p < |s.procs| then s.(procs := s.procs[p := s.procs[p].(state := state)]) else s
  }

  /** sched: the current process, in its new state, gives up the CPU. */
  function Leave(s: Sys, state: ProcState): Sys { Become(s, s.cur, state).(cur := NIL) }

  function Woken(procs: Table, chan: int): Table {
    seq(|procs|, p requires 0 <= p < |procs| =>
      if procs[p].state == SLEEPING && procs[p].chan == chan then procs[p].(state := RUNNABLE) else procs[p])
  }

  /** Taken out of its queue and put at the end of level `to`, the current process gives up the CPU. */
  function Requeue(s: Sys, to: int): Sys
    requires Running(s)
  {
    Leave(Append(Take(s, s.procs[s.cur].qPosi), to, s.cur), RUNNABLE)
  }

  function Counted(s: Sys): Sys {
    var procs := if Running(s) then s.procs[s.cur := s.procs[s.cur].(consumed := (s.procs[s.cur].consumed + 1) % WIDTH)]
                 else s.procs;
    s.(procs := Woken(procs, TICKS), ticks := (s.ticks + 1) % WIDTH)
  }

  function Marked(s: Sys, inTick: bool): Sys
    requires Running(s)
  {
    s.(procs := s.procs[s.cur := s.procs[s.cur].(inTick := inTick)])
  }

  /** The check of the time quantum at the end of the handler. */
  function Quantum(s: Sys): Sys
    requires Running(s)
  {
    if s.procs[s.cur].consumed % QUANTUM == 0 then Requeue(s, s.procs[s.cur].qPosi) else s
  }

  /** What the timer handler does once the tick is counted. */
  function Judged(s: Sys): Sys
    requires Running(s)
  {
    var p := s.procs[s.cur];
    if s.ticks % BOOST == 0 then Leave(Boosted(s), RUNNABLE)
    else if p.pid <= 2 then s
    else if p.consumed % Allot(p.qPosi) == 0 && p.qPosi != LEVELS - 1 then Requeue(Marked(s, true), p.qPosi + 1)
    else Quantum(s)
  }

  function Apply(s: Sys, e: Event): Sys
    requires Enabled(s, e)
  {
    match e
    case Alloc(np, pid) => s.(procs := s.procs[np := s.procs[np].(state := EMBRYO, pid := pid)])
    case Free(np) => Become(s, np, UNUSED)
    case Fork(np) => Forked(s, np)
    case Exit => Leave(Take(s, s.procs[s.cur].qPosi), ZOMBIE)
    case Reap(p) => s.(procs := s.procs[p := s.procs[p].(state := UNUSED, pid := 0)])
    case Sleep(chan) => Leave(s.(procs := s.procs[s.cur := s.procs[s.cur].(chan := chan)]), SLEEPING)
    case Wakeup(chan) => s.(procs := Woken(s.procs, chan))
    case Yield => Leave(s, RUNNABLE)
    case Dispatch(p) => Become(s, p, RUNNING).(cur := p)
    case Tick => if Running(Counted(s)) then Judged(Counted(s)) else Counted(s)
    case FinishTick => Quantum(Marked(s, false))
  }

  // ---------------------------------------------------------------- the invariant

  /** Every live process is in exactly one slot of the three queues, on the level in its qPosi, and
      nothing else is in them. */
  predicate Placed(procs: Table, q: Queues) {
    && |q| == LEVELS
    && multiset(q[0]) + multiset(q[1]) + multiset(q[2]) == multiset(LiveSet(procs))
    && forall p :: 0 <= p < |procs| && Live(procs[p].state) ==> InQueue(procs, q, p)
  }

  predicate InQueue(procs: Table, q: Queues, p: int)
    requires 0 <= p < |procs|
  {
    0 <= procs[p].qPosi < |q| && p in q[procs[p].qPosi]
  }

  /** The current process is RUNNING, and it alone. */
  predicate OneRunning(procs: Table, cur: int) {
    && (cur != NIL ==> State(procs, cur) == RUNNING)
    && forall p :: 0 <= p < |procs| && procs[p].state == RUNNING ==> p == cur
  }

  predicate Inv(s: Sys) {
    && |s.procs| == SIZE && Placed(s.procs, s.q) && OneRunning(s.procs, s.cur)
    && |LiveSet(s.procs)| < SIZE && 0 <= s.ticks < WIDTH
  }

  // ---------------------------------------------------------------- membership

  lemma Members(procs: Table, q: Queues)
    requires Placed(procs, q)
    ensures forall p :: p in LiveSet(procs) <==> p in q[0] || p in q[1] || p in q[2]
    ensures |q[0]| + |q[1]| + |q[2]| == |LiveSet(procs)|
  {
    var live := LiveSet(procs);
    forall p ensures p in live <==> p in q[0] || p in q[1] || p in q[2] {
      assert p in live <==> p in multiset(live);
      assert p in multiset(live) <==> p in multiset(q[0]) || p in multiset(q[1]) || p in multiset(q[2]);
    }
    assert |multiset(live)| == |live|;
    assert |multiset(q[0]) + multiset(q[1]) + multiset(q[2])| == |q[0]| + |q[1]| + |q[2]|;
  }

  /** A process is in no queue but its own. */
  lemma OnOwnLevel(procs: Table, q: Queues, p: int, j: int)
    requires Placed(procs, q) && 0 <= j < LEVELS && p in q[j]
    ensures 0 <= p < |procs| && Live(procs[p].state) && procs[p].qPosi == j
  {
    Members(procs, q);
    assert p in LiveSet(procs);
    assert InQueue(procs, q, p);
    var own := procs[p].qPosi;
    assert multiset(q[own])[p] >= 1 && multiset(q[j])[p] >= 1;
    assert multiset(q[0])[p] + multiset(q[1])[p] + multiset(q[2])[p] == multiset(LiveSet(procs))[p] == 1;
  }

  /** dequeue finds the current process in its queue, so its recursion ends. */
  lemma CurrentFound(s: Sys)
    requires Inv(s) && s.cur != NIL
    ensures Running(s) && 0 <= s.procs[s.cur].qPosi < LEVELS
    ensures var q := s.q[s.procs[s.cur].qPosi];
            SomeReady(s.procs, q) && First(s.procs, q) < |q| && q[First(s.procs, q)] == s.cur
  {
    assert InQueue(s.procs, s.q, s.cur);
    var j := s.procs[s.cur].qPosi;
    var q := s.q[j];
    var k :| 0 <= k < |q| && q[k] == s.cur;
    assert Ready(State(s.procs, q[k]));
    var i := First(s.procs, q);
    assert i < |q|;
    OnOwnLevel(s.procs, s.q, q[i], j);
  }

  lemma WithoutContents(q: seq<int>, i: int)
    requires 0 <= i < |q|
    ensures multiset(q) == multiset(Without(q, i)) + multiset{q[i]}
  {
    assert q == q[..i] + [q[i]] + q[i + 1..];
  }
}

/** The users of the buffer cache of OS/xv6-public/bio.c: any number of processes between bget and the end
    of brelse. The reference count of a buffer is their number, which gives BioCache.Bcache.Put what it
    asks of its caller. */
module BioUsers {

  /** Where a process is: not using the cache, behind bget and before the lock, with the lock of its buffer,
      or in the second half of brelse. */
  datatype PC = Out | Waiting(b: nat) | Holding(b: nat) | Leaving(b: nat)

  datatype State = State(pcs: seq<PC>, refcnt: seq<int>, locked: seq<bool>)

  datatype Event = Get(p: nat, b: nat) | Lock(p: nat) | Unlock(p: nat) | Put(p: nat)

  predicate Enabled(s: State, e: Event) {
    && e.p < |s.pcs| && |s.refcnt| == |s.locked|
    && match e
       case Get(p, b) => s.pcs[p].Out? && b < |s.refcnt|
       case Lock(p) => s.pcs[p].Waiting? && s.pcs[p].b < |s.refcnt| && !s.locked[s.pcs[p].b]
       case Unlock(p) => s.pcs[p].Holding? && s.pcs[p].b < |s.refcnt|
       case Put(p) => s.pcs[p].Leaving? && s.pcs[p].b < |s.refcnt|
  }

  function Apply(s: State, e: Event): State {
    if !Enabled(s, e) then s
    else match e
      case Get(p, b) => s.(pcs := s.pcs[p := Waiting(b)], refcnt := s.refcnt[b := s.refcnt[b] + 1])
      case Lock(p) => s.(pcs := s.pcs[p := Holding(s.pcs[p].b)], locked := s.locked[s.pcs[p].b := true])
      case Unlock(p) => s.(pcs := s.pcs[p := Leaving(s.pcs[p].b)], locked := s.locked[s.pcs[p].b := false])
      case Put(p) => s.(pcs := s.pcs[p := Out], refcnt := s.refcnt[s.pcs[p].b := s.refcnt[s.pcs[p].b] - 1])
  }

  function Init(procs: nat, nbuf: nat): State { State(seq(procs, _ => Out), seq(nbuf, _ => 0), seq(nbuf, _ => false)) }

  function Exec(s: State, run: seq<Event>): State
    decreases |run|
  {
    if run == [] then s else Exec(Apply(s, run[0]), run[1..])
  }

  predicate At(pc: PC, b: nat) { !pc.Out? && pc.b == b }

  function Users(pcs: seq<PC>, b: nat): nat {
    if pcs == [] then 0 else Users(pcs[..|pcs| - 1], b) + if At(pcs[|pcs| - 1], b) then 1 else 0
  }

  ghost predicate Inv(s: State) {
    && |s.refcnt| == |s.locked|
    && (forall b :: 0 <= b < |s.refcnt| ==> s.refcnt[b] == Users(s.pcs, b))
    && (forall p :: 0 <= p < |s.pcs| && !s.pcs[p].Out? ==> s.pcs[p].b < |s.refcnt|)
    && (forall p :: 0 <= p < |s.pcs| && s.pcs[p].Holding? ==> s.locked[s.pcs[p].b])
    && (forall b :: 0 <= b < |s.locked| && s.locked[b] ==> Holding(b) in s.pcs)
    && (forall p, q :: 0 <= p < q < |s.pcs| && s.pcs[p].Holding? ==> s.pcs[p] != s.pcs[q])
  }

  lemma {:induction false} UsersUpdate(pcs: seq<PC>, p: nat, x: PC, b: nat)
    requires p < |pcs|
    ensures Users(pcs[p := x], b) + (if At(pcs[p], b) then 1 else 0) == Users(pcs, b) + if At(x, b) then 1 else 0
  {
    var n := |pcs| - 1;
    if p == n {
      assert pcs[p := x][..n] == pcs[..n];
    } else {
      assert pcs[p := x][..n] == pcs[..n][p := x];
      UsersUpdate(pcs[..n], p, x, b);
    }
  }

  lemma {:induction false} UsersOne(pcs: seq<PC>, p: nat, b: nat)
    requires p < |pcs| && At(pcs[p], b)
    ensures Users(pcs, b) >= 1
  {
    if p < |pcs| - 1 { UsersOne(pcs[..|pcs| - 1], p, b); }
  }

  lemma {:induction false} UsersTwo(pcs: seq<PC>, p: nat, q: nat, b: nat)
    requires p < q < |pcs| && At(pcs[p], b) && At(pcs[q], b)
    ensures Users(pcs, b) >= 2
  {
    if q < |pcs| - 1 { UsersTwo(pcs[..|pcs| - 1], p, q, b); } else { UsersOne(pcs[..|pcs| - 1], p, b); }
  }

  lemma StepCounts(s: State, e: Event, b: nat)
    requires Inv(s) && Enabled(s, e) && b < |s.refcnt|
    ensures Apply(s, e).refcnt[b] == Users(Apply(s, e).pcs, b)
  {
    UsersUpdate(s.pcs, e.p, Apply(s, e).pcs[e.p], b);
  }

  lemma StepLocks(s: State, e: Event, b: nat)
    requires Inv(s) && Enabled(s, e) && b < |s.locked| && Apply(s, e).locked[b]
    ensures Holding(b) in Apply(s, e).pcs
  {
    var t := Apply(s, e);
    if e.Lock? && b == s.pcs[e.p].b {
      assert t.pcs[e.p] == Holding(b);
    } else {
      var q :| 0 <= q < |s.pcs| && s.pcs[q] == Holding(b);
      assert t.pcs[q] == Holding(b);
    }
  }

  lemma StepKeeps(s: State, e: Event)
    requires Inv(s)
    ensures Inv(Apply(s, e))
  {
    hide Users;
    if Enabled(s, e) {
      var t := Apply(s, e);
      forall b | 0 <= b < |t.refcnt| ensures t.refcnt[b] == Users(t.pcs, b) { StepCounts(s, e, b); }
      forall b | 0 <= b < |t.locked| && t.locked[b] ensures Holding(b) in t.pcs { StepLocks(s, e, b); }
    }
  }

  /** In every reachable state the count of a buffer is the number of processes that use it, and its lock
      is held by one of them at most. */
  lemma {:induction false} UsersInvariant(s: State, run: seq<Event>)
    requires Inv(s)
    ensures Inv(Exec(s, run))
    decreases |run|
  {
    if run != [] {
      StepKeeps(s, run[0]);
      UsersInvariant(Apply(s, run[0]), run[1..]);
    }
  }

  lemma {:induction false} NoUsers(n: nat, b: nat)
    ensures Users(seq(n, _ => Out), b) == 0
  {
    if n > 0 {
      assert seq(n, _ => Out)[..n - 1] == seq(n - 1, _ => Out);
      NoUsers(n - 1, b);
    }
  }

  lemma InitGood(procs: nat, nbuf: nat)
    ensures Inv(Init(procs, nbuf))
  {
    var i := Init(procs, nbuf);
    forall b | 0 <= b < nbuf ensures Users(i.pcs, b) == 0 { NoUsers(procs, b); }
  }

  lemma LeavingCounts(s: State, p: nat)
    requires Inv(s) && p < |s.pcs| && s.pcs[p].Leaving?
    ensures var b := s.pcs[p].b; b < |s.refcnt| == |s.locked| && s.refcnt[b] > 0 && (s.locked[b] ==> s.refcnt[b] > 1)
  {
    hide Users;
    var b := s.pcs[p].b;
    UsersOne(s.pcs, p, b);
    if s.locked[b] {
      var q :| 0 <= q < |s.pcs| && s.pcs[q] == Holding(b);
      if p < q { UsersTwo(s.pcs, p, q, b); } else { UsersTwo(s.pcs, q, p, b); }
    }
  }

  /** A process in the second half of brelse finds a positive count, and more than its own reference while
      somebody else holds the lock: what Put requires. */
  lemma PutAllowed(procs: nat, nbuf: nat, run: seq<Event>, p: nat)
    requires var s := Exec(Init(procs, nbuf), run); p < |s.pcs| && s.pcs[p].Leaving?
    ensures var s := Exec(Init(procs, nbuf), run); var b := s.pcs[p].b;
            b < |s.refcnt| == |s.locked| && s.refcnt[b] > 0 && (s.locked[b] ==> s.refcnt[b] > 1)
  {
    hide Exec, Init, Inv;
    InitGood(procs, nbuf);
    UsersInvariant(Init(procs, nbuf), run);
    LeavingCounts(Exec(Init(procs, nbuf), run), p);
  }
}

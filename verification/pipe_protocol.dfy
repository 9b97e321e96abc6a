/** Any number of readers and writers of one pipe. A step is what a process does between two places
    where it can be interrupted by another: entering the call, and each stretch that it holds p->lock. */
module PipeProtocol {
  import opened PipeBuffer

  datatype Proc =
    | Idle
    | Writer(addr: Bytes, i: nat, asleep: bool)
    | Reader(n: nat, asleep: bool)

  datatype Sys = Sys(sent: Bytes, got: Bytes, readopen: bool, writeopen: bool, procs: seq<Proc>, killed: seq<bool>)

  datatype Event =
    | Write(p: nat, addr: Bytes)
    | Read(p: nat, n: nat)
    | Run(p: nat)
    | Close(writable: bool)
    | Kill(p: nat)

  function Used(s: Sys): int { |s.sent| - |s.got| }

  predicate Awake(x: Proc) { (x.Writer? && !x.asleep) || (x.Reader? && !x.asleep) }

  /** An end is open while a call at that end is in progress, since the caller's file refers to it. */
  predicate Enabled(s: Sys, e: Event) {
    match e
    case Write(p, _) => p < |s.procs| && s.procs[p].Idle? && s.writeopen
    case Read(p, _) => p < |s.procs| && s.procs[p].Idle? && s.readopen
    case Run(p) => p < |s.procs| && Awake(s.procs[p])
    case Close(true) => forall p :: 0 <= p < |s.procs| ==> !s.procs[p].Writer?
    case Close(false) => forall p :: 0 <= p < |s.procs| ==> !s.procs[p].Reader?
    case Kill(p) => p < |s.procs|
  }

  // ---------------------------------------------------------------- steps

  function WakeReader(x: Proc): Proc { if x.Reader? then Reader(x.n, false) else x }

  function WakeWriter(x: Proc): Proc { if x.Writer? then Writer(x.addr, x.i, false) else x }

  function WakeReaders(procs: seq<Proc>): seq<Proc> {
    seq(|procs|, p requires 0 <= p < |procs| => WakeReader(procs[p]))
  }

  function WakeWriters(procs: seq<Proc>): seq<Proc> {
    seq(|procs|, p requires 0 <= p < |procs| => WakeWriter(procs[p]))
  }

  predicate Fifo(s: Sys) { |s.got| <= |s.sent| <= |s.got| + PIPESIZE && s.got == s.sent[..|s.got|] }

  predicate Shaped(s: Sys) {
    Fifo(s) && |s.procs| == |s.killed| && forall p :: 0 <= p < |s.procs| && s.procs[p].Writer? ==> s.procs[p].i <= |s.procs[p].addr|
  }

  function RunWriter(s: Sys, p: nat): Sys
    requires Shaped(s) && p < |s.procs| && s.procs[p].Writer?
  {
    var addr, i := s.procs[p].addr, s.procs[p].i;
    var j := Written(addr, i, Used(s));
    var sent := s.sent + addr[i..j];
    match WriteOutcome(j == |addr|, s.readopen, s.killed[p])
    case Done => s.(sent := sent, procs := WakeReaders(s.procs)[p := Idle])
    case Failed => s.(sent := sent, procs := s.procs[p := Idle])
    case Asleep => s.(sent := sent, procs := WakeReaders(s.procs)[p := Writer(addr, j, true)])
  }

  function RunReader(s: Sys, p: nat): Sys
    requires Shaped(s) && p < |s.procs| && s.procs[p].Reader?
  {
    match ReadOutcome(Used(s), s.writeopen, s.killed[p])
    case Done =>
      s.(got := s.got + Front(s.sent[|s.got|..], s.procs[p].n), procs := WakeWriters(s.procs)[p := Idle])
    case Failed => s.(procs := s.procs[p := Idle])
    case Asleep => s.(procs := s.procs[p := Reader(s.procs[p].n, true)])
  }

  function Apply(s: Sys, e: Event): Sys {
    if !Enabled(s, e) || !Shaped(s) then s
    else match e
      case Write(p, addr) => s.(procs := s.procs[p := Writer(addr, 0, false)])
      case Read(p, n) => s.(procs := s.procs[p := Reader(n, false)])
      case Run(p) => if s.procs[p].Writer? then RunWriter(s, p) else RunReader(s, p)
      case Close(true) => s.(writeopen := false, procs := WakeReaders(s.procs))
      case Close(false) => s.(readopen := false, procs := WakeWriters(s.procs))
      case Kill(p) =>
        s.(killed := s.killed[p := true], procs := s.procs[p := WakeReader(WakeWriter(s.procs[p]))])
  }

  function Init(n: nat): Sys { Sys([], [], true, true, seq(n, _ => Idle), seq(n, _ => false)) }

  /** The state after a run; events that are not possible where they stand do nothing. */
  function Fold(s: Sys, run: seq<Event>): Sys
    decreases |run|
  {
    if run == [] then s else Fold(Apply(s, run[0]), run[1..])
  }

  // ---------------------------------------------------------------- a stretch in numbers

  /** A writer appends what fits; readers are woken unless it fails; it sleeps on a full pipe that is still read. */
  lemma WriterExact(s: Sys, p: nat)
    requires Shaped(s) && p < |s.procs| && s.procs[p].Writer?
    ensures var t := RunWriter(s, p); var addr, i := s.procs[p].addr, s.procs[p].i; var room := 512 - (|s.sent| - |s.got|);
            t.got == s.got && |t.procs| == |s.procs|
            && (if |addr| - i <= room then t.sent == s.sent + addr[i..] && t.procs[p] == Idle
                else t.sent == s.sent + addr[i..i + room]
                     && t.procs[p] == if !s.readopen || s.killed[p] then Idle else Writer(addr, i + room, true))
            && forall q :: 0 <= q < |s.procs| && q != p ==>
                 t.procs[q] == if s.procs[q].Reader? && (|addr| - i <= room || (s.readopen && !s.killed[p]))
                               then Reader(s.procs[q].n, false) else s.procs[q]
  {
    var addr, i := s.procs[p].addr, s.procs[p].i;
    assert addr[i..|addr|] == addr[i..];
  }

  /** A reader takes as much as it asked for or as there is; it sleeps on an empty pipe that may still be
      written. Having got nothing although it asked, it has seen the end: every byte has been delivered. */
  lemma ReaderExact(s: Sys, p: nat)
    requires Shaped(s) && p < |s.procs| && s.procs[p].Reader?
    ensures var t := RunReader(s, p); var n := s.procs[p].n; var used := |s.sent| - |s.got|;
            t.sent == s.sent && |t.procs| == |s.procs|
            && (if used == 0 && s.writeopen then
                  t.got == s.got && t.procs == s.procs[p := if s.killed[p] then Idle else Reader(n, true)]
                else
                  t.got == s.sent[..|s.got| + if n <= used then n else used] && t.procs[p] == Idle
                  && forall q :: 0 <= q < |s.procs| && q != p ==>
                       t.procs[q] == if s.procs[q].Writer? then Writer(s.procs[q].addr, s.procs[q].i, false) else s.procs[q])
            && (t.procs[p] == Idle && t.got == s.got && n > 0 && !s.killed[p] ==> !s.writeopen && s.got == s.sent)
  {
    var n, used := s.procs[p].n, |s.sent| - |s.got|;
    var m := if n <= used then n else used;
    assert s.sent[..|s.got| + m] == s.sent[..|s.got|] + s.sent[|s.got|..][..m];
  }

  // ---------------------------------------------------------------- order

  lemma WriterShaped(s: Sys, p: nat)
    requires Shaped(s) && p < |s.procs| && s.procs[p].Writer?
    ensures Shaped(RunWriter(s, p)) && s.sent <= RunWriter(s, p).sent && RunWriter(s, p).got == s.got
  {
    var addr, i := s.procs[p].addr, s.procs[p].i;
    var j := Written(addr, i, Used(s));
    assert (s.sent + addr[i..j])[..|s.got|] == s.sent[..|s.got|];
  }

  lemma ReaderShaped(s: Sys, p: nat)
    requires Shaped(s) && p < |s.procs| && s.procs[p].Reader?
    ensures Shaped(RunReader(s, p)) && s.got <= RunReader(s, p).got && RunReader(s, p).sent == s.sent
  {
    var f := Front(s.sent[|s.got|..], s.procs[p].n);
    assert s.got + f == s.sent[..|s.got| + |f|];
  }

  lemma StepShaped(s: Sys, e: Event)
    requires Shaped(s)
    ensures Shaped(Apply(s, e)) && s.got <= Apply(s, e).got && s.sent <= Apply(s, e).sent
  {
    if Enabled(s, e) && e.Run? {
      if s.procs[e.p].Writer? { WriterShaped(s, e.p); } else { ReaderShaped(s, e.p); }
    }
  }

  /** In every run, with or without kills, the bytes read are the first of the bytes appended, and at
      most 512 bytes are under way. */
  lemma {:induction false} FifoOrder(s: Sys, run: seq<Event>)
    requires Shaped(s)
    ensures var t := Fold(s, run);
            Shaped(t) && t.got <= t.sent && |t.sent| - |t.got| <= PIPESIZE && s.got <= t.got && s.sent <= t.sent
    decreases |run|
  {
    if run != [] {
      StepShaped(s, run[0]);
      FifoOrder(Apply(s, run[0]), run[1..]);
    }
  }

  // ---------------------------------------------------------------- one writer

  /** What process w asked to write in the run. */
  function Asked(run: seq<Event>, s: Sys): Bytes
    decreases |run|
  {
    if run == [] then []
    else AskedNow(s, run[0]) + Asked(run[1..], Apply(s, run[0]))
  }

  function AskedNow(s: Sys, e: Event): Bytes { if e.Write? && Enabled(s, e) then e.addr else [] }

  /** What the call of process w in progress has yet to append. */
  function Rest(x: Proc): Bytes { if x.Writer? && x.i <= |x.addr| then x.addr[x.i..] else [] }

  /** Only w writes, nobody is killed and the readers' end stays open. */
  predicate Peaceful(e: Event, w: nat) { (e.Write? ==> e.p == w) && !e.Kill? && e != Close(false) }

  predicate OnlyWriter(s: Sys, w: nat) {
    && Shaped(s) && w < |s.procs| && s.readopen
    && (forall p :: 0 <= p < |s.procs| ==> !s.killed[p] && (s.procs[p].Writer? ==> p == w))
  }

  lemma OneWriterStep(s: Sys, e: Event, w: nat)
    requires OnlyWriter(s, w) && Peaceful(e, w)
    ensures OnlyWriter(Apply(s, e), w)
    ensures Apply(s, e).sent + Rest(Apply(s, e).procs[w]) == s.sent + Rest(s.procs[w]) + AskedNow(s, e)
  {
    hide Fifo, RunWriter, RunReader;
    StepShaped(s, e);
    if Enabled(s, e) && e.Run? {
      if s.procs[e.p].Writer? { OneWriterRuns(s, w); } else { OneReaderRuns(s, e.p, w); }
    }
  }

  lemma OneWriterRuns(s: Sys, w: nat)
    requires OnlyWriter(s, w) && s.procs[w].Writer?
    ensures var t := RunWriter(s, w);
            (Shaped(t) ==> OnlyWriter(t, w)) && t.sent + Rest(t.procs[w]) == s.sent + Rest(s.procs[w])
  {
    hide Fifo, Rest, Written, Used;
    RestRuns(s, w);
  }

  lemma UsedBound(s: Sys)
    requires Fifo(s)
    ensures 0 <= Used(s) <= PIPESIZE
  {}

  lemma RestRuns(s: Sys, w: nat)
    requires Shaped(s) && w < |s.procs| && s.procs[w].Writer? && !s.killed[w] && s.readopen
    ensures var t := RunWriter(s, w); t.sent + Rest(t.procs[w]) == s.sent + Rest(s.procs[w])
  {
    hide WakeReader, Fifo;
    assert |WakeReaders(s.procs)| == |s.procs| && 0 <= Used(s) <= PIPESIZE by { assert Fifo(s); UsedBound(s); }
    var addr, i := s.procs[w].addr, s.procs[w].i;
    var j := Written(addr, i, Used(s));
    assert addr[i..j] + addr[j..] == addr[i..];
    assert s.sent + addr[i..j] + addr[j..] == s.sent + addr[i..];
    if j == |addr| { assert addr[i..j] == addr[i..]; }
  }

  lemma OneReaderRuns(s: Sys, p: nat, w: nat)
    requires OnlyWriter(s, w) && p < |s.procs| && s.procs[p].Reader?
    ensures var t := RunReader(s, p);
            (Shaped(t) ==> OnlyWriter(t, w)) && t.sent == s.sent && Rest(t.procs[w]) == Rest(s.procs[w])
  {}

  /** A single writer's bytes are appended, and so read, in the order in which it passed them, whatever
      the sizes of its calls and of the reads. */
  lemma {:induction false} OneWriter(s: Sys, run: seq<Event>, w: nat, t: Sys)
    requires OnlyWriter(s, w) && (forall k :: 0 <= k < |run| ==> Peaceful(run[k], w)) && t == Fold(s, run)
    ensures OnlyWriter(t, w) && t.sent + Rest(t.procs[w]) == s.sent + Rest(s.procs[w]) + Asked(run, s)
    decreases |run|
  {
    if run != [] {
      assert Peaceful(run[0], w);
      OneWriterStep(s, run[0], w);
      OneWriter(Apply(s, run[0]), run[1..], w, t);
    }
  }

  // ---------------------------------------------------------------- sleepers

  predicate ReaderAsleep(s: Sys, p: int) { 0 <= p < |s.procs| && s.procs[p].Reader? && s.procs[p].asleep }

  predicate WriterAsleep(s: Sys, p: int) { 0 <= p < |s.procs| && s.procs[p].Writer? && s.procs[p].asleep }

  /** Who sleeps has a reason to: a reader because the pipe is empty and may still be written, a writer
      because it is full and may still be read. */
  ghost predicate Justified(s: Sys) {
    && (forall p :: ReaderAsleep(s, p) ==> Used(s) == 0 && s.writeopen)
    && (forall p :: WriterAsleep(s, p) ==> Used(s) == PIPESIZE && s.readopen)
  }

  /** An end is open while a call at it is in progress. */
  predicate EndsOpen(s: Sys) {
    forall p :: 0 <= p < |s.procs| ==> (s.procs[p].Writer? ==> s.writeopen) && (s.procs[p].Reader? ==> s.readopen)
  }

  /** A killed writer with more to write than fits returns -1 without the wakeup; that matters when a
      reader is asleep. */
  ghost predicate LosesWakeup(s: Sys, e: Event) {
    && e.Run? && e.p < |s.procs| == |s.killed| && s.procs[e.p].Writer? && !s.procs[e.p].asleep
    && s.killed[e.p] && |s.procs[e.p].addr| - s.procs[e.p].i > PIPESIZE
    && exists r :: ReaderAsleep(s, r)
  }

  lemma StepEnds(s: Sys, e: Event)
    requires Shaped(s) && EndsOpen(s)
    ensures EndsOpen(Apply(s, e))
  {}

  /** A step keeps all sleepers justified exactly if it is not that one. */
  lemma StepJustifiedIff(s: Sys, e: Event)
    requires Shaped(s) && |s.killed| == |s.procs| && EndsOpen(s) && Justified(s)
    ensures Justified(Apply(s, e)) <==> !LosesWakeup(s, e)
  {
    if Enabled(s, e) && e.Run? {
      if s.procs[e.p].Writer? { RunWriterJustified(s, e.p); } else { RunReaderJustified(s, e.p); }
    } else if !e.Run? {
      OtherJustified(s, e);
    }
  }

  lemma RunWriterJustified(s: Sys, p: nat)
    requires Shaped(s) && EndsOpen(s) && Justified(s) && p < |s.procs| && s.procs[p].Writer? && !s.procs[p].asleep
    ensures Justified(RunWriter(s, p)) <==> !LosesWakeup(s, Run(p))
  {
    var t := RunWriter(s, p);
    forall q | WriterAsleep(t, q) ensures Used(t) == PIPESIZE && t.readopen {
      if q != p { assert WriterAsleep(s, q); }
    }
    forall q | ReaderAsleep(t, q)
      ensures ReaderAsleep(s, q) && Used(s) == 0
      ensures s.killed[p] && |s.procs[p].addr| - s.procs[p].i > PIPESIZE && Used(t) == PIPESIZE
    {
      assert ReaderAsleep(s, q);
      assert s.readopen;
    }
    forall q | ReaderAsleep(s, q) && LosesWakeup(s, Run(p)) ensures ReaderAsleep(t, q) && Used(t) == PIPESIZE {
    }
  }

  lemma RunReaderJustified(s: Sys, p: nat)
    requires Shaped(s) && EndsOpen(s) && Justified(s) && p < |s.procs| && s.procs[p].Reader? && !s.procs[p].asleep
    ensures Justified(RunReader(s, p))
  {
    var t := RunReader(s, p);
    forall q ensures !WriterAsleep(t, q) { assert WriterAsleep(t, q) ==> WriterAsleep(s, q); }
    forall q | ReaderAsleep(t, q) ensures Used(t) == 0 && t.writeopen {
      if q != p { assert ReaderAsleep(s, q); }
    }
  }

  lemma OtherJustified(s: Sys, e: Event)
    requires Shaped(s) && EndsOpen(s) && Justified(s) && !e.Run?
    ensures Justified(Apply(s, e))
  {
    var t := Apply(s, e);
    forall q | WriterAsleep(t, q) ensures Used(t) == PIPESIZE && t.readopen { assert WriterAsleep(s, q); }
    forall q | ReaderAsleep(t, q) ensures Used(t) == 0 && t.writeopen { assert ReaderAsleep(s, q); }
  }

  // ---------------------------------------------------------------- all runs

  ghost predicate Lossless(s: Sys, run: seq<Event>)
    decreases |run|
  {
    run == [] || (!LosesWakeup(s, run[0]) && Lossless(Apply(s, run[0]), run[1..]))
  }

  /** No sleeper is ever forgotten in a run in which no writer that is killed leaves that way. */
  lemma {:induction false} NoLostWakeup(s: Sys, run: seq<Event>)
    requires Shaped(s) && EndsOpen(s) && Justified(s) && Lossless(s, run)
    ensures Shaped(Fold(s, run)) && EndsOpen(Fold(s, run)) && Justified(Fold(s, run))
    decreases |run|
  {
    if run != [] {
      StepShaped(s, run[0]);
      StepEnds(s, run[0]);
      StepJustifiedIff(s, run[0]);
      NoLostWakeup(Apply(s, run[0]), run[1..]);
    }
  }

  predicate NoneKilled(s: Sys) { forall p :: 0 <= p < |s.killed| ==> !s.killed[p] }

  /** In particular, in every run without kills; and then readers and writers never sleep together. */
  lemma {:induction false} WithoutKills(s: Sys, run: seq<Event>)
    requires Shaped(s) && EndsOpen(s) && Justified(s) && NoneKilled(s)
    requires forall k :: 0 <= k < |run| ==> !run[k].Kill?
    ensures Justified(Fold(s, run))
    ensures forall p, q :: !(ReaderAsleep(Fold(s, run), p) && WriterAsleep(Fold(s, run), q))
    decreases |run|
  {
    if run != [] {
      assert !run[0].Kill?;
      StepShaped(s, run[0]);
      StepEnds(s, run[0]);
      StepJustifiedIff(s, run[0]);
      WithoutKills(Apply(s, run[0]), run[1..]);
    }
  }

  lemma InitGood(n: nat)
    ensures var s := Init(n); Shaped(s) && EndsOpen(s) && Justified(s) && NoneKilled(s)
  {}

  /** From the new pipe on: order in every run, and justified sleepers in every run without kills. */
  lemma FromNewPipe(n: nat, run: seq<Event>)
    ensures var t := Fold(Init(n), run); t.got <= t.sent && |t.sent| - |t.got| <= PIPESIZE
    ensures (forall k :: 0 <= k < |run| ==> !run[k].Kill?) ==> Justified(Fold(Init(n), run))
  {
    InitGood(n);
    FifoOrder(Init(n), run);
    if forall k :: 0 <= k < |run| ==> !run[k].Kill? { WithoutKills(Init(n), run); }
  }

  // ---------------------------------------------------------------- the wakeup that is lost

  /** Three processes, none of them killed, or process 0 alone. */
  function Scene(sent: Bytes, got: Bytes, procs: seq<Proc>, killed0: bool): Sys {
    Sys(sent, got, true, true, procs, [killed0, false, false])
  }

  lemma Fill(addr: Bytes)
    requires |addr| > 2 * PIPESIZE
    ensures var s := Scene([], [], [Idle, Idle, Idle], false);
            Apply(Apply(s, Write(0, addr)), Run(0)) ==
            Scene(addr[..PIPESIZE], [], [Writer(addr, PIPESIZE, true), Idle, Idle], false)
  {
    assert [] + addr[0..PIPESIZE] == addr[..PIPESIZE];
  }

  lemma Drain(addr: Bytes)
    requires |addr| > 2 * PIPESIZE
    ensures var full := addr[..PIPESIZE];
            Apply(Apply(Scene(full, [], [Writer(addr, PIPESIZE, true), Idle, Idle], false), Read(1, PIPESIZE)), Run(1)) ==
            Scene(full, full, [Writer(addr, PIPESIZE, false), Idle, Idle], false)
  {
    var full := addr[..PIPESIZE];
    assert full[0..] == full && [] + Front(full, PIPESIZE) == full;
  }

  lemma FallAsleep(addr: Bytes)
    requires |addr| > 2 * PIPESIZE
    ensures var full := addr[..PIPESIZE];
            Apply(Apply(Scene(full, full, [Writer(addr, PIPESIZE, false), Idle, Idle], false), Read(2, 1)), Run(2)) ==
            Scene(full, full, [Writer(addr, PIPESIZE, false), Idle, Reader(1, true)], false)
  {}

  lemma RefillAndLeave(addr: Bytes)
    requires |addr| > 2 * PIPESIZE
    ensures var full := addr[..PIPESIZE];
            Apply(Apply(Scene(full, full, [Writer(addr, PIPESIZE, false), Idle, Reader(1, true)], false), Kill(0)), Run(0)) ==
            Scene(addr[..2 * PIPESIZE], full, [Idle, Idle, Reader(1, true)], true)
  {
    var full := addr[..PIPESIZE];
    assert full + addr[PIPESIZE..2 * PIPESIZE] == addr[..2 * PIPESIZE];
  }

  lemma FoldTwo(s: Sys, a: Event, b: Event, run: seq<Event>)
    ensures Fold(s, [a, b] + run) == Fold(Apply(Apply(s, a), b), run)
  {
    var r := [a, b] + run;
    assert r[1..] == [b] + run && r[1..][0] == b && r[1..][1..] == run;
  }

  /** The lost wakeup is reachable: a writer fills the pipe and sleeps; a reader empties it, which makes
      the writer runnable; a second reader finds nothing and sleeps; the writer is killed, refills the
      pipe and returns. The second reader sleeps on a full pipe. */
  lemma KilledWriterForgetsReader(addr: Bytes)
    requires |addr| > 2 * PIPESIZE
    ensures var run := [Write(0, addr), Run(0)] + ([Read(1, PIPESIZE), Run(1)] + ([Read(2, 1), Run(2)] + ([Kill(0), Run(0)] + [])));
            var s := Fold(Init(3), run);
            ReaderAsleep(s, 2) && Used(s) == PIPESIZE && s.procs[0].Idle? && s.procs[1].Idle?
  {
    hide Apply;
    var full := addr[..PIPESIZE];
    assert Init(3) == Scene([], [], [Idle, Idle, Idle], false);
    Fill(addr);
    Drain(addr);
    FallAsleep(addr);
    RefillAndLeave(addr);
    FoldTwo(Init(3), Write(0, addr), Run(0), [Read(1, PIPESIZE), Run(1)] + ([Read(2, 1), Run(2)] + ([Kill(0), Run(0)] + [])));
    FoldTwo(Scene(full, [], [Writer(addr, PIPESIZE, true), Idle, Idle], false), Read(1, PIPESIZE), Run(1),
            [Read(2, 1), Run(2)] + ([Kill(0), Run(0)] + []));
    FoldTwo(Scene(full, full, [Writer(addr, PIPESIZE, false), Idle, Idle], false), Read(2, 1), Run(2), [Kill(0), Run(0)] + []);
    FoldTwo(Scene(full, full, [Writer(addr, PIPESIZE, false), Idle, Reader(1, true)], false), Kill(0), Run(0), []);
  }
}

/** When log.c can panic: exactly when the superblock reserves too few blocks for the log, or when the
    cache has too few buffers for a full transaction. */
module LogSpace {
  import opened LogProtocol
  import opened LogSafety

  lemma {:induction false} ReservedAtLeast(ops: seq<Op>, i: nat)
    requires i < |ops| && forall k :: 0 <= k < |ops| ==> ops[k].used <= MAXOPBLOCKS
    ensures Reserved(ops) >= MAXOPBLOCKS - ops[i].used
  {
    ReservedBounds(ops[1..]);
    if i > 0 { ReservedAtLeast(ops[1..], i - 1); }
  }

  /** The dirty buffers are blocks of the transaction. */
  lemma {:induction false} TailSize(lh: Header, k: nat)
    requires k <= |lh|
    ensures |Tail(lh, k)| <= |lh| - k
    decreases |lh| - k
  {
    if k < |lh| {
      TailSize(lh, k + 1);
      assert Tail(lh, k) == Tail(lh, k + 1) + {lh[k]};
    } else {
      assert Tail(lh, k) == {};
    }
  }

  lemma Subset(a: set<nat>, b: set<nat>)
    requires a <= b
    ensures |a| <= |b|
  {
    assert b == a + (b - a);
  }

  /** No more buffers are dirty than the transaction has blocks. */
  lemma DirtyBound(g: Geometry, disk0: seq<Block>, s: State)
    requires Inv(g, disk0, s) && !s.mode.Panicked?
    ensures |s.cache| <= |s.lh| <= LOGSIZE
  {
    TailSize(s.lh, 0);
    Subset(s.cache.Keys, Tail(s.lh, 0));
    assert |s.cache| == |s.cache.Keys|;
  }

  /** While a commit copies to the log, exactly the blocks of the transaction are dirty. */
  lemma DirtyExact(g: Geometry, disk0: seq<Block>, s: State)
    requires Inv(g, disk0, s) && (s.mode.Running? || s.mode.Logging?)
    ensures |s.cache| == |s.lh|
  {
    DirtyBound(g, disk0, s);
    DistinctSize(s.lh, 0);
    forall x | x in Tail(s.lh, 0) ensures x in s.cache.Keys {}
    Subset(Tail(s.lh, 0), s.cache.Keys);
    assert |s.cache| == |s.cache.Keys|;
  }

  lemma {:induction false} DistinctSize(lh: Header, k: nat)
    requires k <= |lh| && forall i, j :: 0 <= i < j < |lh| ==> lh[i] != lh[j]
    ensures |Tail(lh, k)| == |lh| - k
    decreases |lh| - k
  {
    if k < |lh| {
      DistinctSize(lh, k + 1);
      TailStep(lh, k);
    } else {
      assert Tail(lh, k) == {};
    }
  }

  lemma ApplyNoPanic(g: Geometry, disk0: seq<Block>, s: State, a: Action)
    requires Inv(g, disk0, s) && s.mode != Panicked && g.size >= LOGSIZE + 1 && g.nbuf >= LOGSIZE + 1
    ensures Apply(g, s, a).mode != Panicked
  {
    DirtyBound(g, disk0, s);
    if a.LogWrite? && Enabled(g, s, a) {
      ReservedAtLeast(s.ops, FindOp(s.ops, a.id));
    }
  }

  /** With one block and one buffer more than LOGSIZE, no panic is reachable. */
  lemma {:induction false} NoPanic(g: Geometry, disk0: seq<Block>, run: seq<Action>)
    requires Formatted(g, disk0) && g.size >= LOGSIZE + 1 && g.nbuf >= LOGSIZE + 1
    ensures Exec(g, disk0, run).mode != Panicked
  {
    if run != [] {
      var p := run[..|run| - 1];
      NoPanic(g, disk0, p);
      Invariant(g, disk0, p);
      ApplyNoPanic(g, disk0, Exec(g, disk0, p), run[|run| - 1]);
    }
  }

  /** A commit finds the buffer it needs if and only if its blocks leave one clean; otherwise bget panics
      before anything is written. */
  lemma CommitFindsBufferIff(g: Geometry, disk0: seq<Block>, run: seq<Action>)
    requires Formatted(g, disk0) && Exec(g, disk0, run).mode == Logging(0)
    ensures var s := Exec(g, disk0, run);
            Apply(g, s, Tick).mode.Panicked? <==> |s.lh| >= g.nbuf
  {
    hide Inv, Exec, WriteBlock, ReadBlock, EncodeHead, DecodeHead, View;
    Invariant(g, disk0, run);
    DirtyExact(g, disk0, Exec(g, disk0, run));
  }

  // ---------------------------------------------------------------- a run that fills the log

  /** The i-th block outside the log area. */
  function HomeBlock(g: Geometry, i: nat): nat { if i < g.start then i else i + g.size }

  /** Boot, let three calls in, and let them log n different blocks, ten each. */
  function FillRun(g: Geometry, n: nat): seq<Action> {
    if n == 0 then [Tick, Tick, BeginOp(0), BeginOp(1), BeginOp(2)]
    else FillRun(g, n - 1) + [LogWrite((n - 1) / MAXOPBLOCKS, HomeBlock(g, n - 1), seq(WORDS, _ => 0))]
  }

  function Used(n: nat, id: nat): nat {
    if n <= id * MAXOPBLOCKS then 0 else if n - id * MAXOPBLOCKS >= MAXOPBLOCKS then MAXOPBLOCKS else n - id * MAXOPBLOCKS
  }

  function FillOps(n: nat): seq<Op> { [Op(0, Used(n, 0)), Op(1, Used(n, 1)), Op(2, Used(n, 2))] }

  lemma FillOpsNext(n: nat)
    requires n < LOGSIZE
    ensures var id := n / MAXOPBLOCKS; var ops := FillOps(n);
            0 <= id < |ops| && FindOp(ops, id) == id && ops[id].used < MAXOPBLOCKS
            && ops[id := Op(id, ops[id].used + 1)] == FillOps(n + 1)
  {
    var id := n / MAXOPBLOCKS;
    assert FillOps(n)[id].id == id && FillOps(n)[id].used == Used(n, id) == n % MAXOPBLOCKS;
  }

  ghost predicate Filled(g: Geometry, s: State, n: nat) {
    s.mode == Running && !s.committing && s.outstanding == 3
    && s.ops == FillOps(n)
    && |s.lh| == n == |s.cache| && (forall i :: 0 <= i < n ==> s.lh[i] == HomeBlock(g, i))
    && forall b :: b in s.cache ==> b in s.lh
  }

  lemma ExecSnoc(g: Geometry, disk0: seq<Block>, run: seq<Action>, a: Action)
    ensures Exec(g, disk0, run + [a]) == Apply(g, Exec(g, disk0, run), a)
  {
    assert (run + [a])[..|run|] == run;
  }

  lemma FillStart(g: Geometry, disk0: seq<Block>)
    requires Formatted(g, disk0)
    ensures Filled(g, Exec(g, disk0, FillRun(g, 0)), 0)
  {
    var r0: seq<Action> := [];
    ExecSnoc(g, disk0, r0, Tick);
    ExecSnoc(g, disk0, r0 + [Tick], Tick);
    ExecSnoc(g, disk0, r0 + [Tick] + [Tick], BeginOp(0));
    ExecSnoc(g, disk0, r0 + [Tick] + [Tick] + [BeginOp(0)], BeginOp(1));
    ExecSnoc(g, disk0, r0 + [Tick] + [Tick] + [BeginOp(0)] + [BeginOp(1)], BeginOp(2));
    assert FillRun(g, 0) == r0 + [Tick] + [Tick] + [BeginOp(0)] + [BeginOp(1)] + [BeginOp(2)];
    var s := Exec(g, disk0, r0 + [Tick] + [Tick]);
    assert s.mode == Running && s.ops == [] && s.history == [] && s.lh == [];
  }

  lemma FillStep(g: Geometry, s: State, n: nat, data: Block)
    requires g.Valid() && g.blocks >= g.size + LOGSIZE && Filled(g, s, n) && n < LOGSIZE
    ensures var a := LogWrite(n / MAXOPBLOCKS, HomeBlock(g, n), data);
            if n < g.size - 1 && n < g.nbuf then Filled(g, Apply(g, s, a), n + 1) else Apply(g, s, a).mode == Panicked
  {
    hide HomeBlock, FillOps, FindOp, Used, Mentions;
    FillOpsNext(n);
    NewBlock(g, s, n);
    var b := HomeBlock(g, n);
    assert s.cache[b := data].Keys == s.cache.Keys + {b};
  }

  lemma NewBlock(g: Geometry, s: State, n: nat)
    requires g.Valid() && g.blocks >= g.size + LOGSIZE && Filled(g, s, n) && n < LOGSIZE
    ensures g.Home(HomeBlock(g, n)) && HomeBlock(g, n) !in s.lh && HomeBlock(g, n) !in s.cache
  {
    hide FillOps;
  }

  lemma {:induction false} FillReaches(g: Geometry, disk0: seq<Block>, n: nat)
    requires Formatted(g, disk0) && g.blocks >= g.size + LOGSIZE && n <= LOGSIZE && n <= g.size - 1 && n <= g.nbuf
    ensures Filled(g, Exec(g, disk0, FillRun(g, n)), n)
  {
    if n == 0 {
      FillStart(g, disk0);
    } else {
      FillReaches(g, disk0, n - 1);
      var zero: Block := seq(WORDS, _ => 0);
      FillStep(g, Exec(g, disk0, FillRun(g, n - 1)), n - 1, zero);
      ExecSnoc(g, disk0, FillRun(g, n - 1), LogWrite((n - 1) / MAXOPBLOCKS, HomeBlock(g, n - 1), zero));
    }
  }

  /** One log_write more than there is room for, in the log or among the buffers. */
  lemma OneTooMany(g: Geometry, disk0: seq<Block>, n: nat)
    requires Formatted(g, disk0) && g.blocks >= g.size + LOGSIZE && n < LOGSIZE
    requires n <= g.size - 1 && n <= g.nbuf && (n == g.size - 1 || n == g.nbuf)
    ensures Exec(g, disk0, FillRun(g, n + 1)).mode == Panicked
  {
    FillReaches(g, disk0, n);
    var zero: Block := seq(WORDS, _ => 0);
    FillStep(g, Exec(g, disk0, FillRun(g, n)), n, zero);
    ExecSnoc(g, disk0, FillRun(g, n), LogWrite(n / MAXOPBLOCKS, HomeBlock(g, n), zero));
  }

  /** The file-system image of mkfs.c reserves LOGSIZE blocks, one too few: three calls that keep
      to their budget of MAXOPBLOCKS drive such a log (or a smaller one) into "too big a transaction". */
  lemma SmallLogPanics(g: Geometry, disk0: seq<Block>)
    requires Formatted(g, disk0) && g.blocks >= g.size + 30 && g.size <= 30 && g.size <= g.nbuf + 1
    ensures Exec(g, disk0, FillRun(g, g.size)).mode == Panicked
  {
    hide Exec, FillRun, Apply;
    OneTooMany(g, disk0, g.size - 1);
  }

  /** The three calls of FillRun leave, and the last one commits. */
  function CommitRun(g: Geometry, n: nat): seq<Action> {
    FillRun(g, n) + [EndOp(0)] + [EndOp(1)] + [EndOp(2)]
  }

  lemma CommitStarts(g: Geometry, disk0: seq<Block>, n: nat)
    requires Formatted(g, disk0) && g.blocks >= g.size + LOGSIZE && 0 < n <= LOGSIZE && n <= g.size - 1 && n <= g.nbuf
    ensures var s := Exec(g, disk0, CommitRun(g, n)); s.mode == Logging(0) && |s.lh| == n
  {
    FillReaches(g, disk0, n);
    ExecSnoc(g, disk0, FillRun(g, n), EndOp(0));
    ExecSnoc(g, disk0, FillRun(g, n) + [EndOp(0)], EndOp(1));
    ExecSnoc(g, disk0, FillRun(g, n) + [EndOp(0)] + [EndOp(1)], EndOp(2));
    EndThree(g, Exec(g, disk0, FillRun(g, n)), n);
  }

  lemma EndThree(g: Geometry, s: State, n: nat)
    requires Filled(g, s, n) && n > 0
    ensures var t := Apply(g, Apply(g, Apply(g, s, EndOp(0)), EndOp(1)), EndOp(2)); t.mode == Logging(0) && t.lh == s.lh
  {
    var s1 := Apply(g, s, EndOp(0));
    assert s1.ops == [Op(1, Used(n, 1)), Op(2, Used(n, 2))];
    var s2 := Apply(g, s1, EndOp(1));
    assert s2.ops == [Op(2, Used(n, 2))];
  }

  /** NBUF is LOGSIZE as well, one too few: with a log that is large enough, a full transaction pins every
      buffer, and the first bread of its commit panics. */
  lemma FullCommitPanics(g: Geometry, disk0: seq<Block>)
    requires Formatted(g, disk0) && g.blocks >= g.size + LOGSIZE && g.size >= 31 && g.nbuf == NBUF
    ensures NBUF == 30 && Exec(g, disk0, CommitRun(g, LOGSIZE) + [Tick]).mode == Panicked
  {
    CommitStarts(g, disk0, LOGSIZE);
    CommitFindsBufferIff(g, disk0, CommitRun(g, LOGSIZE));
    ExecSnoc(g, disk0, CommitRun(g, LOGSIZE), Tick);
  }

  /** Calls within their budget can bring about a panic if and only if the log has at most LOGSIZE blocks
      or the cache at most LOGSIZE buffers. */
  lemma PanicIffTooSmall(g: Geometry, disk0: seq<Block>)
    requires Formatted(g, disk0) && g.blocks >= g.size + LOGSIZE
    ensures (exists run :: Exec(g, disk0, run).mode == Panicked) <==> g.size <= 30 || g.nbuf <= 30
  {
    hide Exec, FillRun, CommitRun, Apply;
    var n := if g.size - 1 <= g.nbuf then g.size - 1 else g.nbuf;
    if n < LOGSIZE {
      OneTooMany(g, disk0, n);
    } else if g.nbuf == LOGSIZE {
      FullCommitPanics(g, disk0);
    } else {
      forall run ensures Exec(g, disk0, run).mode != Panicked { NoPanic(g, disk0, run); }
    }
  }
}

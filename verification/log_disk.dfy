/** log.c as it is written: fields updated in place, one synchronous block write at a time.
    Every method is proved to perform a run of LogProtocol, so what LogSafety proves about
    runs (and about a crash between any two of their actions) holds of this code. */
module LogDisk {
  import opened LogProtocol
  import opened LogSafety
  import opened LogSpace

  function Ticks(n: nat): seq<Action> { seq(n, _ => Tick) }

  lemma MoreTicks(run: seq<Action>, m: nat, n: nat)
    ensures run + Ticks(m) + Ticks(n) == run + Ticks(m + n)
    ensures Ticks(1) == [Tick]
  {}

  /** write_log's next block goes to the log area, which is never in the transaction. */
  lemma CopyTick(g: Geometry, disk0: seq<Block>, run: seq<Action>, s: State)
    requires Formatted(g, disk0) && s == Exec(g, disk0, run) && s.mode.Logging? && s.mode.k < |s.lh|
    ensures s.cache - {g.start + s.mode.k + 1} == s.cache
  {
    hide Exec, Formatted;
    RunHome(g, disk0, run, s);
  }

  lemma TickCopies(g: Geometry, s: State)
    requires s.mode.Logging? && s.mode.k < |s.lh| && !NoBuffer(g, s.cache)
    ensures Enabled(g, s, Tick)
    ensures DoTick(g, s) == s.(disk := WriteBlock(s.disk, g.start + s.mode.k + 1, View(s, s.lh[s.mode.k])),
                               mode := Logging(s.mode.k + 1))
  {}

  /** One turn of write_log in the machine. */
  lemma CopyTurn(g: Geometry, disk0: seq<Block>, run: seq<Action>, s: State, k: nat)
    requires Formatted(g, disk0) && s == Exec(g, disk0, run) && s.mode == Logging(k) && k < |s.lh| && |s.cache| < g.nbuf
    ensures Enabled(g, s, Tick)
    ensures var t := DoTick(g, s); var l := g.start + k + 1;
            t.disk == WriteBlock(s.disk, l, View(s, s.lh[k])) && t.cache == s.cache == s.cache - {l}
            && t.mode == Logging(k + 1) && t.lh == s.lh && t.outstanding == s.outstanding
            && t.committing == s.committing && t.history == s.history
  {
    hide Exec, Formatted, DoTick, WriteBlock, View, Enabled;
    CopyTick(g, disk0, run, s);
    TickCopies(g, s);
  }

  lemma TickInstalls(g: Geometry, s: State)
    requires s.mode.Installing? || s.mode.Reinstalling?
    requires s.mode.k < |s.lh| && (s.mode.Installing? ==> !NoBuffer(g, s.cache))
    ensures Enabled(g, s, Tick)
    ensures var t := DoTick(g, s);
            t.disk == WriteBlock(s.disk, s.lh[s.mode.k], ReadBlock(s.disk, g.start + s.mode.k + 1))
            && t.cache == (if s.mode.Installing? then s.cache - {s.lh[s.mode.k]} else s.cache)
            && t.mode == (if s.mode.Installing? then Installing(s.mode.k + 1) else Reinstalling(s.mode.k + 1))
            && t == s.(disk := t.disk, cache := t.cache, mode := t.mode)
  {}

  lemma CacheIsHome(g: Geometry, disk0: seq<Block>, s: State)
    requires Inv(g, disk0, s) && !s.mode.Panicked?
    ensures forall b :: b in s.cache ==> g.Home(b)
    ensures g.Valid() && |s.lh| < g.size
  {
    forall b | b in s.cache ensures g.Home(b) {
      assert b in Tail(s.lh, 0);
    }
  }

  /** install_trans reads a log block, which is clean, and writes a block of the transaction. */
  lemma InstallTick(g: Geometry, disk0: seq<Block>, run: seq<Action>, s: State)
    requires Formatted(g, disk0) && s == Exec(g, disk0, run)
    requires (s.mode.Installing? || s.mode.Reinstalling?) && s.mode.k < |s.lh|
    ensures View(s, g.start + s.mode.k + 1) == ReadBlock(s.disk, g.start + s.mode.k + 1)
    ensures s.mode.Reinstalling? ==> s.cache - {s.lh[s.mode.k]} == s.cache
    ensures s.mode.Installing? ==> !NoBuffer(g, s.cache)
  {
    hide Exec, NoBuffer, Formatted;
    RunHome(g, disk0, run, s);
  }

  /** Only home blocks are ever dirty, none at all in recovery; and an installation finds its buffer. */
  lemma RunHome(g: Geometry, disk0: seq<Block>, run: seq<Action>, s: State)
    requires Formatted(g, disk0) && s == Exec(g, disk0, run) && !s.mode.Panicked?
    ensures (forall b :: b in s.cache ==> g.Home(b)) && |s.lh| < g.size
    ensures s.mode.Reinstalling? ==> s.cache == map[]
    ensures s.mode.Installing? ==> !NoBuffer(g, s.cache)
  {
    hide Exec, Replay, Recoverable, OpsInv, GoodHeader;
    Invariant(g, disk0, run);
    CacheIsHome(g, disk0, s);
  }

  /** The header block is not in the cache when it is read or written. */
  lemma HeadTick(g: Geometry, disk0: seq<Block>, run: seq<Action>, s: State)
    requires Formatted(g, disk0) && s == Exec(g, disk0, run) && !s.mode.Panicked?
    ensures s.cache - {g.start} == s.cache && View(s, g.start) == ReadBlock(s.disk, g.start)
    ensures s.mode.Booting? ==> |s.disk| == g.blocks && s.disk[g.start][0] <= LOGSIZE
    ensures s.mode.Installing? ==> !NoBuffer(g, s.cache)
  {
    Invariant(g, disk0, run);
    CacheIsHome(g, disk0, s);
  }

  /** Outside of installing, the dirty buffers are as many as the blocks of the transaction. */
  lemma DirtyCount(g: Geometry, disk0: seq<Block>, run: seq<Action>, s: State)
    requires Formatted(g, disk0) && s == Exec(g, disk0, run) && (s.mode.Running? || s.mode.Logging?)
    ensures |s.cache| == |s.lh|
  {
    Invariant(g, disk0, run);
    DirtyExact(g, disk0, s);
  }

  /** A call within its budget leaves room for its next block. */
  lemma WriteHasRoom(g: Geometry, disk0: seq<Block>, run: seq<Action>, s: State, id: nat)
    requires Formatted(g, disk0) && s == Exec(g, disk0, run) && !s.mode.Panicked?
    requires FindOp(s.ops, id) < |s.ops| && s.ops[FindOp(s.ops, id)].used < MAXOPBLOCKS
    ensures |s.cache| <= |s.lh| < LOGSIZE && s.outstanding >= 1
  {
    Invariant(g, disk0, run);
    DirtyBound(g, disk0, s);
    ReservedAtLeast(s.ops, FindOp(s.ops, id));
  }

  // ---------------------------------------------------------------- where the blocks go

  /** Block i of the header lies, as it is in the cache or on the disk, i places behind the first log block. */
  ghost predicate CopiedAt(g: Geometry, a: seq<Block>, cache: map<nat, Block>, b: seq<Block>, lh: seq<nat>, i: nat)
    requires i < |lh|
  {
    var l := g.start + 1 + i;
    l < |b| && lh[i] < |a| && b[l] == if lh[i] in cache then cache[lh[i]] else a[lh[i]]
  }

  /** So do the first k, and nothing else has changed. */
  ghost predicate LogCopied(g: Geometry, a: seq<Block>, cache: map<nat, Block>, b: seq<Block>, lh: seq<nat>, k: nat) {
    && |b| == |a| && k <= |lh| && (forall i :: 0 <= i < k ==> CopiedAt(g, a, cache, b, lh, i))
    && forall j :: 0 <= j < |a| && !(g.start < j <= g.start + k) ==> b[j] == a[j]
  }

  /** Block i of the header has the contents of its log block. */
  ghost predicate InstalledAt(g: Geometry, a: seq<Block>, b: seq<Block>, lh: seq<nat>, i: nat)
    requires i < |lh|
  {
    var l := g.start + 1 + i;
    l < |a| && lh[i] < |b| && b[lh[i]] == a[l]
  }

  /** So have the first k, and nothing else has changed. */
  ghost predicate LogInstalled(g: Geometry, a: seq<Block>, b: seq<Block>, lh: seq<nat>, k: nat) {
    && |b| == |a| && k <= |lh| && (forall i :: 0 <= i < k ==> InstalledAt(g, a, b, lh, i))
    && forall j :: 0 <= j < |a| && j !in lh[..k] ==> b[j] == a[j]
  }

  /** The header block says how many blocks there are, and which. */
  ghost predicate HeaderIs(g: Geometry, a: seq<Block>, b: seq<Block>, lh: seq<nat>) {
    && |b| == |a| && g.start < |b| && |lh| <= 30
    && b[g.start][0] == |lh| && (forall i :: 0 <= i < |lh| ==> b[g.start][1 + i] == lh[i])
    && forall j :: 0 <= j < |a| && j != g.start ==> b[j] == a[j]
  }

  lemma LogCopiedNext(g: Geometry, a: seq<Block>, cache: map<nat, Block>, b: seq<Block>, lh: seq<nat>, k: nat)
    requires LogCopied(g, a, cache, b, lh, k) && k < |lh| && lh[k] < |a| && g.Home(lh[k]) && |lh| < g.size && g.start + g.size <= |a|
    ensures LogCopied(g, a, cache,
                      WriteBlock(b, g.start + k + 1, if lh[k] in cache then cache[lh[k]] else ReadBlock(b, lh[k])), lh, k + 1)
  {
    assert b[lh[k]] == a[lh[k]];
    var d := WriteBlock(b, g.start + k + 1, if lh[k] in cache then cache[lh[k]] else ReadBlock(b, lh[k]));
    forall i | 0 <= i < k + 1 ensures CopiedAt(g, a, cache, d, lh, i) {
      if i < k { assert CopiedAt(g, a, cache, b, lh, i); }
    }
  }

  lemma LogInstalledNext(g: Geometry, a: seq<Block>, b: seq<Block>, lh: seq<nat>, k: nat)
    requires LogInstalled(g, a, b, lh, k) && k < |lh| && lh[k] < |a| && |lh| < g.size && g.start + g.size <= |a|
    requires forall i :: 0 <= i < |lh| ==> g.Home(lh[i]) && (i != k ==> lh[i] != lh[k])
    ensures LogInstalled(g, a, WriteBlock(b, lh[k], ReadBlock(b, g.start + k + 1)), lh, k + 1)
  {
    LogNotHome(g, lh, k);
    assert lh[..k + 1] == lh[..k] + [lh[k]];
    var d := WriteBlock(b, lh[k], ReadBlock(b, g.start + k + 1));
    forall i | 0 <= i < k + 1 ensures InstalledAt(g, a, d, lh, i) {
      if i < k { assert InstalledAt(g, a, b, lh, i); }
    }
  }

  lemma LogNotHome(g: Geometry, lh: seq<nat>, k: nat)
    requires k < |lh| < g.size && forall i :: 0 <= i < |lh| ==> g.Home(lh[i])
    ensures g.start + k + 1 !in lh[..k]
  {
    forall i | 0 <= i < k ensures lh[..k][i] != g.start + k + 1 { assert g.Home(lh[i]); }
  }

  lemma HeaderWritten(g: Geometry, a: seq<Block>, lh: Header)
    requires g.start < |a|
    ensures HeaderIs(g, a, WriteBlock(a, g.start, EncodeHead(ReadBlock(a, g.start), lh)), lh)
  {}

  /** The blocks of a transaction are different home blocks, and the log has room for them. */
  lemma HeaderFacts(g: Geometry, disk0: seq<Block>, run: seq<Action>, s: State)
    requires Formatted(g, disk0) && s == Exec(g, disk0, run) && !s.mode.Panicked?
    ensures |s.lh| < g.size && g.start + g.size <= |s.disk| == g.blocks
    ensures forall i :: 0 <= i < |s.lh| ==> g.Home(s.lh[i]) && s.lh[i] < |s.disk|
    ensures forall i, j :: 0 <= i < |s.lh| && 0 <= j < |s.lh| && i != j ==> s.lh[i] != s.lh[j]
  {
    Invariant(g, disk0, run);
  }

  lemma RunningFacts(g: Geometry, disk0: seq<Block>, run: seq<Action>, s: State)
    requires Formatted(g, disk0) && s == Exec(g, disk0, run) && !s.mode.Panicked?
    ensures s.committing ==> !s.mode.Running? && s.ops == []
    ensures s.ops != [] ==> s.mode.Running?
    ensures s.outstanding == |s.ops|
  {
    Invariant(g, disk0, run);
  }

  lemma FinishTick(g: Geometry, s: State)
    requires s.mode.Finishing?
    ensures DoTick(g, s) == s.(committing := false, mode := Running, durable := |s.history|) && Enabled(g, s, Tick)
  {}

  lemma NothingYet(g: Geometry, disk: seq<Block>, cache: map<nat, Block>, lh: seq<nat>)
    ensures LogCopied(g, disk, cache, disk, lh, 0) && LogInstalled(g, disk, disk, lh, 0)
  {}

  class Log {
    const g: Geometry
    var disk: seq<Block>
    var cache: map<nat, Block>   // dirty buffers; every other bread comes from the disk
    var n: nat                   // lh.n
    const block: array<nat>      // lh.block
    var outstanding: int
    var committing: bool

    ghost const disk0: seq<Block>
    ghost var run: seq<Action>   // what has happened since the disk was formatted
    ghost var machine: State     // the state of the protocol after `run`

    /** All that Bwrite needs: in the middle of write_head the header in memory is ahead of the machine's. */
    ghost predicate Tracks()
      reads this
    {
      Formatted(g, disk0) && machine == Exec(g, disk0, run) && disk == machine.disk && cache == machine.cache
    }

    ghost predicate Valid()
      reads this, block
    {
      Tracks() && block.Length == LOGSIZE && n <= LOGSIZE && machine.lh == block[..n]
      && machine.outstanding == outstanding && machine.committing == committing
    }

    function Bread(b: nat): Block
      reads this
    {
      if b in cache then cache[b] else ReadBlock(disk, b)
    }

    constructor (g: Geometry, disk: seq<Block>)
      requires Formatted(g, disk)
      ensures this.g == g && this.disk == disk0 == disk && run == []
      ensures Tracks() && block.Length == LOGSIZE && machine.mode == Booting
      ensures machine.outstanding == outstanding && machine.committing == committing
    {
      this.g, this.disk, this.disk0 := g, disk, disk;
      cache, n, outstanding, committing := map[], 0, 0, false;
      block := new nat[LOGSIZE];
      run, machine := [], Boot(disk);
    }

    /** The only statement that changes the disk: bwrite of one block (iderw clears B_DIRTY).
        The disk before and after is the machine's, so a crash here is a crash of the machine. */
    method Bwrite(b: nat, data: Block)
      requires Tracks() && Enabled(g, machine, Tick)
      requires DoTick(g, machine).disk == WriteBlock(disk, b, data)
      requires DoTick(g, machine).cache == cache - {b}
      modifies this`disk, this`cache, this`run, this`machine
      ensures Tracks() && run == old(run) + [Tick] && machine == DoTick(g, old(machine))
    {
      disk := WriteBlock(disk, b, data);
      cache := cache - {b};
      ExecSnoc(g, disk0, run, Tick);
      run := run + [Tick];
      machine := DoTick(g, machine);
    }

    /** bget for a block that is not dirty: it panics when all buffers are dirty. */
    method NeedBuffer() returns (panic: bool)
      requires Valid() && machine.mode.Logging?
      modifies this`run, this`machine
      ensures Valid() && panic == (|cache| >= g.nbuf)
      ensures if panic then run == old(run) + [Tick] && machine == old(machine).(mode := Panicked)
              else run == old(run) && machine == old(machine)
    {
      panic := |cache| >= g.nbuf;
      if panic {
        ExecSnoc(g, disk0, run, Tick);
        run, machine := run + [Tick], DoTick(g, machine);
      }
    }

    lemma BreadIsView(b: nat)
      requires Tracks()
      ensures Bread(b) == View(machine, b)
    {}

    /** One turn of the loop of write_log. */
    method CopyToLog(tail: nat)
      requires Valid() && tail < n && machine.mode == Logging(tail) && |cache| < g.nbuf
      modifies this`disk, this`cache, this`run, this`machine
      ensures Valid() && machine.mode == Logging(tail + 1) && cache == old(cache) && run == old(run) + [Tick]
      ensures disk == WriteBlock(old(disk), g.start + tail + 1, old(Bread(block[tail]))) && machine.history == old(machine.history)
    {
      hide Exec, DoTick, Enabled, Formatted, WriteBlock, ReadBlock, View;
      var data := Bread(block[tail]);
      BreadIsView(block[tail]);
      CopyTurn(g, disk0, run, machine, tail);
      Bwrite(g.start + tail + 1, data);
    }

    /** When all buffers are dirty already, the first bread of a log block panics and nothing is written. */
    method WriteLog() returns (panic: bool)
      requires Valid() && machine.mode == Logging(0) && n > 0
      modifies this`disk, this`cache, this`run, this`machine
      ensures Valid() && panic == (|old(cache)| >= g.nbuf)
      ensures panic ==> machine.mode.Panicked? && run == old(run) + [Tick] && disk == old(disk)
      ensures !panic ==> machine.mode == Logging(n) && run == old(run) + Ticks(n) && cache == old(cache)
      ensures !panic ==> LogCopied(g, old(disk), cache, disk, block[..n], n) && machine.history == old(machine.history)
    {
      hide Exec, Formatted, DoTick, LogCopied;
      var tail := 0;
      ghost var lh := block[..n];
      HeaderFacts(g, disk0, run, machine);
      NothingYet(g, disk, cache, lh);
      while tail < n
        invariant tail <= n && Valid() && machine.mode == Logging(tail) && cache == old(cache)
        invariant tail > 0 ==> |cache| < g.nbuf
        invariant tail == 0 ==> disk == old(disk)
        invariant LogCopied(g, old(disk), cache, disk, lh, tail) && machine.history == old(machine.history)
        invariant run == old(run) + Ticks(tail)
      {
        panic := NeedBuffer();
        if panic { return; }
        MoreTicks(old(run), tail, 1);
        LogCopiedNext(g, old(disk), cache, disk, lh, tail);
        CopyToLog(tail);
        tail := tail + 1;
      }
      panic := false;
    }

    /** One turn of the loop of install_trans. */
    method InstallBlock(tail: nat)
      requires Valid() && tail < n && (machine.mode == Installing(tail) || machine.mode == Reinstalling(tail))
      modifies this`disk, this`cache, this`run, this`machine
      ensures Valid() && machine.history == old(machine.history) && run == old(run) + [Tick]
      ensures machine.mode == if old(machine.mode).Installing? then Installing(tail + 1) else Reinstalling(tail + 1)
      ensures disk == WriteBlock(old(disk), block[tail], ReadBlock(old(disk), g.start + tail + 1))
    {
      hide Exec, DoTick, Enabled, Formatted, WriteBlock, ReadBlock, NoBuffer;
      assert machine.lh[tail] == block[tail];
      var lbuf := Bread(g.start + tail + 1);
      assert lbuf == ReadBlock(disk, g.start + tail + 1) by { InstallTick(g, disk0, run, machine); }
      InstallTick(g, disk0, run, machine);
      TickInstalls(g, machine);
      Bwrite(block[tail], lbuf);
    }

    method InstallTrans()
      requires Valid() && (machine.mode == Installing(0) || machine.mode == Reinstalling(0))
      modifies this`disk, this`cache, this`run, this`machine
      ensures Valid()
      ensures machine.mode == if old(machine.mode).Installing? then Installing(n) else Reinstalling(n)
      ensures machine.history == old(machine.history)
      ensures run == old(run) + Ticks(n)
      ensures LogInstalled(g, old(disk), disk, block[..n], n)
    {
      hide Exec, Formatted, DoTick, LogInstalled;
      var tail := 0;
      ghost var lh := block[..n];
      HeaderFacts(g, disk0, run, machine);
      NothingYet(g, disk, cache, lh);
      while tail < n
        invariant tail <= n && Valid()
        invariant machine.mode == if old(machine.mode).Installing? then Installing(tail) else Reinstalling(tail)
        invariant machine.history == old(machine.history)
        invariant run == old(run) + Ticks(tail)
        invariant LogInstalled(g, old(disk), disk, lh, tail)
      {
        MoreTicks(old(run), tail, 1);
        LogInstalledNext(g, old(disk), disk, lh, tail);
        InstallBlock(tail);
        tail := tail + 1;
      }
    }

    /** The loop of write_head copies lh.block into the header buffer, word by word. */
    method FillHead(buf: Block) returns (hb: Block)
      requires block.Length == LOGSIZE && n <= LOGSIZE
      ensures hb == EncodeHead(buf, block[..n])
      ensures hb[0] == n && (forall i :: 0 <= i < n ==> hb[1 + i] == block[i]) && hb[n + 1..] == buf[n + 1..]
    {
      hb := buf[0 := n];
      var i := 0;
      while i < n
        invariant i <= n && hb == [n] + block[..i] + buf[i + 1..]
      {
        hb := hb[1 + i := block[i]];
        i := i + 1;
      }
    }

    /** Writing the header: the commit point when n > 0 after WriteLog, the end of it when n == 0. */
    method WriteHead()
      requires Tracks() && block.Length == LOGSIZE && n <= LOGSIZE
      requires machine.outstanding == outstanding && machine.committing == committing
      requires (machine.mode == Logging(|machine.lh|) && machine.lh == block[..n] && |cache| < g.nbuf)
        || (n == 0 && (machine.mode == Installing(|machine.lh|) || machine.mode == Reinstalling(|machine.lh|)))
      modifies this`disk, this`cache, this`run, this`machine
      ensures Valid() && run == old(run) + [Tick]
      ensures machine.history == old(machine.history)
      ensures machine.mode == if old(machine.mode).Logging? then Installing(0)
                              else if old(machine.mode).Installing? then Finishing else Running
      ensures HeaderIs(g, old(disk), disk, block[..n])
    {
      HeaderFacts(g, disk0, run, machine);
      HeaderWritten(g, disk, block[..n]);
      HeadTick(g, disk0, run, machine);
      var hb := FillHead(Bread(g.start));
      Bwrite(g.start, hb);
    }

    /** Panics exactly if the transaction pins all buffers; then nothing has been written. */
    method Commit() returns (panic: bool)
      requires Valid() && machine.mode == (if n > 0 then Logging(0) else Finishing)
      modifies this`disk, this`cache, this`n, this`run, this`machine
      ensures Valid() && panic == (old(n) > 0 && old(n) >= g.nbuf)
      ensures panic ==> machine.mode.Panicked? && run == old(run) + [Tick] && disk == old(disk)
      ensures !panic ==>
        machine.mode == Finishing && run == old(run) + Ticks(if old(n) > 0 then 2 * old(n) + 2 else 0)
      ensures !panic ==> machine.history == old(machine.history)
    {
      hide Exec, LogCopied, LogInstalled, HeaderIs, DoTick, Formatted, Replay, SameHome;
      panic := false;
      if n > 0 {
        DirtyCount(g, disk0, run, machine);
        panic := WriteLog();
        if panic { return; }
        MoreTicks(old(run), n, 1);
        WriteHead();
        MoreTicks(old(run), n + 1, n);
        InstallTrans();
        MoreTicks(old(run), 2 * n + 1, 1);
        n := 0;
        WriteHead();
      }
    }

    /** The loop of read_head, the other way. */
    method LoadHead(head: Block)
      requires block.Length == LOGSIZE && head[0] <= LOGSIZE
      modifies this`n, block
      ensures n == head[0] && block[..n] == DecodeHead(head) && forall i :: 0 <= i < n ==> block[i] == head[1 + i]
    {
      n := head[0];
      var i := 0;
      while i < n
        invariant i <= n <= LOGSIZE && forall k :: 0 <= k < i ==> block[k] == head[1 + k]
        modifies block
      {
        block[i] := head[1 + i];
        i := i + 1;
      }
    }

    method ReadHead()
      requires Tracks() && block.Length == LOGSIZE && machine.mode == Booting
      requires machine.outstanding == outstanding && machine.committing == committing
      modifies this`n, this`run, this`machine, block
      ensures Valid() && machine.mode == Reinstalling(0)
      ensures run == old(run) + [Tick] && machine.history == old(machine.history)
      ensures g.start < |disk| && n == disk[g.start][0] && forall i :: 0 <= i < n ==> block[i] == disk[g.start][1 + i]
    {
      hide Exec;
      HeadTick(g, disk0, run, machine);
      LoadHead(Bread(g.start));
      ExecSnoc(g, disk0, run, Tick);
      run, machine := run + [Tick], DoTick(g, machine);
    }

    /** initlog: whatever the log holds is installed, and the log is cleared. */
    method RecoverFromLog()
      requires Tracks() && block.Length == LOGSIZE && machine.mode == Booting
      requires machine.outstanding == outstanding && machine.committing == committing
      modifies this`disk, this`cache, this`n, this`run, this`machine, block
      ensures Valid() && machine.mode == Running && n == 0
      ensures SameHome(g, disk, Replay(disk0, machine.history)) && machine.history == old(machine.history)
    {
      hide Exec;
      RunningFacts(g, disk0, run, machine);
      ReadHead();
      InstallTrans();
      n := 0;
      WriteHead();
      RunningFacts(g, disk0, run, machine);
      QuietIsDurable(g, disk0, run);
    }

    /** A call that must wait (begin_op sleeps) is not let in, and changes nothing. */
    method BeginOp(id: nat) returns (entered: bool)
      requires Valid() && !Mentions(machine.history, id)
      requires machine.mode.Running? || (machine.committing && !machine.mode.Panicked?)
      modifies this`outstanding, this`run, this`machine
      ensures Valid() && run == old(run) + [Action.BeginOp(id)]
      ensures entered <==> !committing && n + (old(outstanding) + 1) * 10 <= 30
      ensures machine.history == old(machine.history) + if entered then [Begin(id)] else []
      ensures outstanding == old(outstanding) + if entered then 1 else 0
    {
      RunningFacts(g, disk0, run, machine);
      ExecSnoc(g, disk0, run, Action.BeginOp(id));
      run, machine := run + [Action.BeginOp(id)], Apply(g, machine, Action.BeginOp(id));
      if committing || n + (outstanding + 1) * MAXOPBLOCKS > LOGSIZE {
        entered := false;
      } else {
        outstanding := outstanding + 1;
        entered := true;
      }
    }

    /** The block number goes into the in-memory header, unless it is there (log absorption). */
    method Record(b: nat)
      requires block.Length == LOGSIZE && n < LOGSIZE
      modifies this`n, block
      ensures n <= LOGSIZE && block[..n] == Absorb(old(block[..n]), b)
      ensures b in block[..n] && old(n) <= n <= old(n) + 1
    {
      var i := 0;
      while i < n && block[i] != b
        invariant i <= n && b !in block[..i]
      {
        i := i + 1;
      }
      block[i] := b;
      if i == n { n := n + 1; }
      assert b in block[..n];
    }

    /** The caller's bread, and log_write; the data passed is what the caller has put into the buffer. */
    method LogWrite(id: nat, b: nat, data: Block) returns (panic: bool)
      requires Valid() && Enabled(g, machine, Action.LogWrite(id, b, data))
      modifies this`n, this`cache, this`run, this`machine, block
      ensures Valid() && run == old(run) + [Action.LogWrite(id, b, data)]
      ensures panic <==> machine.mode.Panicked?
      ensures g.size >= 31 && g.nbuf >= 30 ==> !panic
      ensures !panic ==> Bread(b) == data && b in block[..n] && old(n) <= n <= old(n) + 1
      ensures !panic ==> machine.history == old(machine.history) + [Write(id, b, data)] && disk == old(disk)
      ensures forall c: nat :: c != b ==> Bread(c) == old(Bread(c))
    {
      ghost var s := machine;
      ExecSnoc(g, disk0, run, Action.LogWrite(id, b, data));
      run, machine := run + [Action.LogWrite(id, b, data)], DoLogWrite(g, machine, id, b, data);
      WriteHasRoom(g, disk0, old(run), s, id);
      if b !in cache && |cache| >= g.nbuf { return true; }
      if n >= LOGSIZE || n >= g.size - 1 { return true; }
      if outstanding < 1 { return true; }
      Record(b);
      cache := cache[b := data];
      panic := false;
    }

    /** The last call out commits; nobody is let in before the commit is over. It panics exactly if it
        commits a transaction that pins all buffers; the disk is then as before. */
    method EndOp(id: nat) returns (panic: bool)
      requires Valid() && Enabled(g, machine, Action.EndOp(id))
      modifies this`outstanding, this`committing, this`disk, this`cache, this`n, this`run, this`machine
      ensures Valid() && outstanding == old(outstanding) - 1
      ensures panic == (outstanding == 0 && 0 < old(n) && old(n) >= g.nbuf)
      ensures panic ==> machine.mode.Panicked? && disk == old(disk) && run == old(run) + [Action.EndOp(id)] + [Tick]
      ensures !panic ==>
        machine.mode.Running?
        && run == old(run) + [Action.EndOp(id)]
             + Ticks(if old(outstanding) > 1 then 0 else if old(n) > 0 then 2 * old(n) + 3 else 1)
      ensures !panic ==> machine.history == old(machine.history) + [End(id)]
      ensures !panic && outstanding == 0 ==>
        machine.durable == |machine.history| && SameHome(g, disk, Replay(disk0, machine.history))
    {
      hide Exec, DoWrite, Formatted, Replay, SameHome, Mentions, FindOp;
      RunningFacts(g, disk0, run, machine);
      ExecSnoc(g, disk0, run, Action.EndOp(id));
      run, machine := run + [Action.EndOp(id)], DoEnd(machine, id);
      outstanding := outstanding - 1;
      if committing { return true; }
      panic := false;
      var doCommit := outstanding == 0;
      if doCommit {
        committing := true;
        panic := Commit();
        if panic { return; }
        ExecSnoc(g, disk0, run, Tick);
        FinishTick(g, machine);
        run, machine := run + [Tick], DoTick(g, machine);
        committing := false;
      }
      QuietIsDurable(g, disk0, run);
    }

    /** A crash, and the reboot: memory is as after the start, and the disk as it was. */
    method Reboot()
      requires Tracks() && block.Length == LOGSIZE
      modifies this`cache, this`n, this`outstanding, this`committing, this`run, this`machine
      ensures Tracks() && run == old(run) + [Crash] && machine == DoCrash(old(machine)) && disk == old(disk)
      ensures machine.mode == Booting && machine.outstanding == outstanding && machine.committing == committing
    {
      hide Exec, Formatted;
      ExecSnoc(g, disk0, run, Crash);
      assert Enabled(g, machine, Crash);
      cache, n, outstanding, committing := map[], 0, 0, false;
      run, machine := run + [Crash], DoCrash(machine);
    }

    /** The next boot after a crash between any two actions of any run, in the middle of a commit for
        instance: all it has is the disk that the run left behind. */
    constructor AfterCrash(g: Geometry, disk: seq<Block>, ghost disk0: seq<Block>, ghost run: seq<Action>)
      requires Formatted(g, disk0) && disk == Exec(g, disk0, run).disk
      ensures this.g == g && this.disk == disk && this.disk0 == disk0 && this.run == run + [Crash]
      ensures Tracks() && block.Length == LOGSIZE && machine == DoCrash(Exec(g, disk0, run)) && machine.mode == Booting
      ensures machine.outstanding == outstanding && machine.committing == committing
    {
      this.g, this.disk, this.disk0 := g, disk, disk0;
      cache, n, outstanding, committing := map[], 0, 0, false;
      block := new nat[LOGSIZE];
      this.run, machine := run + [Crash], DoCrash(Exec(g, disk0, run));
      new;
      ExecSnoc(g, disk0, run, Crash);
    }
  }
}

/** Crash atomicity of the redo log, over every run of LogProtocol. */
module LogSafety {
  import opened LogProtocol

  // ---------------------------------------------------------------- the invariant

  ghost predicate GoodHeader(g: Geometry, lh: Header) {
    |lh| < g.size && (forall i :: 0 <= i < |lh| ==> g.Home(lh[i]))
    && forall i, j :: 0 <= i < j < |lh| ==> lh[i] != lh[j]
  }

  /** The logged block numbers from position k on. */
  function Tail(lh: Header, k: nat): set<nat> { set j | k <= j < |lh| :: lh[j] }

  /** The log blocks hold what `target` has at the logged block numbers. */
  ghost predicate Slots(g: Geometry, disk: seq<Block>, lh: Header, n: nat, target: seq<Block>)
    requires g.Valid() && |disk| == |target| == g.blocks && GoodHeader(g, lh) && n <= |lh|
  {
    forall j :: 0 <= j < n ==> disk[g.start + 1 + j] == target[lh[j]]
  }

  /** Every home block that is not in `pending` already has its contents in `target`. */
  ghost predicate HomeExcept(g: Geometry, disk: seq<Block>, pending: set<nat>, target: seq<Block>)
    requires |disk| == |target| == g.blocks
  {
    forall b :: 0 <= b < g.blocks && g.Home(b) && b !in pending ==> disk[b] == target[b]
  }

  /** What the disk must look like for recovery to produce `target`. */
  ghost predicate Recoverable(g: Geometry, disk: seq<Block>, target: seq<Block>) {
    g.Valid() && |disk| == |target| == g.blocks && disk[g.start][0] <= LOGSIZE
    && var lh := DecodeHead(disk[g.start]);
       GoodHeader(g, lh) && Slots(g, disk, lh, |lh|, target) && HomeExcept(g, disk, Tail(lh, 0), target)
  }

  ghost predicate Distinct(ops: seq<Op>) {
    forall i, j :: 0 <= i < j < |ops| ==> ops[i].id != ops[j].id
  }

  function Ids(ops: seq<Op>): set<nat> { set i | 0 <= i < |ops| :: ops[i].id }

  /** The bookkeeping of calls: who is inside, and that no call straddles the durable cut. */
  ghost predicate OpsInv(s: State) {
    && s.durable <= |s.history| && AllOrNothing(s.history, s.durable) && Open(s.history[..s.durable]) == {}
    && s.outstanding == |s.ops| && Distinct(s.ops) && Open(s.history) == Ids(s.ops)
    && (forall i :: 0 <= i < |s.ops| ==> s.ops[i].used <= MAXOPBLOCKS)
    && (forall i :: 0 <= i < |s.ops| ==> !Mentions(s.history[..s.durable], s.ops[i].id))
  }

  ghost predicate LogInv(g: Geometry, s: State, cur: seq<Block>)
    requires g.Valid() && |s.disk| == |cur| == g.blocks && s.durable <= |s.history|
  {
    && GoodHeader(g, s.lh)
    && |s.lh| + Reserved(s.ops) <= LOGSIZE
    && (s.committing <==> s.mode.Logging? || s.mode.Installing? || s.mode.Finishing?)
    && (!s.mode.Running? ==> s.ops == [])
    && s.cache.Keys <= Tail(s.lh, 0)
    && match s.mode
       case Running => Unlogged(g, s.disk, s.cache, s.lh, cur) && (s.ops == [] ==> s.lh == [] && s.durable == |s.history|)
       case Logging(k) => Unlogged(g, s.disk, s.cache, s.lh, cur) && k <= |s.lh| && Slots(g, s.disk, s.lh, k, cur)
       case Installing(k) => Replaying(g, s.disk, s.cache, s.lh, k, cur) && s.durable == |s.history|
         && Pinned(s.cache, s.lh, k, cur) && !NoBuffer(g, s.cache)
       case Finishing => Settled(g, s.disk, s.cache, s.lh, cur)
       case Booting => s.cache == map[] && s.lh == [] && s.durable == |s.history|
       case Reinstalling(k) => Replaying(g, s.disk, s.cache, s.lh, k, cur) && s.durable == |s.history| && s.cache == map[]
       case Overrun => false
       case Panicked => true
  }

  /** The header on disk is empty, and what bread returns is everything logged so far. */
  ghost predicate Unlogged(g: Geometry, disk: seq<Block>, cache: map<nat, Block>, lh: Header, cur: seq<Block>)
    requires g.Valid() && |disk| == |cur| == g.blocks && GoodHeader(g, lh)
  {
    disk[g.start][0] == 0
    && (forall j :: 0 <= j < |lh| ==> lh[j] in cache && cache[lh[j]] == cur[lh[j]])
    && HomeExcept(g, disk, Tail(lh, 0), cur)
  }

  /** The header on disk lists the transaction, and its first k blocks are in place. */
  ghost predicate Replaying(g: Geometry, disk: seq<Block>, cache: map<nat, Block>, lh: Header, k: nat, cur: seq<Block>)
    requires g.Valid() && |disk| == |cur| == g.blocks && GoodHeader(g, lh)
  {
    k <= |lh| && disk[g.start][0] <= LOGSIZE && DecodeHead(disk[g.start]) == lh
    && Slots(g, disk, lh, |lh|, cur) && HomeExcept(g, disk, Tail(lh, k), cur)
    && cache.Keys <= Tail(lh, k)
  }

  /** The blocks not yet installed are still pinned in the cache. */
  ghost predicate Pinned(cache: map<nat, Block>, lh: Header, k: nat, cur: seq<Block>) {
    forall j :: k <= j < |lh| ==> lh[j] in cache && lh[j] < |cur| && cache[lh[j]] == cur[lh[j]]
  }

  ghost predicate Settled(g: Geometry, disk: seq<Block>, cache: map<nat, Block>, lh: Header, cur: seq<Block>)
    requires g.Valid() && |disk| == |cur| == g.blocks
  {
    lh == [] && cache == map[] && disk[g.start][0] == 0 && HomeExcept(g, disk, {}, cur)
  }

  ghost predicate Inv(g: Geometry, disk0: seq<Block>, s: State) {
    && g.Valid() && |disk0| == |s.disk| == g.blocks
    && OpsInv(s)
    && Recoverable(g, s.disk, Replay(disk0, s.history[..s.durable]))
    && (s.mode.Panicked? || LogInv(g, s, Replay(disk0, s.history)))
  }

  // ---------------------------------------------------------------- bookkeeping lemmas

  lemma TailStep(lh: Header, k: nat)
    requires k < |lh| && forall i, j :: 0 <= i < j < |lh| ==> lh[i] != lh[j]
    ensures Tail(lh, k) == Tail(lh, k + 1) + {lh[k]} && lh[k] !in Tail(lh, k + 1)
  {}

  lemma ReplaySnoc(disk: seq<Block>, h: seq<Event>, e: Event)
    ensures Replay(disk, h + [e]) == InPlace(Replay(disk, h), e)
  {
    assert (h + [e])[..|h|] == h;
  }

  lemma OpenSnoc(h: seq<Event>, e: Event)
    ensures Open(h + [e]) == OpenAfter(Open(h), e)
  {
    assert (h + [e])[..|h|] == h;
  }

  lemma {:induction false} ReservedSplit(a: seq<Op>, b: seq<Op>)
    ensures Reserved(a + b) == Reserved(a) + Reserved(b)
  {
    if a == [] {
      assert a + b == b;
    } else {
      assert (a + b)[1..] == a[1..] + b;
      ReservedSplit(a[1..], b);
    }
  }

  /** Replacing the i-th entry by `mid` changes the reservation by the difference only. */
  lemma ReservedReplace(ops: seq<Op>, i: nat, mid: seq<Op>)
    requires i < |ops|
    ensures Reserved(ops[..i] + mid + ops[i + 1..]) == Reserved(ops) - (MAXOPBLOCKS - ops[i].used) + Reserved(mid)
  {
    assert ops == ops[..i] + ([ops[i]] + ops[i + 1..]);
    ReservedSplit(ops[..i], [ops[i]] + ops[i + 1..]);
    ReservedSplit([ops[i]], ops[i + 1..]);
    ReservedSplit(ops[..i] + mid, ops[i + 1..]);
    ReservedSplit(ops[..i], mid);
  }

  lemma {:induction false} ReservedBounds(ops: seq<Op>)
    requires forall i :: 0 <= i < |ops| ==> ops[i].used <= MAXOPBLOCKS
    ensures 0 <= Reserved(ops) <= MAXOPBLOCKS * |ops|
  {
    if ops != [] { ReservedBounds(ops[1..]); }
  }

  // ---------------------------------------------------------------- preservation

  lemma {:induction false} OpenMentioned(h: seq<Event>)
    ensures forall x :: x in Open(h) ==> Mentions(h, x)
  {
    if h != [] {
      var p := h[..|h| - 1];
      OpenMentioned(p);
      forall x | x in Open(h) ensures Mentions(h, x) {
        if x in Open(p) {
          var i :| 0 <= i < |p| && p[i].op == x;
          assert h[i].op == x;
        } else {
          assert h[|h| - 1].op == x;
        }
      }
    }
  }

  /** Recording an event of a call that the durable part does not mention. */
  lemma CutSnoc(h: seq<Event>, cut: nat, e: Event)
    requires AllOrNothing(h, cut) && !Mentions(h[..cut], e.op)
    ensures AllOrNothing(h + [e], cut) && (h + [e])[..cut] == h[..cut]
  {
    assert forall i :: 0 <= i < cut ==> h[..cut][i] == h[i];
  }

  lemma IdsAppend(ops: seq<Op>, op: Op)
    ensures Ids(ops + [op]) == Ids(ops) + {op.id}
    ensures Distinct(ops) && op.id !in Ids(ops) ==> Distinct(ops + [op])
  {
    var t := ops + [op];
    assert t[|ops|] == op;
    forall x | x in Ids(ops) ensures x in Ids(t) {
      var i :| 0 <= i < |ops| && ops[i].id == x;
      assert t[i].id == x;
    }
    assert forall i :: 0 <= i < |ops| ==> ops[i].id in Ids(ops) && t[i] == ops[i];
  }

  lemma IdsUpdate(ops: seq<Op>, i: nat, op: Op)
    requires i < |ops| && op.id == ops[i].id
    ensures Ids(ops[i := op]) == Ids(ops) && (Distinct(ops) ==> Distinct(ops[i := op]))
  {
    forall x | x in Ids(ops) ensures x in Ids(ops[i := op]) {
      var k :| 0 <= k < |ops| && ops[k].id == x;
      assert ops[i := op][k].id == x;
    }
  }

  lemma IdsRemove(ops: seq<Op>, i: nat)
    requires i < |ops| && Distinct(ops)
    ensures Distinct(ops[..i] + ops[i + 1..]) && Ids(ops[..i] + ops[i + 1..]) == Ids(ops) - {ops[i].id}
  {
    var t := ops[..i] + ops[i + 1..];
    assert forall k :: 0 <= k < |t| ==> t[k] == ops[if k < i then k else k + 1];
    forall x | x in Ids(ops) && x != ops[i].id ensures x in Ids(t) {
      var k :| 0 <= k < |ops| && ops[k].id == x;
      assert t[if k < i then k else k - 1].id == x;
    }
  }

  lemma BeginOps(s: State, id: nat)
    requires OpsInv(s) && !Mentions(s.history, id)
    ensures OpsInv(DoBegin(s, id))
  {
    assert forall i :: 0 <= i < s.durable ==> s.history[..s.durable][i] == s.history[i];
    CutSnoc(s.history, s.durable, Begin(id));
    OpenSnoc(s.history, Begin(id));
    OpenMentioned(s.history);
    IdsAppend(s.ops, Op(id, 0));
  }

  lemma BeginKeeps(g: Geometry, disk0: seq<Block>, s: State, id: nat)
    requires Inv(g, disk0, s) && Enabled(g, s, BeginOp(id))
    ensures Inv(g, disk0, DoBegin(s, id))
  {
    var t := DoBegin(s, id);
    BeginOps(s, id);
    ReplaySnoc(disk0, s.history, Begin(id));
    assert t.history[..t.durable] == s.history[..s.durable];
    ReservedSplit(s.ops, [Op(id, 0)]);
    ReservedBounds(s.ops);
  }

  lemma WriteOps(g: Geometry, s: State, id: nat, b: nat, data: Block)
    requires OpsInv(s) && Enabled(g, s, LogWrite(id, b, data))
    ensures OpsInv(DoLogWrite(g, s, id, b, data))
  {
    hide AllOrNothing, Open, Distinct, Ids, NoBuffer, Absorb;
    var i := FindOp(s.ops, id);
    var t := DoLogWrite(g, s, id, b, data);
    if t.mode != Panicked {
      CutSnoc(s.history, s.durable, Write(id, b, data));
      OpenSnoc(s.history, Write(id, b, data));
      IdsUpdate(s.ops, i, Op(id, s.ops[i].used + 1));
    }
  }

  lemma AbsorbGood(g: Geometry, lh: Header, b: nat)
    requires GoodHeader(g, lh) && |lh| < LOGSIZE && |lh| < g.size - 1 && g.Home(b)
    ensures GoodHeader(g, Absorb(lh, b))
    ensures Tail(Absorb(lh, b), 0) == Tail(lh, 0) + {b}
  {
    var lh' := Absorb(lh, b);
    forall x | x in Tail(lh, 0) + {b} ensures x in Tail(lh', 0) {
      if x in Tail(lh, 0) {
        var j :| 0 <= j < |lh| && lh[j] == x;
        assert lh'[j] == x;
      } else {
        assert lh'[|lh|] == b;
      }
    }
  }

  lemma WriteUnlogged(g: Geometry, s: State, t: State, b: nat, data: Block, cur: seq<Block>)
    requires g.Valid() && |s.disk| == |cur| == g.blocks && GoodHeader(g, s.lh) && Unlogged(g, s.disk, s.cache, s.lh, cur)
    requires |s.lh| < LOGSIZE && |s.lh| < g.size - 1 && g.Home(b)
    requires t.disk == s.disk && t.lh == Absorb(s.lh, b) && t.cache == s.cache[b := data]
    requires s.cache.Keys <= Tail(s.lh, 0)
    ensures GoodHeader(g, t.lh) && t.cache.Keys <= Tail(t.lh, 0) && Unlogged(g, t.disk, t.cache, t.lh, WriteBlock(cur, b, data))
  {
    AbsorbGood(g, s.lh, b);
  }

  lemma WriteReserved(s: State, i: nat, op: Op, lh: Header, b: nat)
    requires i < |s.ops| && op.used == s.ops[i].used + 1
    requires |s.lh| < LOGSIZE && lh == Absorb(s.lh, b)
    ensures |lh| + Reserved(s.ops[i := op]) <= |s.lh| + Reserved(s.ops)
  {
    assert s.ops[i := op] == s.ops[..i] + [op] + s.ops[i + 1..];
    ReservedReplace(s.ops, i, [op]);
  }

  lemma WriteKeeps(g: Geometry, disk0: seq<Block>, s: State, id: nat, b: nat, data: Block)
    requires Inv(g, disk0, s) && Enabled(g, s, LogWrite(id, b, data))
    ensures Inv(g, disk0, DoLogWrite(g, s, id, b, data))
  {
    var t := DoLogWrite(g, s, id, b, data);
    WriteOps(g, s, id, b, data);
    if t.mode != Panicked {
      ReplaySnoc(disk0, s.history, Write(id, b, data));
      assert t.history[..t.durable] == s.history[..s.durable];
      var i := FindOp(s.ops, id);
      WriteReserved(s, i, t.ops[i], t.lh, b);
      WriteUnlogged(g, s, t, b, data, Replay(disk0, s.history));
      assert LogInv(g, t, Replay(disk0, t.history));
    }
  }

  lemma EndOps(s: State, id: nat)
    requires OpsInv(s) && FindOp(s.ops, id) < |s.ops| && !s.committing
    ensures OpsInv(DoEnd(s, id))
  {
    hide AllOrNothing, Open, Distinct, Ids;
    CutSnoc(s.history, s.durable, End(id));
    OpenSnoc(s.history, End(id));
    IdsRemove(s.ops, FindOp(s.ops, id));
  }

  lemma EndReserved(ops: seq<Op>, i: nat)
    requires i < |ops| && ops[i].used <= MAXOPBLOCKS
    ensures Reserved(ops[..i] + ops[i + 1..]) <= Reserved(ops)
  {
    assert ops[..i] + ops[i + 1..] == ops[..i] + [] + ops[i + 1..];
    ReservedReplace(ops, i, []);
  }

  lemma EmptySettled(g: Geometry, s: State, cur: seq<Block>)
    requires g.Valid() && |s.disk| == |cur| == g.blocks && s.lh == [] && Unlogged(g, s.disk, s.cache, s.lh, cur)
    requires s.cache.Keys <= Tail(s.lh, 0)
    ensures Settled(g, s.disk, s.cache, s.lh, cur)
  {
    assert s.cache.Keys == {};
  }

  lemma EndLog(g: Geometry, s: State, id: nat, cur: seq<Block>)
    requires g.Valid() && |s.disk| == |cur| == g.blocks && s.durable <= |s.history|
    requires s.outstanding == |s.ops| && (forall i :: 0 <= i < |s.ops| ==> s.ops[i].used <= MAXOPBLOCKS)
    requires s.mode.Running? && LogInv(g, s, cur) && FindOp(s.ops, id) < |s.ops|
    ensures LogInv(g, DoEnd(s, id), cur)
  {
    var t := DoEnd(s, id);
    EndReserved(s.ops, FindOp(s.ops, id));
    if t.ops == [] && t.lh == [] { EmptySettled(g, t, cur); }
  }

  lemma EndKeeps(g: Geometry, disk0: seq<Block>, s: State, id: nat)
    requires Inv(g, disk0, s) && Enabled(g, s, EndOp(id))
    ensures Inv(g, disk0, DoEnd(s, id))
  {
    var t := DoEnd(s, id);
    if t.mode != Panicked {
      EndOps(s, id);
      ReplaySnoc(disk0, s.history, End(id));
      assert t.history[..t.durable] == s.history[..s.durable];
      EndLog(g, s, id, Replay(disk0, s.history));
    }
  }

  lemma CrashKeeps(g: Geometry, disk0: seq<Block>, s: State)
    requires Inv(g, disk0, s)
    ensures Inv(g, disk0, DoCrash(s))
  {
    var t := DoCrash(s);
    assert t.history[..t.durable] == t.history == s.history[..s.durable];
  }

  // ---------------------------------------------------------------- the block writes of commit and recovery

  /** Writing into the log area does not disturb any home block. */
  lemma LogAreaWrite(g: Geometry, disk: seq<Block>, b: nat, data: Block, pending: set<nat>, target: seq<Block>)
    requires g.Valid() && |disk| == |target| == g.blocks && !g.Home(b)
    requires HomeExcept(g, disk, pending, target)
    ensures HomeExcept(g, WriteBlock(disk, b, data), pending, target)
  {}

  /** An empty header on disk, and home blocks as in `target`: nothing is left to redo. */
  lemma ClearedRecoverable(g: Geometry, disk: seq<Block>, target: seq<Block>)
    requires g.Valid() && |disk| == |target| == g.blocks && disk[g.start][0] == 0
    requires HomeExcept(g, disk, {}, target)
    ensures Recoverable(g, disk, target)
  {
    assert DecodeHead(disk[g.start]) == [];
  }

  lemma CopyToLog(g: Geometry, s: State, k: nat, cur: seq<Block>, durable: seq<Block>)
    requires g.Valid() && |s.disk| == |cur| == |durable| == g.blocks && GoodHeader(g, s.lh)
    requires Unlogged(g, s.disk, s.cache, s.lh, cur) && k < |s.lh| && Slots(g, s.disk, s.lh, k, cur)
    requires Recoverable(g, s.disk, durable)
    ensures var d := WriteBlock(s.disk, g.start + k + 1, View(s, s.lh[k]));
            Unlogged(g, d, s.cache, s.lh, cur) && Slots(g, d, s.lh, k + 1, cur) && Recoverable(g, d, durable)
  {
    var d := WriteBlock(s.disk, g.start + k + 1, View(s, s.lh[k]));
    LogAreaWrite(g, s.disk, g.start + k + 1, View(s, s.lh[k]), Tail(s.lh, 0), cur);
    assert DecodeHead(s.disk[g.start]) == [];
    LogAreaWrite(g, s.disk, g.start + k + 1, View(s, s.lh[k]), {}, durable);
    ClearedRecoverable(g, d, durable);
  }

  /** The commit point: with the header written, recovery produces the logged state. */
  lemma CommitPoint(g: Geometry, s: State, cur: seq<Block>)
    requires g.Valid() && |s.disk| == |cur| == g.blocks && GoodHeader(g, s.lh)
    requires Unlogged(g, s.disk, s.cache, s.lh, cur) && Slots(g, s.disk, s.lh, |s.lh|, cur)
    requires s.cache.Keys <= Tail(s.lh, 0)
    ensures var head := EncodeHead(s.disk[g.start], s.lh);
            var d := WriteBlock(s.disk, g.start, head);
            DecodeHead(head) == s.lh && Replaying(g, d, s.cache, s.lh, 0, cur) && Recoverable(g, d, cur)
            && Pinned(s.cache, s.lh, 0, cur)
  {
    var head := EncodeHead(s.disk[g.start], s.lh);
    assert DecodeHead(head) == s.lh;
    LogAreaWrite(g, s.disk, g.start, head, Tail(s.lh, 0), cur);
  }

  /** One step of install_trans, whether in commit or in recovery. */
  lemma InstallOne(g: Geometry, disk: seq<Block>, lh: Header, k: nat, cur: seq<Block>)
    requires g.Valid() && |disk| == |cur| == g.blocks && GoodHeader(g, lh) && k < |lh|
    requires disk[g.start][0] <= LOGSIZE && DecodeHead(disk[g.start]) == lh
    requires Slots(g, disk, lh, |lh|, cur) && HomeExcept(g, disk, Tail(lh, k), cur)
    ensures var d := WriteBlock(disk, lh[k], ReadBlock(disk, g.start + k + 1));
            d[g.start] == disk[g.start] && Slots(g, d, lh, |lh|, cur) && HomeExcept(g, d, Tail(lh, k + 1), cur)
            && Recoverable(g, d, cur)
  {
    var d := WriteBlock(disk, lh[k], ReadBlock(disk, g.start + k + 1));
    assert ReadBlock(disk, g.start + k + 1) == cur[lh[k]];
    TailStep(lh, k);
  }

  lemma ClearHeader(g: Geometry, disk: seq<Block>, cur: seq<Block>)
    requires g.Valid() && |disk| == |cur| == g.blocks && HomeExcept(g, disk, {}, cur)
    ensures var d := WriteBlock(disk, g.start, EncodeHead(disk[g.start], []));
            d[g.start][0] == 0 && HomeExcept(g, d, {}, cur) && Recoverable(g, d, cur)
  {
    var head := EncodeHead(disk[g.start], []);
    LogAreaWrite(g, disk, g.start, head, {}, cur);
    ClearedRecoverable(g, WriteBlock(disk, g.start, head), cur);
  }

  lemma CopyStep(g: Geometry, s: State, cur: seq<Block>, durable: seq<Block>)
    requires g.Valid() && |s.disk| == |cur| == |durable| == g.blocks && s.durable <= |s.history|
    requires LogInv(g, s, cur) && s.mode.Logging? && s.mode.k < |s.lh| && Recoverable(g, s.disk, durable)
    ensures LogInv(g, DoWrite(g, s), cur) && Recoverable(g, DoWrite(g, s).disk, durable)
  {
    CopyToLog(g, s, s.mode.k, cur, durable);
  }

  lemma CommitStep(g: Geometry, s: State, cur: seq<Block>)
    requires g.Valid() && |s.disk| == |cur| == g.blocks && s.durable <= |s.history|
    requires LogInv(g, s, cur) && s.mode.Logging? && s.mode.k == |s.lh| && !NoBuffer(g, s.cache)
    ensures LogInv(g, DoWrite(g, s), cur) && Recoverable(g, DoWrite(g, s).disk, cur)
  {
    CommitPoint(g, s, cur);
  }

  lemma LoggingKeeps(g: Geometry, disk0: seq<Block>, s: State)
    requires Inv(g, disk0, s) && s.mode.Logging? && !NoBuffer(g, s.cache)
    ensures Inv(g, disk0, DoWrite(g, s))
  {
    assert s.history[..|s.history|] == s.history;
    var cur := Replay(disk0, s.history);
    if s.mode.k < |s.lh| {
      CopyStep(g, s, cur, Replay(disk0, s.history[..s.durable]));
    } else {
      CommitStep(g, s, cur);
    }
  }

  lemma InstallReplaying(g: Geometry, disk: seq<Block>, cache: map<nat, Block>, lh: Header, k: nat, cur: seq<Block>)
    requires g.Valid() && |disk| == |cur| == g.blocks && GoodHeader(g, lh)
    requires Replaying(g, disk, cache, lh, k, cur) && k < |lh|
    ensures var d := WriteBlock(disk, lh[k], ReadBlock(disk, g.start + k + 1));
            Replaying(g, d, cache - {lh[k]}, lh, k + 1, cur) && Recoverable(g, d, cur)
    ensures Pinned(cache, lh, k, cur) ==> Pinned(cache - {lh[k]}, lh, k + 1, cur)
  {
    hide Slots, HomeExcept, Recoverable, DecodeHead, WriteBlock, ReadBlock;
    InstallOne(g, disk, lh, k, cur);
    TailStep(lh, k);
  }

  lemma FewerBuffers(g: Geometry, cache: map<nat, Block>, b: nat)
    requires !NoBuffer(g, cache)
    ensures !NoBuffer(g, cache - {b})
  {
    var c := cache - {b};
    assert c.Keys == cache.Keys - {b};
    assert |c.Keys| <= |cache.Keys| by { if b !in cache.Keys { assert c.Keys == cache.Keys; } }
    assert |c| == |c.Keys| && |cache| == |cache.Keys|;
  }

  lemma InstallStep(g: Geometry, s: State, cur: seq<Block>)
    requires g.Valid() && |s.disk| == |cur| == g.blocks && s.durable <= |s.history|
    requires LogInv(g, s, cur) && (s.mode.Installing? || s.mode.Reinstalling?) && s.mode.k < |s.lh|
    ensures LogInv(g, DoWrite(g, s), cur) && Recoverable(g, DoWrite(g, s).disk, cur)
  {
    hide Slots, HomeExcept, Recoverable, DecodeHead, Settled, Unlogged, Pinned, Replaying, GoodHeader, WriteBlock, ReadBlock, Tail;
    InstallReplaying(g, s.disk, s.cache, s.lh, s.mode.k, cur);
    if s.mode.Installing? { FewerBuffers(g, s.cache, s.lh[s.mode.k]); }
    if s.mode.Reinstalling? { assert s.cache - {s.lh[s.mode.k]} == s.cache; }
  }

  lemma InstallEnd(g: Geometry, s: State, cur: seq<Block>)
    requires g.Valid() && |s.disk| == |cur| == g.blocks && s.durable <= |s.history|
    requires LogInv(g, s, cur) && (s.mode.Installing? || s.mode.Reinstalling?) && s.mode.k == |s.lh|
    ensures LogInv(g, DoWrite(g, s), cur) && Recoverable(g, DoWrite(g, s).disk, cur)
  {
    assert Tail(s.lh, s.mode.k) == {};
    ClearHeader(g, s.disk, cur);
    assert s.cache == map[] by { assert s.cache.Keys == {}; }
    var t := DoWrite(g, s);
    assert Settled(g, t.disk, t.cache, t.lh, cur);
  }

  lemma InstallingKeeps(g: Geometry, disk0: seq<Block>, s: State)
    requires Inv(g, disk0, s) && (s.mode.Installing? || s.mode.Reinstalling?)
    ensures Inv(g, disk0, DoWrite(g, s))
  {
    assert s.history[..s.durable] == s.history;
    if s.mode.k < |s.lh| {
      InstallStep(g, s, Replay(disk0, s.history));
    } else {
      InstallEnd(g, s, Replay(disk0, s.history));
    }
  }

  lemma FinishingKeeps(g: Geometry, disk0: seq<Block>, s: State)
    requires Inv(g, disk0, s) && s.mode.Finishing?
    ensures Inv(g, disk0, DoTick(g, s))
  {
    assert s.history[..|s.history|] == s.history;
    ClearedRecoverable(g, s.disk, Replay(disk0, s.history));
  }

  lemma BootingKeeps(g: Geometry, disk0: seq<Block>, s: State)
    requires Inv(g, disk0, s) && s.mode.Booting?
    ensures Inv(g, disk0, DoTick(g, s))
  {
    assert s.history[..s.durable] == s.history;
  }

  lemma ApplyKeeps(g: Geometry, disk0: seq<Block>, s: State, a: Action)
    requires Inv(g, disk0, s)
    ensures Inv(g, disk0, Apply(g, s, a))
  {
    if Enabled(g, s, a) {
      match a
      case BeginOp(id) => BeginKeeps(g, disk0, s, id);
      case LogWrite(id, b, data) => WriteKeeps(g, disk0, s, id, b, data);
      case EndOp(id) => EndKeeps(g, disk0, s, id);
      case Crash => CrashKeeps(g, disk0, s);
      case Tick =>
        if DoTick(g, s).mode.Panicked? { return; }
        match s.mode {
          case Logging(_) => LoggingKeeps(g, disk0, s);
          case Finishing => FinishingKeeps(g, disk0, s);
          case Booting => BootingKeeps(g, disk0, s);
          case _ => InstallingKeeps(g, disk0, s);
        }
    }
  }

  lemma {:induction false} Invariant(g: Geometry, disk0: seq<Block>, run: seq<Action>)
    requires Formatted(g, disk0)
    ensures Inv(g, disk0, Exec(g, disk0, run))
  {
    if run == [] {
      ClearedRecoverable(g, disk0, disk0);
    } else {
      Invariant(g, disk0, run[..|run| - 1]);
      ApplyKeeps(g, disk0, Exec(g, disk0, run[..|run| - 1]), run[|run| - 1]);
    }
  }

  // ---------------------------------------------------------------- theorems

  lemma {:induction false} InstallReaches(g: Geometry, disk: seq<Block>, lh: Header, k: nat, cur: seq<Block>)
    requires g.Valid() && |disk| == |cur| == g.blocks && GoodHeader(g, lh) && k <= |lh|
    requires disk[g.start][0] <= LOGSIZE && DecodeHead(disk[g.start]) == lh
    requires Slots(g, disk, lh, |lh|, cur) && HomeExcept(g, disk, Tail(lh, k), cur)
    ensures HomeExcept(g, InstallFrom(g, disk, lh, k), {}, cur)
    decreases |lh| - k
  {
    if k == |lh| {
      assert Tail(lh, k) == {};
    } else {
      InstallOne(g, disk, lh, k, cur);
      InstallReaches(g, WriteBlock(disk, lh[k], ReadBlock(disk, g.start + k + 1)), lh, k + 1, cur);
    }
  }

  /** Recovery of a recoverable disk yields the target, whatever an earlier recovery left behind. */
  lemma RecoverCorrect(g: Geometry, disk: seq<Block>, target: seq<Block>)
    requires Recoverable(g, disk, target)
    ensures SameHome(g, Recover(g, disk), target) && Recover(g, disk)[g.start][0] == 0
  {
    var lh := DecodeHead(disk[g.start]);
    InstallReaches(g, disk, lh, 0, target);
    ClearHeader(g, InstallFrom(g, disk, lh, 0), target);
  }

  /** Cut the power after ANY sequence of actions (between any two block writes, inside commit or
      recovery, any number of times), and recovery yields exactly the home blocks that the durable part
      of the history produces. */
  lemma CrashContents(g: Geometry, disk0: seq<Block>, run: seq<Action>)
    requires Formatted(g, disk0)
    ensures var s := Exec(g, disk0, run);
            s.durable <= |s.history| && SameHome(g, Recover(g, s.disk), Replay(disk0, s.history[..s.durable]))
  {
    Invariant(g, disk0, run);
    var s := Exec(g, disk0, run);
    RecoverCorrect(g, s.disk, Replay(disk0, s.history[..s.durable]));
  }

  /** And that part consists of whole calls: all writes of a call, or none. */
  lemma CrashAtomicity(g: Geometry, disk0: seq<Block>, run: seq<Action>)
    requires Formatted(g, disk0)
    ensures var s := Exec(g, disk0, run);
            s.durable <= |s.history| && AllOrNothing(s.history, s.durable) && Open(s.history[..s.durable]) == {}
  {
    Invariant(g, disk0, run);
  }

  lemma ApplyDurable(g: Geometry, s: State, a: Action)
    requires s.durable <= |s.history|
    ensures var t := Apply(g, s, a);
            s.durable <= t.durable <= |t.history| && t.history[..s.durable] == s.history[..s.durable]
  {
    hide Enabled, WriteBlock, ReadBlock, EncodeHead, DecodeHead, View, Absorb, NoBuffer, FindOp, Mentions;
    match a
    case Tick => TickDurable(g, s);
    case _ =>
  }

  lemma TickDurable(g: Geometry, s: State)
    ensures var t := DoTick(g, s); t.history == s.history && (t.durable == s.durable || t.durable == |s.history|)
  {
    hide WriteBlock, ReadBlock, EncodeHead, DecodeHead, View, NoBuffer;
  }

  /** The durable part of the history only ever grows: no later action, crash included, loses any of it. */
  lemma DurableGrows(g: Geometry, disk0: seq<Block>, run: seq<Action>, a: Action)
    requires Formatted(g, disk0)
    ensures var s, t := Exec(g, disk0, run), Exec(g, disk0, run + [a]);
            s.durable <= t.durable <= |t.history| && s.durable <= |s.history|
            && t.history[..s.durable] == s.history[..s.durable]
  {
    CrashAtomicity(g, disk0, run);
    ApplyDurable(g, Exec(g, disk0, run), a);
    assert (run + [a])[..|run|] == run;
  }

  /** Once the last call has left and its commit is over, everything is durable and in place. */
  lemma QuietIsDurable(g: Geometry, disk0: seq<Block>, run: seq<Action>)
    requires Formatted(g, disk0)
    ensures var s := Exec(g, disk0, run);
            s.mode == Running && s.outstanding == 0 ==>
              s.durable == |s.history| && SameHome(g, s.disk, Replay(disk0, s.history))
  {
    Invariant(g, disk0, run);
  }

  ghost predicate LastAt(h: seq<Event>, b: nat, i: int) {
    0 <= i < |h| && h[i].Write? && h[i].block == b && forall j :: i < j < |h| && h[j].Write? ==> h[j].block != b
  }

  /** What a history stands for, block by block: the last write to the block, if there is one. */
  lemma {:induction false} LastWrite(disk: seq<Block>, h: seq<Event>, b: nat, i: int)
    requires b < |disk| && LastAt(h, b, i)
    ensures Replay(disk, h)[b] == h[i].data
  {
    var n := |h| - 1;
    if i < n {
      assert h[..n][i] == h[i] && forall j :: i < j < n ==> h[..n][j] == h[j];
      LastWrite(disk, h[..n], b, i);
    }
  }

  lemma {:induction false} NeverWritten(disk: seq<Block>, h: seq<Event>, b: nat)
    requires b < |disk| && forall i :: 0 <= i < |h| && h[i].Write? ==> h[i].block != b
    ensures Replay(disk, h)[b] == disk[b]
  {
    if h != [] {
      var n := |h| - 1;
      assert forall i :: 0 <= i < n ==> h[..n][i] == h[i];
      NeverWritten(disk, h[..n], b);
    }
  }

  /** Inside a transaction, bread returns the data last logged for the block by anyone. */
  lemma ReadsSeeLoggedData(g: Geometry, disk0: seq<Block>, run: seq<Action>, b: nat)
    requires Formatted(g, disk0) && g.Home(b)
    ensures var s := Exec(g, disk0, run);
            s.mode.Running? || s.mode.Logging? || s.mode.Installing? || s.mode.Finishing? ==>
              b < |Replay(disk0, s.history)| && View(s, b) == Replay(disk0, s.history)[b]
  {
    Invariant(g, disk0, run);
    var s := Exec(g, disk0, run);
  }
}

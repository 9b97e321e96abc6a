/** The redo log of OS/xv6-public/log.c as a state machine.

    One action is one thing that can happen between two crash points: a file-system
    call enters, logs a block or leaves; the committing (or recovering) process
    performs its next synchronous block write; or the machine crashes and reboots.
    `history` records what callers did, and `durable` how much of it is committed. */
module LogProtocol {

  const MAXOPBLOCKS: nat := 10
  const LOGSIZE: nat := 30
  const NBUF: nat := MAXOPBLOCKS * 3
  const WORDS: nat := 128

  /** A disk block, as 32-bit words (BSIZE is 512 bytes). */
  type Block = b: seq<nat> | |b| == WORDS witness seq(WORDS, _ => 0)

  /** log.lh: the block numbers of the current transaction; the C array has LOGSIZE slots. */
  type Header = h: seq<nat> | |h| <= LOGSIZE

  /** Where the log lies (sb.logstart, sb.nlog), how many blocks the disk has, and how many buffers of the
      cache nobody refers to outside of the log (NBUF, when no other process is reading a block). */
  datatype Geometry = Geometry(start: nat, size: nat, blocks: nat, nbuf: nat) {
    /** install_trans holds two buffers at a time. */
    ghost predicate Valid() { 1 <= size && start + size <= blocks && 2 <= nbuf }

    /** A block outside the log area. */
    predicate Home(b: nat) { b < blocks && !(start <= b < start + size) }
  }

  datatype Event = Begin(op: nat) | Write(op: nat, block: nat, data: Block) | End(op: nat)

  /** A file-system call between begin_op and end_op, and its log_write calls so far. */
  datatype Op = Op(id: nat, used: nat)

  /** Program counter of the process that owns the log. */
  datatype Mode =
    | Running              // no commit and no recovery in progress
    | Logging(k: nat)      // write_log has copied k blocks, then write_head
    | Installing(k: nat)   // install_trans has copied k blocks, then the header is cleared
    | Finishing            // end_op is about to reset `committing`
    | Booting              // recover_from_log has not read the header yet
    | Reinstalling(k: nat) // recovery has installed k blocks
    | Overrun              // read_head met a count beyond the header's array
    | Panicked             // one of the panics of log.c, or of bget

  datatype State = State(
    disk: seq<Block>,
    cache: map<nat, Block>,  // the dirty (pinned) buffers
    lh: Header,
    ops: seq<Op>,            // the calls counted by log.outstanding
    outstanding: int,
    committing: bool,
    mode: Mode,
    history: seq<Event>,
    durable: nat)

  datatype Action = BeginOp(id: nat) | LogWrite(id: nat, block: nat, data: Block) | EndOp(id: nat) | Tick | Crash

  // ---------------------------------------------------------------- blocks

  function ReadBlock(disk: seq<Block>, b: nat): Block {
    if b < |disk| then disk[b] else seq(WORDS, _ => 0)
  }

  function WriteBlock(disk: seq<Block>, b: nat, data: Block): (r: seq<Block>)
    ensures |r| == |disk|
  {
    if b < |disk| then disk[b := data] else disk
  }

  /** bread: the cached copy of a dirty block, the disk's copy otherwise. */
  function View(s: State, b: nat): Block {
    if b in s.cache then s.cache[b] else ReadBlock(s.disk, b)
  }

  /** bget finds no buffer for a block that is not among the dirty ones: all buffers are dirty. */
  predicate NoBuffer(g: Geometry, cache: map<nat, Block>) { |cache| >= g.nbuf }

  /** write_head keeps the words behind the last entry as they were in the buffer. */
  function EncodeHead(buf: Block, lh: Header): Block {
    [|lh|] + lh + buf[|lh| + 1..]
  }

  function DecodeHead(b: Block): Header
    requires b[0] <= LOGSIZE
  {
    b[1..1 + b[0]]
  }

  // ---------------------------------------------------------------- operations

  function FindOp(ops: seq<Op>, id: nat): (i: nat)
    ensures i <= |ops|
    ensures i < |ops| ==> ops[i].id == id
    ensures forall j :: 0 <= j < i ==> ops[j].id != id
  {
    if ops == [] || ops[0].id == id then 0 else 1 + FindOp(ops[1..], id)
  }

  predicate Mentions(h: seq<Event>, id: nat) { exists i :: 0 <= i < |h| && h[i].op == id }

  /** The precondition on callers, together with the conditions on which begin_op waits. */
  predicate Enabled(g: Geometry, s: State, a: Action) {
    match a
    case BeginOp(id) =>
      s.mode == Running && !s.committing && |s.lh| + (s.outstanding + 1) * MAXOPBLOCKS <= LOGSIZE
      && !Mentions(s.history, id)
    case LogWrite(id, b, _) =>
      var i := FindOp(s.ops, id);
      s.mode != Panicked && i < |s.ops| && s.ops[i].used < MAXOPBLOCKS && g.Home(b)
    case EndOp(id) => s.mode != Panicked && FindOp(s.ops, id) < |s.ops|
    case Tick => !s.mode.Running? && !s.mode.Panicked? && !s.mode.Overrun?
    case Crash => true
  }

  /** The loop of log_write: a block already in the log is absorbed. */
  function Absorb(lh: Header, b: nat): Header
    requires |lh| < LOGSIZE
  {
    if b in lh then lh else lh + [b]
  }

  function DoBegin(s: State, id: nat): State {
    s.(outstanding := s.outstanding + 1, ops := s.ops + [Op(id, 0)], history := s.history + [Begin(id)])
  }

  /** The caller's bread of the block, and log_write. */
  function DoLogWrite(g: Geometry, s: State, id: nat, b: nat, data: Block): State
    requires FindOp(s.ops, id) < |s.ops|
  {
    if b !in s.cache && NoBuffer(g, s.cache) then s.(mode := Panicked)
    else if |s.lh| >= LOGSIZE || |s.lh| >= g.size - 1 || s.outstanding < 1 then s.(mode := Panicked)
    else
      var i := FindOp(s.ops, id);
      s.(cache := s.cache[b := data], lh := Absorb(s.lh, b),
         ops := s.ops[i := Op(id, s.ops[i].used + 1)],
         history := s.history + [Write(id, b, data)])
  }

  function DoEnd(s: State, id: nat): State
    requires FindOp(s.ops, id) < |s.ops|
  {
    if s.committing then s.(mode := Panicked)
    else
      var i := FindOp(s.ops, id);
      var s1 := s.(outstanding := s.outstanding - 1, ops := s.ops[..i] + s.ops[i + 1..],
                   history := s.history + [End(id)]);
      if s1.outstanding == 0
      then s1.(committing := true, mode := if |s1.lh| > 0 then Logging(0) else Finishing)
      else s1
  }

  /** The next block write of commit() or recover_from_log(). In a commit it reads a block of the log
      first, for which it needs a buffer. */
  function DoTick(g: Geometry, s: State): State {
    if (s.mode.Logging? || s.mode.Installing?) && NoBuffer(g, s.cache) then s.(mode := Panicked) else DoWrite(g, s)
  }

  function DoWrite(g: Geometry, s: State): State {
    var head := ReadBlock(s.disk, g.start);
    match s.mode
    case Logging(k) =>
      if k < |s.lh|
      then s.(disk := WriteBlock(s.disk, g.start + k + 1, View(s, s.lh[k])), mode := Logging(k + 1))
      else s.(disk := WriteBlock(s.disk, g.start, EncodeHead(head, s.lh)), mode := Installing(0),
              durable := |s.history|)
    case Installing(k) =>
      if k < |s.lh|
      then s.(disk := WriteBlock(s.disk, s.lh[k], ReadBlock(s.disk, g.start + k + 1)),
              cache := s.cache - {s.lh[k]}, mode := Installing(k + 1))
      else s.(disk := WriteBlock(s.disk, g.start, EncodeHead(head, [])), lh := [], mode := Finishing)
    case Finishing => s.(committing := false, mode := Running, durable := |s.history|)
    case Booting =>
      if head[0] <= LOGSIZE then s.(lh := DecodeHead(head), mode := Reinstalling(0)) else s.(mode := Overrun)
    case Reinstalling(k) =>
      if k < |s.lh|
      then s.(disk := WriteBlock(s.disk, s.lh[k], ReadBlock(s.disk, g.start + k + 1)), mode := Reinstalling(k + 1))
      else s.(disk := WriteBlock(s.disk, g.start, EncodeHead(head, [])), lh := [], mode := Running)
    case _ => s
  }

  /** Power failure: memory is lost, and with it whatever had not been committed. */
  function DoCrash(s: State): State {
    State(s.disk, map[], [], [], 0, false, Booting,
          if s.durable <= |s.history| then s.history[..s.durable] else s.history, s.durable)
  }

  /** A disabled action changes nothing: its caller sleeps, or must not make the call. */
  function Apply(g: Geometry, s: State, a: Action): State {
    if !Enabled(g, s, a) then s else
    match a
    case BeginOp(id) => DoBegin(s, id)
    case LogWrite(id, b, data) => DoLogWrite(g, s, id, b, data)
    case EndOp(id) => DoEnd(s, id)
    case Tick => DoTick(g, s)
    case Crash => DoCrash(s)
  }

  /** A formatted disk: the header says that the log is empty. */
  ghost predicate Formatted(g: Geometry, disk: seq<Block>) {
    g.Valid() && |disk| == g.blocks && disk[g.start][0] == 0
  }

  function Boot(disk: seq<Block>): State {
    State(disk, map[], [], [], 0, false, Booting, [], 0)
  }

  /** The state after booting from `disk` and performing the actions of `run` in order. */
  function Exec(g: Geometry, disk: seq<Block>, run: seq<Action>): State {
    if run == [] then Boot(disk) else Apply(g, Exec(g, disk, run[..|run| - 1]), run[|run| - 1])
  }

  // ---------------------------------------------------------------- what the log is for

  function InPlace(disk: seq<Block>, e: Event): (r: seq<Block>)
    ensures |r| == |disk|
  {
    match e
    case Write(_, b, data) => WriteBlock(disk, b, data)
    case _ => disk
  }

  /** The disk contents the history stands for: every logged block written in place, in order. */
  function Replay(disk: seq<Block>, h: seq<Event>): (r: seq<Block>)
    ensures |r| == |disk|
  {
    if h == [] then disk else InPlace(Replay(disk, h[..|h| - 1]), h[|h| - 1])
  }

  /** install_trans followed by write_head, with no crash in between. */
  function InstallFrom(g: Geometry, disk: seq<Block>, lh: Header, k: nat): (r: seq<Block>)
    requires k <= |lh|
    ensures |r| == |disk|
    decreases |lh| - k
  {
    if k == |lh| then disk
    else InstallFrom(g, WriteBlock(disk, lh[k], ReadBlock(disk, g.start + k + 1)), lh, k + 1)
  }

  function Recover(g: Geometry, disk: seq<Block>): seq<Block> {
    var head := ReadBlock(disk, g.start);
    if head[0] > LOGSIZE then disk
    else
      var d := InstallFrom(g, disk, DecodeHead(head), 0);
      WriteBlock(d, g.start, EncodeHead(ReadBlock(d, g.start), []))
  }

  ghost predicate SameHome(g: Geometry, a: seq<Block>, b: seq<Block>) {
    |a| == |b| == g.blocks && forall i :: 0 <= i < |a| && g.Home(i) ==> a[i] == b[i]
  }

  /** A file-system call lies wholly before the cut or wholly behind it. */
  ghost predicate AllOrNothing(h: seq<Event>, cut: nat) {
    cut <= |h| && forall i, j :: 0 <= i < cut <= j < |h| ==> h[i].op != h[j].op
  }

  function OpenAfter(open: set<nat>, e: Event): set<nat> {
    match e
    case Begin(id) => open + {id}
    case End(id) => open - {id}
    case _ => open
  }

  /** The calls that have begun in `h` and not ended. */
  function Open(h: seq<Event>): set<nat> {
    if h == [] then {} else OpenAfter(Open(h[..|h| - 1]), h[|h| - 1])
  }

  function Reserved(ops: seq<Op>): int {
    if ops == [] then 0 else MAXOPBLOCKS - ops[0].used + Reserved(ops[1..])
  }
}

/** The buffer cache of OS/xv6-public/bio.c over the memory disk of memide.c. Each method is a stretch
    that other processes cannot interrupt: bget up to acquiresleep, the rest of bread, and the two
    halves of brelse. */
module BioCache {
  import opened BioList

  type Block = seq<int>

  const DISK: int := 1   // the only device that iderw accepts

  /** locked is the state of the sleep-lock b->lock. */
  datatype Buf = Buf(dev: int, blockno: int, valid: bool, dirty: bool, refcnt: int, locked: bool, data: Block)

  type Bufs = seq<Buf>
  type Disk = seq<Block>

  predicate Holds(b: Buf, dev: int, blockno: int) { b.dev == dev && b.blockno == blockno }

  /** Buffers that bget may recycle. */
  predicate Idle(b: Buf) { b.refcnt == 0 && !b.dirty }

  // ---------------------------------------------------------------- coherence

  predicate BufOk(b: Buf, latest: Disk) {
    && b.refcnt >= 0 && (b.locked ==> b.refcnt > 0) && (b.dirty ==> b.valid)
    && (b.valid ==> b.dev == DISK && 0 <= b.blockno < |latest| && b.data == latest[b.blockno])
  }

  ghost predicate DirtyAt(bufs: Bufs, i: int, blockno: int) {
    0 <= i < |bufs| && Holds(bufs[i], DISK, blockno) && bufs[i].dirty
  }

  /** latest is what was last written or logged for each block. A block of a device other than 0 has at
      most one buffer; a valid buffer holds the latest data; and where the disk does not, a dirty,
      unrecyclable buffer does. */
  ghost predicate Coherent(bufs: Bufs, disk: Disk, latest: Disk) {
    && |latest| == |disk|
    && (forall i :: 0 <= i < |bufs| ==> BufOk(bufs[i], latest))
    && (forall i, j :: 0 <= i < j < |bufs| && bufs[i].dev != 0 ==> !Holds(bufs[j], bufs[i].dev, bufs[i].blockno))
    && (forall k :: 0 <= k < |disk| ==> disk[k] == latest[k] || exists i :: DirtyAt(bufs, i, k))
  }

  /** One buffer changes, but not which block it holds, nor that it is dirty. */
  lemma ChangeKeeps(bufs: Bufs, disk: Disk, latest: Disk, b: int, x: Buf)
    requires Coherent(bufs, disk, latest) && 0 <= b < |bufs| && BufOk(x, latest)
    requires x.dev == bufs[b].dev && x.blockno == bufs[b].blockno && x.dirty == bufs[b].dirty
    ensures Coherent(bufs[b := x], disk, latest)
  {
    var u := bufs[b := x];
    forall k | 0 <= k < |disk| && disk[k] != latest[k] ensures exists i :: DirtyAt(u, i, k) {
      var i :| DirtyAt(bufs, i, k);
      assert DirtyAt(u, i, k);
    }
  }

  /** An idle buffer is given to a block that has none. */
  lemma RecycleKeeps(bufs: Bufs, disk: Disk, latest: Disk, b: int, dev: int, blockno: int)
    requires Coherent(bufs, disk, latest) && 0 <= b < |bufs| && Idle(bufs[b]) && !bufs[b].locked
    requires forall i :: 0 <= i < |bufs| ==> !Holds(bufs[i], dev, blockno)
    ensures Coherent(bufs[b := Buf(dev, blockno, false, false, 1, false, bufs[b].data)], disk, latest)
  {
    var u := bufs[b := Buf(dev, blockno, false, false, 1, false, bufs[b].data)];
    forall k | 0 <= k < |disk| && disk[k] != latest[k] ensures exists i :: DirtyAt(u, i, k) {
      var i :| DirtyAt(bufs, i, k);
      assert DirtyAt(u, i, k);
    }
  }

  /** What the disk has for the block of a clean buffer is the latest. */
  lemma CleanIsOnDisk(bufs: Bufs, disk: Disk, latest: Disk, b: int)
    requires Coherent(bufs, disk, latest) && 0 <= b < |bufs| && !bufs[b].dirty
    requires bufs[b].dev == DISK && 0 <= bufs[b].blockno < |disk|
    ensures disk[bufs[b].blockno] == latest[bufs[b].blockno]
  {
    var k := bufs[b].blockno;
    forall i ensures !DirtyAt(bufs, i, k) {
      if 0 <= i < |bufs| && i != b { OthersHoldOther(bufs, disk, latest, b, i); }
    }
  }

  lemma OthersHoldOther(bufs: Bufs, disk: Disk, latest: Disk, b: int, i: int)
    requires Coherent(bufs, disk, latest) && 0 <= b < |bufs| && 0 <= i < |bufs| && i != b && bufs[b].dev != 0
    ensures !Holds(bufs[i], bufs[b].dev, bufs[b].blockno)
  {
    if i < b {
      assert bufs[i].dev != 0 ==> !Holds(bufs[b], bufs[i].dev, bufs[i].blockno);
    }
  }

  /** log_write: the new contents stay in the buffer, which is pinned by B_DIRTY. */
  lemma LogKeeps(bufs: Bufs, disk: Disk, latest: Disk, b: int, data: Block)
    requires Coherent(bufs, disk, latest) && 0 <= b < |bufs| && bufs[b].valid
    ensures var k := bufs[b].blockno;
            0 <= k < |latest| && Coherent(bufs[b := bufs[b].(data := data, dirty := true)], disk, latest[k := data])
  {
    var k := bufs[b].blockno;
    assert BufOk(bufs[b], latest);
    var u, l := bufs[b := bufs[b].(data := data, dirty := true)], latest[k := data];
    forall i | 0 <= i < |u| ensures BufOk(u[i], l) {
      assert BufOk(bufs[i], latest);
      if i != b { OthersHoldOther(bufs, disk, latest, b, i); }
    }
    forall m | 0 <= m < |disk| && disk[m] != l[m] ensures exists i :: DirtyAt(u, i, m) {
      if m == k {
        assert DirtyAt(u, b, m);
      } else {
        var i :| DirtyAt(bufs, i, m);
        assert DirtyAt(u, i, m);
      }
    }
  }

  /** bwrite: the new contents go to the disk, and the buffer is clean. */
  lemma WriteKeeps(bufs: Bufs, disk: Disk, latest: Disk, b: int, data: Block)
    requires Coherent(bufs, disk, latest) && 0 <= b < |bufs| && bufs[b].dev == DISK && 0 <= bufs[b].blockno < |disk|
    ensures var k := bufs[b].blockno;
            Coherent(bufs[b := bufs[b].(data := data, dirty := false, valid := true)], disk[k := data], latest[k := data])
  {
    var k := bufs[b].blockno;
    var u, d, l := bufs[b := bufs[b].(data := data, dirty := false, valid := true)], disk[k := data], latest[k := data];
    assert BufOk(bufs[b], latest);
    forall i | 0 <= i < |u| ensures BufOk(u[i], l) {
      assert BufOk(bufs[i], latest);
      if i != b { OthersHoldOther(bufs, disk, latest, b, i); }
    }
    forall m | 0 <= m < |d| && d[m] != l[m] ensures exists i :: DirtyAt(u, i, m) {
      var i :| DirtyAt(bufs, i, m);
      assert DirtyAt(u, i, m);
    }
  }

  // ---------------------------------------------------------------- the cache

  class Bcache {
    const n: nat               // NBUF
    const bufs: array<Buf>
    const next: array<int>
    const prev: array<int>
    var disk: Disk
    ghost var latest: Disk
    ghost var order: seq<int>  // the list, most recently released first

    ghost predicate Valid()
      reads this, bufs, next, prev
    {
      && bufs.Length == n && next.Length == prev.Length == n + 1 && next != prev
      && Linked(next[..], prev[..], order, n) && (forall b :: 0 <= b < n ==> b in order)
      && Coherent(bufs[..], disk, latest)
    }

    /** binit: every buffer is pushed to the front of the list in turn. */
    constructor (n: nat, disk: Disk)
      ensures Valid() && this.n == n && this.disk == latest == disk && fresh(bufs) && fresh(next) && fresh(prev)
      ensures forall b :: 0 <= b < n ==> bufs[b].dev == 0
    {
      this.n := n;
      bufs := new Buf[n](_ => Buf(0, 0, false, false, 0, false, []));
      next := new int[n + 1](_ => n);
      prev := new int[n + 1](_ => n);
      this.disk, latest := disk, disk;
      order := [];
      new;
      var b := 0;
      while b < n
        invariant 0 <= b <= n && Linked(next[..], prev[..], order, n)
        invariant forall c :: c in order <==> 0 <= c < b
        invariant this.disk == latest == disk && fresh(bufs) && fresh(next) && fresh(prev)
        invariant forall c :: 0 <= c < n ==> bufs[c] == Buf(0, 0, false, false, 0, false, [])
      {
        PushFront(b);
        b := b + 1;
      }
    }

    method PushFront(b: int)
      requires next.Length == prev.Length == n + 1 && next != prev
      requires Linked(next[..], prev[..], order, n) && 0 <= b < n && b !in order
      modifies next, prev, this`order
      ensures Linked(next[..], prev[..], order, n) && order == [b] + old(order)
    {
      Push(next[..], prev[..], order, n, b);
      ghost var next0, prev0 := next[..], prev[..];
      next[b] := next[n];
      prev[b] := n;
      prev[next[n]] := b;
      next[n] := b;
      assert next[..] == PushNext(next0, n, b);
      assert prev[..] == PushPrev(next0, prev0, n, b);
      order := [b] + order;
    }

    /** The first loop of bget, from the most recently released buffer on. */
    method FindCached(dev: int, blockno: int) returns (b: int)
      requires Valid()
      ensures b == -1 ==> forall i :: 0 <= i < n ==> !Holds(bufs[i], dev, blockno)
      ensures b != -1 ==> 0 <= b < n && Holds(bufs[b], dev, blockno)
    {
      hide Coherent;
      b := next[n];
      ghost var i := 0;
      assert next[..][Node(order, n, -1)] == Node(order, n, 0);
      while b != n
        invariant 0 <= i <= |order| && b == Node(order, n, i)
        invariant forall j :: 0 <= j < i ==> !Holds(bufs[..][order[j]], dev, blockno)
        decreases |order| - i
      {
        assert b == order[i];
        if bufs[b].dev == dev && bufs[b].blockno == blockno {
          return;
        }
        assert next[..][Node(order, n, i)] == Node(order, n, i + 1);
        b := next[b];
        i := i + 1;
      }
      NotAnywhere(bufs[..], order, n, dev, blockno);
      b := -1;
    }

    /** The second loop of bget, from the least recently released buffer on. */
    method FindIdle() returns (b: int)
      requires Valid()
      ensures b == -1 ==> forall i :: 0 <= i < n ==> bufs[i].refcnt != 0 || bufs[i].dirty
      ensures b != -1 ==> 0 <= b < n && bufs[b].refcnt == 0 && !bufs[b].dirty && LastIdle(bufs[..], order, b)
    {
      hide Coherent;
      b := prev[n];
      ghost var i := |order| - 1;
      assert prev[..][Node(order, n, |order|)] == Node(order, n, |order| - 1);
      while b != n
        invariant -1 <= i < |order| && b == Node(order, n, i)
        invariant forall j :: i < j < |order| ==> !Idle(bufs[..][order[j]])
        decreases i
      {
        assert b == order[i];
        if bufs[b].refcnt == 0 && !bufs[b].dirty {
          return;
        }
        assert prev[..][Node(order, n, i)] == Node(order, n, i - 1);
        b := prev[b];
        i := i - 1;
      }
      NoneIdle(bufs[..], order, n);
      b := -1;
    }

    /** bget up to acquiresleep: the buffer of the block if there is one; otherwise the least recently
        released of the idle ones, emptied; -1 is the panic when there is none. */
    method Bget(dev: int, blockno: int) returns (b: int)
      requires Valid()
      modifies bufs
      ensures Valid()
      ensures b == -1 ==>
                bufs[..] == old(bufs[..])
                && forall i :: 0 <= i < n ==> (bufs[i].dev != dev || bufs[i].blockno != blockno) && (bufs[i].refcnt != 0 || bufs[i].dirty)
      ensures b != -1 ==> 0 <= b < n && Holds(bufs[b], dev, blockno) && bufs[b].refcnt > 0
      ensures b != -1 && old(Holds(bufs[b], dev, blockno)) ==>
                bufs[..] == old(bufs[..])[b := old(bufs[b]).(refcnt := old(bufs[b].refcnt) + 1)]
      ensures b != -1 && !old(Holds(bufs[b], dev, blockno)) ==>
                old(bufs[b].refcnt) == 0 && !old(bufs[b].dirty) && LastIdle(old(bufs[..]), order, b)
                && (forall i :: 0 <= i < n ==> !old(Holds(bufs[i], dev, blockno)))
                && bufs[..] == old(bufs[..])[b := Buf(dev, blockno, false, false, 1, false, old(bufs[b].data))]
    {
      hide Linked;
      ghost var bufs0 := bufs[..];
      b := FindCached(dev, blockno);
      if b != -1 {
        assert BufOk(bufs0[b], latest);
        ChangeKeeps(bufs0, disk, latest, b, bufs0[b].(refcnt := bufs0[b].refcnt + 1));
        bufs[b] := bufs[b].(refcnt := bufs[b].refcnt + 1);
        assert bufs[..] == bufs0[b := bufs0[b].(refcnt := bufs0[b].refcnt + 1)];
        return;
      }
      b := FindIdle();
      if b != -1 {
        assert BufOk(bufs0[b], latest);
        RecycleKeeps(bufs0, disk, latest, b, dev, blockno);
        bufs[b] := Buf(dev, blockno, false, false, 1, false, bufs[b].data);
        assert bufs[..] == bufs0[b := Buf(dev, blockno, false, false, 1, false, bufs0[b].data)];
      }
    }

    /** acquiresleep(&b->lock), when it does not have to wait. */
    method Acquire(b: int)
      requires Valid() && 0 <= b < n && bufs[b].refcnt > 0 && !bufs[b].locked
      modifies bufs
      ensures Valid() && bufs[..] == old(bufs[..])[b := old(bufs[b]).(locked := true)]
    {
      ChangeKeeps(bufs[..], disk, latest, b, bufs[b].(locked := true));
      ghost var bufs0 := bufs[..];
      bufs[b] := bufs[b].(locked := true);
      assert bufs[..] == bufs0[b := bufs0[b].(locked := true)];
    }

    /** The rest of bread: an invalid buffer is read. Either way it then holds the latest data. */
    method Fill(b: int)
      requires Valid() && 0 <= b < n && bufs[b].locked && bufs[b].dev == DISK && 0 <= bufs[b].blockno < |disk|
      modifies bufs
      ensures Valid() && bufs[b].valid && bufs[b].data == latest[bufs[b].blockno]
      ensures bufs[..] == old(bufs[..])[b := old(bufs[b]).(valid := true, data := latest[old(bufs[b].blockno)])]
    {
      ghost var bufs0 := bufs[..];
      assert BufOk(bufs0[b], latest);
      if !bufs[b].valid {
        CleanIsOnDisk(bufs0, disk, latest, b);
        ChangeKeeps(bufs0, disk, latest, b, bufs0[b].(valid := true, data := disk[bufs0[b].blockno]));
        bufs[b] := bufs[b].(valid := true, data := disk[bufs[b].blockno]);
        assert bufs[..] == bufs0[b := bufs0[b].(valid := true, data := disk[bufs0[b].blockno])];
      } else {
        assert bufs0 == bufs0[b := bufs0[b].(valid := true, data := latest[bufs0[b].blockno])];
      }
    }

    /** The holder's new data, and log_write. */
    method LogWrite(b: int, data: Block)
      requires Valid() && 0 <= b < n && bufs[b].locked && bufs[b].valid
      modifies bufs, this`latest
      ensures Valid() && 0 <= bufs[b].blockno < |old(latest)| && latest == old(latest)[bufs[b].blockno := data]
      ensures bufs[..] == old(bufs[..])[b := old(bufs[b]).(data := data, dirty := true)]
    {
      ghost var bufs0 := bufs[..];
      LogKeeps(bufs0, disk, latest, b, data);
      bufs[b] := bufs[b].(data := data, dirty := true);
      assert bufs[..] == bufs0[b := bufs0[b].(data := data, dirty := true)];
      latest := latest[bufs[b].blockno := data];
    }

    /** The holder's new data, and bwrite. */
    method Bwrite(b: int, data: Block)
      requires Valid() && 0 <= b < n && bufs[b].locked && bufs[b].dev == DISK && 0 <= bufs[b].blockno < |disk|
      modifies bufs, this`disk, this`latest
      ensures Valid() && |disk| == |old(disk)| && 0 <= bufs[b].blockno < |disk|
      ensures disk == old(disk)[bufs[b].blockno := data] && latest == old(latest)[bufs[b].blockno := data]
      ensures bufs[..] == old(bufs[..])[b := old(bufs[b]).(data := data, dirty := false, valid := true)]
    {
      ghost var bufs0 := bufs[..];
      WriteKeeps(bufs0, disk, latest, b, data);
      bufs[b] := bufs[b].(data := data, dirty := true);
      disk := disk[bufs[b].blockno := bufs[b].data];
      bufs[b] := bufs[b].(dirty := false, valid := true);
      assert bufs[..] == bufs0[b := bufs0[b].(data := data, dirty := false, valid := true)];
      latest := latest[bufs[b].blockno := data];
    }

    /** The first half of brelse. */
    method Release(b: int)
      requires Valid() && 0 <= b < n && bufs[b].locked
      modifies bufs
      ensures Valid() && bufs[..] == old(bufs[..])[b := old(bufs[b]).(locked := false)]
    {
      ghost var bufs0 := bufs[..];
      ChangeKeeps(bufs0, disk, latest, b, bufs0[b].(locked := false));
      bufs[b] := bufs[b].(locked := false);
      assert bufs[..] == bufs0[b := bufs0[b].(locked := false)];
    }

    /** The second half of brelse, of a process that no longer has the lock: a buffer that nobody refers
        to any more moves to the front. */
    method Put(b: int)
      requires Valid() && 0 <= b < n && bufs[b].refcnt > 0 && (bufs[b].locked ==> bufs[b].refcnt > 1)
      modifies bufs, next, prev, this`order
      ensures Valid() && bufs[..] == old(bufs[..])[b := old(bufs[b]).(refcnt := old(bufs[b].refcnt) - 1)]
      ensures if bufs[b].refcnt > 0 then order == old(order)
              else exists k :: 0 <= k < |old(order)| && old(order)[k] == b && order == [b] + Without(old(order), k)
    {
      ghost var bufs0 := bufs[..];
      assert b in order;
      ghost var k :| 0 <= k < |order| && order[k] == b;
      ChangeKeeps(bufs0, disk, latest, b, bufs0[b].(refcnt := bufs0[b].refcnt - 1));
      bufs[b] := bufs[b].(refcnt := bufs[b].refcnt - 1);
      assert bufs[..] == bufs0[b := bufs0[b].(refcnt := bufs0[b].refcnt - 1)];
      if bufs[b].refcnt == 0 {
        ghost var next0, prev0, order0 := next[..], prev[..], order;
        Cut(next0, prev0, order0, n, k);
        prev[next[b]] := prev[b];
        next[prev[b]] := next[b];
        assert next[..] == CutNext(next0, prev0, b) && prev[..] == CutPrev(next0, prev0, b);
        order := Without(order0, k);
        PushFront(b);
        Everyone(order0, k, n);
      }
    }
  }

  /** b is the last idle buffer of the list. */
  ghost predicate LastIdle(bufs: Bufs, order: seq<int>, b: int) {
    exists k :: 0 <= k < |order| && order[k] == b
      && forall j :: k < j < |order| && 0 <= order[j] < |bufs| ==> bufs[order[j]].refcnt != 0 || bufs[order[j]].dirty
  }

  lemma NotAnywhere(bufs: Bufs, order: seq<int>, n: nat, dev: int, blockno: int)
    requires |bufs| == n && Buffers(order, n) && (forall b :: 0 <= b < n ==> b in order)
    requires forall j :: 0 <= j < |order| ==> !Holds(bufs[order[j]], dev, blockno)
    ensures forall b :: 0 <= b < n ==> !Holds(bufs[b], dev, blockno)
  {
    forall b | 0 <= b < n ensures !Holds(bufs[b], dev, blockno) {
      assert b in order;
      var j :| 0 <= j < |order| && order[j] == b;
    }
  }

  lemma NoneIdle(bufs: Bufs, order: seq<int>, n: nat)
    requires |bufs| == n && Buffers(order, n) && (forall b :: 0 <= b < n ==> b in order)
    requires forall j :: 0 <= j < |order| ==> !Idle(bufs[order[j]])
    ensures forall b :: 0 <= b < n ==> !Idle(bufs[b])
  {
    forall b | 0 <= b < n ensures !Idle(bufs[b]) {
      assert b in order;
      var j :| 0 <= j < |order| && order[j] == b;
    }
  }

  lemma Everyone(order: seq<int>, k: int, n: nat)
    requires 0 <= k < |order| && forall b :: 0 <= b < n ==> b in order
    ensures forall b :: 0 <= b < n ==> b in [order[k]] + Without(order, k)
  {
    forall b | 0 <= b < n ensures b in [order[k]] + Without(order, k) {
      assert b in order;
      assert order == order[..k] + [order[k]] + order[k + 1..];
    }
  }
}

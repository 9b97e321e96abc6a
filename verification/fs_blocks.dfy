/** Block maps of OS/xv6-public/fs.c: which block belongs to which place of which inode,
    and the bytes a file consists of. */
module FsBlocks {

  const BSIZE: int := 512
  const NDIRECT: int := 12
  const NINDIRECT: int := 128
  const MAXFILE: int := NDIRECT + NINDIRECT

  /** A disk block, as bytes. */
  type Block = seq<int>

  /** addrs has NDIRECT direct slots, and the number of the indirect block behind them. */
  datatype Inode = Inode(size: int, addrs: seq<int>)

  /** The bitmap, the contents of the blocks, and the inodes in memory. */
  datatype Fs = Fs(used: seq<bool>, data: seq<Block>, inodes: seq<Inode>)

  // ---------------------------------------------------------------- words in an indirect block

  function Word(b: Block, j: int): int
    requires |b| == BSIZE && 0 <= j < NINDIRECT
  {
    b[4 * j] + 0x100 * b[4 * j + 1] + 0x1_0000 * b[4 * j + 2] + 0x100_0000 * b[4 * j + 3]
  }

  /** The i-th byte of w, little-endian. */
  function ByteOf(w: int, i: int): int {
    if i == 0 then w % 0x100 else if i == 1 then w / 0x100 % 0x100 else if i == 2 then w / 0x1_0000 % 0x100 else w / 0x100_0000
  }

  function PutWord(b: Block, j: int, w: int): (r: Block)
    requires |b| == BSIZE && 0 <= j < NINDIRECT
    ensures |r| == BSIZE
  {
    b[..4 * j] + [ByteOf(w, 0), ByteOf(w, 1), ByteOf(w, 2), ByteOf(w, 3)] + b[4 * j + 4..]
  }

  lemma BytesOfWord(w: int)
    ensures ByteOf(w, 0) + 0x100 * ByteOf(w, 1) + 0x1_0000 * ByteOf(w, 2) + 0x100_0000 * ByteOf(w, 3) == w
  {
    assert w / 0x100 / 0x100 == w / 0x1_0000;
    assert w / 0x1_0000 / 0x100 == w / 0x100_0000;
  }

  lemma PutWordWord(b: Block, j: int, w: int, k: int)
    requires |b| == BSIZE && 0 <= j < NINDIRECT && 0 <= k < NINDIRECT
    ensures Word(PutWord(b, j, w), k) == if k == j then w else Word(b, k)
  {
    BytesOfWord(w);
    hide ByteOf;
    var r := PutWord(b, j, w);
    if k == j {
      assert r[4 * j] == ByteOf(w, 0) && r[4 * j + 1] == ByteOf(w, 1) && r[4 * j + 2] == ByteOf(w, 2) && r[4 * j + 3] == ByteOf(w, 3);
    } else {
      assert r[4 * k] == b[4 * k] && r[4 * k + 1] == b[4 * k + 1] && r[4 * k + 2] == b[4 * k + 2] && r[4 * k + 3] == b[4 * k + 3];
    }
  }

  function Zero(): (b: Block)
    ensures |b| == BSIZE && forall i :: 0 <= i < BSIZE ==> b[i] == 0
  {
    seq(BSIZE, _ => 0)
  }

  // ---------------------------------------------------------------- places

  const PLACES: int := NDIRECT + 1 + NINDIRECT

  /** The block number stored at place k of inode i: the direct slots, the indirect
      pointer (place NDIRECT), then the entries of the indirect block. 0 means none. */
  function At(fs: Fs, i: int, k: int): int {
    if !(0 <= i < |fs.inodes| && |fs.inodes[i].addrs| == NDIRECT + 1 && 0 <= k < PLACES) then 0
    else if k <= NDIRECT then fs.inodes[i].addrs[k]
    else
      var ind := fs.inodes[i].addrs[NDIRECT];
      if 0 < ind < |fs.data| && |fs.data[ind]| == BSIZE then Word(fs.data[ind], k - NDIRECT - 1) else 0
  }

  /** The place that bmap consults for the bn-th block of a file. */
  function Place(bn: int): int { if bn < NDIRECT then bn else bn + 1 }

  ghost predicate Shape(fs: Fs) {
    && |fs.used| == |fs.data|
    && (forall b :: 0 <= b < |fs.data| ==> |fs.data[b]| == BSIZE)
    && forall i :: 0 <= i < |fs.inodes| ==> |fs.inodes[i].addrs| == NDIRECT + 1
  }

  /** Everything stored at a place is an allocated block behind the metadata, and is stored nowhere else. */
  ghost predicate Exclusive(fs: Fs, meta: int) {
    && (forall i, k :: At(fs, i, k) != 0 ==> 0 < meta <= At(fs, i, k) < |fs.used| && fs.used[At(fs, i, k)])
    && forall i, k, j, l :: At(fs, i, k) != 0 && At(fs, i, k) == At(fs, j, l) ==> i == j && k == l
  }

  /** A bit of the bitmap is set exactly for metadata, for blocks stored at a place, and for
      blocks that are just being moved between the two (`loose`). */
  ghost predicate Accounted(fs: Fs, meta: int, loose: set<int>) {
    && (forall b :: 0 <= b < |fs.used| && fs.used[b] ==> b < meta || b in loose || exists i, k :: At(fs, i, k) == b)
    && (forall b :: 0 <= b < |fs.used| && b < meta ==> fs.used[b])
    && (forall b :: b in loose ==> 0 < meta <= b < |fs.used| && fs.used[b])
    && (forall i, k :: At(fs, i, k) !in loose)
  }

  ghost predicate Own(fs: Fs, meta: int, loose: set<int>) {
    meta > 0 && Shape(fs) && Exclusive(fs, meta) && Accounted(fs, meta, loose)
  }

  // ---------------------------------------------------------------- bytes

  /** Byte o of file i; a block that is not there reads as zeroes. */
  function Byte(fs: Fs, i: int, o: int): int {
    var a := At(fs, i, Place(o / BSIZE));
    if o >= 0 && 0 < a < |fs.data| && |fs.data[a]| == BSIZE then fs.data[a][o % BSIZE] else 0
  }

  /** The n bytes of file i from offset off on. */
  function Bytes(fs: Fs, i: int, off: int, n: nat): (r: seq<int>)
    ensures |r| == n
  {
    seq(n, k => Byte(fs, i, off + k))
  }

  ghost predicate SameBytes(fs: Fs, t: Fs) {
    forall i, o :: Byte(t, i, o) == Byte(fs, i, o)
  }

  /** No hole below the size: every block that holds a byte of file i is there. */
  ghost predicate Full(fs: Fs, i: int)
    requires 0 <= i < |fs.inodes|
  {
    0 <= fs.inodes[i].size <= MAXFILE * BSIZE
    && forall bn :: 0 <= bn && bn * BSIZE < fs.inodes[i].size ==> At(fs, i, Place(bn)) != 0
  }

  // ---------------------------------------------------------------- changes

  /** t stores b at the empty place (i, k), and is otherwise like fs. */
  ghost predicate Stored(fs: Fs, t: Fs, i: int, k: int, b: int) {
    && Shape(t) && t.used == fs.used
    && At(fs, i, k) == 0 && At(t, i, k) == b
    && forall j, l :: j != i || l != k ==> At(t, j, l) == At(fs, j, l)
  }

  lemma OwnStored(fs: Fs, t: Fs, meta: int, loose: set<int>, i: int, k: int, b: int)
    requires Own(fs, meta, loose) && b in loose && Stored(fs, t, i, k, b)
    ensures Own(t, meta, loose - {b})
  {
    hide At;
    assert Exclusive(t, meta);
    hide Exclusive;
    forall c | 0 <= c < |t.used| && t.used[c] && c >= meta && c !in loose - {b} ensures exists j, l :: At(t, j, l) == c {
      if c == b {
        assert At(t, i, k) == c;
      } else {
        var j, l :| At(fs, j, l) == c;
        assert At(t, j, l) == c;
      }
    }
    assert forall j, l :: At(t, j, l) !in loose - {b};
  }

  /** balloc: the block is marked, and cleared by bzero. */
  function Allocated(fs: Fs, b: int): Fs
    requires 0 <= b < |fs.used| && |fs.used| == |fs.data|
  {
    fs.(used := fs.used[b := true], data := fs.data[b := Zero()])
  }

  lemma AllocatedAt(fs: Fs, meta: int, loose: set<int>, b: int)
    requires Own(fs, meta, loose) && 0 <= b < |fs.used| && !fs.used[b]
    ensures forall i, k :: At(fs, i, k) != b && At(Allocated(fs, b), i, k) == At(fs, i, k)
  {
    var t := Allocated(fs, b);
    assert b >= meta;
    forall i, k ensures At(fs, i, k) != b && At(t, i, k) == At(fs, i, k) {
      if NDIRECT < k < PLACES && 0 <= i < |fs.inodes| {
        assert At(fs, i, NDIRECT) == fs.inodes[i].addrs[NDIRECT];
      }
    }
  }

  lemma OwnAllocated(fs: Fs, meta: int, loose: set<int>, b: int)
    requires Own(fs, meta, loose) && 0 <= b < |fs.used| && !fs.used[b]
    ensures Own(Allocated(fs, b), meta, loose + {b})
  {
    var t := Allocated(fs, b);
    AllocatedAt(fs, meta, loose, b);
    hide At;
    AccountedAllocated(fs, t, meta, loose, b);
    hide Accounted;
  }

  lemma AccountedAllocated(fs: Fs, t: Fs, meta: int, loose: set<int>, b: int)
    requires Accounted(fs, meta, loose) && meta > 0 && 0 <= b < |fs.used| && !fs.used[b] && t.used == fs.used[b := true]
    requires forall i, k :: At(fs, i, k) != b && At(t, i, k) == At(fs, i, k)
    ensures Accounted(t, meta, loose + {b})
  {
    hide At;
    forall c | 0 <= c < |t.used| && t.used[c] && c >= meta && c !in loose + {b} ensures exists i, k :: At(t, i, k) == c {
      var i, k :| At(fs, i, k) == c;
      assert At(t, i, k) == c;
    }
    assert b >= meta;
  }

  lemma SameBytesAllocated(fs: Fs, meta: int, loose: set<int>, b: int)
    requires Own(fs, meta, loose) && 0 <= b < |fs.used| && !fs.used[b]
    ensures SameBytes(fs, Allocated(fs, b))
  {
    AllocatedAt(fs, meta, loose, b);
    hide At, Own;
  }

  /** bmap stores a fresh block in the inode itself. */
  function SetAddr(fs: Fs, i: int, k: int, b: int): Fs
    requires 0 <= i < |fs.inodes| && 0 <= k < |fs.inodes[i].addrs|
  {
    fs.(inodes := fs.inodes[i := fs.inodes[i].(addrs := fs.inodes[i].addrs[k := b])])
  }

  lemma SetAddrAt(fs: Fs, i: int, k: int, b: int)
    requires Shape(fs) && 0 <= i < |fs.inodes| && 0 <= k <= NDIRECT && At(fs, i, k) == 0
    requires 0 < b < |fs.data| && (k == NDIRECT ==> fs.data[b] == Zero())
    ensures Stored(fs, SetAddr(fs, i, k, b), i, k, b)
  {
    var t := SetAddr(fs, i, k, b);
    forall j, l | j != i || l != k ensures At(t, j, l) == At(fs, j, l) {}
  }

  /** bmap stores a fresh block in the indirect block of inode i. */
  function SetEntry(fs: Fs, i: int, e: int, b: int): Fs
    requires Shape(fs) && 0 <= i < |fs.inodes| && 0 < fs.inodes[i].addrs[NDIRECT] < |fs.data| && 0 <= e < NINDIRECT
  {
    var ind := fs.inodes[i].addrs[NDIRECT];
    fs.(data := fs.data[ind := PutWord(fs.data[ind], e, b)])
  }

  lemma SetEntryAt(fs: Fs, meta: int, i: int, e: int, b: int)
    requires Shape(fs) && Exclusive(fs, meta)
    requires 0 <= i < |fs.inodes| && 0 < fs.inodes[i].addrs[NDIRECT] < |fs.data| && 0 <= e < NINDIRECT
    requires At(fs, i, NDIRECT + 1 + e) == 0
    ensures Stored(fs, SetEntry(fs, i, e, b), i, NDIRECT + 1 + e, b)
  {
    var t := SetEntry(fs, i, e, b);
    var ind := fs.inodes[i].addrs[NDIRECT];
    PutWordWord(fs.data[ind], e, b, e);
    hide Word, PutWord;
    forall j, l | j != i || l != NDIRECT + 1 + e ensures At(t, j, l) == At(fs, j, l) {
      if NDIRECT < l < PLACES && 0 <= j < |fs.inodes| {
        if j == i {
          PutWordWord(fs.data[ind], e, b, l - NDIRECT - 1);
        } else {
          assert At(fs, j, NDIRECT) == fs.inodes[j].addrs[NDIRECT] && At(fs, i, NDIRECT) == ind;
        }
      }
    }
  }

  /** A block that reads as zeroes may be stored at a place without changing any file. */
  lemma SameBytesStored(fs: Fs, t: Fs, i: int, k: int, b: int)
    requires Stored(fs, t, i, k, b) && |t.data| == |fs.data| && Shape(fs)
    requires 0 < b < |fs.data| && t.data[b] == Zero()
    requires forall c :: 0 <= c < |fs.data| && t.data[c] != fs.data[c] ==> forall j, l :: At(fs, j, l) == c ==> l == NDIRECT
    ensures SameBytes(fs, t)
  {
    hide At;
    forall j, o ensures Byte(t, j, o) == Byte(fs, j, o) {
      assert Place(o / BSIZE) != NDIRECT;
      if j == i && Place(o / BSIZE) == k {
        assert At(t, j, Place(o / BSIZE)) == b;
      } else {
        assert At(t, j, Place(o / BSIZE)) == At(fs, j, Place(o / BSIZE));
      }
    }
  }

  // ---------------------------------------------------------------- writing

  function Overlay(b: Block, at: int, src: seq<int>): (r: Block)
    requires 0 <= at && at + |src| <= |b|
    ensures |r| == |b|
  {
    b[..at] + src + b[at + |src|..]
  }

  /** t is fs with the bytes of src at offset off of file i. */
  ghost predicate Overlaid(fs: Fs, t: Fs, i: int, off: int, src: seq<int>) {
    forall j, o :: Byte(t, j, o) == if j == i && off <= o < off + |src| then src[o - off] else Byte(fs, j, o)
  }

  ghost predicate SameAt(fs: Fs, t: Fs) { forall j, l :: At(t, j, l) == At(fs, j, l) }

  lemma OverlayOne(fs: Fs, meta: int, i: int, bn: int, at: int, src: seq<int>)
    requires Own(fs, meta, {}) && 0 <= bn < MAXFILE && At(fs, i, Place(bn)) != 0
    requires 0 <= at && at + |src| <= BSIZE
    ensures var a := At(fs, i, Place(bn));
            0 <= a < |fs.data| && |fs.data[a]| == BSIZE
            && var t := fs.(data := fs.data[a := Overlay(fs.data[a], at, src)]);
               SameAt(fs, t) && Own(t, meta, {}) && Overlaid(fs, t, i, bn * BSIZE + at, src)
  {
    var a := At(fs, i, Place(bn));
    var t := fs.(data := fs.data[a := Overlay(fs.data[a], at, src)]);
    OverlayAt(fs, meta, i, bn, a, t);
    OwnSameAt(fs, t, meta, {});
    hide At, Own;
    forall j, o
      ensures Byte(t, j, o) == if j == i && bn * BSIZE + at <= o < bn * BSIZE + at + |src| then src[o - bn * BSIZE - at] else Byte(fs, j, o)
    {
      var p := Place(o / BSIZE);
      assert At(t, j, p) == At(fs, j, p);
      if At(fs, j, p) == a {
        assert j == i && p == Place(bn) by { assert Exclusive(fs, meta) by { OwnParts(fs, meta, {}); } }
        assert o / BSIZE == bn;
      } else {
        assert o / BSIZE != bn || j != i;
      }
    }
  }

  lemma OwnParts(fs: Fs, meta: int, loose: set<int>)
    requires Own(fs, meta, loose)
    ensures Exclusive(fs, meta) && Shape(fs)
  {}

  /** The data of a file is not an indirect block, so no place changes. */
  lemma OverlayAt(fs: Fs, meta: int, i: int, bn: int, a: int, t: Fs)
    requires Shape(fs) && Exclusive(fs, meta) && 0 <= bn < MAXFILE && a == At(fs, i, Place(bn)) != 0
    requires |t.data| == |fs.data| && t.inodes == fs.inodes && forall c :: 0 <= c < |fs.data| && c != a ==> t.data[c] == fs.data[c]
    ensures SameAt(fs, t)
  {
    forall j, l ensures At(t, j, l) == At(fs, j, l) {
      if NDIRECT < l < PLACES && 0 <= j < |fs.inodes| {
        assert At(fs, j, NDIRECT) == fs.inodes[j].addrs[NDIRECT];
      }
    }
  }

  lemma OwnSameAt(fs: Fs, t: Fs, meta: int, loose: set<int>)
    requires Own(fs, meta, loose) && SameAt(fs, t) && t.used == fs.used && Shape(t)
    ensures Own(t, meta, loose)
  {
    hide At;
    forall c | 0 <= c < |t.used| && t.used[c] && c >= meta && c !in loose ensures exists i, k :: At(t, i, k) == c {
      var i, k :| At(fs, i, k) == c;
      assert At(t, i, k) == c;
    }
  }

  lemma OverlaidJoin(fs: Fs, t: Fs, u: Fs, i: int, off: int, a: seq<int>, b: seq<int>)
    requires Overlaid(fs, t, i, off, a) && Overlaid(t, u, i, off + |a|, b)
    ensures Overlaid(fs, u, i, off, a + b)
  {
    hide Byte;
  }

  lemma OverlaidSame(fs: Fs, t: Fs, u: Fs, i: int, off: int, a: seq<int>)
    requires Overlaid(fs, t, i, off, a) && SameBytes(t, u)
    ensures Overlaid(fs, u, i, off, a)
  {
    hide Byte;
  }

  // ---------------------------------------------------------------- freeing

  /** From fs to t places are only emptied, and `gone` are the blocks that were stored there. */
  ghost predicate Detached(fs: Fs, t: Fs, gone: set<int>) {
    && t.used == fs.used && Shape(t)
    && (forall j, l :: At(t, j, l) == At(fs, j, l) || (At(t, j, l) == 0 && At(fs, j, l) in gone))
    && (forall b :: b in gone ==> b != 0 && exists j, l :: At(fs, j, l) == b && At(t, j, l) == 0)
  }

  lemma OwnDetached(fs: Fs, t: Fs, meta: int, loose: set<int>, gone: set<int>)
    requires Own(fs, meta, loose) && Detached(fs, t, gone)
    ensures Own(t, meta, loose + gone)
  {
    hide At;
    forall c | 0 <= c < |t.used| && t.used[c] && c >= meta && c !in loose + gone ensures exists i, k :: At(t, i, k) == c {
      var i, k :| At(fs, i, k) == c;
      assert At(t, i, k) == c;
    }
    forall b | b in gone ensures 0 < meta <= b < |t.used| && t.used[b] {
      var j, l :| At(fs, j, l) == b && At(t, j, l) == 0;
    }
    forall i, k, b | b in gone ensures At(t, i, k) != b {
      var j, l :| At(fs, j, l) == b && At(t, j, l) == 0;
      assert At(t, i, k) == At(fs, i, k) || At(t, i, k) == 0;
    }
  }

  /** bfree clears the bit of a loose block. */
  lemma OwnFreed(fs: Fs, meta: int, loose: set<int>, b: int)
    requires Own(fs, meta, loose) && b in loose
    ensures 0 <= b < |fs.used| && fs.used[b] && Own(fs.(used := fs.used[b := false]), meta, loose - {b})
    ensures SameAt(fs, fs.(used := fs.used[b := false]))
  {
    var t := fs.(used := fs.used[b := false]);
    assert SameAt(fs, t);
    hide At;
    forall c | 0 <= c < |t.used| && t.used[c] && c >= meta && c !in loose - {b} ensures exists i, k :: At(t, i, k) == c {
      var i, k :| At(fs, i, k) == c;
      assert At(t, i, k) == c;
    }
  }

  /** The block numbers in the entries of an indirect block, from entry e on. */
  function Entries(b: Block, e: int): set<int>
    requires |b| == BSIZE && 0 <= e <= NINDIRECT
    decreases NINDIRECT - e
  {
    if e == NINDIRECT then {}
    else if Word(b, e) == 0 then Entries(b, e + 1)
    else {Word(b, e)} + Entries(b, e + 1)
  }

  lemma {:induction false} EntriesMember(b: Block, e: int)
    requires |b| == BSIZE && 0 <= e <= NINDIRECT
    ensures forall j :: e <= j < NINDIRECT && Word(b, j) != 0 ==> Word(b, j) in Entries(b, e)
    ensures forall x :: x in Entries(b, e) ==> x != 0 && exists j :: e <= j < NINDIRECT && Word(b, j) == x
    decreases NINDIRECT - e
  {
    hide Word;
    if e < NINDIRECT { EntriesMember(b, e + 1); }
  }

  lemma DetachDirect(fs: Fs, i: int, k: int)
    requires Shape(fs) && 0 <= i < |fs.inodes| && 0 <= k < NDIRECT && At(fs, i, k) != 0
    ensures Detached(fs, SetAddr(fs, i, k, 0), {At(fs, i, k)})
  {
    var t := SetAddr(fs, i, k, 0);
    assert At(t, i, k) == 0;
    forall j, l ensures At(t, j, l) == if j == i && l == k then 0 else At(fs, j, l) {}
  }

  lemma EntryAt(fs: Fs, i: int, e: int)
    requires Shape(fs) && 0 <= i < |fs.inodes| && 0 <= e < NINDIRECT && 0 < At(fs, i, NDIRECT) < |fs.data|
    ensures At(fs, i, NDIRECT + 1 + e) == Word(fs.data[At(fs, i, NDIRECT)], e)
  {}

  lemma DropIndirectAt(fs: Fs, i: int)
    requires Shape(fs) && 0 <= i < |fs.inodes|
    ensures var t := SetAddr(fs, i, NDIRECT, 0);
            Shape(t) && forall j, l :: At(t, j, l) == if j == i && l >= NDIRECT then 0 else At(fs, j, l)
  {}

  lemma EntryIn(fs: Fs, i: int, l: int)
    requires Shape(fs) && 0 <= i < |fs.inodes| && NDIRECT <= l && 0 < At(fs, i, NDIRECT) < |fs.data|
    ensures At(fs, i, l) != 0 ==> At(fs, i, l) in {At(fs, i, NDIRECT)} + Entries(fs.data[At(fs, i, NDIRECT)], 0)
  {
    EntriesMember(fs.data[At(fs, i, NDIRECT)], 0);
    if NDIRECT < l < PLACES { EntryAt(fs, i, l - NDIRECT - 1); }
  }

  /** Dropping the indirect pointer empties its place and those of all entries. */
  lemma DetachIndirect(fs: Fs, meta: int, i: int)
    requires Shape(fs) && Exclusive(fs, meta) && 0 <= i < |fs.inodes| && At(fs, i, NDIRECT) != 0
    ensures var ind := At(fs, i, NDIRECT);
            0 < ind < |fs.data| && |fs.data[ind]| == BSIZE
            && Detached(fs, SetAddr(fs, i, NDIRECT, 0), {ind} + Entries(fs.data[ind], 0))
  {
    var ind := At(fs, i, NDIRECT);
    var t := SetAddr(fs, i, NDIRECT, 0);
    var gone := {ind} + Entries(fs.data[ind], 0);
    DropIndirectAt(fs, i);
    EntriesMember(fs.data[ind], 0);
    hide At, Word, Exclusive, Entries;
    forall l | l >= NDIRECT ensures At(fs, i, l) == 0 || At(fs, i, l) in gone { EntryIn(fs, i, l); }
    forall b | b in gone ensures b != 0 && exists j, l :: At(fs, j, l) == b && At(t, j, l) == 0 {
      if b == ind {
        assert At(fs, i, NDIRECT) == b && At(t, i, NDIRECT) == 0;
      } else {
        var e :| 0 <= e < NINDIRECT && Word(fs.data[ind], e) == b;
        EntryAt(fs, i, e);
        assert At(fs, i, NDIRECT + 1 + e) == b && At(t, i, NDIRECT + 1 + e) == 0;
      }
    }
  }

  /** The entries of an indirect block that is in use differ from each other and from the block itself. */
  lemma EntriesDistinct(fs: Fs, meta: int, i: int, e: int)
    requires Shape(fs) && Exclusive(fs, meta) && 0 <= i < |fs.inodes| && 0 <= e < NINDIRECT
    requires 0 < At(fs, i, NDIRECT) < |fs.data|
    ensures var b := fs.data[At(fs, i, NDIRECT)];
            Word(b, e) !in Entries(b, e + 1) && Word(b, e) != At(fs, i, NDIRECT)
  {
    var b := fs.data[At(fs, i, NDIRECT)];
    EntryAt(fs, i, e);
    EntriesMember(b, e + 1);
    forall j | e < j < NINDIRECT && Word(b, j) != 0 ensures Word(b, j) != Word(b, e) {
      EntryAt(fs, i, j);
      assert NDIRECT + 1 + j != NDIRECT + 1 + e;
    }
  }
}

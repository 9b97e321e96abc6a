/** balloc, bfree, bmap, itrunc, readi and writei of OS/xv6-public/fs.c. */
module FsFiles {
  import opened FsBlocks

  const BPB: int := BSIZE * 8          // bits in a bitmap block
  const UINT_RANGE: int := 0x1_0000_0000
  const PANIC: int := -2

  function Min(a: int, b: int): int { if a < b then a else b }

  function NoFile(): Inode { Inode(0, seq(NDIRECT + 1, _ => 0)) }

  /** Without files, exactly the metadata is allocated. */
  lemma FreshOwned(fs: Fs, size: int, meta: int, ninodes: nat)
    requires 0 < meta <= size && fs.used == seq(size, b => b < meta) && fs.data == seq(size, _ => Zero())
    requires fs.inodes == seq(ninodes, _ => NoFile())
    ensures Own(fs, meta, {}) && (forall i, o :: Byte(fs, i, o) == 0) && forall i :: 0 <= i < ninodes ==> Full(fs, i)
  {
    assert forall i, k :: At(fs, i, k) == 0;
  }

  class FileSystem {
    const meta: int                     // first block behind the bitmap
    var used: seq<bool>                 // the bitmap
    var data: seq<Block>                // what bread returns
    var inodes: seq<Inode>              // inodes in memory
    var dinodes: seq<Inode>             // the same inodes in their disk blocks
    ghost var loose: set<int>           // allocated, but not yet (or no longer) stored anywhere

    ghost function S(): Fs reads this { Fs(used, data, inodes) }

    ghost predicate Steady() reads this { Own(S(), meta, loose) && |dinodes| == |inodes| && |used| < UINT_RANGE }

    ghost predicate Valid() reads this { Steady() && loose == {} }

    /** Every bit is set: balloc panics exactly then. */
    ghost predicate DiskFull() reads this { forall c :: 0 <= c < |used| ==> used[c] }

    /** An image without files, as mkfs lays it out: the bits below meta are set. */
    constructor (size: int, meta: int, ninodes: nat)
      requires 0 < meta <= size < UINT_RANGE
      ensures Valid() && this.meta == meta && |used| == size && |inodes| == ninodes && dinodes == inodes
      ensures forall i, o :: Byte(S(), i, o) == 0
      ensures forall i :: 0 <= i < ninodes ==> inodes[i].size == 0 && Full(S(), i)
    {
      this.meta := meta;
      used := seq(size, b => b < meta);
      data := seq(size, _ => Zero());
      inodes := seq(ninodes, _ => NoFile());
      dinodes := seq(ninodes, _ => NoFile());
      loose := {};
      new;
      FreshOwned(S(), size, meta, ninodes);
    }

    /** Places that hold a block keep it, and no size changes. */
    twostate predicate Grown()
      reads this
    {
      && (forall i, k :: old(At(S(), i, k)) != 0 ==> At(S(), i, k) == old(At(S(), i, k)))
      && |inodes| == old(|inodes|) && forall i :: 0 <= i < |inodes| ==> inodes[i].size == old(inodes[i].size)
    }

    /** First fit over the bitmap, one bitmap block after the other; -1 stands for the panic. */
    method Balloc() returns (b: int)
      requires Steady()
      modifies this`used, this`data, this`loose
      ensures Steady() && SameBytes(old(S()), S()) && |used| == old(|used|)
      ensures b == -1 ==> S() == old(S()) && loose == old(loose) && DiskFull()
      ensures b != -1 ==>
        && 0 < meta <= b < |used| && !old(used[b]) && (forall c :: 0 <= c < b ==> old(used[c]))
        && b !in old(loose) && loose == old(loose) + {b} && S() == Allocated(old(S()), b)
        && forall i, k :: At(S(), i, k) == old(At(S(), i, k))
    {
      hide Own, Byte, At;
      b := 0;
      while b < |used|
        invariant 0 <= b && b % BPB == 0
        invariant forall c :: 0 <= c < b && c < |used| ==> used[c]
      {
        var bi := 0;
        while bi < BPB && b + bi < |used|
          invariant 0 <= bi <= BPB
          invariant forall c :: 0 <= c < b + bi && c < |used| ==> used[c]
        {
          if !used[b + bi] {
            b := b + bi;
            ghost var was := S();
            AllocFacts(was, meta, loose, b);
            used := used[b := true];
            data := data[b := Zero()];
            loose := loose + {b};
            assert S() == Allocated(was, b);
            return;
          }
          bi := bi + 1;
        }
        b := b + BPB;
      }
      SameBytesRefl(S());
      b := -1;
    }

    /** `if((addr = ip->addrs[k]) == 0) ip->addrs[k] = addr = balloc(ip->dev)` */
    method AddrOrAlloc(i: int, k: int) returns (addr: int)
      requires Valid() && 0 <= i < |inodes| && 0 <= k <= NDIRECT
      modifies this`used, this`data, this`inodes, this`loose
      ensures Valid() && SameBytes(old(S()), S()) && Grown() && |used| == old(|used|)
      ensures inodes == old(inodes)[i := inodes[i]]
      ensures addr == -1 ==> S() == old(S()) && DiskFull()
      ensures addr != -1 ==> addr == At(S(), i, k) && 0 < addr < |data| && |data[addr]| == BSIZE
      ensures old(At(S(), i, k)) != 0 ==> S() == old(S()) && addr == old(At(S(), i, k)) > 0
    {
      hide Own, Byte, At, SameBytes;
      AddrFacts(S(), meta, loose, i, k);
      addr := inodes[i].addrs[k];
      if addr == 0 {
        addr := AllocAt(i, k);
      } else {
        SameBytesRefl(S());
      }
    }

    /** `ip->addrs[k] = addr = balloc(ip->dev)` */
    method AllocAt(i: int, k: int) returns (addr: int)
      requires Valid() && 0 <= i < |inodes| && 0 <= k <= NDIRECT && At(S(), i, k) == 0
      modifies this`used, this`data, this`inodes, this`loose
      ensures Valid() && SameBytes(old(S()), S()) && Grown() && |used| == old(|used|)
      ensures inodes == old(inodes)[i := inodes[i]]
      ensures addr == -1 ==> S() == old(S()) && DiskFull()
      ensures addr != -1 ==> addr == At(S(), i, k) && 0 < addr < |data| && |data[addr]| == BSIZE
    {
      hide Own, Byte, At, SameBytes;
      AddrFacts(S(), meta, loose, i, k);
      addr := Balloc();
      if addr != -1 {
        ghost var mid := S();
        StoreAddrFacts(mid, meta, loose, i, k, addr);
        inodes := inodes[i := inodes[i].(addrs := inodes[i].addrs[k := addr])];
        loose := loose - {addr};
        assert S() == SetAddr(mid, i, k, addr);
        SameBytesTrans(old(S()), mid, S());
      }
    }

    /** The block that holds the bn-th block of file i; allocated, and cleared, if there is none. */
    method Bmap(i: int, bn: int) returns (addr: int)
      requires Valid() && 0 <= i < |inodes| && 0 <= bn < MAXFILE
      modifies this`used, this`data, this`inodes, this`loose
      ensures Valid() && SameBytes(old(S()), S()) && Grown() && |used| == old(|used|)
      ensures inodes == old(inodes)[i := inodes[i]]
      ensures addr == -1 ==> DiskFull()
      ensures addr != -1 ==> addr == At(S(), i, Place(bn)) && addr != 0 && Located(S(), i, bn, addr)
      ensures old(At(S(), i, Place(bn))) != 0 ==> S() == old(S()) && addr == old(At(S(), i, Place(bn))) > 0
    {
      hide Own, Byte, At, SameBytes, Located;
      if bn < NDIRECT {
        addr := AddrOrAlloc(i, bn);
        if addr != -1 { PlaceIsLocated(S(), meta, i, bn); }
        return;
      }
      var e := bn - NDIRECT;
      assert bn == NDIRECT + e;
      IndirectFirst(S(), i, e);
      addr := AddrOrAlloc(i, NDIRECT);
      if addr == -1 { return; }
      ghost var was := S();
      addr := EntryOrAlloc(i, e, addr);
      if addr != -1 { PlaceIsLocated(S(), meta, i, bn); }
      SameBytesTrans(old(S()), was, S());
    }

    /** The same for entry e of the indirect block. */
    method EntryOrAlloc(i: int, e: int, ind: int) returns (addr: int)
      requires Valid() && 0 <= i < |inodes| && 0 <= e < NINDIRECT
      requires ind == At(S(), i, NDIRECT) && 0 < ind < |data| && |data[ind]| == BSIZE
      modifies this`used, this`data, this`loose
      ensures Valid() && SameBytes(old(S()), S()) && Grown() && |used| == old(|used|)
      ensures inodes == old(inodes)[i := inodes[i]]
      ensures addr == -1 ==> DiskFull()
      ensures addr != -1 ==> addr == At(S(), i, Place(NDIRECT + e)) && addr != 0
      ensures old(At(S(), i, Place(NDIRECT + e))) != 0 ==> S() == old(S()) && addr == old(At(S(), i, Place(NDIRECT + e))) > 0
    {
      hide Own, Byte, At, SameBytes, Word, PutWord;
      EntryFacts(S(), meta, loose, i, e, ind);
      addr := Word(data[ind], e);
      if addr == 0 {
        addr := Balloc();
        if addr != -1 {
          ghost var mid := S();
          StoreEntryFacts(mid, meta, loose, i, e, addr);
          data := data[ind := PutWord(data[ind], e, addr)];
          loose := loose - {addr};
          assert S() == SetEntry(mid, i, e, addr);
          SameBytesTrans(old(S()), mid, S());
        }
      } else {
        SameBytesRefl(S());
      }
    }
  
    // ---------------------------------------------------------------- reading and writing

    /** Offsets and counts are unsigned ints, and `off + n < off` detects a wrapped sum. */
    predicate Wraps(off: int, n: int) { (off + n) % UINT_RANGE < off }

    method Readi(i: int, off0: int, n0: int) returns (r: int, dst: seq<int>)
      requires Valid() && 0 <= i < |inodes| && 0 <= inodes[i].size <= MAXFILE * BSIZE
      requires 0 <= off0 < UINT_RANGE && 0 <= n0 < UINT_RANGE
      modifies this`used, this`data, this`inodes, this`loose
      ensures Valid() && SameBytes(old(S()), S()) && Grown()
      ensures r == -1 <==> off0 > old(inodes[i].size) || off0 + n0 >= 0x1_0000_0000
      ensures r == -1 ==> S() == old(S())
      ensures r >= 0 ==> r == (if off0 + n0 > old(inodes[i].size) then old(inodes[i].size) - off0 else n0) && |dst| == r
      ensures r >= 0 ==> dst == Bytes(old(S()), i, off0, r) && forall k :: 0 <= k < r ==> dst[k] == old(Byte(S(), i, off0 + k))
      ensures r >= 0 || r == -1 || (r == PANIC && DiskFull())
      ensures old(Full(S(), i)) ==> r != PANIC && S() == old(S())
    {
      hide Own, Byte, At, SameBytes, Full, Bytes;
      SameBytesRefl(S());
      dst := [];
      if off0 > inodes[i].size || Wraps(off0, n0) { return -1, dst; }
      var n := n0;
      if off0 + n > inodes[i].size { n := inodes[i].size - off0; }
      var tot, off := 0, off0;
      BytesJoin(S(), i, off0, 0, 0);
      while tot < n
        invariant Valid() && SameBytes(old(S()), S()) && Grown()
        invariant 0 <= tot <= n && off == off0 + tot && dst == Bytes(old(S()), i, off0, tot)
        invariant old(Full(S(), i)) ==> S() == old(S())
      {
        ghost var was := S();
        FullFacts(was, i, off);
        var bp := Bmap(i, off / BSIZE);
        SameBytesTrans(old(S()), was, S());
        if bp == -1 { return PANIC, dst; }
        var m := Min(n - tot, BSIZE - off % BSIZE);
        BlockFacts(S(), meta, i, off, m);
        BytesSame(old(S()), S(), i, off, m);
        BytesJoin(old(S()), i, off0, tot, m);
        dst := dst + data[bp][off % BSIZE..off % BSIZE + m];
        tot, off := tot + m, off + m;
      }
      BytesAre(old(S()), i, off0, n);
      r := n;
    }
  
    /** One round of the loop of writei: the part of the data that goes into one block. */
    method WriteChunk(i: int, off: int, piece: seq<int>) returns (ok: bool)
      requires Valid() && 0 <= i < |inodes| && 0 <= off < MAXFILE * BSIZE && |piece| <= BSIZE - off % BSIZE
      modifies this`used, this`data, this`inodes, this`loose
      ensures Valid() && Grown() && inodes == old(inodes)[i := inodes[i]]
      ensures !ok ==> DiskFull() && SameBytes(old(S()), S())
      ensures ok ==> Overlaid(old(S()), S(), i, off, piece) && At(S(), i, Place(off / BSIZE)) != 0
      ensures old(At(S(), i, Place(off / BSIZE))) != 0 ==> ok && inodes == old(inodes)
    {
      hide Own, Byte, At, SameBytes, Overlaid;
      OffsetFacts(S(), i, off);
      var bp := Bmap(i, off / BSIZE);
      if bp == -1 { return false; }
      ghost var mid := S();
      OverlayOne(mid, meta, i, off / BSIZE, off % BSIZE, piece);
      data := data[bp := Overlay(data[bp], off % BSIZE, piece)];
      assert S() == mid.(data := data);
      SameOverlaid(old(S()), mid, S(), i, off, piece);
      ok := true;
    }

    method Writei(i: int, src: seq<int>, off0: int) returns (r: int)
      requires Valid() && 0 <= i < |inodes| && 0 <= inodes[i].size
      requires 0 <= off0 < UINT_RANGE && |src| < UINT_RANGE
      modifies this`used, this`data, this`inodes, this`dinodes, this`loose
      ensures Valid() && |inodes| == old(|inodes|)
      ensures r == -1 <==> off0 > old(inodes[i].size) || off0 + |src| >= 0x1_0000_0000 || off0 + |src| > (12 + 128) * 512
      ensures r == -1 ==> S() == old(S()) && dinodes == old(dinodes)
      ensures r == |src| || r == -1 || (r == PANIC && DiskFull())
      ensures r >= 0 ==>
        && Overlaid(old(S()), S(), i, off0, src)
        && inodes[i].size == (if off0 + |src| > old(inodes[i].size) then off0 + |src| else old(inodes[i].size))
        && (old(Full(S(), i)) ==> Full(S(), i))
        && (old(Full(S(), i)) && old(dinodes == inodes) ==> dinodes == inodes)
      ensures forall j :: 0 <= j < |inodes| && j != i ==> inodes[j] == old(inodes[j])
      ensures forall j, k :: old(At(S(), j, k)) != 0 ==> At(S(), j, k) == old(At(S(), j, k))
    {
      hide Own, Byte, At, SameBytes, Full, Overlaid;
      var n := |src|;
      if off0 > inodes[i].size || Wraps(off0, n) { return -1; }
      if (off0 + n) % UINT_RANGE > MAXFILE * BSIZE { return -1; }
      var tot, off := 0, off0;
      OverlaidNothing(S(), i, off0);
      while tot < n
        invariant Valid() && 0 <= tot <= n && off == off0 + tot && Grown() && inodes == old(inodes)[i := inodes[i]]
        invariant Overlaid(old(S()), S(), i, off0, src[..tot])
        invariant Visited(S(), i, off0, off)
        invariant old(Full(S(), i)) && off0 + n <= old(inodes[i].size) ==> inodes == old(inodes)
        modifies this`used, this`data, this`inodes, this`loose
      {
        ghost var was := S();
        OffsetFacts(was, i, off);
        OldBlocks(old(S()), was, i, off);
        var m := Min(n - tot, BSIZE - off % BSIZE);
        var ok := WriteChunk(i, off, src[tot..tot + m]);
        if !ok { return PANIC; }
        OverlaidJoin(old(S()), was, S(), i, off0, src[..tot], src[tot..tot + m]);
        assert src[..tot] + src[tot..tot + m] == src[..tot + m];
        VisitedStep(was, S(), i, off0, off, m);
        tot, off := tot + m, off + m;
      }
      assert src[..n] == src;
      if n > 0 && off > inodes[i].size { GrowTo(i, off, src, off0, old(S())); }
      if old(Full(S(), i)) { FullAfter(old(S()), S(), i, off0, off); }
      r := n;
    }

    /** `ip->size = off; iupdate(ip)` */
    method GrowTo(i: int, size: int, ghost src: seq<int>, ghost off0: int, ghost start: Fs)
      requires Valid() && 0 <= i < |inodes| && Overlaid(start, S(), i, off0, src)
      modifies this`inodes, this`dinodes
      ensures Valid() && inodes == old(inodes)[i := old(inodes)[i].(size := size)]
      ensures dinodes == old(dinodes)[i := inodes[i]]
      ensures SameAt(old(S()), S()) && Overlaid(start, S(), i, off0, src)
    {
      hide Own, Byte, At, SameBytes, Overlaid, SameAt;
      ghost var before := S();
      SizeOnly(before, meta, i, size);
      inodes := inodes[i := inodes[i].(size := size)];
      dinodes := dinodes[i := inodes[i]];
      assert S() == before.(inodes := before.inodes[i := before.inodes[i].(size := size)]);
      OverlaidSame(start, before, S(), i, off0, src);
    }
  
    // ---------------------------------------------------------------- freeing

    method Bfree(b: int) returns (panic: bool)
      requires 0 <= b < |used|
      modifies this`used
      ensures panic <==> !old(used[b])
      ensures used == if panic then old(used) else old(used)[b := false]
    {
      if !used[b] { return true; }   // "freeing free block"
      used := used[b := false];
      panic := false;
    }

    /** One direct slot of itrunc. */
    method FreeSlot(i: int, k: int) returns (panic: bool)
      requires Valid() && 0 <= i < |inodes| && 0 <= k < NDIRECT
      modifies this`used, this`inodes, this`loose
      ensures Valid() && !panic && |used| == old(|used|)
      ensures At(S(), i, k) == 0 && forall j, l :: j != i || l != k ==> At(S(), j, l) == old(At(S(), j, l))
      ensures inodes == old(inodes)[i := inodes[i]]
    {
      hide Own, At;
      AddrFacts(S(), meta, loose, i, k);
      panic := false;
      if inodes[i].addrs[k] != 0 {
        var b := inodes[i].addrs[k];
        SlotFacts(S(), meta, i, k);
        panic := Bfree(b);
        inodes := inodes[i := inodes[i].(addrs := inodes[i].addrs[k := 0])];
        assert S() == SetAddr(old(S()), i, k, 0).(used := old(used)[b := false]);
      }
    }

    /** The loop of itrunc over the entries a of the indirect block; t is the file system without that block. */
    method FreeEntries(a: Block, ghost ind: int, ghost t: Fs) returns (panic: bool)
      requires |a| == BSIZE && loose == {ind} + Entries(a, 0) && Own(t.(used := used), meta, loose)
      requires NoRepeats(a, ind)
      modifies this`used, this`loose
      ensures !panic && |used| == old(|used|) && loose == {ind} && Own(t.(used := used), meta, loose)
    {
      hide Own, Word, At, Entries, NoRepeats;
      NoEntriesLeft(a);
      panic := false;
      var j := 0;
      while j < NINDIRECT
        invariant 0 <= j <= NINDIRECT && !panic && loose == {ind} + Entries(a, j)
        invariant |used| == old(|used|) && Own(t.(used := used), meta, loose)
      {
        var x := Word(a, j);
        EntriesStep(a, ind, j);
        if x != 0 {
          OwnFreed(t.(used := used), meta, loose, x);
          panic := Bfree(x);
          loose := loose - {x};
        }
        j := j + 1;
      }
    }

    /** The indirect block of itrunc: all blocks it lists, then the block itself. */
    method FreeIndirect(i: int) returns (panic: bool)
      requires Valid() && 0 <= i < |inodes|
      modifies this`used, this`inodes, this`loose
      ensures Valid() && !panic && |used| == old(|used|)
      ensures forall j, l :: At(S(), j, l) == if j == i && l >= NDIRECT then 0 else old(At(S(), j, l))
      ensures inodes == old(inodes)[i := inodes[i]]
    {
      hide Own, At, Word, Entries, NoRepeats;
      AddrFacts(S(), meta, loose, i, NDIRECT);
      panic := false;
      if inodes[i].addrs[NDIRECT] == 0 {
        NoEntries(S(), i);
      } else {
        var ind := inodes[i].addrs[NDIRECT];
        ghost var t := SetAddr(S(), i, NDIRECT, 0);
        IndirectFacts(S(), meta, i);
        loose := {ind} + Entries(data[ind], 0);
        assert t.(used := used) == t;
        panic := FreeEntries(data[ind], ind, t);
        OwnFreed(t.(used := used), meta, loose, ind);
        panic := Bfree(ind);
        inodes := inodes[i := inodes[i].(addrs := inodes[i].addrs[NDIRECT := 0])];
        loose := loose - {ind};
        assert S() == t.(used := used);
        UsedOnly(t, S());
      }
    }

    /** Frees everything the inode owned, and nothing else; no panic is possible. */
    method Itrunc(i: int) returns (panic: bool)
      requires Valid() && 0 <= i < |inodes|
      modifies this`used, this`inodes, this`dinodes, this`loose
      ensures Valid() && !panic && |inodes| == old(|inodes|) && inodes[i].size == 0
      ensures inodes == old(inodes)[i := inodes[i]] && dinodes == old(dinodes)[i := inodes[i]]
      ensures forall k :: At(S(), i, k) == 0
      ensures forall j, l :: j != i ==> At(S(), j, l) == old(At(S(), j, l))
      ensures forall j, o :: j != i ==> Byte(S(), j, o) == old(Byte(S(), j, o))
      ensures |used| == old(|used|)
      ensures forall b :: 0 <= b < |used| ==>
        (used[b] <==> old(used[b]) && forall k :: old(At(S(), i, k)) != b || b == 0)
    {
      hide Own, At, Byte;
      ghost var fs := S();
      var k := 0;
      panic := false;
      while k < NDIRECT
        invariant 0 <= k <= NDIRECT && Valid() && !panic && |used| == old(|used|)
        invariant inodes == old(inodes)[i := inodes[i]]
        invariant forall j, l :: At(S(), j, l) == if j == i && 0 <= l < k then 0 else At(fs, j, l)
        modifies this`used, this`inodes, this`loose
      {
        panic := FreeSlot(i, k);
        k := k + 1;
      }
      panic := FreeIndirect(i);
      NoPlace(fs, i);
      ghost var before := S();
      SizeOnly(before, meta, i, 0);
      inodes := inodes[i := inodes[i].(size := 0)];
      dinodes := dinodes[i := inodes[i]];
      assert S() == before.(inodes := before.inodes[i := before.inodes[i].(size := 0)]);
      FreedExactly(fs, S(), meta, i);
      OthersUntouched(fs, S(), i);
    }
  }

  /** Where the inode says that block bn of the file is: in one of the first twelve words of addrs, or, as a
      little-endian word, in the block that the thirteenth names. */
  predicate Located(fs: Fs, i: int, bn: int, addr: int) {
    && 0 <= i < |fs.inodes| && |fs.inodes[i].addrs| == 13 && 0 <= bn < 140
    && var addrs := fs.inodes[i].addrs;
       if bn < 12 then addr == addrs[bn]
       else
         && 0 < addrs[12] < |fs.data| && |fs.data[addrs[12]]| == 512
         && var b, j := fs.data[addrs[12]], 4 * (bn - 12);
            addr == b[j] + 256 * (b[j + 1] + 256 * (b[j + 2] + 256 * b[j + 3]))
  }

  lemma PlaceIsLocated(fs: Fs, meta: int, i: int, bn: int)
    requires Own(fs, meta, {}) && 0 <= i < |fs.inodes| && 0 <= bn < 140 && At(fs, i, Place(bn)) != 0
    ensures Located(fs, i, bn, At(fs, i, Place(bn)))
  {}

  /** The bytes of a file by its inode: byte o is byte o % 512 of the block that is located for o / 512, and
      0 where there is no block. */
  lemma ByteIsLocated(fs: Fs, meta: int, i: int, o: int, addr: int)
    requires Own(fs, meta, {}) && 0 <= i < |fs.inodes| && 0 <= o < 140 * 512
    requires Located(fs, i, o / 512, addr)
    ensures Byte(fs, i, o) == if 0 < addr < |fs.data| && |fs.data[addr]| == 512 then fs.data[addr][o % 512] else 0
  {}

  lemma NoIndirectReadsZero(fs: Fs, i: int, o: int)
    requires 0 <= i < |fs.inodes| && |fs.inodes[i].addrs| == 13 && fs.inodes[i].addrs[12] == 0 && o >= 12 * 512
    ensures Byte(fs, i, o) == 0
  {}

  lemma SlotFacts(fs: Fs, meta: int, i: int, k: int)
    requires Own(fs, meta, {}) && 0 <= i < |fs.inodes| && 0 <= k < NDIRECT && At(fs, i, k) != 0
    ensures var b := At(fs, i, k);
            |fs.inodes[i].addrs| == NDIRECT + 1 && 0 < b < |fs.used| && fs.used[b]
            && var t := SetAddr(fs, i, k, 0).(used := fs.used[b := false]);
               Own(t, meta, {}) && At(t, i, k) == 0 && forall j, l :: j != i || l != k ==> At(t, j, l) == At(fs, j, l)
  {
    var b := At(fs, i, k);
    var t := SetAddr(fs, i, k, 0);
    DetachDirect(fs, i, k);
    OwnDetached(fs, t, meta, {}, {b});
    OwnFreed(t, meta, {} + {b}, b);
    assert {} + {b} - {b} == {};
    forall j, l ensures At(t, j, l) == if j == i && l == k then 0 else At(fs, j, l) {}
    UsedOnly(t, t.(used := fs.used[b := false]));
  }

  lemma UsedOnly(fs: Fs, t: Fs)
    requires t.data == fs.data && t.inodes == fs.inodes
    ensures forall j, l :: At(t, j, l) == At(fs, j, l)
  {}

  lemma NoEntries(fs: Fs, i: int)
    requires 0 <= i < |fs.inodes| && At(fs, i, NDIRECT) == 0
    ensures forall l :: l >= NDIRECT ==> At(fs, i, l) == 0
  {}

  lemma NoPlace(fs: Fs, i: int)
    ensures forall l :: l < 0 ==> At(fs, i, l) == 0
  {}

  /** The blocks listed by an indirect block are different from each other and from it. */
  ghost predicate NoRepeats(a: Block, ind: int)
    requires |a| == BSIZE
  {
    forall e :: 0 <= e < NINDIRECT ==> Word(a, e) !in Entries(a, e + 1) && Word(a, e) != ind
  }

  lemma EntriesStep(a: Block, ind: int, j: int)
    requires |a| == BSIZE && 0 <= j < NINDIRECT && NoRepeats(a, ind)
    ensures Word(a, j) == 0 ==> Entries(a, j) == Entries(a, j + 1)
    ensures Word(a, j) != 0 ==>
      Word(a, j) in {ind} + Entries(a, j) && {ind} + Entries(a, j) - {Word(a, j)} == {ind} + Entries(a, j + 1)
  {
    hide Word;
  }

  lemma NoEntriesLeft(a: Block)
    requires |a| == BSIZE
    ensures Entries(a, NINDIRECT) == {}
  {}

  lemma IndirectFacts(fs: Fs, meta: int, i: int)
    requires Own(fs, meta, {}) && 0 <= i < |fs.inodes| && At(fs, i, NDIRECT) != 0
    ensures |fs.inodes[i].addrs| == NDIRECT + 1
    ensures var ind := At(fs, i, NDIRECT);
            var t := SetAddr(fs, i, NDIRECT, 0);
            0 < ind < |fs.data| && |fs.data[ind]| == BSIZE && NoRepeats(fs.data[ind], ind)
            && Own(t, meta, {ind} + Entries(fs.data[ind], 0))
            && forall j, l :: At(t, j, l) == if j == i && l >= NDIRECT then 0 else At(fs, j, l)
  {
    var ind := At(fs, i, NDIRECT);
    var t := SetAddr(fs, i, NDIRECT, 0);
    DetachIndirect(fs, meta, i);
    DropIndirectAt(fs, i);
    forall e | 0 <= e < NINDIRECT ensures Word(fs.data[ind], e) !in Entries(fs.data[ind], e + 1) && Word(fs.data[ind], e) != ind {
      EntriesDistinct(fs, meta, i, e);
    }
    hide At, Own, Word, Entries;
    var gone := {ind} + Entries(fs.data[ind], 0);
    OwnDetached(fs, t, meta, {}, gone);
    assert {} + gone == gone;
  }

  /** The bits that are cleared are those of the blocks the inode held. */
  lemma FreedExactly(fs: Fs, t: Fs, meta: int, i: int)
    requires Own(fs, meta, {}) && Own(t, meta, {}) && |t.used| == |fs.used|
    requires forall j, l :: At(t, j, l) == if j == i then 0 else At(fs, j, l)
    ensures forall b :: 0 <= b < |t.used| ==> (t.used[b] <==> fs.used[b] && forall k :: At(fs, i, k) != b || b == 0)
  {
    hide At;
    forall b | 0 <= b < |t.used| ensures t.used[b] <==> fs.used[b] && forall k :: At(fs, i, k) != b || b == 0 {
      if t.used[b] && b >= meta {
        var j, l :| At(t, j, l) == b;
        assert At(fs, j, l) == b;
      }
      if fs.used[b] && b >= meta && forall k :: At(fs, i, k) != b || b == 0 {
        var j, l :| At(fs, j, l) == b;
        assert At(t, j, l) == b;
      }
    }
  }

  lemma OthersUntouched(fs: Fs, t: Fs, i: int)
    requires t.data == fs.data && forall j, l :: j != i ==> At(t, j, l) == At(fs, j, l)
    ensures forall j, o :: j != i ==> Byte(t, j, o) == Byte(fs, j, o)
  {
    hide At;
  }

  function Max(a: int, b: int): int { if a < b then b else a }

  /** Reading back what was written; the file's other bytes, and all other files, are as before. */
  lemma ReadBack(fs: Fs, t: Fs, i: int, off: int, src: seq<int>)
    requires Overlaid(fs, t, i, off, src)
    ensures Bytes(t, i, off, |src|) == src
    ensures forall j, o, n: nat :: j != i || o + n <= off || o >= off + |src| ==> Bytes(t, j, o, n) == Bytes(fs, j, o, n)
  {
    hide Byte;
    assert forall k :: 0 <= k < |src| ==> Bytes(t, i, off, |src|)[k] == Byte(t, i, off + k) == src[k];
    forall j, o, n: nat | j != i || o + n <= off || o >= off + |src| ensures Bytes(t, j, o, n) == Bytes(fs, j, o, n) {
      assert forall k :: 0 <= k < n ==> Bytes(t, j, o, n)[k] == Byte(t, j, o + k) == Byte(fs, j, o + k);
    }
  }

  lemma OverlaidNothing(fs: Fs, i: int, off: int)
    ensures Overlaid(fs, fs, i, off, [])
  {}

  lemma OffsetFacts(fs: Fs, i: int, off: int)
    requires 0 <= i < |fs.inodes| && 0 <= off < MAXFILE * BSIZE
    ensures 0 <= off / BSIZE < MAXFILE && 0 <= off % BSIZE < BSIZE && off / BSIZE * BSIZE + off % BSIZE == off
  {}

  lemma SameOverlaid(fs: Fs, mid: Fs, t: Fs, i: int, off: int, src: seq<int>)
    requires SameBytes(fs, mid) && Overlaid(mid, t, i, off, src)
    ensures Overlaid(fs, t, i, off, src)
  {
    hide Byte;
  }

  lemma OldBlocks(fs: Fs, was: Fs, i: int, off: int)
    requires 0 <= i < |fs.inodes| && forall j, k :: At(fs, j, k) != 0 ==> At(was, j, k) == At(fs, j, k)
    requires 0 <= off
    ensures Full(fs, i) && off < fs.inodes[i].size ==> At(was, i, Place(off / BSIZE)) != 0
  {
    hide At;
    assert off / BSIZE * BSIZE <= off;
  }

  /** The blocks that begin between the two offsets are there. */
  ghost predicate Visited(fs: Fs, i: int, lo: int, hi: int) {
    forall bn :: lo <= bn * BSIZE < hi ==> At(fs, i, Place(bn)) != 0
  }

  lemma VisitedStep(was: Fs, t: Fs, i: int, off0: int, off: int, m: int)
    requires 0 <= off0 <= off && 0 <= m <= BSIZE - off % BSIZE && Visited(was, i, off0, off)
    requires forall j, k :: At(was, j, k) != 0 ==> At(t, j, k) == At(was, j, k)
    requires At(t, i, Place(off / BSIZE)) != 0
    ensures Visited(t, i, off0, off + m)
  {
    hide At;
    forall bn | off0 <= bn * BSIZE < off + m ensures At(t, i, Place(bn)) != 0 {
      assert bn * BSIZE >= off ==> bn == off / BSIZE;
    }
  }

  lemma SizeOnly(fs: Fs, meta: int, i: int, size: int)
    requires Own(fs, meta, {}) && 0 <= i < |fs.inodes|
    ensures var t := fs.(inodes := fs.inodes[i := fs.inodes[i].(size := size)]);
            SameAt(fs, t) && Own(t, meta, {}) && SameBytes(fs, t)
  {
    var t := fs.(inodes := fs.inodes[i := fs.inodes[i].(size := size)]);
    assert SameAt(fs, t);
    OwnSameAt(fs, t, meta, {});
  }

  /** No hole appears below the new size, because writing starts at or below the old one. */
  lemma FullAfter(fs: Fs, t: Fs, i: int, off0: int, off: int)
    requires 0 <= i < |fs.inodes| == |t.inodes| && Full(fs, i) && 0 <= off0 <= fs.inodes[i].size && off <= MAXFILE * BSIZE
    requires t.inodes[i].size == Max(fs.inodes[i].size, off)
    requires forall j, k :: At(fs, j, k) != 0 ==> At(t, j, k) == At(fs, j, k)
    requires Visited(t, i, off0, off)
    ensures Full(t, i)
  {
    hide At;
    assert forall bn :: 0 <= bn && bn * BSIZE < t.inodes[i].size ==>
        (bn * BSIZE < fs.inodes[i].size && At(fs, i, Place(bn)) != 0) || off0 <= bn * BSIZE < off;
  }

  lemma FullFacts(fs: Fs, i: int, off: int)
    requires 0 <= i < |fs.inodes| && 0 <= off < fs.inodes[i].size <= MAXFILE * BSIZE
    ensures 0 <= off / BSIZE < MAXFILE
    ensures Full(fs, i) ==> At(fs, i, Place(off / BSIZE)) != 0
  {}

  /** The m bytes from offset off lie in one block. */
  lemma BlockFacts(fs: Fs, meta: int, i: int, off: int, m: nat)
    requires Own(fs, meta, {}) && 0 <= off && m <= BSIZE - off % BSIZE
    requires At(fs, i, Place(off / BSIZE)) != 0
    ensures var a := At(fs, i, Place(off / BSIZE));
            0 < a < |fs.data| && |fs.data[a]| == BSIZE && fs.data[a][off % BSIZE..off % BSIZE + m] == Bytes(fs, i, off, m)
  {
    var a := At(fs, i, Place(off / BSIZE));
    var b := fs.data[a][off % BSIZE..off % BSIZE + m];
    forall k | 0 <= k < m ensures b[k] == Bytes(fs, i, off, m)[k] {
      var o := off + k;
      SameBlock(off, k);
      assert o / BSIZE == off / BSIZE && b[k] == fs.data[a][o % BSIZE];
      assert Byte(fs, i, o) == fs.data[a][o % BSIZE];
    }
  }

  lemma SameBlock(off: int, k: int)
    requires 0 <= off && 0 <= k < BSIZE - off % BSIZE
    ensures (off + k) / BSIZE == off / BSIZE && (off + k) % BSIZE == off % BSIZE + k
  {}

  lemma BytesAre(fs: Fs, i: int, off: int, n: nat)
    ensures forall k :: 0 <= k < n ==> Bytes(fs, i, off, n)[k] == Byte(fs, i, off + k)
  {}

  lemma BytesSame(fs: Fs, t: Fs, i: int, off: int, m: nat)
    requires SameBytes(fs, t)
    ensures Bytes(t, i, off, m) == Bytes(fs, i, off, m)
  {
    assert forall k :: 0 <= k < m ==> Bytes(t, i, off, m)[k] == Byte(t, i, off + k) == Byte(fs, i, off + k);
  }

  lemma BytesJoin(fs: Fs, i: int, off: int, a: nat, b: nat)
    ensures Bytes(fs, i, off, a) + Bytes(fs, i, off + a, b) == Bytes(fs, i, off, a + b)
    ensures Bytes(fs, i, off, 0) == []
  {}

  lemma SameBytesTrans(a: Fs, b: Fs, c: Fs)
    requires SameBytes(a, b) && SameBytes(b, c)
    ensures SameBytes(a, c)
  {
    hide Byte;
  }

  lemma AddrFacts(fs: Fs, meta: int, loose: set<int>, i: int, k: int)
    requires Own(fs, meta, loose) && 0 <= i < |fs.inodes| && 0 <= k <= NDIRECT
    ensures |fs.inodes[i].addrs| == NDIRECT + 1 && At(fs, i, k) == fs.inodes[i].addrs[k] && |fs.data| == |fs.used|
    ensures At(fs, i, k) != 0 ==> 0 < At(fs, i, k) < |fs.data| && |fs.data[At(fs, i, k)]| == BSIZE
  {}

  lemma IndirectFirst(fs: Fs, i: int, e: int)
    requires 0 <= i < |fs.inodes| && 0 <= e < NINDIRECT
    ensures At(fs, i, Place(NDIRECT + e)) != 0 ==> At(fs, i, NDIRECT) != 0
  {}

  lemma EntryFacts(fs: Fs, meta: int, loose: set<int>, i: int, e: int, ind: int)
    requires Own(fs, meta, loose) && 0 <= i < |fs.inodes| && 0 <= e < NINDIRECT
    requires ind == At(fs, i, NDIRECT) && 0 < ind < |fs.data|
    ensures |fs.data| == |fs.used| && |fs.data[ind]| == BSIZE && At(fs, i, Place(NDIRECT + e)) == Word(fs.data[ind], e)
    ensures Word(fs.data[ind], e) != 0 ==> Word(fs.data[ind], e) > 0
    ensures Place(NDIRECT + e) == NDIRECT + 1 + e && fs.inodes[i].addrs[NDIRECT] == ind
  {}

  lemma StoreAddrFacts(fs: Fs, meta: int, loose: set<int>, i: int, k: int, b: int)
    requires Own(fs, meta, loose) && b in loose && 0 <= i < |fs.inodes| && 0 <= k <= NDIRECT && At(fs, i, k) == 0
    requires 0 <= b < |fs.data| && fs.data[b] == Zero()
    ensures |fs.inodes[i].addrs| == NDIRECT + 1
    ensures var t := SetAddr(fs, i, k, b);
            Own(t, meta, loose - {b}) && SameBytes(fs, t) && At(t, i, k) == b && 0 < b && |fs.data[b]| == BSIZE
            && forall j, l :: At(fs, j, l) != 0 ==> At(t, j, l) == At(fs, j, l)
  {
    assert 0 < b < |fs.data|;
    SetAddrAt(fs, i, k, b);
    var t := SetAddr(fs, i, k, b);
    OwnStored(fs, t, meta, loose, i, k, b);
    SameBytesStored(fs, t, i, k, b);
  }

  lemma StoreEntryFacts(fs: Fs, meta: int, loose: set<int>, i: int, e: int, b: int)
    requires Own(fs, meta, loose) && b in loose && 0 <= i < |fs.inodes| && 0 <= e < NINDIRECT
    requires At(fs, i, NDIRECT + 1 + e) == 0 && 0 < At(fs, i, NDIRECT) < |fs.data|
    requires 0 <= b < |fs.data| && fs.data[b] == Zero()
    ensures Shape(fs) && fs.inodes[i].addrs[NDIRECT] == At(fs, i, NDIRECT)
    ensures var t := SetEntry(fs, i, e, b);
            Own(t, meta, loose - {b}) && SameBytes(fs, t) && At(t, i, NDIRECT + 1 + e) == b && 0 < b
            && forall j, l :: At(fs, j, l) != 0 ==> At(t, j, l) == At(fs, j, l)
  {
    assert 0 < b < |fs.data|;
    SetEntryAt(fs, meta, i, e, b);
    var t := SetEntry(fs, i, e, b);
    OwnStored(fs, t, meta, loose, i, NDIRECT + 1 + e, b);
    var ind := At(fs, i, NDIRECT);
    assert b != ind;
    assert forall j, l :: At(fs, j, l) == ind ==> l == NDIRECT;
    SameBytesStored(fs, t, i, NDIRECT + 1 + e, b);
  }

  lemma SameBytesRefl(fs: Fs)
    ensures SameBytes(fs, fs)
  {}

  lemma AllocFacts(fs: Fs, meta: int, loose: set<int>, b: int)
    requires Own(fs, meta, loose) && 0 <= b < |fs.used| && !fs.used[b]
    ensures |fs.used| == |fs.data| && 0 < meta <= b && b !in loose
    ensures Own(Allocated(fs, b), meta, loose + {b}) && SameBytes(fs, Allocated(fs, b))
    ensures forall i, k :: At(Allocated(fs, b), i, k) == At(fs, i, k)
  {
    OwnAllocated(fs, meta, loose, b);
    SameBytesAllocated(fs, meta, loose, b);
    AllocatedAt(fs, meta, loose, b);
  }
}

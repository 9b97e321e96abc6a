/** The circular buffer of OS/xv6-public/pipe.c with its wrapping 32-bit counters, as a queue of bytes. */
module PipeBuffer {

  const PIPESIZE: int := 512
  const WRAP: int := 0x1_0000_0000

  type Bytes = seq<int>

  /** How one stretch of pipewrite or piperead ends; Asleep is the call of sleep. */
  datatype Outcome = Done | Failed | Asleep

  /** Bytes a writer with `left` bytes can append to a queue of length `used`. */
  function Fits(left: int, used: int): int { if left <= PIPESIZE - used then left else PIPESIZE - used }

  /** Where a writer that has written i bytes of addr stands at the end of the stretch. */
  function Written(addr: Bytes, i: nat, used: int): (j: int)
    requires i <= |addr| && 0 <= used <= PIPESIZE
    ensures i <= j <= |addr| && j - i <= PIPESIZE - used
  {
    i + Fits(|addr| - i, used)
  }

  function WriteOutcome(finished: bool, readopen: bool, killed: bool): Outcome {
    if finished then Done else if !readopen || killed then Failed else Asleep
  }

  function ReadOutcome(used: int, writeopen: bool, killed: bool): Outcome {
    if used > 0 || !writeopen then Done else if killed then Failed else Asleep
  }

  function Front(q: Bytes, n: nat): Bytes { if n <= |q| then q[..n] else q }

  // ---------------------------------------------------------------- wrapping counters

  /** The counters count modulo 2^32, and the slot of byte k is the same as without wrapping. */
  lemma SlotOfCounter(k: nat)
    ensures (k % WRAP) % PIPESIZE == k % PIPESIZE
    ensures (k % WRAP + 1) % WRAP == (k + 1) % WRAP
  {
    assert k == WRAP * (k / WRAP) + k % WRAP;
    assert WRAP == PIPESIZE * 0x80_0000;
    assert k == PIPESIZE * (0x80_0000 * (k / WRAP)) + k % WRAP;
    Multiple(k % WRAP, 0x80_0000 * (k / WRAP), PIPESIZE);
    Multiple(k % WRAP + 1, k / WRAP, WRAP);
  }

  lemma {:induction false} Multiple(a: nat, m: nat, n: nat)
    requires n > 0
    ensures (a + n * m) % n == a % n
    decreases m
  {
    if m > 0 {
      assert a + n * m == a + n * (m - 1) + n;
      Multiple(a, m - 1, n);
      AddOne(a + n * (m - 1), n);
    }
  }

  lemma AddOne(a: nat, n: nat)
    requires n > 0
    ensures (a + n) % n == a % n
  {
    assert a + n == n * (a / n + 1) + a % n;
    Unique(a + n, n, a / n + 1, a % n);
  }

  lemma Unique(a: int, n: int, q: int, r: int)
    requires n > 0 && a == n * q + r && 0 <= r < n
    ensures a % n == r
  {
    var q', r' := a / n, a % n;
    assert n * (q - q') == r' - r;
    assert q - q' >= 1 ==> n * (q - q') >= n;
    assert q - q' <= -1 ==> n * (q - q') <= -n;
  }

  /** Counters that are at most PIPESIZE apart can be compared although they wrap. */
  lemma CompareCounters(r: nat, w: nat)
    requires r <= w <= r + 512
    ensures (r % 0x1_0000_0000 == w % 0x1_0000_0000) == (r == w)
    ensures (w % 0x1_0000_0000 == (r % 0x1_0000_0000 + 512) % 0x1_0000_0000) == (w == r + 512)
  {
    var q := r / WRAP;
    assert r == WRAP * q + r % WRAP;
    if w < WRAP * (q + 1) {
      Unique(w, WRAP, q, w - WRAP * q);
    } else {
      Unique(w, WRAP, q + 1, w - WRAP * (q + 1));
    }
  }

  /** Different positions of the queue lie in different slots. */
  lemma SlotsApart(r: nat, a: nat, b: nat)
    requires r <= a < b < r + PIPESIZE
    ensures a % PIPESIZE != b % PIPESIZE
  {}

  // ---------------------------------------------------------------- the pipe

  class Pipe {
    const data: array<int>
    var nread: int
    var nwrite: int
    var readopen: bool
    var writeopen: bool
    ghost var sent: Bytes   // every byte ever appended
    ghost var got: Bytes    // every byte ever taken out

    /** The bytes taken out are the first of those appended; the rest, at most 512 bytes, are in the buffer. */
    ghost predicate Valid()
      reads this, data
    {
      && data.Length == PIPESIZE
      && |got| <= |sent| <= |got| + PIPESIZE && got == sent[..|got|]
      && nread == |got| % WRAP && nwrite == |sent| % WRAP
      && forall k :: |got| <= k < |sent| ==> data[k % PIPESIZE] == sent[k]
    }

    ghost function Queue(): (q: Bytes)
      requires Valid()
      reads this, data
      ensures |q| <= PIPESIZE && got + q == sent
    {
      sent[|got|..]
    }

    /** pipealloc. */
    constructor ()
      ensures Valid() && sent == [] && got == [] && readopen && writeopen && fresh(data)
    {
      data := new int[PIPESIZE];
      nread, nwrite, readopen, writeopen := 0, 0, true, true;
      sent, got := [], [];
    }

    /** The test of pipewrite: nwrite == nread + PIPESIZE, in 32 bits. */
    method IsFull() returns (full: bool)
      requires Valid()
      ensures full == (|Queue()| == PIPESIZE)
    {
      CompareCounters(|got|, |sent|);
      full := nwrite == (nread + PIPESIZE) % WRAP;
    }

    method IsEmpty() returns (empty: bool)
      requires Valid()
      ensures empty == (|Queue()| == 0)
    {
      CompareCounters(|got|, |sent|);
      empty := nread == nwrite;
    }

    method Put(b: int)
      requires Valid() && |Queue()| < PIPESIZE
      modifies this`nwrite, this`sent, data
      ensures Valid() && sent == old(sent) + [b]
    {
      SlotOfCounter(|sent|);
      forall k | |got| <= k < |sent| ensures k % PIPESIZE != |sent| % PIPESIZE { SlotsApart(|got|, k, |sent|); }
      data[nwrite % PIPESIZE] := b;
      nwrite := (nwrite + 1) % WRAP;
      sent := sent + [b];
    }

    method Get() returns (b: int)
      requires Valid() && |Queue()| > 0
      modifies this`nread, this`got
      ensures Valid() && b == old(Queue())[0] && got == old(got) + [b]
    {
      SlotOfCounter(|got|);
      b := data[nread % PIPESIZE];
      nread := (nread + 1) % WRAP;
      got := got + [b];
    }

    /** pipewrite of addr, from the first test behind acquire or behind a sleep up to the next sleep or
        the return; i bytes were written before. `woke` tells whether the readers were woken. */
    method WriteOn(addr: Bytes, i: nat, killed: bool) returns (j: nat, o: Outcome, woke: bool)
      requires Valid() && i <= |addr|
      modifies this`nwrite, this`sent, data
      ensures Valid()
      ensures j == Written(addr, i, old(|Queue()|)) && sent == old(sent) + addr[i..j]
      ensures j == if |addr| - i <= 512 - old(|Queue()|) then |addr| else i + (512 - old(|Queue()|))
      ensures o == WriteOutcome(j == |addr|, readopen, killed)
      ensures o == if j == |addr| then Done else if !readopen || killed then Failed else Asleep
      ensures woke == !o.Failed?
    {
      j := i;
      while j < |addr|
        invariant Valid() && i <= j <= |addr| && j - i <= PIPESIZE - old(|Queue()|)
        invariant sent == old(sent) + addr[i..j]
      {
        var full := IsFull();
        if full {
          if !readopen || killed {
            return j, Failed, false;
          }
          return j, Asleep, true;
        }
        Put(addr[j]);
        assert addr[i..j] + [addr[j]] == addr[i..j + 1];
        j := j + 1;
      }
      return j, Done, true;
    }

    /** piperead of at most n bytes, up to the next sleep or the return. */
    method ReadOn(n: nat, killed: bool) returns (bytes: Bytes, o: Outcome)
      requires Valid()
      modifies this`nread, this`got
      ensures Valid()
      ensures o == ReadOutcome(old(|Queue()|), writeopen, killed)
      ensures o == if old(|Queue()|) > 0 || !writeopen then Done else if killed then Failed else Asleep
      ensures bytes == if o.Done? then Front(old(Queue()), n) else []
      ensures |bytes| == (if !o.Done? then 0 else if n <= old(|Queue()|) then n else old(|Queue()|)) && bytes == old(Queue())[..|bytes|]
      ensures got == old(got) + bytes
    {
      bytes := [];
      var empty := IsEmpty();
      if empty && writeopen {
        return [], if killed then Failed else Asleep;
      }
      ghost var q := Queue();
      while |bytes| < n
        invariant Valid() && |bytes| <= n && |bytes| <= |q| && bytes == q[..|bytes|]
        invariant got == old(got) + bytes
      {
        empty := IsEmpty();
        if empty {
          break;
        }
        assert Queue() == q[|bytes|..];
        var b := Get();
        bytes := bytes + [b];
      }
      o := Done;
    }

    /** pipeclose; the sleepers of the other end are woken. */
    method Close(writable: bool)
      requires Valid()
      modifies this`readopen, this`writeopen
      ensures Valid() && writeopen == (old(writeopen) && !writable) && readopen == (old(readopen) && writable)
    {
      if writable {
        writeopen := false;
      } else {
        readopen := false;
      }
    }
  }
}

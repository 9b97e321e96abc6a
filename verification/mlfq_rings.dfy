/** The ring buffers of OS/HW2/HW2-temp-Mlfq/mlfq.c. `front` is the slot before the first process. */
module MlfqRings {

  const SIZE: int := 64   // MAX_QUEUE_SIZE

  const NIL: int := -1    // the null pointer; a process is its index in the process table

  // ---------------------------------------------------------------- rings as values

  /** The slot of the k-th process. */
  function Slot(front: int, k: int): int { (front + 1 + k) % SIZE }

  /** Exactly the `count` slots behind `front` are occupied, and `rear` is the last of them. */
  ghost predicate RingOk<T>(row: seq<T>, nil: T, front: int, rear: int, count: int) {
    && |row| == SIZE && 0 <= front < SIZE && 0 <= rear < SIZE && 0 <= count <= SIZE
    && rear == (front + count) % SIZE
    && forall k :: 0 <= k < SIZE ==> (row[Slot(front, k)] != nil <==> k < count)
  }

  function RingHeld<T>(row: seq<T>, front: int, count: int): (r: seq<T>)
    requires |row| == SIZE && 0 <= count
    ensures |r| == count
  {
    seq(count, k requires 0 <= k < count => row[Slot(front, k)])
  }

  lemma SlotValue(front: int, k: int)
    requires 0 <= front < SIZE && 0 <= k < SIZE
    ensures Slot(front, k) == if front + 1 + k < SIZE then front + 1 + k else front + 1 + k - SIZE
  {}

  lemma SlotInjective(front: int, i: int, j: int)
    requires 0 <= front < SIZE && 0 <= i < SIZE && 0 <= j < SIZE && i != j
    ensures Slot(front, i) != Slot(front, j)
  {
    SlotValue(front, i);
    SlotValue(front, j);
  }

  /** Writing behind the last process appends it. */
  lemma Pushed<T>(row: seq<T>, nil: T, front: int, rear: int, count: int, p: T)
    requires RingOk(row, nil, front, rear, count) && count < SIZE && p != nil
    ensures var at := (rear + 1) % SIZE;
            RingOk(row[at := p], nil, front, at, count + 1)
            && RingHeld(row[at := p], front, count + 1) == RingHeld(row, front, count) + [p]
  {
    var at := (rear + 1) % SIZE;
    SlotValue(front, count);
    assert at == Slot(front, count);
    forall k | 0 <= k < SIZE && k != count ensures Slot(front, k) != at {
      SlotInjective(front, k, count);
    }
  }

  /** Clearing the slot behind `front` and moving `front` there removes the first process. */
  lemma Popped<T>(row: seq<T>, nil: T, front: int, rear: int, count: int)
    requires RingOk(row, nil, front, rear, count) && count > 0
    ensures var at := (front + 1) % SIZE;
            row[at] == RingHeld(row, front, count)[0] && row[at] != nil
            && RingOk(row[at := nil], nil, at, rear, count - 1)
            && RingHeld(row[at := nil], at, count - 1) == RingHeld(row, front, count)[1..]
  {
    var at := (front + 1) % SIZE;
    assert at == Slot(front, 0);
    forall k | 0 <= k < SIZE
      ensures k < SIZE - 1 ==> Slot(at, k) == Slot(front, k + 1) && Slot(at, k) != at
      ensures k == SIZE - 1 ==> Slot(at, k) == at
    {
      SlotValue(at, k);
      SlotValue(front, 0);
      if k < SIZE - 1 { SlotValue(front, k + 1); }
    }
    forall k | 0 <= k < SIZE ensures row[at := nil][Slot(at, k)] != nil <==> k < count - 1 {
      if k < SIZE - 1 { assert row[at := nil][Slot(at, k)] == row[Slot(front, k + 1)]; }
    }
  }

  lemma EmptyFull<T>(row: seq<T>, nil: T, front: int, rear: int, count: int)
    requires RingOk(row, nil, front, rear, count)
    ensures (front == rear && count == 0) == (count == 0)
    ensures (rear % SIZE == front && count == SIZE) == (count == SIZE)
    ensures 0 <= (rear + 1) % SIZE < SIZE == |row| && count <= SIZE
  {}

  /** Walking the slots until a null pointer, as checkRcount does, ends exactly when the ring is not full. */
  lemma WalkEndsIff<T>(row: seq<T>, nil: T, front: int, rear: int, count: int)
    requires RingOk(row, nil, front, rear, count)
    ensures (exists k :: 0 <= k && row[Slot(front, k)] == nil) <==> count < SIZE
  {
    if count < SIZE {
      assert row[Slot(front, count)] == nil;
    }
    forall k | 0 <= k && row[Slot(front, k)] == nil ensures count < SIZE {
      var r := k % SIZE;
      Around(front, k);
      assert row[Slot(front, r)] == nil;
    }
  }

  /** Sixty-four processes in one ring: wherever the walk looks, there is one. */
  lemma FullRingNoEnd(k: nat)
    ensures var row := seq(SIZE, i => i);
            RingOk(row, NIL, 0, 0, SIZE) && row[Slot(0, k)] != NIL
  {
    var row := seq(SIZE, i => i);
    assert forall i :: 0 <= i < SIZE ==> row[Slot(0, i)] != NIL;
  }

  lemma Around(front: int, k: int)
    requires 0 <= k
    ensures Slot(front, k) == Slot(front, k % SIZE)
  {
    var m := k / SIZE;
    assert front + 1 + k == front + 1 + k % SIZE + m * SIZE;
    ModShift(front + 1 + k % SIZE, m);
  }

  lemma {:induction false} ModShift(a: int, m: int)
    requires 0 <= m
    ensures (a + m * SIZE) % SIZE == a % SIZE
    decreases m
  {
    if m > 0 {
      ModShift(a, m - 1);
      assert a + m * SIZE == a + (m - 1) * SIZE + SIZE;
    }
  }

  // ---------------------------------------------------------------- the queue object

  class Mlfq {
    const queue: array<int>
    const level: int
    var front: int
    var rear: int
    var count: int
    var rCount: int

    ghost predicate Valid()
      reads this`front, this`rear, this`count, queue
    {
      queue.Length == SIZE && RingOk(queue[..], NIL, front, rear, count)
    }

    /** The processes, first to last. */
    ghost function Held(): (r: seq<int>)
      requires Valid()
      reads this`front, this`rear, this`count, queue
      ensures |r| == count
    {
      RingHeld(queue[..], front, count)
    }

    /** initMlfq. */
    constructor (level: int)
      ensures Valid() && Held() == [] && this.level == level && fresh(queue)
    {
      this.level := level;
      queue := new int[SIZE](_ => NIL);
      front, rear, count, rCount := 0, 0, 0, 0;
    }

    predicate IsEmpty() reads this { front == rear && count == 0 }

    predicate IsFull() reads this { rear % SIZE == front && count == SIZE }

    /** Fails exactly when the ring is full; otherwise appends the process. */
    method Enqueue(item: int) returns (ok: bool)
      requires Valid() && item != NIL
      modifies this, queue
      ensures Valid() && ok == (old(|Held()|) < 64)
      ensures ok ==> Held() == old(Held()) + [item]
      ensures !ok ==> Held() == old(Held())
    {
      hide RingOk, RingHeld, Slot;
      ghost var row := queue[..];
      EmptyFull(row, NIL, front, rear, count);
      if IsFull() {
        return false;
      }
      Pushed(row, NIL, front, rear, count, item);
      rear := (rear + 1) % SIZE;
      queue[rear] := item;
      assert queue[..] == row[rear := item];
      count := count + 1;
      ok := true;
    }

    /** Removes the first process. */
    method NormalDequeue() returns (ret: int)
      requires Valid()
      modifies this, queue
      ensures Valid()
      ensures if old(Held()) == [] then ret == NIL && Held() == []
              else ret == old(Held())[0] && Held() == old(Held())[1..]
    {
      if IsEmpty() {
        return NIL;
      }
      ghost var row := queue[..];
      Popped(row, NIL, front, rear, count);
      front := (front + 1) % SIZE;
      ret := queue[front];
      count := count - 1;
      queue[front] := NIL;
      assert queue[..] == row[front := NIL];
    }

    method IdxPeek(index: nat) returns (p: int)
      requires Valid() && index < SIZE
      ensures if index < count then p == Held()[index] && p != NIL else p == NIL
    {
      assert Slot(front, index) == (front + 1 + index) % SIZE;
      p := queue[(front + 1 + index) % SIZE];
    }
  }
}

/** The doubly linked list of buffers of OS/xv6-public/bio.c, as next and prev indices. Buffers are 0 to
    n - 1, and n is bcache.head. */
module BioList {

  type Links = seq<int>

  /** The node at place i of the list; the head stands before the first and behind the last. */
  function Node(order: seq<int>, n: int, i: int): int { if 0 <= i < |order| then order[i] else n }

  ghost predicate Distinct(s: seq<int>) { forall i, j :: 0 <= i < j < |s| ==> s[i] != s[j] }

  ghost predicate Buffers(order: seq<int>, n: int) { Distinct(order) && forall i :: 0 <= i < |order| ==> 0 <= order[i] < n }

  /** Following next goes through the order and back to the head, and prev is the way back. */
  ghost predicate Linked(next: Links, prev: Links, order: seq<int>, n: int) {
    && 0 <= n && |next| == |prev| == n + 1 && Buffers(order, n)
    && forall i, j :: -1 <= i < |order| && j == i + 1 ==>
         next[Node(order, n, i)] == Node(order, n, j) && prev[Node(order, n, j)] == Node(order, n, i)
  }

  function Without(order: seq<int>, k: int): seq<int>
    requires 0 <= k < |order|
  {
    order[..k] + order[k + 1..]
  }

  lemma NodeInjective(order: seq<int>, n: int, i: int, j: int)
    requires Buffers(order, n) && -1 <= i <= |order| && -1 <= j <= |order|
    ensures Node(order, n, i) == Node(order, n, j) <==> i == j || (Node(order, n, i) == n && Node(order, n, j) == n)
  {
    if 0 <= i < |order| && 0 <= j < |order| && i != j {
      if i < j { assert order[i] != order[j]; } else { assert order[j] != order[i]; }
    }
  }

  /** b->next->prev = b->prev; b->prev->next = b->next. */
  function CutNext(next: Links, prev: Links, b: int): Links
    requires 0 <= b < |next| == |prev| && 0 <= prev[b] < |next|
  {
    next[prev[b] := next[b]]
  }

  function CutPrev(next: Links, prev: Links, b: int): Links
    requires 0 <= b < |next| == |prev| && 0 <= next[b] < |next|
  {
    prev[next[b] := prev[b]]
  }

  lemma Neighbours(next: Links, prev: Links, order: seq<int>, n: int, k: int)
    requires Linked(next, prev, order, n) && 0 <= k < |order|
    ensures next[order[k]] == Node(order, n, k + 1) && prev[order[k]] == Node(order, n, k - 1)
    ensures 0 <= Node(order, n, k + 1) <= n && 0 <= Node(order, n, k - 1) <= n && 0 <= order[k] < n
  {
    assert Node(order, n, k) == order[k];
    assert next[Node(order, n, k)] == Node(order, n, k + 1);
    assert prev[Node(order, n, k)] == Node(order, n, k - 1);
  }

  /** The place in the old order of what is at place i once place k is cut out. */
  function Old(k: int, i: int): int { if i < k then i else i + 1 }

  lemma OldNode(order: seq<int>, n: int, k: int, i: int)
    requires 0 <= k < |order| && -1 <= i < |order|
    ensures Node(Without(order, k), n, i) == Node(order, n, Old(k, i))
  {}

  lemma CutBuffers(order: seq<int>, n: int, k: int)
    requires Buffers(order, n) && 0 <= k < |order|
    ensures Buffers(Without(order, k), n) && order[k] !in Without(order, k)
  {
    var o := Without(order, k);
    forall i | 0 <= i < |o| ensures 0 <= o[i] < n && o[i] != order[k] {
      assert o[i] == order[Old(k, i)];
      NodeInjective(order, n, k, Old(k, i));
    }
    forall i, j | 0 <= i < j < |o| ensures o[i] != o[j] {
      assert order[Old(k, i)] != order[Old(k, j)];
    }
  }

  lemma CutPair(next: Links, prev: Links, order: seq<int>, n: int, k: int, i: int)
    requires Linked(next, prev, order, n) && 0 <= k < |order| && -1 <= i < |order| - 1
    requires 0 <= order[k] < n && 0 <= prev[order[k]] <= n && 0 <= next[order[k]] <= n
    ensures var o := Without(order, k); var b := order[k];
            0 <= Node(o, n, i) <= n && 0 <= Node(o, n, i + 1) <= n
            && CutNext(next, prev, b)[Node(o, n, i)] == Node(o, n, i + 1)
            && CutPrev(next, prev, b)[Node(o, n, i + 1)] == Node(o, n, i)
  {
    Neighbours(next, prev, order, n, k);
    var i0, j0 := Old(k, i), Old(k, i + 1);
    OldNode(order, n, k, i);
    OldNode(order, n, k, i + 1);
    assert next[Node(order, n, i0)] == Node(order, n, i0 + 1);
    assert prev[Node(order, n, j0)] == Node(order, n, j0 - 1);
    NodeInjective(order, n, i0, k - 1);
    NodeInjective(order, n, j0, k + 1);
  }

  lemma Cut(next: Links, prev: Links, order: seq<int>, n: int, k: int)
    requires Linked(next, prev, order, n) && 0 <= k < |order|
    ensures 0 <= order[k] < n && 0 <= prev[order[k]] <= n && 0 <= next[order[k]] <= n
    ensures Linked(CutNext(next, prev, order[k]), CutPrev(next, prev, order[k]), Without(order, k), n)
    ensures order[k] !in Without(order, k)
  {
    Neighbours(next, prev, order, n, k);
    var b, o := order[k], Without(order, k);
    var next', prev' := CutNext(next, prev, b), CutPrev(next, prev, b);
    CutBuffers(order, n, k);
    hide Node, CutNext, CutPrev, Without, Buffers;
    assert |o| == |order| - 1 by { WithoutLength(order, k); }
    assert |next'| == |prev'| == n + 1 by { CutLength(next, prev, b); }
    forall i, j | -1 <= i < |o| && j == i + 1
      ensures 0 <= Node(o, n, i) <= n && 0 <= Node(o, n, j) <= n
      ensures next'[Node(o, n, i)] == Node(o, n, j) && prev'[Node(o, n, j)] == Node(o, n, i)
    {
      CutPair(next, prev, order, n, k, i);
    }
  }

  lemma WithoutLength(order: seq<int>, k: int)
    requires 0 <= k < |order|
    ensures |Without(order, k)| == |order| - 1
  {}

  lemma CutLength(next: Links, prev: Links, b: int)
    requires 0 <= b < |next| == |prev| && 0 <= prev[b] < |next| && 0 <= next[b] < |next|
    ensures |CutNext(next, prev, b)| == |next| == |CutPrev(next, prev, b)|
  {}

  /** b->next = head.next; b->prev = &head; head.next->prev = b; head.next = b. */
  function PushNext(next: Links, n: int, b: int): Links
    requires 0 <= b < n && |next| == n + 1
  {
    next[b := next[n]][n := b]
  }

  function PushPrev(next: Links, prev: Links, n: int, b: int): Links
    requires 0 <= b < n && |next| == |prev| == n + 1 && 0 <= next[n] <= n
  {
    prev[b := n][next[n] := b]
  }

  lemma Push(next: Links, prev: Links, order: seq<int>, n: int, b: int)
    requires Linked(next, prev, order, n) && 0 <= b < n && b !in order
    ensures 0 <= next[n] <= n
    ensures Linked(PushNext(next, n, b), PushPrev(next, prev, n, b), [b] + order, n)
  {
    var o := [b] + order;
    assert next[Node(order, n, -1)] == Node(order, n, 0);
    var next', prev' := PushNext(next, n, b), PushPrev(next, prev, n, b);
    forall i, j | 0 <= i < j < |o| ensures o[i] != o[j] {
      assert o[j] == order[j - 1];
    }
    forall i, j | -1 <= i < |o| && j == i + 1
      ensures next'[Node(o, n, i)] == Node(o, n, j) && prev'[Node(o, n, j)] == Node(o, n, i)
    {
      if i >= 1 {
        assert Node(o, n, i) == Node(order, n, i - 1) && Node(o, n, j) == Node(order, n, j - 1);
        assert next[Node(order, n, i - 1)] == Node(order, n, j - 1);
        assert prev[Node(order, n, j - 1)] == Node(order, n, i - 1);
        NodeInjective(order, n, j - 1, 0);
      } else if i == 0 {
        assert Node(o, n, j) == Node(order, n, 0);
      }
    }
  }
}

/** choose, shortest_path and print_path of CSE/Lab14/lab14.c. */
module Dijkstra {

  const INT_MAX: int := 0x7FFF_FFFF

  type Matrix = seq<seq<int>>

  /** A square matrix of costs so small that the sum of a distance and a cost is an int. */
  ghost predicate Costs(cost: Matrix, n: nat) {
    |cost| == n && (forall u :: 0 <= u < n ==> |cost[u]| == n)
    && forall u, v :: 0 <= u < n && 0 <= v < n ==> 0 <= cost[u][v] <= INT_MAX / 2
  }

  // ---------------------------------------------------------------- walks

  ghost predicate Walk(n: nat, p: seq<int>, s: int, t: int) {
    |p| >= 1 && p[0] == s && p[|p| - 1] == t && forall i :: 0 <= i < |p| ==> 0 <= p[i] < n
  }

  function Weight(cost: Matrix, p: seq<int>): int
    requires |p| >= 1 && forall i :: 0 <= i < |p| ==> 0 <= p[i] < |cost|
    requires forall u :: 0 <= u < |cost| ==> |cost[u]| == |cost|
  {
    if |p| == 1 then 0 else Weight(cost, p[..|p| - 1]) + cost[p[|p| - 2]][p[|p| - 1]]
  }

  /** d is the least weight of a walk from s to t. */
  ghost predicate Shortest(cost: Matrix, n: nat, s: int, t: int, d: int)
    requires Costs(cost, n)
  {
    (exists p :: Walk(n, p, s, t) && Weight(cost, p) == d) && forall p :: Walk(n, p, s, t) ==> d <= Weight(cost, p)
  }

  // ---------------------------------------------------------------- the invariant of the passes

  /** `order` lists the found vertices, without repetition, beginning with the start. */
  ghost predicate Found(n: nat, start: int, found: seq<bool>, order: seq<int>) {
    && 0 <= start < n && |found| == n && |order| >= 1 && order[0] == start
    && (forall i :: 0 <= i < |order| ==> 0 <= order[i] < n && found[order[i]])
    && (forall i, j :: 0 <= i < j < |order| ==> order[i] != order[j])
    && (forall v :: 0 <= v < n && found[v] ==> v in order)
  }

  /** Found vertices are no farther than the others, and their edges have been looked at. */
  ghost predicate Distances(cost: Matrix, n: nat, start: int, dist: seq<int>, found: seq<bool>)
    requires Costs(cost, n)
  {
    && |dist| == |found| == n && 0 <= start < n && found[start] && dist[start] == 0
    && (forall v :: 0 <= v < n ==> 0 <= dist[v] <= INT_MAX / 2)
    && (forall u, v :: 0 <= u < n && 0 <= v < n && found[u] && !found[v] ==> dist[u] <= dist[v])
    && (forall u, v :: 0 <= u < n && 0 <= v < n && found[u] ==> dist[v] <= dist[u] + cost[u][v])
  }

  /** The state after some passes. */
  ghost predicate Settled(cost: Matrix, n: nat, start: int, dist: seq<int>, found: seq<bool>, path: seq<int>, order: seq<int>)
    requires Costs(cost, n)
  {
    && Found(n, start, found, order) && Distances(cost, n, start, dist, found)
    && |path| == n && Preds(cost, n, start, dist, found, path, order)
  }

  /** path[v] was found before v, and the last edge accounts for the distance. */
  ghost predicate Preds(cost: Matrix, n: nat, start: int, dist: seq<int>, found: seq<bool>, path: seq<int>, order: seq<int>)
    requires Costs(cost, n) && |dist| == |found| == |path| == n
    requires forall i :: 0 <= i < |order| ==> 0 <= order[i] < n
  {
    && 0 <= start < n && path[start] == start
    && (forall v :: 0 <= v < n ==> 0 <= path[v] < n && found[path[v]])
    && (forall v :: 0 <= v < n && v != start ==> dist[v] == dist[path[v]] + cost[path[v]][v])
    && (forall i :: 1 <= i < |order| ==> path[order[i]] in order[..i])
  }

  // ---------------------------------------------------------------- consequences

  /** A feasible potential is a lower bound for every walk. */
  lemma {:induction false} LowerBound(cost: Matrix, n: nat, start: int, dist: seq<int>, p: seq<int>, t: int)
    requires Costs(cost, n) && |dist| == n && 0 <= start < n && dist[start] == 0
    requires forall u, v :: 0 <= u < n && 0 <= v < n ==> dist[v] <= dist[u] + cost[u][v]
    requires Walk(n, p, start, t)
    ensures dist[t] <= Weight(cost, p)
    decreases |p|
  {
    if |p| > 1 {
      LowerBound(cost, n, start, dist, p[..|p| - 1], p[|p| - 2]);
    }
  }

  /** Following path[] from the i-th found vertex: the walk that print_path prints, from start on. */
  function Chain(path: seq<int>, order: seq<int>, i: nat): seq<int>
    requires i < |order|
    decreases i
  {
    var v := order[i];
    if i == 0 || !(0 <= v < |path|) then [v]
    else
      var j := IndexOf(order[..i], path[v]);
      if j < i then Chain(path, order, j) + [v] else [v]
  }

  function IndexOf(s: seq<int>, x: int): (i: nat)
    ensures i <= |s| && (i < |s| ==> s[i] == x) && (x in s ==> i < |s|)
  {
    if s == [] || s[0] == x then 0 else 1 + IndexOf(s[1..], x)
  }

  lemma {:induction false} ChainWeight(cost: Matrix, n: nat, start: int, dist: seq<int>, found: seq<bool>, path: seq<int>,
                                       order: seq<int>, i: nat)
    requires Costs(cost, n) && Settled(cost, n, start, dist, found, path, order) && i < |order|
    ensures Walk(n, Chain(path, order, i), start, order[i]) && Weight(cost, Chain(path, order, i)) == dist[order[i]]
    decreases i
  {
    hide Settled, Walk, Weight, Chain, IndexOf;
    ChainFacts(cost, n, start, dist, found, path, order, i);
    if i > 0 {
      var j := IndexOf(order[..i], path[order[i]]);
      ChainWeight(cost, n, start, dist, found, path, order, j);
      LongerWalk(cost, n, Chain(path, order, j), start, order[j], order[i]);
    } else {
      OneVertex(cost, n, start);
    }
  }

  /** One link of the chain. */
  lemma ChainFacts(cost: Matrix, n: nat, start: int, dist: seq<int>, found: seq<bool>, path: seq<int>, order: seq<int>, i: nat)
    requires Costs(cost, n) && Settled(cost, n, start, dist, found, path, order) && i < |order|
    ensures |dist| == |path| == n && 0 <= start < n && 0 <= order[i] < n && 0 <= path[order[i]] < n
    ensures i == 0 ==> order[i] == start && dist[start] == 0 && Chain(path, order, i) == [start]
    ensures i > 0 ==>
              var v := order[i]; var j := IndexOf(order[..i], path[v]);
              j < i && order[j] == path[v] && dist[v] == dist[path[v]] + cost[path[v]][v]
              && Chain(path, order, i) == Chain(path, order, j) + [v]
  {
    hide Distances, Found, Chain, Costs;
    assert |dist| == n && dist[start] == 0 by { DistanceFacts(cost, n, start, dist, found); }
    OrderFacts(n, start, found, order, i);
    if i > 0 { assert path[order[i]] in order[..i]; }
    ChainNext(path, order, i);
  }

  lemma DistanceFacts(cost: Matrix, n: nat, start: int, dist: seq<int>, found: seq<bool>)
    requires Costs(cost, n) && Distances(cost, n, start, dist, found)
    ensures |dist| == |found| == n && 0 <= start < n && dist[start] == 0
  {}

  lemma ChainNext(path: seq<int>, order: seq<int>, i: nat)
    requires i < |order| && 0 <= order[i] < |path| && (i > 0 ==> path[order[i]] in order[..i])
    ensures i == 0 ==> Chain(path, order, i) == [order[i]]
    ensures i > 0 ==>
              var j := IndexOf(order[..i], path[order[i]]);
              j < i && order[j] == path[order[i]] && Chain(path, order, i) == Chain(path, order, j) + [order[i]]
  {
    if i > 0 {
      var j := IndexOf(order[..i], path[order[i]]);
      assert order[..i][j] == order[j];
    }
  }

  lemma OrderFacts(n: nat, start: int, found: seq<bool>, order: seq<int>, i: nat)
    requires Found(n, start, found, order) && i < |order|
    ensures 0 <= order[i] < n && 0 <= start < n && (order[i] == start <==> i == 0)
  {
    if i > 0 { assert order[0] != order[i]; }
  }

  /** When every vertex is found, dist is the shortest distance of all of them. */
  lemma AllShortest(cost: Matrix, n: nat, start: int, dist: seq<int>, found: seq<bool>, path: seq<int>, order: seq<int>, t: int)
    requires Costs(cost, n) && Settled(cost, n, start, dist, found, path, order)
    requires forall v :: 0 <= v < n ==> found[v]
    requires 0 <= t < n
    ensures Shortest(cost, n, start, t, dist[t])
  {
    hide Weight, Preds, Chain;
    assert found[t] && t in order;
    var i :| 0 <= i < |order| && order[i] == t;
    ChainWeight(cost, n, start, dist, found, path, order, i);
    forall p | Walk(n, p, start, t) ensures dist[t] <= Weight(cost, p) {
      LowerBound(cost, n, start, dist, p, t);
    }
  }

  // ---------------------------------------------------------------- the code

  method Choose(distance: array<int>, n: nat, found: array<bool>) returns (minpos: int)
    requires n <= distance.Length && n <= found.Length
    ensures minpos == -1 ==> forall i :: 0 <= i < n ==> found[i] || distance[i] >= INT_MAX
    ensures minpos != -1 ==> 0 <= minpos < n && !found[minpos] && distance[minpos] < INT_MAX
    ensures minpos != -1 ==> forall i :: 0 <= i < n && !found[i] ==> distance[minpos] <= distance[i]
    ensures minpos != -1 ==> forall i :: 0 <= i < minpos && !found[i] ==> distance[minpos] < distance[i]
  {
    var min := INT_MAX;
    minpos := -1;
    for i := 0 to n
      invariant minpos == -1 ==> min == INT_MAX && forall k :: 0 <= k < i ==> found[k] || distance[k] >= INT_MAX
      invariant minpos != -1 ==> 0 <= minpos < i && !found[minpos] && min == distance[minpos] < INT_MAX
      invariant forall k :: 0 <= k < i && !found[k] ==> min <= distance[k]
      invariant forall k :: 0 <= k < minpos && !found[k] ==> min < distance[k]
    {
      if distance[i] < min && !found[i] {
        min := distance[i];
        minpos := i;
      }
    }
  }

  /** The vertices found so far are pairwise different, so before n of them one is missing. */
  lemma {:induction false} Pigeonhole(order: seq<int>, n: nat)
    requires (forall i :: 0 <= i < |order| ==> 0 <= order[i] < n) && forall i, j :: 0 <= i < j < |order| ==> order[i] != order[j]
    ensures |order| <= n
    ensures |order| == n ==> forall v :: 0 <= v < n ==> v in order
    decreases n
  {
    if order != [] {
      assert 0 <= order[0] < n;
      var w := n - 1;
      if w in order {
        var k :| 0 <= k < |order| && order[k] == w;
        var rest := order[..k] + order[k + 1..];
        forall i | 0 <= i < |rest| ensures rest[i] == order[if i < k then i else i + 1] {}
        Pigeonhole(rest, n - 1);
        forall v | 0 <= v < n && |order| == n ensures v in order {
          if v != w {
            assert v in rest;
            var i :| 0 <= i < |rest| && rest[i] == v;
            assert order[if i < k then i else i + 1] == v;
          }
        }
      } else {
        Pigeonhole(order, n - 1);
      }
    }
  }

  /** distance[w] and path[w] after the inner loop has looked at w. */
  function Relaxed(cost: Matrix, dist: seq<int>, found: seq<bool>, u: int, w: int): int
    requires 0 <= u < |cost| && 0 <= w < |cost[u]| && w < |dist| && w < |found| && u < |dist|
  {
    if !found[w] && dist[u] + cost[u][w] < dist[w] then dist[u] + cost[u][w] else dist[w]
  }

  /** One pass of shortest_path: u is found next, and its edges are relaxed. */
  ghost predicate Passed(cost: Matrix, n: nat, dist: seq<int>, found: seq<bool>, path: seq<int>, u: int,
                         dist': seq<int>, found': seq<bool>, path': seq<int>)
    requires Costs(cost, n) && |dist| == |found| == |path| == |dist'| == |path'| == n && 0 <= u < n
  {
    && found' == found[u := true]
    && (forall w :: 0 <= w < n ==> dist'[w] == Relaxed(cost, dist, found', u, w))
    && (forall w :: 0 <= w < n ==> path'[w] == if dist'[w] == dist[w] then path[w] else u)
  }

  lemma PassKeeps(cost: Matrix, n: nat, start: int, dist: seq<int>, found: seq<bool>, path: seq<int>, order: seq<int>, u: int,
                  dist': seq<int>, found': seq<bool>, path': seq<int>)
    requires Costs(cost, n) && Settled(cost, n, start, dist, found, path, order)
    requires 0 <= u < n && !found[u] && forall i :: 0 <= i < n && !found[i] ==> dist[u] <= dist[i]
    requires |dist'| == |path'| == n && Passed(cost, n, dist, found, path, u, dist', found', path')
    ensures Settled(cost, n, start, dist', found', path', order + [u])
  {
    PassPreds(cost, n, start, dist, found, path, order, u, dist', found', path');
    PassDistances(cost, n, start, dist, found, path, u, dist', found', path');
    FindOne(n, start, found, order, u);
    hide Preds, Distances, Found;
  }

  lemma FindOne(n: nat, start: int, found: seq<bool>, order: seq<int>, u: int)
    requires Found(n, start, found, order) && 0 <= u < n && !found[u]
    ensures Found(n, start, found[u := true], order + [u])
  {
    var order' := order + [u];
    assert order'[|order|] == u;
    forall v | 0 <= v < n && found[v] ensures v in order' {
      assert v in order;
      var i :| 0 <= i < |order| && order[i] == v;
      assert order'[i] == v;
    }
  }

  lemma PassDistances(cost: Matrix, n: nat, start: int, dist: seq<int>, found: seq<bool>, path: seq<int>, u: int,
                      dist': seq<int>, found': seq<bool>, path': seq<int>)
    requires Costs(cost, n) && Distances(cost, n, start, dist, found) && |path| == n
    requires 0 <= u < n && !found[u] && forall i :: 0 <= i < n && !found[i] ==> dist[u] <= dist[i]
    requires |dist'| == |path'| == n && Passed(cost, n, dist, found, path, u, dist', found', path')
    ensures Distances(cost, n, start, dist', found')
  {
    assert forall v :: 0 <= v < n && found'[v] ==> dist'[v] == dist[v];
    assert forall v :: 0 <= v < n ==> dist'[v] <= dist[v];
    assert forall v :: 0 <= v < n && !found'[v] ==> dist[u] <= dist'[v] <= dist[u] + cost[u][v];
    hide Passed;
    forall v, w | 0 <= v < n && 0 <= w < n && found'[v] ensures dist'[w] <= dist'[v] + cost[v][w] {
      if v == u && found'[w] && w != u { assert dist[w] <= dist[u]; }
    }
  }

  lemma PassPreds(cost: Matrix, n: nat, start: int, dist: seq<int>, found: seq<bool>, path: seq<int>, order: seq<int>, u: int,
                  dist': seq<int>, found': seq<bool>, path': seq<int>)
    requires Costs(cost, n) && Settled(cost, n, start, dist, found, path, order)
    requires 0 <= u < n && !found[u] && |dist'| == |path'| == n && Passed(cost, n, dist, found, path, u, dist', found', path')
    ensures Preds(cost, n, start, dist', found', path', order + [u])
  {
    var order' := order + [u];
    forall i | 1 <= i < |order'| ensures path'[order'[i]] in order'[..i] {
      assert order'[..i] == order[..i];
      if i == |order| { assert order[..i] == order; }
    }
  }

  lemma StartSettled(cost: Matrix, n: nat, start: int, dist: seq<int>, found: seq<bool>, path: seq<int>)
    requires Costs(cost, n) && 0 <= start < n && |dist| == |found| == |path| == n
    requires forall v :: 0 <= v < n ==> path[v] == start && found[v] == (v == start)
    requires forall v :: 0 <= v < n ==> dist[v] == if v == start then 0 else cost[start][v]
    ensures Settled(cost, n, start, dist, found, path, [start])
  {}

  lemma SettledFacts(cost: Matrix, n: nat, start: int, dist: seq<int>, found: seq<bool>, path: seq<int>, order: seq<int>)
    requires Costs(cost, n) && Settled(cost, n, start, dist, found, path, order)
    ensures |dist| == |found| == |path| == n && |order| <= n
    ensures forall v :: 0 <= v < n ==> 0 <= dist[v] <= INT_MAX / 2
    ensures (forall v :: 0 <= v < n ==> found[v]) <==> |order| == n
  {
    hide Preds;
    Pigeonhole(order, n);
    if forall v :: 0 <= v < n ==> found[v] {
      assert forall v :: 0 <= v < n ==> v in order;
      Covering(order, n);
    }
    if |order| == n {
      forall v | 0 <= v < n ensures found[v] {
        assert v in order;
      }
    }
  }

  lemma {:induction false} Covering(order: seq<int>, n: nat)
    requires forall v :: 0 <= v < n ==> v in order
    ensures |order| >= n
    decreases n
  {
    if n > 0 {
      var w := n - 1;
      assert w in order;
      var k :| 0 <= k < |order| && order[k] == w;
      var rest := order[..k] + order[k + 1..];
      forall v | 0 <= v < n - 1 ensures v in rest {
        assert v in order;
        var i :| 0 <= i < |order| && order[i] == v;
        assert rest[if i < k then i else i - 1] == v;
      }
      Covering(rest, n - 1);
    }
  }

  /** `found[u] = 1` and the inner loop over w. */
  method Pass(cost: Matrix, n: nat, start: int, u: int, distance: array<int>, path: array<int>, found: array<bool>,
              ghost order: seq<int>)
    requires Costs(cost, n) && 0 <= u < n
    requires distance.Length == path.Length == found.Length == n && distance != path
    requires Settled(cost, n, start, distance[..], found[..], path[..], order)
    requires !found[u] && forall i :: 0 <= i < n && !found[i] ==> distance[u] <= distance[i]
    modifies distance, path, found
    ensures Settled(cost, n, start, distance[..], found[..], path[..], order + [u])
  {
    hide Settled;
    ghost var dist, fnd, pth := distance[..], found[..], path[..];
    found[u] := true;
    assert found[..] == fnd[u := true];
    for w := 0 to n
      invariant forall k :: 0 <= k < w ==> distance[k] == Relaxed(cost, dist, found[..], u, k)
      invariant forall k :: 0 <= k < w ==> path[k] == if distance[k] == dist[k] then pth[k] else u
      invariant forall k :: w <= k < n ==> distance[k] == dist[k] && path[k] == pth[k]
      modifies distance, path
    {
      assert distance[u] == dist[u];
      if !found[w] {
        if distance[u] + cost[u][w] < distance[w] {
          distance[w] := distance[u] + cost[u][w];
          path[w] := u;
        }
      }
    }
    PassKeeps(cost, n, start, dist, fnd, pth, order, u, distance[..], found[..], path[..]);
  }

  /** The pairs of consecutive vertices of a walk. */
  function Steps(p: seq<int>): seq<(int, int)>
    requires |p| >= 1
  {
    seq(|p| - 1, i requires 0 <= i < |p| - 1 => (p[i], p[i + 1]))
  }

  /** What is printed are the steps of a shortest walk from start to end, and <start->start> for the start itself. */
  method PrintPath(start: int, end: int, path: array<int>, ghost cost: Matrix, ghost n: nat, ghost dist: seq<int>,
                   ghost found: seq<bool>, ghost order: seq<int>) returns (printed: seq<(int, int)>, ghost walk: seq<int>)
    requires Costs(cost, n) && Settled(cost, n, start, dist, found, path[..], order)
    requires end in order
    ensures end == start ==> printed == [(start, start)]
    ensures end != start ==> Walk(n, walk, start, end) && Weight(cost, walk) == dist[end] && printed == Steps(walk)
    decreases IndexOf(order, end)
  {
    hide Settled, Weight, Steps, IndexOf;
    PredFacts(cost, n, start, dist, found, path[..], order, end);
    var p := path[end];
    printed, walk := [], [start];
    OneVertex(cost, n, start);
    if p != start { printed, walk := PrintPath(start, p, path, cost, n, dist, found, order); }
    if end != start { LongerWalk(cost, n, walk, start, p, end); }
    printed, walk := printed + [(p, end)], walk + [end];
  }

  lemma OneVertex(cost: Matrix, n: nat, s: int)
    requires Costs(cost, n) && 0 <= s < n
    ensures Walk(n, [s], s, s) && Weight(cost, [s]) == 0 && Steps([s]) == []
  {}

  lemma LongerWalk(cost: Matrix, n: nat, walk: seq<int>, s: int, p: int, t: int)
    requires Costs(cost, n) && Walk(n, walk, s, p) && 0 <= t < n
    ensures Walk(n, walk + [t], s, t) && Weight(cost, walk + [t]) == Weight(cost, walk) + cost[p][t]
    ensures Steps(walk + [t]) == Steps(walk) + [(p, t)]
  {
    assert (walk + [t])[..|walk|] == walk;
  }

  lemma PredFacts(cost: Matrix, n: nat, start: int, dist: seq<int>, found: seq<bool>, path: seq<int>, order: seq<int>, t: int)
    requires Costs(cost, n) && Settled(cost, n, start, dist, found, path, order) && t in order
    ensures |path| == |dist| == n && 0 <= t < n && 0 <= path[t] < n && 0 <= start < n && dist[start] == 0
    ensures path[t] in order && start in order
    ensures t != start ==> dist[t] == dist[path[t]] + cost[path[t]][t] && IndexOf(order, path[t]) < IndexOf(order, t)
    ensures t == start ==> path[t] == start
  {
    assert order[0] == start;
    assert 0 <= t < n && path[t] in order && dist[start] == 0;
    hide Distances, Found;
    if t != start {
      var k := IndexOf(order, t);
      assert path[order[k]] in order[..k];
      IndexBefore(order, k, path[t]);
    }
  }

  lemma {:induction false} IndexBefore(s: seq<int>, k: nat, x: int)
    requires k <= |s| && x in s[..k]
    ensures IndexOf(s, x) < k
    decreases k
  {
    if s[0] != x {
      assert s[..k][1..] == s[1..][..k - 1];
      IndexBefore(s[1..], k - 1, x);
    }
  }

  /** The loop in front of the passes. */
  method Initialise(start: int, cost: Matrix, n: nat, distance: array<int>, path: array<int>, found: array<bool>)
    requires Costs(cost, n) && 0 <= start < n
    requires distance.Length == path.Length == found.Length == n && distance != path
    modifies distance, path, found
    ensures Settled(cost, n, start, distance[..], found[..], path[..], [start])
  {
    for i := 0 to n
      invariant forall v :: 0 <= v < i ==> distance[v] == cost[start][v] && path[v] == start && !found[v]
    {
      distance[i] := cost[start][i];
      path[i] := start;
      found[i] := false;
    }
    found[start] := true;
    distance[start] := 0;
    StartSettled(cost, n, start, distance[..], found[..], path[..]);
  }

  lemma AllDone(cost: Matrix, n: nat, start: int, dist: seq<int>, found: seq<bool>, path: seq<int>, order: seq<int>)
    requires Costs(cost, n) && Settled(cost, n, start, dist, found, path, order)
    requires |dist| == |found| == n && forall i :: 0 <= i < n ==> found[i] || dist[i] >= INT_MAX
    ensures |order| == n && forall t :: 0 <= t < n ==> found[t] && Shortest(cost, n, start, t, dist[t])
  {
    hide Settled, Shortest;
    SettledFacts(cost, n, start, dist, found, path, order);
    forall t | 0 <= t < n ensures found[t] && Shortest(cost, n, start, t, dist[t]) {
      AllShortest(cost, n, start, dist, found, path, order, t);
    }
  }

  /** After n - 1 passes every vertex is found, so in the n-th pass choose returns -1 and the C code goes on
      to write found[-1]; the result says so, and the arrays are as they are at that moment. */
  method ShortestPath(start: int, cost: Matrix, n: nat, distance: array<int>, path: array<int>, found: array<bool>)
    returns (outOfBounds: bool, ghost order: seq<int>)
    requires Costs(cost, n) && 0 <= start < n
    requires distance.Length == path.Length == found.Length == n && distance != path
    modifies distance, path, found
    ensures outOfBounds
    ensures Settled(cost, n, start, distance[..], found[..], path[..], order) && |order| == n
    ensures forall t :: 0 <= t < n ==> found[t] && Shortest(cost, n, start, t, distance[t])
  {
    hide Settled, Shortest, Distances, Preds, Found, Walk, Weight;
    Initialise(start, cost, n, distance, path, found);
    order := [start];
    for i := 0 to n
      invariant Settled(cost, n, start, distance[..], found[..], path[..], order) && |order| == i + 1
    {
      SettledFacts(cost, n, start, distance[..], found[..], path[..], order);
      var u := Choose(distance, n, found);
      if u == -1 {
        AllDone(cost, n, start, distance[..], found[..], path[..], order);
        assert forall t :: 0 <= t < n ==> found[t] == found[..][t] && distance[t] == distance[..][t];
        return true, order;
      }
      Pass(cost, n, start, u, distance, path, found, order);
      order := order + [u];
    }
    SettledFacts(cost, n, start, distance[..], found[..], path[..], order);
    assert false;
  }
}

/**
  Ordering the nodes of a graph so that every edge points forward, the way GroupCommits
  drains its heap of ready commits: repeatedly take a ready node with the least key.

  The result is described without the algorithm: at every position the node is ready and no
  ready node has a smaller key (Greedy), and nothing is ready at the end (Exhausted). The
  order is complete exactly when the graph has no cycle.
 */
module Topology {
  import opened Order
  import Sequences

  type Edge = (nat, nat)

  predicate WellFormed(n: nat, edges: seq<Edge>)
  {
    forall e | e in edges :: e.0 < n && e.1 < n && e.0 != e.1
  }

  /** The targets of the edges out of `p`, with repetitions. */
  function Targets(edges: seq<Edge>, p: nat): seq<nat>
  {
    if edges == [] then []
    else (if edges[0].0 == p then [edges[0].1] else []) + Targets(edges[1..], p)
  }

  /** How many edges into `q` come from nodes that are not done. */
  function Pending(edges: seq<Edge>, done: set<nat>, q: nat): nat
  {
    if edges == [] then 0
    else (if edges[0].1 == q && edges[0].0 !in done then 1 else 0) + Pending(edges[1..], done, q)
  }

  predicate Ready(edges: seq<Edge>, done: set<nat>, q: nat)
  {
    q !in done && Pending(edges, done, q) == 0
  }

  function Elements(order: seq<nat>): set<nat>
  {
    set x | x in order
  }

  predicate GreedyAt(n: nat, edges: seq<Edge>, keys: seq<Key>, order: seq<nat>, k: nat)
    requires |keys| == n && k < |order|
  {
    && order[k] < n
    && Ready(edges, Elements(order[..k]), order[k])
    && forall q: nat | q < n && Ready(edges, Elements(order[..k]), q) :: KeyLeq(keys[order[k]], keys[q])
  }

  predicate Greedy(n: nat, edges: seq<Edge>, keys: seq<Key>, order: seq<nat>)
    requires |keys| == n
  {
    forall k | 0 <= k < |order| :: GreedyAt(n, edges, keys, order, k)
  }

  predicate Exhausted(n: nat, edges: seq<Edge>, order: seq<nat>)
  {
    forall q: nat | q < n :: !Ready(edges, Elements(order), q)
  }

  // ----- Counting pending edges

  lemma {:induction false} PendingAdd(edges: seq<Edge>, done: set<nat>, p: nat, q: nat)
    requires p !in done
    ensures Pending(edges, done + {p}, q) + multiset(Targets(edges, p))[q] == Pending(edges, done, q)
  {
    if edges != [] {
      PendingAdd(edges[1..], done, p, q);
    }
  }

  lemma {:induction false} PendingMonotone(edges: seq<Edge>, less: set<nat>, more: set<nat>, q: nat)
    requires less <= more
    ensures Pending(edges, more, q) <= Pending(edges, less, q)
  {
    if edges != [] {
      PendingMonotone(edges[1..], less, more, q);
    }
  }

  lemma {:induction false} PendingZero(edges: seq<Edge>, done: set<nat>, q: nat)
    ensures Pending(edges, done, q) == 0 <==> forall e | e in edges && e.1 == q :: e.0 in done
  {
    if edges != [] {
      PendingZero(edges[1..], done, q);
      assert edges == [edges[0]] + edges[1..];
    }
  }

  lemma {:induction false} TargetsAreEdges(edges: seq<Edge>, p: nat, q: nat)
    ensures q in Targets(edges, p) <==> (p, q) in edges
  {
    if edges != [] {
      TargetsAreEdges(edges[1..], p, q);
      assert edges == [edges[0]] + edges[1..];
    }
  }

  lemma {:induction false} DoneIsNotPending(n: nat, edges: seq<Edge>, keys: seq<Key>, order: seq<nat>, s: nat)
    requires |keys| == n && Greedy(n, edges, keys, order) && s in order
    ensures Pending(edges, Elements(order), s) == 0
  {
    var k :| 0 <= k < |order| && order[k] == s;
    assert GreedyAt(n, edges, keys, order, k);
    PendingMonotone(edges, Elements(order[..k]), Elements(order), s);
  }

  lemma {:induction false} GreedyExtends(n: nat, edges: seq<Edge>, keys: seq<Key>, order: seq<nat>, next: nat)
    requires |keys| == n && Greedy(n, edges, keys, order)
    requires next < n && Ready(edges, Elements(order), next)
    requires forall q: nat | q < n && Ready(edges, Elements(order), q) :: KeyLeq(keys[next], keys[q])
    ensures Greedy(n, edges, keys, order + [next])
    ensures Elements(order + [next]) == Elements(order) + {next}
  {
    var longer := order + [next];
    forall k | 0 <= k < |longer| ensures GreedyAt(n, edges, keys, longer, k) {
      assert longer[..k] == order[..k];
      if k < |order| {
        assert GreedyAt(n, edges, keys, order, k);
      } else {
        assert order[..k] == order;
      }
    }
  }

  lemma {:induction false} GreedyDistinct(n: nat, edges: seq<Edge>, keys: seq<Key>, order: seq<nat>)
    requires |keys| == n && Greedy(n, edges, keys, order)
    ensures forall i, j | 0 <= i < j < |order| :: order[i] != order[j]
    ensures forall k | 0 <= k < |order| :: order[k] < n
    ensures |order| == |Elements(order)| <= n
    ensures |order| == n ==> forall q: nat | q < n :: q in order
  {
    forall i, j | 0 <= i < j < |order| ensures order[i] != order[j] {
      assert GreedyAt(n, edges, keys, order, j);
      assert order[i] in order[..j];
    }
    forall k | 0 <= k < |order| ensures order[k] < n {
      assert GreedyAt(n, edges, keys, order, k);
    }
    DistinctCardinality(order);
    BelowIsInterval(n);
    SubsetCardinality(Elements(order), Below(n));
    if |order| == n {
      forall q: nat | q < n ensures q in order { assert q in Below(n); }
    }
  }

  lemma {:induction false} DistinctCardinality(order: seq<nat>)
    requires forall i, j | 0 <= i < j < |order| :: order[i] != order[j]
    ensures |Elements(order)| == |order|
  {
    if order != [] {
      var front, last := order[..|order| - 1], order[|order| - 1];
      DistinctCardinality(front);
      assert order == front + [last];
      assert Elements(order) == Elements(front) + {last};
    }
  }

  function Below(n: nat): set<nat>
  {
    if n == 0 then {} else Below(n - 1) + {n - 1}
  }

  lemma {:induction false} BelowIsInterval(n: nat)
    ensures |Below(n)| == n
    ensures forall q: nat :: q in Below(n) <==> q < n
  {
    if n > 0 { BelowIsInterval(n - 1); }
  }

  lemma {:induction false} OneMoreBelow(n: nat, s: set<nat>)
    ensures |Below(n + 1) - s| == |Below(n) - s| + if n in s then 0 else 1
  {
    BelowIsInterval(n);
    assert Below(n + 1) == Below(n) + {n} && n !in Below(n);
    if n in s {
      assert Below(n + 1) - s == Below(n) - s;
    } else {
      assert Below(n + 1) - s == (Below(n) - s) + {n};
    }
  }

  lemma {:induction false} SubsetCardinality<T>(a: set<T>, b: set<T>)
    requires a <= b
    ensures |a| <= |b|
    ensures |a| == |b| ==> a == b
  {
    if a != {} {
      var x :| x in a;
      SubsetCardinality(a - {x}, b - {x});
    }
  }

  // ----- A complete order exists exactly when there is no cycle

  predicate IsPath(edges: seq<Edge>, path: seq<nat>)
  {
    |path| >= 2 && forall i | 0 <= i < |path| - 1 :: (path[i], path[i + 1]) in edges
  }

  ghost predicate Acyclic(edges: seq<Edge>)
  {
    forall path: seq<nat> :: IsPath(edges, path) ==> path[0] != path[|path| - 1]
  }

  /** Every edge points forward in a complete order. */
  lemma {:induction false} EdgesPointForward(n: nat, edges: seq<Edge>, keys: seq<Key>, order: seq<nat>, i: nat, j: nat)
    requires |keys| == n && Greedy(n, edges, keys, order)
    requires i < |order| && j < |order| && (order[i], order[j]) in edges
    ensures i < j
  {
    assert GreedyAt(n, edges, keys, order, j);
    PendingZero(edges, Elements(order[..j]), order[j]);
    assert order[i] in order[..j];
    var k :| 0 <= k < j && order[k] == order[i];
    GreedyDistinct(n, edges, keys, order);
  }

  /** A numbering that rises along every edge rises along every path. */
  lemma {:induction false} RankRises(edges: seq<Edge>, rank: nat -> int, path: seq<nat>)
    requires forall e | e in edges :: rank(e.0) < rank(e.1)
    requires IsPath(edges, path)
    ensures rank(path[0]) < rank(path[|path| - 1])
  {
    var m := |path| - 1;
    assert (path[m - 1], path[m]) in edges;
    if m > 1 {
      RankRises(edges, rank, path[..m]);
    }
  }

  lemma {:induction false} RankedIsAcyclic(edges: seq<Edge>, rank: nat -> int)
    requires forall e | e in edges :: rank(e.0) < rank(e.1)
    ensures Acyclic(edges)
  {
    forall path: seq<nat> | IsPath(edges, path) ensures path[0] != path[|path| - 1] {
      RankRises(edges, rank, path);
    }
  }

  lemma {:induction false} CompleteIsAcyclic(n: nat, edges: seq<Edge>, keys: seq<Key>, order: seq<nat>)
    requires |keys| == n && WellFormed(n, edges)
    requires Greedy(n, edges, keys, order) && |order| == n
    ensures Acyclic(edges)
  {
    GreedyDistinct(n, edges, keys, order);
    var rank := (x: nat) => Sequences.IndexIn(order, x);
    forall e | e in edges ensures rank(e.0) < rank(e.1) {
      EdgesPointForward(n, edges, keys, order, Sequences.IndexIn(order, e.0), Sequences.IndexIn(order, e.1));
    }
    RankedIsAcyclic(edges, rank);
  }

  ghost predicate WaitsWithin(edges: seq<Edge>, stuck: set<nat>, q: nat)
  {
    exists p :: p in stuck && (p, q) in edges
  }

  /** In a set where every node has a predecessor in the set, walks backwards are endless. */
  lemma {:induction false} BackwardWalk(edges: seq<Edge>, stuck: set<nat>, end: nat, m: nat) returns (path: seq<nat>)
    requires end in stuck && forall q | q in stuck :: WaitsWithin(edges, stuck, q)
    ensures |path| == m + 2 && IsPath(edges, path) && path[m + 1] == end
    ensures forall i | 0 <= i < |path| :: path[i] in stuck
  {
    if m == 0 {
      assert WaitsWithin(edges, stuck, end);
      var p :| p in stuck && (p, end) in edges;
      path := [p, end];
    } else {
      var rest := BackwardWalk(edges, stuck, end, m - 1);
      assert WaitsWithin(edges, stuck, rest[0]);
      var p :| p in stuck && (p, rest[0]) in edges;
      path := [p] + rest;
      forall i | 0 <= i < |path| - 1 ensures (path[i], path[i + 1]) in edges {
        if i > 0 { assert (rest[i - 1], rest[i]) in edges; }
      }
    }
  }

  /** A sequence longer than its value set repeats a value. */
  lemma {:induction false} Pigeonhole(path: seq<nat>, values: set<nat>)
    requires forall i | 0 <= i < |path| :: path[i] in values
    requires |path| > |values|
    ensures exists i: nat, j: nat :: i < j < |path| && path[i] == path[j]
  {
    if forall i, j | 0 <= i < j < |path| :: path[i] != path[j] {
      DistinctCardinality(path);
      SubsetCardinality(Elements(path), values);
    }
  }

  /** A path that goes round a cycle first. */
  predicate Loops(edges: seq<Edge>, path: seq<nat>)
  {
    IsPath(edges, path) && exists j | 1 <= j < |path| :: path[j] == path[0]
  }

  /** The node is on a cycle, or a path from a cycle leads to it. */
  ghost predicate BehindCycle(edges: seq<Edge>, q: nat)
  {
    exists path: seq<nat> :: Loops(edges, path) && path[|path| - 1] == q
  }

  lemma {:induction false} PieceIsPath(edges: seq<Edge>, path: seq<nat>, i: nat, j: nat)
    requires IsPath(edges, path) && i < j < |path|
    ensures IsPath(edges, path[i..j + 1])
  {
    var piece := path[i..j + 1];
    forall k | 0 <= k < |piece| - 1 ensures (piece[k], piece[k + 1]) in edges {
      assert (path[i + k], path[i + k + 1]) in edges;
    }
  }

  lemma {:induction false} StuckIsBehindCycle(edges: seq<Edge>, stuck: set<nat>, q: nat)
    requires q in stuck && forall p | p in stuck :: WaitsWithin(edges, stuck, p)
    ensures BehindCycle(edges, q)
  {
    var path := BackwardWalk(edges, stuck, q, |stuck|);
    Pigeonhole(path, stuck);
    var i: nat, j: nat :| i < j < |path| && path[i] == path[j];
    RepeatIsBehindCycle(edges, path, i, j);
  }

  lemma {:induction false} RepeatIsBehindCycle(edges: seq<Edge>, path: seq<nat>, i: nat, j: nat)
    requires IsPath(edges, path) && i < j < |path| && path[i] == path[j]
    ensures BehindCycle(edges, path[|path| - 1])
  {
    var last := |path| - 1;
    PieceIsPath(edges, path, i, last);
    var rest := path[i..last + 1];
    assert rest[j - i] == rest[0] && rest[|rest| - 1] == path[last];
    assert Loops(edges, rest);
  }

  lemma {:induction false} LoopIsCycle(edges: seq<Edge>, q: nat)
    requires BehindCycle(edges, q)
    ensures !Acyclic(edges)
  {
    var path: seq<nat> :| Loops(edges, path) && path[|path| - 1] == q;
    var j :| 1 <= j < |path| && path[j] == path[0];
    PieceIsPath(edges, path, 0, j);
  }

  /** What precedes a node of the order precedes it in the order. */
  lemma {:induction false} PredecessorIsDone(n: nat, edges: seq<Edge>, keys: seq<Key>, order: seq<nat>, p: nat, q: nat)
    requires |keys| == n && Greedy(n, edges, keys, order) && q in order && (p, q) in edges
    ensures p in order && Sequences.IndexIn(order, p) < Sequences.IndexIn(order, q)
  {
    var k := Sequences.IndexIn(order, q);
    assert GreedyAt(n, edges, keys, order, k);
    PendingZero(edges, Elements(order[..k]), q);
    assert p in order[..k];
    GreedyDistinct(n, edges, keys, order);
  }

  lemma {:induction false} PathIsDone(n: nat, edges: seq<Edge>, keys: seq<Key>, order: seq<nat>, path: seq<nat>, i: nat)
    requires |keys| == n && Greedy(n, edges, keys, order) && IsPath(edges, path)
    requires i < |path| && path[|path| - 1] in order
    ensures path[i] in order && forall k | i < k < |path| ::
              path[k] in order && Sequences.IndexIn(order, path[i]) < Sequences.IndexIn(order, path[k])
    decreases |path| - i
  {
    if i < |path| - 1 {
      PathIsDone(n, edges, keys, order, path, i + 1);
      PredecessorIsDone(n, edges, keys, order, path[i], path[i + 1]);
    }
  }

  /** The nodes left out are exactly those on a cycle or behind one. */
  lemma {:induction false} LeftOutExactly(n: nat, edges: seq<Edge>, keys: seq<Key>, order: seq<nat>, q: nat)
    requires |keys| == n && WellFormed(n, edges) && q < n
    requires Greedy(n, edges, keys, order) && Exhausted(n, edges, order)
    ensures q !in order <==> BehindCycle(edges, q)
  {
    if q !in order {
      LeftoverIsStuck(n, edges, order);
      BelowIsInterval(n);
      StuckIsBehindCycle(edges, Below(n) - Elements(order), q);
    } else if BehindCycle(edges, q) {
      var path: seq<nat> :| Loops(edges, path) && path[|path| - 1] == q;
      PathIsDone(n, edges, keys, order, path, 0);
    }
  }

  lemma {:induction false} LeftoverIsStuck(n: nat, edges: seq<Edge>, order: seq<nat>)
    requires WellFormed(n, edges) && Exhausted(n, edges, order)
    ensures var stuck := Below(n) - Elements(order); forall q | q in stuck :: WaitsWithin(edges, stuck, q)
  {
    BelowIsInterval(n);
    var stuck := Below(n) - Elements(order);
    forall q | q in stuck ensures WaitsWithin(edges, stuck, q) {
      LeftoverWaits(n, edges, order, q);
      var p: nat :| p < n && p !in order && (p, q) in edges;
      assert p in stuck;
    }
  }

  /** The nodes left over wait for each other. */
  lemma {:induction false} LeftoverWaits(n: nat, edges: seq<Edge>, order: seq<nat>, q: nat)
    requires WellFormed(n, edges) && Exhausted(n, edges, order)
    requires q < n && q !in order
    ensures exists p: nat :: p < n && p !in order && (p, q) in edges
  {
    assert !Ready(edges, Elements(order), q);
    PendingZero(edges, Elements(order), q);
    var e :| e in edges && e.1 == q && e.0 !in order;
    assert e == (e.0, q);
  }

  /** The order is complete exactly when the graph has no cycle. */
  lemma {:induction false} CompleteIffAcyclic(n: nat, edges: seq<Edge>, keys: seq<Key>, order: seq<nat>)
    requires |keys| == n && WellFormed(n, edges)
    requires Greedy(n, edges, keys, order) && Exhausted(n, edges, order)
    ensures |order| == n <==> Acyclic(edges)
  {
    GreedyDistinct(n, edges, keys, order);
    if |order| == n {
      CompleteIsAcyclic(n, edges, keys, order);
    } else {
      BelowIsInterval(n);
      if Below(n) <= Elements(order) { SubsetCardinality(Below(n), Elements(order)); }
      var q :| q in Below(n) && q !in order;
      LeftOutExactly(n, edges, keys, order, q);
      LoopIsCycle(edges, q);
    }
  }

  /** With distinct keys there is only one such order. */
  lemma {:induction false} GreedyUnique(n: nat, edges: seq<Edge>, keys: seq<Key>, a: seq<nat>, b: seq<nat>, k: nat)
    requires |keys| == n && forall i, j | 0 <= i < j < n :: keys[i] != keys[j]
    requires Greedy(n, edges, keys, a) && Exhausted(n, edges, a)
    requires Greedy(n, edges, keys, b) && Exhausted(n, edges, b)
    requires k <= |a| && k <= |b| && a[..k] == b[..k]
    ensures a == b
    decreases |a| - k
  {
    assert k < |a| ==> GreedyAt(n, edges, keys, a, k);
    assert k < |b| ==> GreedyAt(n, edges, keys, b, k);
    assert a[..|a|] == a && b[..|b|] == b;
    if k < |a| && k < |b| {
      KeyAntisymmetric(keys[a[k]], keys[b[k]]);
      assert a[k] == b[k];
      assert a[..k + 1] == b[..k + 1];
      GreedyUnique(n, edges, keys, a, b, k + 1);
    }
  }

  // ----- Draining the heap

  /** Exactly the nodes below `m` that are ready, each once. */
  predicate HeapHolds(ready: seq<nat>, waiting: seq<nat>, order: seq<nat>, m: nat)
    requires m <= |waiting|
  {
    && (forall i, j | 0 <= i < j < |ready| :: ready[i] != ready[j])
    && (forall i | 0 <= i < |ready| :: ready[i] < m && ready[i] !in order && waiting[ready[i]] == 0)
    && (forall q: nat | q < m && q !in order && waiting[q] == 0 :: q in ready)
  }

  lemma {:induction false} LeastExists(ready: seq<nat>, keys: seq<Key>) returns (at: nat)
    requires ready != [] && forall i | 0 <= i < |ready| :: ready[i] < |keys|
    ensures at < |ready|
    ensures forall j | 0 <= j < |ready| :: KeyLeq(keys[ready[at]], keys[ready[j]])
  {
    at := 0;
    KeyTotal(keys[ready[0]], keys[ready[0]]);
    for m := 1 to |ready|
      invariant at < m
      invariant forall j | 0 <= j < m :: KeyLeq(keys[ready[at]], keys[ready[j]])
    {
      KeyTotal(keys[ready[at]], keys[ready[m]]);
      KeyTotal(keys[ready[m]], keys[ready[m]]);
      if !KeyLeq(keys[ready[at]], keys[ready[m]]) {
        forall j | 0 <= j < m ensures KeyLeq(keys[ready[m]], keys[ready[j]]) {
          KeyTransitive(keys[ready[m]], keys[ready[at]], keys[ready[j]]);
        }
        at := m;
      }
    }
  }

  method Drain(n: nat, keys: seq<Key>, successors: seq<seq<nat>>, initial: seq<nat>, ghost edges: seq<Edge>)
    returns (order: seq<nat>, waiting: seq<nat>)
    requires WellFormed(n, edges) && |keys| == |successors| == |initial| == n
    requires forall p | 0 <= p < n :: successors[p] == Targets(edges, p)
    requires forall q | 0 <= q < n :: initial[q] == Pending(edges, {}, q)
    ensures Greedy(n, edges, keys, order) && Exhausted(n, edges, order)
    ensures |waiting| == n && forall q | 0 <= q < n :: waiting[q] == Pending(edges, Elements(order), q)
  {
    waiting, order := initial, [];
    var ready: seq<nat> := [];
    for i := 0 to n
      invariant HeapHolds(ready, waiting, order, i)
    {
      if waiting[i] == 0 {
        ready := ready + [i];
      }
    }
    assert Elements(order) == {};
    while ready != []
      invariant |waiting| == n
      invariant Greedy(n, edges, keys, order)
      invariant forall q | 0 <= q < n :: waiting[q] == Pending(edges, Elements(order), q)
      invariant HeapHolds(ready, waiting, order, n)
      decreases n - |order|
    {
      ghost var _ := LeastExists(ready, keys);
      var at: nat :| at < |ready| && forall j | 0 <= j < |ready| :: KeyLeq(keys[ready[at]], keys[ready[j]]);
      var next := ready[at];
      GreedyExtends(n, edges, keys, order, next);
      waiting, ready := Release(n, keys, successors[next], waiting, ready, at, order, edges);
      order := order + [next];
      GreedyDistinct(n, edges, keys, order);
    }
  }

  /** Pops the node at `at` and releases its successors. */
  method Release(n: nat, ghost keys: seq<Key>, targets: seq<nat>, before: seq<nat>, heap: seq<nat>, at: nat,
                 ghost order: seq<nat>, ghost edges: seq<Edge>)
    returns (waiting: seq<nat>, ready: seq<nat>)
    requires WellFormed(n, edges) && |keys| == |before| == n && at < |heap|
    requires Greedy(n, edges, keys, order)
    requires HeapHolds(heap, before, order, n)
    requires forall q | 0 <= q < n :: before[q] == Pending(edges, Elements(order), q)
    requires targets == Targets(edges, heap[at])
    ensures |waiting| == n && HeapHolds(ready, waiting, order + [heap[at]], n)
    ensures forall q | 0 <= q < n :: waiting[q] == Pending(edges, Elements(order + [heap[at]]), q)
  {
    waiting, ready := before, heap[..at] + heap[at + 1..];
    ghost var longer := order + [heap[at]];
    TargetsAreOpen(n, edges, keys, order, heap[at]);
    for t := 0 to |targets|
      invariant Counted(waiting, before, targets[..t])
      invariant HeapHolds(ready, waiting, longer, n)
    {
      var s := targets[t];
      PendingAdd(edges, Elements(order), heap[at], s);
      CountStep(waiting, before, targets, t);
      HeapRelease(ready, waiting, longer, n, s);
      waiting := waiting[s := waiting[s] - 1];
      if waiting[s] == 0 {
        ready := ready + [s];
      }
    }
    CountedAll(n, edges, order, heap[at], waiting, before);
  }

  /** The counters have gone down by the targets taken so far. */
  predicate Counted(waiting: seq<nat>, before: seq<nat>, taken: seq<nat>)
  {
    |waiting| == |before| && forall q | 0 <= q < |before| :: waiting[q] + multiset(taken)[q] == before[q]
  }

  lemma {:induction false} CountStep(waiting: seq<nat>, before: seq<nat>, targets: seq<nat>, t: nat)
    requires t < |targets| && targets[t] < |before| && Counted(waiting, before, targets[..t])
    requires multiset(targets)[targets[t]] <= before[targets[t]]
    ensures waiting[targets[t]] > 0
    ensures Counted(waiting[targets[t] := waiting[targets[t]] - 1], before, targets[..t + 1])
  {
    SplitTargets(targets, t);
  }

  lemma {:induction false} CountedAll(
    n: nat, edges: seq<Edge>, order: seq<nat>, next: nat, waiting: seq<nat>, before: seq<nat>)
    requires next !in order && |before| == n
    requires forall q | 0 <= q < n :: before[q] == Pending(edges, Elements(order), q)
    requires Counted(waiting, before, Targets(edges, next)[..|Targets(edges, next)|])
    ensures forall q | 0 <= q < n :: waiting[q] == Pending(edges, Elements(order + [next]), q)
  {
    var targets := Targets(edges, next);
    assert targets[..|targets|] == targets;
    assert Elements(order + [next]) == Elements(order) + {next};
    forall q | 0 <= q < n ensures waiting[q] == Pending(edges, Elements(order + [next]), q) {
      PendingAdd(edges, Elements(order), next, q);
    }
  }

  lemma {:induction false} TargetsAreOpen(n: nat, edges: seq<Edge>, keys: seq<Key>, order: seq<nat>, next: nat)
    requires WellFormed(n, edges) && |keys| == n && Greedy(n, edges, keys, order)
    requires next !in order
    ensures forall t | 0 <= t < |Targets(edges, next)| ::
              var s := Targets(edges, next)[t]; s < n && s !in order + [next]
  {
    var targets := Targets(edges, next);
    forall t | 0 <= t < |targets| ensures targets[t] < n && targets[t] !in order + [next] {
      TargetsAreEdges(edges, next, targets[t]);
      if targets[t] in order {
        DoneIsNotPending(n, edges, keys, order, targets[t]);
        PendingZero(edges, Elements(order), targets[t]);
      }
    }
  }

  lemma {:induction false} HeapRelease(ready: seq<nat>, waiting: seq<nat>, order: seq<nat>, n: nat, s: nat)
    requires |waiting| == n && HeapHolds(ready, waiting, order, n)
    requires s < n && s !in order && waiting[s] > 0
    ensures var less := waiting[s := waiting[s] - 1];
            HeapHolds(if less[s] == 0 then ready + [s] else ready, less, order, n)
  {}

  lemma {:induction false} SplitTargets(targets: seq<nat>, t: nat)
    requires t < |targets|
    ensures multiset(targets[..t + 1]) == multiset(targets[..t]) + multiset{targets[t]}
    ensures multiset(targets[..t])[targets[t]] < multiset(targets)[targets[t]]
  {
    assert targets[..t + 1] == targets[..t] + [targets[t]];
    assert targets == targets[..t] + [targets[t]] + targets[t + 1..];
  }

}

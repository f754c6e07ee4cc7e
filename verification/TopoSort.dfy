/** Topological sorting of a finite directed graph, and its exact failure condition. */
module TopoSort {
  import opened Wrappers
  import opened Sequences

  predicate Edge<T(==)>(edges: seq<(T, T)>, a: T, b: T) {
    (a, b) in edges
  }

  /** A walk along edges. */
  ghost predicate IsWalk<T(!new)>(edges: seq<(T, T)>, p: seq<T>) {
    |p| >= 1 && forall i | 0 <= i < |p| - 1 :: Edge(edges, p[i], p[i + 1])
  }

  ghost predicate IsCycle<T(!new)>(edges: seq<(T, T)>, p: seq<T>) {
    |p| >= 2 && IsWalk(edges, p) && p[0] == p[|p| - 1]
  }

  ghost predicate Cyclic<T(!new)>(edges: seq<(T, T)>) {
    exists p: seq<T> :: IsCycle(edges, p)
  }

  /** Every node once, and every edge from an earlier to a later node. */
  ghost predicate Topological(n: nat, edges: seq<(int, int)>, order: seq<int>) {
    && |order| == n && Distinct(order)
    && (forall v: int :: v in order <==> 0 <= v < n)
    && forall i, j | 0 <= i < n && 0 <= j < n && Edge(edges, order[i], order[j]) :: i < j
  }

  ghost predicate InRange(n: nat, edges: seq<(int, int)>) {
    forall a, b | Edge(edges, a, b) :: 0 <= a < n && 0 <= b < n
  }

  // ----- a topological order rules out cycles -----

  lemma WalkTail<T(!new)>(edges: seq<(T, T)>, p: seq<T>)
    requires IsWalk(edges, p) && |p| >= 2
    ensures IsWalk(edges, p[1..]) && Edge(edges, p[0], p[1])
  {
    forall i | 0 <= i < |p[1..]| - 1
      ensures Edge(edges, p[1..][i], p[1..][i + 1])
    {
      assert Edge(edges, p[i + 1], p[i + 1 + 1]);
    }
  }

  /** Along a walk the positions in the order go up. */
  lemma {:induction false} WalkAdvances(n: nat, edges: seq<(int, int)>, order: seq<int>, p: seq<int>)
    requires InRange(n, edges) && Topological(n, edges, order) && IsWalk(edges, p) && |p| >= 2
    ensures p[0] in order && p[|p| - 1] in order && IndexOf(order, p[0]) < IndexOf(order, p[|p| - 1])
  {
    WalkTail(edges, p);
    var a, b := p[0], p[1];
    assert a in order && b in order;
    assert Edge(edges, order[IndexOf(order, a)], order[IndexOf(order, b)]);
    if |p| > 2 { WalkAdvances(n, edges, order, p[1..]); }
  }

  lemma OrderMeansAcyclic(n: nat, edges: seq<(int, int)>, order: seq<int>)
    requires InRange(n, edges) && Topological(n, edges, order)
    ensures !Cyclic(edges)
  {
    forall p: seq<int>
      ensures !IsCycle(edges, p)
    {
      if |p| >= 2 && IsWalk(edges, p) { WalkAdvances(n, edges, order, p); }
    }
  }

  // ----- a set without a source contains a cycle -----

  predicate HasPredecessor(s: set<int>, edges: seq<(int, int)>, v: int) {
    exists i | 0 <= i < |edges| :: edges[i].1 == v && edges[i].0 in s
  }

  /** Every node of `s` has a predecessor in `s`. */
  ghost predicate NoSource(s: set<int>, edges: seq<(int, int)>) {
    forall v {:trigger HasPredecessor(s, edges, v)} :: v in s ==> HasPredecessor(s, edges, v)
  }

  lemma SomePredecessor(s: set<int>, edges: seq<(int, int)>, v: int) returns (u: int)
    requires NoSource(s, edges) && v in s
    ensures u in s && Edge(edges, u, v)
  {
    assert HasPredecessor(s, edges, v);
    var i :| 0 <= i < |edges| && edges[i].1 == v && edges[i].0 in s;
    u := edges[i].0;
    assert edges[i] == (u, v);
  }

  lemma {:induction false} WalkBack(s: set<int>, edges: seq<(int, int)>, v: int, k: nat) returns (p: seq<int>)
    requires NoSource(s, edges) && v in s
    ensures |p| == k + 1 && IsWalk(edges, p) && (forall i | 0 <= i < |p| :: p[i] in s) && p[k] == v
    decreases k
  {
    hide NoSource;
    if k == 0 {
      p := [v];
    } else {
      var u := SomePredecessor(s, edges, v);
      var q := WalkBack(s, edges, u, k - 1);
      p := q + [v];
      forall i | 0 <= i < |p| - 1
        ensures Edge(edges, p[i], p[i + 1])
      {
        if i < k - 1 { assert Edge(edges, q[i], q[i + 1]); }
      }
    }
  }

  /** More places than values: some value occurs twice. */
  lemma {:induction false} Pigeonhole(s: set<int>, p: seq<int>) returns (i: nat, j: nat)
    requires |p| > |s| && forall i | 0 <= i < |p| :: p[i] in s
    ensures i < j < |p| && p[i] == p[j]
    decreases |s|
  {
    var last := |p| - 1;
    if m: nat :| m < last && p[m] == p[last] {
      i, j := m, last;
    } else {
      i, j := Pigeonhole(s - {p[last]}, p[..last]);
    }
  }

  lemma Member<T>(s: set<T>) returns (v: T)
    requires s != {}
    ensures v in s
  {
    v :| v in s;
  }

  lemma NoSourceMeansCyclic(s: set<int>, edges: seq<(int, int)>)
    requires s != {} && NoSource(s, edges)
    ensures Cyclic(edges)
  {
    hide NoSource;
    var v := Member(s);
    var p := WalkBack(s, edges, v, |s|);
    var i, j := Pigeonhole(s, p);
    var c := p[i..j + 1];
    forall k | 0 <= k < |c| - 1
      ensures Edge(edges, c[k], c[k + 1])
    {
      assert Edge(edges, p[i + k], p[i + k + 1]);
    }
    assert IsCycle(edges, c);
  }

  // ----- the sort -----

  /** Some node of `s` without a predecessor in `s`. */
  method FindSource(n: nat, s: set<int>, edges: seq<(int, int)>) returns (r: Option<int>)
    requires forall v | v in s :: 0 <= v < n
    ensures r.Some? ==> r.value in s && !HasPredecessor(s, edges, r.value)
    ensures r.None? ==> NoSource(s, edges)
  {
    for v := 0 to n
      invariant forall u {:trigger HasPredecessor(s, edges, u)} :: u < v && u in s ==> HasPredecessor(s, edges, u)
    {
      if v in s && !HasPredecessor(s, edges, v) { return Some(v); }
    }
    return None;
  }

  /** What the sort has reached: `order` is a beginning of a topological order and `left` the
      nodes still to come. */
  ghost predicate Prefix(n: nat, edges: seq<(int, int)>, order: seq<int>, left: set<int>) {
    && Distinct(order)
    && (forall v: int :: v in order || v in left <==> 0 <= v < n)
    && (forall v | v in order :: v !in left)
    && (forall a, b | Edge(edges, a, b) && b in order :: a in order)
    && forall i, j | 0 <= i < |order| && 0 <= j < |order| && Edge(edges, order[i], order[j]) :: i < j
  }

  lemma NewcomerIsPreceded(n: nat, edges: seq<(int, int)>, order: seq<int>, left: set<int>, v: int, u: int)
    requires InRange(n, edges) && Prefix(n, edges, order, left) && !HasPredecessor(left, edges, v) && Edge(edges, u, v)
    ensures u in order
  {
    var i :| 0 <= i < |edges| && edges[i] == (u, v);
    assert 0 <= u < n;
  }

  lemma ExtendPrefix(n: nat, edges: seq<(int, int)>, order: seq<int>, left: set<int>, v: int)
    requires InRange(n, edges) && Prefix(n, edges, order, left) && v in left && !HasPredecessor(left, edges, v)
    ensures Prefix(n, edges, order + [v], left - {v})
  {
    var order' := order + [v];
    forall a, b | Edge(edges, a, b) && b in order'
      ensures a in order
    {
      if b == v { NewcomerIsPreceded(n, edges, order, left, v, a); }
    }
    forall i, j | 0 <= i < |order'| && 0 <= j < |order'| && Edge(edges, order'[i], order'[j])
      ensures i < j
    {
      assert order'[j] in order';
      assert order'[i] in order;
    }
  }

  lemma {:induction false} DistinctLength(order: seq<int>)
    requires Distinct(order)
    ensures |order| == |set v | v in order|
    decreases |order|
  {
    if order != [] {
      var last := order[|order| - 1];
      var front := order[..|order| - 1];
      DistinctLength(front);
      assert (set v | v in order) == (set v | v in front) + {last};
    }
  }

  function Range(n: nat): (s: set<int>)
    ensures |s| == n && forall v :: v in s <==> 0 <= v < n
  {
    if n == 0 then {} else Range(n - 1) + {n - 1}
  }

  lemma PrefixComplete(n: nat, edges: seq<(int, int)>, order: seq<int>)
    requires Prefix(n, edges, order, {})
    ensures Topological(n, edges, order)
  {
    DistinctLength(order);
    assert (set v | v in order) == Range(n);
  }

  /** Sorts, or fails exactly on a graph with a cycle (a node with an edge to itself is one). */
  method Sort(n: nat, edges: seq<(int, int)>) returns (r: Option<seq<int>>)
    requires InRange(n, edges)
    ensures r.Some? <==> !Cyclic(edges)
    ensures r.Some? ==> Topological(n, edges, r.value)
  {
    var order, left := [], Range(n);
    assert Prefix(n, edges, order, left);
    hide Prefix, Cyclic, HasPredecessor, NoSource;
    while left != {}
      invariant Prefix(n, edges, order, left)
      invariant forall v | v in left :: 0 <= v < n
      decreases |left|
    {
      var source := FindSource(n, left, edges);
      if source.None? {
        NoSourceMeansCyclic(left, edges);
        return None;
      }
      ExtendPrefix(n, edges, order, left, source.value);
      order := order + [source.value];
      left := left - {source.value};
    }
    PrefixComplete(n, edges, order);
    OrderMeansAcyclic(n, edges, order);
    return Some(order);
  }
}

/** The order in which instances are spawned: every callee of a bridge before its callers. */
module BridgeOrder {
  import opened Wrappers
  import opened Sequences
  import opened TopoSort
  import opened ConductorConfig

  datatype Ordering =
    | Sorted(ids: seq<string>)
    | MissingInstance
    | CyclicDependency
    | Panic            // a graph node without an id: the ids were not distinct

  ghost predicate EndpointsExist(ids: seq<string>, bridges: seq<Bridge>) {
    forall b | b in bridges :: b.callerId in ids && b.calleeId in ids
  }

  /** `m` sends every id to a position where it stands. */
  ghost predicate IndexMap(ids: seq<string>, m: map<string, int>) {
    && (forall id :: id in m <==> id in ids)
    && (forall id | id in m :: 0 <= m[id] < |ids| && ids[m[id]] == id)
  }

  method BuildIndexMap(ids: seq<string>) returns (m: map<string, int>)
    ensures IndexMap(ids, m)
  {
    m := map[];
    for i := 0 to |ids|
      invariant forall id :: id in m <==> id in ids[..i]
      invariant forall id | id in m :: 0 <= m[id] < |ids| && ids[m[id]] == id
    {
      assert ids[..i + 1] == ids[..i] + [ids[i]];
      m := m[ids[i] := i];
    }
    assert ids[..|ids|] == ids;
  }

  ghost predicate EdgesOf(m: map<string, int>, bridges: seq<Bridge>, edges: seq<(int, int)>) {
    && |edges| == |bridges|
    && forall i | 0 <= i < |bridges| ::
         && bridges[i].callerId in m && bridges[i].calleeId in m
         && edges[i] == (m[bridges[i].callerId], m[bridges[i].calleeId])
  }

  method BuildEdges(ids: seq<string>, m: map<string, int>, bridges: seq<Bridge>) returns (r: Option<seq<(int, int)>>)
    requires IndexMap(ids, m)
    ensures r.Some? <==> EndpointsExist(ids, bridges)
    ensures r.Some? ==> EdgesOf(m, bridges, r.value)
  {
    var edges := [];
    for i := 0 to |bridges|
      invariant EdgesOf(m, bridges[..i], edges)
    {
      var b := bridges[i];
      if b.callerId !in m || b.calleeId !in m {
        assert b in bridges;
        return None;
      }
      edges := edges + [(m[b.callerId], m[b.calleeId])];
    }
    assert bridges[..|bridges|] == bridges;
    return Some(edges);
  }

  // ----- the index graph has the cycles of the bridges -----

  lemma EdgeToBridge(m: map<string, int>, bridges: seq<Bridge>, edges: seq<(int, int)>, a: int, b: int) returns (i: nat)
    requires EdgesOf(m, bridges, edges) && Edge(edges, a, b)
    ensures i < |bridges| && a == m[bridges[i].callerId] && b == m[bridges[i].calleeId]
  {
    i :| 0 <= i < |edges| && edges[i] == (a, b);
  }

  lemma IndexCycleToIds(ids: seq<string>, m: map<string, int>, bridges: seq<Bridge>, edges: seq<(int, int)>, p: seq<int>)
    requires IndexMap(ids, m) && EdgesOf(m, bridges, edges) && IsCycle(edges, p)
    ensures Cyclic(BridgeEdges(bridges))
  {
    forall i | 0 <= i < |p|
      ensures 0 <= p[i] < |ids|
    {
      if i < |p| - 1 {
        assert Edge(edges, p[i], p[i + 1]);
        var k := EdgeToBridge(m, bridges, edges, p[i], p[i + 1]);
      } else {
        assert Edge(edges, p[i - 1], p[i - 1 + 1]);
        var k := EdgeToBridge(m, bridges, edges, p[i - 1], p[i]);
      }
    }
    var q := seq(|p|, i requires 0 <= i < |p| => ids[p[i]]);
    forall i | 0 <= i < |q| - 1
      ensures Edge(BridgeEdges(bridges), q[i], q[i + 1])
    {
      assert Edge(edges, p[i], p[i + 1]);
      var k := EdgeToBridge(m, bridges, edges, p[i], p[i + 1]);
      assert BridgeEdges(bridges)[k] == (q[i], q[i + 1]);
    }
    assert IsCycle(BridgeEdges(bridges), q);
  }

  lemma IdEdge(m: map<string, int>, bridges: seq<Bridge>, edges: seq<(int, int)>, a: string, b: string)
    requires EdgesOf(m, bridges, edges) && Edge(BridgeEdges(bridges), a, b)
    ensures a in m && b in m && Edge(edges, m[a], m[b])
  {
    var i :| 0 <= i < |BridgeEdges(bridges)| && BridgeEdges(bridges)[i] == (a, b);
    assert edges[i] == (m[a], m[b]);
  }

  lemma IdCycleToIndices(m: map<string, int>, bridges: seq<Bridge>, edges: seq<(int, int)>, q: seq<string>)
    requires EdgesOf(m, bridges, edges) && IsCycle(BridgeEdges(bridges), q)
    ensures Cyclic(edges)
  {
    forall i | 0 <= i < |q|
      ensures q[i] in m
    {
      if i < |q| - 1 {
        assert Edge(BridgeEdges(bridges), q[i], q[i + 1]);
        IdEdge(m, bridges, edges, q[i], q[i + 1]);
      } else {
        assert Edge(BridgeEdges(bridges), q[i - 1], q[i - 1 + 1]);
        IdEdge(m, bridges, edges, q[i - 1], q[i]);
      }
    }
    var p := seq(|q|, i requires 0 <= i < |q| => m[q[i]]);
    forall i | 0 <= i < |p| - 1
      ensures Edge(edges, p[i], p[i + 1])
    {
      assert Edge(BridgeEdges(bridges), q[i], q[i + 1]);
      IdEdge(m, bridges, edges, q[i], q[i + 1]);
    }
    assert IsCycle(edges, p);
  }

  lemma SameCycles(ids: seq<string>, m: map<string, int>, bridges: seq<Bridge>, edges: seq<(int, int)>)
    requires IndexMap(ids, m) && EdgesOf(m, bridges, edges)
    ensures InRange(|ids|, edges)
    ensures Cyclic(edges) <==> Cyclic(BridgeEdges(bridges))
  {
    forall a, b | Edge(edges, a, b)
      ensures 0 <= a < |ids| && 0 <= b < |ids|
    {
      var i := EdgeToBridge(m, bridges, edges, a, b);
    }
    if p: seq<int> :| IsCycle(edges, p) { IndexCycleToIds(ids, m, bridges, edges, p); }
    if q: seq<string> :| IsCycle(BridgeEdges(bridges), q) { IdCycleToIndices(m, bridges, edges, q); }
  }

  // ----- from sorted nodes back to ids -----

  method BuildReverseMap(ids: seq<string>, m: map<string, int>) returns (reverse: map<int, string>)
    requires IndexMap(ids, m)
    ensures forall v | 0 <= v < |ids| :: v in reverse <==> m[ids[v]] == v
    ensures forall v | v in reverse && 0 <= v < |ids| :: reverse[v] == ids[v]
  {
    reverse := map[];
    for i := 0 to |ids|
      invariant forall v | v in reverse :: 0 <= v < |ids| && m[ids[v]] == v && reverse[v] == ids[v]
      invariant forall k | 0 <= k < i :: m[ids[k]] in reverse
    {
      reverse := reverse[m[ids[i]] := ids[i]];
    }
  }

  /** All positions can be named exactly when the ids are distinct. */
  lemma NamesExist(ids: seq<string>, m: map<string, int>)
    requires IndexMap(ids, m)
    ensures Distinct(ids) <==> forall v | 0 <= v < |ids| :: m[ids[v]] == v
  {
    if Distinct(ids) {
      forall v | 0 <= v < |ids|
        ensures m[ids[v]] == v
      {
        var w := m[ids[v]];
        assert ids[w] == ids[v];
      }
    }
  }

  /** Every callee stands before each of its callers. */
  ghost predicate CalleesFirst(bridges: seq<Bridge>, ids: seq<string>) {
    forall b, i, j | b in bridges && 0 <= i < |ids| && 0 <= j < |ids| && ids[i] == b.calleeId && ids[j] == b.callerId :: i < j
  }

  function Reverse(s: seq<int>): (r: seq<int>)
    ensures |r| == |s|
    ensures forall v :: v in r <==> v in s
  {
    var r := seq(|s|, i requires 0 <= i < |s| => s[|s| - 1 - i]);
    assert forall i | 0 <= i < |s| :: r[|s| - 1 - i] == s[i];
    r
  }

  ghost predicate Named(ids: seq<string>, nodes: seq<int>, out: seq<string>) {
    |out| == |nodes| && forall i | 0 <= i < |out| :: 0 <= nodes[i] < |ids| && out[i] == ids[nodes[i]]
  }

  method NameAll(ids: seq<string>, m: map<string, int>, nodes: seq<int>) returns (r: Option<seq<string>>)
    requires IndexMap(ids, m) && forall v :: v in nodes <==> 0 <= v < |ids|
    ensures r.Some? <==> Distinct(ids)
    ensures r.Some? ==> Named(ids, nodes, r.value)
  {
    var reverse := BuildReverseMap(ids, m);
    NamesExist(ids, m);
    var out := [];
    for i := 0 to |nodes|
      invariant |out| == i
      invariant forall k | 0 <= k < i :: 0 <= nodes[k] < |ids| && nodes[k] in reverse && out[k] == ids[nodes[k]]
    {
      var v := nodes[i];
      assert v in nodes;
      if v !in reverse { return None; }
      out := out + [reverse[v]];
    }
    forall v | 0 <= v < |ids|
      ensures m[ids[v]] == v
    {
      assert v in nodes;
      var i :| 0 <= i < |nodes| && nodes[i] == v;
    }
    return Some(out);
  }

  lemma {:induction false} DistinctCount(s: seq<string>, x: string)
    requires Distinct(s)
    ensures multiset(s)[x] == if x in s then 1 else 0
  {
    if s != [] {
      var front, last := s[..|s| - 1], s[|s| - 1];
      DistinctCount(front, x);
      assert s == front + [last];
    }
  }

  lemma NamedIsPermutation(ids: seq<string>, nodes: seq<int>, out: seq<string>)
    requires Distinct(ids) && Distinct(nodes) && Named(ids, nodes, out) && forall v :: v in nodes <==> 0 <= v < |ids|
    ensures multiset(out) == multiset(ids)
  {
    forall x
      ensures x in out <==> x in ids
    {
      if x in ids {
        var v :| 0 <= v < |ids| && ids[v] == x;
        assert v in nodes;
        var i :| 0 <= i < |nodes| && nodes[i] == v;
        assert out[i] == x;
      }
    }
    forall x
      ensures multiset(out)[x] == multiset(ids)[x]
    {
      DistinctCount(out, x);
      DistinctCount(ids, x);
    }
  }

  /** Reversing a topological order puts the target of every edge first. */
  lemma ReverseOrder(n: nat, edges: seq<(int, int)>, order: seq<int>)
    requires Topological(n, edges, order)
    ensures var r := Reverse(order);
            Distinct(r) && forall i, j | 0 <= i < n && 0 <= j < n && Edge(edges, r[i], r[j]) :: j < i
  {
    var r := Reverse(order);
    forall i, j | 0 <= i < n && 0 <= j < n && Edge(edges, r[i], r[j])
      ensures j < i
    {
      assert Edge(edges, order[n - 1 - i], order[n - 1 - j]);
    }
  }

  lemma NamedPutsCalleesFirst(
      ids: seq<string>, m: map<string, int>, bridges: seq<Bridge>, edges: seq<(int, int)>, nodes: seq<int>, out: seq<string>)
    requires IndexMap(ids, m) && Distinct(ids) && EdgesOf(m, bridges, edges) && Named(ids, nodes, out)
    requires forall i, j | 0 <= i < |nodes| && 0 <= j < |nodes| && Edge(edges, nodes[i], nodes[j]) :: j < i
    ensures CalleesFirst(bridges, out)
  {
    NamesExist(ids, m);
    forall b, i, j | b in bridges && 0 <= i < |out| && 0 <= j < |out| && out[i] == b.calleeId && out[j] == b.callerId
      ensures i < j
    {
      var k :| 0 <= k < |bridges| && bridges[k] == b;
      assert edges[k] == (nodes[j], nodes[i]);
      assert Edge(edges, nodes[j], nodes[i]);
    }
  }

  /** Sorts the instances, callees first.  It fails exactly when a bridge endpoint is missing or
      the bridges form a cycle, and panics exactly when otherwise an id is not unique. */
  method InstanceIdsSortedByBridgeDependencies(ids: seq<string>, bridges: seq<Bridge>) returns (r: Ordering)
    ensures r.MissingInstance? <==> !EndpointsExist(ids, bridges)
    ensures r.CyclicDependency? <==> EndpointsExist(ids, bridges) && Cyclic(BridgeEdges(bridges))
    ensures r.Panic? <==> EndpointsExist(ids, bridges) && !Cyclic(BridgeEdges(bridges)) && !Distinct(ids)
    ensures r.Sorted? ==> multiset(r.ids) == multiset(ids) && CalleesFirst(bridges, r.ids)
  {
    var m := BuildIndexMap(ids);
    var edges := BuildEdges(ids, m, bridges);
    if edges.None? { return MissingInstance; }
    SameCycles(ids, m, bridges, edges.value);
    var order := Sort(|ids|, edges.value);
    if order.None? { return CyclicDependency; }
    ReverseOrder(|ids|, edges.value, order.value);
    var nodes := Reverse(order.value);
    var named := NameAll(ids, m, nodes);
    if named.None? { return Panic; }
    NamedIsPermutation(ids, nodes, named.value);
    NamedPutsCalleesFirst(ids, m, bridges, edges.value, nodes, named.value);
    return Sorted(named.value);
  }

  /** Ordering panics on a repeated id, even without any bridge. */
  method OrderingCanPanic() returns (r: Ordering)
    ensures r.Panic?
  {
    var ids := ["i", "i"];
    assert ids[0] == ids[1];
    assert !Cyclic(BridgeEdges([])) by {
      forall p: seq<string>
        ensures !IsCycle(BridgeEdges([]), p)
      {
        if |p| >= 2 { assert !Edge(BridgeEdges([]), p[0], p[0 + 1]); }
      }
    }
    r := InstanceIdsSortedByBridgeDependencies(ids, []);
  }
}

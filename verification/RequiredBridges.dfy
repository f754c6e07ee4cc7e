/** What the consistency check says about required bridges.  It looks for any bridge with the
    required handle, whoever calls it; these results say when that is the instance's own. */
module RequiredBridges {
  import opened Wrappers
  import opened TopoSort
  import opened ConductorConfig

  predicate HasOwnBridge(bridges: seq<Bridge>, id: string, handle: string) {
    exists b | b in bridges :: b.callerId == id && b.handle == handle
  }

  /** The DNA of the instance demands a bridge with the handle. */
  ghost predicate Requires(c: Configuration, files: DnaLoader, i: Instance, handle: string) {
    && DnaOf(c, files, i).Some?
    && exists z, d :: z in DnaOf(c, files, i).value.zomes && d in z.bridges && d.required && d.handle == handle
  }

  /** The DNA of the instance defines a bridge with the handle, required or not. */
  ghost predicate Defines(c: Configuration, files: DnaLoader, i: Instance, handle: string) {
    && DnaOf(c, files, i).Some?
    && exists z, d :: z in DnaOf(c, files, i).value.zomes && d in z.bridges && d.handle == handle
  }

  lemma {:induction false} DefIsInAZome(zomes: seq<Zome>, d: BridgeDef)
    ensures d in AllDefs(zomes) ==> exists z :: z in zomes && d in z.bridges
  {
    if zomes != [] {
      DefIsInAZome(zomes[..|zomes| - 1], d);
      assert zomes[|zomes| - 1] in zomes;
    }
  }

  lemma CallerDefines(c: Configuration, files: DnaLoader, b: Bridge)
    requires BridgeMet(c, files, b)
    ensures var caller := InstanceById(c.instances, b.callerId);
            caller.Some? && caller.value in c.instances && Defines(c, files, caller.value, b.handle)
  {
    var caller := InstanceById(c.instances, b.callerId).value;
    var zomes := DnaOf(c, files, caller).value.zomes;
    DefIsInAZome(zomes, LastDef(AllDefs(zomes), b.handle).value);
  }

  /** In a consistent configuration an instance has its own bridge for every handle it requires,
      if no other instance's DNA defines that handle. */
  lemma OwnBridgeWhenAlone(c: Configuration, files: DnaLoader, i: Instance, handle: string)
    requires Consistent(c, files) && i in c.instances && Requires(c, files, i, handle)
    requires forall j | j in c.instances && Defines(c, files, j, handle) :: j == i
    ensures HasOwnBridge(c.bridges, i.id, handle)
  {
    hide Requires, Defines, BridgeMet, Cyclic;
    assert InstanceResolves(c, files, i);
    var b := SomeBridge(c, files, i, handle);
    CallerDefines(c, files, b);
  }

  lemma SomeBridge(c: Configuration, files: DnaLoader, i: Instance, handle: string) returns (b: Bridge)
    requires InstanceResolves(c, files, i) && Requires(c, files, i, handle)
    ensures b in c.bridges && b.handle == handle
  {
    var dna := DnaOf(c, files, i).value;
    var z, d :| z in dna.zomes && d in z.bridges && d.required && d.handle == handle;
    b :| b in c.bridges && b.handle == d.handle;
  }

  // ----- dropping an instance's own bridges -----

  function DropOwn(bridges: seq<Bridge>, id: string, handle: string): (r: seq<Bridge>)
    ensures forall b :: b in r <==> b in bridges && !(b.callerId == id && b.handle == handle)
  {
    if bridges == [] then [] else
      (if bridges[0].callerId == id && bridges[0].handle == handle then [] else [bridges[0]])
      + DropOwn(bridges[1..], id, handle)
  }

  function WithoutOwn(c: Configuration, id: string, handle: string): Configuration {
    c.(bridges := DropOwn(c.bridges, id, handle))
  }

  lemma BridgeEdgeIff(bridges: seq<Bridge>, x: string, y: string)
    ensures Edge(BridgeEdges(bridges), x, y) <==> exists b :: b in bridges && b.callerId == x && b.calleeId == y
  {
    if Edge(BridgeEdges(bridges), x, y) {
      var i :| 0 <= i < |bridges| && BridgeEdges(bridges)[i] == (x, y);
      assert bridges[i] in bridges;
    }
    if b :| b in bridges && b.callerId == x && b.calleeId == y {
      var i :| 0 <= i < |bridges| && bridges[i] == b;
      assert BridgeEdges(bridges)[i] == (x, y);
    }
  }

  lemma FewerBridgesStayAcyclic(fewer: seq<Bridge>, bridges: seq<Bridge>)
    requires (forall b | b in fewer :: b in bridges) && !Cyclic(BridgeEdges(bridges))
    ensures !Cyclic(BridgeEdges(fewer))
  {
    forall p: seq<string>
      ensures !IsCycle(BridgeEdges(fewer), p)
    {
      if IsCycle(BridgeEdges(fewer), p) {
        forall i | 0 <= i < |p| - 1
          ensures Edge(BridgeEdges(bridges), p[i], p[i + 1])
        {
          BridgeEdgeIff(fewer, p[i], p[i + 1]);
          BridgeEdgeIff(bridges, p[i], p[i + 1]);
        }
        assert IsCycle(BridgeEdges(bridges), p);
      }
    }
  }

  /** Some other instance has a bridge with the handle. */
  predicate CalledByOthers(bridges: seq<Bridge>, id: string, handle: string) {
    exists b | b in bridges :: b.callerId != id && b.handle == handle
  }

  lemma ResolvesWithoutOwn(c: Configuration, files: DnaLoader, id: string, handle: string, i: Instance)
    requires InstanceResolves(c, files, i)
    ensures InstanceResolves(WithoutOwn(c, id, handle), files, i) <==>
            !Requires(c, files, i, handle) || CalledByOthers(c.bridges, id, handle)
  {
    var c' := WithoutOwn(c, id, handle);
    assert DnaOf(c', files, i) == DnaOf(c, files, i) && AgentIds(c') == AgentIds(c);
    var dna := DnaOf(c, files, i).value;
    if InstanceResolves(c', files, i) && Requires(c, files, i, handle) {
      var b := SomeBridge(c', files, i, handle);
    }
    if !Requires(c, files, i, handle) || CalledByOthers(c.bridges, id, handle) {
      forall z, d | z in dna.zomes && d in z.bridges && d.required
        ensures exists b :: b in c'.bridges && b.handle == d.handle
      {
        var b :| b in c.bridges && b.handle == d.handle;
        if d.handle != handle { assert b in c'.bridges; }
      }
    }
  }

  lemma MetWithoutOwn(c: Configuration, files: DnaLoader, id: string, handle: string, b: Bridge)
    ensures BridgeMet(WithoutOwn(c, id, handle), files, b) <==> BridgeMet(c, files, b)
  {
  }

  /** The exact extent of the check: from a consistent configuration, an instance's own bridges with
      some handle can be dropped without the check noticing if and only if no instance requires
      the handle or some other instance has a bridge with it. */
  lemma DroppingOwnBridgesIff(c: Configuration, files: DnaLoader, id: string, handle: string)
    requires Consistent(c, files)
    ensures Consistent(WithoutOwn(c, id, handle), files) <==>
            (forall i | i in c.instances :: !Requires(c, files, i, handle)) || CalledByOthers(c.bridges, id, handle)
  {
    hide Requires, CalledByOthers, BridgeMet, InstanceResolves, Cyclic, IsCycle;
    var c' := WithoutOwn(c, id, handle);
    FewerBridgesStayAcyclic(c'.bridges, c.bridges);
    forall b
      ensures BridgeMet(c', files, b) <==> BridgeMet(c, files, b)
    {
      MetWithoutOwn(c, files, id, handle, b);
    }
    forall i | i in c.instances
      ensures InstanceResolves(c', files, i) <==>
              !Requires(c, files, i, handle) || CalledByOthers(c.bridges, id, handle)
    {
      ResolvesWithoutOwn(c, files, id, handle, i);
    }
    assert AgentIds(c') == AgentIds(c) && DnaIds(c') == DnaIds(c) && InterfaceIds(c') == InterfaceIds(c);
    assert UiBundleIds(c') == UiBundleIds(c);
  }

  // ----- a consistent configuration with a required bridge missing -----

  lemma OneEdgeIsNoCycle(x: string, y: string, handle: string)
    requires x != y
    ensures !Cyclic(BridgeEdges([Bridge(x, y, handle)]))
  {
    var edges := BridgeEdges([Bridge(x, y, handle)]);
    assert edges == [(x, y)];
    forall p: seq<string>
      ensures !IsCycle(edges, p)
    {
      if |p| >= 2 && Edge(edges, p[0], p[0 + 1]) && |p| > 2 {
        assert !Edge(edges, p[1], p[1 + 1]);
      }
    }
  }

  /** Two instances of one DNA that requires a bridge; only one of them has it. */
  lemma RequiredBridgeCanBeMissing() returns (c: Configuration, files: DnaLoader, i: Instance, handle: string)
    ensures Consistent(c, files) && i in c.instances
    ensures Requires(c, files, i, handle) && !HasOwnBridge(c.bridges, i.id, handle)
  {
    handle := "h";
    var def := BridgeDef(true, "h", ByAddress("a"));
    var dna := Dna("a", [Zome([def], [], [])]);
    files := map["f" := dna];
    i := Instance("i", "d", "g", Memory);
    var j := Instance("j", "d", "g", Memory);
    var b := Bridge("j", "i", "h");
    c := Configuration([Agent("g", "")], [DnaConfig("d", "f", "")], [i, j], [], [b], [], [], None);
    assert dna.zomes[0] in dna.zomes && def in dna.zomes[0].bridges;
    assert DnaOf(c, files, i) == Some(dna) && DnaOf(c, files, j) == Some(dna);
    assert Requires(c, files, i, handle);
    IsConsistent(c, files, i, j, b, dna, def);
  }

  lemma IsMet(c: Configuration, files: DnaLoader, i: Instance, j: Instance, dna: Dna, def: BridgeDef)
    requires i.id == "i" && j.id == "j" && c.instances == [i, j]
    requires def == BridgeDef(true, "h", ByAddress("a")) && dna == Dna("a", [Zome([def], [], [])])
    requires DnaOf(c, files, i) == Some(dna) && DnaOf(c, files, j) == Some(dna)
    ensures BridgeMet(c, files, Bridge("j", "i", "h"))
  {
    hide DnaOf;
    assert [i, j][1..] == [j];
    assert InstanceById([j], "j") == Some(j);
    assert dna.zomes[..0] == [] && AllDefs(dna.zomes) == [] + [def] == [def];
    assert LastDef([def], "h") == Some(def);
  }

  lemma IdsAreDistinct(c: Configuration, g: Agent, d: DnaConfig, i: Instance, j: Instance)
    requires c.agents == [g] && c.dnas == [d] && c.instances == [i, j] && c.interfaces == [] && i.id != j.id
    requires i.storage == j.storage == Memory
    ensures DistinctIds(c) && g.id in AgentIds(c) && StoragePaths(c.instances) == []
  {
    assert AgentIds(c) == [g.id] && DnaIds(c) == [d.id] && InstanceIds(c) == [i.id, j.id];
    assert [i, j][1..] == [j] && [j][1..] == [];
    assert StoragePaths([j]) == [];
  }

  lemma IsConsistent(c: Configuration, files: DnaLoader, i: Instance, j: Instance, b: Bridge, dna: Dna, def: BridgeDef)
    requires i == Instance("i", "d", "g", Memory) && j == Instance("j", "d", "g", Memory) && b == Bridge("j", "i", "h")
    requires def == BridgeDef(true, "h", ByAddress("a")) && dna == Dna("a", [Zome([def], [], [])])
    requires files == map["f" := dna]
    requires c == Configuration([Agent("g", "")], [DnaConfig("d", "f", "")], [i, j], [], [b], [], [], None)
    ensures Consistent(c, files)
  {
    hide AgentIds, DnaIds, IdsOf, StoragePaths, DistinctIds, BridgeMet, Cyclic;
    IdsAreDistinct(c, c.agents[0], c.dnas[0], i, j);
    assert DnaOf(c, files, i) == Some(dna) && DnaOf(c, files, j) == Some(dna);
    IsMet(c, files, i, j, dna, def);
    OneEdgeIsNoCycle("j", "i", "h");
    assert b in c.bridges && RequiredBridgesConfigured(c.bridges, dna);
    hide DnaOf, RequiredBridgesConfigured;
  }
}

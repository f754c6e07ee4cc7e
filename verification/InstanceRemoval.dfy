/** Removing an instance from a configuration, and exactly when that keeps it consistent. */
module InstanceRemoval {
  import opened Wrappers
  import opened Sequences
  import opened TopoSort
  import opened ConductorConfig

  function Without(instances: seq<Instance>, id: string): (r: seq<Instance>)
    ensures forall i :: i in r <==> i in instances && i.id != id
  {
    if instances == [] then [] else
      (if instances[0].id == id then [] else [instances[0]]) + Without(instances[1..], id)
  }

  function WithoutRefs(refs: seq<InstanceRef>, id: string): (r: seq<InstanceRef>)
    ensures forall i :: i in r <==> i in refs && i.id != id
  {
    if refs == [] then [] else (if refs[0].id == id then [] else [refs[0]]) + WithoutRefs(refs[1..], id)
  }

  /** Removes the instance and its mentions in interfaces; bridges and the dpki entry are left
      alone. */
  function SaveRemoveInstance(c: Configuration, id: string): Configuration {
    c.(instances := Without(c.instances, id),
       interfaces := seq(|c.interfaces|, k requires 0 <= k < |c.interfaces| =>
         c.interfaces[k].(instances := WithoutRefs(c.interfaces[k].instances, id))))
  }

  ghost predicate Unmentioned(c: Configuration, id: string) {
    (forall b | b in c.bridges :: b.callerId != id && b.calleeId != id) && c.dpki != Some(id)
  }

  // ----- what filtering keeps -----

  lemma {:induction false} IdsWithout(instances: seq<Instance>, id: string)
    ensures forall x :: x in IdsOf(Without(instances, id)) <==> x in IdsOf(instances) && x != id
  {
    forall x
      ensures x in IdsOf(Without(instances, id)) <==> x in IdsOf(instances) && x != id
    {
      HasId(Without(instances, id), x);
      HasId(instances, x);
    }
  }

  lemma HasId(instances: seq<Instance>, x: string)
    ensures x in IdsOf(instances) <==> exists i :: i in instances && i.id == x
  {
    if x in IdsOf(instances) {
      var k :| 0 <= k < |instances| && IdsOf(instances)[k] == x;
      assert instances[k] in instances;
    }
    if i :| i in instances && i.id == x {
      var k :| 0 <= k < |instances| && instances[k] == i;
      assert IdsOf(instances)[k] == x;
    }
  }

  lemma DistinctCons(x: string, s: seq<string>)
    ensures Distinct([x] + s) <==> x !in s && Distinct(s)
  {
    var t := [x] + s;
    if Distinct(t) {
      assert forall i | 0 <= i < |s| :: s[i] == t[i + 1] && t[0] != t[i + 1];
      assert forall i, j | 0 <= i < j < |s| :: s[i] == t[i + 1] && s[j] == t[j + 1];
    }
  }

  lemma IdsCons(instances: seq<Instance>)
    requires instances != []
    ensures IdsOf(instances) == [instances[0].id] + IdsOf(instances[1..])
    ensures Distinct(IdsOf(instances)) <==> instances[0].id !in IdsOf(instances[1..]) && Distinct(IdsOf(instances[1..]))
  {
    hide Distinct;
    DistinctCons(instances[0].id, IdsOf(instances[1..]));
    assert IdsOf(instances) == [instances[0].id] + IdsOf(instances[1..]);
  }

  lemma {:induction false} DistinctIdsWithout(instances: seq<Instance>, id: string)
    requires Distinct(IdsOf(instances))
    ensures Distinct(IdsOf(Without(instances, id)))
  {
    hide Distinct, IdsOf;
    if instances != [] {
      var first, rest, kept := instances[0], instances[1..], Without(instances, id);
      IdsCons(instances);
      DistinctIdsWithout(rest, id);
      if first.id != id {
        IdsWithout(rest, id);
        assert kept[1..] == Without(rest, id);
        IdsCons(kept);
      } else {
        assert kept == Without(rest, id);
      }
    }
  }

  /** The paths of a list are those of its tail, after that of its first instance if it has one. */
  lemma PathsCons(instances: seq<Instance>)
    requires instances != []
    ensures var paths, rest := StoragePaths(instances), StoragePaths(instances[1..]);
            if instances[0].storage.Memory? then paths == rest
            else paths == [instances[0].storage.path] + rest
                 && (Distinct(paths) <==> instances[0].storage.path !in rest && Distinct(rest))
  {
    if !instances[0].storage.Memory? {
      DistinctCons(instances[0].storage.path, StoragePaths(instances[1..]));
    }
  }

  lemma {:induction false} PathsWithout(instances: seq<Instance>, id: string)
    ensures forall p | p in StoragePaths(Without(instances, id)) :: p in StoragePaths(instances)
    ensures Distinct(StoragePaths(instances)) ==> Distinct(StoragePaths(Without(instances, id)))
  {
    if instances != [] {
      var first, rest, kept := instances[0], instances[1..], Without(instances, id);
      PathsWithout(rest, id);
      PathsCons(instances);
      if first.id == id {
        assert kept == Without(rest, id);
      } else {
        assert kept == [first] + Without(rest, id) && kept[1..] == Without(rest, id);
        PathsCons(kept);
      }
      hide StoragePaths, Distinct, Without;
    }
  }

  lemma {:induction false} LookupWithout(instances: seq<Instance>, id: string, x: string)
    ensures InstanceById(Without(instances, id), x) == if x == id then None else InstanceById(instances, x)
  {
    if instances != [] {
      var first, rest := instances[0], instances[1..];
      LookupWithout(rest, id, x);
      var kept := Without(instances, id);
      if first.id == id {
        assert kept == Without(rest, id);
      } else {
        assert kept == [first] + Without(rest, id) && kept[1..] == Without(rest, id);
      }
    }
  }

  // ----- conjunct by conjunct -----

  lemma SameParts(c: Configuration, id: string)
    ensures var c' := SaveRemoveInstance(c, id);
            AgentIds(c') == AgentIds(c) && DnaIds(c') == DnaIds(c) && InterfaceIds(c') == InterfaceIds(c)
            && UiBundleIds(c') == UiBundleIds(c)
  {
  }

  lemma InstancesStillResolve(c: Configuration, files: DnaLoader, id: string)
    requires forall i | i in c.instances :: InstanceResolves(c, files, i)
    ensures forall i | i in SaveRemoveInstance(c, id).instances :: InstanceResolves(SaveRemoveInstance(c, id), files, i)
  {
    var c' := SaveRemoveInstance(c, id);
    SameParts(c, id);
    forall i | i in c'.instances
      ensures InstanceResolves(c', files, i)
    {
      assert InstanceResolves(c, files, i);
      assert DnaOf(c', files, i) == DnaOf(c, files, i);
    }
  }

  /** Interfaces never keep a reference to the removed instance. */
  lemma InterfacesStillResolve(c: Configuration, id: string)
    requires InterfacesResolve(c)
    ensures InterfacesResolve(SaveRemoveInstance(c, id))
  {
    var c' := SaveRemoveInstance(c, id);
    IdsWithout(c.instances, id);
    forall f, r | f in c'.interfaces && r in f.instances
      ensures r.id in InstanceIds(c')
    {
      var k :| 0 <= k < |c'.interfaces| && c'.interfaces[k] == f;
      assert c.interfaces[k] in c.interfaces && r in c.interfaces[k].instances;
    }
  }

  /** A bridge is still met exactly when it does not touch the removed instance. */
  lemma BridgeStillMet(c: Configuration, files: DnaLoader, id: string, b: Bridge)
    requires BridgeMet(c, files, b)
    ensures BridgeMet(SaveRemoveInstance(c, id), files, b) <==> b.callerId != id && b.calleeId != id
  {
    var c' := SaveRemoveInstance(c, id);
    LookupWithout(c.instances, id, b.callerId);
    LookupWithout(c.instances, id, b.calleeId);
    hide InstanceById, LastDef, AllDefs, Satisfies, Without;
    var caller, callee := InstanceById(c.instances, b.callerId), InstanceById(c.instances, b.calleeId);
    assert DnaOf(c', files, caller.value) == DnaOf(c, files, caller.value);
    assert DnaOf(c', files, callee.value) == DnaOf(c, files, callee.value);
  }

  /** Removing an instance from a consistent configuration keeps it consistent if and only if no
      bridge and no dpki entry mentions the instance. */
  lemma RemovalKeepsConsistencyIff(c: Configuration, files: DnaLoader, id: string)
    requires Consistent(c, files)
    ensures Consistent(SaveRemoveInstance(c, id), files) <==> Unmentioned(c, id)
  {
    var c' := SaveRemoveInstance(c, id);
    SameParts(c, id);
    DistinctIdsWithout(c.instances, id);
    PathsWithout(c.instances, id);
    IdsWithout(c.instances, id);
    InstancesStillResolve(c, files, id);
    InterfacesStillResolve(c, id);
    forall b | b in c.bridges
      ensures BridgeMet(c', files, b) <==> b.callerId != id && b.calleeId != id
    {
      BridgeStillMet(c, files, id, b);
    }
    hide Distinct, InstanceResolves, InterfacesResolve, BridgeMet, StoragePaths, Cyclic, Without;
    assert forall u | u in c.uiInterfaces :: UiResolves(c, u) ==> UiResolves(c', u);
  }

  /** The documented guarantee fails: a consistent configuration that becomes inconsistent. */
  lemma RemovalCanBreak() returns (c: Configuration, files: DnaLoader, id: string)
    ensures Consistent(c, files) && id in InstanceIds(c) && !Consistent(SaveRemoveInstance(c, id), files)
  {
    files := map["f" := Dna("a", [])];
    id := "i";
    c := Configuration([Agent("g", "")], [DnaConfig("d", "f", "")], [Instance("i", "d", "g", Memory)], [], [], [], [], Some("i"));
    assert AgentIds(c) == ["g"] && DnaIds(c) == ["d"] && IdsOf(c.instances) == ["i"];
    assert AgentIds(c)[0] == "g" && IdsOf(c.instances)[0] == "i";
    assert StoragePaths(c.instances) == [];
    assert !Cyclic(BridgeEdges(c.bridges)) by {
      forall p: seq<string>
        ensures !IsCycle(BridgeEdges(c.bridges), p)
      {
        if |p| >= 2 { assert !Edge(BridgeEdges(c.bridges), p[0], p[0 + 1]); }
      }
    }
    assert Consistent(c, files);
    RemovalKeepsConsistencyIff(c, files, id);
  }
}

/** The consistency check of a configuration: it passes exactly the consistent ones. */
module ConfigCheck {
  import opened Wrappers
  import opened Sequences
  import opened TopoSort
  import opened ConductorConfig
  import opened BridgeOrder

  /** The kinds of complaint. */
  datatype Problem =
    | DuplicateIds(dupes: seq<string>)
    | DuplicateStorage
    | BadInstance(id: string)
    | BadInterface(id: string)
    | BadBridge(bridge: Bridge)
    | BadUi(id: string)
    | BadDpki
    | BadOrder

  // ----- duplicates -----

  /** Every item that has occurred before. */
  function Repeats(items: seq<string>): seq<string> {
    if items == [] then [] else
      var front, last := items[..|items| - 1], items[|items| - 1];
      Repeats(front) + (if last in front then [last] else [])
  }

  lemma DistinctSnoc(front: seq<string>, last: string)
    ensures Distinct(front + [last]) <==> Distinct(front) && last !in front
  {
    var items := front + [last];
    if Distinct(items) {
      assert forall i | 0 <= i < |front| :: items[i] == front[i];
      assert forall i | 0 <= i < |front| :: items[i] != items[|front|];
    }
  }

  lemma {:induction false} NoRepeats(items: seq<string>)
    ensures Repeats(items) == [] <==> Distinct(items)
  {
    if items != [] {
      var front, last := items[..|items| - 1], items[|items| - 1];
      NoRepeats(front);
      DistinctSnoc(front, last);
      assert items == front + [last];
    }
  }

  method DetectDupes(items: seq<string>) returns (r: Result<(), Problem>)
    ensures r.Ok? <==> Distinct(items)
    ensures r.Err? ==> r.error == DuplicateIds(Repeats(items))
  {
    var seen: set<string> := {};
    var dupes: seq<string> := [];
    for i := 0 to |items|
      invariant forall x :: x in seen <==> x in items[..i]
      invariant dupes == Repeats(items[..i])
    {
      assert items[..i + 1][..i] == items[..i];
      if items[i] in seen { dupes := dupes + [items[i]]; }
      seen := seen + {items[i]};
    }
    assert items[..|items|] == items;
    NoRepeats(items);
    if dupes != [] { return Err(DuplicateIds(dupes)); }
    return Ok(());
  }

  /** Stops at the first storage path seen before. */
  method CheckInstancesStorage(instances: seq<Instance>) returns (r: Result<(), Problem>)
    ensures r.Ok? <==> Distinct(StoragePaths(instances))
    ensures r.Err? ==> r.error == DuplicateStorage
  {
    var paths := StoragePaths(instances);
    var seen: set<string> := {};
    for i := 0 to |paths|
      invariant forall x :: x in seen <==> x in paths[..i]
      invariant Distinct(paths[..i])
    {
      if paths[i] in seen {
        var k :| 0 <= k < i && paths[..i][k] == paths[i];
        return Err(DuplicateStorage);
      }
      seen := seen + {paths[i]};
    }
    assert paths[..|paths|] == paths;
    return Ok(());
  }

  // ----- instances and interfaces -----

  ghost predicate HandleConfigured(bridges: seq<Bridge>, handle: string) {
    exists b :: b in bridges && b.handle == handle
  }

  method CheckRequiredBridges(bridges: seq<Bridge>, dna: Dna) returns (ok: bool)
    ensures ok <==> RequiredBridgesConfigured(bridges, dna)
  {
    for i := 0 to |dna.zomes|
      invariant forall z, d | z in dna.zomes[..i] && d in z.bridges && d.required :: HandleConfigured(bridges, d.handle)
    {
      var zome := dna.zomes[i];
      for j := 0 to |zome.bridges|
        invariant forall d | d in zome.bridges[..j] && d.required :: HandleConfigured(bridges, d.handle)
      {
        var def := zome.bridges[j];
        if def.required {
          if !exists b | b in bridges :: b.handle == def.handle {
            assert zome in dna.zomes && def in zome.bridges;
            return false;
          }
        }
      }
      assert zome.bridges[..|zome.bridges|] == zome.bridges;
      assert dna.zomes[..i + 1] == dna.zomes[..i] + [zome];
    }
    assert dna.zomes[..|dna.zomes|] == dna.zomes;
    return true;
  }

  method CheckInstances(c: Configuration, files: DnaLoader) returns (r: Result<(), Problem>)
    ensures r.Ok? <==> forall i | i in c.instances :: InstanceResolves(c, files, i)
  {
    for k := 0 to |c.instances|
      invariant forall i | i in c.instances[..k] :: InstanceResolves(c, files, i)
    {
      var i := c.instances[k];
      assert i in c.instances;
      if i.agent !in AgentIds(c) { return Err(BadInstance(i.id)); }
      var dna := DnaOf(c, files, i);
      if dna.None? { return Err(BadInstance(i.id)); }
      var ok := CheckRequiredBridges(c.bridges, dna.value);
      if !ok { return Err(BadInstance(i.id)); }
      assert c.instances[..k + 1] == c.instances[..k] + [i];
    }
    assert c.instances[..|c.instances|] == c.instances;
    return Ok(());
  }

  method CheckInterfaces(c: Configuration) returns (r: Result<(), Problem>)
    ensures r.Ok? <==> InterfacesResolve(c)
  {
    for k := 0 to |c.interfaces|
      invariant forall f, i | f in c.interfaces[..k] && i in f.instances :: i.id in InstanceIds(c)
    {
      var f := c.interfaces[k];
      for j := 0 to |f.instances|
        invariant forall i | i in f.instances[..j] :: i.id in InstanceIds(c)
      {
        if f.instances[j].id !in InstanceIds(c) {
          assert f in c.interfaces && f.instances[j] in f.instances;
          return Err(BadInterface(f.id));
        }
      }
      assert f.instances[..|f.instances|] == f.instances;
      assert c.interfaces[..k + 1] == c.interfaces[..k] + [f];
    }
    assert c.interfaces[..|c.interfaces|] == c.interfaces;
    return Ok(());
  }

  method CheckUis(c: Configuration) returns (r: Result<(), Problem>)
    ensures r.Ok? <==> forall u | u in c.uiInterfaces :: UiResolves(c, u)
  {
    for k := 0 to |c.uiInterfaces|
      invariant forall u | u in c.uiInterfaces[..k] :: UiResolves(c, u)
    {
      var u := c.uiInterfaces[k];
      assert u in c.uiInterfaces;
      if u.bundle !in UiBundleIds(c) { return Err(BadUi(u.id)); }
      if u.dnaInterface.Some? && u.dnaInterface.value !in InterfaceIds(c) { return Err(BadUi(u.id)); }
      assert c.uiInterfaces[..k + 1] == c.uiInterfaces[..k] + [u];
    }
    assert c.uiInterfaces[..|c.uiInterfaces|] == c.uiInterfaces;
    return Ok(());
  }

  // ----- bridges -----

  lemma LastDefSnoc(defs: seq<BridgeDef>, d: BridgeDef, handle: string)
    ensures LastDef(defs + [d], handle) == if d.handle == handle then Some(d) else LastDef(defs, handle)
  {
    assert (defs + [d])[..|defs|] == defs;
  }

  method FindInZome(zome: Zome, handle: string, ghost before: seq<BridgeDef>, found: Option<BridgeDef>)
    returns (found': Option<BridgeDef>)
    requires found == LastDef(before, handle)
    ensures found' == LastDef(before + zome.bridges, handle)
  {
    hide LastDef;
    found' := found;
    var defs := zome.bridges;
    assert before + defs[..0] == before;
    for j := 0 to |defs|
      invariant found' == LastDef(before + defs[..j], handle)
    {
      LastDefSnoc(before + defs[..j], defs[j], handle);
      assert before + defs[..j] + [defs[j]] == before + defs[..j + 1];
      if defs[j].handle == handle { found' := Some(defs[j]); }
    }
    assert defs[..|defs|] == defs;
  }

  /** Runs over all zomes and keeps the last definition with the handle. */
  method FindBridgeDef(dna: Dna, handle: string) returns (found: Option<BridgeDef>)
    ensures found == LastDef(AllDefs(dna.zomes), handle)
  {
    found := None;
    for i := 0 to |dna.zomes|
      invariant found == LastDef(AllDefs(dna.zomes[..i]), handle)
    {
      found := FindInZome(dna.zomes[i], handle, AllDefs(dna.zomes[..i]), found);
      assert dna.zomes[..i + 1][..i] == dna.zomes[..i];
    }
    assert dna.zomes[..|dna.zomes|] == dna.zomes;
  }

  ghost predicate Exports(z: Zome, e: TraitFns, t: ExpectedTrait) {
    && e.name == t.name
    && (forall f | f in t.functions :: f.name in e.functions)
    && (forall f | f in t.functions :: f in z.fnDeclarations)
  }

  method TraitExported(z: Zome, e: TraitFns, t: ExpectedTrait) returns (ok: bool)
    ensures ok <==> Exports(z, e, t)
  {
    if e.name != t.name { return false; }
    var hasAllFnsExported := true;
    for i := 0 to |t.functions|
      invariant hasAllFnsExported <==> forall f | f in t.functions[..i] :: f.name in e.functions
    {
      assert t.functions[..i + 1] == t.functions[..i] + [t.functions[i]];
      if t.functions[i].name !in e.functions { hasAllFnsExported := false; }
    }
    assert t.functions[..|t.functions|] == t.functions;
    var hasMatchingSignatures := true;
    if hasAllFnsExported {
      for i := 0 to |t.functions|
        invariant hasMatchingSignatures <==> forall f | f in t.functions[..i] :: f in z.fnDeclarations
      {
        assert t.functions[..i + 1] == t.functions[..i] + [t.functions[i]];
        if t.functions[i] !in z.fnDeclarations { hasMatchingSignatures := false; }
      }
    }
    return hasAllFnsExported && hasMatchingSignatures;
  }

  method TraitFound(callee: Dna, t: ExpectedTrait) returns (found: bool)
    ensures found <==> exists z :: z in callee.zomes && Implements(z, t)
  {
    found := false;
    for i := 0 to |callee.zomes|
      invariant found <==> exists k | 0 <= k < i :: Implements(callee.zomes[k], t)
    {
      var z := callee.zomes[i];
      ghost var before := found;
      for j := 0 to |z.traits|
        invariant found <==> before || exists k | 0 <= k < j :: Exports(z, z.traits[k], t)
      {
        var ok := TraitExported(z, z.traits[j], t);
        if ok { found := true; }
      }
      assert (exists k | 0 <= k < |z.traits| :: Exports(z, z.traits[k], t)) <==> Implements(z, t) by {
        if Implements(z, t) {
          var e :| e in z.traits && Exports(z, e, t);
          var k :| 0 <= k < |z.traits| && z.traits[k] == e;
        }
      }
    }
  }

  method ReferenceSatisfied(callee: Dna, r: Reference) returns (ok: bool)
    ensures ok <==> Satisfies(callee, r)
  {
    match r {
      case ByAddress(address) => return address == callee.address;
      case ByTraits(traits) =>
        for i := 0 to |traits|
          invariant forall k | 0 <= k < i :: exists z :: z in callee.zomes && Implements(z, traits[k])
        {
          var found := TraitFound(callee, traits[i]);
          if !found {
            assert traits[i] in traits;
            return false;
          }
        }
        return true;
    }
  }

  method CheckBridgeRequirements(c: Configuration, files: DnaLoader, b: Bridge) returns (r: Result<(), Problem>)
    ensures r.Ok? <==> BridgeMet(c, files, b)
  {
    hide InstanceById, DnaOf, LastDef, AllDefs, Satisfies;
    var caller := InstanceById(c.instances, b.callerId);
    if caller.None? { return Err(BadBridge(b)); }
    var callerDna := DnaOf(c, files, caller.value);
    if callerDna.None? { return Err(BadBridge(b)); }
    var callee := InstanceById(c.instances, b.calleeId);
    if callee.None? { return Err(BadBridge(b)); }
    var calleeDna := DnaOf(c, files, callee.value);
    if calleeDna.None? { return Err(BadBridge(b)); }
    var def := FindBridgeDef(callerDna.value, b.handle);
    if def.None? { return Err(BadBridge(b)); }
    var ok := ReferenceSatisfied(calleeDna.value, def.value.reference);
    if !ok { return Err(BadBridge(b)); }
    return Ok(());
  }

  method CheckBridges(c: Configuration, files: DnaLoader) returns (r: Result<(), Problem>)
    ensures r.Ok? <==> forall b | b in c.bridges :: BridgeMet(c, files, b)
  {
    hide BridgeMet;
    for k := 0 to |c.bridges|
      invariant forall i | 0 <= i < k :: BridgeMet(c, files, c.bridges[i])
    {
      r := CheckBridgeRequirements(c, files, c.bridges[k]);
      if r.Err? {
        assert c.bridges[k] in c.bridges;
        return;
      }
    }
    return Ok(());
  }

  // ----- the whole check -----

  lemma MetBridgesHaveEndpoints(c: Configuration, files: DnaLoader)
    requires forall b | b in c.bridges :: BridgeMet(c, files, b)
    ensures EndpointsExist(InstanceIds(c), c.bridges)
  {
  }

  /** Passes exactly the consistent configurations. */
  method CheckConsistency(c: Configuration, files: DnaLoader) returns (r: Result<(), Problem>)
    ensures r.Ok? <==> Consistent(c, files)
  {
    hide Distinct, InstanceResolves, InterfacesResolve, BridgeMet, UiResolves, StoragePaths, Cyclic;
    r := DetectDupes(AgentIds(c));
    if r.Err? { return; }
    r := DetectDupes(DnaIds(c));
    if r.Err? { return; }
    r := DetectDupes(InstanceIds(c));
    if r.Err? { return; }
    r := CheckInstancesStorage(c.instances);
    if r.Err? { return; }
    r := DetectDupes(InterfaceIds(c));
    if r.Err? { return; }
    r := CheckInstances(c, files);
    if r.Err? { return; }
    r := CheckInterfaces(c);
    if r.Err? { return; }
    r := CheckBridges(c, files);
    if r.Err? { return; }
    r := CheckUis(c);
    if r.Err? { return; }
    if c.dpki.Some? && c.dpki.value !in InstanceIds(c) { return Err(BadDpki); }
    MetBridgesHaveEndpoints(c, files);
    var order := InstanceIdsSortedByBridgeDependencies(InstanceIds(c), c.bridges);
    if !order.Sorted? { return Err(BadOrder); }
    return Ok(());
  }
}

/** Turning a hApp bundle into a conductor configuration. */
module HappBundle {
  import opened Wrappers
  import opened Sequences
  import opened TopoSort
  import opened ConductorConfig

  const MIN_INTERFACE_PORT: nat := 50000
  const MAX_INTERFACE_PORT: nat := 60000

  datatype HappInstance = HappInstance(name: string, id: string, dnaHash: string, uri: string)
  datatype UiReference = UiReference(uiHandle: string, instanceId: string)
  datatype HappUi = HappUi(name: string, id: Option<string>, uri: string, instanceReferences: seq<UiReference>)
  datatype Bundle = Bundle(instances: seq<HappInstance>, bridges: seq<Bridge>, uis: seq<HappUi>)

  function UiId(u: HappUi): string {
    if u.id.Some? then u.id.value else ""
  }

  function BundleIds(b: Bundle): seq<string> {
    seq(|b.instances|, i requires 0 <= i < |b.instances| => b.instances[i].id)
  }

  function UiIds(b: Bundle): seq<string> {
    seq(|b.uis|, i requires 0 <= i < |b.uis| => UiId(b.uis[i]))
  }

  datatype BuildError = DanglingReference | UnsupportedUri | NoFreePort

  // ----- checks before building -----

  ghost predicate ReferencesConsistent(b: Bundle) {
    && (forall r | r in b.bridges :: r.calleeId in BundleIds(b) && r.callerId in BundleIds(b))
    && (forall u, r | u in b.uis && r in u.instanceReferences :: r.instanceId in BundleIds(b))
  }

  method IdReferencesAreConsistent(b: Bundle) returns (ok: bool)
    ensures ok <==> ReferencesConsistent(b)
  {
    for i := 0 to |b.bridges|
      invariant forall k | 0 <= k < i :: b.bridges[k].calleeId in BundleIds(b) && b.bridges[k].callerId in BundleIds(b)
    {
      assert b.bridges[i] in b.bridges;
      if b.bridges[i].calleeId !in BundleIds(b) || b.bridges[i].callerId !in BundleIds(b) { return false; }
    }
    for i := 0 to |b.uis|
      invariant forall k, r | 0 <= k < i && r in b.uis[k].instanceReferences :: r.instanceId in BundleIds(b)
    {
      var refs := b.uis[i].instanceReferences;
      for j := 0 to |refs|
        invariant forall k | 0 <= k < j :: refs[k].instanceId in BundleIds(b)
      {
        if refs[j].instanceId !in BundleIds(b) {
          assert b.uis[i] in b.uis && refs[j] in b.uis[i].instanceReferences;
          return false;
        }
      }
    }
    return true;
  }

  ghost predicate SupportedUris(b: Bundle) {
    (forall i | i in b.instances :: "file:" <= i.uri) && (forall u | u in b.uis :: "dir:" <= u.uri)
  }

  method OnlyFileUris(b: Bundle) returns (ok: bool)
    ensures ok <==> SupportedUris(b)
  {
    for i := 0 to |b.instances|
      invariant forall k | 0 <= k < i :: "file:" <= b.instances[k].uri
    {
      assert b.instances[i] in b.instances;
      if !("file:" <= b.instances[i].uri) { return false; }
    }
    for i := 0 to |b.uis|
      invariant forall k | 0 <= k < i :: "dir:" <= b.uis[k].uri
    {
      assert b.uis[i] in b.uis;
      if !("dir:" <= b.uis[i].uri) { return false; }
    }
    return true;
  }

  /** The first port of a range that is free at the moment; `free(now, p)` tells. */
  method GetFreePort(lo: nat, hi: nat, now: int, free: (int, int) -> bool) returns (r: Option<nat>)
    ensures r.Some? ==> FirstFree(free, now, lo, hi, r.value)
    ensures r.None? ==> NoneFree(free, now, lo, hi)
  {
    var i := lo;
    while i < hi
      invariant lo <= i && forall p | lo <= p < i :: !free(now, p)
    {
      if free(now, i) { return Some(i); }
      i := i + 1;
    }
    return None;
  }

  // ----- the configuration built -----

  function DnaFor(i: HappInstance): DnaConfig
    requires "file:" <= i.uri
  {
    DnaConfig(i.id, i.uri[5..], i.dnaHash)
  }

  function InstanceFor(i: HappInstance, agent: Agent, storage: Storage): Instance {
    Instance(i.id, i.id, agent.id, storage)
  }

  function RefsFor(u: HappUi): seq<InstanceRef> {
    seq(|u.instanceReferences|, k requires 0 <= k < |u.instanceReferences| =>
      InstanceRef(u.instanceReferences[k].instanceId, Some(u.instanceReferences[k].uiHandle)))
  }

  function InterfaceFor(u: HappUi, port: nat): Interface {
    Interface(UiId(u), Websocket(port), false, RefsFor(u), Some(false))
  }

  function BundleFor(u: HappUi): UiBundle
    requires "dir:" <= u.uri
  {
    UiBundle(UiId(u), u.uri[4..])
  }

  function UiInterfaceFor(u: HappUi, port: nat): UiInterface {
    UiInterface(UiId(u), UiId(u), port, Some(UiId(u)))
  }

  /** Ports going up, all within bounds. */
  ghost predicate PortsFrom(ports: seq<nat>, lo: nat, hi: nat) {
    && (forall i | 0 <= i < |ports| :: lo <= ports[i] < hi)
    && (forall i, j | 0 <= i < j < |ports| :: ports[i] < ports[j])
  }

  /** One websocket interface, UI bundle and UI interface for every UI, on the given ports. */
  ghost predicate UiParts(
      uis: seq<HappUi>, ports: seq<nat>, uiPorts: seq<nat>, interfaces: seq<Interface>, bundles: seq<UiBundle>, uiInterfaces: seq<UiInterface>)
  {
    && |ports| == |uiPorts| == |interfaces| == |bundles| == |uiInterfaces| == |uis|
    && (forall u | u in uis :: "dir:" <= u.uri)
    && (forall k | 0 <= k < |uis| :: interfaces[k] == InterfaceFor(uis[k], ports[k]))
    && (forall k | 0 <= k < |uis| :: uis[k] in uis && bundles[k] == BundleFor(uis[k]))
    && (forall k | 0 <= k < |uis| :: uiInterfaces[k] == UiInterfaceFor(uis[k], uiPorts[k]))
  }

  /** What `BuildConductorConfig` promises of its result. */
  ghost predicate Built(b: Bundle, uiPort: nat, agent: Agent, storage: Storage, c: Configuration, ports: seq<nat>, uiPorts: seq<nat>) {
    && ReferencesConsistent(b) && SupportedUris(b)
    && c.agents == [agent] && c.bridges == b.bridges && c.dpki.None?
    && |c.dnas| == |c.instances| == |b.instances|
    && (forall k | 0 <= k < |b.instances| :: b.instances[k] in b.instances && c.dnas[k] == DnaFor(b.instances[k]))
    && (forall k | 0 <= k < |b.instances| :: c.instances[k] == InstanceFor(b.instances[k], agent, storage))
    && UiParts(b.uis, ports, uiPorts, c.interfaces, c.uiBundles, c.uiInterfaces)
    && PortsFrom(ports, MIN_INTERFACE_PORT, MAX_INTERFACE_PORT)
    && PortsFrom(uiPorts, uiPort, MIN_INTERFACE_PORT - 1)
  }

  lemma UiPartsSnoc(
      uis: seq<HappUi>, ports: seq<nat>, uiPorts: seq<nat>, interfaces: seq<Interface>, bundles: seq<UiBundle>, uiInterfaces: seq<UiInterface>,
      u: HappUi, port: nat, uiPort: nat)
    requires UiParts(uis, ports, uiPorts, interfaces, bundles, uiInterfaces) && "dir:" <= u.uri
    ensures UiParts(uis + [u], ports + [port], uiPorts + [uiPort], interfaces + [InterfaceFor(u, port)],
                    bundles + [BundleFor(u)], uiInterfaces + [UiInterfaceFor(u, uiPort)])
  {
    hide InterfaceFor, UiInterfaceFor, BundleFor;
    var uis' := uis + [u];
    forall k | 0 <= k < |uis'|
      ensures uis'[k] in uis' && (bundles + [BundleFor(u)])[k] == BundleFor(uis'[k])
    {
    }
  }

  /** Where the search for the port number `k` starts. */
  function From(ports: seq<nat>, lo: nat, k: nat): nat
    requires k <= |ports|
  {
    if k == 0 then lo else ports[k - 1] + 1
  }

  ghost predicate NoneFree(free: (int, int) -> bool, now: int, lo: int, hi: int) {
    forall p | lo <= p < hi :: !free(now, p)
  }

  ghost predicate FirstFree(free: (int, int) -> bool, now: int, lo: int, hi: int, port: int) {
    lo <= port < hi && free(now, port) && NoneFree(free, now, lo, port)
  }

  ghost predicate Served(free: (int, int) -> bool, turn: int, lo: nat, hi: nat, ports: seq<nat>, k: nat)
    requires k < |ports|
  {
    FirstFree(free, 2 * k + turn, From(ports, lo, k), hi, ports[k])
  }

  /** Each port is the first after the one before that was free when its turn came. */
  ghost predicate Greedy(free: (int, int) -> bool, turn: int, lo: nat, hi: nat, ports: seq<nat>) {
    forall k {:trigger Served(free, turn, lo, hi, ports, k)} | 0 <= k < |ports| :: Served(free, turn, lo, hi, ports, k)
  }

  lemma GreedySnoc(free: (int, int) -> bool, turn: int, lo: nat, hi: nat, ports: seq<nat>, p: nat)
    requires Greedy(free, turn, lo, hi, ports)
    requires FirstFree(free, 2 * |ports| + turn, From(ports, lo, |ports|), hi, p)
    ensures Greedy(free, turn, lo, hi, ports + [p])
  {
    hide FirstFree;
    var ports' := ports + [p];
    forall k | 0 <= k < |ports'|
      ensures Served(free, turn, lo, hi, ports', k)
    {
      assert From(ports', lo, k) == From(ports, lo, k);
      assert k < |ports| ==> Served(free, turn, lo, hi, ports, k);
    }
  }

  /** The two searches that serve the next UI; one of them has failed. */
  ghost predicate Stuck(free: (int, int) -> bool, uiPort: nat, ports: seq<nat>, uiPorts: seq<nat>) {
    && |ports| == |uiPorts|
    && (|| NoneFree(free, 2 * |ports|, From(ports, MIN_INTERFACE_PORT, |ports|), MAX_INTERFACE_PORT)
        || NoneFree(free, 2 * |ports| + 1, From(uiPorts, uiPort, |ports|), MIN_INTERFACE_PORT - 1))
  }

  /** Both kinds of ports are chosen greedily, interface ports on even turns, UI ports on odd. */
  ghost predicate Chosen(free: (int, int) -> bool, uiPort: nat, ports: seq<nat>, uiPorts: seq<nat>) {
    && Greedy(free, 0, MIN_INTERFACE_PORT, MAX_INTERFACE_PORT, ports)
    && Greedy(free, 1, uiPort, MIN_INTERFACE_PORT - 1, uiPorts)
  }

  lemma {:induction false} GreedyGoesUp(free: (int, int) -> bool, turn: int, lo: nat, hi: nat, ports: seq<nat>, i: nat, j: nat)
    requires Greedy(free, turn, lo, hi, ports) && i <= j < |ports|
    ensures lo <= ports[j] < hi && (i < j ==> ports[i] < ports[j])
    decreases j
  {
    hide NoneFree;
    assert Served(free, turn, lo, hi, ports, j);
    if i < j { GreedyGoesUp(free, turn, lo, hi, ports, i, j - 1); }
    else if j > 0 { GreedyGoesUp(free, turn, lo, hi, ports, j - 1, j - 1); }
  }

  lemma GreedyPorts(free: (int, int) -> bool, turn: int, lo: nat, hi: nat, ports: seq<nat>)
    requires Greedy(free, turn, lo, hi, ports)
    ensures PortsFrom(ports, lo, hi)
  {
    hide Greedy;
    forall i, j | 0 <= i <= j < |ports|
      ensures lo <= ports[j] < hi && (i < j ==> ports[i] < ports[j])
    {
      GreedyGoesUp(free, turn, lo, hi, ports, i, j);
    }
    assert forall i | 0 <= i < |ports| :: i <= i < |ports| && lo <= ports[i] < hi;
  }

  /** The two ports of the next UI, searched from just after the last ones chosen. */
  method NextPorts(uiPort: nat, ports: seq<nat>, uiPorts: seq<nat>, nextInterfacePort: nat, nextUiPort: nat,
                   free: (int, int) -> bool) returns (r: Option<(nat, nat)>)
    requires Chosen(free, uiPort, ports, uiPorts) && |ports| == |uiPorts|
    requires nextInterfacePort == From(ports, MIN_INTERFACE_PORT, |ports|) && nextUiPort == From(uiPorts, uiPort, |ports|)
    ensures r.None? ==> Stuck(free, uiPort, ports, uiPorts)
    ensures r.Some? ==> Chosen(free, uiPort, ports + [r.value.0], uiPorts + [r.value.1])
  {
    hide Greedy, FirstFree, NoneFree;
    var port := GetFreePort(nextInterfacePort, MAX_INTERFACE_PORT, 2 * |ports|, free);
    if port.None? { return None; }
    var other := GetFreePort(nextUiPort, MIN_INTERFACE_PORT - 1, 2 * |ports| + 1, free);
    if other.None? { return None; }
    GreedySnoc(free, 0, MIN_INTERFACE_PORT, MAX_INTERFACE_PORT, ports, port.value);
    GreedySnoc(free, 1, uiPort, MIN_INTERFACE_PORT - 1, uiPorts, other.value);
    return Some((port.value, other.value));
  }

  /** The loop over the UIs: two ports for each, asked of the oracle in turn. */
  method BuildUis(uis: seq<HappUi>, uiPort: nat, free: (int, int) -> bool)
    returns (ok: bool, interfaces: seq<Interface>, bundles: seq<UiBundle>, uiInterfaces: seq<UiInterface>, ports: seq<nat>, uiPorts: seq<nat>)
    requires forall u | u in uis :: "dir:" <= u.uri
    ensures ok ==> UiParts(uis, ports, uiPorts, interfaces, bundles, uiInterfaces)
    ensures Chosen(free, uiPort, ports, uiPorts)
    ensures !ok ==> |ports| < |uis| && Stuck(free, uiPort, ports, uiPorts)
  {
    interfaces, bundles, uiInterfaces, ports, uiPorts := [], [], [], [], [];
    var nextInterfacePort, nextUiPort := MIN_INTERFACE_PORT, uiPort;
    assert UiParts(uis[..0], ports, uiPorts, interfaces, bundles, uiInterfaces);
    hide InterfaceFor, UiInterfaceFor, BundleFor, Greedy, Stuck;
    for k := 0 to |uis|
      invariant |ports| == |uiPorts| == k
      invariant UiParts(uis[..k], ports, uiPorts, interfaces, bundles, uiInterfaces)
      invariant nextInterfacePort == From(ports, MIN_INTERFACE_PORT, k) && nextUiPort == From(uiPorts, uiPort, k)
      invariant Chosen(free, uiPort, ports, uiPorts)
    {
      hide UiParts, Chosen;
      var ui := uis[k];
      assert ui in uis;
      var next := NextPorts(uiPort, ports, uiPorts, nextInterfacePort, nextUiPort, free);
      if next.None? { ok := false; return; }
      var (port, other) := next.value;
      UiPartsSnoc(uis[..k], ports, uiPorts, interfaces, bundles, uiInterfaces, ui, port, other);
      assert uis[..k + 1] == uis[..k] + [ui];
      interfaces := interfaces + [InterfaceFor(ui, port)];
      bundles := bundles + [BundleFor(ui)];
      uiInterfaces := uiInterfaces + [UiInterfaceFor(ui, other)];
      ports, uiPorts := ports + [port], uiPorts + [other];
      nextInterfacePort, nextUiPort := port + 1, other + 1;
    }
    assert uis[..|uis|] == uis;
    ok := true;
  }

  /** Builds the configuration; fails on a dangling reference, an unsupported URI, or when no
      port is free.  The ports chosen are returned as witnesses. */
  method BuildConductorConfig(b: Bundle, uiPort: nat, agent: Agent, storage: Storage, free: (int, int) -> bool)
    returns (r: Result<Configuration, BuildError>, ports: seq<nat>, uiPorts: seq<nat>)
    ensures r.Ok? ==> Built(b, uiPort, agent, storage, r.value, ports, uiPorts) && Chosen(free, uiPort, ports, uiPorts)
    ensures r == Err(NoFreePort) ==>
              |ports| < |b.uis| && Chosen(free, uiPort, ports, uiPorts) && Stuck(free, uiPort, ports, uiPorts)
    ensures r == Err(DanglingReference) <==> !ReferencesConsistent(b)
    ensures r == Err(UnsupportedUri) <==> ReferencesConsistent(b) && !SupportedUris(b)
  {
    ports, uiPorts := [], [];
    var consistent := IdReferencesAreConsistent(b);
    if !consistent { r := Err(DanglingReference); return; }
    var supported := OnlyFileUris(b);
    if !supported { r := Err(UnsupportedUri); return; }
    var n := |b.instances|;
    assert forall k | 0 <= k < n :: b.instances[k] in b.instances;
    var dnas := seq(n, k requires 0 <= k < n => DnaFor(b.instances[k]));
    var instances := seq(n, k requires 0 <= k < n => InstanceFor(b.instances[k], agent, storage));
    hide UiParts, PortsFrom, Greedy, Stuck;
    var ok, interfaces, bundles, uiInterfaces;
    ok, interfaces, bundles, uiInterfaces, ports, uiPorts := BuildUis(b.uis, uiPort, free);
    if !ok { r := Err(NoFreePort); return; }
    GreedyPorts(free, 0, MIN_INTERFACE_PORT, MAX_INTERFACE_PORT, ports);
    GreedyPorts(free, 1, uiPort, MIN_INTERFACE_PORT - 1, uiPorts);
    r := Ok(Configuration([agent], dnas, instances, interfaces, b.bridges, bundles, uiInterfaces, None));
  }

  // ----- what the built configuration satisfies -----

  lemma BuiltIds(b: Bundle, uiPort: nat, agent: Agent, storage: Storage, c: Configuration, ports: seq<nat>, uiPorts: seq<nat>)
    requires Built(b, uiPort, agent, storage, c, ports, uiPorts)
    ensures AgentIds(c) == [agent.id] && DnaIds(c) == BundleIds(b) && InstanceIds(c) == BundleIds(b)
    ensures InterfaceIds(c) == UiIds(b) && UiBundleIds(c) == UiIds(b)
  {
  }

  /** No two interfaces of either kind share a port. */
  lemma PortsAreDistinct(b: Bundle, uiPort: nat, agent: Agent, storage: Storage, c: Configuration, ports: seq<nat>, uiPorts: seq<nat>)
    requires Built(b, uiPort, agent, storage, c, ports, uiPorts)
    ensures forall i, j | 0 <= i < j < |c.interfaces| :: c.interfaces[i].driver != c.interfaces[j].driver
    ensures forall i, j | 0 <= i < j < |c.uiInterfaces| :: c.uiInterfaces[i].port != c.uiInterfaces[j].port
    ensures forall i, j | 0 <= i < |c.interfaces| && 0 <= j < |c.uiInterfaces| ::
              c.interfaces[i].driver != Websocket(c.uiInterfaces[j].port)
  {
  }

  lemma BuiltInstance(b: Bundle, uiPort: nat, agent: Agent, storage: Storage, c: Configuration, ports: seq<nat>, uiPorts: seq<nat>, i: Instance)
    requires Built(b, uiPort, agent, storage, c, ports, uiPorts) && i in c.instances
    ensures i.agent in AgentIds(c) && i.dna == i.id && DnaById(c.dnas, i.dna).Some? && i.storage == storage
  {
    BuiltIds(b, uiPort, agent, storage, c, ports, uiPorts);
    assert AgentIds(c)[0] == agent.id;
    var k :| 0 <= k < |c.instances| && c.instances[k] == i;
    assert c.dnas[k] in c.dnas && c.dnas[k].id == i.dna;
  }

  lemma BuiltInterfaces(b: Bundle, uiPort: nat, agent: Agent, storage: Storage, c: Configuration, ports: seq<nat>, uiPorts: seq<nat>)
    requires Built(b, uiPort, agent, storage, c, ports, uiPorts)
    ensures InterfacesResolve(c)
    ensures forall u | u in c.uiInterfaces :: UiResolves(c, u)
  {
    BuiltIds(b, uiPort, agent, storage, c, ports, uiPorts);
    forall f, r | f in c.interfaces && r in f.instances
      ensures r.id in InstanceIds(c)
    {
      var k :| 0 <= k < |c.interfaces| && c.interfaces[k] == f;
      var j :| 0 <= j < |f.instances| && f.instances[j] == r;
      assert b.uis[k] in b.uis && b.uis[k].instanceReferences[j] in b.uis[k].instanceReferences;
    }
    forall u | u in c.uiInterfaces
      ensures UiResolves(c, u)
    {
      var k :| 0 <= k < |c.uiInterfaces| && c.uiInterfaces[k] == u;
      assert UiIds(b)[k] == UiId(b.uis[k]);
    }
  }

  /** Every agent, DNA, instance, interface and UI mentioned in the built configuration is there,
      and so are both ends of every bridge. */
  lemma BuiltReferencesResolve(b: Bundle, uiPort: nat, agent: Agent, storage: Storage, c: Configuration, ports: seq<nat>, uiPorts: seq<nat>)
    requires Built(b, uiPort, agent, storage, c, ports, uiPorts)
    ensures forall i | i in c.instances :: i.agent in AgentIds(c) && DnaById(c.dnas, i.dna).Some?
    ensures InterfacesResolve(c) && forall u | u in c.uiInterfaces :: UiResolves(c, u)
    ensures forall r | r in c.bridges :: r.callerId in InstanceIds(c) && r.calleeId in InstanceIds(c)
  {
    BuiltIds(b, uiPort, agent, storage, c, ports, uiPorts);
    BuiltInterfaces(b, uiPort, agent, storage, c, ports, uiPorts);
    forall i | i in c.instances
      ensures i.agent in AgentIds(c) && DnaById(c.dnas, i.dna).Some?
    {
      BuiltInstance(b, uiPort, agent, storage, c, ports, uiPorts, i);
    }
  }

  lemma {:induction false} SharedStorage(instances: seq<Instance>, storage: Storage)
    requires forall i | i in instances :: i.storage == storage
    ensures storage.Memory? ==> StoragePaths(instances) == []
    ensures !storage.Memory? ==>
              |StoragePaths(instances)| == |instances| && forall k | 0 <= k < |instances| :: StoragePaths(instances)[k] == storage.path
  {
    if instances != [] { SharedStorage(instances[1..], storage); }
  }

  /** Since all instances share one storage configuration, paths are distinct exactly when they
      live in memory or there is at most one instance. */
  lemma SharedStorageIsDistinctIff(instances: seq<Instance>, storage: Storage)
    requires forall i | i in instances :: i.storage == storage
    ensures Distinct(StoragePaths(instances)) <==> storage.Memory? || |instances| <= 1
  {
    SharedStorage(instances, storage);
    var paths := StoragePaths(instances);
    if !storage.Memory? && |instances| > 1 { assert paths[0] == paths[1]; }
  }

  /** The built configuration passes the consistency check exactly when the bundle's ids are
      distinct, its instances do not share file storage, its DNAs load with their required
      bridges, and its bridges are met and acyclic: all references are already in order. */
  lemma BuiltConsistentIff(
      b: Bundle, uiPort: nat, agent: Agent, storage: Storage, c: Configuration, ports: seq<nat>, uiPorts: seq<nat>, files: DnaLoader)
    requires Built(b, uiPort, agent, storage, c, ports, uiPorts)
    ensures Consistent(c, files) <==>
            && Distinct(BundleIds(b)) && Distinct(UiIds(b))
            && (storage.Memory? || |b.instances| <= 1)
            && (forall i | i in c.instances ::
                  DnaOf(c, files, i).Some? && RequiredBridgesConfigured(b.bridges, DnaOf(c, files, i).value))
            && (forall r | r in b.bridges :: BridgeMet(c, files, r))
            && !Cyclic(BridgeEdges(b.bridges))
  {
    BuiltIds(b, uiPort, agent, storage, c, ports, uiPorts);
    BuiltInterfaces(b, uiPort, agent, storage, c, ports, uiPorts);
    assert Distinct(AgentIds(c));
    forall i | i in c.instances
      ensures i.agent in AgentIds(c) && i.storage == storage
    {
      BuiltInstance(b, uiPort, agent, storage, c, ports, uiPorts, i);
    }
    SharedStorageIsDistinctIff(c.instances, storage);
    hide Distinct, InterfacesResolve, BridgeMet, UiResolves, StoragePaths, Cyclic, RequiredBridgesConfigured, DnaOf;
  }

  /** Two instances and file storage: the configuration is built, and no DNA files can make it
      consistent. */
  method BuiltCanBeInconsistent(agent: Agent, uiPort: nat, path: string, free: (int, int) -> bool)
    returns (r: Result<Configuration, BuildError>)
    ensures r.Ok? && forall files: DnaLoader :: !Consistent(r.value, files)
  {
    var i, j := HappInstance("", "i", "", "file:"), HappInstance("", "j", "", "file:");
    var b := Bundle([i, j], [], []);
    var ports, uiPorts;
    r, ports, uiPorts := BuildConductorConfig(b, uiPort, agent, File(path), free);
    assert ReferencesConsistent(b) && SupportedUris(b);
    if r.Err? {
      match r.error
      case DanglingReference =>
      case UnsupportedUri =>
      case NoFreePort =>
    }
    forall files: DnaLoader
      ensures !Consistent(r.value, files)
    {
      BuiltConsistentIff(b, uiPort, agent, File(path), r.value, ports, uiPorts, files);
    }
  }
}

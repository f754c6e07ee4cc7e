/** The conductor's configuration: its parts, the DNAs they refer to, and what it means for a
    configuration to be consistent. */
module ConductorConfig {
  import opened Wrappers
  import opened Sequences
  import opened TopoSort

  datatype Storage =
    | Memory
    | File(path: string)
    | Pickle(path: string)
    | Lmdb(path: string, initialMmapBytes: Option<nat>)

  datatype Agent = Agent(id: string, name: string)
  datatype DnaConfig = DnaConfig(id: string, file: string, hash: string)
  datatype Instance = Instance(id: string, dna: string, agent: string, storage: Storage)
  datatype InstanceRef = InstanceRef(id: string, alias: Option<string>)
  datatype Driver = Websocket(port: nat) | Http(port: nat) | DomainSocket(file: string) | Custom(text: string)
  datatype Interface = Interface(
    id: string, driver: Driver, admin: bool, instances: seq<InstanceRef>, chooseFreePort: Option<bool>)
  datatype Bridge = Bridge(callerId: string, calleeId: string, handle: string)
  datatype UiBundle = UiBundle(id: string, rootDir: string)
  datatype UiInterface = UiInterface(id: string, bundle: string, port: nat, dnaInterface: Option<string>)

  /** `dpki` is the instance the key management app runs in. */
  datatype Configuration = Configuration(
    agents: seq<Agent>,
    dnas: seq<DnaConfig>,
    instances: seq<Instance>,
    interfaces: seq<Interface>,
    bridges: seq<Bridge>,
    uiBundles: seq<UiBundle>,
    uiInterfaces: seq<UiInterface>,
    dpki: Option<string>)

  // ----- DNAs -----

  datatype FnDeclaration = FnDeclaration(name: string, inputs: seq<string>, outputs: seq<string>)
  datatype TraitFns = TraitFns(name: string, functions: seq<string>)
  datatype ExpectedTrait = ExpectedTrait(name: string, functions: seq<FnDeclaration>)
  datatype Reference = ByAddress(dnaAddress: string) | ByTraits(traits: seq<ExpectedTrait>)
  datatype BridgeDef = BridgeDef(required: bool, handle: string, reference: Reference)
  datatype Zome = Zome(bridges: seq<BridgeDef>, traits: seq<TraitFns>, fnDeclarations: seq<FnDeclaration>)

  /** Zomes in the order of their names. */
  datatype Dna = Dna(address: string, zomes: seq<Zome>)

  /** A deterministic loader: a file loads as always the same DNA, or not at all. */
  type DnaLoader = map<string, Dna>

  // ----- lookups: the first element with the id -----

  function AgentIds(c: Configuration): seq<string> { seq(|c.agents|, i requires 0 <= i < |c.agents| => c.agents[i].id) }
  function DnaIds(c: Configuration): seq<string> { seq(|c.dnas|, i requires 0 <= i < |c.dnas| => c.dnas[i].id) }
  function InstanceIds(c: Configuration): seq<string> { IdsOf(c.instances) }
  function InterfaceIds(c: Configuration): seq<string> { seq(|c.interfaces|, i requires 0 <= i < |c.interfaces| => c.interfaces[i].id) }
  function UiBundleIds(c: Configuration): seq<string> { seq(|c.uiBundles|, i requires 0 <= i < |c.uiBundles| => c.uiBundles[i].id) }

  function IdsOf(instances: seq<Instance>): seq<string> {
    seq(|instances|, i requires 0 <= i < |instances| => instances[i].id)
  }

  function InstanceById(instances: seq<Instance>, id: string): (r: Option<Instance>)
    ensures r.Some? <==> id in IdsOf(instances)
    ensures r.Some? ==> r.value in instances && r.value.id == id
  {
    if instances == [] then None
    else if instances[0].id == id then assert IdsOf(instances)[0] == id; Some(instances[0])
    else
      assert IdsOf(instances) == [instances[0].id] + IdsOf(instances[1..]);
      InstanceById(instances[1..], id)
  }

  function DnaById(dnas: seq<DnaConfig>, id: string): (r: Option<DnaConfig>)
    ensures r.Some? ==> r.value in dnas && r.value.id == id
    ensures r.None? ==> forall d | d in dnas :: d.id != id
  {
    if dnas == [] then None else if dnas[0].id == id then Some(dnas[0]) else DnaById(dnas[1..], id)
  }

  /** The DNA an instance runs, if its configuration exists and its file loads. */
  function DnaOf(c: Configuration, files: DnaLoader, i: Instance): Option<Dna> {
    var d := DnaById(c.dnas, i.dna);
    if d.Some? && d.value.file in files then Some(files[d.value.file]) else None
  }

  // ----- consistency -----

  /** File storage paths of the instances; memory storage has none. */
  function StoragePaths(instances: seq<Instance>): seq<string> {
    if instances == [] then [] else
      (if instances[0].storage.Memory? then [] else [instances[0].storage.path]) + StoragePaths(instances[1..])
  }

  /** A required bridge counts as configured as soon as any bridge bears its handle. */
  ghost predicate RequiredBridgesConfigured(bridges: seq<Bridge>, dna: Dna) {
    forall z, d | z in dna.zomes && d in z.bridges && d.required :: exists b :: b in bridges && b.handle == d.handle
  }

  ghost predicate InstanceResolves(c: Configuration, files: DnaLoader, i: Instance) {
    && i.agent in AgentIds(c)
    && DnaOf(c, files, i).Some?
    && RequiredBridgesConfigured(c.bridges, DnaOf(c, files, i).value)
  }

  /** One zome exports all functions of the trait under the trait's name, with the very
      signatures expected. */
  predicate Implements(z: Zome, t: ExpectedTrait) {
    exists e | e in z.traits ::
      && e.name == t.name
      && (forall f | f in t.functions :: f.name in e.functions)
      && (forall f | f in t.functions :: f in z.fnDeclarations)
  }

  ghost predicate Satisfies(callee: Dna, r: Reference) {
    match r
    case ByAddress(address) => address == callee.address
    case ByTraits(traits) => forall t | t in traits :: exists z :: z in callee.zomes && Implements(z, t)
  }

  /** The caller's definition of a bridge: the last one with the handle. */
  function LastDef(defs: seq<BridgeDef>, handle: string): (r: Option<BridgeDef>)
    ensures r.Some? ==> r.value in defs && r.value.handle == handle
    ensures r.None? <==> forall d | d in defs :: d.handle != handle
  {
    if defs == [] then None
    else if defs[|defs| - 1].handle == handle then Some(defs[|defs| - 1])
    else
      assert defs == defs[..|defs| - 1] + [defs[|defs| - 1]];
      LastDef(defs[..|defs| - 1], handle)
  }

  function AllDefs(zomes: seq<Zome>): seq<BridgeDef> {
    if zomes == [] then [] else AllDefs(zomes[..|zomes| - 1]) + zomes[|zomes| - 1].bridges
  }

  /** Both ends exist and run loadable DNAs, the caller's DNA defines the bridge, and the
      callee's DNA is what the definition asks for. */
  ghost predicate BridgeMet(c: Configuration, files: DnaLoader, b: Bridge) {
    var caller := InstanceById(c.instances, b.callerId);
    var callee := InstanceById(c.instances, b.calleeId);
    && caller.Some? && callee.Some?
    && DnaOf(c, files, caller.value).Some? && DnaOf(c, files, callee.value).Some?
    && var def := LastDef(AllDefs(DnaOf(c, files, caller.value).value.zomes), b.handle);
       def.Some? && Satisfies(DnaOf(c, files, callee.value).value, def.value.reference)
  }

  function BridgeEdges(bridges: seq<Bridge>): seq<(string, string)> {
    seq(|bridges|, i requires 0 <= i < |bridges| => (bridges[i].callerId, bridges[i].calleeId))
  }

  ghost predicate InterfacesResolve(c: Configuration) {
    forall f, r | f in c.interfaces && r in f.instances :: r.id in InstanceIds(c)
  }

  ghost predicate UiResolves(c: Configuration, u: UiInterface) {
    u.bundle in UiBundleIds(c) && (u.dnaInterface.Some? ==> u.dnaInterface.value in InterfaceIds(c))
  }

  ghost predicate DistinctIds(c: Configuration) {
    Distinct(AgentIds(c)) && Distinct(DnaIds(c)) && Distinct(InstanceIds(c)) && Distinct(InterfaceIds(c))
  }

  ghost predicate Consistent(c: Configuration, files: DnaLoader) {
    && DistinctIds(c)
    && Distinct(StoragePaths(c.instances))
    && (forall i | i in c.instances :: InstanceResolves(c, files, i))
    && InterfacesResolve(c)
    && (forall b | b in c.bridges :: BridgeMet(c, files, b))
    && (forall u | u in c.uiInterfaces :: UiResolves(c, u))
    && (c.dpki.Some? ==> c.dpki.value in InstanceIds(c))
    && !Cyclic(BridgeEdges(c.bridges))
  }
}

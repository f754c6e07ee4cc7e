/** The consistency model watches the actions of an instance and emits a signal for every cause
    whose effects other nodes will see, and for every effect. */
module ConsistencyModel {
  import opened Wrappers

  type Address = string

  datatype LinkData = LinkData(base: Address, target: Address, linkType: string, tag: string)

  datatype EntryKind =
    | App | Dna | AgentId | Deletion | LinkAdd(data: LinkData) | LinkRemove | LinkList
    | ChainHeader | ChainMigrate | CapTokenClaim | CapTokenGrant

  /** An entry, its address being the hash of its content. */
  datatype Entry = Entry(kind: EntryKind, address: Address)

  datatype Header = Header(entryAddress: Address, linkUpdateDelete: Option<Address>)

  datatype Aspect =
    | Content(entry: Entry, header: Header)
    | HeaderOnly(header: Header)
    | LinkAdded(data: LinkData, header: Header)
    | LinkRemoved(header: Header)
    | Updated(entry: Entry, header: Header)
    | Deleted(header: Header)

  datatype ZomeFnCall = ZomeFnCall(id: nat, zomeName: string, fnName: string)

  /** What is known when a commit is processed: whether state and DNA are there, and whether the
      DNA shares entries of this app type. */
  datatype Knowledge = Knowledge(hasContext: bool, shared: bool)

  datatype Action =
    | Ping
    | Commit(entry: Entry, crudLink: Option<Address>, knowledge: Knowledge)
    | Publish(address: Address)
    | HoldAspect(aspect: Aspect)
    | QueueZomeFunctionCall(call: ZomeFnCall)
    | ReturnZomeFunctionResult(call: ZomeFnCall)
    | InitNetwork(agentId: Address)
    | InitializeChain
    | OtherAction(number: nat)

  datatype Event =
    | PublishEvent(address: Address)
    | InitializeChainEvent
    | SignalZomeFunctionCall(name: string, id: nat)
    | Hold(address: Address)
    | UpdateEntry(replaced: Address, replacement: Address)
    | RemoveEntry(replaced: Address, replacement: Address)
    | AddLink(data: LinkData)
    | RemoveLink(address: Address)
    | ReturnZomeFunctionResultEvent(name: string, id: nat)

  datatype Group = Source | Validators
  datatype Pending = Pending(event: Event, group: Group)
  datatype Signal = Signal(event: Event, pending: seq<Pending>)

  function NewTerminal(e: Event): Signal {
    Signal(e, [])
  }

  function NewPending(e: Event, group: Group, events: seq<Event>): Signal {
    Signal(e, seq(|events|, i requires 0 <= i < |events| => Pending(events[i], group)))
  }

  function DisplayZomeFnCall(call: ZomeFnCall): string {
    call.zomeName + "/" + call.fnName
  }

  /** Which entry types are published: system types except the private ones, and app types the
      DNA shares. */
  predicate CanPublish(kind: EntryKind, shared: bool) {
    match kind
    case Dna => false
    case CapTokenGrant => false
    case CapTokenClaim => false
    case App => shared
    case _ => true
  }

  /** Is this a commit of address `a` that gets cached?  Without context every commit does. */
  predicate Caches(action: Action, a: Address) {
    && action.Commit? && action.entry.address == a
    && (!action.knowledge.hasContext || CanPublish(action.entry.kind, action.knowledge.shared))
  }

  function MetaEvents(entry: Entry, crudLink: Option<Address>): seq<Event> {
    match entry.kind
    case App => if crudLink.Some? then [UpdateEntry(crudLink.value, entry.address)] else []
    case Deletion => if crudLink.Some? then [RemoveEntry(crudLink.value, entry.address)] else []
    case LinkAdd(data) => [AddLink(data)]
    case LinkRemove => [RemoveLink(entry.address)]
    case _ => []
  }

  function CommitSignal(entry: Entry, crudLink: Option<Address>): Signal {
    NewPending(PublishEvent(entry.address), Validators, [Hold(entry.address)] + MetaEvents(entry, crudLink))
  }

  function HoldEvent(aspect: Aspect): Option<Event> {
    match aspect
    case Content(entry, _) => Some(Hold(entry.address))
    case Updated(_, h) =>
      if h.linkUpdateDelete.Some? then Some(UpdateEntry(h.linkUpdateDelete.value, h.entryAddress)) else None
    case Deleted(h) =>
      if h.linkUpdateDelete.Some? then Some(RemoveEntry(h.linkUpdateDelete.value, h.entryAddress)) else None
    case LinkAdded(data, _) => Some(AddLink(data))
    case LinkRemoved(h) => Some(RemoveLink(h.entryAddress))
    case HeaderOnly(_) => None
  }

  // ----- what should be emitted, from the history alone -----

  /** Position `i` of the history holds a cached commit of `a` that is neither superseded by a
      later one nor published. */
  ghost predicate Outstanding(h: seq<Action>, a: Address, i: int) {
    0 <= i < |h| && Caches(h[i], a) && forall j | i < j < |h| :: !Caches(h[j], a) && h[j] != Publish(a)
  }

  /** Where the outstanding commit of `a` is, found from the end of the history. */
  function Latest(h: seq<Action>, a: Address): (r: Option<int>)
    ensures r.Some? ==> 0 <= r.value < |h| && h[r.value].Commit?
  {
    if h == [] then None else
      var n := |h| - 1;
      if Caches(h[n], a) then Some(n) else if h[n] == Publish(a) then None else Latest(h[..n], a)
  }

  lemma {:induction false} LatestIsOutstanding(h: seq<Action>, a: Address, i: int)
    ensures Latest(h, a) == Some(i) <==> Outstanding(h, a, i)
  {
    if h != [] {
      var n := |h| - 1;
      LatestIsOutstanding(h[..n], a, i);
      if Outstanding(h, a, i) && i < n {
        assert !Caches(h[n], a) && h[n] != Publish(a);
      }
    }
  }

  lemma LatestSnoc(h: seq<Action>, action: Action, a: Address)
    ensures Latest(h + [action], a) ==
            if Caches(action, a) then Some(|h|) else if action == Publish(a) then None else Latest(h, a)
  {
    assert (h + [action])[..|h|] == h;
  }

  /** What `action` must emit after history `h`. */
  function Emitted(h: seq<Action>, action: Action): Option<Signal> {
    match action
    case Publish(a) =>
      var i := Latest(h, a);
      if i.Some? then Some(CommitSignal(h[i.value].entry, h[i.value].crudLink)) else None
    case HoldAspect(aspect) =>
      var e := HoldEvent(aspect);
      if e.Some? then Some(NewTerminal(e.value)) else None
    case QueueZomeFunctionCall(call) =>
      Some(NewPending(SignalZomeFunctionCall(DisplayZomeFnCall(call), call.id), Source,
                      [ReturnZomeFunctionResultEvent(DisplayZomeFnCall(call), call.id)]))
    case ReturnZomeFunctionResult(call) =>
      Some(NewTerminal(ReturnZomeFunctionResultEvent(DisplayZomeFnCall(call), call.id)))
    case InitNetwork(agentId) =>
      if InitializeChain in h then Some(NewPending(InitializeChainEvent, Validators, [Hold(agentId)])) else None
    case _ => None
  }

  /** Publishing an address emits the signal of its outstanding commit, and nothing if there is
      none; a second publish emits nothing until the next commit. */
  lemma PublishEmitsOutstanding(h: seq<Action>, a: Address)
    ensures Emitted(h, Publish(a)).Some? <==> exists i :: Outstanding(h, a, i)
    ensures forall i | Outstanding(h, a, i) :: Emitted(h, Publish(a)) == Some(CommitSignal(h[i].entry, h[i].crudLink))
    ensures Emitted(h + [Publish(a)], Publish(a)).None?
  {
    forall i
      ensures Latest(h, a) == Some(i) <==> Outstanding(h, a, i)
    {
      LatestIsOutstanding(h, a, i);
    }
    if Latest(h, a).Some? { assert Outstanding(h, a, Latest(h, a).value); }
    LatestSnoc(h, Publish(a), a);
  }

  // ----- the model -----

  ghost predicate CacheFits(cache: map<Address, Signal>, h: seq<Action>, a: Address) {
    var i := Latest(h, a);
    if i.Some? then a in cache && cache[a] == CommitSignal(h[i.value].entry, h[i.value].crudLink) else a !in cache
  }

  /** One action changes the cache at one address at most. */
  lemma CacheStep(cache: map<Address, Signal>, cache': map<Address, Signal>, h: seq<Action>, action: Action, a: Address)
    requires CacheFits(cache, h, a)
    requires if Caches(action, a) then a in cache' && cache'[a] == CommitSignal(action.entry, action.crudLink)
             else if action == Publish(a) then a !in cache'
             else a in cache' <==> a in cache
    requires !Caches(action, a) && action != Publish(a) && a in cache ==> cache'[a] == cache[a]
    ensures CacheFits(cache', h + [action], a)
  {
    LatestSnoc(h, action, a);
    hide Latest, CommitSignal;
  }

  class Model {
    var commitCache: map<Address, Signal>
    var chainInitialized: bool
    ghost var history: seq<Action>

    /** The cache entry of `a` is the signal of its outstanding commit. */
    ghost predicate CacheRight(a: Address)
      reads this`commitCache, this`history
    {
      CacheFits(commitCache, history, a)
    }

    ghost predicate Valid()
      reads this
    {
      (forall a :: CacheRight(a)) && chainInitialized == (InitializeChain in history)
    }

    constructor ()
      ensures Valid() && history == []
    {
      commitCache := map[];
      chainInitialized := false;
      history := [];
    }

    /** Updates the cache for one action. */
    method Remember(action: Action)
      requires Valid()
      modifies this
      ensures Valid() && history == old(history) + [action]
    {
      if action.Commit? && (!action.knowledge.hasContext || CanPublish(action.entry.kind, action.knowledge.shared)) {
        commitCache := commitCache[action.entry.address := CommitSignal(action.entry, action.crudLink)];
      } else if action.Publish? {
        commitCache := commitCache - {action.address};
      } else if action == InitializeChain {
        chainInitialized := true;
      }
      history := history + [action];
      hide CommitSignal, CacheFits;
      forall a
        ensures CacheRight(a)
      {
        assert old(CacheRight(a));
        CacheStep(old(commitCache), commitCache, old(history), action, a);
      }
    }

    method ProcessAction(action: Action) returns (r: Option<Signal>)
      requires Valid()
      modifies this
      ensures Valid() && history == old(history) + [action]
      ensures r == Emitted(old(history), action)
    {
      match action {
        case Publish(a) =>
          assert CacheRight(a);
          r := if a in commitCache then Some(commitCache[a]) else None;
        case HoldAspect(aspect) =>
          var e := HoldEvent(aspect);
          r := if e.Some? then Some(NewTerminal(e.value)) else None;
        case QueueZomeFunctionCall(call) =>
          r := Some(NewPending(SignalZomeFunctionCall(DisplayZomeFnCall(call), call.id), Source,
                               [ReturnZomeFunctionResultEvent(DisplayZomeFnCall(call), call.id)]));
        case ReturnZomeFunctionResult(call) =>
          r := Some(NewTerminal(ReturnZomeFunctionResultEvent(DisplayZomeFnCall(call), call.id)));
        case InitNetwork(agentId) =>
          r := if chainInitialized then Some(NewPending(InitializeChainEvent, Validators, [Hold(agentId)])) else None;
        case _ =>
          r := None;
      }
      hide Valid, Emitted;
      Remember(action);
    }
  }

  // ----- causes and their effects -----

  /** The aspects sent to the network when a committed entry is published; nothing is published
      for the entry types the publisher does not know. */
  function PublishedAspects(entry: Entry, header: Header): seq<Aspect> {
    var content := Content(entry, header);
    match entry.kind
    case AgentId => [content]
    case App => if header.linkUpdateDelete.Some? then [content, Updated(entry, header)] else [content]
    case LinkAdd(data) => [content, LinkAdded(data, header)]
    case LinkRemove => [content, LinkRemoved(header)]
    case Deletion => if header.linkUpdateDelete.Some? then [content, Deleted(header)] else [content]
    case _ => []
  }

  /** The header made for a commit. */
  function HeaderOf(entry: Entry, crudLink: Option<Address>): Header {
    Header(entry.address, crudLink)
  }

  /** The events emitted by a validator that comes to hold the given aspects. */
  function Effects(aspects: seq<Aspect>): seq<Event> {
    if aspects == [] then [] else
      var e := HoldEvent(aspects[0]);
      (if e.Some? then [e.value] else []) + Effects(aspects[1..])
  }

  function PendingEvents(s: Signal): seq<Event> {
    seq(|s.pending|, i requires 0 <= i < |s.pending| => s.pending[i].event)
  }

  predicate Publishable(kind: EntryKind) {
    kind.AgentId? || kind.App? || kind.LinkAdd? || kind.LinkRemove? || kind.Deletion?
  }

  /** What a commit announces as pending is exactly what validators emit once they hold the
      aspects published for it with its own header, if and only if the publisher knows the entry
      type. */
  lemma PendingMatchesEffects(entry: Entry, crudLink: Option<Address>)
    ensures PendingEvents(CommitSignal(entry, crudLink)) == Effects(PublishedAspects(entry, HeaderOf(entry, crudLink)))
            <==> Publishable(entry.kind)
  {
    SignalEvents(entry, crudLink);
    AspectEffects(entry, crudLink);
  }

  lemma SignalEvents(entry: Entry, crudLink: Option<Address>)
    ensures PendingEvents(CommitSignal(entry, crudLink)) == [Hold(entry.address)] + MetaEvents(entry, crudLink)
  {
  }

  lemma AspectEffects(entry: Entry, crudLink: Option<Address>)
    ensures Effects(PublishedAspects(entry, HeaderOf(entry, crudLink))) ==
            if Publishable(entry.kind) then [Hold(entry.address)] + MetaEvents(entry, crudLink) else []
  {
    var aspects := PublishedAspects(entry, HeaderOf(entry, crudLink));
    if aspects != [] {
      assert Effects(aspects) == [Hold(entry.address)] + Effects(aspects[1..]);
      if |aspects| == 2 {
        assert aspects[1..] == [aspects[1]];
        assert Effects([aspects[1]]) == MetaEvents(entry, crudLink) by { assert [aspects[1]][1..] == []; }
      }
    }
  }

  // ----- over whole histories, with the header found on the chain -----

  /** Every commit puts a header on the chain; the one found for an address is that of its last
      commit, cached or not. */
  function LastCommit(h: seq<Action>, a: Address): (r: Option<int>)
    ensures r.Some? ==> 0 <= r.value < |h| && h[r.value].Commit? && h[r.value].entry.address == a
    ensures r.Some? ==> forall j | r.value < j < |h| :: !(h[j].Commit? && h[j].entry.address == a)
    ensures r.None? ==> forall j | 0 <= j < |h| :: !(h[j].Commit? && h[j].entry.address == a)
  {
    if h == [] then None else
      var n := |h| - 1;
      if h[n].Commit? && h[n].entry.address == a then Some(n) else LastCommit(h[..n], a)
  }

  /** Addresses are hashes: one address, one entry. */
  ghost predicate ContentAddressed(h: seq<Action>) {
    forall i, j | 0 <= i < |h| && 0 <= j < |h| && h[i].Commit? && h[j].Commit?
                  && h[i].entry.address == h[j].entry.address :: h[i].entry == h[j].entry
  }

  /** What is sent to the network when an address is published after history `h`. */
  function SentFor(h: seq<Action>, a: Address): seq<Aspect> {
    var j := LastCommit(h, a);
    if j.None? then [] else PublishedAspects(h[j.value].entry, HeaderOf(h[j.value].entry, h[j.value].crudLink))
  }

  lemma {:induction false} OutstandingIsCommitted(h: seq<Action>, a: Address)
    ensures Latest(h, a).Some? ==>
              LastCommit(h, a).Some? && Latest(h, a).value <= LastCommit(h, a).value && h[Latest(h, a).value].entry.address == a
  {
    if h != [] { OutstandingIsCommitted(h[..|h| - 1], a); }
  }

  lemma MetaEventsDiffer(entry: Entry, a: Option<Address>, b: Option<Address>)
    ensures [Hold(entry.address)] + MetaEvents(entry, a) == [Hold(entry.address)] + MetaEvents(entry, b) <==>
            (entry.kind.App? || entry.kind.Deletion? ==> a == b)
  {
    var x, y := [Hold(entry.address)] + MetaEvents(entry, a), [Hold(entry.address)] + MetaEvents(entry, b);
    assert x[1..] == MetaEvents(entry, a) && y[1..] == MetaEvents(entry, b);
    if a.Some? && b.Some? && (entry.kind.App? || entry.kind.Deletion?) && x == y {
      assert x[1..][0] == y[1..][0];
    }
  }

  /** Over any history, the effects a publish announces are those that what it sends will have, if
      and only if the publisher knows the entry type and no later commit of the same entry, itself
      not cached, has changed the link. */
  lemma PublishMatchesEffects(h: seq<Action>, a: Address)
    requires ContentAddressed(h)
    ensures Emitted(h, Publish(a)).Some? ==>
              && Latest(h, a).Some? && LastCommit(h, a).Some?
              && var c, l := h[Latest(h, a).value], h[LastCommit(h, a).value];
                 PendingEvents(Emitted(h, Publish(a)).value) == Effects(SentFor(h, a)) <==>
                 Publishable(c.entry.kind) && (c.entry.kind.App? || c.entry.kind.Deletion? ==> c.crudLink == l.crudLink)
  {
    if Latest(h, a).Some? {
      OutstandingIsCommitted(h, a);
      var c, l := h[Latest(h, a).value], h[LastCommit(h, a).value];
      assert c.entry == l.entry;
      hide Latest, LastCommit, ContentAddressed, Effects, PublishedAspects, CommitSignal, PendingEvents;
      SignalEvents(c.entry, c.crudLink);
      AspectEffects(l.entry, l.crudLink);
      MetaEventsDiffer(c.entry, c.crudLink, l.crudLink);
    }
  }

  /** The announcement depends on the context the model was built over: were it to gain state and
      DNA midway, an entry committed before and again, unshared and with a link, after would be
      announced with other effects than it has. */
  lemma AnnouncementCanMislead() returns (h: seq<Action>, a: Address)
    ensures ContentAddressed(h) && Emitted(h, Publish(a)).Some?
    ensures PendingEvents(Emitted(h, Publish(a)).value) != Effects(SentFor(h, a))
  {
    a := "e";
    var e := Entry(App, a);
    var first, second := Commit(e, None, Knowledge(false, false)), Commit(e, Some("x"), Knowledge(true, false));
    h := [] + [first] + [second];
    LatestSnoc([], first, a);
    LatestSnoc([] + [first], second, a);
    assert Latest(h, a) == Some(0) && LastCommit(h, a) == Some(1);
    PublishMatchesEffects(h, a);
  }

  /** The instances the code builds: their model is made over a context without a state, and the
      state is set on a copy of it only. */
  ghost predicate NoContext(h: seq<Action>) {
    forall i | 0 <= i < |h| && h[i].Commit? :: !h[i].knowledge.hasContext
  }

  /** Without a state every commit is cached, so the outstanding one is the one on the chain. */
  lemma {:induction false} OutstandingIsLast(h: seq<Action>, a: Address)
    requires NoContext(h)
    ensures Latest(h, a).Some? ==> Latest(h, a) == LastCommit(h, a)
  {
    if h != [] { OutstandingIsLast(h[..|h| - 1], a); }
  }

  /** For every instance the code builds, over any history, a publish announces exactly the effects
      of what it sends if and only if the publisher knows the entry type. */
  lemma InstancePublishMatchesEffects(h: seq<Action>, a: Address)
    requires ContentAddressed(h) && NoContext(h)
    ensures Emitted(h, Publish(a)).Some? ==>
              && Latest(h, a).Some?
              && (PendingEvents(Emitted(h, Publish(a)).value) == Effects(SentFor(h, a)) <==>
                  Publishable(h[Latest(h, a).value].entry.kind))
  {
    hide Effects, SentFor, PendingEvents, ContentAddressed, NoContext;
    OutstandingIsLast(h, a);
    PublishMatchesEffects(h, a);
  }

  predicate NeverSent(kind: EntryKind) {
    kind.LinkList? || kind.ChainHeader? || kind.ChainMigrate?
  }

  predicate Private(kind: EntryKind) {
    kind.Dna? || kind.CapTokenGrant? || kind.CapTokenClaim?
  }

  /** The commits whose signal is kept, and emitted when published, although nothing is sent for
      them, so that none of the effects announced ever comes.  Only the test of the authoring
      workflow, which publishes what `CanPublish` allows, keeps the private types out. */
  lemma WaitsForever(h: seq<Action>, entry: Entry, crudLink: Option<Address>, knowledge: Knowledge)
    ensures var commit := Commit(entry, crudLink, knowledge);
            var signal := Emitted(h + [commit], Publish(entry.address));
            && (Caches(commit, entry.address) && SentFor(h + [commit], entry.address) == [] <==>
                NeverSent(entry.kind) || (!knowledge.hasContext && Private(entry.kind)))
            && (CanPublish(entry.kind, knowledge.shared) && SentFor(h + [commit], entry.address) == [] <==>
                NeverSent(entry.kind))
            && (Caches(commit, entry.address) ==> signal.Some? && Hold(entry.address) in PendingEvents(signal.value))
  {
    var commit := Commit(entry, crudLink, knowledge);
    LatestSnoc(h, commit, entry.address);
    assert LastCommit(h + [commit], entry.address) == Some(|h|);
    SignalEvents(entry, crudLink);
  }

  /** A zome function call waits for exactly the events of results that bear its id and its
      displayed name. */
  lemma CallMatchesReturn(h: seq<Action>, k: seq<Action>, call: ZomeFnCall, result: ZomeFnCall)
    ensures var cause := Emitted(h, QueueZomeFunctionCall(call));
            var effect := Emitted(k, ReturnZomeFunctionResult(result));
            && cause.Some? && effect.Some?
            && (PendingEvents(cause.value) == [effect.value.event] <==>
                call.id == result.id && DisplayZomeFnCall(call) == DisplayZomeFnCall(result))
  {
    var cause := Emitted(h, QueueZomeFunctionCall(call)).value;
    assert PendingEvents(cause) == [ReturnZomeFunctionResultEvent(DisplayZomeFnCall(call), call.id)];
    assert PendingEvents(cause)[0].name == DisplayZomeFnCall(call) && PendingEvents(cause)[0].id == call.id;
  }
}

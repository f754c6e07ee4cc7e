/** The registry of in-memory listeners: who is bound to which URL, and how connections reach
    the listener that accepts them. */
module MemRegistry {
  import opened Wrappers

  const SCHEME: string := "mem"
  const PORT: nat := 4242

  datatype Url = Url(scheme: string, host: Option<string>, port: Option<nat>, path: string)

  datatype Error = InvalidInput | AddrInUse | ConnectionRefused | WouldBlock

  datatype TryRecv = Received(conn: nat) | Empty | Disconnected

  /** What a bound URL is normalised to. */
  function Canonical(url: Url): Url {
    Url(SCHEME, url.host, Some(PORT), "")
  }

  predicate Bindable(url: Url) {
    url.scheme == SCHEME && url.host.Some? && (url.port.None? || url.port.value == 0 || url.port.value == PORT)
  }

  /** The URL looked up: the given one, or the text of it read again behind "mem://". */
  function Target(url: Url, reparsed: Url): Url {
    if url.scheme != SCHEME || url.host.None? then reparsed else url
  }

  /** Listeners, their channels and connections are numbered in the order of creation.  A channel
      carries the number of its listener; its only sender is the registry's. */
  class MemManager {
    var listeners: map<Url, nat>            // URL to the channel whose sender is registered
    var live: map<nat, Url>                 // listeners not yet dropped
    var channels: map<nat, seq<nat>>        // connections sent and not yet received
    var acceptQueues: map<nat, seq<nat>>    // connections received and not yet handed out
    var nextListener: nat
    var nextConn: nat
    ghost var sent: map<nat, seq<nat>>      // connections sent to each listener, in order
    ghost var accepted: map<nat, seq<nat>>  // connections each listener has handed out

    /** Every live listener is registered under its own URL, and nothing else is registered. */
    ghost predicate RegistryOk()
      reads this`listeners, this`live, this`nextListener
    {
      && (forall id | id in live :: id < nextListener && live[id] in listeners && listeners[live[id]] == id)
      && (forall u | u in listeners :: listeners[u] in live && live[listeners[u]] == u)
    }

    /** Every connection sent to a live listener is handed out, queued or in its channel. */
    ghost predicate QueuesOk()
      reads this`live, this`channels, this`acceptQueues, this`sent, this`accepted
    {
      forall id | id in live ::
        && id in channels && id in acceptQueues && id in sent && id in accepted
        && sent[id] == accepted[id] + acceptQueues[id] + channels[id]
    }

    ghost predicate Valid()
      reads this
    {
      RegistryOk() && QueuesOk()
    }

    constructor ()
      ensures Valid() && live == map[] && listeners == map[]
    {
      listeners, live, channels, acceptQueues := map[], map[], map[], map[];
      nextListener, nextConn := 0, 0;
      sent, accepted := map[], map[];
    }

    /** No two live listeners share a URL. */
    lemma UrlsAreDistinct(a: nat, b: nat)
      requires RegistryOk() && a in live && b in live && live[a] == live[b]
      ensures a == b
    {
      assert listeners[live[a]] == a;
    }

    /** The registered sender of a live listener keeps its channel connected. */
    lemma NeverDisconnected(id: nat)
      requires RegistryOk() && id in live
      ensures id in listeners.Values
    {
      assert listeners[live[id]] in listeners.Values;
    }

    ghost method OpenHistory(id: nat)
      requires QueuesOk() && id !in live
      modifies this`sent, this`accepted
      ensures QueuesOk()
      ensures sent == old(sent)[id := []] && accepted == old(accepted)[id := []]
    {
      sent := sent[id := []];
      accepted := accepted[id := []];
    }

    method OpenQueues(id: nat)
      requires QueuesOk() && id !in live
      modifies this`channels, this`acceptQueues
      ensures QueuesOk()
      ensures channels == old(channels)[id := []] && acceptQueues == old(acceptQueues)[id := []]
    {
      channels := channels[id := []];
      acceptQueues := acceptQueues[id := []];
    }

    method OpenChannel() returns (id: nat)
      requires Valid()
      modifies this`nextListener, this`channels, this`acceptQueues, this`sent, this`accepted
      ensures Valid() && id < nextListener && id !in live
      ensures channels == old(channels)[id := []] && acceptQueues == old(acceptQueues)[id := []]
      ensures sent == old(sent)[id := []] && accepted == old(accepted)[id := []]
    {
      id := nextListener;
      nextListener := nextListener + 1;
      assert RegistryOk() && id !in live;
      hide RegistryOk, QueuesOk;
      OpenQueues(id);
      OpenHistory(id);
    }

    method Register(newUrl: Url, id: nat)
      requires Valid() && newUrl !in listeners && id !in live && id < nextListener
      requires id in channels && id in acceptQueues && id in sent && id in accepted
      requires sent[id] == accepted[id] == channels[id] == acceptQueues[id] == []
      modifies this`listeners, this`live
      ensures Valid()
      ensures live == old(live)[id := newUrl] && listeners == old(listeners)[newUrl := id]
    {
      listeners := listeners[newUrl := id];
      live := live[id := newUrl];
    }

    method Bind(url: Url) returns (r: Result<nat, Error>)
      requires Valid()
      modifies this
      ensures Valid()
      ensures r.Ok? <==> Bindable(url) && Canonical(url) !in old(listeners)
      ensures r.Ok? ==> r.value !in old(live) && live == old(live)[r.value := Canonical(url)]
      ensures r.Ok? ==> sent == old(sent)[r.value := []] && accepted == old(accepted)[r.value := []]
      ensures r.Err? ==> unchanged(this) && r.error == if Bindable(url) then AddrInUse else InvalidInput
    {
      if url.scheme != SCHEME { return Err(InvalidInput); }
      if url.port.Some? && url.port.value != 0 && url.port.value != PORT { return Err(InvalidInput); }
      if url.host.None? { return Err(InvalidInput); }
      var newUrl := Canonical(url);
      if newUrl in listeners { return Err(AddrInUse); }
      hide RegistryOk, QueuesOk;
      var id := OpenChannel();
      Register(newUrl, id);
      return Ok(id);
    }

    /** Dropping a listener unregisters its URL first and only then closes its channel. */
    method Drop(id: nat)
      requires Valid() && id in live
      modifies this`listeners, this`live
      ensures Valid() && live == old(live) - {id}
      ensures listeners == old(listeners) - {old(live)[id]}
    {
      forall other | other in live && other != id
        ensures live[other] != live[id]
      {
        if live[other] == live[id] { UrlsAreDistinct(other, id); }
      }
      listeners := listeners - {live[id]};
      live := live - {id};
    }

    /** A send fails only when the receiving listener is gone; that never happens to a
        registered channel, so connecting succeeds exactly when the URL is bound. */
    method Connect(url: Url, reparsed: Url) returns (r: Result<nat, Error>)
      requires Valid()
      modifies this`channels, this`sent, this`nextConn
      ensures Valid()
      ensures r.Ok? <==> Target(url, reparsed) in listeners
      ensures r.Err? ==> r.error == ConnectionRefused && unchanged(this)
      ensures r.Ok? ==> r.value == old(nextConn) && nextConn == old(nextConn) + 1
      ensures r.Ok? ==>
                var id := listeners[Target(url, reparsed)];
                id in old(sent) && sent == old(sent)[id := old(sent)[id] + [r.value]]
    {
      var target := Target(url, reparsed);
      if target !in listeners { return Err(ConnectionRefused); }
      var id := listeners[target];
      assert id in live;
      hide RegistryOk;
      var conn := nextConn;
      nextConn := nextConn + 1;
      channels := channels[id := channels[id] + [conn]];
      sent := sent[id := sent[id] + [conn]];
      return Ok(conn);
    }

    method TryReceive(id: nat) returns (r: TryRecv)
      requires QueuesOk() && id in live
      modifies this`channels
      ensures id in old(channels)
      ensures r.Received? <==> old(channels)[id] != []
      ensures r.Received? ==> r.conn == old(channels)[id][0] && channels == old(channels)[id := old(channels)[id][1..]]
      ensures !r.Received? ==> channels == old(channels)
      ensures r.Disconnected? <==> old(channels)[id] == [] && id !in listeners.Values
    {
      if channels[id] != [] {
        r := Received(channels[id][0]);
        channels := channels[id := channels[id][1..]];
      } else {
        r := if id in listeners.Values then Empty else Disconnected;
      }
    }

    method Enqueue(id: nat, conn: nat)
      requires id in live && id in acceptQueues
      requires forall other | other in live :: other in channels && other in acceptQueues && other in sent && other in accepted
      requires forall other | other in live && other != id ::
                 sent[other] == accepted[other] + acceptQueues[other] + channels[other]
      requires sent[id] == accepted[id] + acceptQueues[id] + ([conn] + channels[id])
      modifies this`acceptQueues
      ensures QueuesOk()
    {
      acceptQueues := acceptQueues[id := acceptQueues[id] + [conn]];
    }

    /** Takes every connection off the channel.  The channel of a live listener is never found
        disconnected, so the loop ends. */
    method Drain(id: nat)
      requires Valid() && id in live
      modifies this`channels, this`acceptQueues
      ensures Valid() && id in channels && channels[id] == []
    {
      NeverDisconnected(id);
      hide RegistryOk;
      while true
        invariant Valid()
        decreases |channels[id]|
      {
        var m := TryReceive(id);
        match m {
          case Received(conn) => Enqueue(id, conn);
          case Empty => return;
          case Disconnected => assert false;
        }
      }
    }

    /** Hands out the connections in the order they were made, each exactly once. */
    method Accept(id: nat) returns (r: Result<nat, Error>)
      requires Valid() && id in live
      modifies this`channels, this`acceptQueues, this`accepted
      ensures Valid() && id in old(sent) && id in old(accepted)
      ensures r.Ok? <==> old(accepted)[id] != sent[id]
      ensures r.Ok? ==> |old(accepted)[id]| < |sent[id]| && r.value == sent[id][|old(accepted)[id]|]
      ensures r.Ok? ==> accepted == old(accepted)[id := old(accepted)[id] + [r.value]]
      ensures r.Err? ==> r.error == WouldBlock && accepted == old(accepted)
    {
      Drain(id);
      hide RegistryOk;
      if acceptQueues[id] == [] { return Err(WouldBlock); }
      var first := acceptQueues[id][0];
      acceptQueues := acceptQueues[id := acceptQueues[id][1..]];
      accepted := accepted[id := accepted[id] + [first]];
      return Ok(first);
    }
  }
}

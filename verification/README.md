# Holochain core in Dafny

A model of five parts of Holochain's Rust core, and proofs about them.

- **Time periods** (`Numerals`, `PeriodGrammar`, `Periods`, `PeriodDisplay`, `Timeouts`). The printer and
  the reader of human-readable periods undo each other on every duration. The regular expression is a set of
  derivation trees; a deterministic reader is shown sound and complete for it, so the expression is
  unambiguous. Every accepted text is worth the exact sum of its units.
- **Non-blocking streams** (`BufferedFifo`, `LowerLayer`, `TcpStream`, `TlsStream`, `PingTimeline`, `WsStream`,
  `MemStream`, `MemRegistry`). TCP and TLS streams refine one buffered FIFO over an adversarial layer below;
  the WebSocket stream conserves frames and keeps its ping schedule; memory streams conserve bytes and the
  registry hands out every connection once.
- **Conductor configuration** (`TopoSort`, `ConductorConfig`, `BridgeOrder`, `ConfigCheck`, `InstanceRemoval`,
  `RequiredBridges`, `HappBundle`). The consistency check passes exactly the consistent configurations; bridge
  ordering, instance removal, required bridges and configuration building are tied to it.
- **Action loop and consistency model** (`ActionLoop`, `ConsistencyModel`). The loop refines a plain fold of
  the dispatched actions under any pattern of lock timeouts; signals follow from the history alone.
- **Keystore, key blobs, seed mnemonics** (`KeyBlobs`, `Keystores`, `Chunking`, `Bip39`, `SeedMnemonic`). The
  decrypted cache agrees with encrypted storage; byte layouts and mnemonics round-trip, with exact conditions.

`Wrappers`, `Bytes` and `Sequences` hold what the models share. `dafny verify dfyconfig.toml` checks everything.

## Conventions

- A panic (failed assertion, `unwrap`, checked arithmetic) and a call that never returns are values of the
  result: `Panic`, `Overflow`, `Spins`.
- The operating system, TLS and WebSocket libraries answer from an arbitrary finite script of replies: partial
  writes, would-block, errors, interrupted and refused handshakes, any clock. When the script is used up
  everything fails, except that a TCP connection attempt succeeds; every finite behaviour is some script. They
  keep ghost histories of what they took, handed up and complained about, and may only be written to once
  connected; that is a precondition of their methods.
- The `reduce` function of the action loop, the free-port oracle, the DNA loader, SHA-256, the word list, key
  derivation and the passphrase manager's answers are parameters.
- Encryption is symbolic: a cipher text remembers its passphrase, and any other passphrase decrypts to
  arbitrary other content without an error, as the separate passphrase check presumes.

## Properties that fail, and when

- A 32-bit word does not saturate when a period is converted: `Timeouts.WrapsOn32Bit`.
- A TCP or TLS write that fails on a ready stream with a backlog has queued its data all the same
  (`TcpStream.FailedWriteIsQueued`); accepted bytes are conserved exactly otherwise
  (`BufferedFifo.ConservationIff`).
- A WebSocket flush never returns after a failed handshake with nothing queued: `WsStream.FlushCanSpin`, and
  otherwise only while the socket blocks: `WsStream.InStreamWss.FlushRounds`.
- A WebSocket frame accepted during the handshake can be lost (`WsStream.AcceptedFrameCanBeLost`); exactly when a
  call loses one is `WsStream.LossesAreExact`.
- Would-block of a memory stream can hide data behind a hundred empty messages:
  `MemStream.EmptyMessagesHideAByte`, and exactly then: `MemStream.ReadPair`.
- Removing an instance is documented to keep a configuration consistent, and does so only if nothing else
  mentions the instance: `InstanceRemoval.RemovalKeepsConsistencyIff`.
- A required bridge counts as configured as soon as any instance's bridge bears its handle
  (`RequiredBridges.RequiredBridgeCanBeMissing`); it is surely the instance's own when no other instance runs a
  DNA that defines the handle, and what goes unnoticed is `RequiredBridges.DroppingOwnBridgesIff`.
- Repeated instance ids make the bridge ordering panic: `BridgeOrder.OrderingCanPanic`.
- A bundle with two instances and file storage builds a configuration that the consistency check rejects:
  `HappBundle.BuiltCanBeInconsistent`, and exactly then: `HappBundle.SharedStorageIsDistinctIff`.
- The keystore ignores the result of the passphrase check when encrypting and does not re-encrypt on a change
  of passphrase; a keybundle may be added by half: `Keystores.WrongPassphraseIsAccepted`,
  `Keystores.ChangeLosesSecret`, `Keystores.HalfAKeybundle`.
- Publishing a link list, chain header or chain migration emits the signal of its commit, but nothing is sent, so
  that the effects announced never come: `ConsistencyModel.WaitsForever`. For the five types that are sent the
  announcement is exact: `ConsistencyModel.InstancePublishMatchesEffects`.

## Model

| member | source | states |
|---|---|---|
| `PeriodGrammar.RecogniseSound` | crates/core_types/src/time.rs:172-194 | whatever the reader of period specifications accepts is a sentence of the regular expression and spells the very text read |
| `PeriodGrammar.RecogniseComplete` | crates/core_types/src/time.rs:172-194 | every sentence of the regular expression is accepted, with exactly the captures it was spelled from |
| `PeriodGrammar.DerivationIsUnique` | crates/core_types/src/time.rs:172-194 | the expression is unambiguous: `m` against `ms`, optional groups and blanks never allow two readings, so matching order cannot matter |
| `PeriodGrammar.NamesAreDisjoint` | crates/core_types/src/time.rs:172-194 | no spelling, in any case folding, names two units |
| `Numerals.FractionFloor` | crates/core_types/src/time.rs:271-276 | filling or cutting a fraction of any length to nine digits is rounding it down to whole nanoseconds |
| `Numerals.FillUndoesTrim` | crates/core_types/src/time.rs:137-141 | no digit of a nine-digit fraction is lost by printing it without trailing zeros |
| `Numerals.FractionRoundTrip` | crates/core_types/src/time.rs:137-141 | the printed fraction of any non-zero nanosecond count reads back as that count |
| `Numerals.ValOfDec` | crates/core_types/src/time.rs:107-131 | a printed integer is worth itself |
| `Periods.AddUpExact` | crates/core_types/src/time.rs:206-314 | the running 64-bit sum succeeds if and only if all numerals are ASCII and the exact sum fits: no intermediate product or sum overflows earlier |
| `Periods.AcceptedValueIsExact` | crates/core_types/src/time.rs:206-321 | a specification is accepted if and only if its numerals are readable and its exact value fits, and is then worth the exact weighted sum of its units with the carry into seconds |
| `Periods.RefusedExactly` | crates/core_types/src/time.rs:198-205 | "no specification" is reported for exactly the texts outside the grammar |
| `PeriodDisplay.Split` | crates/core_types/src/time.rs:107-131 | years, weeks, days, hours, minutes and seconds in range and adding up to the whole, although a year is not a whole number of weeks |
| `PeriodDisplay.RoundTrip` | crates/core_types/src/time.rs:105-325 | for every duration, reading the printed form succeeds and gives exactly that duration |
| `PeriodDisplay.ShowIsInjective` | crates/core_types/src/time.rs:105-165 | different durations are printed differently |
| `PeriodDisplay.CanonicalForm` | crates/core_types/src/time.rs:105-325 | printing what was read from any accepted text gives a text of the same value |
| `PeriodDisplay.WriteUnit` | crates/core_types/src/time.rs:107-131 | appends one unit of the printed form, and nothing when its count is zero |
| `PeriodDisplay.WriteSubSeconds` | crates/core_types/src/time.rs:148-156 | appends the sub-second pieces of the canonical derivation, of which at most one is there |
| `PeriodDisplay.WriteTail` | crates/core_types/src/time.rs:132-163 | appends seconds and sub-seconds of the printed form, fractional or scaled |
| `PeriodDisplay.WriteLarge` | crates/core_types/src/time.rs:107-131 | appends years down to minutes of the printed form |
| `PeriodDisplay.Display` | crates/core_types/src/time.rs:105-165 | the step-by-step printer produces the canonical form, which reads back as the duration printed |
| `Timeouts.ToDuration` | crates/core_types/src/time.rs:35-39 | a timeout in milliseconds as a normalised duration of exactly the same length |
| `Timeouts.NeverOverflows` | crates/core_types/src/time.rs:346-358 | the conversion of a period never leaves the machine word, whatever its size |
| `Timeouts.ConversionIsSaturatingIff` | crates/core_types/src/time.rs:341-358 | exact-or-saturating holds if and only if the seconds fit the word or their low bits still exceed the limit |
| `Timeouts.ExactOn64Bit` | crates/core_types/src/time.rs:341-358 | with a 64-bit word the conversion is always exact or saturating |
| `Timeouts.WrapsOn32Bit` | crates/core_types/src/time.rs:341-358 | counterexample: with a 32-bit word 2^32 seconds become a timeout of zero, against the documented saturation |
| `Timeouts.MonotoneOn64Bit` | crates/core_types/src/time.rs:346-358 | a longer period never gives a shorter timeout |
| `Timeouts.TimeoutRoundTrip` | crates/core_types/src/time.rs:35-39 | timeout to duration to period to timeout is the identity below the saturation limit and the maximum above |
| `BufferedFifo.NothingIsLost` | crates/in_stream/src/trait.rs:74-115 | in every run, through any errors, bytes handed down followed by the write buffer are exactly the bytes taken, in order |
| `BufferedFifo.TakenIsAccepted` | crates/in_stream/src/trait.rs:110-111 | without a failed write, the bytes taken are those of the writes reported successful |
| `BufferedFifo.Conservation` | crates/in_stream/src/trait.rs:74-115 | up to the first failed write, bytes handed down followed by the write buffer are all accepted bytes |
| `BufferedFifo.TakenCompared` | crates/in_stream/src/trait.rs:110-111 | writes never take less than they report, and exactly as much if and only if no failed write queued its data |
| `BufferedFifo.ConservationIff` | crates/in_stream/src/trait.rs:74-115 | in every run, handed-down bytes followed by the buffer are the accepted bytes if and only if no write failed on a ready stream with a backlog |
| `BufferedFifo.Progress` | crates/in_stream/src/trait.rs:99-114 | what was handed down stays so, a ready stream stays ready, and nothing is handed down before |
| `BufferedFifo.FlushDelivers` | crates/in_stream/src/trait.rs:112-114 | after a successful flush every byte taken has been handed down |
| `BufferedFifo.ReadsAndFaultsPassThrough` | crates/in_stream/src/trait.rs:99-114 | in every run the reads return exactly what the layer below handed up, and each of its errors is reported once, by the call that met it |
| `BufferedFifo.RoundsMakeFlush` | crates/in_stream/src/tcp.rs:285-298 | any number of unfinished rounds followed by a final one is one flush step |
| `TcpStream.InStreamTcp.constructor` | crates/in_stream/src/tcp.rs:150-161 | a stream knows whether it is connected |
| `TcpStream.InStreamTcp.PrivProcess` | crates/in_stream/src/tcp.rs:163-187 | ready exactly when the socket says so; a timeout exactly when still connecting past the deadline |
| `TcpStream.InStreamTcp.PrivWritePending` | crates/in_stream/src/tcp.rs:189-203 | the backlog is offered once as a whole and shrinks by what was taken; would-block is no error |
| `TcpStream.InStreamTcp.CheckReady` | crates/in_stream/src/tcp.rs:236-239 | a step of the buffered FIFO that offers nothing and tells readiness |
| `TcpStream.InStreamTcp.Read` | crates/in_stream/src/tcp.rs:245-253 | a step of the buffered FIFO: the backlog is offered first, bytes come only from a connected socket |
| `TcpStream.InStreamTcp.WriteThrough` | crates/in_stream/src/tcp.rs:258-271 | without a backlog the data is taken or buffered whole, or refused whole |
| `TcpStream.InStreamTcp.Write` | crates/in_stream/src/tcp.rs:255-283 | a step of the buffered FIFO; a failed write has queued its data if and only if it met a backlog on a ready stream |
| `TcpStream.InStreamTcp.FlushRound` | crates/in_stream/src/tcp.rs:285-298 | one round of the flush loop, which ends or leaves a backlog |
| `TcpStream.InStreamTcp.Flush` | crates/in_stream/src/tcp.rs:285-298 | a step of the buffered FIFO that succeeds only with an empty buffer and a flushed socket; with finitely many replies it ends, because every unfinished round uses one up |
| `TcpStream.InStreamTcp.StaysBlocked` | crates/in_stream/src/tcp.rs:285-298 | for however many rounds a connected socket would block, the flush loop gets no further |
| `TcpStream.InStreamTcp.Drive` | crates/in_stream/src/tcp.rs:236-298 | any sequence of calls on the stream is a trace of the buffered FIFO |
| `TcpStream.InStreamTcp.Conserves` | crates/in_stream/src/tcp.rs:236-298 | every run of a new stream conserves the accepted bytes under the exact condition above, returns what came up, reports every fault, and sends nothing before it is connected |
| `TcpStream.FailedWriteIsQueued` | crates/in_stream/src/tcp.rs:272-278 | a run in which a write fails and its byte stays queued |
| `TlsStream.InStreamTls.constructor` | crates/in_stream/src/tls.rs:243-263 | a stream knows whether its handshake is complete |
| `TlsStream.InStreamTls.PrivProcTlsResult` | crates/in_stream/src/tls.rs:169-196 | the state after a completed, interrupted or refused handshake |
| `TlsStream.InStreamTls.PrivProcess` | crates/in_stream/src/tls.rs:198-217 | moves only a pending handshake; a refusal is the only error and leaves no state |
| `TlsStream.InStreamTls.PrivWritePending` | crates/in_stream/src/tls.rs:219-237 | as for TCP, and an error when a backlog has no connection left |
| `TlsStream.InStreamTls.CheckReady` | crates/in_stream/src/tls.rs:265-271 | a step of the buffered FIFO that offers nothing and tells readiness; the state is the one the handshake attempt leaves |
| `TlsStream.InStreamTls.Read` | crates/in_stream/src/tls.rs:277-287 | a step of the buffered FIFO; would-block during the handshake, not-connected after a refusal |
| `TlsStream.InStreamTls.WriteThrough` | crates/in_stream/src/tls.rs:299-311 | without a backlog the data is taken or buffered whole, or refused whole |
| `TlsStream.InStreamTls.Write` | crates/in_stream/src/tls.rs:289-320 | a step of the buffered FIFO; queued during the handshake, refused after a failed one |
| `TlsStream.InStreamTls.FlushRound` | crates/in_stream/src/tls.rs:322-334 | one round of the flush loop, which ends or leaves a backlog |
| `TlsStream.InStreamTls.Flush` | crates/in_stream/src/tls.rs:322-334 | a step of the buffered FIFO that succeeds only with an empty buffer and a flushed connection; with finitely many replies it ends, because every unfinished round uses one up |
| `TlsStream.InStreamTls.StaysBlocked` | crates/in_stream/src/tls.rs:322-334 | for however many rounds an established connection would block, the flush loop gets no further |
| `TlsStream.InStreamTls.Drive` | crates/in_stream/src/tls.rs:265-334 | any sequence of calls on the stream is a trace of the buffered FIFO |
| `TlsStream.InStreamTls.Conserves` | crates/in_stream/src/tls.rs:265-334 | every run of a new stream conserves the accepted bytes under the exact condition above, returns what came up, reports every fault, and sends nothing before the handshake is complete |
| `PingTimeline.PingsAreSpaced` | crates/in_stream/src/ws.rs:260-270 | any two automatic pings are more than half the pong limit apart, and so is the first from the handshake |
| `PingTimeline.PingsAreFrequent` | crates/in_stream/src/ws.rs:260-270 | polled at least every d milliseconds, a ping follows the last ping or the handshake within half the limit plus d |
| `PingTimeline.SlowMeansSilent` | crates/in_stream/src/ws.rs:369-381 | the slow-pong timeout comes only after more than the limit since the handshake and since every frame returned |
| `WsStream.InStreamWss.Conservation` | crates/in_stream/src/ws.rs:284-300 | until a call fails for good, user frames on the wire followed by the queue are the frames accepted, pings and pongs aside, and an established stream has no queue |
| `WsStream.InStreamWss.AcceptedKeptIff` | crates/in_stream/src/ws.rs:284-300 | through any errors, accepted frames on the wire followed by accepted frames in the queue are all accepted frames if and only if none was taken off the queue in vain |
| `WsStream.LossesAreExact` | crates/in_stream/src/ws.rs:284-300 | a call loses an accepted frame if and only if the last frame it took off the queue failed and had been accepted by an earlier call |
| `WsStream.AnyCall` | crates/in_stream/src/ws.rs:327-424 | every call keeps the invariant and loses accepted frames exactly as above, only when it fails and only when it began with a queue |
| `WsStream.Drive` | crates/in_stream/src/ws.rs:327-424 | over every run of a new stream the accepted frames are all kept if and only if no call lost one |
| `WsStream.AcceptedFrameCanBeLost` | crates/in_stream/src/ws.rs:205-253 | a run: a frame accepted during the handshake is lost when the write at its completion fails |
| `WsStream.InStreamWss.constructor` | crates/in_stream/src/ws.rs:194-203 | a stream before its first handshake attempt, with nothing queued |
| `WsStream.InStreamWss.RawConnect` | crates/in_stream/src/ws.rs:306-325 | a stream is handed out exactly unless the first attempt is refused, established or in the middle of its handshake |
| `WsStream.InStreamWss.PrivWriteWssFrame` | crates/in_stream/src/ws.rs:165-187 | a frame goes past the queue; would-block counts as written because the socket keeps it |
| `WsStream.InStreamWss.PopAndWrite` | crates/in_stream/src/ws.rs:293 | a failing frame has already left the queue and is the one frame dropped |
| `WsStream.InStreamWss.PrivWritePending` | crates/in_stream/src/ws.rs:284-300 | an established stream ends with an empty queue or one dropped frame; without a connection the queue is kept |
| `WsStream.InStreamWss.DrainQueue` | crates/in_stream/src/ws.rs:284-300 | frames leave the queue in order, all delivered except the last one of a failing call |
| `WsStream.InStreamWss.PrivProcWssResult` | crates/in_stream/src/ws.rs:205-253 | a completed handshake starts both clocks and sends what was queued; an interrupted or refused one sends nothing |
| `WsStream.InStreamWss.PrivProcess` | crates/in_stream/src/ws.rs:255-282 | moves only a pending handshake, to the state its outcome leaves, or looks at the ping clock; errors are the socket's or a refusal; without a state nothing changes |
| `WsStream.InStreamWss.PingNow` | crates/in_stream/src/ws.rs:264-267 | a ping goes past the queue and restarts the ping clock |
| `WsStream.InStreamWss.PrivPing` | crates/in_stream/src/ws.rs:260-271 | every look at the ping clock either pings because it is due or does not because it is not |
| `WsStream.InStreamWss.CheckReady` | crates/in_stream/src/ws.rs:327-333 | keeps the stream invariant and tells readiness; a refused handshake is an error and leaves no state |
| `WsStream.InStreamWss.Write` | crates/in_stream/src/ws.rs:393-398 | keeps the stream invariant; a success appends one accepted frame |
| `WsStream.InStreamWss.Receive` | crates/in_stream/src/ws.rs:353-368 | returns the frame received; a ping is answered past the queue and any frame restarts the pong clock |
| `WsStream.InStreamWss.CheckSilence` | crates/in_stream/src/ws.rs:369-381 | the timeout is reported exactly when the silence exceeds the limit |
| `WsStream.InStreamWss.PrivRead` | crates/in_stream/src/ws.rs:346-390 | a read returns the next frame received; the only frame lost to an error is a ping that could not be answered |
| `WsStream.InStreamWss.Read` | crates/in_stream/src/ws.rs:339-391 | keeps the stream invariant, with the guarantees of the read above after moving the handshake on |
| `WsStream.InStreamWss.Settle` | crates/in_stream/src/ws.rs:405-420 | success only once the socket has nothing pending |
| `WsStream.InStreamWss.FlushRound` | crates/in_stream/src/ws.rs:400-424 | an outcome, or another round that has used up a reply, except that from no state and no queue a round ends without an outcome and with nothing changed |
| `WsStream.InStreamWss.FlushRounds` | crates/in_stream/src/ws.rs:400-424 | from no state and no queue no number of rounds reaches an outcome or changes anything; from any other state more rounds than replies always do |
| `WsStream.InStreamWss.Flush` | crates/in_stream/src/ws.rs:400-424 | with finitely many replies from the socket, never returns if and only if the handshake had failed and the queue is empty; otherwise ends in success with everything written or in an error |
| `WsStream.InStreamWss.StaysBlocked` | crates/in_stream/src/ws.rs:400-424 | for however many rounds the socket cannot send what it holds, the flush loop gets no further |
| `WsStream.FlushCanSpin` | crates/in_stream/src/ws.rs:400-424 | a run: an interrupted and then a refused handshake, and a flush that never returns |
| `MemStream.InStreamMem.Write` | crates/in_stream/src/mem.rs:184-195 | succeeds exactly while both ends live, as one message |
| `MemStream.InStreamMem.DrainChannel` | crates/in_stream/src/mem.rs:147-163 | moves at most a hundred messages, in order, and notices a channel that has ended |
| `MemStream.InStreamMem.Read` | crates/in_stream/src/mem.rs:146-182 | the exact bytes returned, kept in the buffer and left in the channel; end of file exactly when nothing is left and the writer is gone |
| `MemStream.InStreamMem.Shutdown` | crates/in_stream/src/mem.rs:223-237 | closes the chosen directions and keeps the stream invariant |
| `MemStream.CreateMemStreamPair` | crates/in_stream/src/mem.rs:259-266 | two fresh ends joined crosswise, open both ways, with empty channels and buffers |
| `MemStream.AnyStep` | crates/in_stream/src/mem.rs:146-237 | whatever either end does, in any order, the two stay a pair |
| `MemStream.PairConservation` | crates/in_stream/src/mem.rs:146-237 | until the reader shuts down reading, bytes written are bytes returned, then buffered, then in the channel |
| `MemStream.ReadPair` | crates/in_stream/src/mem.rs:146-182 | a read with room returns nothing if and only if the writer is gone, everything was delivered and fewer than a hundred messages are queued; after would-block something is undelivered if and only if data lies behind a hundred empty messages |
| `MemStream.EmptyMessagesHideAByte` | crates/in_stream/src/trait.rs:80 | a run in which a read would block although a written byte is pending |
| `MemRegistry.MemManager.UrlsAreDistinct` | crates/in_stream/src/mem.rs:283-325 | no two live listeners share a URL |
| `MemRegistry.MemManager.NeverDisconnected` | crates/in_stream/src/mem.rs:64-88 | the sender of every live listener stays registered, so its channel is never disconnected |
| `MemRegistry.MemManager.Bind` | crates/in_stream/src/mem.rs:283-320 | succeeds exactly for a valid URL not yet bound, and otherwise changes nothing |
| `MemRegistry.MemManager.Drop` | crates/in_stream/src/mem.rs:46-50 | removes the listener and its URL, and nothing else |
| `MemRegistry.MemManager.Connect` | crates/in_stream/src/mem.rs:328-353 | succeeds exactly for a bound URL, and queues one connection for its listener |
| `MemRegistry.MemManager.Drain` | crates/in_stream/src/mem.rs:65-80 | the draining loop ends with an empty channel |
| `MemRegistry.MemManager.Accept` | crates/in_stream/src/mem.rs:64-88 | hands out the connections in the order they were made, each exactly once, and would-block otherwise |
| `TopoSort.NoSourceMeansCyclic` | crates/conductor_lib/src/config.rs:585-593 | a non-empty set of nodes without a source contains a cycle |
| `TopoSort.OrderMeansAcyclic` | crates/conductor_lib/src/config.rs:585-593 | a topological order rules out cycles |
| `TopoSort.Sort` | crates/conductor_lib/src/config.rs:585-593 | sorts every acyclic graph and fails on every cyclic one |
| `BridgeOrder.SameCycles` | crates/conductor_lib/src/config.rs:550-588 | the graph over positions has a cycle if and only if the bridges between ids do |
| `BridgeOrder.InstanceIdsSortedByBridgeDependencies` | crates/conductor_lib/src/config.rs:547-605 | a permutation of all ids, callees before callers; fails exactly on a missing endpoint or a cycle, and panics exactly when otherwise an id is repeated |
| `BridgeOrder.OrderingCanPanic` | crates/conductor_lib/src/config.rs:599-604 | a repeated id makes the ordering panic |
| `ConfigCheck.DetectDupes` | crates/conductor_lib/src/config.rs:215-235 | passes exactly distinct ids and lists the repeated ones |
| `ConfigCheck.CheckInstancesStorage` | crates/conductor_lib/src/config.rs:643-670 | passes exactly distinct storage paths |
| `ConfigCheck.CheckRequiredBridges` | crates/conductor_lib/src/config.rs:271-287 | passes exactly when some configured bridge bears the handle of every required one |
| `ConfigCheck.CheckInstances` | crates/conductor_lib/src/config.rs:252-288 | passes exactly when every agent and DNA resolves and loads with its required bridges |
| `ConfigCheck.CheckInterfaces` | crates/conductor_lib/src/config.rs:290-299 | passes exactly when interfaces mention existing instances |
| `ConfigCheck.CheckUis` | crates/conductor_lib/src/config.rs:305-325 | passes exactly when UI interfaces mention existing bundles and interfaces |
| `ConfigCheck.FindBridgeDef` | crates/conductor_lib/src/config.rs:418-425 | the last definition with the handle over all zomes |
| `ConfigCheck.TraitFound` | crates/conductor_lib/src/config.rs:448-474 | found exactly when one single zome exports all functions of the trait with the signatures expected |
| `ConfigCheck.CheckBridgeRequirements` | crates/conductor_lib/src/config.rs:352-489 | passes exactly when both ends run loadable DNAs, the caller defines the bridge and the callee is what the definition asks for |
| `ConfigCheck.CheckConsistency` | crates/conductor_lib/src/config.rs:243-350 | passes exactly the consistent configurations: distinct ids and paths, all references resolved, bridges met and acyclic |
| `RequiredBridges.OwnBridgeWhenAlone` | crates/conductor_lib/src/config.rs:271-287 | in a consistent configuration an instance has its own bridge for a required handle if no other instance runs a DNA that defines that handle |
| `RequiredBridges.DroppingOwnBridgesIff` | crates/conductor_lib/src/config.rs:271-287 | dropping an instance's own bridges with a handle goes unnoticed if and only if no instance requires the handle or another instance has a bridge with it |
| `RequiredBridges.RequiredBridgeCanBeMissing` | crates/conductor_lib/src/config.rs:271-287 | a consistent configuration in which an instance lacks a bridge its DNA requires |
| `InstanceRemoval.LookupWithout` | crates/conductor_lib/src/config.rs:617-638 | after the removal only the removed instance is missing |
| `InstanceRemoval.BridgeStillMet` | crates/conductor_lib/src/config.rs:617-638 | a met bridge stays met if and only if it does not touch the removed instance |
| `InstanceRemoval.InterfacesStillResolve` | crates/conductor_lib/src/config.rs:624-635 | no interface keeps a reference to the removed instance |
| `InstanceRemoval.RemovalKeepsConsistencyIff` | crates/conductor_lib/src/config.rs:615-638 | removing an instance keeps consistency if and only if no bridge and no dpki entry mentions it |
| `InstanceRemoval.RemovalCanBreak` | crates/conductor_lib/src/config.rs:615-638 | counterexample to the documented guarantee: a consistent configuration made inconsistent by a removal |
| `HappBundle.IdReferencesAreConsistent` | crates/conductor_lib/src/happ_bundle.rs:44-70 | passes exactly when bridges and UIs mention existing instances |
| `HappBundle.OnlyFileUris` | crates/conductor_lib/src/happ_bundle.rs:72-92 | passes exactly the supported URIs |
| `HappBundle.GetFreePort` | crates/conductor_lib/src/port_utils.rs:30-37 | the first free port of a range, or none when none is free |
| `HappBundle.NextPorts` | crates/conductor_lib/src/happ_bundle.rs:141-167 | the two ports for the next UI are the first free ones after those chosen before, or one of the searches found none |
| `HappBundle.BuildUis` | crates/conductor_lib/src/happ_bundle.rs:140-176 | an interface, bundle and UI interface for each UI, on ports chosen greedily, for any free-port oracle; failure only when a search found none |
| `HappBundle.BuildConductorConfig` | crates/conductor_lib/src/happ_bundle.rs:94-190 | the whole configuration, or exactly which of the three failures |
| `HappBundle.PortsAreDistinct` | crates/conductor_lib/src/happ_bundle.rs:140-176 | all interface and UI ports of a built configuration are pairwise distinct |
| `HappBundle.BuiltReferencesResolve` | crates/conductor_lib/src/happ_bundle.rs:105-190 | every agent, DNA, instance, interface, UI and bridge end mentioned in a built configuration exists |
| `HappBundle.SharedStorageIsDistinctIff` | crates/conductor_lib/src/happ_bundle.rs:120-129 | the one storage given to all instances has distinct paths if and only if it is memory or there is at most one instance |
| `HappBundle.BuiltConsistentIff` | crates/conductor_lib/src/happ_bundle.rs:94-190 | the built configuration passes the consistency check if and only if ids are distinct, storage is not shared, DNAs load with their required bridges, and bridges are met and acyclic |
| `HappBundle.BuiltCanBeInconsistent` | crates/conductor_lib/src/happ_bundle.rs:94-190 | two instances with file storage build a configuration that is inconsistent whatever the DNA files |
| `ConsistencyModel.LatestIsOutstanding` | crates/core/src/consistency.rs:112-162 | the commit cached for an address is the latest one neither superseded nor published |
| `ConsistencyModel.PublishEmitsOutstanding` | crates/core/src/consistency.rs:152-162 | over any history a publish emits the signal of the outstanding commit of its address, nothing if there is none, and nothing twice |
| `ConsistencyModel.Model.Remember` | crates/core/src/consistency.rs:112-162 | the cache holds exactly the outstanding commits of the history |
| `ConsistencyModel.Model.ProcessAction` | crates/core/src/consistency.rs:108-230 | each action emits what its history demands, computed from the cache alone |
| `ConsistencyModel.PendingMatchesEffects` | crates/core/src/network/reducers/publish.rs:142-184 | what a commit announces as pending equals what validators emit once they hold the aspects published with its header, if and only if the publisher knows the entry type |
| `ConsistencyModel.LastCommit` | crates/core/src/agent/mod.rs:12-18 | the header found on the chain for an address is that of its last commit |
| `ConsistencyModel.PublishMatchesEffects` | crates/core/src/network/reducers/publish.rs:142-184 | over any history, what a publish announces equals what the aspects it sends, with the header found on the chain, will cause, if and only if the publisher knows the type and no later uncached commit changed the link |
| `ConsistencyModel.InstancePublishMatchesEffects` | crates/core/src/instance.rs:463-488 | for every instance the code builds, whose model never sees a state, a publish announces exactly the effects of what it sends if and only if the publisher knows the entry type |
| `ConsistencyModel.WaitsForever` | crates/core/src/entry/mod.rs:12-43 | which commits are cached and announced although nothing is sent: three types always, and without a state the three private types too, which only the publishing test of the authoring workflow keeps out |
| `ConsistencyModel.CallMatchesReturn` | crates/core/src/consistency.rs:199-209 | a zome function call waits for the event of a result if and only if ids and displayed names agree |
| `ActionLoop.Loop.Dispatch` | crates/core/src/instance.rs:169-171 | actions join the channel in order |
| `ActionLoop.Loop.ProcessAction` | crates/core/src/instance.rs:284-336 | the state is reduced exactly when the lock is obtained; otherwise the write flag stays up |
| `ActionLoop.Loop.EmitSignals` | crates/core/src/instance.rs:434-461 | one trace, and the consistency signal if any, per action, when signals are on |
| `ActionLoop.Loop.TakeNext` | crates/core/src/instance.rs:224 | the retained action before the oldest in the channel, and none lost |
| `ActionLoop.Loop.Announce` | crates/core/src/instance.rs:245-254 | after an action is applied, signals, observers and wakers are served once |
| `ActionLoop.Loop.Iterate` | crates/core/src/instance.rs:224-267 | one turn keeps the loop invariant: applied, then retained, then queued actions are the dispatched ones, and the write flag is up exactly while one is retained |
| `ActionLoop.Loop.Run` | crates/core/src/instance.rs:223-268 | every run keeps the invariant, and catches up given enough turns with the lock |
| `ActionLoop.RefinesFold` | crates/core/src/instance.rs:219-336 | under any pattern of lock timeouts the applied actions are a prefix of the dispatched ones, pings aside, and the state is their fold |
| `KeyBlobs.FillBuffer` | crates/dpki/src/key_blob.rs:176-228 | writing fields at a running offset gives the specified layout |
| `KeyBlobs.FieldReadsBack` | crates/dpki/src/key_blob.rs:176-268 | every field is found where it was put, whatever follows it |
| `KeyBlobs.MakeBlob` | crates/dpki/src/key_blob.rs:296-337 | blobs a secret through its buffer |
| `KeyBlobs.SigningRoundTripIff` | crates/dpki/src/key_blob.rs:296-367 | a signing key survives blobbing if and only if it is a proper one |
| `KeyBlobs.EncryptingRoundTripIff` | crates/dpki/src/key_blob.rs:395-466 | an encrypting key survives blobbing if and only if it is a proper one |
| `KeyBlobs.SecretRoundTripIff` | crates/dpki/src/key_blob.rs:100-466 | any secret survives blobbing under one passphrase if and only if it is storable |
| `KeyBlobs.BundleRoundTripIff` | crates/dpki/src/key_blob.rs:163-268 | a key bundle survives blobbing if and only if both of its key pairs are proper |
| `KeyBlobs.WrongPassphraseFails` | crates/dpki/src/key_blob.rs:80-98 | another passphrase never reads a storable secret back |
| `Keystores.CheckIsExact` | crates/conductor_lib/src/keystore.rs:172-185 | the passphrase check accepts the keystore's passphrase and no other |
| `Keystores.Keystore.constructor` | crates/conductor_lib/src/keystore.rs:121-138 | a new keystore is empty and in agreement |
| `Keystores.Keystore.FromFile` | crates/conductor_lib/src/keystore.rs:155-167 | a loaded keystore has the stored secrets and nothing cached |
| `Keystores.Keystore.ChangePassphrase` | crates/conductor_lib/src/keystore.rs:187-197 | succeeds exactly with the old passphrase, but the secrets stay under it, so under a different new one none reads as before |
| `Keystores.Keystore.Encrypt` | crates/conductor_lib/src/keystore.rs:255-278 | encrypts with whatever passphrase is given: the result of the check does not matter |
| `Keystores.Keystore.AgreementAfterAdd` | crates/conductor_lib/src/keystore.rs:294-299 | adding keeps storage and cache in agreement if and only if the secret is storable and the passphrase is the keystore's |
| `Keystores.Keystore.Add` | crates/conductor_lib/src/keystore.rs:294-299 | ids are write-once and a failed add leaves the stored secrets alone; agreement is kept exactly as above |
| `Keystores.Keystore.Decrypt` | crates/conductor_lib/src/keystore.rs:231-251 | caches what the stored blob decrypts to |
| `Keystores.Keystore.Get` | crates/conductor_lib/src/keystore.rs:327-340 | in agreement, returns the stored secret if and only if it was cached or the right passphrase was given; a wrong one is not noticed |
| `Keystores.Keystore.AddSeedFromSeed` | crates/conductor_lib/src/keystore.rs:353-379 | adds the derived seed exactly when the source is a seed, the target new and the index non-zero, and keeps agreement |
| `Keystores.Keystore.AddKeyFromSeed` | crates/conductor_lib/src/keystore.rs:384-424 | adds the derived key exactly when the source is a seed and the target new, keeps agreement, and returns its public key |
| `Keystores.Keystore.AddKeybundleFromSeed` | crates/conductor_lib/src/keystore.rs:449-462 | adds both keys exactly when both targets are new; otherwise the first may stay behind |
| `Keystores.Keystore.GetKeybundle` | crates/conductor_lib/src/keystore.rs:486-513 | gets exactly the two stored keys of the bundle, when both are there and of the right kind |
| `Keystores.Reload` | crates/conductor_lib/src/keystore.rs:155-167 | saving and loading keeps the ids, the passphrase and everything that can be got |
| `Keystores.WrongPassphraseIsAccepted` | crates/conductor_lib/src/keystore.rs:255-278 | a run that adds a secret under a wrong passphrase and cannot read it back under the keystore's own |
| `Keystores.ChangeLosesSecret` | crates/conductor_lib/src/keystore.rs:187-197 | a run in which a change of passphrase loses a secret |
| `Keystores.HalfAKeybundle` | crates/conductor_lib/src/keystore.rs:449-462 | a run in which a refused keybundle leaves one key behind |
| `Bip39.NumOfBits` | crates/dpki/src/seed.rs:356-364 | a number below a power of two is recovered from its bits |
| `Bip39.EncodeSize` | crates/dpki/src/seed.rs:356-364 | the word numbers of any valid entropy have the right count and range and spread to the entropy with its checksum |
| `Bip39.DecodeEncode` | crates/dpki/src/seed.rs:313-364 | word numbers of any valid entropy decode to it |
| `Bip39.EncodeDecode` | crates/dpki/src/seed.rs:313-328 | nothing but an encoding decodes: the checksum and the count leave no other way |
| `Bip39.PhrasesAreEntropy` | crates/dpki/src/seed.rs:124-152 | valid phrases and entropy of a valid size correspond one to one |
| `SeedMnemonic.SeedRoundTrip` | crates/dpki/src/seed.rs:124-152 | a phrase reads as a seed if and only if the seed writes that phrase and has 32 bytes |
| `SeedMnemonic.MnemonicOfHalves` | crates/dpki/src/seed.rs:344-367 | the mnemonic of 64 bytes is the words of its two halves in one line |
| `SeedMnemonic.ReadHalves` | crates/dpki/src/seed.rs:313-339 | two phrases in one line are split, re-chunked and read as the two halves |
| `SeedMnemonic.MnemonicRoundTripIff` | crates/dpki/src/seed.rs:312-367 | writing works exactly for 64 bytes, and reading gives the seed back if and only if its cipher has 48 bytes and its nonce is zero |
| `SeedMnemonic.FortyEightWords` | crates/dpki/src/seed.rs:313-329 | only lines of 48 words are ever read |
| `SeedMnemonic.ReadIsWritten` | crates/dpki/src/seed.rs:312-367 | every line that is read is the mnemonic of the seed it gives, with a zero nonce |
| `SeedMnemonic.EncryptedSeedSurvives` | crates/dpki/src/seed.rs:60-69 | every seed encrypted under any passphrase and salt survives its mnemonic |

## Left out

- TcpStream.InStreamTcp.Flush: the replies of one call are finite; that the loop spins on a socket blocking for ever is stated for every number of rounds by StaysBlocked instead.
- TlsStream.InStreamTls.Flush: likewise.
- WsStream.InStreamWss.Flush: likewise.
- WsStream.InStreamWss.StaysBlocked: only without a pong limit, because with one the rounds also read the clock and ping.
- Periods.AcceptedValueIsExact: arithmetic that overflows is a panic; wrapping in release builds is not modelled, because it depends on the build profile.
- ConsistencyModel.PublishMatchesEffects: a commit whose header cannot be signed, and so never reaches the chain, is not modelled, because signing is outside.
- Keystores.Keystore.Get: returns a copy; that callers share one locked secret with the cache is not modelled.
- Keystores.Keystore.Add: a failed add leaves the secret in the cache under its id, as the code does; since the id is not stored, neither listing nor getting sees it.
- TopoSort.Sort: which of several topological orders petgraph returns is not modelled.
- PingTimeline.PingsAreSpaced: elapsed milliseconds are unbounded; their truncation to 64 bits is not modelled.
- `Iso8601` timestamps, which rest on chrono.
- Sockets, native_tls and tungstenite themselves, stream listeners other than the memory one, remote URLs, URL parsing and random URLs.
- The holding loop, the reducers, `DhtStore` and the network beyond the aspects published for an entry.
- Signing, encrypting, key derivation, HCID, base64, JSON and file formats, which are symbolic; the exact nonce size, which is a parameter.
- The hint and the seed type kept beside a blob, decrypting an encrypted seed, device pins, and the `Arc<Mutex>` sharing of secrets.
- The check for a Unix-socket passphrase service on other systems, and the texts of error messages.
- JSON-RPC handlers, the command line, conductor start and stop, logging, the HDK and its macros.

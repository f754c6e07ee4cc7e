/** The WebSocket stream: frames queued during the handshake, pings and pongs that skip the
    queue, and two clocks. */
module WsStream {
  import opened Wrappers
  import opened Bytes
  import BF = BufferedFifo
  import opened PingTimeline

  type IoError = BF.IoError

  datatype Frame =
    | Text(text: string)
    | Binary(bytes: seq<Byte>)
    | PingFrame(bytes: seq<Byte>)
    | PongFrame(bytes: seq<Byte>)
    | Close(code: nat, reason: string)

  /** What has been handed to the socket, and on whose behalf. */
  datatype Sent = User(frame: Frame) | AutoPing | AutoPong

  type Handshake = BF.Handshake

  datatype Reply = Reply(
    handshake: Handshake,
    write: Result<(), IoError>,
    read: Result<Frame, IoError>,
    pending: Result<(), IoError>,
    tick: nat)

  const GONE: Reply := Reply(BF.Refused, Err(BF.Other(0)), Err(BF.Other(0)), Err(BF.Other(0)), 0)

  /** How the next handshake attempt will turn out. */
  function NextHandshake(script: seq<Reply>): Handshake {
    if script == [] then GONE.handshake else script[0].handshake
  }

  /** The error of a call that failed for good. */
  function Hard<T>(r: Result<T, IoError>): seq<IoError> {
    if r.Err? && r.error != BF.WouldBlock then [r.error] else []
  }

  /** Whose fault an error is: a stream that has lost its state was refused or never connected;
      any other error is that of the socket, passed on once, or the silence of the peer. */
  ghost predicate Blamed(before: seq<IoError>, e: Option<IoError>, after: seq<IoError>, hasState: bool) {
    if hasState && e != Some(BF.NoMessages) then
      after == before + (if e.Some? && e != Some(BF.WouldBlock) then [e.value] else [])
    else
      after == before && (e.Some? ==> e.value in {BF.NotConnected, BF.ConnectionRefused, BF.NoMessages})
  }

  function ErrorOf<T>(r: Result<T, IoError>): Option<IoError> {
    if r.Err? then Some(r.error) else None
  }

  /** The socket below, an adversary with a finite script; once the script is used up the
      handshake is refused and everything fails.  Its clock never runs backwards. */
  class Socket {
    var script: seq<Reply>
    var wire: seq<Sent>
    var clock: nat

    ghost var connected: bool        // past the handshake
    ghost var incoming: seq<Frame>   // every frame handed up so far
    ghost var faults: seq<IoError>   // every error other than a would-block
    ghost var settled: bool          // nothing pending since the last message

    constructor (script: seq<Reply>)
      ensures wire == [] && this.script == script && !connected && incoming == [] && faults == []
    {
      this.script := script;
      wire := [];
      clock := 0;
      connected, incoming, faults, settled := false, [], [], false;
    }

    method Next() returns (r: Reply)
      modifies this`script
      ensures |script| < |old(script)| || (script == [] && r == GONE)
      ensures |script| <= |old(script)|
      ensures r == if old(script) == [] then GONE else old(script)[0]
      ensures old(script) != [] ==> script == old(script)[1..]
    {
      if script == [] {
        r := GONE;
      } else {
        r := script[0];
        script := script[1..];
      }
    }

    method DoHandshake() returns (r: Handshake)
      modifies this`script, this`connected
      ensures |script| < |old(script)| || (script == [] && r == BF.Refused)
      ensures |script| <= |old(script)|
      ensures connected == (old(connected) || r == BF.Complete)
      ensures r == NextHandshake(old(script))
      ensures old(script) != [] ==> script == old(script)[1..]
    {
      var reply := Next();
      r := reply.handshake;
      connected := connected || r == BF.Complete;
    }

    /** A would-block means that the socket has queued the frame itself. */
    method WriteMessage(s: Sent) returns (r: Result<(), IoError>)
      requires connected
      modifies this`script, this`wire, this`faults, this`settled
      ensures wire == if r.Ok? || r.error == BF.WouldBlock then old(wire) + [s] else old(wire)
      ensures faults == old(faults) + Hard(r)
      ensures r != Err(BF.NoMessages)
      ensures |script| <= |old(script)|
      ensures old(script) == [] ==> r == GONE.write
    {
      var reply := Next();
      r := if reply.write == Err(BF.NoMessages) then GONE.write else reply.write;
      if r.Ok? || r.error == BF.WouldBlock { wire := wire + [s]; }
      settled := false;
      faults := faults + Hard(r);
    }

    method WritePending() returns (r: Result<(), IoError>)
      requires connected
      modifies this`script, this`faults, this`settled
      ensures faults == old(faults) + Hard(r) && settled == r.Ok? && r != Err(BF.NoMessages)
      ensures |script| < |old(script)| || r == Err(BF.Other(0))
      ensures old(script) != [] && old(script)[0].pending == Err(BF.WouldBlock) ==>
                r == Err(BF.WouldBlock) && script == old(script)[1..]
      ensures |script| <= |old(script)|
    {
      var reply := Next();
      r := if reply.pending == Err(BF.NoMessages) then GONE.pending else reply.pending;
      settled := r.Ok?;
      faults := faults + Hard(r);
    }

    method ReadMessage() returns (r: Result<Frame, IoError>)
      requires connected
      modifies this`script, this`incoming, this`faults
      ensures faults == old(faults) + Hard(r)
      ensures incoming == old(incoming) + (if r.Ok? then [r.value] else [])
      ensures r != Err(BF.NoMessages)
      ensures |script| <= |old(script)|
    {
      var reply := Next();
      r := if reply.read == Err(BF.NoMessages) then GONE.read else reply.read;
      if r.Ok? { incoming := incoming + [r.value]; }
      faults := faults + Hard(r);
    }

    method Now() returns (t: nat)
      modifies this`script, this`clock
      ensures t == clock >= old(clock)
      ensures |script| <= |old(script)|
    {
      var reply := Next();
      clock := clock + reply.tick;
      t := clock;
    }
  }

  datatype WssState = MidHandshake | Established

  /** The state a handshake attempt leaves: none at all when it is refused. */
  function AfterHandshake(h: Handshake): Option<WssState> {
    match h
    case Complete => Some(Established)
    case Interrupted => Some(MidHandshake)
    case Refused => None
  }

  /** A frame taken off the queue, and whether the socket took it. */
  datatype Fate = Fate(frame: Frame, delivered: bool)

  function Frames(fates: seq<Fate>): (fs: seq<Frame>)
    ensures |fs| == |fates|
  {
    if fates == [] then [] else Frames(fates[..|fates| - 1]) + [fates[|fates| - 1].frame]
  }

  function Delivered(fates: seq<Fate>): seq<Frame> {
    if fates == [] then [] else
      var f := fates[|fates| - 1];
      Delivered(fates[..|fates| - 1]) + (if f.delivered then [f.frame] else [])
  }

  function Drops(fates: seq<Fate>): nat {
    if fates == [] then 0 else
      Drops(fates[..|fates| - 1]) + (if fates[|fates| - 1].delivered then 0 else 1)
  }

  /** The user's frames on the wire, without pings and pongs. */
  function UserFrames(wire: seq<Sent>): seq<Frame> {
    if wire == [] then [] else
      var s := wire[|wire| - 1];
      UserFrames(wire[..|wire| - 1]) + (if s.User? then [s.frame] else [])
  }

  function AutoPings(wire: seq<Sent>): nat {
    if wire == [] then 0 else
      AutoPings(wire[..|wire| - 1]) + (if wire[|wire| - 1].AutoPing? then 1 else 0)
  }

  function LoggedPings(log: seq<Event>): nat {
    if log == [] then 0 else
      LoggedPings(log[..|log| - 1]) + (if log[|log| - 1].Ping? then 1 else 0)
  }

  lemma {:induction false} NoDropDeliversAll(fates: seq<Fate>)
    requires Drops(fates) == 0
    ensures Delivered(fates) == Frames(fates)
  {
    if fates != [] { NoDropDeliversAll(fates[..|fates| - 1]); }
  }

  // ----- frames accepted and frames lost -----

  /** Those of some frames whose writes were reported successful. */
  function Acked(frames: seq<Frame>, acks: seq<bool>): seq<Frame>
    requires |frames| == |acks|
  {
    if frames == [] then [] else
      var n := |frames| - 1;
      Acked(frames[..n], acks[..n]) + (if acks[n] then [frames[n]] else [])
  }

  /** The accepted frames among those the socket took. */
  function OnWire(fates: seq<Fate>, acks: seq<bool>): seq<Frame>
    requires |fates| == |acks|
  {
    if fates == [] then [] else
      var n := |fates| - 1;
      OnWire(fates[..n], acks[..n]) + (if fates[n].delivered && acks[n] then [fates[n].frame] else [])
  }

  ghost predicate LostAccepted(fates: seq<Fate>, acks: seq<bool>) {
    exists i | 0 <= i < |fates| && i < |acks| :: !fates[i].delivered && acks[i]
  }

  lemma {:induction false} AckedAppend(a: seq<Frame>, x: seq<bool>, b: seq<Frame>, y: seq<bool>)
    requires |a| == |x| && |b| == |y|
    ensures Acked(a + b, x + y) == Acked(a, x) + Acked(b, y)
    decreases |b|
  {
    if b == [] {
      assert a + b == a && x + y == x;
    } else {
      var n := |b| - 1;
      AckedAppend(a, x, b[..n], y[..n]);
      assert (a + b)[..|a + b| - 1] == a + b[..n] && (x + y)[..|a + b| - 1] == x + y[..n];
    }
  }

  lemma AckedSnoc(frames: seq<Frame>, acks: seq<bool>, frame: Frame, ack: bool)
    requires |frames| == |acks|
    ensures Acked(frames + [frame], acks + [ack]) == Acked(frames, acks) + (if ack then [frame] else [])
  {
    assert (frames + [frame])[..|frames|] == frames && (acks + [ack])[..|frames|] == acks;
  }

  lemma LostAcceptedFront(fates: seq<Fate>, acks: seq<bool>)
    requires |fates| == |acks| && fates != []
    ensures var n := |fates| - 1;
            LostAccepted(fates, acks) <==> LostAccepted(fates[..n], acks[..n]) || (!fates[n].delivered && acks[n])
  {
    var n := |fates| - 1;
    if i :| 0 <= i < n && !fates[i].delivered && acks[i] {
      assert !fates[..n][i].delivered && acks[..n][i];
    }
    if i :| 0 <= i < n && !fates[..n][i].delivered && acks[..n][i] {
      assert !fates[i].delivered && acks[i];
    }
  }

  lemma {:induction false} OnWireCompared(fates: seq<Fate>, acks: seq<bool>)
    requires |fates| == |acks|
    ensures |OnWire(fates, acks)| <= |Acked(Frames(fates), acks)|
    ensures |OnWire(fates, acks)| == |Acked(Frames(fates), acks)| <==> !LostAccepted(fates, acks)
    ensures !LostAccepted(fates, acks) ==> OnWire(fates, acks) == Acked(Frames(fates), acks)
  {
    if fates != [] {
      var n := |fates| - 1;
      OnWireCompared(fates[..n], acks[..n]);
      LostAcceptedFront(fates, acks);
      hide LostAccepted;
      assert Frames(fates)[..n] == Frames(fates[..n]);
    }
  }

  /** What a call adds to the fates: all frames taken off the queue were delivered, except the last
      if the call failed. */
  ghost predicate Grown(before: seq<Fate>, after: seq<Fate>, failed: bool) {
    && before <= after
    && forall i | |before| <= i < |after| :: after[i].delivered || (i == |after| - 1 && failed)
  }

  lemma GrownAnyway(before: seq<Fate>, after: seq<Fate>, failed: bool)
    requires Grown(before, after, false)
    ensures Grown(before, after, failed)
  {
  }

  lemma GrownSnoc(before: seq<Fate>, after: seq<Fate>, f: Fate)
    requires Grown(before, after, false)
    ensures Grown(before, after + [f], !f.delivered)
  {
  }

  lemma GrownTwice(a: seq<Fate>, b: seq<Fate>, c: seq<Fate>, failed: bool)
    requires Grown(a, b, false) && Grown(b, c, failed)
    ensures Grown(a, c, failed)
  {
    forall i | |a| <= i < |c|
      ensures c[i].delivered || (i == |c| - 1 && failed)
    {
      if i < |b| { assert c[i] == b[i]; }
    }
  }

  /** A call loses an accepted frame: the last one it took off the queue was not delivered, and had
      been accepted before. */
  ghost predicate LostNow(before: seq<Fate>, after: seq<Fate>, acks: seq<bool>) {
    |before| < |after| <= |acks| && !after[|after| - 1].delivered && acks[|after| - 1]
  }

  /** Exactly the calls that `LostNow` picks out lose accepted frames. */
  ghost predicate LossesExact(before: seq<Fate>, acks: seq<bool>, after: seq<Fate>, acks': seq<bool>) {
    LostAccepted(after, acks') <==> LostAccepted(before, acks) || LostNow(before, after, acks)
  }

  lemma LossesAreExact(before: seq<Fate>, acks: seq<bool>, after: seq<Fate>, acks': seq<bool>, failed: bool)
    requires Grown(before, after, failed) && |before| <= |acks| && acks <= acks'
    requires forall i | |acks| <= i < |acks'| && i < |after| :: acks'[i] ==> after[i].delivered
    ensures LossesExact(before, acks, after, acks')
  {
    if i :| 0 <= i < |after| && i < |acks'| && !after[i].delivered && acks'[i] {
      assert i < |acks| && acks'[i] == acks[i];
      if i < |before| { assert before[i] == after[i]; }
    }
    if i :| 0 <= i < |before| && i < |acks| && !before[i].delivered && acks[i] {
      assert after[i] == before[i] && acks'[i] == acks[i];
    }
    if LostNow(before, after, acks) {
      var n := |after| - 1;
      assert acks'[n] == acks[n];
    }
  }

  /** Without a failure every frame taken off the queue in a call is delivered. */
  lemma NewFrameIsKept(before: seq<Fate>, after: seq<Fate>, failed: bool, acks: seq<bool>)
    requires Grown(before, after, failed) && |before| <= |acks|
    ensures !failed ==> forall i | |acks| <= i < |after| :: after[i].delivered
  {
  }

  lemma FatesSnoc(fs: seq<Fate>, f: Fate)
    ensures Frames(fs + [f]) == Frames(fs) + [f.frame]
    ensures Delivered(fs + [f]) == Delivered(fs) + (if f.delivered then [f.frame] else [])
    ensures Drops(fs + [f]) == Drops(fs) + (if f.delivered then 0 else 1)
  {
    assert (fs + [f])[..|fs|] == fs;
  }

  lemma WireSnoc(wire: seq<Sent>, s: Sent)
    ensures UserFrames(wire + [s]) == UserFrames(wire) + (if s.User? then [s.frame] else [])
    ensures AutoPings(wire + [s]) == AutoPings(wire) + (if s.AutoPing? then 1 else 0)
  {
    assert (wire + [s])[..|wire|] == wire;
  }

  lemma LogSnoc(log: seq<Event>, e: Event)
    ensures LoggedPings(log + [e]) == LoggedPings(log) + (if e.Ping? then 1 else 0)
    ensures Begun(log) && !e.Opened? ==> LastPing(log + [e]) == if e.Ping? then e.stamped else LastPing(log)
    ensures Begun(log) && !e.Opened? ==> LastHeard(log + [e]) == if e.Heard? then e.at else LastHeard(log)
  {
    assert (log + [e])[..|log|] == log;
  }

  /** `Spins` stands for a call that never returns. */
  datatype Flushing = Flushed | FlushFailed(error: IoError) | Spins

  /** The error of a flush, or of a round of one. */
  function Outcome(f: Option<Flushing>): Option<IoError> {
    if f.Some? && f.value.FlushFailed? then Some(f.value.error) else None
  }

  lemma NoOutcome(f: Option<Flushing>)
    ensures f.None? ==> Outcome(f).None?
  {
  }

  /** Without an outcome nobody is to blame. */
  lemma NotBlamed(before: seq<IoError>, f: Option<Flushing>, after: seq<IoError>, hasState: bool)
    requires Blamed(before, Outcome(f), after, hasState)
    ensures f.None? ==> after == before
  {
  }

  class InStreamWss {
    const sock: Socket
    const disconnectOnSlowPongMs: Option<nat>
    var state: Option<WssState>
    var writeBuf: seq<Frame>
    var lastPing: nat
    var lastPong: nat

    ghost var pushed: seq<Frame>    // every frame ever queued
    ghost var accepted: seq<Frame>  // every frame whose write was reported successful
    ghost var acks: seq<bool>       // which of the frames queued are accepted
    ghost var fates: seq<Fate>      // every frame taken off the queue
    ghost var errors: nat           // calls that failed for good, not merely would block
    ghost var log: seq<Event>       // clock readings since the handshake

    /** The frames taken off the queue followed by the queue are the frames pushed, in order, and
        those the socket took are the user frames on the wire. */
    ghost predicate QueueOk()
      reads this`fates, this`writeBuf, this`pushed, this`state, sock`wire, sock`connected
    {
      && (state == Some(Established) <==> sock.connected)
      && Frames(fates) + writeBuf == pushed
      && UserFrames(sock.wire) == Delivered(fates)
      && (state != Some(Established) ==> sock.wire == [])
    }

    /** The log is well timed, up to date, and has every automatic ping. */
    ghost predicate ClocksOk()
      reads this`log, this`state, this`lastPing, this`lastPong, sock`wire, sock`clock
    {
      && WellTimed(log, disconnectOnSlowPongMs)
      && AutoPings(sock.wire) == LoggedPings(log)
      && (state != Some(Established) ==> log == [])
      && (state == Some(Established) ==>
            && Begun(log) && log[|log| - 1].End() <= sock.clock
            && lastPing == LastPing(log) && lastPong == LastHeard(log))
    }

    /** Each failed call dropped at most one frame; before the first failure every frame pushed
        was accepted, and an established stream has no queue. */
    ghost predicate Valid()
      reads this, sock
    {
      && QueueOk() && ClocksOk()
      && |acks| == |pushed| && accepted == Acked(pushed, acks)
      && Drops(fates) <= errors
      && (errors == 0 ==> pushed == accepted)
      && (errors == 0 && state == Some(Established) ==> writeBuf == [])
    }

    /** Until a call fails for good, the user's frames on the wire followed by the queue are
        exactly the frames accepted, in order. */
    lemma Conservation()
      requires Valid() && errors == 0
      ensures UserFrames(sock.wire) + writeBuf == accepted
      ensures state == Some(Established) ==> UserFrames(sock.wire) == accepted
    {
      NoDropDeliversAll(fates);
    }

    /** About to complete the handshake, with a queue, over a socket that will fail then. */
    ghost predicate Completing()
      reads this`state, this`writeBuf, sock`script
    {
      state == Some(MidHandshake) && writeBuf != [] && |sock.script| == 1 && NextHandshake(sock.script) == BF.Complete
    }

    lemma FatesFit()
      requires QueueOk() && |acks| == |pushed|
      ensures |fates| + |writeBuf| == |acks|
    {
    }

    /** Through errors of any kind, the accepted frames on the wire followed by those in the queue
        are all the accepted frames if and only if none was taken off the queue in vain. */
    lemma AcceptedKeptIff()
      requires Valid()
      ensures |fates| + |writeBuf| == |acks|
      ensures OnWire(fates, acks[..|fates|]) + Acked(writeBuf, acks[|fates|..]) == accepted <==> !LostAccepted(fates, acks)
    {
      FatesFit();
      var n := |fates|;
      hide ClocksOk, Drops, UserFrames, Delivered;
      OnWireCompared(fates, acks[..n]);
      AckedAppend(Frames(fates), acks[..n], writeBuf, acks[n..]);
      assert acks == acks[..n] + acks[n..];
      assert LostAccepted(fates, acks[..n]) <==> LostAccepted(fates, acks) by {
        if i :| 0 <= i < n && !fates[i].delivered && acks[i] { assert acks[..n][i]; }
        if i :| 0 <= i < n && !fates[i].delivered && acks[..n][i] { assert acks[i]; }
      }
      hide LostAccepted;
    }

    /** A stream before its first handshake attempt. */
    constructor (sock: Socket, limit: Option<nat>)
      requires sock.wire == [] && !sock.connected
      ensures this.sock == sock && disconnectOnSlowPongMs == limit && Valid()
      ensures state.None? && writeBuf == [] && errors == 0 && accepted == [] && pushed == [] && fates == [] && acks == []
    {
      this.sock := sock;
      disconnectOnSlowPongMs := limit;
      state := None;
      writeBuf := [];
      lastPing := 0;
      lastPong := 0;
      pushed, acks := [], [];
      accepted := [];
      fates := [];
      errors := 0;
      log := [];
    }

    /** Makes the first handshake attempt; a stream whose attempt is refused is not handed out. */
    static method RawConnect(sock: Socket, limit: Option<nat>) returns (r: Result<InStreamWss, IoError>)
      requires sock.wire == [] && !sock.connected
      modifies sock
      ensures r.Ok? <==> NextHandshake(old(sock.script)) != BF.Refused
      ensures r.Err? ==> r.error == BF.ConnectionRefused
      ensures r.Ok? ==>
                && fresh(r.value) && r.value.sock == sock && r.value.disconnectOnSlowPongMs == limit && r.value.Valid()
                && r.value.state == AfterHandshake(NextHandshake(old(sock.script)))
                && r.value.errors == 0 && r.value.accepted == [] && r.value.writeBuf == [] && r.value.fates == [] && r.value.acks == []
      ensures old(sock.script) != [] && NextHandshake(old(sock.script)) != BF.Complete ==> sock.script == old(sock.script)[1..]
    {
      var out := new InStreamWss(sock, limit);
      var h := sock.DoHandshake();
      var p := out.PrivProcWssResult(h);
      if p.Err? && p.error != BF.WouldBlock { return Err(p.error); }
      return Ok(out);
    }

    /** Writes past the queue; a would-block counts as written. */
    method PrivWriteWssFrame(s: Sent) returns (r: Result<(), IoError>)
      requires sock.connected
      modifies sock`script, sock`wire, sock`faults, sock`settled
      ensures sock.faults == old(sock.faults) + Hard(r)
      ensures sock.wire == if r.Ok? then old(sock.wire) + [s] else old(sock.wire)
      ensures r != Err(BF.WouldBlock) && r != Err(BF.NoMessages)
      ensures |sock.script| <= |old(sock.script)|
      ensures old(sock.script) == [] ==> r.Err?
    {
      r := sock.WriteMessage(s);
      if r == Err(BF.WouldBlock) { r := Ok(()); }
    }

    /** Takes the first frame off the queue and writes it; if that fails, the frame is gone. */
    method PopAndWrite() returns (r: Result<(), IoError>)
      requires QueueOk() && state == Some(Established) && writeBuf != []
      modifies this`writeBuf, this`fates, sock`script, sock`wire, sock`faults, sock`settled
      ensures QueueOk() && writeBuf == old(writeBuf)[1..]
      ensures sock.faults == old(sock.faults) + Hard(r)
      ensures Drops(fates) == old(Drops(fates)) + (if r.Err? then 1 else 0)
      ensures AutoPings(sock.wire) == old(AutoPings(sock.wire))
      ensures |sock.script| <= |old(sock.script)|
      ensures r != Err(BF.WouldBlock) && r != Err(BF.NoMessages)
      ensures fates == old(fates) + [Fate(old(writeBuf)[0], r.Ok?)]
      ensures old(sock.script) == [] ==> r.Err?
    {
      hide Frames, Delivered, Drops, UserFrames, AutoPings;
      var frame := writeBuf[0];
      writeBuf := writeBuf[1..];
      r := PrivWriteWssFrame(User(frame));
      FatesSnoc(fates, Fate(frame, r.Ok?));
      WireSnoc(old(sock.wire), User(frame));
      assert old(writeBuf) == [frame] + writeBuf;
      fates := fates + [Fate(frame, r.Ok?)];
    }

    /** Hands the whole queue to an established socket, frame by frame until one fails. */
    method DrainQueue() returns (r: Result<(), IoError>)
      requires QueueOk() && ClocksOk() && state == Some(Established)
      modifies this`writeBuf, this`fates, sock`script, sock`wire, sock`faults, sock`settled
      ensures QueueOk() && ClocksOk()
      ensures Drops(fates) == old(Drops(fates)) + (if r.Err? then 1 else 0)
      ensures |sock.script| <= |old(sock.script)|
      ensures r.Ok? ==> writeBuf == []
      ensures r != Err(BF.WouldBlock) && r != Err(BF.NoMessages)
      ensures sock.faults == old(sock.faults) + Hard(r) && Grown(old(fates), fates, r.Err?)
      ensures old(writeBuf) != [] && old(sock.script) == [] ==>
                r.Err? && fates == old(fates) + [Fate(old(writeBuf)[0], false)]
    {
      assert Grown(fates, fates, false);
      hide Frames, Delivered, UserFrames, AutoPings, LoggedPings, LastPing, LastHeard, WellTimed, Begun, Drops, Grown;
      while writeBuf != []
        invariant QueueOk() && Drops(fates) == old(Drops(fates)) && AutoPings(sock.wire) == old(AutoPings(sock.wire))
        invariant |sock.script| <= |old(sock.script)|
        invariant sock.faults == old(sock.faults) && Grown(old(fates), fates, false)
        invariant old(sock.script) == [] ==> fates == old(fates) && writeBuf == old(writeBuf)
        decreases |writeBuf|
      {
        ghost var before := fates;
        r := PopAndWrite();
        GrownSnoc(old(fates), before, fates[|before|]);
        if r.Err? { return; }
      }
      return Ok(());
    }

    /** Sends what is queued, if there is a connection to send it on. */
    method PrivWritePending() returns (r: Result<(), IoError>)
      requires QueueOk() && ClocksOk()
      modifies this`writeBuf, this`fates, sock`script, sock`wire, sock`faults, sock`settled
      ensures QueueOk() && ClocksOk()
      ensures Drops(fates) <= old(Drops(fates)) + (if r.Err? then 1 else 0)
      ensures |sock.script| <= |old(sock.script)|
      ensures state == Some(Established) && r.Ok? ==> writeBuf == []
      ensures state == Some(MidHandshake) ==> r.Ok?
      ensures state.None? ==> r == if writeBuf == [] then Ok(()) else Err(BF.NotConnected)
      ensures r != Err(BF.WouldBlock) && r != Err(BF.NoMessages)
      ensures Blamed(old(sock.faults), ErrorOf(r), sock.faults, state.Some?)
      ensures Grown(old(fates), fates, r.Err?)
      ensures state == Some(Established) && old(writeBuf) != [] && old(sock.script) == [] ==>
                r.Err? && fates == old(fates) + [Fate(old(writeBuf)[0], false)]
      ensures old(writeBuf) == [] ==> r.Ok?
      ensures state != Some(Established) || old(writeBuf) == [] ==> unchanged(this) && unchanged(sock)
    {
      assert Grown(fates, fates, false) && Grown(fates, fates, true);
      hide QueueOk, ClocksOk, Drops, Grown;
      if writeBuf == [] { return Ok(()); }
      if state.None? { return Err(BF.NotConnected); }
      if state != Some(Established) { return Ok(()); }
      r := DrainQueue();
    }

    /** The handshake is complete: both clocks start. */
    method Establish()
      requires ClocksOk() && state != Some(Established) && sock.connected
      requires Frames(fates) + writeBuf == pushed && UserFrames(sock.wire) == Delivered(fates) && sock.wire == []
      modifies this`state, this`log, this`lastPing, this`lastPong, sock`script, sock`clock
      ensures QueueOk() && ClocksOk() && state == Some(Established)
      ensures |sock.script| <= |old(sock.script)|
    {
      hide Frames, UserFrames, Delivered;
      state := Some(Established);
      lastPing := sock.Now();
      lastPong := sock.Now();
      log := [Opened(lastPing, lastPong)];
    }

    /** Completes, continues or abandons the handshake. */
    method PrivProcWssResult(h: Handshake) returns (r: Result<(), IoError>)
      requires ClocksOk() && state != Some(Established) && (sock.connected <==> h == BF.Complete)
      requires Frames(fates) + writeBuf == pushed && UserFrames(sock.wire) == Delivered(fates) && sock.wire == []
      modifies this`state, this`writeBuf, this`fates, this`log, this`lastPing, this`lastPong, sock
      ensures QueueOk() && ClocksOk()
      ensures Drops(fates) <= old(Drops(fates)) + (if r.Err? then 1 else 0)
      ensures |sock.script| <= |old(sock.script)|
      ensures h == BF.Complete ==> state == Some(Established) && (r.Ok? ==> writeBuf == []) && r != Err(BF.WouldBlock)
      ensures r != Err(BF.NoMessages)
      ensures h == BF.Interrupted ==> r == Err(BF.WouldBlock) && state == Some(MidHandshake)
      ensures h == BF.Refused ==> r == Err(BF.ConnectionRefused) && state == old(state)
      ensures h != BF.Complete ==> fates == old(fates) && writeBuf == old(writeBuf)
      ensures h == BF.Complete ==> Blamed(old(sock.faults), ErrorOf(r), sock.faults, true)
      ensures h != BF.Complete ==> unchanged(sock)
      ensures pushed == old(pushed) && (old(writeBuf) == [] ==> fates == old(fates) && writeBuf == [])
      ensures old(writeBuf) == [] && h == BF.Complete ==> r.Ok?
      ensures sock.incoming == old(sock.incoming)
      ensures Grown(old(fates), fates, r.Err?)
      ensures h == BF.Complete && old(writeBuf) != [] && old(sock.script) == [] ==>
                r.Err? && fates == old(fates) + [Fate(old(writeBuf)[0], false)]
    {
      match h {
        case Complete =>
          Establish();
          hide QueueOk, ClocksOk, Drops, Grown, Blamed;
          r := PrivWritePending();
        case Interrupted =>
          state := Some(MidHandshake);
          return Err(BF.WouldBlock);
        case Refused =>
          return Err(BF.ConnectionRefused);
      }
    }

    /** Before every other work: pings an established peer if it is time to, or moves the
        handshake on. */
    method PrivProcess() returns (r: Result<(), IoError>)
      requires QueueOk() && ClocksOk()
      modifies this`state, this`writeBuf, this`fates, this`log, this`lastPing, this`lastPong, sock
      ensures QueueOk() && ClocksOk() && r != Err(BF.WouldBlock) && r != Err(BF.NoMessages)
      ensures Drops(fates) <= old(Drops(fates)) + (if r.Err? then 1 else 0)
      ensures |sock.script| <= |old(sock.script)|
      ensures old(state) != Some(MidHandshake) ==>
                state == old(state) && writeBuf == old(writeBuf) && fates == old(fates)
      ensures old(state).None? ==> r.Ok?
      ensures old(state) == Some(MidHandshake) ==> |sock.script| < |old(sock.script)| || r.Err?
      ensures old(state) == Some(MidHandshake) && state == Some(Established) && r.Ok? ==> writeBuf == []
      ensures old(state) == Some(MidHandshake) && r.Ok? ==> state.Some?
      ensures old(state) == Some(MidHandshake) && state != Some(Established) ==>
                writeBuf == old(writeBuf) && fates == old(fates)
      ensures old(state) == Some(MidHandshake) ==> state == AfterHandshake(NextHandshake(old(sock.script)))
      ensures old(state) == Some(MidHandshake) && state.None? ==> r == Err(BF.ConnectionRefused)
      ensures old(state).None? ==> unchanged(this) && unchanged(sock)
      ensures Blamed(old(sock.faults), ErrorOf(r), sock.faults, state.Some?) && sock.incoming == old(sock.incoming)
      ensures Grown(old(fates), fates, r.Err?)
      ensures old(Completing()) ==> r.Err? && fates == old(fates) + [Fate(old(writeBuf)[0], false)]
      ensures old(state) == Some(MidHandshake) && NextHandshake(old(sock.script)) == BF.Interrupted ==>
                r.Ok? && |old(sock.script)| > 0 && sock.script == old(sock.script)[1..]
      ensures r.Ok? ==> sock.faults == old(sock.faults)
      ensures old(state) == Some(Established) && disconnectOnSlowPongMs.None? ==> r.Ok? && unchanged(this) && unchanged(sock)
    {
      if state.None? { return Ok(()); }
      if state == Some(Established) {
        r := PrivPing();
        return;
      }
      assert state.value == MidHandshake;
      state := None;
      var h := sock.DoHandshake();
      r := PrivProcWssResult(h);
      if r == Err(BF.WouldBlock) { r := Ok(()); }
    }

    ghost method Record(e: Event)
      requires WellTimed(log, disconnectOnSlowPongMs) && Begun(log) && Rule(log, e, disconnectOnSlowPongMs)
      modifies this`log
      ensures log == old(log) + [e] && Begun(log) && WellTimed(log, disconnectOnSlowPongMs)
      ensures LoggedPings(log) == LoggedPings(old(log)) + (if e.Ping? then 1 else 0)
      ensures LastPing(log) == if e.Ping? then e.stamped else LastPing(old(log))
      ensures LastHeard(log) == if e.Heard? then e.at else LastHeard(old(log))
    {
      Extend(log, e, disconnectOnSlowPongMs);
      LogSnoc(log, e);
      log := log + [e];
    }

    method PingNow(checked: nat) returns (r: Result<(), IoError>)
      requires QueueOk() && ClocksOk() && state == Some(Established)
      requires disconnectOnSlowPongMs.Some? && checked == sock.clock
      requires checked - lastPing > disconnectOnSlowPongMs.value / 2
      modifies this`log, this`lastPing, sock
      ensures QueueOk() && ClocksOk() && r != Err(BF.WouldBlock) && r != Err(BF.NoMessages)
      ensures |sock.script| <= |old(sock.script)|
      ensures r.Ok? ==> log == old(log) + [Event.Ping(checked, lastPing)]
      ensures sock.faults == old(sock.faults) + Hard(r) && sock.incoming == old(sock.incoming)
    {
      hide UserFrames, Frames, Delivered, AutoPings, LoggedPings, LastPing, LastHeard, WellTimed, Begun;
      WireSnoc(sock.wire, AutoPing);
      r := PrivWriteWssFrame(AutoPing);
      if r.Err? { return; }
      lastPing := sock.Now();
      Record(Event.Ping(checked, lastPing));
    }

    method PrivPing() returns (r: Result<(), IoError>)
      requires QueueOk() && ClocksOk() && state == Some(Established)
      modifies this`log, this`lastPing, sock
      ensures QueueOk() && ClocksOk() && r != Err(BF.WouldBlock) && r != Err(BF.NoMessages)
      ensures |sock.script| <= |old(sock.script)|
      ensures disconnectOnSlowPongMs.None? ==> r.Ok? && log == old(log)
      ensures disconnectOnSlowPongMs.Some? && r.Ok? ==> Looks(log[|log| - 1]) && log[..|log| - 1] == old(log)
      ensures sock.faults == old(sock.faults) + Hard(r) && sock.incoming == old(sock.incoming)
      ensures disconnectOnSlowPongMs.None? ==> unchanged(this) && unchanged(sock)
    {
      if disconnectOnSlowPongMs.None? { return Ok(()); }
      hide UserFrames, Frames, Delivered, AutoPings, LoggedPings, LastPing, LastHeard, WellTimed, Begun;
      var pingMs := disconnectOnSlowPongMs.value / 2;
      var t := sock.Now();
      if t - lastPing > pingMs {
        r := PingNow(t);
      } else {
        Record(Poll(t));
        r := Ok(());
      }
    }

    method CheckReady() returns (r: Result<bool, IoError>)
      requires Valid()
      modifies this, sock
      ensures Valid() && accepted == old(accepted) && pushed == old(pushed)
      ensures errors == old(errors) + (if r.Err? then 1 else 0)
      ensures old(state) == Some(Established) ==> state == Some(Established)
      ensures r.Ok? ==> r.value == (state == Some(Established))
      ensures old(state) == Some(MidHandshake) ==> state == AfterHandshake(NextHandshake(old(sock.script)))
      ensures old(state) == Some(MidHandshake) && state.None? ==> r == Err(BF.ConnectionRefused) && writeBuf == old(writeBuf)
      ensures old(state).None? ==> r == Ok(false) && unchanged(this) && unchanged(sock)
      ensures Blamed(old(sock.faults), ErrorOf(r), sock.faults, state.Some?) && sock.incoming == old(sock.incoming)
      ensures Grown(old(fates), fates, r.Err?) && acks == old(acks)
      ensures old(Completing()) ==> r.Err? && fates == old(fates) + [Fate(old(writeBuf)[0], false)]
    {
      hide QueueOk, ClocksOk, Drops, Grown, Acked, Blamed, NextHandshake;
      var p := PrivProcess();
      if p.Err? {
        errors := errors + 1;
        return Err(p.error);
      }
      return Ok(state == Some(Established));
    }

    method PushAndDrain(frame: Frame) returns (r: Result<(), IoError>)
      requires QueueOk() && ClocksOk()
      modifies this`writeBuf, this`pushed, this`fates, sock`script, sock`wire, sock`faults, sock`settled
      ensures QueueOk() && ClocksOk() && pushed == old(pushed) + [frame]
      ensures Drops(fates) <= old(Drops(fates)) + (if r.Err? then 1 else 0)
      ensures state == Some(Established) && r.Ok? ==> writeBuf == []
      ensures state.None? ==> r == Err(BF.NotConnected)
      ensures r != Err(BF.WouldBlock) && r != Err(BF.NoMessages)
      ensures Blamed(old(sock.faults), ErrorOf(r), sock.faults, state.Some?)
      ensures Grown(old(fates), fates, r.Err?)
      ensures state != Some(Established) ==> unchanged(sock) && fates == old(fates) && writeBuf == old(writeBuf) + [frame]
      ensures state == Some(MidHandshake) ==> r.Ok?
    {
      hide UserFrames, Frames, Delivered, AutoPings, LoggedPings, LastPing, LastHeard, WellTimed, Drops;
      assert Frames(fates) + (writeBuf + [frame]) == Frames(fates) + writeBuf + [frame];
      writeBuf := writeBuf + [frame];
      pushed := pushed + [frame];
      r := PrivWritePending();
    }

    /** Queues a frame; an established stream hands it over at once. */
    method Write(frame: Frame) returns (r: Result<nat, IoError>)
      requires Valid()
      modifies this, sock
      ensures Valid() && r != Err(BF.WouldBlock)
      ensures r.Ok? ==> r.value == 1 && accepted == old(accepted) + [frame] && pushed == old(pushed) + [frame]
      ensures r.Err? ==> accepted == old(accepted) && (pushed == old(pushed) || pushed == old(pushed) + [frame])
      ensures acks == old(acks) + (if pushed == old(pushed) then [] else [r.Ok?])
      ensures errors == old(errors) + (if r.Err? then 1 else 0)
      ensures old(state) == Some(Established) ==> state == Some(Established)
      ensures old(state).None? ==> r == Err(BF.NotConnected)
      ensures old(state) == Some(MidHandshake) ==> state == AfterHandshake(NextHandshake(old(sock.script)))
      ensures old(state) == Some(MidHandshake) && state.None? ==> r == Err(BF.ConnectionRefused)
      ensures Blamed(old(sock.faults), ErrorOf(r), sock.faults, state.Some?) && sock.incoming == old(sock.incoming)
      ensures Grown(old(fates), fates, r.Err?)
      ensures old(state) == Some(MidHandshake) && NextHandshake(old(sock.script)) == BF.Interrupted ==>
                && r.Ok? && |old(sock.script)| > 0 && sock.script == old(sock.script)[1..]
                && fates == old(fates) && writeBuf == old(writeBuf) + [frame]
    {
      hide QueueOk, ClocksOk, Drops, Grown, Acked, Blamed, NextHandshake;
      var p := PrivProcess();
      if p.Err? {
        errors := errors + 1;
        return Err(p.error);
      }
      ghost var middle := fates;
      AckedSnoc(pushed, acks, frame, true);
      AckedSnoc(pushed, acks, frame, false);
      var w := PushAndDrain(frame);
      GrownTwice(old(fates), middle, fates, w.Err?);
      acks := acks + [w.Ok?];
      if w.Err? {
        errors := errors + 1;
        return Err(w.error);
      }
      accepted := accepted + [frame];
      return Ok(1);
    }

    /** A frame has been received: a ping is answered past the queue, then the pong clock is
        restarted. */
    method Receive(frame: Frame) returns (r: Result<Frame, IoError>)
      requires QueueOk() && ClocksOk() && state == Some(Established)
      modifies this`log, this`lastPong, sock
      ensures QueueOk() && ClocksOk() && r != Err(BF.WouldBlock) && r != Err(BF.NoMessages)
      ensures r.Ok? ==> r.value == frame && log == old(log) + [Heard(lastPong)]
      ensures r.Ok? ==> sock.wire == old(sock.wire) + (if frame.PingFrame? then [AutoPong] else [])
      ensures r.Err? ==> frame.PingFrame?
      ensures sock.faults == old(sock.faults) + Hard(r) && sock.incoming == old(sock.incoming)
    {
      hide UserFrames, Frames, Delivered, AutoPings, LoggedPings, LastPing, LastHeard, WellTimed, Begun;
      if frame.PingFrame? {
        WireSnoc(sock.wire, AutoPong);
        var w := PrivWriteWssFrame(AutoPong);
        if w.Err? { return Err(w.error); }
      }
      lastPong := sock.Now();
      Record(Heard(lastPong));
      return Ok(frame);
    }

    /** Nothing could be read: has the peer been silent for too long? */
    method CheckSilence() returns (r: IoError)
      requires QueueOk() && ClocksOk() && state == Some(Established)
      modifies this`log, sock
      ensures QueueOk() && ClocksOk()
      ensures disconnectOnSlowPongMs.None? ==> r == BF.WouldBlock && log == old(log)
      ensures disconnectOnSlowPongMs.Some? ==>
                log == old(log) + [if r == BF.NoMessages then Slow(sock.clock) else Quiet(sock.clock)]
      ensures r == BF.WouldBlock || r == BF.NoMessages
      ensures sock.faults == old(sock.faults) && sock.incoming == old(sock.incoming)
    {
      hide UserFrames, Frames, Delivered, AutoPings, LoggedPings, LastPing, LastHeard, WellTimed, Begun;
      if disconnectOnSlowPongMs.Some? {
        var t := sock.Now();
        if t - lastPong > disconnectOnSlowPongMs.value {
          Record(Slow(t));
          return BF.NoMessages;
        }
        Record(Quiet(t));
      }
      return BF.WouldBlock;
    }

    /** A successful read returns the one frame handed up; the only frame lost to a failed read is
        a ping whose answer could not be written. */
    static ghost predicate Handed(before: seq<Frame>, r: Result<Frame, IoError>, after: seq<Frame>) {
      if r.Ok? then after == before + [r.value]
      else after == before || (after != [] && after == before + [after[|after| - 1]] && after[|after| - 1].PingFrame? && Hard(r) != [])
    }

    method PrivRead() returns (r: Result<Frame, IoError>)
      requires QueueOk() && ClocksOk()
      modifies this`log, this`lastPong, sock
      ensures QueueOk() && ClocksOk()
      ensures state.None? ==> r == Err(BF.NotConnected)
      ensures state == Some(MidHandshake) ==> r == Err(BF.WouldBlock)
      ensures r == Err(BF.NoMessages) ==> log != [] && log[|log| - 1].Slow?
      ensures r.Ok? ==> log != [] && log[|log| - 1].Heard?
      ensures r == Err(BF.WouldBlock) && state == Some(Established) && disconnectOnSlowPongMs.Some? ==>
                log != [] && log[|log| - 1].Quiet?
      ensures r.Ok? && r.value.PingFrame? ==> sock.wire == old(sock.wire) + [AutoPong]
      ensures Blamed(old(sock.faults), ErrorOf(r), sock.faults, state.Some?) && Handed(old(sock.incoming), r, sock.incoming)
    {
      assert state == Some(Established) ==> sock.connected;
      hide QueueOk, ClocksOk;
      match state {
        case None => return Err(BF.NotConnected);
        case Some(MidHandshake) => return Err(BF.WouldBlock);
        case Some(Established) =>
          var m := sock.ReadMessage();
          if m.Ok? {
            r := Receive(m.value);
          } else if m.error == BF.WouldBlock {
            var silence := CheckSilence();
            r := Err(silence);
          } else {
            r := Err(m.error);
          }
      }
    }

    /** Returns a frame, would-block when there is none, or the silence of the peer as an error. */
    method Read() returns (r: Result<Frame, IoError>)
      requires Valid()
      modifies this, sock
      ensures Valid() && accepted == old(accepted) && pushed == old(pushed)
      ensures errors == old(errors) + (if r.Err? && r.error != BF.WouldBlock then 1 else 0)
      ensures old(state) == Some(Established) ==> state == Some(Established)
      ensures old(state).None? ==> r == Err(BF.NotConnected)
      ensures old(state) == Some(MidHandshake) ==> state == AfterHandshake(NextHandshake(old(sock.script)))
      ensures old(state) == Some(MidHandshake) && state.None? ==> r == Err(BF.ConnectionRefused)
      ensures r == Err(BF.NoMessages) ==> log != [] && log[|log| - 1].Slow?
      ensures r.Ok? ==> log != [] && log[|log| - 1].Heard?
      ensures r.Ok? && r.value.PingFrame? ==> sock.wire != [] && sock.wire[|sock.wire| - 1] == AutoPong
      ensures r == Err(BF.WouldBlock) && state == Some(Established) && disconnectOnSlowPongMs.Some? ==>
                log != [] && log[|log| - 1].Quiet?
      ensures Blamed(old(sock.faults), ErrorOf(r), sock.faults, state.Some?) && Handed(old(sock.incoming), r, sock.incoming)
      ensures Grown(old(fates), fates, r.Err? && r.error != BF.WouldBlock) && acks == old(acks)
    {
      hide QueueOk, ClocksOk, Drops, Grown, Acked, Blamed, NextHandshake;
      var p := PrivProcess();
      if p.Err? {
        errors := errors + 1;
        return Err(p.error);
      }
      GrownAnyway(old(fates), fates, true);
      r := PrivRead();
      if r.Err? && r.error != BF.WouldBlock { errors := errors + 1; }
    }

    /** The end of a round: asks an established socket to send what it has queued itself. */
    method Settle() returns (r: Option<Flushing>)
      requires Valid() && state == Some(Established) && writeBuf == []
      modifies this`errors, sock`script, sock`faults, sock`settled
      ensures Valid() && r != Some(Spins)
      ensures errors == old(errors) + (if r.Some? && r.value.FlushFailed? then 1 else 0)
      ensures r == Some(Flushed) ==> sock.settled
      ensures r.None? ==> |sock.script| < |old(sock.script)|
      ensures Blamed(old(sock.faults), Outcome(r), sock.faults, true)
      ensures acks == old(acks) && fates == old(fates)
      ensures old(sock.script) != [] && old(sock.script)[0].pending == Err(BF.WouldBlock) ==>
                r.None? && sock.script == old(sock.script)[1..]
    {
      assert sock.connected;
      hide QueueOk, ClocksOk, Drops;
      var f := sock.WritePending();
      match f {
        case Ok(_) => return if writeBuf == [] then Some(Flushed) else None;
        case Err(e) =>
          if e != BF.WouldBlock {
            errors := errors + 1;
            return Some(FlushFailed(e));
          }
      }
      return None;
    }

    /** Established, with nothing queued and no pings to send. */
    ghost predicate Idle()
      reads this`state, this`writeBuf
    {
      state == Some(Established) && writeBuf == [] && disconnectOnSlowPongMs.None?
    }

    /** The start of a round: moves the handshake on and hands the queue down. */
    method Pump() returns (r: Result<(), IoError>)
      requires Valid()
      modifies this, sock
      ensures Valid() && accepted == old(accepted) && pushed == old(pushed)
      ensures errors == old(errors) + (if r.Err? then 1 else 0)
      ensures r.Ok? && state == Some(Established) ==> writeBuf == []
      ensures r.Ok? && old(state) == Some(MidHandshake) ==> |sock.script| < |old(sock.script)| && state.Some?
      ensures old(state) == Some(MidHandshake) ==> state == AfterHandshake(NextHandshake(old(sock.script)))
      ensures |sock.script| <= |old(sock.script)|
      ensures old(state) == Some(Established) ==> state == Some(Established)
      ensures old(state).None? ==> state.None? && r == if old(writeBuf) == [] then Ok(()) else Err(BF.NotConnected)
      ensures r != Err(BF.WouldBlock)
      ensures Blamed(old(sock.faults), ErrorOf(r), sock.faults, state.Some?) && sock.incoming == old(sock.incoming)
      ensures old(state).None? && old(writeBuf) == [] ==> unchanged(this) && unchanged(sock)
      ensures Grown(old(fates), fates, r.Err?)
      ensures acks == old(acks)
      ensures old(Idle()) ==> r.Ok? && unchanged(this) && unchanged(sock)
    {
      hide QueueOk, ClocksOk, Drops, Grown, Acked, Blamed, NextHandshake, AfterHandshake;
      assert state.Some? ==> state.value == MidHandshake || state.value == Established;
      r := PrivProcess();
      if r.Ok? {
        ghost var middle := fates;
        r := PrivWritePending();
        GrownTwice(old(fates), middle, fates, r.Err?);
      }
      if r.Err? { errors := errors + 1; }
    }

    /** Without a state and a queue, nothing a round does can change anything. */
    ghost predicate Stuck()
      reads this`state, this`writeBuf
    {
      state.None? && writeBuf == []
    }

    /** One round of the flush loop: an outcome, or nothing and another round.  Every other round
        without an outcome has used up a reply of the layer below. */
    method FlushRound() returns (r: Option<Flushing>)
      requires Valid()
      modifies this, sock
      ensures Valid() && accepted == old(accepted) && pushed == old(pushed)
      ensures errors == old(errors) + (if r.Some? && r.value.FlushFailed? then 1 else 0)
      ensures old(Stuck()) ==> r.None? && unchanged(this) && unchanged(sock)
      ensures r.None? && !old(Stuck()) ==> |sock.script| < |old(sock.script)| && state.Some?
      ensures r != Some(Spins)
      ensures r == Some(Flushed) ==> state == Some(Established) && writeBuf == [] && sock.settled
      ensures old(state) == Some(Established) ==> state == Some(Established)
      ensures Blamed(old(sock.faults), Outcome(r), sock.faults, state.Some?) && sock.incoming == old(sock.incoming)
      ensures Grown(old(fates), fates, Outcome(r).Some?) && acks == old(acks)
      ensures old(Idle()) && old(sock.script) != [] && old(sock.script)[0].pending == Err(BF.WouldBlock) ==>
                r.None? && Idle() && sock.wire == old(sock.wire) && sock.script == old(sock.script)[1..]
    {
      hide Valid;
      assert state.Some? ==> state.value == MidHandshake || state.value == Established;
      var p := Pump();
      if p.Err? { return Some(FlushFailed(p.error)); }
      assert state.Some? ==> state.value == MidHandshake || state.value == Established;
      if state == Some(Established) {
        r := Settle();
        return;
      }
      return None;
    }

    /** The flush loop, for at most `n` rounds.  From a stuck stream no number of rounds reaches an
        outcome or changes anything; from any other, more rounds than there are replies do. */
    method FlushRounds(n: nat) returns (r: Option<Flushing>)
      requires Valid()
      modifies this, sock
      ensures Valid() && accepted == old(accepted) && pushed == old(pushed)
      ensures errors == old(errors) + (if r.Some? && r.value.FlushFailed? then 1 else 0)
      ensures old(Stuck()) ==> r.None? && unchanged(this) && unchanged(sock)
      ensures !old(Stuck()) && n > |old(sock.script)| ==> r.Some?
      ensures r != Some(Spins)
      ensures r == Some(Flushed) ==> state == Some(Established) && writeBuf == [] && sock.settled
      ensures old(state) == Some(Established) ==> state == Some(Established)
      ensures Blamed(old(sock.faults), Outcome(r), sock.faults, state.Some?) && sock.incoming == old(sock.incoming)
      ensures Grown(old(fates), fates, Outcome(r).Some?) && acks == old(acks)
    {
      r := None;
      assert Blamed(sock.faults, Outcome(r), sock.faults, state.Some?);
      assert Grown(fates, fates, Outcome(r).Some?);
      hide Valid, Blamed, Outcome, Grown;
      var i := 0;
      while i < n && r.None?
        invariant 0 <= i <= n
        invariant Valid() && accepted == old(accepted) && pushed == old(pushed)
        invariant errors == old(errors) + (if r.Some? && r.value.FlushFailed? then 1 else 0)
        invariant old(Stuck()) ==> r.None? && unchanged(this) && unchanged(sock)
        invariant r.None? && !old(Stuck()) ==> i + |sock.script| <= |old(sock.script)| && !Stuck()
        invariant r.None? ==> sock.faults == old(sock.faults)
        invariant Grown(old(fates), fates, Outcome(r).Some?) && acks == old(acks)
        invariant r != Some(Spins)
        invariant r == Some(Flushed) ==> state == Some(Established) && writeBuf == [] && sock.settled
        invariant old(state) == Some(Established) ==> state == Some(Established)
        invariant Blamed(old(sock.faults), Outcome(r), sock.faults, state.Some?) && sock.incoming == old(sock.incoming)
      {
        ghost var middle := fates;
        assert !Outcome(r).Some? by { NoOutcome(r); }
        r := FlushRound();
        GrownTwice(old(fates), middle, fates, Outcome(r).Some?);
        NotBlamed(old(sock.faults), r, sock.faults, state.Some?);
        i := i + 1;
      }
    }

    /** The other way to spin: for however long the socket cannot send what it has queued itself, `n`
        rounds bring a flush no further. */
    method StaysBlocked(n: nat)
      requires Valid() && Idle() && |sock.script| >= n
      requires forall i | 0 <= i < n :: sock.script[i].pending == Err(BF.WouldBlock)
      modifies this, sock
      ensures Valid() && Idle() && sock.wire == old(sock.wire)
    {
      hide Valid, Idle, Blamed, Grown;
      for i := 0 to n
        invariant Valid() && Idle() && sock.wire == old(sock.wire) && |sock.script| >= n - i
        invariant forall k | 0 <= k < n - i :: sock.script[k].pending == Err(BF.WouldBlock)
      {
        var r := FlushRound();
        assert r.None?;
      }
    }

    /** Blocks until everything is written.  The call never returns exactly when all numbers of
        rounds end without an outcome, which is when the stream is stuck. */
    method Flush() returns (r: Flushing)
      requires Valid()
      modifies this, sock
      ensures Valid() && accepted == old(accepted) && pushed == old(pushed)
      ensures errors == old(errors) + (if r.FlushFailed? then 1 else 0)
      ensures r.Spins? <==> old(state).None? && old(writeBuf) == []
      ensures r.Flushed? ==> state == Some(Established) && writeBuf == [] && sock.settled
      ensures old(state) == Some(Established) ==> state == Some(Established)
      ensures Blamed(old(sock.faults), Outcome(Some(r)), sock.faults, state.Some?)
      ensures sock.incoming == old(sock.incoming)
      ensures Grown(old(fates), fates, r.FlushFailed?) && acks == old(acks)
    {
      hide Valid, Grown;
      var rounds := FlushRounds(1 + |sock.script|);
      return if rounds.Some? then rounds.value else Spins;
    }
  }

  datatype Op = AskReady | DoRead | DoWrite(frame: Frame) | DoFlush

  /** Any call: it loses an accepted frame exactly when a frame written by an earlier call is the
      last taken off the queue and fails; with an empty queue no call does. */
  method AnyCall(w: InStreamWss, op: Op)
    requires w.Valid()
    modifies w, w.sock
    ensures w.Valid() && w.errors >= old(w.errors)
    ensures LossesExact(old(w.fates), old(w.acks), w.fates, w.acks)
    ensures LostNow(old(w.fates), w.fates, old(w.acks)) ==> w.errors > old(w.errors) && old(w.writeBuf) != []
  {
    w.FatesFit();
    ghost var fates, acks := w.fates, w.acks;
    var failed := Perform(w, op);
    NewFrameIsKept(fates, w.fates, failed, acks);
    LossesAreExact(fates, acks, w.fates, w.acks, failed);
    assert !failed && |w.fates| > |fates| ==> w.fates[|w.fates| - 1].delivered;
  }

  method Perform(w: InStreamWss, op: Op) returns (failed: bool)
    requires w.Valid()
    modifies w, w.sock
    ensures w.Valid() && w.errors == old(w.errors) + (if failed then 1 else 0)
    ensures Grown(old(w.fates), w.fates, failed)
    ensures w.acks == old(w.acks) || w.acks == old(w.acks) + [!failed]
  {
    hide InStreamWss.Valid, Grown, Blamed;
    match op {
      case AskReady => var r := w.CheckReady(); failed := r.Err?;
      case DoRead => var r := w.Read(); failed := r.Err? && r.error != BF.WouldBlock;
      case DoWrite(frame) => var r := w.Write(frame); failed := r.Err?;
      case DoFlush => var r := w.Flush(); failed := r.FlushFailed?;
    }
  }

  /** Over every run of a new stream: accepted frames on the wire followed by accepted frames in the
      queue are all accepted frames if and only if no call lost one. */
  method Drive(w: InStreamWss, ops: seq<Op>) returns (ghost lossy: nat)
    requires w.Valid() && w.fates == []
    modifies w, w.sock
    ensures w.Valid() && |w.fates| + |w.writeBuf| == |w.acks|
    ensures OnWire(w.fates, w.acks[..|w.fates|]) + Acked(w.writeBuf, w.acks[|w.fates|..]) == w.accepted <==> lossy == 0
  {
    assert !LostAccepted(w.fates, w.acks);
    hide InStreamWss.Valid, LostAccepted, LostNow;
    lossy := 0;
    for i := 0 to |ops|
      invariant w.Valid() && (LostAccepted(w.fates, w.acks) <==> lossy > 0)
    {
      ghost var fates, acks := w.fates, w.acks;
      AnyCall(w, ops[i]);
      if LostNow(fates, w.fates, acks) { lossy := lossy + 1; }
    }
    w.AcceptedKeptIff();
  }

  /** Flushing after a failed handshake: the one attempt is interrupted, the next one refused, and
      the flush that follows never returns. */
  method FlushCanSpin() returns (w: InStreamWss, ready: Result<bool, IoError>, r: Flushing)
    ensures ready == Err(BF.ConnectionRefused) && r.Spins? && w.writeBuf == []
  {
    var interrupted := GONE.(handshake := BF.Interrupted);
    var sock := new Socket([interrupted]);
    var c := InStreamWss.RawConnect(sock, None);
    w := c.value;
    ready := w.CheckReady();
    r := w.Flush();
  }

  /** An accepted frame can be lost: it is queued during the handshake, and the first write after
      its completion fails. */
  method AcceptedFrameCanBeLost(frame: Frame) returns (w: InStreamWss, wrote: Result<nat, IoError>, ready: Result<bool, IoError>)
    ensures wrote == Ok(1) && ready.Err? && w.Valid() && w.accepted == [frame]
    ensures LostAccepted(w.fates, w.acks) && w.writeBuf == [] && UserFrames(w.sock.wire) == []
  {
    hide InStreamWss.ClocksOk, Grown, Blamed;
    var interrupted, complete := GONE.(handshake := BF.Interrupted), GONE.(handshake := BF.Complete);
    var sock := new Socket([interrupted, interrupted, complete]);
    var c := InStreamWss.RawConnect(sock, None);
    w := c.value;
    wrote := w.Write(frame);
    ready := w.CheckReady();
    assert w.fates == [Fate(frame, false)] && w.acks == [true];
    w.FatesFit();
    assert Delivered([Fate(frame, false)]) == [] by { assert [Fate(frame, false)][..0] == []; }
  }
}

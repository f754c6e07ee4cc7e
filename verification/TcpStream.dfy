/** The TCP stream: connects in the background, buffers what cannot be written yet. */
module TcpStream {
  import opened Wrappers
  import opened Bytes
  import opened BufferedFifo
  import opened LowerLayer

  /** While connecting: the instant to give up at, if any. */
  datatype Connecting = Attempt(deadline: Option<nat>)

  class InStreamTcp {
    const stream: Lower
    var connecting: Option<Connecting>
    var writeBuf: seq<Byte>

    ghost function Abs(): Fifo
      reads this, stream
    {
      Fifo(if connecting.Some? then Phase.Connecting else Ready, stream.wire, stream.offers, writeBuf,
           stream.incoming, stream.faults)
    }

    /** The stream takes itself for connected exactly when it is. */
    ghost predicate Valid()
      reads this`connecting, stream`connected
    {
      connecting.None? <==> stream.connected
    }

    /** Still connecting, and past the instant to give up at. */
    ghost predicate Expired()
      reads this`connecting, stream`clock
    {
      connecting.Some? && connecting.value.deadline.Some? && stream.clock >= connecting.value.deadline.value
    }

    /** A stream still connecting, or one already connected. */
    constructor (stream: Lower, connecting: Option<Connecting>)
      requires connecting.None? <==> stream.connected
      ensures Valid()
      ensures this.stream == stream && this.connecting == connecting && writeBuf == []
    {
      this.stream := stream;
      this.connecting := connecting;
      writeBuf := [];
    }

    method PrivProcess() returns (r: Result<(), IoError>)
      requires Valid()
      modifies this`connecting, stream`script, stream`connected, stream`clock
      ensures Valid()
      ensures old(connecting).None? ==> connecting.None? && r.Ok? && stream.script == old(stream.script)
      ensures old(connecting).Some? ==> |stream.script| < |old(stream.script)| || connecting.None?
      ensures |stream.script| <= |old(stream.script)|
      ensures r == if Expired() then Err(TimedOut) else Ok(())
      ensures old(connecting).Some? ==> (connecting.None? <==> WillConnect(old(stream.script)))
      ensures connecting.Some? ==> connecting == old(connecting)
      ensures old(connecting) == Some(Attempt(None)) && old(stream.script) != [] ==> stream.script == old(stream.script)[1..]
    {
      if connecting.Some? {
        var c := stream.Connect();
        match c {
          case Ok(_) => connecting := None;
          case Err(code) => if code == Some(EISCONN) { connecting := None; }
        }
      }
      if connecting.Some? && connecting.value.deadline.Some? {
        var now := stream.Now();
        if now >= connecting.value.deadline.value {
          return Err(TimedOut);
        }
      }
      return Ok(());
    }

    method PrivWritePending() returns (r: Result<(), IoError>)
      requires Valid()
      modifies this`writeBuf, stream`script, stream`wire, stream`offers, stream`faults, stream`settled
      ensures old(stream.wire) <= stream.wire
      ensures stream.wire + writeBuf == old(stream.wire) + old(writeBuf)
      ensures stream.faults == old(stream.faults) + (if r.Err? then [r.error] else [])
      ensures connecting.Some? || old(writeBuf) == [] ==> r.Ok? && unchanged(stream)
      ensures connecting.None? && old(writeBuf) != [] ==>
                && stream.offers == old(stream.offers) + [old(writeBuf)]
                && (|stream.script| < |old(stream.script)| || r.Err?)
      ensures |stream.script| <= |old(stream.script)|
      ensures r != Err(WouldBlock)
      ensures connecting.None? && old(writeBuf) != [] && Upcoming(old(stream.script)).write == Err(WouldBlock) ==>
                r.Ok? && writeBuf == old(writeBuf) && |old(stream.script)| > 0 && stream.script == old(stream.script)[1..]
    {
      if writeBuf == [] { return Ok(()); }
      if connecting.Some? { return Ok(()); }
      var w := stream.Write(writeBuf);
      match w {
        case Ok(written) =>
          writeBuf := writeBuf[written..];
          return Ok(());
        case Err(e) =>
          if e == WouldBlock { return Ok(()); }
          return Err(e);
      }
    }

    method CheckReady() returns (r: Result<bool, IoError>)
      requires Valid()
      modifies this`connecting, stream`script, stream`connected, stream`clock
      ensures Valid() && Step(old(Abs()), Call.CheckReady(r), Abs())
      ensures r.Err? <==> Expired()
      ensures old(connecting).Some? ==> (connecting.None? <==> WillConnect(old(stream.script)))
    {
      var p := PrivProcess();
      if p.Err? { return Err(p.error); }
      return Ok(connecting.None?);
    }

    method Read(room: nat) returns (r: Result<seq<Byte>, IoError>)
      requires Valid()
      modifies this, stream
      ensures Valid() && Step(old(Abs()), Call.Read(r), Abs())
      ensures r.Ok? ==> |r.value| <= room
      ensures connecting.Some? ==> r == Err(if Expired() then TimedOut else WouldBlock)
    {
      var p := PrivProcess();
      if p.Err? { return Err(p.error); }
      var w := PrivWritePending();
      if w.Err? { return Err(w.error); }
      if connecting.None? {
        r := stream.Read(room);
      } else {
        return Err(WouldBlock);
      }
    }

    /** The write without a backlog: what the layer below does not take is buffered. */
    method WriteThrough(data: seq<Byte>) returns (r: Result<nat, IoError>)
      requires Valid() && connecting.None? && writeBuf == []
      modifies this`writeBuf, stream`script, stream`wire, stream`offers, stream`faults, stream`settled
      ensures stream.faults == old(stream.faults) + (if r.Err? then [r.error] else [])
      ensures old(stream.wire) <= stream.wire
      ensures stream.wire + writeBuf == old(stream.wire) + (if r.Ok? then data else [])
      ensures stream.offers == old(stream.offers) + [data]
      ensures |stream.script| < |old(stream.script)| || r.Err?
      ensures r.Ok? ==> r.value == |data|
      ensures r != Err(WouldBlock)
    {
      var w := stream.Write(data);
      match w {
        case Err(e) =>
          if e == WouldBlock {
            writeBuf := data;
            return Ok(|data|);
          }
          return Err(e);
        case Ok(written) =>
          if written < |data| { writeBuf := data[written..]; }
          return Ok(|data|);
      }
    }

    method Write(data: seq<Byte>) returns (r: Result<nat, IoError>)
      requires Valid()
      modifies this, stream
      ensures Valid() && Step(old(Abs()), Call.Write(data, r), Abs())
      ensures connecting.Some? ==> r == if Expired() then Err(TimedOut) else Ok(|data|)
      ensures old(connecting).Some? ==> (connecting.None? <==> WillConnect(old(stream.script)))
      ensures connecting.Some? ==> connecting == old(connecting)
      ensures old(connecting) == Some(Attempt(None)) && old(stream.script) != [] && connecting.Some? ==>
                stream.script == old(stream.script)[1..]
      ensures connecting.None? ==> |stream.script| < |old(stream.script)| || r.Err?
    {
      var p := PrivProcess();
      if p.Err? { return Err(p.error); }
      if connecting.None? {
        if writeBuf == [] {
          assert writeBuf + data == data;
          r := WriteThrough(data);
        } else {
          writeBuf := writeBuf + data;
          var w := PrivWritePending();
          if w.Err? { return Err(w.error); }
          return Ok(|data|);
        }
      } else {
        writeBuf := writeBuf + data;
        return Ok(|data|);
      }
    }

    /** One round of the flush loop: an outcome, or nothing and another round. */
    method FlushRound() returns (r: Option<Result<(), IoError>>)
      requires Valid()
      modifies this, stream
      ensures Valid()
      ensures r.Some? ==> Step(old(Abs()), Call.Flush(r.value), Abs())
      ensures r.Some? && r.value.Ok? && connecting.None? ==> stream.settled
      ensures old(connecting.None?) && old(writeBuf) != [] && Blocks(old(stream.script), 1) ==>
                r.None? && connecting.None? && writeBuf == old(writeBuf) && stream.wire == old(stream.wire) && stream.script == old(stream.script)[2..]
      ensures connecting.Some? && r.Some? ==> (r.value.Err? <==> Expired())
      ensures r.None? ==> Round(old(Abs()), Abs())
      ensures r.None? ==> |stream.script| < |old(stream.script)|
                          || (|stream.script| <= |old(stream.script)| && old(connecting).Some? && connecting.None?)
    {
      var p := PrivProcess();
      if p.Err? { return Some(Err(p.error)); }
      if connecting.None? {
        var w := PrivWritePending();
        if w.Err? { return Some(Err(w.error)); }
        var f := stream.Flush();
        if f.Err? { return Some(Err(f.error)); }
      }
      return if writeBuf == [] then Some(Ok(())) else None;
    }

    method Flush() returns (r: Result<(), IoError>)
      requires Valid()
      modifies this, stream
      ensures Valid() && Step(old(Abs()), Call.Flush(r), Abs())
      ensures r.Ok? && connecting.None? ==> stream.settled
      ensures connecting.Some? ==> (r.Err? <==> Expired())
    {
      hide Step, Round, Expired;
      ghost var start := Abs();
      var round := FlushRound();
      while round.None?
        invariant Valid()
        invariant if round.Some? then Step(start, Call.Flush(round.value), Abs()) else Round(start, Abs())
        invariant round.Some? && round.value.Ok? && connecting.None? ==> stream.settled
        invariant connecting.Some? && round.Some? ==> (round.value.Err? <==> Expired())
        decreases if round.None? then 1 + |stream.script| else 0, if connecting.Some? then 1 else 0
      {
        ghost var before := Abs();
        round := FlushRound();
        RoundsMakeFlush(start, before, Abs(), if round.Some? then round.value else Ok(()));
      }
      return round.value;
    }

    /** Where the loop spins: for however long a ready socket keeps blocking, `n` rounds bring a flush of
        a backlog no further. */
    method StaysBlocked(n: nat)
      requires Valid() && connecting.None? && writeBuf != [] && Blocks(stream.script, n)
      modifies this, stream
      ensures Valid() && connecting.None? && writeBuf == old(writeBuf) && stream.wire == old(stream.wire)
    {
      hide Step, Round, Blocks;
      for i := 0 to n
        invariant Valid() && connecting.None? && writeBuf == old(writeBuf) && stream.wire == old(stream.wire)
        invariant Blocks(stream.script, n - i)
      {
        BlocksOn(stream.script, n - i);
        BlocksOnce(stream.script, n - i);
        var r := FlushRound();
        assert r.None?;
      }
    }

    /** Any calls, in any order. */
    method Drive(ops: seq<Op>) returns (cs: seq<Call>, ghost ss: seq<Fifo>)
      requires Valid()
      modifies this, stream
      ensures Valid() && Trace(old(Abs()), ops, cs, ss) && ss[|cs|] == Abs()
    {
      hide Step, Valid;
      cs, ss := [], [Abs()];
      assert Trace(Abs(), ops[..0], cs, ss);
      for i := 0 to |ops|
        invariant Valid() && Trace(old(Abs()), ops[..i], cs, ss) && |cs| == i && ss[i] == Abs()
      {
        hide Trace;
        var c := Perform(ops[i]);
        TraceSnoc(old(Abs()), ops[..i], cs, ss, ops[i], c, Abs());
        assert ops[..i + 1] == ops[..i] + [ops[i]];
        cs, ss := cs + [c], ss + [Abs()];
        TraceLength(old(Abs()), ops[..i + 1], cs, ss);
      }
      assert ops[..|ops|] == ops;
    }

    method Perform(op: Op) returns (c: Call)
      requires Valid()
      modifies this, stream
      ensures Valid() && Makes(op, c) && Step(old(Abs()), c, Abs())
    {
      hide Step, Valid;
      match op {
        case AskReady => var r := CheckReady(); c := Call.CheckReady(r);
        case DoRead(room) => var r := Read(room); c := Call.Read(r);
        case DoWrite(data) => var r := Write(data); c := Call.Write(data, r);
        case DoFlush => var r := Flush(); c := Call.Flush(r);
      }
    }

    /** In every run of a new stream the bytes handed down, followed by the write buffer, are the
        accepted ones if and only if no write failed on a ready stream with a backlog; reads
        return what came up, and nothing goes down before the stream is ready. */
    method Conserves(ops: seq<Op>) returns (cs: seq<Call>, ghost ss: seq<Fifo>)
      requires Valid() && Unused(Abs())
      modifies this, stream
      ensures Valid() && Trace(old(Abs()), ops, cs, ss) && ss[|cs|] == Abs()
      ensures stream.wire + writeBuf == AllAccepted(cs) <==> NoneQueuedThoughFailed(ss, cs)
      ensures stream.incoming == AllReturned(cs) && stream.faults == AllBlamed(ss, cs)
      ensures stream.wire != [] ==> stream.connected
    {
      hide Step, Trace, NoneQueuedThoughFailed;
      cs, ss := Drive(ops);
      TraceIsRun(old(Abs()), ops, cs, ss);
      RunLength(ss, cs);
      hide Run;
      ConservationIff(ss, cs);
      ReadsAndFaultsPassThrough(ss, cs);
      Progress(ss, cs, |cs|, |cs|);
    }
  }

  /** A failed write is not always undone: the first write is queued while connecting; the second
      finds the stream connected, joins the backlog and fails, and its byte stays queued. */
  method FailedWriteIsQueued() returns (t: InStreamTcp, first: Result<nat, IoError>, second: Result<nat, IoError>)
    ensures first == Ok(1) && second.Err? && t.stream.wire + t.writeBuf == [1, 2]
  {
    var lower := new Lower([GONE.(connect := Err(None))]);
    t := new InStreamTcp(lower, Some(Attempt(None)));
    first := t.Write([1]);
    second := t.Write([2]);
  }
}

/** The TLS stream: a handshake driven by whatever call comes next, then a buffered stream.
    A failed handshake leaves the stream without a state for good. */
module TlsStream {
  import opened Wrappers
  import opened Bytes
  import opened BufferedFifo
  import opened LowerLayer

  datatype TlsState = MidHandshake | Established

  /** The state a handshake attempt leaves: none at all when it is refused. */
  function AfterHandshake(h: Handshake): Option<TlsState> {
    match h
    case Complete => Some(Established)
    case Interrupted => Some(MidHandshake)
    case Refused => None
  }

  class InStreamTls {
    const tls: Lower
    var state: Option<TlsState>
    var writeBuf: seq<Byte>

    ghost function Abs(): Fifo
      reads this, tls
    {
      Fifo(match state case None => Broken case Some(MidHandshake) => Connecting case Some(Established) => Ready,
           tls.wire, tls.offers, writeBuf, tls.incoming, tls.faults)
    }

    /** The stream takes itself for established exactly when the handshake is complete. */
    ghost predicate Valid()
      reads this`state, tls`connected
    {
      state == Some(Established) <==> tls.connected
    }

    /** A stream whose first handshake attempt completed or was interrupted; one whose attempt
        was refused is never handed out. */
    constructor (tls: Lower, first: TlsState)
      requires first == Established <==> tls.connected
      ensures Valid()
      ensures this.tls == tls && state == Some(first) && writeBuf == []
    {
      this.tls := tls;
      state := Some(first);
      writeBuf := [];
    }

    method PrivProcTlsResult(result: Handshake) returns (r: Result<(), IoError>)
      modifies this`state
      ensures result == Complete ==> r.Ok? && state == Some(Established)
      ensures result == Interrupted ==> r == Err(WouldBlock) && state == Some(MidHandshake)
      ensures result == Refused ==> r == Err(ConnectionRefused) && state == old(state)
    {
      match result {
        case Complete => state := Some(Established); return Ok(());
        case Interrupted => state := Some(MidHandshake); return Err(WouldBlock);
        case Refused => return Err(ConnectionRefused);
      }
    }

    method PrivProcess() returns (r: Result<(), IoError>)
      requires Valid()
      modifies this`state, tls`script, tls`connected
      ensures Valid()
      ensures old(state) != Some(MidHandshake) ==> state == old(state) && r.Ok? && tls.script == old(tls.script)
      ensures old(state) == Some(MidHandshake) ==> |tls.script| < |old(tls.script)| || r.Err?
      ensures r.Err? ==> r.error == ConnectionRefused && state.None?
      ensures old(state) == Some(MidHandshake) ==> state == AfterHandshake(Upcoming(old(tls.script)).handshake)
      ensures old(state).Some? && r.Ok? ==> state.Some?
    {
      if state.None? { return Ok(()); }
      if state == Some(Established) { return Ok(()); }
      assert state.value == MidHandshake;
      state := None;
      var h := tls.DoHandshake();
      var p := PrivProcTlsResult(h);
      if p.Err? && p.error != WouldBlock { return p; }
      return Ok(());
    }

    method PrivWritePending() returns (r: Result<(), IoError>)
      requires Valid()
      modifies this`writeBuf, tls`script, tls`wire, tls`offers, tls`faults, tls`settled
      ensures old(tls.wire) <= tls.wire
      ensures tls.wire + writeBuf == old(tls.wire) + old(writeBuf)
      ensures tls.faults == old(tls.faults) + (if r.Err? && state.Some? then [r.error] else [])
      ensures state != Some(Established) || old(writeBuf) == [] ==> unchanged(tls) && writeBuf == old(writeBuf)
      ensures old(writeBuf) == [] || state == Some(MidHandshake) ==> r.Ok?
      ensures old(writeBuf) != [] && state.None? ==> r == Err(NotConnected)
      ensures state == Some(Established) && old(writeBuf) != [] ==>
                && tls.offers == old(tls.offers) + [old(writeBuf)]
                && (|tls.script| < |old(tls.script)| || r.Err?)
      ensures |tls.script| <= |old(tls.script)|
      ensures r != Err(WouldBlock)
      ensures state == Some(Established) && old(writeBuf) != [] && Upcoming(old(tls.script)).write == Err(WouldBlock) ==>
                r.Ok? && writeBuf == old(writeBuf) && |old(tls.script)| > 0 && tls.script == old(tls.script)[1..]
    {
      if writeBuf == [] { return Ok(()); }
      match state {
        case None => return Err(NotConnected);
        case Some(MidHandshake) => return Ok(());
        case Some(Established) =>
          var w := tls.Write(writeBuf);
          match w {
            case Ok(written) =>
              writeBuf := writeBuf[written..];
              return Ok(());
            case Err(e) =>
              if e == WouldBlock { return Ok(()); }
              return Err(e);
          }
      }
    }

    method CheckReady() returns (r: Result<bool, IoError>)
      requires Valid()
      modifies this`state, tls`script, tls`connected
      ensures Valid() && Step(old(Abs()), Call.CheckReady(r), Abs())
      ensures old(state) == Some(MidHandshake) ==> state == AfterHandshake(Upcoming(old(tls.script)).handshake)
    {
      var p := PrivProcess();
      if p.Err? { return Err(p.error); }
      return Ok(state == Some(Established));
    }

    method Read(room: nat) returns (r: Result<seq<Byte>, IoError>)
      requires Valid()
      modifies this, tls
      ensures Valid() && Step(old(Abs()), Call.Read(r), Abs())
      ensures old(state) == Some(MidHandshake) ==> state == AfterHandshake(Upcoming(old(tls.script)).handshake)
      ensures r.Ok? ==> |r.value| <= room
      ensures state == Some(MidHandshake) ==> r == Err(WouldBlock)
      ensures old(state).None? ==> r == Err(NotConnected)
    {
      var p := PrivProcess();
      if p.Err? { return Err(p.error); }
      var w := PrivWritePending();
      if w.Err? { return Err(w.error); }
      match state {
        case None => return Err(NotConnected);
        case Some(MidHandshake) => return Err(WouldBlock);
        case Some(Established) => r := tls.Read(room);
      }
    }

    /** The write without a backlog: what the layer below does not take is buffered. */
    method WriteThrough(data: seq<Byte>) returns (r: Result<nat, IoError>)
      requires Valid() && state == Some(Established) && writeBuf == []
      modifies this`writeBuf, tls`script, tls`wire, tls`offers, tls`faults, tls`settled
      ensures tls.faults == old(tls.faults) + (if r.Err? then [r.error] else [])
      ensures old(tls.wire) <= tls.wire
      ensures tls.wire + writeBuf == old(tls.wire) + (if r.Ok? then data else [])
      ensures tls.offers == old(tls.offers) + [data]
      ensures r.Ok? ==> r.value == |data|
      ensures r != Err(WouldBlock)
    {
      var w := tls.Write(data);
      match w {
        case Err(e) =>
          if e == WouldBlock {
            writeBuf := data;
            return Ok(|data|);
          }
          return Err(e);
        case Ok(written) =>
          if written < |data| { writeBuf := data[written..]; }
          return Ok(|data|);
      }
    }

    method Write(data: seq<Byte>) returns (r: Result<nat, IoError>)
      requires Valid()
      modifies this, tls
      ensures Valid() && Step(old(Abs()), Call.Write(data, r), Abs())
      ensures old(state) == Some(MidHandshake) ==> state == AfterHandshake(Upcoming(old(tls.script)).handshake)
      ensures old(state).None? ==> r == Err(NotConnected)
    {
      var p := PrivProcess();
      if p.Err? { return Err(p.error); }
      match state {
        case None => return Err(NotConnected);
        case Some(MidHandshake) =>
          writeBuf := writeBuf + data;
          return Ok(|data|);
        case Some(Established) =>
          if writeBuf == [] {
            assert writeBuf + data == data;
            r := WriteThrough(data);
          } else {
            writeBuf := writeBuf + data;
            var w := PrivWritePending();
            if w.Err? { return Err(w.error); }
            return Ok(|data|);
          }
      }
    }

    /** One round of the flush loop: an outcome, or nothing and another round. */
    method FlushRound() returns (r: Option<Result<(), IoError>>)
      requires Valid()
      modifies this, tls
      ensures Valid()
      ensures r.Some? ==> Step(old(Abs()), Call.Flush(r.value), Abs())
      ensures r.Some? && r.value.Ok? && state == Some(Established) ==> tls.settled
      ensures old(state == Some(Established)) && old(writeBuf) != [] && Blocks(old(tls.script), 1) ==>
                r.None? && state == Some(Established) && writeBuf == old(writeBuf) && tls.wire == old(tls.wire) && tls.script == old(tls.script)[2..]
      ensures r.None? ==> Round(old(Abs()), Abs()) && |tls.script| < |old(tls.script)|
    {
      assert state.Some? ==> state.value == MidHandshake || state.value == Established;
      var p := PrivProcess();
      if p.Err? { return Some(Err(p.error)); }
      var w := PrivWritePending();
      if w.Err? { return Some(Err(w.error)); }
      if state == Some(Established) {
        var f := tls.Flush();
        if f.Err? { return Some(Err(f.error)); }
      }
      return if writeBuf == [] then Some(Ok(())) else None;
    }

    method Flush() returns (r: Result<(), IoError>)
      requires Valid()
      modifies this, tls
      ensures Valid() && Step(old(Abs()), Call.Flush(r), Abs())
      ensures r.Ok? && state == Some(Established) ==> tls.settled
    {
      hide Step, Round;
      ghost var start := Abs();
      var round := FlushRound();
      while round.None?
        invariant Valid()
        invariant if round.Some? then Step(start, Call.Flush(round.value), Abs()) else Round(start, Abs())
        invariant round.Some? && round.value.Ok? && state == Some(Established) ==> tls.settled
        decreases if round.None? then 1 + |tls.script| else 0
      {
        ghost var before := Abs();
        round := FlushRound();
        RoundsMakeFlush(start, before, Abs(), if round.Some? then round.value else Ok(()));
      }
      return round.value;
    }

    /** Where the loop spins: for however long a ready connection keeps blocking, `n` rounds bring a flush of
        a backlog no further. */
    method StaysBlocked(n: nat)
      requires Valid() && state == Some(Established) && writeBuf != [] && Blocks(tls.script, n)
      modifies this, tls
      ensures Valid() && state == Some(Established) && writeBuf == old(writeBuf) && tls.wire == old(tls.wire)
    {
      hide Step, Round, Blocks;
      for i := 0 to n
        invariant Valid() && state == Some(Established) && writeBuf == old(writeBuf) && tls.wire == old(tls.wire)
        invariant Blocks(tls.script, n - i)
      {
        BlocksOn(tls.script, n - i);
        BlocksOnce(tls.script, n - i);
        var r := FlushRound();
        assert r.None?;
      }
    }

    /** Any calls, in any order. */
    method Drive(ops: seq<Op>) returns (cs: seq<Call>, ghost ss: seq<Fifo>)
      requires Valid()
      modifies this, tls
      ensures Valid() && Trace(old(Abs()), ops, cs, ss) && ss[|cs|] == Abs()
    {
      hide Step, Valid;
      cs, ss := [], [Abs()];
      assert Trace(Abs(), ops[..0], cs, ss);
      for i := 0 to |ops|
        invariant Valid() && Trace(old(Abs()), ops[..i], cs, ss) && |cs| == i && ss[i] == Abs()
      {
        hide Trace;
        var c := Perform(ops[i]);
        TraceSnoc(old(Abs()), ops[..i], cs, ss, ops[i], c, Abs());
        assert ops[..i + 1] == ops[..i] + [ops[i]];
        cs, ss := cs + [c], ss + [Abs()];
        TraceLength(old(Abs()), ops[..i + 1], cs, ss);
      }
      assert ops[..|ops|] == ops;
    }

    method Perform(op: Op) returns (c: Call)
      requires Valid()
      modifies this, tls
      ensures Valid() && Makes(op, c) && Step(old(Abs()), c, Abs())
    {
      hide Step, Valid;
      match op {
        case AskReady => var r := CheckReady(); c := Call.CheckReady(r);
        case DoRead(room) => var r := Read(room); c := Call.Read(r);
        case DoWrite(data) => var r := Write(data); c := Call.Write(data, r);
        case DoFlush => var r := Flush(); c := Call.Flush(r);
      }
    }

    /** In every run of a new stream the bytes handed down, followed by the write buffer, are the
        accepted ones if and only if no write failed on a ready stream with a backlog; reads
        return what came up, and nothing goes down before the stream is ready. */
    method Conserves(ops: seq<Op>) returns (cs: seq<Call>, ghost ss: seq<Fifo>)
      requires Valid() && Unused(Abs())
      modifies this, tls
      ensures Valid() && Trace(old(Abs()), ops, cs, ss) && ss[|cs|] == Abs()
      ensures tls.wire + writeBuf == AllAccepted(cs) <==> NoneQueuedThoughFailed(ss, cs)
      ensures tls.incoming == AllReturned(cs) && tls.faults == AllBlamed(ss, cs)
      ensures tls.wire != [] ==> tls.connected
    {
      hide Step, Trace, NoneQueuedThoughFailed;
      cs, ss := Drive(ops);
      TraceIsRun(old(Abs()), ops, cs, ss);
      RunLength(ss, cs);
      hide Run;
      ConservationIff(ss, cs);
      ReadsAndFaultsPassThrough(ss, cs);
      Progress(ss, cs, |cs|, |cs|);
    }
  }
}

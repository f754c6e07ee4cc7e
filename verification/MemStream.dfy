/** The in-memory stream: two ends joined by two unbounded channels of messages. */
module MemStream {
  import opened Wrappers
  import opened Sequences
  import opened Bytes
  import opened BufferedFifo

  /** How many messages one read takes off the channel at most. */
  const READ_RECV_MAX: nat := 100

  datatype TryRecv = Message(data: seq<Byte>) | Empty | Disconnected

  /** An unbounded channel with one sender and one receiver. */
  class Channel {
    var queue: seq<seq<Byte>>
    var senderAlive: bool
    var receiverAlive: bool
    ghost var sent: seq<seq<Byte>>
    ghost var received: seq<seq<Byte>>

    ghost predicate Valid()
      reads this
    {
      receiverAlive ==> sent == received + queue
    }

    constructor ()
      ensures Valid() && senderAlive && receiverAlive && queue == [] && sent == [] && received == []
    {
      queue, sent, received := [], [], [];
      senderAlive, receiverAlive := true, true;
    }

    method Send(m: seq<Byte>) returns (ok: bool)
      requires Valid()
      modifies this`queue, this`sent
      ensures Valid() && ok == receiverAlive
      ensures if ok then queue == old(queue) + [m] && sent == old(sent) + [m]
              else queue == old(queue) && sent == old(sent)
    {
      ok := receiverAlive;
      if ok {
        queue := queue + [m];
        sent := sent + [m];
      }
    }

    method Receive() returns (r: TryRecv)
      requires Valid() && receiverAlive
      modifies this`queue, this`received
      ensures Valid()
      ensures r.Message? <==> old(queue) != []
      ensures r.Message? ==> r.data == old(queue)[0] && queue == old(queue)[1..] && received == old(received) + [r.data]
      ensures !r.Message? ==> queue == old(queue) && received == old(received) && r.Empty? == senderAlive
    {
      if queue != [] {
        r := Message(queue[0]);
        received := received + [queue[0]];
        queue := queue[1..];
      } else {
        r := if senderAlive then Empty else Disconnected;
      }
    }
  }

  datatype How = ShutRead | ShutWrite | ShutBoth

  function Drained(q: seq<seq<Byte>>): seq<seq<Byte>> {
    if |q| <= READ_RECV_MAX then q else q[..READ_RECV_MAX]
  }

  class InStreamMem {
    const send: Channel
    const recv: Channel
    var hasSend: bool     // the sender has not been shut down
    var hasRecv: bool     // the receiver has not been shut down
    var recvBuf: seq<Byte>
    ghost var written: seq<Byte>    // bytes of all successful writes
    ghost var delivered: seq<Byte>  // bytes returned by all reads

    ghost predicate Valid()
      reads this, send, recv
    {
      && send != recv && send.Valid() && recv.Valid()
      && hasSend == send.senderAlive && hasRecv == recv.receiverAlive
      && written == Concat(send.sent)
      && (hasRecv ==> Concat(recv.received) == delivered + recvBuf)
    }

    constructor (send: Channel, recv: Channel)
      requires send != recv && send.Valid() && recv.Valid()
      requires send.senderAlive && recv.receiverAlive && send.sent == [] && recv.received == []
      ensures Valid() && hasSend && hasRecv && this.send == send && this.recv == recv
      ensures written == [] && delivered == [] && recvBuf == []
    {
      this.send, this.recv := send, recv;
      hasSend, hasRecv := true, true;
      recvBuf, written, delivered := [], [], [];
    }

    method Write(buf: seq<Byte>) returns (r: Result<nat, IoError>)
      requires Valid()
      modifies this`written, send`queue, send`sent
      ensures Valid()
      ensures r == if hasSend && send.receiverAlive then Ok(|buf|) else Err(NotConnected)
      ensures written == old(written) + (if r.Ok? then buf else [])
      ensures send.queue == old(send.queue) + (if r.Ok? then [buf] else [])
    {
      if !hasSend { return Err(NotConnected); }
      var ok := send.Send(buf);
      if !ok { return Err(NotConnected); }
      ConcatSnoc(old(send.sent), buf);
      written := written + buf;
      return Ok(|buf|);
    }

    /** Moves up to a hundred messages into the buffer, and notices a channel that has ended. */
    method DrainChannel() returns (disconnected: bool)
      requires Valid() && hasRecv
      modifies this`recvBuf, recv`queue, recv`received
      ensures Valid()
      ensures recvBuf == old(recvBuf) + Concat(Drained(old(recv.queue)))
      ensures recv.queue == old(recv.queue)[|Drained(old(recv.queue))|..]
      ensures disconnected <==> |old(recv.queue)| < READ_RECV_MAX && !recv.senderAlive
    {
      disconnected := false;
      ghost var q := recv.queue;
      assert q[..0] == [] && q[0..] == q;
      var i := 0;
      while i < READ_RECV_MAX
        invariant 0 <= i <= READ_RECV_MAX && i <= |q| && !disconnected
        invariant Valid()
        invariant recvBuf == old(recvBuf) + Concat(q[..i])
        invariant recv.queue == q[i..]
      {
        var m := recv.Receive();
        match m {
          case Message(data) =>
            ConcatSnoc(q[..i], data);
            assert q[..i + 1] == q[..i] + [data];
            ghost var received := recv.received[..|recv.received| - 1];
            ConcatSnoc(received, data);
            assert recv.received == received + [data];
            recvBuf := recvBuf + data;
          case Empty =>
            assert q[..i] == q;
            return false;
          case Disconnected =>
            assert q[..i] == q;
            return true;
        }
        i := i + 1;
      }
      assert q[..i] == Drained(q);
    }

    /** What a read can hand out: the buffer and the first hundred messages. */
    ghost function Available(): seq<Byte>
      reads this, recv
    {
      recvBuf + (if hasRecv then Concat(Drained(recv.queue)) else [])
    }

    method Read(room: nat) returns (r: Result<seq<Byte>, IoError>)
      requires Valid()
      modifies this`recvBuf, this`delivered, recv`queue, recv`received
      ensures Valid()
      ensures old(Available()) != [] ==>
                var n := if room < |old(Available())| then room else |old(Available())|;
                r == Ok(old(Available())[..n]) && recvBuf == old(Available())[n..]
      ensures old(Available()) == [] ==> recvBuf == []
      ensures old(Available()) == [] ==>
                r == if hasRecv && |old(recv.queue)| < READ_RECV_MAX && !recv.senderAlive then Ok([]) else Err(WouldBlock)
      ensures delivered == old(delivered) + (if r.Ok? then r.value else [])
      ensures recv.queue == if hasRecv then old(recv.queue)[|Drained(old(recv.queue))|..] else old(recv.queue)
    {
      var disconnected := false;
      if hasRecv { disconnected := DrainChannel(); }
      assert recvBuf == old(Available());
      if recvBuf == [] {
        if disconnected { return Ok([]); } else { return Err(WouldBlock); }
      }
      var n := if room < |recvBuf| then room else |recvBuf|;
      var v := recvBuf[..n];
      assert delivered + recvBuf == (delivered + v) + recvBuf[n..];
      recvBuf := recvBuf[n..];
      delivered := delivered + v;
      return Ok(v);
    }

    method Flush() returns (r: Result<(), IoError>)
      requires Valid()
      ensures r == if hasSend then Ok(()) else Err(NotConnected)
    {
      r := if hasSend then Ok(()) else Err(NotConnected);
    }

    /** Dropping a receiver discards what is still in its channel. */
    method Shutdown(how: How)
      requires Valid()
      modifies this`hasSend, this`hasRecv, send`senderAlive, recv`receiverAlive, recv`queue
      ensures Valid()
      ensures hasSend == (old(hasSend) && how == ShutRead)
      ensures hasRecv == (old(hasRecv) && how == ShutWrite)
      ensures hasRecv ==> recv.queue == old(recv.queue)
    {
      if how != ShutWrite {
        hasRecv := false;
        recv.receiverAlive := false;
        recv.queue := [];
      }
      if how != ShutRead {
        hasSend := false;
        send.senderAlive := false;
      }
    }
  }

  // ----- a pair of streams -----

  /** Two ends joined crosswise. */
  ghost predicate Paired(a: InStreamMem, b: InStreamMem)
    reads a, b, a.send, a.recv, b.send, b.recv
  {
    a != b && a.send == b.recv && b.send == a.recv && a.Valid() && b.Valid()
  }

  method CreateMemStreamPair() returns (a: InStreamMem, b: InStreamMem)
    ensures fresh(a) && fresh(b) && fresh(a.send) && fresh(a.recv) && Paired(a, b)
    ensures a.hasSend && a.hasRecv && b.hasSend && b.hasRecv
    ensures a.send.queue == [] && b.send.queue == [] && a.recvBuf == [] && b.recvBuf == []
    ensures a.written == [] && b.written == [] && a.delivered == [] && b.delivered == []
  {
    var one := new Channel();
    var two := new Channel();
    a := new InStreamMem(one, two);
    b := new InStreamMem(two, one);
  }

  datatype Op = DoWrite(buf: seq<Byte>) | DoRead(room: nat) | DoShutdown(how: How)

  /** Whatever one end does, the two stay a pair; with the roles exchanged this is every step of
      every run of the pair.  (An end that is dropped has shut down both ways.) */
  method AnyStep(a: InStreamMem, b: InStreamMem, op: Op)
    requires Paired(a, b)
    modifies a, a.send, a.recv
    ensures Paired(a, b) && Paired(b, a)
    ensures b.written == old(b.written) && b.delivered == old(b.delivered)
  {
    match op {
      case DoWrite(buf) => var _ := a.Write(buf);
      case DoRead(room) => var _ := a.Read(room);
      case DoShutdown(how) => a.Shutdown(how);
    }
  }

  /** As long as `b` has not shut down reading, the bytes written by `a` are those `b` has
      returned, then those it has buffered, then those in the channel. */
  lemma PairConservation(a: InStreamMem, b: InStreamMem)
    requires Paired(a, b) && b.hasRecv
    ensures a.written == b.delivered + b.recvBuf + Concat(a.send.queue)
  {
    ConcatAppend(b.recv.received, b.recv.queue);
  }

  lemma {:induction false} EmptyBytes(ms: seq<seq<Byte>>)
    requires Concat(ms) == [] && forall i | 0 <= i < |ms| :: ms[i] != []
    ensures ms == []
  {
  }

  /** What the first hundred messages leave behind. */
  lemma DrainedAndRest(q: seq<seq<Byte>>)
    ensures Concat(q) == Concat(Drained(q)) + Concat(q[|Drained(q)|..])
  {
    assert q == Drained(q) + q[|Drained(q)|..];
    ConcatAppend(Drained(q), q[|Drained(q)|..]);
  }

  /** A read into a buffer with room, on an end that still reads.  It reports the end of file
      exactly when the writer is gone, everything it wrote has been delivered and fewer than a
      hundred messages are queued, all of them empty then.  Would-block is meant to say that
      nothing is pending; it does so except when data lies behind a hundred empty messages, which
      takes a writer of empty messages. */
  method ReadPair(a: InStreamMem, b: InStreamMem, room: nat) returns (r: Result<seq<Byte>, IoError>)
    requires Paired(a, b) && b.hasRecv && room > 0
    modifies b, b.recv
    ensures Paired(a, b) && a.written == old(a.written) && a.hasSend == old(a.hasSend)
    ensures a.written == b.delivered + b.recvBuf + Concat(b.recv.queue)
    ensures r == Ok([]) <==>
              !a.hasSend && old(b.delivered) == a.written && |old(b.recv.queue)| < READ_RECV_MAX
    ensures r == Err(WouldBlock) ==>
              (b.delivered != a.written <==>
               |old(b.recv.queue)| > READ_RECV_MAX && Concat(old(b.recv.queue)[READ_RECV_MAX..]) != [])
    ensures r == Err(WouldBlock) && (forall i | 0 <= i < |old(b.recv.queue)| :: old(b.recv.queue)[i] != []) ==>
              b.delivered == a.written && old(b.recv.queue) == []
    ensures r.Ok? || r == Err(WouldBlock)
  {
    ghost var q := b.recv.queue;
    PairConservation(a, b);
    DrainedAndRest(q);
    if Concat(Drained(q)) == [] && forall i | 0 <= i < |q| :: q[i] != [] { EmptyBytes(Drained(q)); }
    r := b.Read(room);
    PairConservation(a, b);
  }

  lemma {:induction false} EmptyMessages(q: seq<seq<Byte>>)
    requires forall i | 0 <= i < |q| :: q[i] == []
    ensures Concat(q) == []
  {
    if q != [] { EmptyMessages(q[1..]); }
  }

  /** The promise that would-block means no pending data fails: a hundred empty messages and a
      byte have been written, and the first read finds nothing. */
  method EmptyMessagesHideAByte() returns (a: InStreamMem, b: InStreamMem, r: Result<seq<Byte>, IoError>)
    ensures Paired(a, b) && b.hasRecv
    ensures r == Err(WouldBlock) && a.written == [1] && b.delivered == []
  {
    a, b := CreateMemStreamPair();
    for i := 0 to READ_RECV_MAX
      invariant Paired(a, b) && fresh(a) && fresh(b) && fresh(a.send) && fresh(a.recv)
      invariant a.hasSend && b.hasRecv && a.written == [] && b.delivered == [] && b.recvBuf == []
      invariant |a.send.queue| == i && forall k | 0 <= k < i :: a.send.queue[k] == []
    {
      var _ := a.Write([]);
    }
    ghost var empties := a.send.queue;
    var _ := a.Write([1]);
    assert Drained(b.recv.queue) == empties;
    EmptyMessages(empties);
    r := b.Read(1);
  }
}

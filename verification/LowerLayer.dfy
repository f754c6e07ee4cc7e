/** The layer below a buffering stream, as an adversary.

    It follows an arbitrary finite script of replies: partial writes, would-block, failures,
    interrupted or refused handshakes, and any clock reading.  When the script is used up a
    connection attempt succeeds and everything else fails, so that blocking loops end and every
    finite behaviour is covered. */
module LowerLayer {
  import opened Wrappers
  import opened Bytes
  import opened BufferedFifo

  /** One reply to whatever is asked next. */
  datatype Reply = Reply(
    connect: Result<(), Option<int>>,
    handshake: Handshake,
    write: Result<nat, IoError>,
    read: Result<seq<Byte>, IoError>,
    flush: Result<(), IoError>,
    now: nat)

  const GONE: Reply := Reply(Ok(()), Refused, Err(Other(0)), Err(Other(0)), Err(Other(0)), 0)

  /** The operating system's "socket is already connected". */
  const EISCONN: int := 56

  function Upcoming(script: seq<Reply>): Reply {
    if script == [] then GONE else script[0]
  }

  /** For `n` rounds of flushing, nothing can be written and nothing fails. */
  predicate Blocks(script: seq<Reply>, n: nat) {
    |script| >= 2 * n && forall i | 0 <= i < 2 * n :: script[i].write == Err(WouldBlock) && script[i].flush.Ok?
  }

  lemma BlocksOn(script: seq<Reply>, n: nat)
    requires Blocks(script, n) && n > 0
    ensures |script| >= 2 && script[0].write == Err(WouldBlock) && script[1].flush.Ok? && Blocks(script[2..], n - 1)
  {
  }

  lemma BlocksOnce(script: seq<Reply>, n: nat)
    requires Blocks(script, n) && n > 0
    ensures Blocks(script, 1)
  {
  }

  /** Will the next connection attempt find the socket connected? */
  predicate WillConnect(script: seq<Reply>) {
    var r := Upcoming(script).connect;
    r.Ok? || r.error == Some(EISCONN)
  }

  class Lower {
    var script: seq<Reply>
    /** Every byte taken so far. */
    var wire: seq<Byte>
    /** What it was asked to take, write by write. */
    var offers: seq<seq<Byte>>

    ghost var connected: bool        // or past the handshake
    ghost var incoming: seq<Byte>    // every byte handed up so far
    ghost var faults: seq<IoError>   // every error, other than a would-block of a read or a write
    ghost var clock: nat             // the last clock reading
    ghost var settled: bool          // flushed since the last write

    constructor (script: seq<Reply>)
      ensures this.script == script && wire == [] && offers == []
      ensures !connected && incoming == [] && faults == []
    {
      this.script := script;
      wire := [];
      offers := [];
      connected, incoming, faults, clock, settled := false, [], [], 0, false;
    }

    method Next() returns (r: Reply)
      modifies this`script
      ensures old(script) == [] ==> r == GONE && script == []
      ensures old(script) != [] ==> r == old(script)[0] && script == old(script)[1..]
    {
      if script == [] {
        r := GONE;
      } else {
        r := script[0];
        script := script[1..];
      }
    }

    method Connect() returns (r: Result<(), Option<int>>)
      modifies this`script, this`connected
      ensures |script| < |old(script)| || (script == [] && r == Ok(()))
      ensures connected == (old(connected) || r.Ok? || r.error == Some(EISCONN))
      ensures r == Upcoming(old(script)).connect && (old(script) != [] ==> script == old(script)[1..])
    {
      var reply := Next();
      r := reply.connect;
      connected := connected || r.Ok? || r.error == Some(EISCONN);
    }

    method DoHandshake() returns (r: Handshake)
      modifies this`script, this`connected
      ensures |script| < |old(script)| || (script == [] && r == Refused)
      ensures connected == (old(connected) || r == Complete)
      ensures r == Upcoming(old(script)).handshake
    {
      var reply := Next();
      r := reply.handshake;
      connected := connected || r == Complete;
    }

    /** Takes a prefix of `data`, or nothing when it reports an error. */
    method Write(data: seq<Byte>) returns (r: Result<nat, IoError>)
      requires connected
      modifies this`script, this`wire, this`offers, this`faults, this`settled
      ensures r.Ok? ==> r.value <= |data| && wire == old(wire) + data[..r.value]
      ensures r.Err? ==> wire == old(wire)
      ensures offers == old(offers) + [data]
      ensures faults == old(faults) + (if r.Err? && r.error != WouldBlock then [r.error] else [])
      ensures |script| < |old(script)| || (script == [] && r == Err(Other(0)))
      ensures Upcoming(old(script)).write.Err? ==> r == Upcoming(old(script)).write
      ensures old(script) != [] ==> script == old(script)[1..]
    {
      var reply := Next();
      settled := false;
      offers := offers + [data];
      r := reply.write;
      if r.Ok? {
        var n := if r.value < |data| then r.value else |data|;
        r := Ok(n);
        wire := wire + data[..n];
      } else if r.error != WouldBlock {
        faults := faults + [r.error];
      }
    }

    method Read(room: nat) returns (r: Result<seq<Byte>, IoError>)
      requires connected
      modifies this`script, this`incoming, this`faults
      ensures r.Ok? ==> |r.value| <= room
      ensures incoming == old(incoming) + (if r.Ok? then r.value else [])
      ensures faults == old(faults) + (if r.Err? && r.error != WouldBlock then [r.error] else [])
      ensures |script| <= |old(script)|
    {
      var reply := Next();
      r := reply.read;
      if r.Ok? {
        if |r.value| > room { r := Ok(r.value[..room]); }
        incoming := incoming + r.value;
      } else if r.error != WouldBlock {
        faults := faults + [r.error];
      }
    }

    method Flush() returns (r: Result<(), IoError>)
      requires connected
      modifies this`script, this`faults, this`settled
      ensures r.Ok? ==> settled
      ensures faults == old(faults) + (if r.Err? then [r.error] else [])
      ensures |script| <= |old(script)|
      ensures r == Upcoming(old(script)).flush && (old(script) != [] ==> script == old(script)[1..])
    {
      var reply := Next();
      r := reply.flush;
      settled := r.Ok?;
      if r.Err? { faults := faults + [r.error]; }
    }

    method Now() returns (t: nat)
      modifies this`script, this`clock
      ensures t == clock
      ensures |script| <= |old(script)|
    {
      var reply := Next();
      t := reply.now;
      clock := t;
    }
  }
}

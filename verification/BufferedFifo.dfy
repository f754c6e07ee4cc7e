/** What every buffering stream promises, as one abstract machine: bytes are queued by
    `write`, handed to the layer below in order once the stream is ready, and never lost,
    duplicated or reordered.  The TCP and TLS streams are proved to be steps of this machine,
    and the lemmas here are about all of its runs. */
module BufferedFifo {
  import opened Wrappers
  import opened Bytes

  /** `NoMessages` is the time-out a WebSocket itself reports for a silent peer. */
  datatype IoError = WouldBlock | TimedOut | NotConnected | ConnectionRefused | NoMessages | Other(code: int)

  datatype Phase = Connecting | Ready | Broken

  /** What an attempt to complete a handshake comes to. */
  datatype Handshake = Complete | Interrupted | Refused

  /** `sent` is what the layer below has taken, `offers` what it was offered call by call,
      `pending` the write buffer, `incoming` what the layer below has handed up, and `faults` its
      errors, other than would-block. */
  datatype Fifo = Fifo(
    phase: Phase, sent: seq<Byte>, offers: seq<seq<Byte>>, pending: seq<Byte>, incoming: seq<Byte>, faults: seq<IoError>)

  /** A call with its result. */
  datatype Call =
    | CheckReady(ready: Result<bool, IoError>)
    | Read(got: Result<seq<Byte>, IoError>)
    | Write(data: seq<Byte>, wrote: Result<nat, IoError>)
    | Flush(flushed: Result<(), IoError>)
  {
    function Error(): Option<IoError> {
      match this
      case CheckReady(r) => if r.Err? then Some(r.error) else None
      case Read(r) => if r.Err? then Some(r.error) else None
      case Write(_, r) => if r.Err? then Some(r.error) else None
      case Flush(r) => if r.Err? then Some(r.error) else None
    }

    /** The bytes a call returns. */
    function Returned(): seq<Byte> {
      if Read? && got.Ok? then got.value else []
    }
  }

  /** The bytes a call queues.  A write that fails has queued its data all the same if and only
      if it found a backlog on a ready stream. */
  function Taken(s: Fifo, c: Call, s': Fifo): seq<Byte> {
    if c.Write? && (c.wrote.Ok? || (s'.phase == Ready && s.pending != [])) then c.data else []
  }

  /** The fault below that a call reports, if any: on a ready stream every error is one, except
      that a read may merely find nothing. */
  function Blamed(c: Call, s': Fifo): seq<IoError> {
    if s'.phase == Ready && c.Error().Some? && !(c.Read? && c.Error() == Some(WouldBlock)) then [c.Error().value] else []
  }

  /** The errors of the stream itself. */
  ghost predicate OwnErrors(s: Fifo, c: Call, s': Fifo) {
    match s'.phase
    case Ready => true
    case Connecting => c.Error().Some? ==> c.Error().value == TimedOut || (c.Read? && c.Error().value == WouldBlock)
    case Broken =>
      if s.phase == Connecting then c.Error() == Some(ConnectionRefused)
      else if c.Read? || c.Write? || (c.Flush? && s.pending != []) then c.Error() == Some(NotConnected)
      else c.Error().None?
  }

  ghost predicate Step(s: Fifo, c: Call, s': Fifo) {
    && s.sent <= s'.sent
    && s'.incoming == s.incoming + c.Returned()
    && s'.faults == s.faults + Blamed(c, s') && OwnErrors(s, c, s')
    && s'.sent + s'.pending == s.sent + s.pending + Taken(s, c, s')
    && (s'.sent != s.sent ==> s'.phase == Ready)
    && (s.phase != Connecting ==> s'.phase == s.phase)
    && match c
       case CheckReady(ready) =>
         && s'.offers == s.offers && s'.sent == s.sent
         && (ready.Ok? ==> ready.value == (s'.phase == Ready))
       case Read(got) =>
         // a backlog is offered once before reading
         && s'.offers == s.offers + (if s'.phase == Ready && s.pending != [] then [s.pending] else [])
         && (got.Ok? ==> s'.phase == Ready)
       case Write(data, wrote) =>
         // a ready stream offers the backlog and the new data as one piece
         && s'.offers == s.offers + (if s'.phase == Ready then [s.pending + data] else [])
         && (wrote.Ok? ==> wrote.value == |data|)
         && wrote != Err(WouldBlock)
       case Flush(flushed) =>
         && s.offers <= s'.offers
         && (s.pending != [] && s'.phase == Ready ==> |s'.offers| > |s.offers|)
         && (flushed.Ok? ==> s'.pending == [])
  }

  /** A round of a flush that is not over yet. */
  ghost predicate Round(s: Fifo, s': Fifo) {
    && s.sent <= s'.sent && s'.sent + s'.pending == s.sent + s.pending
    && s'.incoming == s.incoming && s'.faults == s.faults
    && (s'.sent != s.sent ==> s'.phase == Ready)
    && (s.phase != Connecting ==> s'.phase == s.phase) && s'.phase != Broken
    && s.offers <= s'.offers && s'.pending != []
    && (s.pending != [] && s'.phase == Ready ==> |s'.offers| > |s.offers|)
  }

  /** Rounds, and then a last one, make up a flush. */
  lemma RoundsMakeFlush(s: Fifo, t: Fifo, s': Fifo, flushed: Result<(), IoError>)
    requires Round(s, t)
    ensures Round(t, s') ==> Round(s, s')
    ensures Step(t, Flush(flushed), s') ==> Step(s, Flush(flushed), s')
  {
  }

  // ----- whole runs -----

  ghost predicate Run(ss: seq<Fifo>, cs: seq<Call>) {
    && |ss| == |cs| + 1
    && ss[0].sent == [] && ss[0].pending == [] && ss[0].incoming == [] && ss[0].faults == []
    && forall i | 0 <= i < |cs| :: Step(ss[i], cs[i], ss[i + 1])
  }

  ghost function AllTaken(ss: seq<Fifo>, cs: seq<Call>): seq<Byte>
    requires |ss| == |cs| + 1
  {
    if cs == [] then [] else
      var n := |cs| - 1;
      AllTaken(ss[..|ss| - 1], cs[..n]) + Taken(ss[n], cs[n], ss[n + 1])
  }

  /** The concatenation of all writes that were reported successful. */
  function AllAccepted(cs: seq<Call>): seq<Byte> {
    if cs == [] then [] else
      var c := cs[|cs| - 1];
      AllAccepted(cs[..|cs| - 1]) + (if c.Write? && c.wrote.Ok? then c.data else [])
  }

  function AllReturned(cs: seq<Call>): seq<Byte> {
    if cs == [] then [] else AllReturned(cs[..|cs| - 1]) + cs[|cs| - 1].Returned()
  }

  ghost function AllBlamed(ss: seq<Fifo>, cs: seq<Call>): seq<IoError>
    requires |ss| == |cs| + 1
  {
    if cs == [] then [] else
      var n := |cs| - 1;
      AllBlamed(ss[..|ss| - 1], cs[..n]) + Blamed(cs[n], ss[n + 1])
  }

  predicate NoFailedWrite(cs: seq<Call>) {
    forall i | 0 <= i < |cs| :: cs[i].Write? ==> cs[i].wrote.Ok?
  }

  lemma RunPrefix(ss: seq<Fifo>, cs: seq<Call>, n: nat)
    requires Run(ss, cs) && n <= |cs|
    ensures Run(ss[..n + 1], cs[..n])
  {
  }

  /** In every run, through errors of any kind, what has been handed down followed by what is
      buffered is exactly what has been taken, in order. */
  lemma {:induction false} NothingIsLost(ss: seq<Fifo>, cs: seq<Call>)
    requires Run(ss, cs)
    ensures var last := ss[|cs|]; last.sent + last.pending == AllTaken(ss, cs)
    decreases |cs|
  {
    if cs != [] {
      var n := |cs| - 1;
      RunPrefix(ss, cs, n);
      NothingIsLost(ss[..n + 1], cs[..n]);
      assert Step(ss[n], cs[n], ss[n + 1]);
    }
  }

  lemma {:induction false} TakenIsAccepted(ss: seq<Fifo>, cs: seq<Call>)
    requires Run(ss, cs) && NoFailedWrite(cs)
    ensures AllTaken(ss, cs) == AllAccepted(cs)
    decreases |cs|
  {
    if cs != [] {
      RunPrefix(ss, cs, |cs| - 1);
      TakenIsAccepted(ss[..|cs|], cs[..|cs| - 1]);
    }
  }

  /** Up to the first failed write the layer below receives a prefix of the accepted bytes, and
      the rest of them is buffered. */
  lemma Conservation(ss: seq<Fifo>, cs: seq<Call>)
    requires Run(ss, cs) && NoFailedWrite(cs)
    ensures ss[|cs|].sent + ss[|cs|].pending == AllAccepted(cs)
  {
    NothingIsLost(ss, cs);
    TakenIsAccepted(ss, cs);
  }

  /** What was handed down stays handed down, a ready stream stays ready, and nothing is handed
      down before. */
  lemma {:induction false} Progress(ss: seq<Fifo>, cs: seq<Call>, i: nat, j: nat)
    requires Run(ss, cs) && i <= j <= |cs|
    ensures ss[i].sent <= ss[j].sent
    ensures ss[i].phase != Connecting ==> ss[j].phase == ss[i].phase
    ensures ss[j].sent != [] ==> ss[j].phase == Ready
    decreases j
  {
    if i < j {
      Progress(ss, cs, i, j - 1);
      assert Step(ss[j - 1], cs[j - 1], ss[j]);
    } else if j > 0 {
      Progress(ss, cs, j - 1, j - 1);
      assert Step(ss[j - 1], cs[j - 1], ss[j]);
    }
  }

  /** A flush that reports success means that every byte taken so far has been handed down. */
  lemma FlushDelivers(ss: seq<Fifo>, cs: seq<Call>, i: nat)
    requires Run(ss, cs) && i < |cs| && cs[i].Flush? && cs[i].flushed.Ok?
    ensures ss[i + 1].sent == AllTaken(ss[..i + 2], cs[..i + 1])
    ensures ss[i + 1].sent == AllTaken(ss[..i + 1], cs[..i])
  {
    RunPrefix(ss, cs, i + 1);
    NothingIsLost(ss[..i + 2], cs[..i + 1]);
    assert Step(ss[i], cs[i], ss[i + 1]);
    assert ss[..i + 2][..i + 1] == ss[..i + 1] && cs[..i + 1][..i] == cs[..i];
  }

  /** In every run the reads return exactly what the layer below has handed up, in order, and every
      error of the layer below is reported by the call that met it, none twice and none invented. */
  lemma {:induction false} ReadsAndFaultsPassThrough(ss: seq<Fifo>, cs: seq<Call>)
    requires Run(ss, cs)
    ensures ss[|cs|].incoming == AllReturned(cs) && ss[|cs|].faults == AllBlamed(ss, cs)
    decreases |cs|
  {
    if cs != [] {
      var n := |cs| - 1;
      RunPrefix(ss, cs, n);
      ReadsAndFaultsPassThrough(ss[..n + 1], cs[..n]);
      assert Step(ss[n], cs[n], ss[n + 1]);
    }
  }

  // ----- exactly when accepted writes account for everything -----

  /** A failed write that has queued its data all the same: it met a backlog on a ready stream. */
  predicate QueuedThoughFailed(s: Fifo, c: Call, s': Fifo) {
    c.Write? && c.wrote.Err? && c.data != [] && s'.phase == Ready && s.pending != []
  }

  ghost predicate NoneQueuedThoughFailed(ss: seq<Fifo>, cs: seq<Call>)
    requires |ss| == |cs| + 1
  {
    forall i | 0 <= i < |cs| :: !QueuedThoughFailed(ss[i], cs[i], ss[i + 1])
  }

  lemma NoneQueuedFront(ss: seq<Fifo>, cs: seq<Call>)
    requires |ss| == |cs| + 1 && cs != []
    ensures var n := |cs| - 1;
            NoneQueuedThoughFailed(ss, cs) <==>
            NoneQueuedThoughFailed(ss[..n + 1], cs[..n]) && !QueuedThoughFailed(ss[n], cs[n], ss[n + 1])
  {
    hide QueuedThoughFailed;
    var n := |cs| - 1;
    if NoneQueuedThoughFailed(ss[..n + 1], cs[..n]) && !QueuedThoughFailed(ss[n], cs[n], ss[n + 1]) {
      forall i | 0 <= i < |cs|
        ensures !QueuedThoughFailed(ss[i], cs[i], ss[i + 1])
      {
        if i < n { assert !QueuedThoughFailed(ss[..n + 1][i], cs[..n][i], ss[..n + 1][i + 1]); }
      }
    }
  }

  /** Writes never take less than they are reported to; the two agree exactly without a failed
      write that queued its data. */
  lemma {:induction false} TakenCompared(ss: seq<Fifo>, cs: seq<Call>)
    requires |ss| == |cs| + 1
    ensures |AllTaken(ss, cs)| >= |AllAccepted(cs)|
    ensures |AllTaken(ss, cs)| == |AllAccepted(cs)| <==> NoneQueuedThoughFailed(ss, cs)
    ensures NoneQueuedThoughFailed(ss, cs) ==> AllTaken(ss, cs) == AllAccepted(cs)
    decreases |cs|
  {
    if cs != [] {
      hide NoneQueuedThoughFailed;
      var n := |cs| - 1;
      TakenCompared(ss[..n + 1], cs[..n]);
      NoneQueuedFront(ss, cs);
    }
  }

  /** In every run, the bytes handed down followed by those buffered are the accepted bytes if and
      only if no write failed on a ready stream with a backlog. */
  lemma ConservationIff(ss: seq<Fifo>, cs: seq<Call>)
    requires Run(ss, cs)
    ensures ss[|cs|].sent + ss[|cs|].pending == AllAccepted(cs) <==> NoneQueuedThoughFailed(ss, cs)
  {
    hide Run, NoneQueuedThoughFailed, AllTaken, AllAccepted;
    assert |ss| == |cs| + 1 by { RunLength(ss, cs); }
    NothingIsLost(ss, cs);
    TakenCompared(ss, cs);
  }

  lemma RunLength(ss: seq<Fifo>, cs: seq<Call>)
    requires Run(ss, cs)
    ensures |ss| == |cs| + 1
  {
  }

  // ----- driving a stream -----

  datatype Op = AskReady | DoRead(room: nat) | DoWrite(data: seq<Byte>) | DoFlush

  /** The call made for an operation, with some result. */
  predicate Makes(op: Op, c: Call) {
    match op
    case AskReady => c.CheckReady?
    case DoRead(_) => c.Read?
    case DoWrite(data) => c.Write? && c.data == data
    case DoFlush => c.Flush?
  }

  /** A stream nothing has been done with. */
  predicate Unused(s: Fifo) {
    s.sent == [] && s.pending == [] && s.incoming == [] && s.faults == []
  }

  /** The calls made for some operations, and the states they led through. */
  ghost predicate Trace(start: Fifo, ops: seq<Op>, cs: seq<Call>, ss: seq<Fifo>) {
    && |cs| == |ops| && |ss| == |cs| + 1 && ss[0] == start
    && (forall i | 0 <= i < |ops| :: Makes(ops[i], cs[i]))
    && (forall i | 0 <= i < |cs| :: Step(ss[i], cs[i], ss[i + 1]))
  }

  lemma TraceSnoc(start: Fifo, ops: seq<Op>, cs: seq<Call>, ss: seq<Fifo>, op: Op, c: Call, s: Fifo)
    requires Trace(start, ops, cs, ss) && Makes(op, c) && Step(ss[|cs|], c, s)
    ensures Trace(start, ops + [op], cs + [c], ss + [s])
  {
    hide Step;
  }

  lemma TraceLength(start: Fifo, ops: seq<Op>, cs: seq<Call>, ss: seq<Fifo>)
    requires Trace(start, ops, cs, ss)
    ensures |cs| == |ops| && |ss| == |cs| + 1
  {
  }

  lemma TraceIsRun(start: Fifo, ops: seq<Op>, cs: seq<Call>, ss: seq<Fifo>)
    requires Trace(start, ops, cs, ss) && Unused(start)
    ensures Run(ss, cs)
  {
    hide Step;
  }
}

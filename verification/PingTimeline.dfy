/** When a WebSocket pings and when it gives up, told as a log of clock readings in
    milliseconds.  The stream keeps such a log well timed; the lemmas say what that means for
    the spacing of pings and for the slow-pong timeout. */
module PingTimeline {
  import opened Wrappers

  datatype Event =
    | Opened(ping: nat, pong: nat)          // handshake complete: both clocks started
    | Poll(at: nat)                         // looked at the ping clock, too early to ping
    | Ping(checked: nat, stamped: nat)      // looked at the ping clock, pinged, restarted it
    | Heard(at: nat)                        // a frame was returned, pong clock restarted
    | Quiet(at: nat)                        // nothing to read, but recently heard from
    | Slow(at: nat)                         // nothing to read for too long: timeout reported
  {
    function Start(): nat {
      match this
      case Opened(ping, _) => ping
      case Ping(checked, _) => checked
      case _ => at
    }

    function End(): nat {
      match this
      case Opened(_, pong) => pong
      case Ping(_, stamped) => stamped
      case _ => at
    }
  }

  predicate Begun(log: seq<Event>) {
    log != [] && log[0].Opened?
  }

  /** The ping clock: when it was last restarted. */
  function LastPing(log: seq<Event>): nat
    requires Begun(log)
  {
    var e := log[|log| - 1];
    if e.Opened? then e.ping else if e.Ping? then e.stamped else LastPing(log[..|log| - 1])
  }

  /** The pong clock: when it was last restarted. */
  function LastHeard(log: seq<Event>): nat
    requires Begun(log)
  {
    var e := log[|log| - 1];
    if e.Opened? then e.pong else if e.Heard? then e.at else LastHeard(log[..|log| - 1])
  }

  /** What may be logged next. */
  predicate Rule(log: seq<Event>, e: Event, limit: Option<nat>)
    requires Begun(log)
  {
    && log[|log| - 1].End() <= e.Start() <= e.End()
    && match e
       case Opened(_, _) => false
       case Heard(_) => true
       case Poll(at) => limit.Some? && at - LastPing(log) <= limit.value / 2
       case Ping(checked, _) => limit.Some? && checked - LastPing(log) > limit.value / 2
       case Quiet(at) => limit.Some? && at - LastHeard(log) <= limit.value
       case Slow(at) => limit.Some? && at - LastHeard(log) > limit.value
  }

  ghost predicate WellTimed(log: seq<Event>, limit: Option<nat>) {
    log == [] || (Begun(log) && log[0].ping <= log[0].pong
                  && forall i | 0 < i < |log| :: Rule(log[..i], log[i], limit))
  }

  lemma Extend(log: seq<Event>, e: Event, limit: Option<nat>)
    requires WellTimed(log, limit) && Begun(log) && Rule(log, e, limit)
    ensures WellTimed(log + [e], limit)
  {
    var log' := log + [e];
    forall i | 0 < i < |log'|
      ensures Rule(log'[..i], log'[i], limit)
    {
      assert log'[..i] == log[..i];
      if i == |log| { assert log[..i] == log; }
    }
  }

  // ----- what a well-timed log says -----

  lemma {:induction false} Ordered(log: seq<Event>, limit: Option<nat>, i: nat, j: nat)
    requires WellTimed(log, limit) && i < j < |log|
    ensures log[i].End() <= log[j].Start()
    decreases j
  {
    assert Rule(log[..j], log[j], limit);
    assert log[..j][j - 1] == log[j - 1];
    if i < j - 1 {
      Ordered(log, limit, i, j - 1);
      assert Rule(log[..j - 1], log[j - 1], limit);
    }
  }

  /** The ping clock was last restarted no earlier than at any ping in the log, and at one of
      its events. */
  lemma {:induction false} LastPingBounds(log: seq<Event>, limit: Option<nat>, n: nat)
    requires WellTimed(log, limit) && 0 < n <= |log|
    ensures Begun(log[..n])
    ensures log[0].ping <= LastPing(log[..n])
    ensures forall i | 0 <= i < n && log[i].Ping? :: log[i].stamped <= LastPing(log[..n])
    decreases n
  {
    assert log[..n][0] == log[0];
    if n > 1 {
      LastPingBounds(log, limit, n - 1);
      assert log[..n][..n - 1] == log[..n - 1];
      Ordered(log, limit, 0, n - 1);
      assert Rule(log[..n - 1], log[n - 1], limit);
      forall i | 0 <= i < n - 1 && log[i].Ping?
        ensures log[i].stamped <= LastPing(log[..n])
      {
        Ordered(log, limit, i, n - 1);
        assert Rule(log[..n - 1], log[n - 1], limit);
      }
    }
  }

  lemma {:induction false} LastHeardBounds(log: seq<Event>, limit: Option<nat>, n: nat)
    requires WellTimed(log, limit) && 0 < n <= |log|
    ensures Begun(log[..n])
    ensures log[0].pong <= LastHeard(log[..n])
    ensures forall i | 0 <= i < n && log[i].Heard? :: log[i].at <= LastHeard(log[..n])
    decreases n
  {
    assert log[..n][0] == log[0];
    if n > 1 {
      LastHeardBounds(log, limit, n - 1);
      assert log[..n][..n - 1] == log[..n - 1];
      Ordered(log, limit, 0, n - 1);
      forall i | 0 <= i < n - 1 && log[i].Heard?
        ensures log[i].at <= LastHeard(log[..n])
      {
        Ordered(log, limit, i, n - 1);
        assert Rule(log[..n - 1], log[n - 1], limit);
      }
    }
  }

  /** Any two pings are more than half the pong limit apart, and so is the first from the
      handshake. */
  lemma PingsAreSpaced(log: seq<Event>, limit: nat, i: nat, j: nat)
    requires WellTimed(log, Some(limit)) && i < j < |log| && (log[i].Ping? || log[i].Opened?) && log[j].Ping?
    ensures log[j].checked - (if log[i].Ping? then log[i].stamped else log[i].ping) > limit / 2
  {
    if 0 < i { assert Rule(log[..i], log[i], Some(limit)); }
    LastPingBounds(log, Some(limit), j);
    assert Rule(log[..j], log[j], Some(limit));
  }

  /** A look at the ping clock. */
  predicate Looks(e: Event) {
    e.Poll? || e.Ping?
  }

  predicate NoLook(log: seq<Event>, i: int, j: int) {
    forall k | 0 <= k < |log| && i < k < j :: !Looks(log[k])
  }

  /** Between two looks at the ping clock, and from the handshake to the first, no more than `d`
      milliseconds pass. */
  ghost predicate PolledEvery(log: seq<Event>, d: nat) {
    forall i, j | 0 <= i < j < |log| && (Looks(log[i]) || log[i].Opened?) && Looks(log[j]) && NoLook(log, i, j)
      :: log[j].Start() - log[i].End() <= d
  }

  /** The last look at the ping clock before `j`. */
  lemma {:induction false} PreviousLook(log: seq<Event>, i: nat, j: nat) returns (k: nat)
    requires i < j <= |log| && (Looks(log[i]) || log[i].Opened?)
    ensures i <= k < j && (Looks(log[k]) || k == i)
    ensures NoLook(log, k, j)
    decreases j
  {
    if Looks(log[j - 1]) || j - 1 == i {
      k := j - 1;
    } else {
      k := PreviousLook(log, i, j - 1);
    }
  }

  /** The ping clock still shows ping `i` until the next ping. */
  lemma {:induction false} ClockUnchanged(log: seq<Event>, limit: Option<nat>, i: nat, n: nat)
    requires WellTimed(log, limit) && i < n <= |log| && (log[i].Ping? || log[i].Opened?)
    requires forall k | i < k < n :: !log[k].Ping?
    ensures Begun(log[..n])
    ensures LastPing(log[..n]) == if log[i].Ping? then log[i].stamped else log[i].ping
    decreases n
  {
    assert log[..n][0] == log[0];
    if n > i + 1 {
      ClockUnchanged(log, limit, i, n - 1);
      assert log[..n][..n - 1] == log[..n - 1];
      assert Rule(log[..n - 1], log[n - 1], limit);
    }
  }

  /** A look at the ping clock that does not ping comes within half the limit of the last ping,
      or of the handshake. */
  lemma PollIsEarly(log: seq<Event>, limit: nat, i: nat, k: nat)
    requires WellTimed(log, Some(limit)) && i < k < |log| && (log[i].Ping? || log[i].Opened?) && log[k].Poll?
    requires forall m | i < m < k :: !log[m].Ping?
    ensures log[k].at - log[i].End() <= limit / 2
  {
    ClockUnchanged(log, Some(limit), i, k);
    assert Rule(log[..k], log[k], Some(limit));
    if 0 < i { assert Rule(log[..i], log[i], Some(limit)); }
  }

  /** If the stream is polled at least every `d` milliseconds, the next ping after a ping or the
      handshake follows within half the pong limit plus `d`. */
  lemma PingsAreFrequent(log: seq<Event>, limit: nat, d: nat, i: nat, j: nat)
    requires WellTimed(log, Some(limit)) && i < j < |log| && (log[i].Ping? || log[i].Opened?) && log[j].Ping?
    ensures PolledEvery(log, d) && (forall k | i < k < j :: !log[k].Ping?) ==>
              log[j].checked - log[i].End() <= limit / 2 + d
  {
    hide WellTimed, NoLook;
    if !PolledEvery(log, d) || exists k | i < k < j :: log[k].Ping? { return; }
    var k := PreviousLook(log, i, j);
    assert log[j].Start() - log[k].End() <= d;
    if k > i { PollIsEarly(log, limit, i, k); }
  }

  /** The slow-pong timeout is reported only after a silence longer than the limit: no frame
      was returned, nor the handshake completed, within it. */
  lemma SlowMeansSilent(log: seq<Event>, limit: nat, j: nat)
    requires WellTimed(log, Some(limit)) && j < |log| && log[j].Slow?
    ensures log[j].at - log[0].End() > limit
    ensures forall i | 0 <= i < j && log[i].Heard? :: log[j].at - log[i].at > limit
  {
    LastHeardBounds(log, Some(limit), j);
    assert Rule(log[..j], log[j], Some(limit));
  }
}

/** The redux action loop of an instance: actions are applied one at a time, in the order they
    were dispatched, and an action that cannot get the state lock is tried again before any
    other. */
module ActionLoop {
  import opened Wrappers
  import opened ConsistencyModel

  datatype Emission = Trace(action: Action) | Consistency(signal: Signal)

  datatype WakerRequest = AddWaker(id: nat, waker: nat) | RemoveWaker(id: nat)

  /** What happens around one turn of the loop: actions dispatched before it, whether the lock is
      obtained in time, observers and waker requests that have arrived, observers whose
      receiving end is gone. */
  datatype Turn = Turn(
    arrivals: seq<Action>,
    lock: bool,
    observers: seq<nat>,
    wakerRequests: seq<WakerRequest>,
    gone: set<nat>)

  // ----- the specification: a fold -----

  function Fold<S>(reduce: (S, Action) -> S, s: S, actions: seq<Action>): S {
    if actions == [] then s else
      reduce(Fold(reduce, s, actions[..|actions| - 1]), actions[|actions| - 1])
  }

  function NonPing(actions: seq<Action>): seq<Action> {
    if actions == [] then [] else
      (if actions[0].Ping? then [] else [actions[0]]) + NonPing(actions[1..])
  }

  /** Everything signalled for a sequence of applied actions: a trace of each, followed by the
      consistency signal it causes. */
  function Signals(actions: seq<Action>): seq<Emission> {
    if actions == [] then [] else
      var front, last := actions[..|actions| - 1], actions[|actions| - 1];
      var c := Emitted(front, last);
      Signals(front) + [Trace(last)] + (if c.Some? then [Consistency(c.value)] else [])
  }

  function Retained(u: Option<Action>): seq<Action> {
    if u.Some? then [u.value] else []
  }

  lemma {:induction false} NonPingAppend(a: seq<Action>, b: seq<Action>)
    ensures NonPing(a + b) == NonPing(a) + NonPing(b)
  {
    if a == [] {
      assert a + b == b;
    } else {
      assert (a + b)[1..] == a[1..] + b;
      NonPingAppend(a[1..], b);
    }
  }

  lemma FoldSnoc<S>(reduce: (S, Action) -> S, s: S, actions: seq<Action>, a: Action)
    ensures Fold(reduce, s, actions + [a]) == reduce(Fold(reduce, s, actions), a)
  {
    assert (actions + [a])[..|actions|] == actions;
  }

  lemma SignalsSnoc(actions: seq<Action>, a: Action)
    ensures var c := Emitted(actions, a);
            Signals(actions + [a]) == Signals(actions) + [Trace(a)] + (if c.Some? then [Consistency(c.value)] else [])
  {
    assert (actions + [a])[..|actions|] == actions;
  }

  function Alive(observers: seq<nat>, gone: set<nat>): seq<nat> {
    if observers == [] then [] else
      (if observers[0] in gone then [] else [observers[0]]) + Alive(observers[1..], gone)
  }

  function Answer(wakers: map<nat, nat>, requests: seq<WakerRequest>): map<nat, nat> {
    if requests == [] then wakers else
      var w := Answer(wakers, requests[..|requests| - 1]);
      match requests[|requests| - 1]
      case AddWaker(id, waker) => w[id := waker]
      case RemoveWaker(id) => w - {id}
  }

  // ----- the loop -----

  class Loop<S> {
    const reduce: (S, Action) -> S
    const signalsOn: bool                 // a signal channel is configured
    const model: Model

    var state: S
    var reduxWantsWrite: bool
    var channel: seq<Action>
    var unprocessed: Option<Action>
    var stateObservers: seq<nat>
    var wakers: map<nat, nat>
    var signals: seq<Emission>            // sent on the signal channel
    var ticked: seq<nat>                  // observers ticked, in order
    var woken: seq<set<nat>>              // wakers woken, turn by turn

    ghost const initial: S
    ghost var dispatched: seq<Action>
    ghost var applied: seq<Action>

    /** The actions applied, then the one at hand, then those still in the channel are the
        actions dispatched, pings aside. */
    ghost predicate OrderOk(atHand: Option<Action>)
      reads this`applied, this`channel, this`dispatched
    {
      applied + NonPing(Retained(atHand)) + NonPing(channel) == NonPing(dispatched)
    }

    /** The state is the fold of the applied actions, each of which was signalled once. */
    ghost predicate StateOk()
      reads this`applied, this`state, this`signals, model
    {
      && state == Fold(reduce, initial, applied)
      && model.Valid()
      && (if signalsOn then signals == Signals(applied) && model.history == applied else signals == [])
    }

    /** Between turns the write flag is up exactly while an action is retained, and that is never
        a ping. */
    ghost predicate Valid()
      reads this, model
    {
      OrderOk(unprocessed) && StateOk() && reduxWantsWrite == unprocessed.Some? && unprocessed != Some(Ping)
    }

    constructor (reduce: (S, Action) -> S, initial: S, signalsOn: bool)
      ensures Valid() && this.reduce == reduce && this.initial == initial && this.signalsOn == signalsOn
      ensures dispatched == [] && applied == [] && fresh(model)
    {
      this.reduce, this.signalsOn, this.initial := reduce, signalsOn, initial;
      model := new Model();
      state, reduxWantsWrite := initial, false;
      channel, unprocessed, stateObservers, wakers := [], None, [], map[];
      signals, ticked, woken := [], [], [];
      dispatched, applied := [], [];
    }

    function Backlog(): nat
      reads this
    {
      |channel| + |Retained(unprocessed)|
    }

    method Dispatch(actions: seq<Action>)
      requires Valid()
      modifies this`channel, this`dispatched
      ensures Valid() && channel == old(channel) + actions && dispatched == old(dispatched) + actions
    {
      NonPingAppend(channel, actions);
      NonPingAppend(dispatched, actions);
      hide NonPing;
      channel := channel + actions;
      dispatched := dispatched + actions;
    }

    /** Reduces the state under the lock, or gives up with the flag still up. */
    method ProcessAction(action: Action, lock: bool) returns (ok: bool)
      modifies this`state, this`reduxWantsWrite
      ensures ok == lock && reduxWantsWrite == !lock
      ensures state == if lock then reduce(old(state), action) else old(state)
    {
      reduxWantsWrite := true;
      if !lock { return false; }
      state := reduce(state, action);
      reduxWantsWrite := false;
      return true;
    }

    method EmitSignals(action: Action)
      requires model.Valid()
      modifies this`signals, model
      ensures model.Valid()
      ensures !signalsOn ==> signals == old(signals) && model.history == old(model.history)
      ensures signalsOn ==> model.history == old(model.history) + [action]
      ensures signalsOn ==>
                var c := Emitted(old(model.history), action);
                signals == old(signals) + [Trace(action)] + (if c.Some? then [Consistency(c.value)] else [])
    {
      if signalsOn {
        signals := signals + [Trace(action)];
        var c := model.ProcessAction(action);
        if c.Some? { signals := signals + [Consistency(c.value)]; }
      }
    }

    /** The retained action, or the oldest in the channel. */
    method TakeNext() returns (next: Option<Action>)
      requires OrderOk(unprocessed)
      modifies this`unprocessed, this`channel
      ensures OrderOk(next) && unprocessed.None?
      ensures next == if old(unprocessed).Some? then old(unprocessed)
                      else if old(channel) != [] then Some(old(channel)[0]) else None
      ensures |channel| == |old(channel)| - (if old(unprocessed).None? && old(channel) != [] then 1 else 0)
    {
      hide NonPing;
      if unprocessed.Some? {
        next := unprocessed;
        unprocessed := None;
      } else if channel != [] {
        next := Some(channel[0]);
        NonPingOne(channel[0]);
        NonPingAppend([channel[0]], channel[1..]);
        assert channel == [channel[0]] + channel[1..];
        assert applied + [] == applied;
        assert applied + (NonPing([channel[0]]) + NonPing(channel[1..]))
            == applied + NonPing([channel[0]]) + NonPing(channel[1..]);
        channel := channel[1..];
      } else {
        next := None;
      }
    }

    /** Signals an action just reduced, and tells everyone who waits for a new state. */
    method Announce(action: Action, gone: set<nat>)
      requires model.Valid() && state == reduce(Fold(reduce, initial, applied), action)
      requires if signalsOn then signals == Signals(applied) && model.history == applied else signals == []
      modifies this`signals, this`applied, this`ticked, this`stateObservers, this`woken, model
      ensures StateOk() && applied == old(applied) + [action]
      ensures ticked == old(ticked) + old(stateObservers)
      ensures stateObservers == Alive(old(stateObservers), gone)
      ensures woken == old(woken) + [wakers.Values]
    {
      FoldSnoc(reduce, initial, applied, action);
      SignalsSnoc(applied, action);
      hide Fold, Signals, Emitted;
      EmitSignals(action);
      applied := applied + [action];
      ticked := ticked + stateObservers;
      stateObservers := Alive(stateObservers, gone);
      woken := woken + [wakers.Values];
    }

    /** One turn: nothing to do, a ping, an action applied, or an action retained for the next
        turn.  Only an applied action ticks observers and wakes wakers. */
    method Iterate(turn: Turn) returns (next: Option<Action>)
      requires Valid()
      modifies this, model
      ensures Valid() && dispatched == old(dispatched)
      ensures next == if old(unprocessed).Some? then old(unprocessed)
                      else if old(channel) != [] then Some(old(channel)[0]) else None
      ensures applied == old(applied) + (if next.Some? && !next.value.Ping? && turn.lock then [next.value] else [])
      ensures unprocessed == if next.Some? && !next.value.Ping? && !turn.lock then next else None
      ensures turn.lock ==> Backlog() == if old(Backlog()) == 0 then 0 else old(Backlog()) - 1
      ensures next.Some? ==> wakers == Answer(old(wakers), turn.wakerRequests)
      ensures applied != old(applied) ==>
                && ticked == old(ticked) + (old(stateObservers) + turn.observers)
                && stateObservers == Alive(old(stateObservers) + turn.observers, turn.gone)
                && woken == old(woken) + [wakers.Values]
      ensures applied == old(applied) ==>
                && ticked == old(ticked) && woken == old(woken)
                && stateObservers == old(stateObservers) + (if next.Some? then turn.observers else [])
    {
      hide Fold, Signals, NonPing, Alive, Answer;
      next := TakeNext();
      if next.None? { return; }
      var action := next.value;
      stateObservers := stateObservers + turn.observers;
      wakers := Answer(wakers, turn.wakerRequests);
      NonPingOne(action);
      if action.Ping? {
        assert OrderOk(None);
        return;
      }
      var ok := ProcessAction(action, turn.lock);
      if ok {
        Announce(action, turn.gone);
        assert OrderOk(None);
      } else {
        unprocessed := next;
      }
    }

    method OneTurn(turn: Turn)
      requires Valid()
      modifies this, model
      ensures Valid() && old(applied) <= applied && dispatched == old(dispatched) + turn.arrivals
      ensures turn.lock && turn.arrivals == [] ==> Backlog() == if old(Backlog()) == 0 then 0 else old(Backlog()) - 1
    {
      hide Valid;
      Dispatch(turn.arrivals);
      assert turn.arrivals == [] ==> channel == old(channel);
      var _ := Iterate(turn);
    }

    /** The thread's loop, until it is stopped.  Given the lock often enough it catches up. */
    method Run(turns: seq<Turn>)
      requires Valid()
      modifies this, model
      ensures Valid() && old(applied) <= applied
      ensures dispatched == old(dispatched) + Arrivals(turns)
      ensures Calm(turns) && |turns| >= old(Backlog()) ==> Backlog() == 0
    {
      hide Valid, Backlog, Arrivals, Calm;
      TurnsSnoc(turns, 0);
      ghost var start := Backlog();
      for i := 0 to |turns|
        invariant Valid() && old(applied) <= applied
        invariant dispatched == old(dispatched) + Arrivals(turns[..i])
        invariant Calm(turns[..i]) ==> Backlog() == if i >= start then 0 else start - i
      {
        TurnsSnoc(turns, i);
        OneTurn(turns[i]);
      }
      assert turns[..|turns|] == turns;
    }
  }

  /** All actions dispatched during the given turns. */
  function Arrivals(turns: seq<Turn>): seq<Action> {
    if turns == [] then [] else Arrivals(turns[..|turns| - 1]) + turns[|turns| - 1].arrivals
  }

  /** Turns without arrivals that all get the lock. */
  predicate Calm(turns: seq<Turn>) {
    forall k | 0 <= k < |turns| :: turns[k].lock && turns[k].arrivals == []
  }

  lemma TurnsSnoc(turns: seq<Turn>, i: nat)
    requires i <= |turns|
    ensures Arrivals(turns[..0]) == [] && Calm(turns[..0])
    ensures i < |turns| ==> Arrivals(turns[..i + 1]) == Arrivals(turns[..i]) + turns[i].arrivals
    ensures i < |turns| ==> (Calm(turns[..i + 1]) <==> Calm(turns[..i]) && turns[i].lock && turns[i].arrivals == [])
  {
    if i < |turns| {
      assert turns[..i + 1] == turns[..i] + [turns[i]];
      assert turns[..i + 1][..i] == turns[..i];
    }
  }

  lemma NonPingOne(a: Action)
    ensures NonPing([a]) == if a.Ping? then [] else [a]
    ensures NonPing([]) == []
  {
    assert [a][1..] == [];
  }

  // ----- what the invariant means -----

  /** Whatever the pattern of lock timeouts, the actions applied are a prefix of those dispatched,
      pings aside; once nothing is retained or queued they are all of them, and the state is the
      plain fold of the dispatched actions. */
  lemma RefinesFold<S>(l: Loop<S>)
    requires l.Valid()
    ensures l.applied <= NonPing(l.dispatched)
    ensures l.unprocessed.None? && l.channel == [] ==>
              l.applied == NonPing(l.dispatched) && l.state == Fold(l.reduce, l.initial, NonPing(l.dispatched))
  {
    if l.unprocessed.None? && l.channel == [] {
      assert NonPing(Retained(None)) == [] && NonPing(l.channel) == [];
    }
  }
}

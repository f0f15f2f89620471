/**
  Any number of connect_user calls for one user on distinct open sockets, under any
  scheduling at their await points.  Each call takes the user's lock, looks for a
  socket the user already has, and then either closes its own socket or accepts and
  registers it.
 */
module ConnectRace {
  import opened Common
  import opened Users
  import opened SocketManager

  /** The user's part of the registry: his open held sockets, his entry, and the closes sent. */
  datatype Registry = Registry(held: set<Key>, entry: Option<Key>, closed: map<Key, nat>) {
    predicate Occupied() {
      entry.Some? && entry.value in held
    }
  }

  datatype Phase = Waiting | Holding | Rejecting | Accepting | Done(connected: bool)

  /** `served` lists the calls in the order in which they returned. */
  datatype State = State(registry: Registry, lock: Option<nat>, phases: seq<Phase>, served: seq<nat>)

  datatype Step = Acquire(caller: nat) | Check(caller: nat) | Close(caller: nat) | Register(caller: nat)

  function Init(r: Registry, n: nat): State {
    State(r, None, seq(n, _ => Waiting), [])
  }

  predicate Enabled(s: State, step: Step) {
    && step.caller < |s.phases|
    && match step
       case Acquire(i) => s.phases[i].Waiting? && s.lock.None?
       case Check(i) => s.phases[i].Holding?
       case Close(i) => s.phases[i].Rejecting?
       case Register(i) => s.phases[i].Accepting?
  }

  function Next(keys: seq<Key>, s: State, step: Step): (s': State)
    requires |s.phases| == |keys| && Enabled(s, step)
    ensures |s'.phases| == |keys|
  {
    match step
    case Acquire(i) => s.(lock := Some(i), phases := s.phases[i := Holding])
    case Check(i) => s.(phases := s.phases[i := if s.registry.Occupied() then Rejecting else Accepting])
    case Close(i) =>
      s.(registry := s.registry.(closed := s.registry.closed[keys[i] := POLICY_VIOLATION]),
         lock := None, phases := s.phases[i := Done(false)], served := s.served + [i])
    case Register(i) =>
      s.(registry := s.registry.(held := s.registry.held + {keys[i]}, entry := Some(keys[i])),
         lock := None, phases := s.phases[i := Done(true)], served := s.served + [i])
  }

  function Execute(r: Registry, keys: seq<Key>, steps: seq<Step>): (o: Option<State>)
    ensures o.Some? ==> |o.value.phases| == |keys|
  {
    if steps == [] then Some(Init(r, |keys|))
    else
      match Execute(r, keys, steps[..|steps| - 1])
      case None => None
      case Some(s) =>
        var step := steps[|steps| - 1];
        if Enabled(s, step) then Some(Next(keys, s, step)) else None
  }

  // ------------------------------------------------------------------------
  // The calls one after another
  // ------------------------------------------------------------------------

  /** One uninterrupted call. */
  function Serve(r: Registry, key: Key): Registry {
    if r.Occupied() then r.(closed := r.closed[key := POLICY_VIOLATION])
    else r.(held := r.held + {key}, entry := Some(key))
  }

  predicate Callers(order: seq<nat>, n: nat) {
    forall k :: 0 <= k < |order| ==> order[k] < n
  }

  function OpenKeys(m: SocketConnectionManager): set<Key>
    reads m, m.activeConnections.Values
  {
    set k | k in m.activeConnections && m.activeConnections[k].IsOpen()
  }

  function EntryOf(m: SocketConnectionManager, u: UserId): Option<Key>
    reads m
  {
    if u in m.activeConnectionsUserMap then Some(m.activeConnectionsUserMap[u]) else None
  }

  /** The manager's connect_user, run alone on a new open socket, does what Serve says. */
  method ConnectAlone(m: SocketConnectionManager, u: UserId, ws: WebSocket) returns (connected: bool)
    requires m.Model().Keyed() && ws.user == u && ws.key !in m.activeConnections && ws.IsOpen()
    modifies m, ws
    ensures m.Model().Keyed() && (old(m.Valid()) ==> m.Valid())
    ensures var before := Registry(old(OpenKeys(m)), old(EntryOf(m, u)), map[]);
            var after := Serve(before, ws.key);
            && connected == !before.Occupied()
            && OpenKeys(m) == after.held && EntryOf(m, u) == after.entry
            && ws.closes == old(ws.closes) + if ws.key in after.closed then [after.closed[ws.key]] else []
  {
    connected := m.ConnectUser(u, ws);
    if connected {
      forall k ensures k in OpenKeys(m) <==> k in old(OpenKeys(m)) || k == ws.key {
        assert k in old(m.activeConnections) ==> old(m.activeConnections)[k].key == k;
      }
    }
  }

  function ServeAll(r: Registry, keys: seq<Key>, order: seq<nat>): Registry
    requires Callers(order, |keys|)
  {
    if order == [] then r else Serve(ServeAll(r, keys, order[..|order| - 1]), keys[order[|order| - 1]])
  }

  /** Which call of an order is told that it is connected. */
  predicate Wins(r: Registry, order: seq<nat>, i: nat) {
    !r.Occupied() && order != [] && order[0] == i
  }

  predicate DistinctSockets(r: Registry, keys: seq<Key>) {
    && r.closed == map[]
    && (forall i :: 0 <= i < |keys| ==> keys[i] !in r.held)
    && forall i, j :: 0 <= i < j < |keys| ==> keys[i] != keys[j]
  }

  /** One after another, the first is registered if nobody was, and all others are closed. */
  lemma {:induction false} FirstServedIsRegistered(r: Registry, keys: seq<Key>, order: seq<nat>)
    requires DistinctSockets(r, keys)
    requires Callers(order, |keys|)
    requires forall a, b :: 0 <= a < b < |order| ==> order[a] != order[b]
    ensures var end := ServeAll(r, keys, order);
            && (order != [] ==> end.Occupied())
            && (forall i: nat :: i in order ==> (Wins(r, order, i) <==> end.entry == Some(keys[i]) && keys[i] in end.held))
            && (forall i :: 0 <= i < |keys| ==> (keys[i] in end.held <==> i in order && Wins(r, order, i)))
            && (forall i :: 0 <= i < |keys| ==> (keys[i] in end.closed <==> i in order && !Wins(r, order, i)))
            && (forall k :: k in end.closed ==> end.closed[k] == POLICY_VIOLATION)
  {
    if order == [] {
    } else {
      var before, last := order[..|order| - 1], order[|order| - 1];
      FirstServedIsRegistered(r, keys, before);
      assert last !in before;
      assert order == before + [last];
    }
  }

  // ------------------------------------------------------------------------
  // The lock makes every interleaving equal to some such order
  // ------------------------------------------------------------------------

  ghost predicate Inv(r: Registry, keys: seq<Key>, s: State) {
    && |s.phases| == |keys|
    && Callers(s.served, |keys|)
    && (forall i :: 0 <= i < |keys| ==> (i in s.served <==> s.phases[i].Done?))
    && (forall a, b :: 0 <= a < b < |s.served| ==> s.served[a] != s.served[b])
    && s.registry == ServeAll(r, keys, s.served)
    && (forall i :: 0 <= i < |keys| ==> CallerInv(r, s, i))
    && (s.lock.Some? ==> s.lock.value < |keys|)
  }

  ghost predicate CallerInv(r: Registry, s: State, i: nat)
    requires i < |s.phases|
  {
    && (s.lock == Some(i) <==> s.phases[i].Holding? || s.phases[i].Rejecting? || s.phases[i].Accepting?)
    && (s.phases[i].Rejecting? ==> s.registry.Occupied())
    && (s.phases[i].Accepting? ==> !s.registry.Occupied())
    && (s.phases[i].Done? ==> s.phases[i].connected == Wins(r, s.served, i))
  }

  lemma {:induction false} OccupiedOnceServed(r: Registry, keys: seq<Key>, order: seq<nat>)
    requires Callers(order, |keys|)
    ensures ServeAll(r, keys, order).Occupied() <==> r.Occupied() || order != []
  {
    if order == [] {
    } else {
      OccupiedOnceServed(r, keys, order[..|order| - 1]);
    }
  }

  lemma StepKeepsCaller(r: Registry, keys: seq<Key>, s: State, step: Step, i: nat)
    requires Inv(r, keys, s) && Enabled(s, step) && i < |keys|
    ensures CallerInv(r, Next(keys, s, step), i)
  {
    assert CallerInv(r, s, i) && CallerInv(r, s, step.caller);
    OccupiedOnceServed(r, keys, s.served);
  }

  lemma StepKeepsServed(r: Registry, keys: seq<Key>, s: State, step: Step)
    requires Inv(r, keys, s) && Enabled(s, step)
    ensures var s' := Next(keys, s, step);
            && Callers(s'.served, |keys|) && s'.registry == ServeAll(r, keys, s'.served)
            && (forall i :: 0 <= i < |keys| ==> (i in s'.served <==> s'.phases[i].Done?))
            && (forall a, b :: 0 <= a < b < |s'.served| ==> s'.served[a] != s'.served[b])
  {
    var s' := Next(keys, s, step);
    assert CallerInv(r, s, step.caller);
    if step.Close? || step.Register? {
      assert s'.served[..|s'.served| - 1] == s.served;
      assert step.caller !in s.served;
    }
  }

  lemma StepKeepsInv(r: Registry, keys: seq<Key>, s: State, step: Step)
    requires Inv(r, keys, s) && Enabled(s, step)
    ensures Inv(r, keys, Next(keys, s, step))
  {
    StepKeepsServed(r, keys, s, step);
    forall i | 0 <= i < |keys| ensures CallerInv(r, Next(keys, s, step), i) {
      StepKeepsCaller(r, keys, s, step, i);
    }
  }

  lemma {:induction false} ReachableInv(r: Registry, keys: seq<Key>, steps: seq<Step>)
    requires DistinctSockets(r, keys) && Execute(r, keys, steps).Some?
    ensures Inv(r, keys, Execute(r, keys, steps).value)
  {
    if steps == [] {
    } else {
      ReachableInv(r, keys, steps[..|steps| - 1]);
      StepKeepsInv(r, keys, Execute(r, keys, steps[..|steps| - 1]).value, steps[|steps| - 1]);
    }
  }

  /**
    Once all calls have returned, and unless the user was connected before, exactly
    one of them returned True; its socket is the registered one, and every other
    socket was closed with 1008.
   */
  lemma ExactlyOneConnects(r: Registry, keys: seq<Key>, steps: seq<Step>) returns (winner: nat)
    requires DistinctSockets(r, keys) && !r.Occupied() && 0 < |keys|
    requires Execute(r, keys, steps).Some?
    requires forall i :: 0 <= i < |keys| ==> Execute(r, keys, steps).value.phases[i].Done?
    ensures winner < |keys|
    ensures var s := Execute(r, keys, steps).value;
            && s.registry.entry == Some(keys[winner]) && keys[winner] in s.registry.held
            && forall i :: 0 <= i < |keys| ==>
                 && s.phases[i] == Done(i == winner)
                 && (keys[i] in s.registry.closed <==> i != winner)
                 && (i != winner ==> s.registry.closed[keys[i]] == 1008)
  {
    ReachableInv(r, keys, steps);
    var s := Execute(r, keys, steps).value;
    FirstServedIsRegistered(r, keys, s.served);
    assert 0 in s.served;
    winner := s.served[0];
    assert winner in s.served;
    forall i | 0 <= i < |keys| ensures s.phases[i] == Done(i == winner) && i in s.served {
      assert CallerInv(r, s, i);
    }
  }

  /** Somebody already connected stays so, and every call is turned away. */
  lemma OccupiedRejectsAll(r: Registry, keys: seq<Key>, steps: seq<Step>, i: nat)
    requires DistinctSockets(r, keys) && r.Occupied() && i < |keys|
    requires Execute(r, keys, steps).Some? && Execute(r, keys, steps).value.phases[i].Done?
    ensures var s := Execute(r, keys, steps).value;
            && s.phases[i] == Done(false)
            && keys[i] in s.registry.closed && s.registry.closed[keys[i]] == 1008
            && keys[i] !in s.registry.held
  {
    ReachableInv(r, keys, steps);
    var s := Execute(r, keys, steps).value;
    assert CallerInv(r, s, i) && i in s.served;
    FirstServedIsRegistered(r, keys, s.served);
  }

  /** No deadlock: until all calls have returned, some call can move. */
  lemma SomebodyCanMove(r: Registry, keys: seq<Key>, steps: seq<Step>, i: nat) returns (step: Step)
    requires DistinctSockets(r, keys) && i < |keys|
    requires Execute(r, keys, steps).Some? && !Execute(r, keys, steps).value.phases[i].Done?
    ensures Enabled(Execute(r, keys, steps).value, step)
  {
    ReachableInv(r, keys, steps);
    var s := Execute(r, keys, steps).value;
    assert CallerInv(r, s, i);
    var j := if s.lock.Some? then s.lock.value else i;
    assert CallerInv(r, s, j);
    step := if s.phases[j].Holding? then Check(j)
            else if s.phases[j].Rejecting? then Close(j)
            else if s.phases[j].Accepting? then Register(j)
            else Acquire(j);
  }

  function StepsLeft(phases: seq<Phase>): nat {
    if phases == [] then 0
    else StepsLeft(phases[1..]) + match phases[0]
      case Waiting => 3
      case Holding => 2
      case Done(_) => 0
      case _ => 1
  }

  lemma {:induction false} StepsLeftFalls(phases: seq<Phase>, i: nat, p: Phase)
    requires i < |phases|
    ensures StepsLeft(phases[i := p]) - StepsLeft(phases) == StepsLeft([p]) - StepsLeft([phases[i]])
  {
    if i == 0 {
      assert phases[0 := p][1..] == phases[1..];
    } else {
      assert phases[i := p][1..] == phases[1..][i - 1 := p];
      StepsLeftFalls(phases[1..], i - 1, p);
    }
  }

  lemma {:induction false} AllWaiting(n: nat)
    ensures StepsLeft(seq(n, _ => Waiting)) == 3 * n
  {
    if n == 0 {
    } else {
      assert seq(n, _ => Waiting)[1..] == seq(n - 1, _ => Waiting);
      AllWaiting(n - 1);
    }
  }

  /** Every run ends: three steps a call, no more. */
  lemma {:induction false} RunsAreShort(r: Registry, keys: seq<Key>, steps: seq<Step>)
    requires Execute(r, keys, steps).Some?
    ensures |steps| + StepsLeft(Execute(r, keys, steps).value.phases) == 3 * |keys|
  {
    if steps == [] {
      AllWaiting(|keys|);
    } else {
      var before, step := steps[..|steps| - 1], steps[|steps| - 1];
      RunsAreShort(r, keys, before);
      var s := Execute(r, keys, before).value;
      StepsLeftFalls(s.phases, step.caller, Next(keys, s, step).phases[step.caller]);
    }
  }
}

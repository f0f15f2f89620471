/**
  The websocket registry: which sockets are held, which one a user is reached by,
  and whom a socket belongs to.  Operations run one at a time here; `ConnectRace`
  interleaves concurrent connects.
 */
module SocketManager {
  import opened Common
  import opened Users

  /** id() of an object: an address, unique among objects that are alive. */
  type Key = k: nat | 0 < k witness 1

  datatype SocketState = Connecting | Connected | Disconnected | Response

  const CLOSE_NORMAL: nat := 1000
  const POLICY_VIOLATION: nat := 1008

  class WebSocket {
    const key: Key
    const user: UserId          // whom the socket was authenticated for
    var clientState: SocketState
    var closes: seq<nat>        // close codes sent

    constructor (key: Key, user: UserId)
      ensures this.key == key && this.user == user && clientState == Connecting && closes == []
    {
      this.key, this.user := key, user;
      clientState, closes := Connecting, [];
    }

    predicate IsOpen() reads this {
      clientState == Connected || clientState == Connecting
    }
  }

  /** The maps of the manager as one value. */
  datatype Tables = Tables(
    held: map<Key, WebSocket>,
    entries: map<UserId, Key>,
    users: map<Key, UserId>,
    locks: set<UserId>)
  {
    /** A held socket is held under its own address. */
    ghost predicate Keyed() {
      forall k :: k in held ==> held[k].key == k
    }

    /** A user's key maps back to that user, and a mapped key that is held is held for the user it maps to. */
    ghost predicate Sound() {
      && Keyed()
      && (forall u :: u in entries ==> entries[u] in users && users[entries[u]] == u)
      && (forall k :: k in users && k in held ==> held[k].user == users[k])
    }

    /** And every mapped key is held, which keeps its address from being reused. */
    ghost predicate Consistent() {
      Sound() && forall k :: k in users ==> k in held
    }

    /** Another user's entry names this address. */
    ghost predicate NamedByOther(key: Key, u: UserId) {
      exists v :: v in entries && v != u && entries[v] == key
    }

    /** The users these keys map back to. */
    ghost function UsersOf(keys: set<Key>): set<UserId> {
      set k | k in keys && k in users :: users[k]
    }

    ghost function Without(keys: set<Key>): Tables {
      Tables(held - keys, entries - UsersOf(keys), users - keys, locks - UsersOf(keys))
    }
  }

  class SocketConnectionManager {
    var activeConnections: map<Key, WebSocket>
    var activeConnectionsUserMap: map<UserId, Key>
    var wsToUserIdMap: map<Key, UserId>
    var userLocks: set<UserId>

    function Model(): Tables reads this {
      Tables(activeConnections, activeConnectionsUserMap, wsToUserIdMap, userLocks)
    }

    ghost predicate Valid() reads this {
      Model().Consistent()
    }

    ghost predicate Sound() reads this {
      Model().Sound()
    }

    constructor ()
      ensures Valid() && Model() == Tables(map[], map[], map[], {})
    {
      activeConnections, activeConnectionsUserMap, wsToUserIdMap, userLocks := map[], map[], map[], {};
    }

    method Connect(ws: WebSocket)
      modifies this`activeConnections, ws`clientState
      ensures activeConnections == old(activeConnections)[ws.key := ws]
      ensures ws.clientState == if old(ws.clientState) == Connecting then Connected else old(ws.clientState)
    {
      if ws.clientState == Connecting {
        ws.clientState := Connected;  // accept() receives the connect message
      }
      activeConnections := activeConnections[ws.key := ws];
    }

    /** Called on its own for a socket whose authentication failed, which nothing maps. */
    method Disconnect(ws: WebSocket, code: nat)
      modifies this`activeConnections, ws`closes
      ensures activeConnections == old(activeConnections) - {ws.key}
      ensures ws.clientState in {Connecting, Connected} ==> ws.closes == old(ws.closes) + [code]
      ensures ws.clientState !in {Connecting, Connected} ==> ws.closes == old(ws.closes)
      ensures old(Sound()) ==> Sound()
      ensures old(Valid()) ==> (Valid() <==> ws.key !in wsToUserIdMap)
    {
      ghost var before := Model();
      activeConnections := activeConnections - {ws.key};
      if before.Sound() { DroppedIsSound(before, ws.key, userLocks); }
      if before.Consistent() { DroppedIsConsistentIff(before, ws.key, userLocks); }
      if ws.IsOpen() {
        ws.closes := ws.closes + [code];
      }
    }

    /** The user's registered socket is held and still open, by the client's side of it. */
    predicate Occupied(u: UserId)
      reads this, activeConnections.Values
    {
      && u in activeConnectionsUserMap
      && activeConnectionsUserMap[u] in activeConnections
      && activeConnections[activeConnectionsUserMap[u]].IsOpen()
    }

    method IsExistsDeviceWs(u: UserId, ws: WebSocket) returns (exists_: bool)
      modifies this`activeConnections, ws`closes
      ensures exists_ == old(Occupied(u))
      ensures exists_ <==>
                && u in activeConnectionsUserMap && activeConnectionsUserMap[u] in old(activeConnections)
                && old(activeConnections[activeConnectionsUserMap[u]].clientState) in {Connecting, Connected}
      ensures activeConnections == if exists_ then old(activeConnections) - {ws.key} else old(activeConnections)
      ensures ws.closes == if exists_ && ws.IsOpen() then old(ws.closes) + [1008] else old(ws.closes)
    {
      if u !in activeConnectionsUserMap { return false; }
      var key := activeConnectionsUserMap[u];
      if key in activeConnections && activeConnections[key].IsOpen() {
        Disconnect(ws, POLICY_VIOLATION);
        return true;
      }
      return false;
    }

    /**
      A rejected socket is dropped even if it is held already: connecting a mapped
      socket again, and only that, leaves a mapped key that nothing holds.  After that
      a new socket may come at the same address; the registry stays sound unless
      another user's entry still names it.
     */
    method ConnectUser(u: UserId, ws: WebSocket) returns (connected: bool)
      requires ws.user == u && Identifies(activeConnections, ws)
      modifies this, ws
      ensures connected == !old(Occupied(u)) && userLocks == old(userLocks) + {u}
      ensures old(Valid()) ==> (Valid() <==> connected || ws.key !in old(wsToUserIdMap))
      ensures old(Sound()) ==> (Sound() <==> !connected || !old(Model().NamedByOther(ws.key, u)))
      ensures connected ==>
                && activeConnections == old(activeConnections)[ws.key := ws]
                && activeConnectionsUserMap == old(activeConnectionsUserMap)[u := ws.key]
                && wsToUserIdMap == old(wsToUserIdMap)[ws.key := u]
                && ws.closes == old(ws.closes)
                && ws.clientState == if old(ws.clientState) == Connecting then Connected else old(ws.clientState)
      ensures !connected ==>
                && activeConnections == old(activeConnections) - {ws.key}
                && activeConnectionsUserMap == old(activeConnectionsUserMap)
                && wsToUserIdMap == old(wsToUserIdMap)
                && ws.closes == old(ws.closes) + (if old(ws.IsOpen()) then [1008] else [])
                && ws.clientState == old(ws.clientState)
    {
      ghost var before := Model();
      userLocks := userLocks + {u};
      var rejected := IsExistsDeviceWs(u, ws);
      if rejected {
        if before.Sound() { DroppedIsSound(before, ws.key, userLocks); }
        if before.Consistent() { DroppedIsConsistentIff(before, ws.key, userLocks); }
        return false;
      }
      if before.Sound() { RegisteredIsSoundIff(before, ws); }
      if before.Consistent() { RegisteredIsConsistent(before, ws); }
      Connect(ws);
      activeConnectionsUserMap := activeConnectionsUserMap[u := ws.key];
      wsToUserIdMap := wsToUserIdMap[ws.key := u];
      return true;
    }

    /** The user's entry goes even when it names a newer socket. */
    method DisconnectUser(u: UserId, ws: Option<WebSocket>, code: nat)
      modifies this
      modifies (if ws.Some? then {ws.value} else {})`closes
      ensures ws.None? ==>
                && activeConnections == old(activeConnections)
                && activeConnectionsUserMap == old(activeConnectionsUserMap)
                && wsToUserIdMap == old(wsToUserIdMap)
                && userLocks == old(userLocks)
      ensures ws.Some? ==>
                && activeConnections == old(activeConnections) - {ws.value.key}
                && activeConnectionsUserMap == old(activeConnectionsUserMap) - {u}
                && wsToUserIdMap == old(wsToUserIdMap) - {ws.value.key}
                && userLocks == old(userLocks) - {u}
                && ws.value.closes == old(ws.value.closes) + if ws.value.IsOpen() then [code] else []
      ensures old(Valid()) && (ws.Some? ==> ws.value.user == u && Identifies(old(activeConnections), ws.value)) ==> Valid()
      ensures old(Sound()) ==> (Sound() <==> ws.None? || !old(Model()).NamedByOther(ws.value.key, u))
    {
      if ws.None? { return; }
      ghost var before := Model();
      activeConnectionsUserMap := activeConnectionsUserMap - {u};
      wsToUserIdMap := wsToUserIdMap - {ws.value.key};
      userLocks := userLocks - {u};
      Disconnect(ws.value, code);
      assert Model() == Forgotten(before, u, ws.value.key);
      if before.Sound() { ForgottenIsSoundIff(before, u, ws.value.key); }
      if before.Consistent() && ws.value.user == u && Identifies(before.held, ws.value) {
        ForgottenIsConsistent(before, ws.value);
      }
    }

    /** The held socket of the user's entry; in a sound registry it is the user's own, in a valid one it is there. */
    method GetSocketForSession(u: UserId) returns (ws: Option<WebSocket>)
      ensures ws.Some? <==> u in activeConnectionsUserMap && activeConnectionsUserMap[u] in activeConnections
      ensures ws.Some? ==> ws.value == activeConnections[activeConnectionsUserMap[u]]
      ensures Sound() && ws.Some? ==> ws.value.user == u && ws.value.key in activeConnections
      ensures Valid() ==> (ws.Some? <==> u in activeConnectionsUserMap)
    {
      if u in activeConnectionsUserMap {
        var key := activeConnectionsUserMap[u];
        return if key in activeConnections then Some(activeConnections[key]) else None;
      }
      return None;
    }

    function DeadKeys(): set<Key> reads this, activeConnections.Values {
      set k | k in activeConnections && activeConnections[k].clientState != Connected
    }

    ghost function DeadSockets(): set<WebSocket> reads this, activeConnections.Values {
      set k | k in DeadKeys() :: activeConnections[k]
    }

    /**
      One sweep without interruption.  What is left is exactly what is connected, and
      nothing else is closed; a user keeps the entry exactly when none of the swept
      sockets belonged to him.
     */
    method CleanupConnections()
      requires Model().Keyed()
      modifies this
      modifies DeadSockets()`closes
      ensures Model().Keyed()
      ensures old(Sound()) ==> Sound()
      ensures old(Valid()) ==> Valid()
      ensures Model() == old(Model()).Without(old(DeadKeys()))
      ensures forall k :: k in activeConnections <==>
                            k in old(activeConnections) && old(activeConnections[k].clientState) == Connected
    {
      ghost var before := Model();
      var dead := DeadKeys();
      var todo := dead;
      ghost var done: set<Key> := {};
      NothingSwept(before);
      while todo != {}
        invariant Halves(todo, done, dead)
        invariant Model() == before.Without(done)
        decreases |todo|
      {
        var key :| key in todo;
        assert key in before.held && activeConnections[key] == before.held[key];
        SweepOne(key);
        OneMoreSwept(before, done, key);
        MoveOver(todo, done, dead, key);
        todo, done := todo - {key}, done + {key};
      }
      assert done == dead;
      if before.Sound() { SweptIsSound(before, dead); }
      if before.Consistent() { SweptIsConsistent(before, dead); }
    }

    /** The loop body for one dead key, which is held until its turn comes. */
    method SweepOne(key: Key)
      requires key in activeConnections && activeConnections[key].key == key
      modifies this
      modifies {activeConnections[key]}`closes
      ensures Model() == old(Model()).Without({key})
      ensures var ws := old(activeConnections[key]);
              var reached := key in old(wsToUserIdMap) && old(wsToUserIdMap)[key] in old(activeConnectionsUserMap);
              ws.closes == old(activeConnections[key].closes) + if reached && ws.IsOpen() then [1000] else []
      ensures activeConnections == old(activeConnections) - {key} && wsToUserIdMap == old(wsToUserIdMap) - {key}
      ensures key in old(wsToUserIdMap) ==>
                && activeConnectionsUserMap == old(activeConnectionsUserMap) - {old(wsToUserIdMap)[key]}
                && userLocks == old(userLocks) - {old(wsToUserIdMap)[key]}
      ensures key !in old(wsToUserIdMap) ==>
                activeConnectionsUserMap == old(activeConnectionsUserMap) && userLocks == old(userLocks)
    {
      ghost var before := Model();
      if key in wsToUserIdMap {
        var u := wsToUserIdMap[key];
        assert before.UsersOf({key}) == {u};
        wsToUserIdMap := wsToUserIdMap - {key};
        userLocks := userLocks - {u};
        if u in activeConnectionsUserMap {
          DisconnectUser(u, Some(activeConnections[key]), CLOSE_NORMAL);
        }
      }
      activeConnections := activeConnections - {key};
    }
  }

  /** id() is unique among live objects. */
  ghost predicate Identifies(held: map<Key, WebSocket>, ws: WebSocket) {
    ws.key in held ==> held[ws.key] == ws
  }

  function Registered(t: Tables, ws: WebSocket): Tables {
    Tables(t.held[ws.key := ws], t.entries[ws.user := ws.key], t.users[ws.key := ws.user], t.locks + {ws.user})
  }

  function Dropped(t: Tables, key: Key, locks: set<UserId>): Tables {
    Tables(t.held - {key}, t.entries, t.users, locks)
  }

  function Forgotten(t: Tables, u: UserId, key: Key): Tables {
    Tables(t.held - {key}, t.entries - {u}, t.users - {key}, t.locks - {u})
  }

  lemma RegisteredIsSoundIff(t: Tables, ws: WebSocket)
    requires t.Sound()
    ensures Registered(t, ws).Sound() <==> !t.NamedByOther(ws.key, ws.user)
  {
    var after := Registered(t, ws);
    if v :| v in t.entries && v != ws.user && t.entries[v] == ws.key {
      assert v in after.entries && after.entries[v] == ws.key && after.users[ws.key] != v;
    }
  }

  lemma RegisteredIsConsistent(t: Tables, ws: WebSocket)
    requires t.Consistent() && Identifies(t.held, ws)
    ensures Registered(t, ws).Consistent() && !t.NamedByOther(ws.key, ws.user)
  {
  }

  lemma DroppedIsSound(t: Tables, key: Key, locks: set<UserId>)
    requires t.Sound()
    ensures Dropped(t, key, locks).Sound()
  {
  }

  lemma DroppedIsConsistentIff(t: Tables, key: Key, locks: set<UserId>)
    requires t.Consistent()
    ensures Dropped(t, key, locks).Consistent() <==> key !in t.users
  {
  }

  lemma ForgottenIsSoundIff(t: Tables, u: UserId, key: Key)
    requires t.Sound()
    ensures Forgotten(t, u, key).Sound() <==> !t.NamedByOther(key, u)
  {
    var after := Forgotten(t, u, key);
    if v :| v in t.entries && v != u && t.entries[v] == key {
      assert v in after.entries && after.entries[v] !in after.users;
    }
  }

  lemma ForgottenIsConsistent(t: Tables, ws: WebSocket)
    requires t.Consistent() && Identifies(t.held, ws)
    ensures Forgotten(t, ws.user, ws.key).Consistent()
  {
  }

  ghost predicate Halves(todo: set<Key>, done: set<Key>, all: set<Key>) {
    todo !! done && todo + done == all
  }

  lemma MoveOver(todo: set<Key>, done: set<Key>, all: set<Key>, key: Key)
    requires Halves(todo, done, all) && key in todo
    ensures Halves(todo - {key}, done + {key}, all) && |todo - {key}| < |todo|
  {
  }

  lemma NothingSwept(t: Tables)
    ensures t.Without({}) == t
  {
  }

  lemma OneMoreSwept(t: Tables, done: set<Key>, key: Key)
    ensures t.Without(done).Without({key}) == t.Without(done + {key})
  {
    assert t.UsersOf(done + {key}) == t.UsersOf(done) + t.Without(done).UsersOf({key});
  }

  /** Even when several of the swept sockets belong to one user. */
  lemma SweptIsSound(t: Tables, dead: set<Key>)
    requires t.Sound()
    ensures t.Without(dead).Sound()
  {
    forall u | u in t.Without(dead).entries ensures t.entries[u] !in dead {
      assert t.entries[u] in dead ==> u in t.UsersOf(dead);
    }
  }

  lemma SweptIsConsistent(t: Tables, dead: set<Key>)
    requires t.Consistent()
    ensures t.Without(dead).Consistent()
  {
    SweptIsSound(t, dead);
  }

  /** A registered socket that survives a sweep loses its entry exactly when another mapped socket of the user is swept. */
  lemma LiveEntryLostIff(t: Tables, dead: set<Key>, u: UserId)
    requires t.Consistent() && u in t.entries && t.entries[u] !in dead
    ensures t.entries[u] in t.Without(dead).held
    ensures u !in t.Without(dead).entries <==> exists k :: k in dead && k in t.users && t.users[k] == u
  {
    assert t.entries[u] in t.users;
  }

  /** It happens: the user came back before the sweep found his first socket dead. */
  method SweepForgetsLiveSocket(u: UserId) returns (m: SocketConnectionManager, older: WebSocket, newer: WebSocket)
    ensures fresh(m) && m.Valid()
    ensures newer.user == u && newer.clientState == Connected
    ensures newer.key in m.activeConnections && m.activeConnections[newer.key] == newer
    ensures u !in m.activeConnectionsUserMap
  {
    m, older, newer := ComeBack(u);
    ghost var before := m.Model();
    assert m.DeadKeys() == {1} && before.users[1] == u;
    m.CleanupConnections();
    LiveEntryLostIff(before, {1}, u);
  }

  /** A registered socket that connects again is turned away and dropped, but stays the user's entry. */
  method ConnectTwice(u: UserId) returns (m: SocketConnectionManager, ws: WebSocket)
    ensures fresh(m) && fresh(ws) && !m.Valid() && m.Sound()
    ensures m.Model() == Tables(map[], map[u := ws.key], map[ws.key := u], {u})
    ensures ws.closes == [POLICY_VIOLATION]
  {
    m := new SocketConnectionManager();
    ws := new WebSocket(1, u);
    var first := m.ConnectUser(u, ws);
    assert m.Model() == Tables(map[1 := ws], map[u := 1], map[1 := u], {u});
    var second := m.ConnectUser(u, ws);
    assert first && !second;
    assert map[1 := ws] - {1} == map[];
  }

  /** The dropped socket's address is given to a socket of another user, who is then found under both users' entries. */
  method AddressReused(u: UserId, v: UserId) returns (m: SocketConnectionManager, found: Option<WebSocket>)
    requires u != v
    ensures fresh(m) && !m.Sound()
    ensures found.Some? && found.value.user == v
    ensures u in m.activeConnectionsUserMap && m.activeConnectionsUserMap[u] == found.value.key
  {
    var ws;
    m, ws := ConnectTwice(u);
    var other := new WebSocket(ws.key, v);
    assert m.Model().entries[u] == other.key;
    assert m.Model().NamedByOther(other.key, v);
    var connected := m.ConnectUser(v, other);
    found := m.GetSocketForSession(u);
  }

  method ComeBack(u: UserId) returns (m: SocketConnectionManager, older: WebSocket, newer: WebSocket)
    ensures fresh(m) && fresh(older) && fresh(newer) && m.Valid()
    ensures m.Model() == Tables(map[1 := older, 2 := newer], map[u := 2], map[1 := u, 2 := u], {u})
    ensures older.clientState == Disconnected && newer.clientState == Connected
  {
    m := new SocketConnectionManager();
    older := new WebSocket(1, u);
    newer := new WebSocket(2, u);
    var _ := m.ConnectUser(u, older);
    assert m.Model() == Tables(map[1 := older], map[u := 1], map[1 := u], {u});
    older.clientState := Disconnected;
    var _ := m.ConnectUser(u, newer);
    assert map[u := 1][u := 2] == map[u := 2] && {u} + {u} == {u};
  }
}

/**
  Many senders at once: the GET, the SET and the script call of one send procedure
  are separate commands, and commands of different senders interleave freely.
 */
module DialogRaces {
  import opened Common
  import opened Users
  import opened SortedSets
  import opened DialogStore

  /** One call of the send procedure with the two ids uuid4() gives it. */
  datatype Request = Request(sender: UserId, receiver: UserId, text: string, now: int,
                             newConversation: ConversationId, newMessage: MessageId)
  {
    function Peers(): Pair { PairOf(sender, receiver) }

    function ToMessage(conv: Conversation): Message {
      Message(newMessage, conv.id, sender, now, text)
    }
  }

  /** Where a sender is in the procedure. */
  datatype Phase =
    | Begun
    | Missed(minted: Conversation)  // GET found nothing, the new conversation is not stored yet
    | Ready(conv: Conversation)     // conversation known, script not called yet
    | Sent(conv: Conversation)

  datatype Command = Get(sender: nat) | Set(sender: nat) | Script(sender: nat)

  datatype State = State(store: Store, phases: seq<Phase>, minted: map<ConversationId, Pair>)

  ghost predicate FreshIds(requests: seq<Request>) {
    forall i, j :: 0 <= i < j < |requests| ==>
      requests[i].newConversation != requests[j].newConversation && requests[i].newMessage != requests[j].newMessage
  }

  function Init(n: nat): State {
    State(Store(map[], map[], map[], map[]), seq(n, _ => Begun), map[])
  }

  predicate Enabled(requests: seq<Request>, s: State, c: Command)
    requires |s.phases| == |requests|
  {
    && c.sender < |requests|
    && match c
       case Get(i) => s.phases[i].Begun?
       case Set(i) => s.phases[i].Missed?
       case Script(i) => s.phases[i].Ready?
  }

  function Next(requests: seq<Request>, s: State, c: Command): (s': State)
    requires |s.phases| == |requests| && Enabled(requests, s, c)
    ensures |s'.phases| == |requests|
  {
    var q := requests[c.sender];
    match c
    case Get(i) =>
      if q.Peers() in s.store.direct then s.(phases := s.phases[i := Ready(s.store.direct[q.Peers()])])
      else
        var conv := Conversation(q.newConversation, q.sender, q.Peers());
        s.(phases := s.phases[i := Missed(conv)], minted := s.minted[conv.id := q.Peers()])
    case Set(i) =>
      var conv := s.phases[i].minted;
      s.(phases := s.phases[i := Ready(conv)], store := s.store.(direct := s.store.direct[q.Peers() := conv]))
    case Script(i) =>
      var conv := s.phases[i].conv;
      s.(phases := s.phases[i := Sent(conv)], store := SendScript(s.store, conv, q.sender, q.receiver, q.ToMessage(conv)))
  }

  function Execute(requests: seq<Request>, commands: seq<Command>): (r: Option<State>)
    ensures r.Some? ==> |r.value.phases| == |requests|
  {
    if commands == [] then Some(Init(|requests|))
    else
      match Execute(requests, commands[..|commands| - 1])
      case None => None
      case Some(s) =>
        var c := commands[|commands| - 1];
        if Enabled(requests, s, c) then Some(Next(requests, s, c)) else None
  }

  /** The conversation a sender is working with, once it has one, was minted for its pair. */
  ghost predicate SenderInv(requests: seq<Request>, s: State, i: nat)
    requires |s.phases| == |requests| && i < |requests|
  {
    var q := requests[i];
    match s.phases[i]
    case Begun => q.newConversation !in s.minted && Unused(s.store, q.newMessage)
    case Missed(c) => Minted(s, c, q.Peers()) && Unused(s.store, q.newMessage)
    case Ready(c) => Minted(s, c, q.Peers()) && Unused(s.store, q.newMessage)
    case Sent(c) => Minted(s, c, q.Peers()) && s.store.payloads.Keys >= {q.newMessage} &&
                    s.store.payloads[q.newMessage] == q.ToMessage(c) &&
                    Entry(q.now, q.newMessage) in s.store.IndexOf(c.id)
  }

  predicate Minted(s: State, c: Conversation, pair: Pair) {
    c.id in s.minted && s.minted[c.id] == pair && c.peers == pair
  }

  ghost predicate Inv(requests: seq<Request>, s: State)
    requires |s.phases| == |requests|
  {
    && StoreInv(s.store, s.minted)
    && forall i :: 0 <= i < |requests| ==> SenderInv(requests, s, i)
  }

  lemma CommandKeepsStore(requests: seq<Request>, s: State, c: Command)
    requires FreshIds(requests) && |s.phases| == |requests| && Inv(requests, s) && Enabled(requests, s, c)
    ensures StoreInv(Next(requests, s, c).store, Next(requests, s, c).minted)
  {
    var s' := Next(requests, s, c);
    var q := requests[c.sender];
    assert SenderInv(requests, s, c.sender);
    match c
    case Get(i) =>
      forall k ensures IndexWellFormed(s'.store, s'.minted, k) { assert IndexWellFormed(s.store, s.minted, k); }
    case Set(i) =>
      forall k ensures IndexWellFormed(s'.store, s'.minted, k) { assert IndexWellFormed(s.store, s.minted, k); }
    case Script(i) =>
      var conv := s.phases[i].conv;
      SendKeepsInv(s.store, s.minted, conv, q.sender, q.receiver, q.ToMessage(conv));
  }

  lemma CommandKeepsSender(requests: seq<Request>, s: State, c: Command, i: nat)
    requires FreshIds(requests) && |s.phases| == |requests| && Inv(requests, s) && Enabled(requests, s, c)
    requires i < |requests|
    ensures SenderInv(requests, Next(requests, s, c), i)
  {
    var q := requests[c.sender];
    assert SenderInv(requests, s, i) && SenderInv(requests, s, c.sender);
    assert i != c.sender ==> q.newConversation != requests[i].newConversation && q.newMessage != requests[i].newMessage;
    if c.Script? {
      var conv := s.phases[c.sender].conv;
      assert IndexWellFormed(s.store, s.minted, conv.id);
      ZAddSorts(s.store.IndexOf(conv.id), Entry(q.now, q.newMessage));
    }
  }

  lemma {:induction false} ReachableInv(requests: seq<Request>, commands: seq<Command>)
    requires FreshIds(requests) && Execute(requests, commands).Some?
    ensures Inv(requests, Execute(requests, commands).value)
  {
    if commands == [] {
    } else {
      var before := commands[..|commands| - 1];
      var c := commands[|commands| - 1];
      ReachableInv(requests, before);
      var s := Execute(requests, before).value;
      CommandKeepsStore(requests, s, c);
      forall i | 0 <= i < |requests| ensures SenderInv(requests, Next(requests, s, c), i) {
        CommandKeepsSender(requests, s, c, i);
      }
    }
  }

  /**
    Isolation: whatever the interleaving, every message listed for a pair names the
    pair's conversation and was sent by one of the two, and no entry is skipped.
   */
  lemma ListingsAreIsolated(requests: seq<Request>, commands: seq<Command>, a: UserId, b: UserId,
                            offset: nat, limit: nat, descending: bool)
    requires FreshIds(requests) && Execute(requests, commands).Some?
    requires PairOf(a, b) in Execute(requests, commands).value.store.direct
    ensures var st := Execute(requests, commands).value.store;
            var c := st.direct[PairOf(a, b)].id;
            var window := Window(Ordered(st, c, descending), offset, offset + limit - 1);
            && |Payloads(st, window)| == |window|
            && forall m :: m in Payloads(st, window) ==> m.conversation == c && (m.sender == a || m.sender == b)
  {
    ReachableInv(requests, commands);
    var s := Execute(requests, commands).value;
    var st := s.store;
    var c := st.direct[PairOf(a, b)].id;
    assert IndexWellFormed(st, s.minted, c);
    var window := Window(Ordered(st, c, descending), offset, offset + limit - 1);
    forall e | e in window ensures e in st.IndexOf(c) {
      assert e in Ordered(st, c, descending);
      var k :| 0 <= k < |Ordered(st, c, descending)| && Ordered(st, c, descending)[k] == e;
      if descending { assert e == st.IndexOf(c)[|st.IndexOf(c)| - 1 - k]; }
    }
    NoPayloadIsMissing(st, window);
    forall m | m in Payloads(st, window) ensures m.conversation == c && (m.sender == a || m.sender == b) {
      var k :| 0 <= k < |window| && Payloads(st, window)[k] == m;
      assert window[k] in st.IndexOf(c);
    }
  }

  /** A sent message is in its pair's listing exactly when the pair still has the conversation it was sent to. */
  lemma VisibleIffConversationKept(requests: seq<Request>, commands: seq<Command>, i: nat)
    requires FreshIds(requests) && Execute(requests, commands).Some? && i < |requests|
    requires Execute(requests, commands).value.phases[i].Sent?
    requires requests[i].Peers() in Execute(requests, commands).value.store.direct
    ensures var s := Execute(requests, commands).value;
            var kept := s.store.direct[requests[i].Peers()].id;
            Entry(requests[i].now, requests[i].newMessage) in s.store.IndexOf(kept) <==> kept == s.phases[i].conv.id
  {
    ReachableInv(requests, commands);
    var s := Execute(requests, commands).value;
    assert SenderInv(requests, s, i);
    assert IndexWellFormed(s.store, s.minted, s.store.direct[requests[i].Peers()].id);
  }

  // ------------------------------------------------------------------------
  // Exactly when no message of a pair is lost
  // ------------------------------------------------------------------------

  predicate IsSetOf(requests: seq<Request>, c: Command, pair: Pair) {
    c.Set? && c.sender < |requests| && requests[c.sender].Peers() == pair
  }

  /** The GET of request `i` finds nothing: no SET of its pair came before it. */
  ghost predicate Misses(requests: seq<Request>, commands: seq<Command>, i: nat)
    requires i < |requests|
  {
    exists k :: 0 <= k < |commands| && MissesAt(requests, commands, i, k)
  }

  ghost predicate MissesAt(requests: seq<Request>, commands: seq<Command>, i: nat, k: nat)
    requires i < |requests| && k < |commands|
  {
    && commands[k] == Get(i)
    && forall l :: 0 <= l < k ==> !IsSetOf(requests, commands[l], requests[i].Peers())
  }

  ghost predicate HasSet(requests: seq<Request>, commands: seq<Command>, pair: Pair) {
    exists l :: 0 <= l < |commands| && IsSetOf(requests, commands[l], pair)
  }

  /** At most one GET of the pair finds nothing. */
  ghost predicate OneMiss(requests: seq<Request>, commands: seq<Command>, pair: Pair) {
    forall i, j :: MissedBy(requests, commands, pair, i) && MissedBy(requests, commands, pair, j) ==> i == j
  }

  ghost predicate MissedBy(requests: seq<Request>, commands: seq<Command>, pair: Pair, i: nat) {
    i < |requests| && requests[i].Peers() == pair && Misses(requests, commands, i)
  }

  /** The message of request `i` is in the listing of its pair. */
  predicate Listed(requests: seq<Request>, s: State, i: nat)
    requires i < |requests|
  {
    var q := requests[i];
    q.Peers() in s.store.direct && Entry(q.now, q.newMessage) in s.store.IndexOf(s.store.direct[q.Peers()].id)
  }

  /** Conversation ids come from requests that missed, and those go on with their own. */
  ghost predicate MintInv(requests: seq<Request>, s: State)
    requires |s.phases| == |requests|
  {
    && (forall c :: c in s.minted ==> exists j :: 0 <= j < |requests| && Minter(requests, s, c, j))
    && (forall i :: 0 <= i < |requests| ==> WorksOn(requests, s, i))
  }

  predicate Minter(requests: seq<Request>, s: State, c: ConversationId, j: nat)
    requires |s.phases| == |requests| && j < |requests|
  {
    && requests[j].newConversation == c && !s.phases[j].Begun?
    && c in s.minted && s.minted[c] == requests[j].Peers()
  }

  function ConversationOf(p: Phase): Conversation
    requires !p.Begun?
  {
    if p.Missed? then p.minted else p.conv
  }

  predicate WorksOn(requests: seq<Request>, s: State, i: nat)
    requires |s.phases| == |requests| && i < |requests|
  {
    var q := requests[i];
    && (s.phases[i].Begun? ==> q.newConversation !in s.minted)
    && (!s.phases[i].Begun? && q.newConversation in s.minted ==>
          ConversationOf(s.phases[i]).id == q.newConversation)
    && (s.phases[i].Missed? ==> q.newConversation in s.minted)
    && (s.phases[i].Ready? || s.phases[i].Sent? ==> q.Peers() in s.store.direct)
  }

  lemma CommandKeepsMint(requests: seq<Request>, s: State, c: Command)
    requires FreshIds(requests) && |s.phases| == |requests| && MintInv(requests, s) && Enabled(requests, s, c)
    ensures MintInv(requests, Next(requests, s, c))
  {
    var s' := Next(requests, s, c);
    forall i | 0 <= i < |requests| ensures WorksOn(requests, s', i) {
      assert WorksOn(requests, s, i) && WorksOn(requests, s, c.sender);
      assert i != c.sender ==> requests[i].newConversation != requests[c.sender].newConversation;
    }
    forall id | id in s'.minted ensures exists j :: 0 <= j < |requests| && Minter(requests, s', id, j) {
      if id in s.minted {
        var j :| 0 <= j < |requests| && Minter(requests, s, id, j);
        assert WorksOn(requests, s, c.sender);
        assert Minter(requests, s', id, j);
      } else {
        assert Minter(requests, s', id, c.sender);
      }
    }
  }

  lemma {:induction false} ReachableMint(requests: seq<Request>, commands: seq<Command>)
    requires FreshIds(requests) && Execute(requests, commands).Some?
    ensures MintInv(requests, Execute(requests, commands).value)
  {
    if commands == [] {
    } else {
      var before := commands[..|commands| - 1];
      ReachableMint(requests, before);
      CommandKeepsMint(requests, Execute(requests, before).value, commands[|commands| - 1]);
    }
  }

  /** The direct key of a pair exists exactly after a SET of the pair. */
  lemma {:induction false} StoredIffSet(requests: seq<Request>, commands: seq<Command>, pair: Pair)
    requires FreshIds(requests) && Execute(requests, commands).Some?
    ensures pair in Execute(requests, commands).value.store.direct <==> HasSet(requests, commands, pair)
  {
    if commands == [] {
    } else {
      var n := |commands| - 1;
      StoredIffSet(requests, commands[..n], pair);
      ReachableMint(requests, commands[..n]);
      assert WorksOn(requests, Execute(requests, commands[..n]).value, commands[n].sender);
      SetOfLonger(requests, commands, pair);
    }
  }

  lemma SetOfLonger(requests: seq<Request>, commands: seq<Command>, pair: Pair)
    requires commands != []
    ensures HasSet(requests, commands, pair) <==>
            HasSet(requests, commands[..|commands| - 1], pair) || IsSetOf(requests, commands[|commands| - 1], pair)
  {
    var before := commands[..|commands| - 1];
    if l :| 0 <= l < |before| && IsSetOf(requests, before[l], pair) {
      assert IsSetOf(requests, commands[l], pair);
    }
    if l :| 0 <= l < |commands| && IsSetOf(requests, commands[l], pair) {
      assert l < |before| ==> IsSetOf(requests, before[l], pair);
    }
  }

  /** A request's new conversation id is used exactly when its GET missed. */
  lemma {:induction false} MintedIffMisses(requests: seq<Request>, commands: seq<Command>, i: nat)
    requires FreshIds(requests) && Execute(requests, commands).Some? && i < |requests|
    ensures requests[i].newConversation in Execute(requests, commands).value.minted <==> Misses(requests, commands, i)
  {
    if commands == [] {
    } else {
      var n := |commands| - 1;
      var before, c := commands[..n], commands[n];
      MintedIffMisses(requests, before, i);
      StoredIffSet(requests, before, requests[i].Peers());
      MissesLonger(requests, commands, i);
      assert i != c.sender ==> requests[i].newConversation != requests[c.sender].newConversation;
    }
  }

  lemma MissesLonger(requests: seq<Request>, commands: seq<Command>, i: nat)
    requires i < |requests| && commands != []
    ensures var before, c := commands[..|commands| - 1], commands[|commands| - 1];
            Misses(requests, commands, i) <==>
            Misses(requests, before, i) || (c == Get(i) && !HasSet(requests, before, requests[i].Peers()))
  {
    var n := |commands| - 1;
    var before := commands[..n];
    forall k | 0 <= k < n ensures MissesAt(requests, commands, i, k) <==> MissesAt(requests, before, i, k) {
      assert forall l :: 0 <= l < k ==> commands[l] == before[l];
    }
    assert MissesAt(requests, commands, i, n) <==>
           commands[n] == Get(i) && !HasSet(requests, before, requests[i].Peers()) by {
      assert forall l :: 0 <= l < n ==> commands[l] == before[l];
    }
  }

  /**
    When all requests of a pair are done, each of their messages is listed exactly
    when at most one of their GETs came before the pair's first SET.
   */
  lemma AllListedIffOneMiss(requests: seq<Request>, commands: seq<Command>, pair: Pair)
    requires FreshIds(requests) && Execute(requests, commands).Some?
    requires forall i :: 0 <= i < |requests| && requests[i].Peers() == pair ==>
               Execute(requests, commands).value.phases[i].Sent?
    ensures (forall i :: 0 <= i < |requests| && requests[i].Peers() == pair ==>
               Listed(requests, Execute(requests, commands).value, i))
       <==> OneMiss(requests, commands, pair)
  {
    var s := Execute(requests, commands).value;
    ReachableMint(requests, commands);
    if OneMiss(requests, commands, pair) {
      forall i | 0 <= i < |requests| && requests[i].Peers() == pair ensures Listed(requests, s, i) {
        OneMissKeeps(requests, commands, pair, i);
      }
    } else {
      var i, j :| MissedBy(requests, commands, pair, i) && MissedBy(requests, commands, pair, j) && i != j;
      TwoMissesLose(requests, commands, i, j);
    }
  }

  lemma OneMissKeeps(requests: seq<Request>, commands: seq<Command>, pair: Pair, i: nat)
    requires FreshIds(requests) && Execute(requests, commands).Some?
    requires i < |requests| && requests[i].Peers() == pair && Execute(requests, commands).value.phases[i].Sent?
    requires OneMiss(requests, commands, pair)
    ensures Listed(requests, Execute(requests, commands).value, i)
  {
    var s := Execute(requests, commands).value;
    ReachableInv(requests, commands);
    ReachableMint(requests, commands);
    assert SenderInv(requests, s, i) && WorksOn(requests, s, i);
    var used, kept := s.phases[i].conv.id, s.store.direct[pair].id;
    var j :| 0 <= j < |requests| && Minter(requests, s, used, j);
    var k :| 0 <= k < |requests| && Minter(requests, s, kept, k);
    MintedIffMisses(requests, commands, j);
    MintedIffMisses(requests, commands, k);
    assert MissedBy(requests, commands, pair, j) && MissedBy(requests, commands, pair, k);
    VisibleIffConversationKept(requests, commands, i);
  }

  /** Both went on with their own conversation, and the pair keeps one. */
  lemma TwoMissesLose(requests: seq<Request>, commands: seq<Command>, i: nat, j: nat)
    requires FreshIds(requests) && Execute(requests, commands).Some?
    requires i < |requests| && j < |requests| && i != j && requests[i].Peers() == requests[j].Peers()
    requires Execute(requests, commands).value.phases[i].Sent? && Execute(requests, commands).value.phases[j].Sent?
    requires Misses(requests, commands, i) && Misses(requests, commands, j)
    ensures !Listed(requests, Execute(requests, commands).value, i) || !Listed(requests, Execute(requests, commands).value, j)
  {
    var s := Execute(requests, commands).value;
    ReachableMint(requests, commands);
    assert WorksOn(requests, s, i) && WorksOn(requests, s, j);
    MintedIffMisses(requests, commands, i);
    MintedIffMisses(requests, commands, j);
    VisibleIffConversationKept(requests, commands, i);
    VisibleIffConversationKept(requests, commands, j);
    assert requests[i].newConversation != requests[j].newConversation;
  }

  /** Two first messages of one pair that both miss the key: the first one is not listed. */
  lemma ConcurrentFirstMessageIsLost() returns (requests: seq<Request>, commands: seq<Command>)
    ensures FreshIds(requests) && Execute(requests, commands).Some?
    ensures |requests| == 2 && requests[0].Peers() == requests[1].Peers()
    ensures var s := Execute(requests, commands).value;
            && s.phases[0].Sent? && s.phases[1].Sent?
            && requests[0].Peers() in s.store.direct
            && Entry(requests[0].now, requests[0].newMessage)
                 !in s.store.IndexOf(s.store.direct[requests[0].Peers()].id)
  {
    requests := [Request(1, 2, "hi", 10, 100, 1000), Request(2, 1, "hello", 11, 200, 2000)];
    var s;
    commands, s := BothMissThenSet(requests);
    var s' := Next(requests, s, Script(0));
    commands := Extend(requests, commands, Script(0), s, s');
    commands := Extend(requests, commands, Script(1), s', Next(requests, s', Script(1)));
    VisibleIffConversationKept(requests, commands, 0);
  }

  lemma BothMissThenSet(requests: seq<Request>) returns (commands: seq<Command>, s: State)
    requires |requests| == 2
    requires requests[0].Peers() == requests[1].Peers()
    ensures var pair := requests[0].Peers();
            var c1 := Conversation(requests[0].newConversation, requests[0].sender, pair);
            var c2 := Conversation(requests[1].newConversation, requests[1].sender, pair);
            s.phases == [Ready(c1), Ready(c2)] && s.store == Store(map[pair := c2], map[], map[], map[])
    ensures Execute(requests, commands) == Some(s)
  {
    s := Init(2);
    var s1 := Next(requests, s, Get(0));
    commands := Extend(requests, [], Get(0), s, s1);
    var s2 := Next(requests, s1, Get(1));
    commands := Extend(requests, commands, Get(1), s1, s2);
    var s3 := Next(requests, s2, Set(0));
    commands := Extend(requests, commands, Set(0), s2, s3);
    s := Next(requests, s3, Set(1));
    commands := Extend(requests, commands, Set(1), s3, s);
  }

  lemma Extend(requests: seq<Request>, commands: seq<Command>, c: Command, s: State, s': State)
    returns (longer: seq<Command>)
    requires |s.phases| == |requests| && Execute(requests, commands) == Some(s)
    requires Enabled(requests, s, c) && Next(requests, s, c) == s'
    ensures Execute(requests, longer) == Some(s')
  {
    longer := commands + [c];
    assert longer[..|commands|] == commands;
  }
}

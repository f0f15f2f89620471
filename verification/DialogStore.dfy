/**
  Direct dialogs in Redis: a conversation key per pair of users, an index sorted by
  sending time per conversation, and one payload key per message.
 */
module DialogStore {
  import opened Common
  import opened Users
  import opened SortedSets

  type ConversationId = nat
  type MessageId = nat

  const LISTING_LIMIT: nat := 1000

  datatype Pair = Pair(low: UserId, high: UserId)

  function PairOf(a: UserId, b: UserId): Pair {
    if a < b then Pair(a, b) else Pair(b, a)
  }

  /** One key per two users, whoever writes first; different twos have different keys. */
  lemma PairIsUnordered(a: UserId, b: UserId, c: UserId, d: UserId)
    ensures PairOf(a, b) == PairOf(c, d) <==> {a, b} == {c, d}
    ensures PairOf(a, b) == PairOf(c, d) <==> (a == c && b == d) || (a == d && b == c)
    ensures PairOf(a, b).low <= PairOf(a, b).high
  {
    assert a in {a, b} && b in {a, b} && c in {c, d} && d in {c, d};
  }

  datatype Conversation = Conversation(id: ConversationId, createdBy: UserId, peers: Pair)

  /** `sentAt` is the score of the message in the index. */
  datatype Message = Message(id: MessageId, conversation: ConversationId, sender: UserId, sentAt: int, text: string)

  datatype DirectMessagesItem = DirectMessagesItem(text: string, sentAt: int, fromUser: UserId, toUser: UserId)

  datatype DialogError = DialogNotExists

  /** direct:conversation:*, participants:*, messages:* and message:* keys. */
  datatype Store = Store(
    direct: map<Pair, Conversation>,
    participants: map<ConversationId, set<UserId>>,
    messages: map<ConversationId, seq<Entry>>,
    payloads: map<MessageId, Message>)
  {
    function IndexOf(c: ConversationId): seq<Entry> {
      if c in messages then messages[c] else []
    }

    function ParticipantsOf(c: ConversationId): set<UserId> {
      if c in participants then participants[c] else {}
    }
  }

  /**
    send_message_to_user.lua as one command.  The participants and messages keys are
    those of `conv`, the candidate the caller came with, even when another
    conversation is found under the direct key.
   */
  function SendScript(st: Store, conv: Conversation, sender: UserId, receiver: UserId, m: Message): Store {
    var pair := PairOf(sender, receiver);
    st.(direct := if pair in st.direct then st.direct else st.direct[pair := conv],
        participants := st.participants[conv.id := st.ParticipantsOf(conv.id) + {sender, receiver}],
        messages := st.messages[conv.id := ZAdd(st.IndexOf(conv.id), Entry(m.sentAt, m.id))],
        payloads := st.payloads[m.id := m])
  }

  /** Payloads of index entries, in order; entries without a payload are skipped. */
  function Payloads(st: Store, entries: seq<Entry>): seq<Message> {
    if entries == [] then []
    else (if entries[0].member in st.payloads then [st.payloads[entries[0].member]] else [])
         + Payloads(st, entries[1..])
  }

  function Ordered(st: Store, c: ConversationId, descending: bool): seq<Entry> {
    if descending then Reverse(st.IndexOf(c)) else st.IndexOf(c)
  }

  // ------------------------------------------------------------------------
  // The invariant of the keys
  // ------------------------------------------------------------------------

  /** `minted` remembers for which pair each conversation id was generated. */
  ghost predicate IndexWellFormed(st: Store, minted: map<ConversationId, Pair>, c: ConversationId) {
    && Sorted(st.IndexOf(c)) && DistinctMembers(st.IndexOf(c))
    && forall e :: e in st.IndexOf(c) ==>
         && c in minted && e.member in st.payloads
         && var m := st.payloads[e.member];
            m.id == e.member && m.sentAt == e.score && m.conversation == c
            && (m.sender == minted[c].low || m.sender == minted[c].high)
  }

  ghost predicate StoreInv(st: Store, minted: map<ConversationId, Pair>) {
    && (forall c :: IndexWellFormed(st, minted, c))
    && (forall pair :: pair in st.direct ==>
          st.direct[pair].peers == pair && st.direct[pair].id in minted && minted[st.direct[pair].id] == pair)
  }

  /** The message is new: no index and no payload key knows its id. */
  ghost predicate Unused(st: Store, id: MessageId) {
    id !in st.payloads
  }

  lemma SendKeepsInv(st: Store, minted: map<ConversationId, Pair>, conv: Conversation,
                     sender: UserId, receiver: UserId, m: Message)
    requires StoreInv(st, minted) && Unused(st, m.id)
    requires conv.id in minted && minted[conv.id] == conv.peers == PairOf(sender, receiver)
    requires m.conversation == conv.id && m.sender == sender
    ensures StoreInv(SendScript(st, conv, sender, receiver, m), minted)
  {
    var st' := SendScript(st, conv, sender, receiver, m);
    forall c ensures IndexWellFormed(st', minted, c) {
      assert IndexWellFormed(st, minted, c);
      if c == conv.id { ZAddSorts(st.IndexOf(c), Entry(m.sentAt, m.id)); }
    }
  }

  /** Nothing an index names is missing, so the listing script skips no entry. */
  lemma {:induction false} NoPayloadIsMissing(st: Store, entries: seq<Entry>)
    requires forall e :: e in entries ==> e.member in st.payloads
    ensures |Payloads(st, entries)| == |entries|
    ensures forall i :: 0 <= i < |entries| ==> Payloads(st, entries)[i] == st.payloads[entries[i].member]
  {
    if entries == [] {
    } else {
      NoPayloadIsMissing(st, entries[1..]);
    }
  }

  /** The answers of `n` calls of the listing script, each for the next page. */
  function Listings(st: Store, entries: seq<Entry>, from: nat, limit: nat, n: nat): seq<Message>
    decreases n
  {
    if n == 0 then []
    else Payloads(st, Window(entries, from, from + limit - 1)) + Listings(st, entries, from + limit, limit, n - 1)
  }

  /** In either order, listing page after page gives the whole dialog, each message once. */
  lemma {:induction false} ListingsConcatenate(st: Store, entries: seq<Entry>, limit: nat, n: nat)
    requires limit > 0 && n * limit >= |entries|
    ensures Listings(st, entries, 0, limit, n) == Payloads(st, entries)
  {
    AllPages(entries, limit, n);
    ListingsArePages(st, entries, 0, limit, n);
  }

  lemma {:induction false} ListingsArePages(st: Store, entries: seq<Entry>, from: nat, limit: nat, n: nat)
    requires limit > 0
    ensures Listings(st, entries, from, limit, n) == Payloads(st, Pages(entries, from, limit, n))
    decreases n
  {
    if n == 0 {
    } else {
      ListingsArePages(st, entries, from + limit, limit, n - 1);
      OneListing(st, entries, from, limit, Pages(entries, from + limit, limit, n - 1));
    }
  }

  lemma OneListing(st: Store, entries: seq<Entry>, from: nat, limit: nat, later: seq<Entry>)
    requires limit > 0
    ensures Payloads(st, Window(entries, from, from + limit - 1)) + Payloads(st, later) ==
            Payloads(st, Page(entries, from, limit) + later)
  {
    WindowIsPageIff(entries, from, limit);
    PayloadsOfBoth(st, Page(entries, from, limit), later);
  }

  lemma PayloadsOfNext(st: Store, entries: seq<Entry>)
    requires entries != []
    ensures Payloads(st, entries) == Payloads(st, [entries[0]]) + Payloads(st, entries[1..])
  {
  }

  lemma PayloadsFrom(st: Store, entries: seq<Entry>, i: nat, before: seq<Message>)
    requires i < |entries|
    ensures var found := if entries[i].member in st.payloads then [st.payloads[entries[i].member]] else [];
            before + Payloads(st, entries[i..]) == before + found + Payloads(st, entries[i + 1..])
  {
    assert entries[i..][1..] == entries[i + 1..];
  }

  lemma {:induction false} PayloadsOfBoth(st: Store, a: seq<Entry>, b: seq<Entry>)
    ensures Payloads(st, a + b) == Payloads(st, a) + Payloads(st, b)
  {
    if a == [] {
      assert a + b == b;
    } else {
      assert (a + b)[1..] == a[1..] + b;
      PayloadsOfBoth(st, a[1..], b);
      PayloadsOfNext(st, a);
      PayloadsOfNext(st, a + b);
      var head := Payloads(st, [a[0]]);
      assert head + (Payloads(st, a[1..]) + Payloads(st, b)) == head + Payloads(st, a[1..]) + Payloads(st, b);
    }
  }

  // ------------------------------------------------------------------------
  // The procedures, one at a time
  // ------------------------------------------------------------------------

  /** The order of a listing: newest first, ids deciding between equal times. */
  predicate Newer(a: Message, b: Message) {
    b.sentAt < a.sentAt || (b.sentAt == a.sentAt && b.id < a.id)
  }

  /** `listing` is the newest `limit` messages of the log, newest first. */
  ghost predicate IsNewestOf(listing: seq<Message>, log: seq<Message>, limit: nat) {
    && |listing| == (if |log| <= limit then |log| else limit)
    && (forall m :: m in listing ==> m in log)
    && (forall i, j :: 0 <= i < j < |listing| ==> Newer(listing[i], listing[j]))
    && (forall m :: m in log && m !in listing ==> forall i :: 0 <= i < |listing| ==> Newer(listing[i], m))
  }

  /** An index and its payloads hold exactly the messages of a log. */
  ghost predicate Holds(index: seq<Entry>, payloads: map<MessageId, Message>, log: seq<Message>) {
    && |index| == |log|
    && (forall m :: m in log ==> Entry(m.sentAt, m.id) in index && m.id in payloads && payloads[m.id] == m)
    && (forall e :: e in index ==> e.member in payloads && payloads[e.member] in log && payloads[e.member].id == e.member)
    && (forall i, j :: 0 <= i < j < |log| ==> log[i].id != log[j].id)
  }

  /** The keys of a pair hold what the pair has sent. */
  ghost predicate Refines(st: Store, pair: Pair, log: seq<Message>) {
    if pair !in st.direct then log == []
    else
      var c := st.direct[pair].id;
      && Holds(st.IndexOf(c), st.payloads, log)
      && st.ParticipantsOf(c) == if log == [] then {} else {pair.low, pair.high}
  }

  lemma HoldsOneMore(index: seq<Entry>, payloads: map<MessageId, Message>, log: seq<Message>, m: Message)
    requires Sorted(index) && DistinctMembers(index) && Holds(index, payloads, log) && m.id !in payloads
    ensures Holds(ZAdd(index, Entry(m.sentAt, m.id)), payloads[m.id := m], log + [m])
  {
    forall i | 0 <= i < |index| ensures index[i].member != m.id { assert index[i] in index; }
    ZAddSorts(index, Entry(m.sentAt, m.id));
    assert forall x :: x in log + [m] <==> x in log || x == m;
    forall i | 0 <= i < |log| ensures log[i].id != m.id { assert log[i] in log; }
  }

  /** A send through the pair's own conversation extends the pair's log and no other. */
  lemma SendRefines(st: Store, minted: map<ConversationId, Pair>, conv: Conversation,
                    sender: UserId, receiver: UserId, m: Message, p: Pair, log: seq<Message>)
    requires StoreInv(st, minted) && Unused(st, m.id) && Refines(st, p, log)
    requires PairOf(sender, receiver) in st.direct && st.direct[PairOf(sender, receiver)] == conv
    ensures Refines(SendScript(st, conv, sender, receiver, m), p, if p == PairOf(sender, receiver) then log + [m] else log)
  {
    assert IndexWellFormed(st, minted, conv.id);
    if p == PairOf(sender, receiver) {
      HoldsOneMore(st.IndexOf(conv.id), st.payloads, log, m);
    } else if p in st.direct {
      assert minted[st.direct[p].id] != minted[conv.id];
      assert Holds(st.IndexOf(st.direct[p].id), st.payloads[m.id := m], log);
    }
  }

  lemma SenderIsPeer(st: Store, minted: map<ConversationId, Pair>, pair: Pair, log: seq<Message>, m: Message)
    requires StoreInv(st, minted) && pair in st.direct && Refines(st, pair, log) && m in log
    ensures m.sender == pair.low || m.sender == pair.high
  {
    assert IndexWellFormed(st, minted, st.direct[pair].id);
    assert Entry(m.sentAt, m.id) in st.IndexOf(st.direct[pair].id);
  }

  /** What `first` and `second` are shown for a message: from its sender to the other one. */
  predicate ShowsAs(item: DirectMessagesItem, m: Message, first: UserId, second: UserId) {
    && item.text == m.text && item.sentAt == m.sentAt && item.fromUser == m.sender
    && item.toUser == if m.sender == second then first else second
  }

  ghost function LogOf(logs: map<Pair, seq<Message>>, pair: Pair): seq<Message> {
    if pair in logs then logs[pair] else []
  }

  class DialogUtils {
    var direct: map<Pair, Conversation>
    var participants: map<ConversationId, set<UserId>>
    var messages: map<ConversationId, seq<Entry>>
    var payloads: map<MessageId, Message>
    ghost var minted: map<ConversationId, Pair>
    ghost var logs: map<Pair, seq<Message>>  // what each pair has sent, in sending order

    function Model(): Store reads this {
      Store(direct, participants, messages, payloads)
    }

    ghost predicate Valid() reads this {
      && StoreInv(Model(), minted)
      && (forall pair :: Refines(Model(), pair, LogOf(logs, pair)))
      && (forall c :: c in messages ==> c in minted)
      && (forall c :: c in participants ==> c in minted)
    }

    constructor ()
      ensures Valid() && logs == map[] && minted == map[] && payloads == map[]
    {
      direct, participants, messages, payloads := map[], map[], map[], map[];
      minted, logs := map[], map[];
    }

    /** `newId` is the value uuid4() would give. */
    method GetOrCreateDirectConversation(sender: UserId, receiver: UserId, newId: ConversationId)
      returns (conv: Conversation)
      requires Valid() && newId !in minted
      modifies this`direct, this`minted
      ensures Valid()
      ensures var pair := PairOf(sender, receiver);
              && pair in direct && conv == direct[pair] && conv.peers == pair
              && (pair in old(direct) ==> direct == old(direct))
              && (pair !in old(direct) ==> direct == old(direct)[pair := Conversation(newId, sender, pair)])
      ensures minted == old(minted) || minted == old(minted)[newId := PairOf(sender, receiver)]
    {
      var pair := if sender < receiver then Pair(sender, receiver) else Pair(receiver, sender);
      if pair in direct { return direct[pair]; }
      conv := Conversation(newId, sender, pair);
      assert forall c :: IndexWellFormed(Model(), minted, c);
      ghost var st := Model();
      minted := minted[newId := pair];
      direct := direct[pair := conv];
      forall c ensures IndexWellFormed(Model(), minted, c) {
        assert IndexWellFormed(st, old(minted), c);
      }
      forall p ensures Refines(Model(), p, LogOf(logs, p)) { assert Refines(st, p, LogOf(logs, p)); }
    }

    /** The script call: SET if absent, SADD, ZADD, SET.  Returns the conversation under the direct key and the two counters. */
    method SendMessageToUserByScript(conv: Conversation, sender: UserId, receiver: UserId, m: Message)
      returns (final: Conversation, addedParticipants: nat, zaddResult: nat)
      modifies this`direct, this`participants, this`messages, this`payloads
      ensures Model() == SendScript(old(Model()), conv, sender, receiver, m)
      ensures var pair := PairOf(sender, receiver);
              direct == if pair in old(direct) then old(direct) else old(direct)[pair := conv]
      ensures participants == old(participants)[conv.id := old(Model()).ParticipantsOf(conv.id) + {sender, receiver}]
      ensures messages == old(messages)[conv.id := ZAdd(old(Model()).IndexOf(conv.id), Entry(m.sentAt, m.id))]
      ensures payloads == old(payloads)[m.id := m]
      ensures final == direct[PairOf(sender, receiver)]
      ensures addedParticipants == |{sender, receiver} - old(Model()).ParticipantsOf(conv.id)|
      ensures zaddResult == if exists e :: e in old(Model()).IndexOf(conv.id) && e.member == m.id then 0 else 1
    {
      var pair := PairOf(sender, receiver);
      if pair !in direct {
        direct := direct[pair := conv];
      }
      final := direct[pair];
      var members := Model().ParticipantsOf(conv.id);
      addedParticipants := |{sender, receiver} - members|;
      participants := participants[conv.id := members + {sender, receiver}];
      var index := Model().IndexOf(conv.id);
      zaddResult := if exists e :: e in index && e.member == m.id then 0 else 1;
      messages := messages[conv.id := ZAdd(index, Entry(m.sentAt, m.id))];
      payloads := payloads[m.id := m];
    }

    method SendMessageToUserProcedure(sender: UserId, receiver: UserId, text: string, now: int,
                                      newConversation: ConversationId, newMessage: MessageId)
      returns (conv: Conversation, m: Message)
      requires Valid() && newConversation !in minted && newMessage !in payloads
      modifies this
      ensures Valid()
      ensures var pair := PairOf(sender, receiver);
              && pair in direct && conv == direct[pair]
              && m == Message(newMessage, conv.id, sender, now, text)
              && logs == old(logs)[pair := LogOf(old(logs), pair) + [m]]
    {
      conv := GetOrCreateDirectConversation(sender, receiver, newConversation);
      m := Message(newMessage, conv.id, sender, now, text);
      ghost var pair := PairOf(sender, receiver);
      ghost var st, after := Model(), SendScript(Model(), conv, sender, receiver, m);
      ghost var extended := logs[pair := LogOf(logs, pair) + [m]];
      SendKeepsInv(st, minted, conv, sender, receiver, m);
      forall p ensures Refines(after, p, LogOf(extended, p)) {
        assert Refines(st, p, LogOf(logs, p));
        SendRefines(st, minted, conv, sender, receiver, m, p, LogOf(logs, p));
      }
      var final, _, _ := SendMessageToUserByScript(conv, sender, receiver, m);
      conv := final;
      logs := extended;
      assert Model() == after;
    }

    /** get_dialog_with_users.lua */
    method GetDialog(c: ConversationId, offset: int, limit: int, descending: bool) returns (result: seq<Message>)
      ensures result == Payloads(Model(), Window(Ordered(Model(), c, descending), offset, offset + limit - 1))
      ensures !descending ==> result == Payloads(Model(), Window(Model().IndexOf(c), offset, offset + limit - 1))
      ensures descending ==> result == Payloads(Model(), Window(Reverse(Model().IndexOf(c)), offset, offset + limit - 1))
    {
      var ids := Window(Ordered(Model(), c, descending), offset, offset + limit - 1);
      result := [];
      ghost var st := Model();
      for i := 0 to |ids|
        invariant result + Payloads(st, ids[i..]) == Payloads(st, ids)
      {
        PayloadsFrom(st, ids, i, result);
        if ids[i].member in payloads {
          result := result + [payloads[ids[i].member]];
        }
      }
    }

    method GetDialogWithUsersProcedure(first: UserId, second: UserId)
      returns (r: Result<seq<DirectMessagesItem>, DialogError>, ghost listed: seq<Message>)
      requires Valid()
      ensures r.Err? <==> PairOf(first, second) !in direct
      ensures r.Ok? ==>
                && IsNewestOf(listed, LogOf(logs, PairOf(first, second)), 1000)
                && |r.value| == |listed|
                && forall i :: 0 <= i < |listed| ==>
                     var item, m := r.value[i], listed[i];
                     && item.text == m.text && item.sentAt == m.sentAt && item.fromUser == m.sender
                     && (if m.sender == second then item.toUser == first else m.sender == first && item.toUser == second)
    {
      var pair := if first < second then Pair(first, second) else Pair(second, first);
      if pair !in direct { return Err(DialogNotExists), []; }
      var c := direct[pair].id;
      var raw := GetDialog(c, 0, LISTING_LIMIT, true);
      PairListing(Model(), minted, pair, LogOf(logs, pair), LISTING_LIMIT);
      var result := CollectItems(raw, first, second);
      return Ok(result), raw;
    }
  }

  /** The loop over the script's answer; a message from one of the two is addressed to the other. */
  method CollectItems(raw: seq<Message>, first: UserId, second: UserId) returns (result: seq<DirectMessagesItem>)
    ensures |result| == |raw|
    ensures forall i :: 0 <= i < |raw| ==>
              && result[i].text == raw[i].text && result[i].sentAt == raw[i].sentAt
              && result[i].fromUser == raw[i].sender
              && (raw[i].sender == second ==> result[i].toUser == first)
              && (raw[i].sender != second ==> result[i].toUser == second)
  {
    result := [];
    for i := 0 to |raw|
      invariant |result| == i
      invariant forall j :: 0 <= j < i ==> ShowsAs(result[j], raw[j], first, second)
    {
      var msg := raw[i];
      result := result + [DirectMessagesItem(msg.text, msg.sentAt, msg.sender,
                                             if second == msg.sender then first else second)];
    }
  }

  /** What the script returns for the first page from the end. */
  lemma FirstPage(st: Store, c: ConversationId, log: seq<Message>, limit: nat) returns (listing: seq<Message>)
    requires limit > 0 && Holds(st.IndexOf(c), st.payloads, log)
    ensures listing == Payloads(st, Window(Ordered(st, c, true), 0, limit - 1))
    ensures |listing| == if |log| <= limit then |log| else limit
    ensures forall i :: 0 <= i < |listing| ==> listing[i] == st.payloads[st.IndexOf(c)[|log| - 1 - i].member]
  {
    var index := st.IndexOf(c);
    var back := Reverse(index);
    WindowIsPageIff(back, 0, limit);
    var page := Page(back, 0, limit);
    forall e | e in page ensures e in index {
      var i :| 0 <= i < |page| && page[i] == e;
      assert e == index[|index| - 1 - i];
    }
    NoPayloadIsMissing(st, page);
    listing := Payloads(st, page);
  }

  /** Reading the index backwards from its end gives the newest messages of the log it holds. */
  lemma ListingIsNewest(st: Store, c: ConversationId, log: seq<Message>, limit: nat)
    requires limit > 0 && Sorted(st.IndexOf(c)) && Holds(st.IndexOf(c), st.payloads, log)
    requires forall e :: e in st.IndexOf(c) ==> e.score == st.payloads[e.member].sentAt
    ensures IsNewestOf(Payloads(st, Window(Ordered(st, c, true), 0, limit - 1)), log, limit)
  {
    var index := st.IndexOf(c);
    var listing := FirstPage(st, c, log, limit);
    forall i | 0 <= i < |listing|
      ensures listing[i] in log && Entry(listing[i].sentAt, listing[i].id) == index[|log| - 1 - i]
    {
      assert index[|log| - 1 - i] in index;
    }
    forall m | m in log ensures m in listing || forall i :: 0 <= i < |listing| ==> Newer(listing[i], m) {
      var k :| 0 <= k < |index| && index[k] == Entry(m.sentAt, m.id);
      var b := |log| - 1 - k;
      if b < |listing| { assert listing[b] == st.payloads[index[k].member]; }
    }
  }

  /** The first page of a pair's conversation, from the end. */
  lemma PairListing(st: Store, minted: map<ConversationId, Pair>, pair: Pair, log: seq<Message>, limit: nat)
    requires limit > 0 && StoreInv(st, minted) && pair in st.direct && Refines(st, pair, log)
    ensures var listing := Payloads(st, Window(Ordered(st, st.direct[pair].id, true), 0, limit - 1));
            && IsNewestOf(listing, log, limit)
            && forall i :: 0 <= i < |listing| ==> listing[i].sender == pair.low || listing[i].sender == pair.high
  {
    var c := st.direct[pair].id;
    assert IndexWellFormed(st, minted, c);
    ListingIsNewest(st, c, log, limit);
    var listing := Payloads(st, Window(Ordered(st, c, true), 0, limit - 1));
    forall i | 0 <= i < |listing| ensures listing[i].sender == pair.low || listing[i].sender == pair.high {
      assert listing[i] in listing;
      SenderIsPeer(st, minted, pair, log, listing[i]);
    }
  }

  /** For a given log there is only one listing. */
  lemma {:induction false} NewestIsUnique(l1: seq<Message>, l2: seq<Message>, log: seq<Message>, limit: nat)
    requires IsNewestOf(l1, log, limit) && IsNewestOf(l2, log, limit)
    requires forall i, j :: 0 <= i < |log| && 0 <= j < |log| && log[i].id == log[j].id ==> log[i] == log[j]
    ensures l1 == l2
  {
    FirstDifference(l1, l2, |l1|, log, limit);
  }

  lemma {:induction false} FirstDifference(l1: seq<Message>, l2: seq<Message>, n: nat, log: seq<Message>, limit: nat)
    requires IsNewestOf(l1, log, limit) && IsNewestOf(l2, log, limit) && n <= |l1|
    requires forall i, j :: 0 <= i < |log| && 0 <= j < |log| && log[i].id == log[j].id ==> log[i] == log[j]
    ensures l1[..n] == l2[..n]
  {
    if n == 0 {
    } else {
      FirstDifference(l1, l2, n - 1, log, limit);
      var a, b := l1[n - 1], l2[n - 1];
      NotBelow(l1, l2, n - 1, log, limit);
      NotBelow(l2, l1, n - 1, log, limit);
      assert a in log && b in log;
    }
  }

  /** After equal beginnings, the next message of one listing is not newer than that of the other. */
  lemma NotBelow(l1: seq<Message>, l2: seq<Message>, k: nat, log: seq<Message>, limit: nat)
    requires IsNewestOf(l1, log, limit) && IsNewestOf(l2, log, limit)
    requires k < |l1| && l1[..k] == l2[..k]
    ensures !Newer(l1[k], l2[k])
  {
    var a := l1[k];
    assert a in log;
    forall i | 0 <= i < k ensures l1[i] == l2[i] { assert l1[..k][i] == l2[..k][i]; }
    if i :| 0 <= i < |l2| && l2[i] == a {
    } else {
      assert Newer(l2[k], a);
    }
  }

  /** Both users see the same dialog, item by item: the two calls give one answer. */
  method ListBothWays(dialogs: DialogUtils, a: UserId, b: UserId)
    returns (r1: Result<seq<DirectMessagesItem>, DialogError>, r2: Result<seq<DirectMessagesItem>, DialogError>)
    requires dialogs.Valid()
    ensures r1 == r2
  {
    ghost var l1, l2;
    r1, l1 := dialogs.GetDialogWithUsersProcedure(a, b);
    r2, l2 := dialogs.GetDialogWithUsersProcedure(b, a);
    var pair := PairOf(a, b);
    assert pair == PairOf(b, a);
    if pair in dialogs.direct {
      ghost var log := LogOf(dialogs.logs, pair);
      LogIsOfPeers(dialogs.Model(), dialogs.minted, pair, log);
      BothSeeTheSame(l1, l2, log, LISTING_LIMIT, r1.value, r2.value, a, b);
    } else {
      assert r1.error.DialogNotExists? && r2.error.DialogNotExists?;
    }
  }

  lemma LogIsOfPeers(st: Store, minted: map<ConversationId, Pair>, pair: Pair, log: seq<Message>)
    requires StoreInv(st, minted) && pair in st.direct && Refines(st, pair, log)
    ensures forall m :: m in log ==> m.sender == pair.low || m.sender == pair.high
    ensures forall i, j :: 0 <= i < |log| && 0 <= j < |log| && log[i].id == log[j].id ==> log[i] == log[j]
  {
    forall m | m in log ensures m.sender == pair.low || m.sender == pair.high {
      SenderIsPeer(st, minted, pair, log, m);
    }
  }

  lemma BothSeeTheSame(l1: seq<Message>, l2: seq<Message>, log: seq<Message>, limit: nat,
                       items1: seq<DirectMessagesItem>, items2: seq<DirectMessagesItem>, a: UserId, b: UserId)
    requires IsNewestOf(l1, log, limit) && IsNewestOf(l2, log, limit)
    requires forall i, j :: 0 <= i < |log| && 0 <= j < |log| && log[i].id == log[j].id ==> log[i] == log[j]
    requires forall m :: m in log ==> m.sender == a || m.sender == b
    requires |items1| == |l1| && forall i :: 0 <= i < |l1| ==> ShowsAs(items1[i], l1[i], a, b)
    requires |items2| == |l2| && forall i :: 0 <= i < |l2| ==> ShowsAs(items2[i], l2[i], b, a)
    ensures items1 == items2
  {
    NewestIsUnique(l1, l2, log, limit);
    forall i | 0 <= i < |l1| ensures items1[i] == items2[i] {
      assert l1[i] in log;
    }
  }
}

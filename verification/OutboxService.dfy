/**
  The outbox tasks of one undisturbed worker, and the fan-out of a new post to the
  events outbox.
 */
module OutboxTasks {
  import opened Common
  import opened SocialGraph
  import opened Users
  import OutboxWorkers

  datatype EventType = SendNewPostForFriends | OtherEvent(name: string)

  /** A row of events_outbox with its properties. */
  datatype EventRow = EventRow(eventType: EventType, consumer: UserId, post: PostId)

  /** A websocket message: Kafka key, addressee and payload. */
  datatype InboxMessage = InboxMessage(key: UserId, sendTo: UserId, post: PostId, text: string, updatedAt: nat, author: UserId)

  /** A row of users_outbox; its JSON need not hold an id. */
  datatype UserRow = UserRow(action: Action, id: Option<UserId>, profile: Profile)

  datatype UserMessage = UserMessage(key: UserId, action: Action, data: UserData)

  /** `BrokerDown` is not a service error: no decorator turns it into a response. */
  datatype ServiceError = UserNotFound | PostNotFound | NotImplemented | Unprocessable | BrokerDown

  datatype Outcome = Success | Unsuccessful | Raised

  /** One iteration of a task's endless loop: rows that others have committed meanwhile, and whether sending works. */
  datatype Round<T> = Round(arrivals: seq<T>, brokerUp: bool)

  function Arrived<T>(rounds: seq<Round<T>>): seq<T> {
    if rounds == [] then [] else Arrived(rounds[..|rounds| - 1]) + rounds[|rounds| - 1].arrivals
  }

  /** Nobody inserts rows and nothing fails. */
  ghost predicate Undisturbed<T>(rounds: seq<Round<T>>) {
    forall i :: 0 <= i < |rounds| ==> rounds[i].arrivals == [] && rounds[i].brokerUp
  }

  /** What a row becomes on the topic, if anything. */
  function Delivery(posts: map<PostId, Post>, row: EventRow): Result<InboxMessage, ServiceError> {
    if row.eventType != SendNewPostForFriends then Err(NotImplemented)
    else if row.post !in posts then Err(PostNotFound)
    else
      var p := posts[row.post];
      Ok(InboxMessage(row.consumer, row.consumer, p.id, p.text, p.updatedAt, p.author))
  }

  /** The message of a row, if any. */
  function SentFor(posts: map<PostId, Post>, row: EventRow): seq<InboxMessage> {
    var d := Delivery(posts, row);
    if d.Ok? then [d.value] else []
  }

  function Deliveries(posts: map<PostId, Post>, rows: seq<EventRow>): seq<InboxMessage> {
    if rows == [] then [] else SentFor(posts, rows[0]) + Deliveries(posts, rows[1..])
  }

  /** The same when each row is handled with its own state of the posts table. */
  function DeliveriesIn(rows: seq<EventRow>, tables: seq<map<PostId, Post>>): seq<InboxMessage>
    requires |tables| == |rows|
  {
    if rows == [] then []
    else
      var n := |rows| - 1;
      DeliveriesIn(rows[..n], tables[..n]) + SentFor(tables[n], rows[n])
  }

  /** `added` is one row per follower and none for anybody else. */
  ghost predicate FansOut(added: seq<EventRow>, followers: set<UserId>, post: PostId) {
    && (forall i :: 0 <= i < |added| ==> added[i] == EventRow(SendNewPostForFriends, added[i].consumer, post))
    && (forall u :: u in followers <==> EventRow(SendNewPostForFriends, u, post) in added)
    && (forall i, j :: 0 <= i < j < |added| ==> added[i].consumer != added[j].consumer)
  }

  function ToMessage(row: UserRow): UserMessage
    requires row.id.Some?
  {
    UserMessage(row.id.value, row.action, UserData(row.id.value, row.profile))
  }

  /** The message says what the row says, keyed by the user. */
  predicate Carries(m: UserMessage, row: UserRow) {
    row.id == Some(m.key) && m.action == row.action && m.data.id == m.key && m.data.profile == row.profile
  }

  /** The rows that the users repository inserts, as read back from the table. */
  function RowsFrom(events: seq<UserEvent>): (rows: seq<UserRow>) {
    seq(|events|, i requires 0 <= i < |events| => UserRow(events[i].action, Some(events[i].data.id), events[i].data.profile))
  }

  /** What a consumer reads off the topic. */
  function EventsOf(messages: seq<UserMessage>): (events: seq<UserEvent>) {
    seq(|messages|, i requires 0 <= i < |messages| => UserEvent(messages[i].action, messages[i].data))
  }

  /** The handled rows, the rounds they were handled in, the posts tables found there, and what was sent. */
  datatype Account = Account(
    handled: seq<EventRow>,
    at: seq<nat>,
    found: seq<map<PostId, Post>>,
    sent: seq<InboxMessage>)
  {
    /** Row `k` was handled in round `at[k]` and found its table. */
    ghost predicate InRounds(tables: seq<map<PostId, Post>>, n: nat) {
      && n <= |tables| && |at| == |found| == |handled| && RoundsOf(at, n)
      && forall k :: 0 <= k < |at| ==> found[k] == tables[at[k]]
    }

    ghost predicate Fits(tables: seq<map<PostId, Post>>, n: nat) {
      InRounds(tables, n) && sent == DeliveriesIn(handled, found)
    }

    ghost function Grown(i: nat, posts: map<PostId, Post>, row: EventRow): Account {
      Account(handled + [row], at + [i], found + [posts], sent + SentFor(posts, row))
    }

    /** After a round that handled `more`, one row or none. */
    ghost function Next(i: nat, posts: map<PostId, Post>, more: seq<EventRow>): Account {
      if more == [] then this else Grown(i, posts, more[0])
    }
  }

  class OutboxService {
    var users: set<UserId>
    var posts: map<PostId, Post>
    var friends: set<Edge>
    var events: seq<EventRow>          // events_outbox, oldest first
    var topic: seq<InboxMessage>
    var userRows: seq<UserRow>         // users_outbox, oldest first
    var userTopic: seq<UserMessage>
    var feedTopic: seq<Post>           // announced posts

    constructor ()
      ensures users == {} && posts == map[] && friends == {} && events == [] && topic == []
      ensures userRows == [] && userTopic == [] && feedTopic == []
    {
      users, posts, friends, events, topic := {}, map[], {}, [], [];
      userRows, userTopic, feedTopic := [], [], [];
    }

    /** INSERT ... SELECT over the friends table; the database chooses the order of the rows. */
    method CreateSendPostToAllConsumersEvents(post: PostId, author: UserId) returns (ghost added: seq<EventRow>)
      modifies this`events
      ensures events == old(events) + added
      ensures FansOut(added, Followers(friends, author), post)
    {
      added := [];
      var todo := Followers(friends, author);
      while todo != {}
        invariant events == old(events) + added
        invariant todo <= Followers(friends, author)
        invariant FansOut(added, Followers(friends, author) - todo, post)
        decreases |todo|
      {
        var u :| u in todo;
        todo := todo - {u};
        var row := EventRow(SendNewPostForFriends, u, post);
        forall i | 0 <= i < |added| ensures added[i].consumer != u {
          assert added[i] in added;
        }
        events := events + [row];
        added := added + [row];
      }
    }

    /** The transaction of `create_post`, rolled back when its event cannot be sent; the generated id is unused. */
    method CreatePost(id: PostId, author: UserId, text: string, now: nat, brokerUp: bool)
      returns (r: Result<Post, ServiceError>, ghost added: seq<EventRow>)
      requires id !in posts
      modifies this`posts, this`events, this`feedTopic
      ensures r.Ok? <==> author in users && brokerUp
      ensures r.Err? ==>
                && r.error == (if author !in users then UserNotFound else BrokerDown)
                && posts == old(posts) && events == old(events) && feedTopic == old(feedTopic)
      ensures r.Ok? ==>
                && r == Ok(Post(id, author, text, now, now))
                && posts == old(posts)[id := r.value]
                && events == old(events) + added && FansOut(added, Followers(friends, author), id)
                && feedTopic == old(feedTopic) + [r.value]
    {
      if author !in users { return Err(UserNotFound), []; }
      var savedPosts, savedEvents := posts, events;
      var post := Post(id, author, text, now, now);
      posts := posts[id := post];
      added := CreateSendPostToAllConsumersEvents(id, author);
      if !brokerUp {
        posts, events := savedPosts, savedEvents;  // ROLLBACK
        return Err(BrokerDown), [];
      }
      feedTopic := feedTopic + [post];
      return Ok(post), added;
    }

    /** Decorated with `async_use_case`: a service error becomes an unsuccessful response. */
    method ProcessingServiceEvents(event: EventRow, brokerUp: bool) returns (outcome: Outcome)
      modifies this`topic
      ensures outcome.Unsuccessful? <==> Delivery(posts, event).Err?
      ensures outcome.Raised? <==> Delivery(posts, event).Ok? && !brokerUp
      ensures outcome.Success? <==> event.eventType == SendNewPostForFriends && event.post in posts && brokerUp
      ensures outcome.Unsuccessful? <==> event.eventType != SendNewPostForFriends || event.post !in posts
      ensures topic == old(topic) + if outcome.Success? then [Delivery(posts, event).value] else []
    {
      if event.eventType == SendNewPostForFriends {
        var error := ProcessingSendPostToFriendsEvent(event, brokerUp);
        return if error == Some(BrokerDown) then Raised else if error.Some? then Unsuccessful else Success;
      }
      return Unsuccessful;
    }

    method ProcessingSendPostToFriendsEvent(event: EventRow, brokerUp: bool) returns (error: Option<ServiceError>)
      requires event.eventType == SendNewPostForFriends
      modifies this`topic
      ensures error.None? ==> Delivery(posts, event).Ok? && topic == old(topic) + [Delivery(posts, event).value]
      ensures error.None? ==>
                && event.post in posts && |topic| == |old(topic)| + 1
                && var m, post := topic[|old(topic)|], posts[event.post];
                   && m.key == m.sendTo == event.consumer && m.post == post.id
                   && m.text == post.text && m.updatedAt == post.updatedAt && m.author == post.author
      ensures error.Some? ==> topic == old(topic)
      ensures error == Some(PostNotFound) <==> event.post !in posts
      ensures error == Some(BrokerDown) <==> Delivery(posts, event).Ok? && !brokerUp
      ensures error.Some? && error != Some(BrokerDown) ==> Delivery(posts, event) == Err(error.value)
    {
      if event.post !in posts { return Some(PostNotFound); }
      var post := posts[event.post];
      var message := InboxMessage(event.consumer, event.consumer, post.id, post.text, post.updatedAt, post.author);
      if !brokerUp { return Some(BrokerDown); }
      topic := topic + [message];
      return None;
    }

    /**
      One transaction of the events task: the oldest row, if any.  The response of the
      use case is not looked at, so a row that could not be delivered is deleted like
      any other; a failing broker rolls the transaction back.
     */
    method ProcessingOneEvent(brokerUp: bool) returns (error: Option<ServiceError>, ghost handled: seq<EventRow>)
      modifies this`events, this`topic
      ensures handled + events == old(events)
      ensures topic == old(topic) + Deliveries(posts, handled)
      ensures error.None? ==> |handled| == if old(events) == [] then 0 else 1
      ensures |handled| <= 1
      ensures error.Some? ==>
                && error == Some(BrokerDown) && !brokerUp
                && handled == [] && events != [] && Delivery(posts, events[0]).Ok?
    {
      if events == [] { return None, []; }
      var event := events[0];
      var outcome := ProcessingServiceEvents(event, brokerUp);
      if outcome.Raised? { return Some(BrokerDown), []; }
      events := events[1..];
      DeliveriesOfOne(posts, event);
      return None, [event];
    }

    /**
      As many iterations of the endless loop as there are rounds; a failing broker ends
      it.  `tables[i]` is the posts table as others have left it when round `i` begins.
     */
    method ProcessingEventsTask(rounds: seq<Round<EventRow>>, tables: seq<map<PostId, Post>>)
      returns (error: Option<ServiceError>, n: nat, ghost account: Account)
      requires |tables| == |rounds|
      modifies this`events, this`topic, this`posts
      ensures n <= |rounds| && (error.None? ==> n == |rounds|)
      ensures QueueSoFar(old(events), rounds, n, account.handled, events)
      ensures account.Fits(tables, n)
      ensures topic == old(topic) + account.sent
      ensures error.Some? ==>
                && error == Some(BrokerDown) && n > 0 && !rounds[n - 1].brokerUp
                && events != [] && Delivery(tables[n - 1], events[0]).Ok?
      ensures Undisturbed(rounds) && |old(events)| <= |rounds| ==>
                error.None? && events == [] && account.handled == old(events)
    {
      account := Account([], [], [], []);
      NothingYet(old(events), rounds);
      for i := 0 to |rounds|
        invariant QueueSoFar(old(events), rounds, i, account.handled, events)
        invariant account.Fits(tables, i)
        invariant topic == old(topic) + account.sent
        invariant Undisturbed(rounds) ==> |events| == Remaining(|old(events)|, i)
      {
        ghost var more, queue, before := [], events, account;
        posts, events := tables[i], events + rounds[i].arrivals;
        error, more := ProcessingOneEvent(rounds[i].brokerUp);
        account := before.Next(i, tables[i], more);
        QueueNext(old(events), rounds, i, before.handled, queue, more, events);
        AccountNext(before, tables, i, more);
        NextAppends(before, tables[i], i, more);
        SentOnTopic(old(topic), before.sent, Deliveries(tables[i], more));
        if error.Some? { return error, i + 1, account; }
      }
      if Undisturbed(rounds) { AllHandled(rounds, old(events), account.handled, events); }
      return None, |rounds|, account;
    }

    /** One transaction of the users task.  A row without an id raises, as a failing broker does. */
    method ProcessingOneUserRow(brokerUp: bool) returns (error: Option<ServiceError>, ghost handled: seq<UserRow>)
      modifies this`userRows, this`userTopic
      ensures handled + userRows == old(userRows)
      ensures error.None? ==> |handled| == if old(userRows) == [] then 0 else 1
      ensures Announced(old(userTopic), handled, userTopic)
      ensures forall k :: 0 <= k < |handled| ==>
                var m := userTopic[|old(userTopic)| + k];
                handled[k].id == Some(m.key) && m.action == handled[k].action
                && m.data.id == m.key && m.data.profile == handled[k].profile
      ensures error.Some? ==>
                && handled == [] && userRows != []
                && (if userRows[0].id.None? then error == Some(Unprocessable) else error == Some(BrokerDown) && !brokerUp)
    {
      if userRows == [] { return None, []; }
      var event := userRows[0];
      if event.id.None? { return Some(Unprocessable), []; }
      if !brokerUp { return Some(BrokerDown), []; }
      userTopic := userTopic + [UserMessage(event.id.value, event.action, UserData(event.id.value, event.profile))];
      userRows := userRows[1..];
      return None, [event];
    }

    /** One iteration of the users task; `before` and `topic` are what the loop began with. */
    method UserRound(rounds: seq<Round<UserRow>>, i: nat,
                     ghost before: seq<UserRow>, ghost topic: seq<UserMessage>, ghost handled: seq<UserRow>)
      returns (error: Option<ServiceError>, ghost handled': seq<UserRow>)
      requires i < |rounds| && QueueSoFar(before, rounds, i, handled, userRows) && Announced(topic, handled, userTopic)
      modifies this`userRows, this`userTopic
      ensures QueueSoFar(before, rounds, i + 1, handled', userRows) && Announced(topic, handled', userTopic)
      ensures error.Some? ==> userRows != [] && (userRows[0].id.None? || !rounds[i].brokerUp)
      ensures error.None? && rounds[i].arrivals == [] ==> |userRows| == Remaining(|old(userRows)|, 1)
    {
      ghost var more, queue, sent := [], userRows, userTopic;
      userRows := userRows + rounds[i].arrivals;
      error, more := ProcessingOneUserRow(rounds[i].brokerUp);
      QueueNext(before, rounds, i, handled, queue, more, userRows);
      MoreAnnounced(topic, handled, sent, more, userTopic);
      handled' := handled + more;
    }

    /** The loop of the users task; its errors leave the row where it is and end the loop. */
    method UserRounds(rounds: seq<Round<UserRow>>)
      returns (error: Option<ServiceError>, n: nat, ghost handled: seq<UserRow>)
      modifies this`userRows, this`userTopic
      ensures n <= |rounds| && (error.None? ==> n == |rounds|)
      ensures QueueSoFar(old(userRows), rounds, n, handled, userRows)
      ensures Announced(old(userTopic), handled, userTopic)
      ensures error.Some? ==> n > 0 && userRows != [] && (userRows[0].id.None? || !rounds[n - 1].brokerUp)
      ensures Undisturbed(rounds) && error.None? ==> |userRows| == Remaining(|old(userRows)|, |rounds|)
    {
      handled := [];
      NothingYet(old(userRows), rounds);
      NothingAnnounced(userTopic);
      for i := 0 to |rounds|
        invariant QueueSoFar(old(userRows), rounds, i, handled, userRows)
        invariant Announced(old(userTopic), handled, userTopic)
        invariant Undisturbed(rounds) ==> |userRows| == Remaining(|old(userRows)|, i)
      {
        error, handled := UserRound(rounds, i, old(userRows), old(userTopic), handled);
        if error.Some? { return error, i + 1, handled; }
      }
      return None, |rounds|, handled;
    }

    /** The users task: every handled row became its own message; nothing fails but the broker and a row without an id. */
    method ProcessingUsersOutboxTask(rounds: seq<Round<UserRow>>)
      returns (error: Option<ServiceError>, n: nat, ghost handled: seq<UserRow>)
      modifies this`userRows, this`userTopic
      ensures n <= |rounds| && (error.None? ==> n == |rounds|)
      ensures QueueSoFar(old(userRows), rounds, n, handled, userRows)
      ensures Announced(old(userTopic), handled, userTopic)
      ensures |userTopic| == |old(userTopic)| + |handled|
      ensures forall k :: 0 <= k < |handled| ==> Carries(userTopic[|old(userTopic)| + k], handled[k])
      ensures error.Some? ==> n > 0 && userRows != [] && (userRows[0].id.None? || !rounds[n - 1].brokerUp)
      ensures Undisturbed(rounds) && |old(userRows)| <= |rounds| && error.None? ==>
                userRows == [] && handled == old(userRows)
      ensures Undisturbed(rounds) && (forall row :: row in old(userRows) ==> row.id.Some?) ==> error.None?
    {
      error, n, handled := UserRounds(rounds);
      EachIsCarried(old(userTopic), handled, userTopic);
      if Undisturbed(rounds) {
        if error.Some? {
          OldestIsOld(old(userRows), rounds, n, handled, userRows);
        } else {
          AllHandled(rounds, old(userRows), handled, userRows);
        }
      }
    }
  }

  /** Different rounds, in order, below `n`. */
  predicate RoundsOf(at: seq<nat>, n: nat) {
    (forall k :: 0 <= k < |at| ==> at[k] < n) && forall j, k :: 0 <= j < k < |at| ==> at[j] < at[k]
  }

  /** What was handled and what is left is what came in before round `i`. */
  ghost predicate QueueSoFar<T>(before: seq<T>, rounds: seq<Round<T>>, i: nat, handled: seq<T>, queue: seq<T>)
    requires i <= |rounds|
  {
    handled + queue == before + Arrived(rounds[..i])
  }

  lemma QueueNext<T>(before: seq<T>, rounds: seq<Round<T>>, i: nat, handled: seq<T>, queue: seq<T>,
                           more: seq<T>, rest: seq<T>)
    requires i < |rounds| && QueueSoFar(before, rounds, i, handled, queue)
    requires more + rest == queue + rounds[i].arrivals
    ensures QueueSoFar(before, rounds, i + 1, handled + more, rest)
  {
    ArrivedNext(rounds, i, before, handled, queue);
    HandledNext(handled, more, rest, queue + rounds[i].arrivals);
  }

  lemma NothingYet<T>(before: seq<T>, rounds: seq<Round<T>>)
    ensures QueueSoFar(before, rounds, 0, [], before)
  {
    assert [] + before == before + [];
  }

  lemma AccountNext(account: Account, tables: seq<map<PostId, Post>>, i: nat, more: seq<EventRow>)
    requires i < |tables| && account.Fits(tables, i) && |more| <= 1
    ensures account.Next(i, tables[i], more).Fits(tables, i + 1)
  {
    if more != [] { AccountGrown(account, tables, i, more[0]); }
  }

  lemma AccountGrown(account: Account, tables: seq<map<PostId, Post>>, i: nat, row: EventRow)
    requires i < |tables| && account.Fits(tables, i)
    ensures account.Grown(i, tables[i], row).Fits(tables, i + 1)
  {
    AccountInRounds(account, tables, i, row);
    DeliveriesInNext(account.handled, account.found, row, tables[i]);
  }

  lemma NextAppends(account: Account, posts: map<PostId, Post>, i: nat, more: seq<EventRow>)
    requires |more| <= 1
    ensures account.Next(i, posts, more).handled == account.handled + more
    ensures account.Next(i, posts, more).sent == account.sent + Deliveries(posts, more)
  {
    if more == [] {
      assert account.handled + more == account.handled && account.sent + [] == account.sent;
    } else {
      assert more == [more[0]];
      DeliveriesOfOne(posts, more[0]);
    }
  }

  lemma AccountInRounds(account: Account, tables: seq<map<PostId, Post>>, i: nat, row: EventRow)
    requires i < |tables| && account.InRounds(tables, i)
    ensures account.Grown(i, tables[i], row).InRounds(tables, i + 1)
  {
    RoundsNext(account.at, i);
    var grown := account.Grown(i, tables[i], row);
    forall k | 0 <= k < |grown.at| ensures grown.found[k] == tables[grown.at[k]] {
      assert k < |account.at| ==> account.found[k] == tables[account.at[k]];
    }
  }

  lemma RoundsNext(at: seq<nat>, i: nat)
    requires RoundsOf(at, i)
    ensures RoundsOf(at + [i], i + 1)
  {
  }

  lemma DeliveriesInNext(rows: seq<EventRow>, found: seq<map<PostId, Post>>, row: EventRow, posts: map<PostId, Post>)
    requires |found| == |rows|
    ensures DeliveriesIn(rows + [row], found + [posts]) == DeliveriesIn(rows, found) + SentFor(posts, row)
  {
    assert (rows + [row])[..|rows|] == rows && (found + [posts])[..|found|] == found;
  }

  lemma DeliveriesOfOne(posts: map<PostId, Post>, row: EventRow)
    ensures Deliveries(posts, [row]) == SentFor(posts, row)
  {
    assert [row][1..] == [] && SentFor(posts, row) + [] == SentFor(posts, row);
  }

  /** With a posts table that stays as it is, only the rows matter. */
  lemma {:induction false} SameTable(rows: seq<EventRow>, found: seq<map<PostId, Post>>, posts: map<PostId, Post>)
    requires |found| == |rows| && forall k :: 0 <= k < |found| ==> found[k] == posts
    ensures DeliveriesIn(rows, found) == Deliveries(posts, rows)
  {
    if rows == [] {
    } else {
      var n := |rows| - 1;
      SameTable(rows[..n], found[..n], posts);
      DeliveriesOfBoth(posts, rows[..n], [rows[n]]);
      DeliveriesOfOne(posts, rows[n]);
      assert rows == rows[..n] + [rows[n]];
    }
  }

  lemma SentOnTopic(topic: seq<InboxMessage>, sent: seq<InboxMessage>, more: seq<InboxMessage>)
    ensures topic + sent + more == topic + (sent + more)
  {
  }

  function Remaining(total: nat, rounds: nat): nat {
    if rounds <= total then total - rounds else 0
  }

  function ToMessages(rows: seq<UserRow>): seq<UserMessage>
    requires forall row :: row in rows ==> row.id.Some?
  {
    seq(|rows|, i requires 0 <= i < |rows| => ToMessage(rows[i]))
  }

  /** The topic got the messages of the rows, in order. */
  ghost predicate Announced(before: seq<UserMessage>, rows: seq<UserRow>, after: seq<UserMessage>) {
    (forall row :: row in rows ==> row.id.Some?) && after == before + ToMessages(rows)
  }

  lemma NothingAnnounced(topic: seq<UserMessage>)
    ensures Announced(topic, [], topic)
  {
  }

  lemma MoreAnnounced(before: seq<UserMessage>, rows: seq<UserRow>, topic: seq<UserMessage>,
                      more: seq<UserRow>, after: seq<UserMessage>)
    requires Announced(before, rows, topic) && Announced(topic, more, after)
    ensures Announced(before, rows + more, after)
  {
    assert ToMessages(rows + more) == ToMessages(rows) + ToMessages(more);
  }

  lemma EachIsCarried(before: seq<UserMessage>, rows: seq<UserRow>, after: seq<UserMessage>)
    requires Announced(before, rows, after)
    ensures |after| == |before| + |rows|
    ensures forall k :: 0 <= k < |rows| ==> Carries(after[|before| + k], rows[k])
  {
    forall k | 0 <= k < |rows| ensures Carries(after[|before| + k], rows[k]) {
      assert rows[k] in rows;
    }
  }

  /** A consumer of the topic reads the events that the rows were made from. */
  lemma MessagesCarryEvents(events: seq<UserEvent>)
    ensures forall row :: row in RowsFrom(events) ==> row.id.Some?
    ensures EventsOf(ToMessages(RowsFrom(events))) == events
  {
  }

  /** Where nothing arrives, the oldest row left was there at the beginning. */
  lemma OldestIsOld<T>(before: seq<T>, rounds: seq<Round<T>>, i: nat, handled: seq<T>, queue: seq<T>)
    requires i <= |rounds| && Undisturbed(rounds) && QueueSoFar(before, rounds, i, handled, queue) && queue != []
    ensures queue[0] in before
  {
    NothingArrived(rounds[..i]);
    assert (handled + queue)[|handled|] == queue[0];
  }

  /** Whichever part of the queue is handled next goes behind what was handled before. */
  lemma HandledNext<T>(handled: seq<T>, more: seq<T>, rest: seq<T>, queue: seq<T>)
    requires more + rest == queue
    ensures handled + more + rest == handled + queue
  {
    assert handled + more + rest == handled + (more + rest);
  }

  lemma AllHandled<T>(rounds: seq<Round<T>>, before: seq<T>, handled: seq<T>, queue: seq<T>)
    requires Undisturbed(rounds) && QueueSoFar(before, rounds, |rounds|, handled, queue)
    ensures queue == [] ==> handled == before
  {
    assert rounds[..|rounds|] == rounds;
    NothingArrived(rounds);
    assert before + [] == before && handled + [] == handled;
  }

  lemma ArrivedNext<T>(rounds: seq<Round<T>>, i: nat, before: seq<T>, handled: seq<T>, queue: seq<T>)
    requires i < |rounds| && handled + queue == before + Arrived(rounds[..i])
    ensures handled + (queue + rounds[i].arrivals) == before + Arrived(rounds[..i + 1])
  {
    assert rounds[..i + 1][..i] == rounds[..i];
    assert handled + (queue + rounds[i].arrivals) == handled + queue + rounds[i].arrivals;
  }

  lemma {:induction false} NothingArrived<T>(rounds: seq<Round<T>>)
    requires Undisturbed(rounds)
    ensures Arrived(rounds) == []
  {
    if rounds == [] {
    } else {
      NothingArrived(rounds[..|rounds| - 1]);
    }
  }

  // ------------------------------------------------------------------------
  // One message per follower
  // ------------------------------------------------------------------------

  function MessagesTo(messages: seq<InboxMessage>, u: UserId, post: PostId): nat {
    if messages == [] then 0
    else MessagesTo(messages[1..], u, post) + if messages[0].sendTo == u && messages[0].post == post then 1 else 0
  }

  lemma {:induction false} MessagesToBoth(a: seq<InboxMessage>, b: seq<InboxMessage>, u: UserId, post: PostId)
    ensures MessagesTo(a + b, u, post) == MessagesTo(a, u, post) + MessagesTo(b, u, post)
  {
    if a == [] {
      assert a + b == b;
    } else {
      MessagesToBoth(a[1..], b, u, post);
      assert (a + b)[1..] == a[1..] + b;
    }
  }

  /**
    Draining a queue that holds the fan-out of a surviving post, among rows of other
    posts, publishes one message to each follower and none to anybody else; each is
    keyed by its addressee and carries the post as it is now.
   */
  lemma EachFollowerOnce(posts: map<PostId, Post>, earlier: seq<EventRow>, added: seq<EventRow>, later: seq<EventRow>,
                         followers: set<UserId>, post: PostId, u: UserId)
    requires post in posts && (forall p :: p in posts ==> posts[p].id == p)
    requires FansOut(added, followers, post)
    requires forall i :: 0 <= i < |earlier| ==> earlier[i].post != post
    requires forall i :: 0 <= i < |later| ==> later[i].post != post
    ensures MessagesTo(Deliveries(posts, earlier + added + later), u, post) == if u in followers then 1 else 0
    ensures forall m :: m in Deliveries(posts, earlier + added + later) ==> m.key == m.sendTo
    ensures forall m :: m in Deliveries(posts, earlier + added + later) && m.post == post ==>
              m.text == posts[post].text && m.author == posts[post].author && m.updatedAt == posts[post].updatedAt
  {
    AmongOthers(posts, earlier, added, later, u, post);
    AddedOnce(posts, added, u, post);
    DeliveriesFaithful(posts, earlier + added + later);
    var row := EventRow(SendNewPostForFriends, u, post);
    if u in followers {
      assert row in added;
    }
  }

  lemma AmongOthers(posts: map<PostId, Post>, earlier: seq<EventRow>, added: seq<EventRow>, later: seq<EventRow>,
                    u: UserId, post: PostId)
    requires forall p :: p in posts ==> posts[p].id == p
    requires forall i :: 0 <= i < |earlier| ==> earlier[i].post != post
    requires forall i :: 0 <= i < |later| ==> later[i].post != post
    ensures MessagesTo(Deliveries(posts, earlier + added + later), u, post) == MessagesTo(Deliveries(posts, added), u, post)
  {
    DeliveriesOfBoth(posts, earlier, added);
    DeliveriesOfBoth(posts, earlier + added, later);
    MessagesToBoth(Deliveries(posts, earlier), Deliveries(posts, added), u, post);
    MessagesToBoth(Deliveries(posts, earlier + added), Deliveries(posts, later), u, post);
    OtherPosts(posts, earlier, u, post);
    OtherPosts(posts, later, u, post);
  }

  lemma Associative(a: seq<InboxMessage>, b: seq<InboxMessage>, c: seq<InboxMessage>)
    ensures a + (b + c) == a + b + c
  {
  }

  lemma {:induction false} DeliveriesOfBoth(posts: map<PostId, Post>, a: seq<EventRow>, b: seq<EventRow>)
    ensures Deliveries(posts, a + b) == Deliveries(posts, a) + Deliveries(posts, b)
  {
    if a == [] {
      assert a + b == b;
    } else {
      assert (a + b)[1..] == a[1..] + b;
      DeliveriesOfBoth(posts, a[1..], b);
      Associative(SentFor(posts, a[0]), Deliveries(posts, a[1..]), Deliveries(posts, b));
    }
  }

  lemma {:induction false} OtherPosts(posts: map<PostId, Post>, rows: seq<EventRow>, u: UserId, post: PostId)
    requires forall p :: p in posts ==> posts[p].id == p
    requires forall i :: 0 <= i < |rows| ==> rows[i].post != post
    ensures MessagesTo(Deliveries(posts, rows), u, post) == 0
  {
    if rows == [] {
    } else {
      OtherPosts(posts, rows[1..], u, post);
      MessagesToBoth(SentFor(posts, rows[0]), Deliveries(posts, rows[1..]), u, post);
    }
  }

  lemma {:induction false} AddedOnce(posts: map<PostId, Post>, rows: seq<EventRow>, u: UserId, post: PostId)
    requires post in posts && posts[post].id == post
    requires forall i :: 0 <= i < |rows| ==> rows[i] == EventRow(SendNewPostForFriends, rows[i].consumer, post)
    requires forall i, j :: 0 <= i < j < |rows| ==> rows[i].consumer != rows[j].consumer
    ensures MessagesTo(Deliveries(posts, rows), u, post)
         == if exists i :: 0 <= i < |rows| && rows[i].consumer == u then 1 else 0
  {
    if rows == [] {
    } else {
      var rest := rows[1..];
      AddedOnce(posts, rest, u, post);
      var m := Delivery(posts, rows[0]).value;
      MessagesToBoth([m], Deliveries(posts, rest), u, post);
      assert [m][1..] == [];
      assert MessagesTo([m], u, post) == if rows[0].consumer == u then 1 else 0;
      if i :| 0 <= i < |rows| && rows[i].consumer == u {
        if i > 0 { assert rest[i - 1].consumer == u; }
        if j :| 0 <= j < |rest| && rest[j].consumer == u { assert rows[j + 1].consumer == u; }
      }
    }
  }

  lemma {:induction false} DeliveriesFaithful(posts: map<PostId, Post>, rows: seq<EventRow>)
    requires forall p :: p in posts ==> posts[p].id == p
    ensures forall m :: m in Deliveries(posts, rows) ==>
              && m.key == m.sendTo && m.post in posts
              && m.text == posts[m.post].text && m.author == posts[m.post].author
              && m.updatedAt == posts[m.post].updatedAt
  {
    if rows == [] {
    } else {
      DeliveriesFaithful(posts, rows[1..]);
    }
  }

  // ------------------------------------------------------------------------
  // The same with any number of workers
  // ------------------------------------------------------------------------

  ghost predicate KeyedById(posts: map<PostId, Post>) {
    forall p :: p in posts ==> posts[p].id == p
  }

  /** The rows behind their names. */
  function RowsOf(history: seq<EventRow>, log: seq<nat>): (rows: seq<EventRow>)
    requires forall k :: 0 <= k < |log| ==> log[k] < |history|
    ensures |rows| == |log| && forall k :: 0 <= k < |log| ==> rows[k] == history[log[k]]
  {
    seq(|log|, k requires 0 <= k < |log| => history[log[k]])
  }

  /** Row `k` announces `post` to `u` and finds it. */
  predicate Reaches(rows: seq<EventRow>, tables: seq<map<PostId, Post>>, k: nat, u: UserId, post: PostId)
    requires k < |rows| == |tables|
  {
    rows[k] == EventRow(SendNewPostForFriends, u, post) && post in tables[k]
  }

  function TimesReached(rows: seq<EventRow>, tables: seq<map<PostId, Post>>, u: UserId, post: PostId): nat
    requires |tables| == |rows|
  {
    if rows == [] then 0
    else
      var n := |rows| - 1;
      TimesReached(rows[..n], tables[..n], u, post) + if Reaches(rows, tables, n, u, post) then 1 else 0
  }

  /** A user gets one message for each handling of his row that finds the post. */
  lemma {:induction false} HandledIsDelivered(rows: seq<EventRow>, tables: seq<map<PostId, Post>>, u: UserId, post: PostId)
    requires |tables| == |rows| && forall k :: 0 <= k < |tables| ==> KeyedById(tables[k])
    ensures MessagesTo(DeliveriesIn(rows, tables), u, post) == TimesReached(rows, tables, u, post)
  {
    if rows == [] {
    } else {
      var n := |rows| - 1;
      HandledIsDelivered(rows[..n], tables[..n], u, post);
      DeliveredToOne(tables[n], rows[n], u, post);
      MessagesToBoth(DeliveriesIn(rows[..n], tables[..n]), SentFor(tables[n], rows[n]), u, post);
    }
  }

  /** `m` tells the consumer of row `k` about its post, as the post was when the row was handled. */
  predicate Tells(m: InboxMessage, rows: seq<EventRow>, tables: seq<map<PostId, Post>>, k: nat)
    requires k < |rows| == |tables|
  {
    && rows[k].eventType == SendNewPostForFriends && rows[k].post in tables[k]
    && m.key == m.sendTo == rows[k].consumer
    && var p := tables[k][rows[k].post];
       m.post == p.id && m.text == p.text && m.updatedAt == p.updatedAt && m.author == p.author
  }

  /** Every message comes from one of the handled rows. */
  lemma {:induction false} EveryMessageHasARow(rows: seq<EventRow>, tables: seq<map<PostId, Post>>, m: InboxMessage)
    returns (k: nat)
    requires |tables| == |rows| && m in DeliveriesIn(rows, tables)
    ensures k < |rows| && Tells(m, rows, tables, k)
  {
    var n := |rows| - 1;
    if m in SentFor(tables[n], rows[n]) {
      k := n;
    } else {
      k := EveryMessageHasARow(rows[..n], tables[..n], m);
    }
  }

  lemma DeliveredToOne(posts: map<PostId, Post>, row: EventRow, u: UserId, post: PostId)
    requires KeyedById(posts)
    ensures MessagesTo(SentFor(posts, row), u, post) ==
            if row == EventRow(SendNewPostForFriends, u, post) && post in posts then 1 else 0
  {
    if SentFor(posts, row) != [] { assert SentFor(posts, row)[1..] == []; }
  }

  lemma {:induction false} NeverReached(rows: seq<EventRow>, tables: seq<map<PostId, Post>>, u: UserId, post: PostId)
    requires |tables| == |rows|
    requires forall k :: 0 <= k < |rows| ==> rows[k] != EventRow(SendNewPostForFriends, u, post)
    ensures TimesReached(rows, tables, u, post) == 0
  {
    if rows == [] {
    } else {
      NeverReached(rows[..|rows| - 1], tables[..|rows| - 1], u, post);
    }
  }

  lemma {:induction false} ReachedAt(rows: seq<EventRow>, tables: seq<map<PostId, Post>>, u: UserId, post: PostId, at: nat)
    requires |tables| == |rows| && at < |rows|
    requires forall k :: 0 <= k < |rows| ==> (rows[k] == EventRow(SendNewPostForFriends, u, post) <==> k == at)
    ensures TimesReached(rows, tables, u, post) == if post in tables[at] then 1 else 0
  {
    var n := |rows| - 1;
    if at == n {
      NeverReached(rows[..n], tables[..n], u, post);
    } else {
      ReachedAt(rows[..n], tables[..n], u, post, at);
    }
  }

  /** Which row announces the post to `u`: one of the fan-out, or none. */
  lemma RowOf(history: seq<EventRow>, earlier: nat, added: seq<EventRow>, followers: set<UserId>, post: PostId, u: UserId)
    returns (r: nat)
    requires earlier + |added| <= |history| && history[earlier..earlier + |added|] == added
    requires FansOut(added, followers, post)
    requires forall q :: 0 <= q < |history| && !(earlier <= q < earlier + |added|) ==> history[q].post != post
    ensures forall q :: 0 <= q < |history| && history[q] == EventRow(SendNewPostForFriends, u, post) ==> q == r
    ensures if u in followers then r < |history| && history[r] == EventRow(SendNewPostForFriends, u, post) else r == |history|
  {
    var row := EventRow(SendNewPostForFriends, u, post);
    assert u in followers <==> row in added;
    r := |history|;
    if u in followers {
      var k :| 0 <= k < |added| && added[k] == row;
      r := earlier + k;
      assert history[r] == history[earlier..earlier + |added|][k];
    }
    forall q | 0 <= q < |history| && history[q] == row ensures q == r {
      assert history[q] == history[earlier..earlier + |added|][q - earlier];
      assert added[q - earlier] in added;
    }
  }

  /** A number that occurs once has one position. */
  lemma OnePosition(log: seq<nat>, r: nat) returns (at: nat)
    requires multiset(log)[r] == 1
    ensures at < |log|
    ensures forall k :: 0 <= k < |log| ==> (log[k] == r <==> k == at)
  {
    assert r in multiset(log);
    at :| 0 <= at < |log| && log[at] == r;
    forall k | 0 <= k < |log| && log[k] == r ensures k == at {
      TwoPositions(log, k, at);
    }
  }

  lemma TwoPositions(log: seq<nat>, i: nat, j: nat)
    requires i < |log| && j < |log| && log[i] == log[j]
    ensures i != j ==> multiset(log)[log[i]] >= 2
  {
    var m := if i < j then j else i;
    assert log == log[..m] + log[m..];
    if i != j {
      assert log[..m][if i < j then i else j] in log[..m] && log[m..][0] in log[m..];
    }
  }

  lemma DrainedLog(history: seq<EventRow>, steps: seq<OutboxWorkers.Step>)
    requires OutboxWorkers.Execute(steps).Some?
    requires OutboxWorkers.Execute(steps).value.committed == |history|
    ensures var log := OutboxWorkers.Execute(steps).value.log;
            forall k :: 0 <= k < |log| ==> log[k] < |history|
  {
    OutboxWorkers.ReachableInv(steps);
    var log := OutboxWorkers.Execute(steps).value.log;
    forall k | 0 <= k < |log| ensures log[k] < |history| { assert log[k] in log; }
  }

  /**
    Any number of workers, interleaved without a crash until the table is empty, while
    posts come, change and go: a follower's row is handled at one point of the log, and
    he gets one message if the post is there at that point, none otherwise; nobody else
    gets any.
   */
  lemma ConcurrentWorkersDeliverOnce(history: seq<EventRow>, earlier: nat, added: seq<EventRow>,
                                     followers: set<UserId>, post: PostId, u: UserId,
                                     steps: seq<OutboxWorkers.Step>, tables: seq<map<PostId, Post>>)
    returns (at: nat)
    requires OutboxWorkers.CrashFree(steps) && OutboxWorkers.Execute(steps).Some?
    requires OutboxWorkers.Execute(steps).value.committed == |history|
    requires OutboxWorkers.Execute(steps).value.table == {}
    requires earlier + |added| <= |history| && history[earlier..earlier + |added|] == added
    requires FansOut(added, followers, post)
    requires forall q :: 0 <= q < |history| && !(earlier <= q < earlier + |added|) ==> history[q].post != post
    requires |tables| == |OutboxWorkers.Execute(steps).value.log|
    requires forall k :: 0 <= k < |tables| ==> KeyedById(tables[k])
    ensures var log := OutboxWorkers.Execute(steps).value.log;
            && (forall k :: 0 <= k < |log| ==> log[k] < |history|)
            && var rows := RowsOf(history, log);
               && (u in followers ==> at < |rows| && rows[at] == EventRow(SendNewPostForFriends, u, post))
               && MessagesTo(DeliveriesIn(rows, tables), u, post)
                  == if u in followers && post in tables[at] then 1 else 0
  {
    var log := OutboxWorkers.Execute(steps).value.log;
    DrainedLog(history, steps);
    var rows := RowsOf(history, log);
    var r := RowOf(history, earlier, added, followers, post, u);
    HandledIsDelivered(rows, tables, u, post);
    at := 0;
    if u in followers {
      OutboxWorkers.DrainedOnce(steps, r);
      at := OnePosition(log, r);
      ReachedAt(rows, tables, u, post, at);
    } else {
      NeverReached(rows, tables, u, post);
    }
  }

  /** In particular a post that is there whenever one of its own rows is handled reaches every follower once. */
  lemma SurvivingPostReachesAll(history: seq<EventRow>, earlier: nat, added: seq<EventRow>,
                                followers: set<UserId>, post: PostId, u: UserId,
                                steps: seq<OutboxWorkers.Step>, tables: seq<map<PostId, Post>>)
    requires OutboxWorkers.CrashFree(steps) && OutboxWorkers.Execute(steps).Some?
    requires OutboxWorkers.Execute(steps).value.committed == |history|
    requires OutboxWorkers.Execute(steps).value.table == {}
    requires earlier + |added| <= |history| && history[earlier..earlier + |added|] == added
    requires FansOut(added, followers, post)
    requires forall q :: 0 <= q < |history| && !(earlier <= q < earlier + |added|) ==> history[q].post != post
    requires |tables| == |OutboxWorkers.Execute(steps).value.log|
    requires forall k :: 0 <= k < |tables| ==> KeyedById(tables[k])
    requires forall k :: 0 <= k < |tables| ==>
               earlier <= OutboxWorkers.Execute(steps).value.log[k] < earlier + |added| ==> post in tables[k]
    ensures var log := OutboxWorkers.Execute(steps).value.log;
            && (forall k :: 0 <= k < |log| ==> log[k] < |history|)
            && MessagesTo(DeliveriesIn(RowsOf(history, log), tables), u, post) == if u in followers then 1 else 0
  {
    var at := ConcurrentWorkersDeliverOnce(history, earlier, added, followers, post, u, steps, tables);
  }
}

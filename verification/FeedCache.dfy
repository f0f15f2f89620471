/**
  The cached friends feeds as a step system.  Tables, topics and cache change in
  atomic steps at strictly increasing instants; feed events are delivered in any
  order, any number of times, and leave the topic's backlog when acknowledged.
 */
module FeedCache {
  import opened Common
  import opened Users
  import opened SocialGraph
  import opened FeedQuery

  const CELEBRITY_FOLLOWERS_MIN: nat := 100_000

  datatype Cached = Cached(items: seq<Post>, ts: nat)

  datatype PostChange = PostAdded | PostUpdated | PostRemoved

  /** Feed events and, as the last kind, messages of the celebrity topic. */
  datatype Event =
    | FriendEvent(user: UserId, friend: UserId, added: bool, ts: nat)
    | PostEvent(change: PostChange, post: PostId, ts: nat)
    | CelebrityEvent(post: PostId, ts: nat)

  /** `sent` is all ever published, `pending` what has not been acknowledged. */
  datatype State = State(
    now: nat,
    users: set<UserId>,
    posts: seq<Post>,
    friends: set<Edge>,
    cache: map<UserId, Cached>,
    sent: set<Event>,
    pending: set<Event>)
  {
    function FeedOf(u: UserId): seq<Post> {
      Feed(posts, friends, u)
    }

    function Publish(e: Event): State {
      this.(sent := sent + {e}, pending := pending + {e})
    }
  }

  datatype Step =
    | Register(user: UserId)
    | CreatePost(author: UserId, id: PostId, text: string)
    | UpdatePost(author: UserId, id: PostId, text: string)
    | RemovePost(author: UserId, id: PostId)
    | AddFriend(user: UserId, friend: UserId)
    | RemoveFriend(user: UserId, friend: UserId)
    | ReadFeed(user: UserId)
    | Deliver(event: Event, ack: bool)

  datatype Tick = Tick(at: nat, step: Step)

  const START := State(0, {}, [], {}, map[], {}, {})

  /** get_user_post: the author's own post. */
  function OwnPost(s: State, author: UserId, id: PostId): Option<Post> {
    var p := Find(s.posts, id);
    if p.Some? && p.value.author == author then p else None
  }

  predicate CanAddFriend(s: State, user: UserId, friend: UserId) {
    user != friend && user in s.users && friend in s.users
  }

  /** _get_user_friends_posts_and_cached: an empty result is not stored. */
  function Recompute(s: State, u: UserId, at: nat): State {
    if u !in s.users || s.FeedOf(u) == [] then s
    else s.(cache := s.cache[u := Cached(s.FeedOf(u), at)])
  }

  function ClearFollowers(s: State, author: UserId): State {
    s.(cache := s.cache - Followers(s.friends, author))
  }

  predicate IsCelebrity(s: State, author: UserId) {
    |Followers(s.friends, author)| >= CELEBRITY_FOLLOWERS_MIN
  }

  /** What a handler does with an event; a handler that fails is logged and the event is acknowledged all the same. */
  function Handle(s: State, e: Event, at: nat): State {
    match e
    case FriendEvent(u, _, _, ts) =>
      if u in s.cache && s.cache[u].ts < ts then Recompute(s, u, at) else s
    case PostEvent(_, id, _) =>
      var p := Find(s.posts, id);
      if p.None? then s
      else if IsCelebrity(s, p.value.author) then s.Publish(CelebrityEvent(id, at))
      else ClearFollowers(s, p.value.author)
    case CelebrityEvent(id, _) =>
      var p := Find(s.posts, id);
      if p.None? then s else ClearFollowers(s, p.value.author)
  }

  predicate Enabled(s: State, t: Tick) {
    && s.now < t.at
    && (t.step.CreatePost? ==> Find(s.posts, t.step.id).None?)
    && (t.step.Deliver? ==> t.step.event in s.sent)
  }

  function Effect(s: State, t: Tick): State {
    match t.step
    case Register(u) => s.(users := s.users + {u})
    case CreatePost(a, id, text) =>
      if a !in s.users then s
      else s.(posts := s.posts + [Post(id, a, text, t.at, t.at)]).Publish(PostEvent(PostAdded, id, t.at))
    case UpdatePost(a, id, text) =>
      if OwnPost(s, a, id).None? then s
      else s.(posts := Rewritten(s.posts, id, text, t.at)).Publish(PostEvent(PostUpdated, id, t.at))
    case RemovePost(a, id) =>
      if OwnPost(s, a, id).None? then s
      else s.(posts := Without(s.posts, id)).Publish(PostEvent(PostRemoved, id, t.at))
    case AddFriend(u, f) =>
      if !CanAddFriend(s, u, f) || Edge(u, f) in s.friends then s
      else s.(friends := s.friends + {Edge(u, f)}).Publish(FriendEvent(u, f, true, t.at))
    case RemoveFriend(u, f) =>
      if Edge(u, f) !in s.friends then s
      else s.(friends := s.friends - {Edge(u, f)}).Publish(FriendEvent(u, f, false, t.at))
    case ReadFeed(u) => if u in s.cache then s else Recompute(s, u, t.at)
    case Deliver(e, ack) =>
      var handled := Handle(s, e, t.at);
      if ack then handled.(pending := handled.pending - {e}) else handled
  }

  function Next(s: State, t: Tick): State {
    Effect(s, t).(now := t.at)
  }

  // ------------------------------------------------------------------------
  // Staleness, excuses and taint
  // ------------------------------------------------------------------------

  ghost predicate Stale(s: State, u: UserId) {
    u in s.cache && s.cache[u].items != s.FeedOf(u)
  }

  /** A queued event that will repair the entry of `u`. */
  ghost predicate Repairs(s: State, e: Event, u: UserId) {
    match e
    case FriendEvent(v, _, _, ts) => v == u && u in s.cache && s.cache[u].ts < ts
    case PostEvent(_, id, _) => Find(s.posts, id).Some? && Edge(u, Find(s.posts, id).value.author) in s.friends
    case CelebrityEvent(id, _) => Find(s.posts, id).Some? && Edge(u, Find(s.posts, id).value.author) in s.friends
  }

  ghost predicate Excused(s: State, u: UserId) {
    exists e :: e in s.pending && Repairs(s, e, u)
  }

  /**
    The two cases the events cannot repair: a removed post, whose event finds no
    post to read back, and a recomputed feed that is empty and not stored.
   */
  ghost function NewlyTainted(s: State, t: Tick): set<UserId> {
    match t.step
    case RemovePost(a, id) => if OwnPost(s, a, id).None? then {} else Followers(s.friends, a)
    case Deliver(FriendEvent(u, _, _, ts), _) =>
      if u in s.cache && s.cache[u].ts < ts && s.FeedOf(u) == [] then {u} else {}
    case _ => {}
  }

  /** A taint is gone when the entry is dropped, replaced, or right again. */
  ghost function Taint(s: State, t: Tick, tainted: set<UserId>): set<UserId> {
    set u | u in tainted + NewlyTainted(s, t) && Stale(Next(s, t), u)
  }

  ghost predicate PostsWellFormed(posts: seq<Post>, now: nat) {
    InCreationOrder(posts) && forall p :: p in posts ==> p.createdAt <= now
  }

  ghost predicate CacheWellFormed(s: State) {
    && s.cache.Keys <= s.users
    && (forall u :: u in s.cache ==> s.cache[u].ts <= s.now && s.cache[u].items != [])
    && (forall e :: e in s.sent ==> e.ts <= s.now)
    && s.pending <= s.sent
  }

  ghost predicate WellFormed(s: State) {
    PostsWellFormed(s.posts, s.now) && CacheWellFormed(s)
  }

  /** A cached feed is the fresh one, or a queued event will repair it, or it is tainted. */
  ghost predicate Coherent(s: State, tainted: set<UserId>) {
    && (forall u :: Stale(s, u) ==> Excused(s, u) || u in tainted)
    && (forall u :: u in tainted ==> Stale(s, u))
  }

  // ------------------------------------------------------------------------
  // Every step keeps the tables well formed
  // ------------------------------------------------------------------------

  lemma AppendKeepsOrder(posts: seq<Post>, now: nat, p: Post)
    requires PostsWellFormed(posts, now) && now < p.createdAt && Find(posts, p.id).None?
    ensures PostsWellFormed(posts + [p], p.createdAt)
  {
  }

  lemma RewriteKeepsOrder(posts: seq<Post>, now: nat, id: PostId, text: string, at: nat)
    requires PostsWellFormed(posts, now)
    ensures PostsWellFormed(Rewritten(posts, id, text, at), now)
  {
  }

  lemma PostsStayWellFormed(s: State, t: Tick)
    requires WellFormed(s) && Enabled(s, t)
    ensures PostsWellFormed(Next(s, t).posts, t.at)
  {
    match t.step
    case CreatePost(a, id, text) =>
      if a in s.users { AppendKeepsOrder(s.posts, s.now, Post(id, a, text, t.at, t.at)); }
    case UpdatePost(a, id, text) =>
      RewriteKeepsOrder(s.posts, s.now, id, text, t.at);
    case RemovePost(a, id) => WithoutKeeps(s.posts, id);
    case _ =>
  }

  lemma HandlingKeepsCache(s: State, e: Event, at: nat)
    requires CacheWellFormed(s) && s.now < at
    ensures CacheWellFormed(Handle(s, e, at).(now := at))
  {
  }

  lemma CacheStaysWellFormed(s: State, t: Tick)
    requires CacheWellFormed(s) && Enabled(s, t)
    ensures CacheWellFormed(Next(s, t))
  {
    match t.step
    case Deliver(e, _) => HandlingKeepsCache(s, e, t.at);
    case _ =>
  }

  lemma NextIsWellFormed(s: State, t: Tick)
    requires WellFormed(s) && Enabled(s, t)
    ensures WellFormed(Next(s, t))
  {
    PostsStayWellFormed(s, t);
    CacheStaysWellFormed(s, t);
  }

  // ------------------------------------------------------------------------
  // Every step keeps the cache coherent
  // ------------------------------------------------------------------------

  lemma FindIs(posts: seq<Post>, p: Post)
    requires InCreationOrder(posts) && p in posts
    ensures Find(posts, p.id) == Some(p)
  {
  }

  /** The author a post event is about. */
  function AuthorOf(s: State, id: PostId): Option<UserId> {
    var p := Find(s.posts, id);
    if p.Some? then Some(p.value.author) else None
  }

  /** An excuse whose event stays queued, whose post keeps its author and whose reader keeps his friends, stays good. */
  lemma ExcuseSurvives(s: State, s': State, u: UserId, e: Event)
    requires e in s'.pending && Repairs(s, e, u)
    requires u in s.cache && u in s'.cache && s'.cache[u] == s.cache[u]
    requires e.FriendEvent? || AuthorOf(s', e.post) == AuthorOf(s, e.post)
    requires forall a :: Edge(u, a) in s.friends ==> Edge(u, a) in s'.friends
    ensures Excused(s', u)
  {
  }

  /** What each step lemma below shows of one user. */
  ghost predicate Accounted(s: State, t: Tick, tainted: set<UserId>, u: UserId) {
    Stale(Next(s, t), u) ==> Excused(Next(s, t), u) || u in tainted + NewlyTainted(s, t)
  }

  lemma CreateAccounted(s: State, t: Tick, tainted: set<UserId>, u: UserId)
    requires WellFormed(s) && Enabled(s, t) && Coherent(s, tainted) && t.step.CreatePost?
    ensures Accounted(s, t, tainted, u)
  {
    var s' := Next(s, t);
    var CreatePost(a, id, text) := t.step;
    if Stale(s', u) && u !in tainted {
      if a !in s.users {
        SameTables(s, s', u);
      } else {
        var p := Post(id, a, text, t.at, t.at);
        if Edge(u, a) in s.friends {
          FindAppended(s.posts, p, id);
          assert Repairs(s', PostEvent(PostAdded, id, t.at), u);
        } else {
          NewestAppended(s.posts, p, s.friends, u);
          var e :| e in s.pending && Repairs(s, e, u);
          if !e.FriendEvent? { FindAppended(s.posts, p, e.post); }
          ExcuseSurvives(s, s', u, e);
        }
      }
    }
  }

  lemma {:induction false} FindAppended(posts: seq<Post>, p: Post, id: PostId)
    ensures Find(posts + [p], id) == if Find(posts, id).Some? then Find(posts, id) else if p.id == id then Some(p) else None
  {
    if posts == [] {
    } else {
      FindAppended(posts[1..], p, id);
      assert (posts + [p])[1..] == posts[1..] + [p];
    }
  }

  lemma NewestAppended(posts: seq<Post>, p: Post, friends: set<Edge>, u: UserId)
    requires Edge(u, p.author) !in friends
    ensures Newest(posts + [p], friends, u) == Newest(posts, friends, u)
  {
  }

  /** Nothing that matters to `u` has changed. */
  lemma SameTables(s: State, s': State, u: UserId)
    requires Excused(s, u) || !Stale(s, u)
    requires s'.posts == s.posts && s'.friends == s.friends && s.pending <= s'.pending
    requires u in s'.cache ==> u in s.cache && s'.cache[u] == s.cache[u]
    requires Stale(s', u)
    ensures Excused(s', u)
  {
  }

  lemma UpdateAccounted(s: State, t: Tick, tainted: set<UserId>, u: UserId)
    requires WellFormed(s) && Enabled(s, t) && Coherent(s, tainted) && t.step.UpdatePost?
    ensures Accounted(s, t, tainted, u)
  {
    var s' := Next(s, t);
    var UpdatePost(a, id, text) := t.step;
    var own := OwnPost(s, a, id);
    NextIsWellFormed(s, t);
    if own.Some? && Stale(s', u) {
      RewrittenAuthor(s.posts, id, text, t.at, id);
      if Edge(u, a) in s.friends {
        assert Repairs(s', PostEvent(PostUpdated, id, t.at), u);
      } else if u !in tainted {
        forall p | p in s.posts && p.id == id ensures p.author == a { SameId(s.posts, p, own.value); }
        RewriteElsewhere(s.posts, s.friends, u, id, text, t.at);
        var e :| e in s.pending && Repairs(s, e, u);
        if !e.FriendEvent? { RewrittenAuthor(s.posts, id, text, t.at, e.post); }
        ExcuseSurvives(s, s', u, e);
      }
    } else if Stale(s', u) && u !in tainted {
      SameTables(s, s', u);
    }
  }

  lemma {:induction false} RewrittenAuthor(posts: seq<Post>, id: PostId, text: string, at: nat, other: PostId)
    ensures var p, q := Find(posts, other), Find(Rewritten(posts, id, text, at), other);
            (p.Some? <==> q.Some?) && (p.Some? ==> p.value.author == q.value.author)
  {
    if posts == [] {
    } else {
      RewrittenAuthor(posts[1..], id, text, at, other);
      assert Rewritten(posts, id, text, at)[1..] == Rewritten(posts[1..], id, text, at);
    }
  }

  lemma RemoveAccounted(s: State, t: Tick, tainted: set<UserId>, u: UserId)
    requires WellFormed(s) && Enabled(s, t) && Coherent(s, tainted) && t.step.RemovePost?
    ensures Accounted(s, t, tainted, u)
  {
    var s' := Next(s, t);
    var RemovePost(a, id) := t.step;
    var own := OwnPost(s, a, id);
    NextIsWellFormed(s, t);
    if own.Some? && Stale(s', u) && u !in tainted + NewlyTainted(s, t) {
      forall p | p in s.posts && p.id == id ensures p.author == a { SameId(s.posts, p, own.value); }
      RemoveElsewhere(s.posts, s.friends, u, id);
      var e :| e in s.pending && Repairs(s, e, u);
      if !e.FriendEvent? {
        var q := Find(s.posts, e.post).value;
        WithoutKeeps(s.posts, id);
        assert q in s'.posts;
        FindIs(s'.posts, q);
      }
      ExcuseSurvives(s, s', u, e);
    } else if Stale(s', u) && u !in tainted && own.None? {
      SameTables(s, s', u);
    }
  }

  /** The user's own edge: the event is newer than any entry. */
  lemma OwnEdgeExcused(s: State, t: Tick, u: UserId)
    requires WellFormed(s) && Enabled(s, t) && (t.step.AddFriend? || t.step.RemoveFriend?)
    requires Next(s, t).friends != s.friends && u == t.step.user && u in s.cache
    ensures Excused(Next(s, t), u)
  {
    assert Repairs(Next(s, t), FriendEvent(u, t.step.friend, t.step.AddFriend?, t.at), u);
  }

  /** Nobody else's feed or entry sees the edge. */
  lemma OtherEdgeUnseen(s: State, t: Tick, u: UserId)
    requires (t.step.AddFriend? || t.step.RemoveFriend?) && u != t.step.user
    ensures Next(s, t).FeedOf(u) == s.FeedOf(u)
    ensures forall a :: Edge(u, a) in Next(s, t).friends <==> Edge(u, a) in s.friends
    ensures Next(s, t).posts == s.posts && Next(s, t).cache == s.cache && s.pending <= Next(s, t).pending
  {
    OtherEdges(s.posts, s.friends, Next(s, t).friends, u);
  }

  lemma OtherEdgeExcused(s: State, t: Tick, u: UserId)
    requires (t.step.AddFriend? || t.step.RemoveFriend?) && u != t.step.user
    requires Excused(s, u) || !Stale(s, u)
    requires Stale(Next(s, t), u)
    ensures Excused(Next(s, t), u)
  {
    OtherEdgeUnseen(s, t, u);
    var e :| e in s.pending && Repairs(s, e, u);
    ExcuseSurvives(s, Next(s, t), u, e);
  }

  lemma FriendAccounted(s: State, t: Tick, tainted: set<UserId>, u: UserId)
    requires WellFormed(s) && Enabled(s, t) && Coherent(s, tainted) && (t.step.AddFriend? || t.step.RemoveFriend?)
    ensures Accounted(s, t, tainted, u)
  {
    if Stale(Next(s, t), u) && u !in tainted {
      if Next(s, t).friends == s.friends {
        SameTables(s, Next(s, t), u);
      } else if u == t.step.user {
        OwnEdgeExcused(s, t, u);
      } else {
        OtherEdgeExcused(s, t, u);
      }
    }
  }

  lemma ReadAccounted(s: State, t: Tick, tainted: set<UserId>, u: UserId)
    requires WellFormed(s) && Enabled(s, t) && Coherent(s, tainted) && (t.step.ReadFeed? || t.step.Register?)
    ensures Accounted(s, t, tainted, u)
  {
  }

  lemma DeliverAccounted(s: State, t: Tick, tainted: set<UserId>, u: UserId)
    requires WellFormed(s) && Enabled(s, t) && Coherent(s, tainted) && t.step.Deliver?
    ensures Accounted(s, t, tainted, u)
  {
    var s' := Next(s, t);
    var Deliver(e0, ack) := t.step;
    if Stale(s', u) && u !in tainted + NewlyTainted(s, t) {
      assert u in s.cache && s'.cache[u] == s.cache[u];
      assert s'.posts == s.posts && s'.friends == s.friends;
      var e :| e in s.pending && Repairs(s, e, u);
      if e in s'.pending {
        ExcuseSurvives(s, s', u, e);
      } else {
        assert e == e0 && e.PostEvent? && IsCelebrity(s, AuthorOf(s, e.post).value);
        var passedOn := CelebrityEvent(e.post, t.at);
        assert passedOn in s'.pending && Repairs(s', passedOn, u);
      }
    }
  }

  lemma StepKeepsCoherent(s: State, t: Tick, tainted: set<UserId>)
    requires WellFormed(s) && Enabled(s, t) && Coherent(s, tainted)
    ensures Coherent(Next(s, t), Taint(s, t, tainted))
  {
    forall u | Stale(Next(s, t), u) ensures Excused(Next(s, t), u) || u in Taint(s, t, tainted) {
      match t.step
      case CreatePost(_, _, _) => CreateAccounted(s, t, tainted, u);
      case UpdatePost(_, _, _) => UpdateAccounted(s, t, tainted, u);
      case RemovePost(_, _) => RemoveAccounted(s, t, tainted, u);
      case AddFriend(_, _) => FriendAccounted(s, t, tainted, u);
      case RemoveFriend(_, _) => FriendAccounted(s, t, tainted, u);
      case ReadFeed(_) => ReadAccounted(s, t, tainted, u);
      case Register(_) => ReadAccounted(s, t, tainted, u);
      case Deliver(_, _) => DeliverAccounted(s, t, tainted, u);
    }
  }

  // ------------------------------------------------------------------------
  // Runs
  // ------------------------------------------------------------------------

  /** The state after a run and the users tainted on the way, or None when a step was not enabled. */
  ghost function Run(ticks: seq<Tick>): Option<(State, set<UserId>)> {
    if ticks == [] then Some((START, {}))
    else
      match Run(ticks[..|ticks| - 1])
      case None => None
      case Some((s, tainted)) =>
        var t := ticks[|ticks| - 1];
        if Enabled(s, t) then Some((Next(s, t), Taint(s, t, tainted))) else None
  }

  lemma {:induction false} RunsAreCoherent(ticks: seq<Tick>)
    requires Run(ticks).Some?
    ensures WellFormed(Run(ticks).value.0) && Coherent(Run(ticks).value.0, Run(ticks).value.1)
  {
    if ticks == [] {
    } else {
      var before := ticks[..|ticks| - 1];
      RunsAreCoherent(before);
      var (s, tainted) := Run(before).value;
      NextIsWellFormed(s, ticks[|ticks| - 1]);
      StepKeepsCoherent(s, ticks[|ticks| - 1], tainted);
    }
  }

  /** Once every event is acknowledged, the stale entries are exactly the tainted ones. */
  lemma QuiescentStaleIffTainted(ticks: seq<Tick>, u: UserId)
    requires Run(ticks).Some? && Run(ticks).value.0.pending == {}
    ensures Stale(Run(ticks).value.0, u) <==> u in Run(ticks).value.1
  {
    RunsAreCoherent(ticks);
  }

  /** No successful removal and no recomputed feed that came out empty. */
  ghost predicate Untroubled(ticks: seq<Tick>) {
    forall i :: 0 <= i < |ticks| && Run(ticks[..i]).Some? ==> NewlyTainted(Run(ticks[..i]).value.0, ticks[i]) == {}
  }

  lemma {:induction false} UntroubledIsUntainted(ticks: seq<Tick>)
    requires Run(ticks).Some? && Untroubled(ticks)
    ensures Run(ticks).value.1 == {}
  {
    if ticks == [] {
    } else {
      var before := ticks[..|ticks| - 1];
      forall i | 0 <= i < |before| ensures before[..i] == ticks[..i] && before[i] == ticks[i] {}
      UntroubledIsUntainted(before);
    }
  }

  /** What `get_friends_last_posts` answers. */
  function Answer(s: State, u: UserId): seq<Post> {
    if u in s.cache then s.cache[u].items else s.FeedOf(u)
  }

  /** In an untroubled run each wrong entry has a queued event that will repair it. */
  lemma CachedOrQueued(ticks: seq<Tick>, u: UserId)
    requires Run(ticks).Some? && Untroubled(ticks)
    ensures var s := Run(ticks).value.0; Answer(s, u) == s.FeedOf(u) || Excused(s, u)
  {
    RunsAreCoherent(ticks);
    UntroubledIsUntainted(ticks);
  }

  /** At quiescence the cache is invisible. */
  lemma QuiescentAnswersAreFresh(ticks: seq<Tick>, u: UserId)
    requires Run(ticks).Some? && Untroubled(ticks) && Run(ticks).value.0.pending == {}
    ensures Answer(Run(ticks).value.0, u) == Run(ticks).value.0.FeedOf(u)
  {
    CachedOrQueued(ticks, u);
  }

  // ------------------------------------------------------------------------
  // Exactly when the two troubling cases matter
  // ------------------------------------------------------------------------

  /** A friend event newer than the entry repairs it unless the recomputed feed is empty. */
  lemma FriendEventRepairsIffNonEmpty(s: State, t: Tick, u: UserId)
    requires WellFormed(s) && Enabled(s, t) && t.step.Deliver? && t.step.event.FriendEvent?
    requires t.step.event.user == u && u in s.cache && s.cache[u].ts < t.step.event.ts
    ensures Stale(Next(s, t), u) <==> s.FeedOf(u) == []
  {
  }

  lemma RemovalStales(s: State, t: Tick, u: UserId)
    requires WellFormed(s) && t.step.RemovePost? && OwnPost(s, t.step.author, t.step.id).Some?
    requires u in s.cache && !Stale(s, u)
    ensures Stale(Next(s, t), u) <==> Find(s.posts, t.step.id).value in s.cache[u].items
  {
    assert Next(s, t).posts == Without(s.posts, t.step.id);
    RemovalShows(s.posts, s.friends, u, Find(s.posts, t.step.id).value);
  }

  lemma RemovedIsGone(s: State, t: Tick)
    requires WellFormed(s) && t.step.RemovePost? && OwnPost(s, t.step.author, t.step.id).Some?
    ensures Find(Next(s, t).posts, t.step.id).None?
  {
    assert Next(s, t).posts == Without(s.posts, t.step.id);
    WithoutKeeps(s.posts, t.step.id);
  }

  /** The handler of an event whose post is gone changes no table and no entry. */
  lemma NoPostNoRepair(s: State, t: Tick, u: UserId)
    requires t.step.Deliver? && t.step.event.PostEvent? && Find(s.posts, t.step.event.post).None?
    ensures Stale(Next(s, t), u) <==> Stale(s, u)
  {
  }

  /**
    A right entry of a follower survives the removal of a post, and the delivery of
    the removal's event, exactly when it did not show the post.
   */
  lemma RemovalRepairedIffUnseen(s: State, t: Tick, later: Tick, u: UserId)
    requires WellFormed(s) && Enabled(s, t) && t.step.RemovePost? && OwnPost(s, t.step.author, t.step.id).Some?
    requires u in s.cache && !Stale(s, u) && s.now < t.at < later.at
    requires later.step == Deliver(PostEvent(PostRemoved, t.step.id, t.at), true)
    ensures Stale(Next(Next(s, t), later), u) <==> Find(s.posts, t.step.id).value in s.cache[u].items
  {
    RemovalStales(s, t, u);
    RemovedIsGone(s, t);
    NoPostNoRepair(Next(s, t), later, u);
  }

  // ------------------------------------------------------------------------
  // Both cases happen: runs that end with nothing queued and a wrong entry
  // ------------------------------------------------------------------------

  const SHOWN := Post(10, 2, "hello", 3, 3)

  /** User 1 has cached a feed with one post of user 2, and every event is acknowledged. */
  const CACHED_ONE: State := State(7, {1, 2}, [SHOWN], {Edge(1, 2)}, map[1 := Cached([SHOWN], 7)],
    {PostEvent(PostAdded, 10, 3), FriendEvent(1, 2, true, 5)}, {})

  lemma Extend(ticks: seq<Tick>, t: Tick, s: State, s': State) returns (longer: seq<Tick>)
    requires Run(ticks).Some? && Run(ticks).value.0 == s
    requires Enabled(s, t) && Next(s, t) == s'
    ensures longer == ticks + [t]
    ensures Run(longer).Some? && Run(longer).value.0 == s'
  {
    longer := ticks + [t];
    assert longer[..|ticks|] == ticks;
  }

  lemma NoFollowers(friends: set<Edge>, author: UserId)
    requires friends == {}
    ensures Followers(friends, author) == {} && |Followers(friends, author)| == 0
  {
  }

  lemma OnePostFeed(p: Post, friends: set<Edge>, u: UserId)
    ensures Feed([p], friends, u) == if Edge(u, p.author) in friends then [p] else []
  {
    assert [p][..0] == [] && Newest([], friends, u) == [];
    var head := if Edge(u, p.author) in friends then [p] else [];
    assert head + [] == head;
  }

  /** Two users, a post of one, announced before anybody follows. */
  lemma PostAnnounced() returns (ticks: seq<Tick>, s: State)
    ensures Run(ticks).Some? && Run(ticks).value.0 == s
    ensures s == State(4, {1, 2}, [SHOWN], {}, map[], {PostEvent(PostAdded, 10, 3)}, {})
  {
    var e := PostEvent(PostAdded, 10, 3);
    var s1 := START.(now := 1, users := {1});
    ticks := Extend([], Tick(1, Register(1)), START, s1);
    var s2 := s1.(now := 2, users := {1, 2});
    ticks := Extend(ticks, Tick(2, Register(2)), s1, s2);
    var s3 := s2.(now := 3, posts := [SHOWN], sent := {e}, pending := {e});
    ticks := Extend(ticks, Tick(3, CreatePost(2, 10, "hello")), s2, s3);
    s := s3.(now := 4, pending := {});
    NoFollowers({}, 2);
    assert Handle(s3, e, 4) == s3;
    ticks := Extend(ticks, Tick(4, Deliver(e, true)), s3, s);
  }

  lemma FeedCached() returns (ticks: seq<Tick>)
    ensures Run(ticks).Some? && Run(ticks).value.0 == CACHED_ONE
  {
    var s4;
    ticks, s4 := PostAnnounced();
    var e := FriendEvent(1, 2, true, 5);
    var s5 := s4.(now := 5, friends := {Edge(1, 2)}, sent := s4.sent + {e}, pending := {e});
    ticks := Extend(ticks, Tick(5, AddFriend(1, 2)), s4, s5);
    var s6 := s5.(now := 6, pending := {});
    ticks := Extend(ticks, Tick(6, Deliver(e, true)), s5, s6);
    OnePostFeed(SHOWN, s6.friends, 1);
    ticks := Extend(ticks, Tick(7, ReadFeed(1)), s6, CACHED_ONE);
  }

  /** The post is removed: its event finds nothing to read back, and the entry goes on showing it. */
  lemma RemovedPostStaysCached() returns (ticks: seq<Tick>)
    ensures Run(ticks).Some? && Run(ticks).value.0.pending == {}
    ensures Stale(Run(ticks).value.0, 1) && 1 in Run(ticks).value.1
    ensures Answer(Run(ticks).value.0, 1) == [SHOWN] && SHOWN !in Run(ticks).value.0.posts
  {
    ticks := FeedCached();
    var s, e := CACHED_ONE, PostEvent(PostRemoved, 10, 8);
    assert [SHOWN][..0] == [] && Without([], 10) == [];
    assert Without([SHOWN], 10) == [];
    assert OwnPost(s, 2, 10).Some?;
    var s8 := s.(now := 8, posts := [], sent := s.sent + {e}, pending := {e});
    ticks := Extend(ticks, Tick(8, RemovePost(2, 10)), s, s8);
    ticks := Extend(ticks, Tick(9, Deliver(e, true)), s8, s8.(now := 9, pending := {}));
    QuiescentStaleIffTainted(ticks, 1);
  }

  /** The only friend is removed: the recomputed feed is empty, and the entry stays. */
  lemma EmptiedFeedStaysCached() returns (ticks: seq<Tick>)
    ensures Run(ticks).Some? && Run(ticks).value.0.pending == {}
    ensures Stale(Run(ticks).value.0, 1) && 1 in Run(ticks).value.1
    ensures Answer(Run(ticks).value.0, 1) == [SHOWN] && Run(ticks).value.0.friends == {}
  {
    ticks := FeedCached();
    var s, e := CACHED_ONE, FriendEvent(1, 2, false, 8);
    var s8 := s.(now := 8, friends := {}, sent := s.sent + {e}, pending := {e});
    ticks := Extend(ticks, Tick(8, RemoveFriend(1, 2)), s, s8);
    OnePostFeed(SHOWN, {}, 1);
    ticks := Extend(ticks, Tick(9, Deliver(e, true)), s8, s8.(now := 9, pending := {}));
    QuiescentStaleIffTainted(ticks, 1);
  }
}

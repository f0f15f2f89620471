/**
  The services that write posts and friends, read the feed and consume its events.
  Each method is one atomic step of `FeedCache`.
 */
module PostServices {
  import opened Common
  import opened Users
  import opened SocialGraph
  import opened FeedQuery
  import opened FeedCache

  const FOLLOWERS_CHUNK_SIZE: nat := 1_000

  datatype ServiceError = MissingUser | MissingPost | MissingFriend | SelfFriend

  /** Why a feed handler fails, if it does. */
  function HandlerError(s: State, e: Event): Option<ServiceError> {
    if e.FriendEvent?
    then if e.user in s.cache && s.cache[e.user].ts < e.ts && e.user !in s.users then Some(MissingUser) else None
    else if Find(s.posts, e.post).None? then Some(MissingPost) else None
  }

  class PostService {
    var now: nat
    var users: set<UserId>
    var posts: seq<Post>
    var friends: set<Edge>
    var cache: map<UserId, Cached>   // friends_posts:{user_id}
    var blocked: set<UserId>         // friends_posts:{user_id}:calculate
    var sent: set<Event>
    var pending: set<Event>

    function Model(): State reads this {
      State(now, users, posts, friends, cache, sent, pending)
    }

    /** No block key outlives the step that set it. */
    ghost predicate Valid() reads this {
      WellFormed(Model()) && blocked == {}
    }

    constructor ()
      ensures Valid() && Model() == START
    {
      now, users, posts, friends := 0, {}, [], {};
      cache, blocked, sent, pending := map[], {}, {}, {};
    }

    method SendMessage(e: Event)
      modifies this`sent, this`pending
      ensures Model() == old(Model()).Publish(e)
    {
      sent, pending := sent + {e}, pending + {e};
    }

    method CreatePost(at: nat, author: UserId, id: PostId, text: string) returns (r: Result<Post, ServiceError>)
      requires Valid() && Enabled(Model(), Tick(at, FeedCache.CreatePost(author, id, text)))
      modifies this`now, this`posts, this`sent, this`pending
      ensures Valid()
      ensures Model() == Next(old(Model()), Tick(at, FeedCache.CreatePost(author, id, text)))
      ensures r == if author in users then Ok(Post(id, author, text, at, at)) else Err(MissingUser)
      ensures r.Ok? ==> posts == old(posts) + [r.value] && pending == old(pending) + {PostEvent(PostAdded, id, at)}
      ensures r.Err? ==> posts == old(posts) && pending == old(pending)
    {
      NextIsWellFormed(Model(), Tick(at, FeedCache.CreatePost(author, id, text)));
      now := at;
      if author !in users { return Err(MissingUser); }
      var post := Post(id, author, text, at, at);
      posts := posts + [post];
      SendMessage(PostEvent(PostAdded, id, at));
      return Ok(post);
    }

    method UpdatePost(at: nat, author: UserId, id: PostId, text: string) returns (r: Result<Post, ServiceError>)
      requires Valid() && now < at
      modifies this`now, this`posts, this`sent, this`pending
      ensures Valid()
      ensures Model() == Next(old(Model()), Tick(at, FeedCache.UpdatePost(author, id, text)))
      ensures r.Ok? <==> exists p :: p in old(posts) && p.id == id && p.author == author
      ensures r.Ok? ==>
                && r.value in posts && r.value.id == id && r.value.author == author
                && r.value.text == text && r.value.updatedAt == at
                && (forall i :: 0 <= i < |posts| ==>
                      posts[i] == if old(posts)[i].id == id then old(posts)[i].(text := text, updatedAt := at) else old(posts)[i])
                && pending == old(pending) + {PostEvent(PostUpdated, id, at)}
      ensures r.Err? ==> r == Err(MissingPost) && posts == old(posts) && pending == old(pending)
      ensures |posts| == |old(posts)|
    {
      NextIsWellFormed(Model(), Tick(at, FeedCache.UpdatePost(author, id, text)));
      OwnIsFound(posts, author, id);
      now := at;
      var own := Find(posts, id);
      if own.None? || own.value.author != author { return Err(MissingPost); }
      RewrittenHolds(posts, own.value, text, at);
      posts := Rewritten(posts, id, text, at);
      SendMessage(PostEvent(PostUpdated, id, at));
      return Ok(own.value.(text := text, updatedAt := at));
    }

    method RemovePost(at: nat, author: UserId, id: PostId) returns (r: Result<Post, ServiceError>)
      requires Valid() && now < at
      modifies this`now, this`posts, this`sent, this`pending
      ensures Valid()
      ensures Model() == Next(old(Model()), Tick(at, FeedCache.RemovePost(author, id)))
      ensures r.Ok? <==> exists p :: p in old(posts) && p.id == id && p.author == author
      ensures r.Ok? ==>
                && r.value in old(posts) && r.value.id == id && r.value.author == author
                && (forall p :: p in posts <==> p in old(posts) && p != r.value)
                && pending == old(pending) + {PostEvent(PostRemoved, id, at)}
      ensures r.Err? ==> r == Err(MissingPost) && posts == old(posts) && pending == old(pending)
    {
      NextIsWellFormed(Model(), Tick(at, FeedCache.RemovePost(author, id)));
      OwnIsFound(posts, author, id);
      now := at;
      var own := Find(posts, id);
      if own.None? || own.value.author != author { return Err(MissingPost); }
      OnlyThisLeaves(posts, own.value);
      posts := Without(posts, id);
      SendMessage(PostEvent(PostRemoved, id, at));
      return Ok(own.value);
    }

    method AddToFriends(at: nat, user: UserId, friend: UserId) returns (r: Result<Edge, ServiceError>)
      requires Valid() && now < at
      modifies this`now, this`friends, this`sent, this`pending
      ensures Valid()
      ensures Model() == Next(old(Model()), Tick(at, AddFriend(user, friend)))
      ensures r == if user == friend then Err(SelfFriend)
                   else if user !in users || friend !in users then Err(MissingUser)
                   else Ok(Edge(user, friend))
      ensures friends == if r.Ok? then old(friends) + {Edge(user, friend)} else old(friends)
      ensures pending == if r.Ok? && Edge(user, friend) !in old(friends)
                         then old(pending) + {FriendEvent(user, friend, true, at)} else old(pending)
    {
      NextIsWellFormed(Model(), Tick(at, AddFriend(user, friend)));
      now := at;
      if user == friend { return Err(SelfFriend); }
      if user !in users || friend !in users { return Err(MissingUser); }
      if Edge(user, friend) !in friends {
        friends := friends + {Edge(user, friend)};
        SendMessage(FriendEvent(user, friend, true, at));
      }
      return Ok(Edge(user, friend));
    }

    method RemoveFromFriends(at: nat, user: UserId, friend: UserId) returns (r: Result<Edge, ServiceError>)
      requires Valid() && now < at
      modifies this`now, this`friends, this`sent, this`pending
      ensures Valid()
      ensures Model() == Next(old(Model()), Tick(at, RemoveFriend(user, friend)))
      ensures r == if Edge(user, friend) in old(friends) then Ok(Edge(user, friend)) else Err(MissingFriend)
      ensures friends == old(friends) - {Edge(user, friend)}
      ensures pending == if r.Ok? then old(pending) + {FriendEvent(user, friend, false, at)} else old(pending)
    {
      NextIsWellFormed(Model(), Tick(at, RemoveFriend(user, friend)));
      now := at;
      if Edge(user, friend) !in friends { return Err(MissingFriend); }
      friends := friends - {Edge(user, friend)};
      SendMessage(FriendEvent(user, friend, false, at));
      return Ok(Edge(user, friend));
    }

    /** The block key is set and deleted around the write; nothing is stored for an empty feed. */
    method SetFeedCache(u: UserId, items: seq<Post>, ts: nat)
      modifies this`cache, this`blocked
      ensures blocked == old(blocked)
      ensures cache == if items == [] || u in blocked then old(cache) else old(cache)[u := Cached(items, ts)]
    {
      if items == [] || u in blocked { return; }
      blocked := blocked + {u};
      cache := cache[u := Cached(items, ts)];
      blocked := blocked - {u};
    }

    method GetUserFriendsPostsAndCached(at: nat, u: UserId) returns (r: Result<seq<Post>, ServiceError>)
      requires blocked == {}
      modifies this`cache, this`blocked
      ensures blocked == {}
      ensures Model() == Recompute(old(Model()), u, at)
      ensures r == if u in users then Ok(Model().FeedOf(u)) else Err(MissingUser)
      ensures cache == if r.Ok? && r.value != [] then old(cache)[u := Cached(r.value, at)] else old(cache)
    {
      if u !in users { return Err(MissingUser); }
      var feed := Feed(posts, friends, u);
      SetFeedCache(u, feed, at);
      return Ok(feed);
    }

    method GetFriendsLastPosts(at: nat, u: UserId) returns (r: Result<seq<Post>, ServiceError>)
      requires Valid() && now < at
      modifies this`now, this`cache, this`blocked
      ensures Valid()
      ensures Model() == Next(old(Model()), Tick(at, ReadFeed(u)))
      ensures u in users || u in old(cache) ==> r == Ok(Answer(old(Model()), u))
      ensures u in old(cache) ==> r == Ok(old(cache)[u].items) && cache == old(cache)
      ensures u !in old(cache) && u in users ==>
                && r == Ok(Model().FeedOf(u))
                && cache == if r.value == [] then old(cache) else old(cache)[u := Cached(r.value, at)]
      ensures u !in old(cache) && u !in users ==> r == Err(MissingUser) && cache == old(cache)
    {
      NextIsWellFormed(Model(), Tick(at, ReadFeed(u)));
      now := at;
      if u in cache { return Ok(cache[u].items); }
      r := GetUserFriendsPostsAndCached(at, u);
    }

    /** SELECT user_id FROM users_friends WHERE friend_id = author, in some order. */
    method FollowersIds(author: UserId) returns (ids: seq<UserId>)
      ensures (set u | u in ids) == Followers(friends, author)
      ensures |ids| == |Followers(friends, author)|
    {
      ids := [];
      var todo := Followers(friends, author);
      while todo != {}
        invariant todo <= Followers(friends, author)
        invariant forall v :: v in ids <==> v in Followers(friends, author) && v !in todo
        invariant |ids| + |todo| == |Followers(friends, author)|
        decreases |todo|
      {
        var u :| u in todo;
        todo := todo - {u};
        ids := ids + [u];
      }
    }

    /** One UNLINK per chunk. */
    method ClearFollowersCache(ids: seq<UserId>, chunkSize: nat)
      requires chunkSize > 0
      modifies this`cache
      ensures cache == old(cache) - (set u | u in ids)
    {
      var i := 0;
      while i < |ids|
        invariant i <= |ids|
        invariant cache == old(cache) - (set u | u in ids[..i])
      {
        var end := if i + chunkSize < |ids| then i + chunkSize else |ids|;
        var keys := set u | u in ids[i..end];
        cache := cache - keys;
        assert ids[..end] == ids[..i] + ids[i..end];
        i := end;
      }
      assert ids[..i] == ids;
    }

    method UpdateUserFeedFromEvent(at: nat, e: Event) returns (error: Option<ServiceError>)
      requires blocked == {} && !e.CelebrityEvent?
      modifies this`cache, this`blocked, this`sent, this`pending
      ensures blocked == {}
      ensures Model() == Handle(old(Model()), e, at)
      ensures error == HandlerError(old(Model()), e)
      ensures e.FriendEvent? ==> pending == old(pending)
      ensures e.FriendEvent? && !(e.user in old(cache) && old(cache)[e.user].ts < e.ts) ==>
                error == None && cache == old(cache)
      ensures e.FriendEvent? && e.user in old(cache) && old(cache)[e.user].ts < e.ts ==>
                var feed := Feed(posts, friends, e.user);
                && error == (if e.user in users then None else Some(MissingUser))
                && cache == if e.user in users && feed != [] then old(cache)[e.user := Cached(feed, at)] else old(cache)
      ensures e.PostEvent? && Find(posts, e.post).None? ==>
                error == Some(MissingPost) && cache == old(cache) && pending == old(pending)
      ensures e.PostEvent? && Find(posts, e.post).Some? ==>
                var followers := Followers(friends, Find(posts, e.post).value.author);
                && error == None
                && (|followers| < 100_000 ==> cache == old(cache) - followers && pending == old(pending))
                && (|followers| >= 100_000 ==> cache == old(cache) && pending == old(pending) + {CelebrityEvent(e.post, at)})
    {
      if e.FriendEvent? {
        if e.user in cache && cache[e.user].ts < e.ts {
          var feed := GetUserFriendsPostsAndCached(at, e.user);
          if feed.Err? { return Some(feed.error); }
        }
      } else {
        var post := Find(posts, e.post);
        if post.None? { return Some(MissingPost); }
        var ids := FollowersIds(post.value.author);
        if |ids| >= CELEBRITY_FOLLOWERS_MIN {
          SendMessage(CelebrityEvent(e.post, at));
          return None;
        }
        ClearFollowersCache(ids, FOLLOWERS_CHUNK_SIZE);
      }
      return None;
    }

    method RecalculateCelebrityUsersFeeds(at: nat, e: Event) returns (error: Option<ServiceError>)
      requires e.CelebrityEvent?
      modifies this`cache
      ensures Model() == Handle(old(Model()), e, at)
      ensures error == HandlerError(old(Model()), e)
      ensures Find(posts, e.post).None? ==> error == Some(MissingPost) && cache == old(cache)
      ensures Find(posts, e.post).Some? ==>
                error == None && cache == old(cache) - Followers(friends, Find(posts, e.post).value.author)
    {
      var post := Find(posts, e.post);
      if post.None? { return Some(MissingPost); }
      var ids := FollowersIds(post.value.author);
      ClearFollowersCache(ids, FOLLOWERS_CHUNK_SIZE);
      return None;
    }

    /** The consumers log an unsuccessful response and commit the offset all the same. */
    method ProcessMessage(at: nat, e: Event, ack: bool)
      requires Valid() && Enabled(Model(), Tick(at, Deliver(e, ack)))
      modifies this`now, this`cache, this`blocked, this`sent, this`pending
      ensures Valid()
      ensures Model() == Next(old(Model()), Tick(at, Deliver(e, ack)))
      ensures old(pending) - {e} <= pending && (ack ==> e !in pending) && (!ack ==> old(pending) <= pending)
    {
      NextIsWellFormed(Model(), Tick(at, Deliver(e, ack)));
      if e.CelebrityEvent? {
        var _ := RecalculateCelebrityUsersFeeds(at, e);
      } else {
        var _ := UpdateUserFeedFromEvent(at, e);
      }
      if ack { pending := pending - {e}; }
      now := at;
    }

    /**
      When the writers pause, the backlog drains, celebrity messages included; then
      the stale entries are exactly the tainted ones, and only a user with an empty
      feed can become tainted on the way.
     */
    method DrainEvents(ghost tainted: set<UserId>) returns (ghost left: set<UserId>)
      requires Valid() && Coherent(Model(), tainted)
      modifies this`now, this`cache, this`blocked, this`sent, this`pending
      ensures Valid() && pending == {}
      ensures forall u :: Stale(Model(), u) <==> u in left
      ensures forall u :: u in left ==> u in tainted || Model().FeedOf(u) == []
    {
      left := tainted;
      while pending != {}
        invariant Valid() && Coherent(Model(), left)
        invariant posts == old(posts) && friends == old(friends)
        invariant forall u :: u in left ==> u in tainted || Model().FeedOf(u) == []
        decreases |PostEvents(pending)|, |pending|
      {
        left := DeliverOne(left);
      }
    }

    method DeliverOne(ghost tainted: set<UserId>) returns (ghost left: set<UserId>)
      requires Valid() && pending != {}
      modifies this`now, this`cache, this`blocked, this`sent, this`pending
      ensures Valid()
      ensures Coherent(old(Model()), tainted) ==> Coherent(Model(), left)
      ensures forall u :: u in left ==> u in tainted || Model().FeedOf(u) == []
      ensures LeavesLess(old(pending), pending)
    {
      var e :| e in pending;
      ghost var before, t := Model(), Tick(now + 1, Deliver(e, true));
      left := DrainStep(before, t, tainted);
      ProcessMessage(now + 1, e, true);
      assert Model() == Next(before, t);
    }
  }

  lemma OwnIsFound(posts: seq<Post>, author: UserId, id: PostId)
    requires InCreationOrder(posts)
    ensures Find(posts, id).Some? && Find(posts, id).value.author == author
       <==> exists p :: p in posts && p.id == id && p.author == author
  {
    if p :| p in posts && p.id == id && p.author == author { FindIs(posts, p); }
  }

  lemma RewrittenHolds(posts: seq<Post>, own: Post, text: string, at: nat)
    requires own in posts
    ensures own.(text := text, updatedAt := at) in Rewritten(posts, own.id, text, at)
  {
    var k :| 0 <= k < |posts| && posts[k] == own;
    assert Rewritten(posts, own.id, text, at)[k] == own.(text := text, updatedAt := at);
  }

  lemma OnlyThisLeaves(posts: seq<Post>, own: Post)
    requires InCreationOrder(posts) && own in posts
    ensures forall p :: p in Without(posts, own.id) <==> p in posts && p != own
  {
    WithoutKeeps(posts, own.id);
    forall p | p in posts && p.id == own.id ensures p == own { SameId(posts, p, own); }
  }

  lemma DrainStep(s: State, t: Tick, tainted: set<UserId>) returns (left: set<UserId>)
    requires WellFormed(s) && Enabled(s, t) && t.step.Deliver? && t.step.ack && t.step.event in s.pending
    ensures Coherent(s, tainted) ==> Coherent(Next(s, t), left)
    ensures forall u :: u in left ==> u in tainted || Next(s, t).FeedOf(u) == []
    ensures LeavesLess(s.pending, Next(s, t).pending)
  {
    left := Taint(s, t, tainted);
    if Coherent(s, tainted) { StepKeepsCoherent(s, t, tainted); }
    ShrinksBacklog(s, t);
    forall u | u in left ensures u in tainted || Next(s, t).FeedOf(u) == [] {
      assert u in tainted + NewlyTainted(s, t);
    }
  }

  ghost function PostEvents(events: set<Event>): set<Event> {
    set e | e in events && e.PostEvent?
  }

  ghost predicate LeavesLess(before: set<Event>, after: set<Event>) {
    || |PostEvents(after)| < |PostEvents(before)|
    || (|PostEvents(after)| == |PostEvents(before)| && |after| < |before|)
  }

  /** An acknowledged post event may leave a celebrity message behind, any other event leaves nothing. */
  lemma ShrinksBacklog(s: State, t: Tick)
    requires CacheWellFormed(s) && Enabled(s, t) && t.step.Deliver? && t.step.ack && t.step.event in s.pending
    ensures LeavesLess(s.pending, Next(s, t).pending)
  {
    var e := t.step.event;
    var left := Next(s, t).pending;
    if e.PostEvent? {
      assert PostEvents(left) == PostEvents(s.pending) - {e};
    } else {
      assert left == s.pending - {e};
      assert PostEvents(left) == PostEvents(s.pending);
    }
  }
}

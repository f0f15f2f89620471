/**
  The friends-feed query: publications joined with the friends table, newest first,
  cut to the feed size.
 */
module FeedQuery {
  import opened Common
  import opened Users
  import opened SocialGraph

  const FEED_DEFAULT_SIZE: nat := 1_000

  /** The publications table in creation order: the clock never gives one instant twice. */
  ghost predicate InCreationOrder(posts: seq<Post>) {
    && (forall i, j :: 0 <= i < j < |posts| ==> posts[i].createdAt < posts[j].createdAt)
    && (forall i, j :: 0 <= i < j < |posts| ==> posts[i].id != posts[j].id)
  }

  /** Posts of the authors `u` follows, newest first. */
  function Newest(posts: seq<Post>, friends: set<Edge>, u: UserId): seq<Post> {
    if posts == [] then []
    else
      var last := posts[|posts| - 1];
      (if Edge(u, last.author) in friends then [last] else []) + Newest(posts[..|posts| - 1], friends, u)
  }

  function Limit(rows: seq<Post>, size: nat): seq<Post> {
    if |rows| <= size then rows else rows[..size]
  }

  function Feed(posts: seq<Post>, friends: set<Edge>, u: UserId): seq<Post> {
    Limit(Newest(posts, friends, u), FEED_DEFAULT_SIZE)
  }

  // ------------------------------------------------------------------------
  // The feed is what the SQL statement asks for
  // ------------------------------------------------------------------------

  /** The friends rows that join with one publication and satisfy the WHERE clause, as copies of the publication. */
  function JoinOne(post: Post, edges: seq<Edge>, u: UserId): seq<Post> {
    if edges == [] then []
    else
      (if edges[0].friend == post.author && edges[0].follower == u then [post] else [])
      + JoinOne(post, edges[1..], u)
  }

  /** SELECT p.* FROM users_publications p JOIN users_friends f ON p.user_id = f.friend_id WHERE f.user_id = u */
  function Join(posts: seq<Post>, edges: seq<Edge>, u: UserId): seq<Post> {
    if posts == [] then []
    else JoinOne(posts[0], edges, u) + Join(posts[1..], edges, u)
  }

  /** A result of ORDER BY created_at DESC. */
  ghost predicate NewestFirst(rows: seq<Post>) {
    forall i, j :: 0 <= i < j < |rows| ==> rows[i].createdAt >= rows[j].createdAt
  }

  /** PRIMARY KEY (user_id, friend_id) */
  ghost predicate UniqueEdges(edges: seq<Edge>) {
    forall i, j :: 0 <= i < j < |edges| ==> edges[i] != edges[j]
  }

  lemma {:induction false} JoinOneMatches(post: Post, edges: seq<Edge>, u: UserId)
    requires UniqueEdges(edges)
    ensures JoinOne(post, edges, u) == if Edge(u, post.author) in edges then [post] else []
  {
    if edges == [] {
    } else {
      JoinOneMatches(post, edges[1..], u);
      var e := Edge(u, post.author);
      assert e in edges <==> edges[0] == e || e in edges[1..];
    }
  }

  lemma JoinOfNext(posts: seq<Post>, last: Post, edges: seq<Edge>, u: UserId)
    requires UniqueEdges(edges)
    ensures Join(posts + [last], edges, u) == Join(posts, edges, u) + if Edge(u, last.author) in edges then [last] else []
  {
    JoinBoth(posts, [last], edges, u);
    JoinOneMatches(last, edges, u);
    assert [last][1..] == [];
    assert JoinOne(last, edges, u) + [] == JoinOne(last, edges, u);
  }

  lemma SameRows(joined: seq<Post>, newest: seq<Post>, last: seq<Post>)
    requires multiset(joined) == multiset(newest)
    ensures multiset(joined + last) == multiset(last + newest)
  {
  }

  /** Joining loses and repeats nothing: as multisets it is the posts of the followed authors. */
  lemma {:induction false} JoinIsNewest(posts: seq<Post>, edges: seq<Edge>, u: UserId)
    requires UniqueEdges(edges)
    ensures multiset(Join(posts, edges, u)) == multiset(Newest(posts, (set e | e in edges), u))
    decreases |posts|
  {
    if posts == [] {
    } else {
      var n := |posts| - 1;
      var last := posts[n];
      JoinIsNewest(posts[..n], edges, u);
      JoinOfNext(posts[..n], last, edges, u);
      assert posts[..n] + [last] == posts;
      SameRows(Join(posts[..n], edges, u), Newest(posts[..n], (set e | e in edges), u),
               if Edge(u, last.author) in edges then [last] else []);
    }
  }

  lemma Associative(a: seq<Post>, b: seq<Post>, c: seq<Post>)
    ensures a + (b + c) == a + b + c
  {
  }

  lemma {:induction false} JoinBoth(a: seq<Post>, b: seq<Post>, edges: seq<Edge>, u: UserId)
    ensures Join(a + b, edges, u) == Join(a, edges, u) + Join(b, edges, u)
  {
    if a == [] {
      assert a + b == b;
    } else {
      assert (a + b)[1..] == a[1..] + b;
      JoinBoth(a[1..], b, edges, u);
      Associative(JoinOne(a[0], edges, u), Join(a[1..], edges, u), Join(b, edges, u));
    }
  }

  lemma {:induction false} NewestMembers(posts: seq<Post>, friends: set<Edge>, u: UserId, p: Post)
    ensures p in Newest(posts, friends, u) <==> p in posts && Edge(u, p.author) in friends
  {
    if posts == [] {
    } else {
      var n := |posts| - 1;
      NewestMembers(posts[..n], friends, u, p);
      assert posts == posts[..n] + [posts[n]];
    }
  }

  /** Every post is newer than those created before it, and has an id of its own. */
  lemma LastIsNew(posts: seq<Post>, p: Post)
    requires InCreationOrder(posts) && posts != [] && p in posts[..|posts| - 1]
    ensures p.createdAt < posts[|posts| - 1].createdAt && p.id != posts[|posts| - 1].id
  {
  }

  lemma {:induction false} NewestStrict(posts: seq<Post>, friends: set<Edge>, u: UserId)
    requires InCreationOrder(posts)
    ensures var rows := Newest(posts, friends, u);
            forall i, j :: 0 <= i < j < |rows| ==> rows[i].createdAt > rows[j].createdAt && rows[i].id != rows[j].id
  {
    if posts == [] {
    } else {
      var n := |posts| - 1;
      var rest := Newest(posts[..n], friends, u);
      NewestStrict(posts[..n], friends, u);
      forall i | 0 <= i < |rest| ensures rest[i].createdAt < posts[n].createdAt && rest[i].id != posts[n].id {
        NewestMembers(posts[..n], friends, u, rest[i]);
        LastIsNew(posts, rest[i]);
      }
    }
  }

  /** Strictly newest first, and made of posts of followed authors only. */
  lemma NewestOrdered(posts: seq<Post>, friends: set<Edge>, u: UserId)
    requires InCreationOrder(posts)
    ensures var rows := Newest(posts, friends, u);
            && (forall p :: p in rows <==> p in posts && Edge(u, p.author) in friends)
            && (forall i, j :: 0 <= i < j < |rows| ==> rows[i].createdAt > rows[j].createdAt)
            && (forall i, j :: 0 <= i < j < |rows| ==> rows[i].id != rows[j].id)
  {
    NewestStrict(posts, friends, u);
    forall p ensures p in Newest(posts, friends, u) <==> p in posts && Edge(u, p.author) in friends {
      NewestMembers(posts, friends, u, p);
    }
  }

  /** Rows with different keys can be ordered in one way only. */
  lemma {:induction false} OrderIsUnique(a: seq<Post>, b: seq<Post>)
    requires multiset(a) == multiset(b)
    requires NewestFirst(a)
    requires forall i, j :: 0 <= i < j < |b| ==> b[i].createdAt > b[j].createdAt
    ensures a == b
  {
    SameLength(a, b);
    if b != [] {
      SameHead(a, b);
      SameTails(a, b);
      OrderIsUnique(a[1..], b[1..]);
      assert a == [a[0]] + a[1..] && b == [b[0]] + b[1..];
    }
  }

  lemma SameLength(a: seq<Post>, b: seq<Post>)
    requires multiset(a) == multiset(b)
    ensures |a| == |b|
  {
    assert |multiset(a)| == |a| && |multiset(b)| == |b|;
  }

  lemma SameMembers(a: seq<Post>, b: seq<Post>, p: Post) returns (k: nat)
    requires multiset(a) == multiset(b) && p in a
    ensures k < |b| && b[k] == p
  {
    assert p in multiset(a);
    k :| 0 <= k < |b| && b[k] == p;
  }

  lemma SameHead(a: seq<Post>, b: seq<Post>)
    requires multiset(a) == multiset(b) && a != [] && b != []
    requires NewestFirst(a)
    requires forall i, j :: 0 <= i < j < |b| ==> b[i].createdAt > b[j].createdAt
    ensures a[0] == b[0]
  {
    var k := SameMembers(a, b, a[0]);
    var m := SameMembers(b, a, b[0]);
    assert a[0].createdAt >= a[m].createdAt;
  }

  lemma SameTails(a: seq<Post>, b: seq<Post>)
    requires multiset(a) == multiset(b) && a != [] && b != [] && a[0] == b[0]
    ensures multiset(a[1..]) == multiset(b[1..])
  {
    assert a == [a[0]] + a[1..] && b == [b[0]] + b[1..];
    assert multiset(a[1..]) == multiset(a) - multiset{a[0]};
    assert multiset(b[1..]) == multiset(b) - multiset{b[0]};
  }

  /** Whatever plan the database uses, ordering the joined rows and cutting them gives `Feed`. */
  lemma QueryAnswersFeed(posts: seq<Post>, edges: seq<Edge>, u: UserId, ordered: seq<Post>)
    requires InCreationOrder(posts) && UniqueEdges(edges)
    requires multiset(ordered) == multiset(Join(posts, edges, u)) && NewestFirst(ordered)
    ensures Limit(ordered, 1_000) == Feed(posts, (set e | e in edges), u)
  {
    JoinIsNewest(posts, edges, u);
    NewestOrdered(posts, (set e | e in edges), u);
    OrderIsUnique(ordered, Newest(posts, (set e | e in edges), u));
  }

  lemma InFront(rows: seq<Post>, size: nat, k: nat)
    requires k < |rows|
    ensures k < size ==> rows[k] in Limit(rows, size)
  {
    if k < size { assert Limit(rows, size)[k] == rows[k]; }
  }

  /** A row that is cut off stands behind all rows of a full page. */
  lemma CutOff(rows: seq<Post>, size: nat, p: Post) returns (k: nat)
    requires p in rows && p !in Limit(rows, size)
    ensures size <= k < |rows| && rows[k] == p && Limit(rows, size) == rows[..size]
  {
    k :| 0 <= k < |rows| && rows[k] == p;
    InFront(rows, size, k);
  }

  /** The feed holds friends' posts only, each once, and an omitted one is older than all of a full feed. */
  lemma FeedIsNewestOfFriends(posts: seq<Post>, friends: set<Edge>, u: UserId)
    requires InCreationOrder(posts)
    ensures var feed := Feed(posts, friends, u);
            && |feed| <= 1_000
            && (forall p :: p in feed ==> p in posts && Edge(u, p.author) in friends)
            && (forall i, j :: 0 <= i < j < |feed| ==> feed[i].createdAt > feed[j].createdAt && feed[i].id != feed[j].id)
            && (forall p :: p in posts && Edge(u, p.author) in friends && p !in feed ==>
                  |feed| == 1_000 && forall i :: 0 <= i < |feed| ==> feed[i].createdAt > p.createdAt)
  {
    NewestOrdered(posts, friends, u);
    var rows := Newest(posts, friends, u);
    var feed := Feed(posts, friends, u);
    forall p | p in posts && Edge(u, p.author) in friends && p !in feed
      ensures |feed| == FEED_DEFAULT_SIZE && forall i :: 0 <= i < |feed| ==> feed[i].createdAt > p.createdAt
    {
      var _ := CutOff(rows, FEED_DEFAULT_SIZE, p);
    }
  }

  // ------------------------------------------------------------------------
  // The same without a strict clock
  // ------------------------------------------------------------------------

  ghost predicate UniqueIds(posts: seq<Post>) {
    forall i, j :: 0 <= i < j < |posts| ==> posts[i].id != posts[j].id
  }

  lemma {:induction false} NewestIdsUnique(posts: seq<Post>, friends: set<Edge>, u: UserId)
    requires UniqueIds(posts)
    ensures UniqueIds(Newest(posts, friends, u))
  {
    if posts == [] {
    } else {
      var n := |posts| - 1;
      var rest := Newest(posts[..n], friends, u);
      NewestIdsUnique(posts[..n], friends, u);
      forall i | 0 <= i < |rest| ensures rest[i].id != posts[n].id {
        NewestMembers(posts[..n], friends, u, rest[i]);
        var k :| 0 <= k < n && posts[..n][k] == rest[i];
      }
    }
  }

  lemma {:induction false} AtMostOnce(rows: seq<Post>, p: Post)
    requires UniqueIds(rows)
    ensures multiset(rows)[p] <= 1
  {
    if rows == [] {
    } else {
      var n := |rows| - 1;
      AtMostOnce(rows[..n], p);
      assert rows == rows[..n] + [rows[n]];
      if p == rows[n] {
        assert p !in rows[..n];
      }
    }
  }

  lemma AtLeastTwice(rows: seq<Post>, i: nat, j: nat)
    requires i < j < |rows| && rows[i] == rows[j]
    ensures multiset(rows)[rows[i]] >= 2
  {
    assert rows == rows[..j] + rows[j..];
    assert rows[..j][i] in rows[..j] && rows[j..][0] in rows[j..];
  }

  /** Whatever order ties come in, the rows of a table with unique ids are posts of followed authors, each once. */
  lemma OrderedRows(posts: seq<Post>, edges: seq<Edge>, u: UserId, ordered: seq<Post>)
    requires UniqueIds(posts) && UniqueEdges(edges)
    requires multiset(ordered) == multiset(Join(posts, edges, u))
    ensures UniqueIds(ordered)
    ensures forall p :: p in ordered <==> p in posts && Edge(u, p.author) in edges
  {
    var friends := set e | e in edges;
    var rows := Newest(posts, friends, u);
    JoinIsNewest(posts, edges, u);
    NewestIdsUnique(posts, friends, u);
    forall p ensures p in ordered <==> p in posts && Edge(u, p.author) in edges {
      NewestMembers(posts, friends, u, p);
      assert p in ordered <==> p in multiset(ordered);
      assert p in rows <==> p in multiset(rows);
    }
    forall i, j | 0 <= i < j < |ordered| ensures ordered[i].id != ordered[j].id {
      assert ordered[i] in posts && ordered[j] in posts;
      if ordered[i] == ordered[j] {
        AtLeastTwice(ordered, i, j);
        AtMostOnce(rows, ordered[i]);
      }
    }
  }

  /** `if limit: ... LIMIT {limit}`: a size of 0 sets no limit. */
  function LimitClause(rows: seq<Post>, size: nat): seq<Post> {
    if size == 0 then rows else Limit(rows, size)
  }

  lemma OmittedIsNoNewer(ordered: seq<Post>, size: nat, p: Post)
    requires NewestFirst(ordered) && p in ordered && p !in LimitClause(ordered, size)
    ensures var feed := LimitClause(ordered, size);
            |feed| == size > 0 && forall i :: 0 <= i < |feed| ==> feed[i].createdAt >= p.createdAt
  {
    var _ := CutOff(ordered, size, p);
  }

  /**
    The answer of the statement, with ties broken in any way: at most `size` posts of
    followed authors (all of them when `size` is 0), each once, newest first, and an
    omitted one is no newer than any post of a full feed.
   */
  lemma AnswerIsNewestOfFriends(posts: seq<Post>, edges: seq<Edge>, u: UserId, ordered: seq<Post>, size: nat)
    requires UniqueIds(posts) && UniqueEdges(edges)
    requires multiset(ordered) == multiset(Join(posts, edges, u)) && NewestFirst(ordered)
    ensures var feed := LimitClause(ordered, size);
            && (size > 0 ==> |feed| <= size)
            && UniqueIds(feed) && NewestFirst(feed)
            && (forall p :: p in feed ==> p in posts && Edge(u, p.author) in edges)
            && (forall p :: p in posts && Edge(u, p.author) in edges && p !in feed ==>
                  |feed| == size > 0 && forall i :: 0 <= i < |feed| ==> feed[i].createdAt >= p.createdAt)
  {
    OrderedRows(posts, edges, u, ordered);
    var feed := LimitClause(ordered, size);
    forall p | p in posts && Edge(u, p.author) in edges && p !in feed
      ensures |feed| == size > 0 && forall i :: 0 <= i < |feed| ==> feed[i].createdAt >= p.createdAt
    {
      OmittedIsNoNewer(ordered, size, p);
    }
  }

  // ------------------------------------------------------------------------
  // What a change of the tables does to one feed
  // ------------------------------------------------------------------------

  function Find(posts: seq<Post>, id: PostId): (r: Option<Post>)
    ensures r.Some? ==> r.value in posts && r.value.id == id
    ensures r.None? ==> forall p :: p in posts ==> p.id != id
  {
    if posts == [] then None
    else if posts[0].id == id then Some(posts[0])
    else Find(posts[1..], id)
  }

  /** UPDATE users_publications SET text, updated_at WHERE id */
  function Rewritten(posts: seq<Post>, id: PostId, text: string, at: nat): (r: seq<Post>)
    ensures |r| == |posts|
    ensures forall i :: 0 <= i < |r| ==> r[i] == if posts[i].id == id then posts[i].(text := text, updatedAt := at) else posts[i]
  {
    seq(|posts|, i requires 0 <= i < |posts| =>
      if posts[i].id == id then posts[i].(text := text, updatedAt := at) else posts[i])
  }

  /** DELETE FROM users_publications WHERE id */
  function Without(posts: seq<Post>, id: PostId): seq<Post> {
    if posts == [] then []
    else
      var last := posts[|posts| - 1];
      Without(posts[..|posts| - 1], id) + if last.id == id then [] else [last]
  }

  lemma {:induction false} OtherEdges(posts: seq<Post>, f1: set<Edge>, f2: set<Edge>, u: UserId)
    requires forall a :: Edge(u, a) in f1 <==> Edge(u, a) in f2
    ensures Newest(posts, f1, u) == Newest(posts, f2, u)
  {
    if posts == [] {
    } else {
      OtherEdges(posts[..|posts| - 1], f1, f2, u);
    }
  }

  lemma {:induction false} RewriteElsewhere(posts: seq<Post>, friends: set<Edge>, u: UserId, id: PostId, text: string, at: nat)
    requires forall p :: p in posts && p.id == id ==> Edge(u, p.author) !in friends
    ensures Newest(Rewritten(posts, id, text, at), friends, u) == Newest(posts, friends, u)
  {
    if posts == [] {
    } else {
      var n := |posts| - 1;
      RewriteElsewhere(posts[..n], friends, u, id, text, at);
      assert Rewritten(posts, id, text, at)[..n] == Rewritten(posts[..n], id, text, at);
      assert posts[n] in posts;
    }
  }

  lemma {:induction false} WithoutMembers(posts: seq<Post>, id: PostId, p: Post)
    ensures p in Without(posts, id) <==> p in posts && p.id != id
  {
    if posts == [] {
    } else {
      WithoutMembers(posts[..|posts| - 1], id, p);
      assert posts == posts[..|posts| - 1] + [posts[|posts| - 1]];
    }
  }

  lemma {:induction false} WithoutStaysOrdered(posts: seq<Post>, id: PostId)
    requires InCreationOrder(posts)
    ensures InCreationOrder(Without(posts, id))
  {
    if posts == [] {
    } else {
      var n := |posts| - 1;
      var rest := Without(posts[..n], id);
      WithoutStaysOrdered(posts[..n], id);
      forall i | 0 <= i < |rest| ensures rest[i].createdAt < posts[n].createdAt && rest[i].id != posts[n].id {
        WithoutMembers(posts[..n], id, rest[i]);
        LastIsNew(posts, rest[i]);
      }
    }
  }

  lemma WithoutKeeps(posts: seq<Post>, id: PostId)
    requires InCreationOrder(posts)
    ensures InCreationOrder(Without(posts, id))
    ensures forall p :: p in Without(posts, id) <==> p in posts && p.id != id
  {
    WithoutStaysOrdered(posts, id);
    forall p ensures p in Without(posts, id) <==> p in posts && p.id != id { WithoutMembers(posts, id, p); }
  }

  lemma {:induction false} RemoveElsewhere(posts: seq<Post>, friends: set<Edge>, u: UserId, id: PostId)
    requires forall p :: p in posts && p.id == id ==> Edge(u, p.author) !in friends
    ensures Newest(Without(posts, id), friends, u) == Newest(posts, friends, u)
  {
    if posts == [] {
    } else {
      var n := |posts| - 1;
      RemoveElsewhere(posts[..n], friends, u, id);
      assert posts[n] in posts;
      var rest := Without(posts[..n], id);
      if posts[n].id != id {
        assert Without(posts, id)[..|rest|] == rest;
      } else {
        assert Without(posts, id) == rest;
      }
    }
  }

  /** A removed post changes exactly the feeds that showed it. */
  lemma RemovalShows(posts: seq<Post>, friends: set<Edge>, u: UserId, post: Post)
    requires InCreationOrder(posts) && post in posts
    ensures Feed(Without(posts, post.id), friends, u) == Feed(posts, friends, u) <==> post !in Feed(posts, friends, u)
  {
    WithoutKeeps(posts, post.id);
    FeedIsNewestOfFriends(Without(posts, post.id), friends, u);
    if post !in Feed(posts, friends, u) {
      NewestWithout(posts, friends, u, post.id);
      var rows := Newest(posts, friends, u);
      NewestOrdered(posts, friends, u);
      if k :| 0 <= k < |rows| && rows[k].id == post.id {
        assert rows[k] in posts;
        SameId(posts, rows[k], post);
        WithoutLate(rows, post.id, FEED_DEFAULT_SIZE, k);
      } else {
        WithoutAbsent(rows, post.id);
      }
    }
  }

  lemma SameId(posts: seq<Post>, p: Post, q: Post)
    requires InCreationOrder(posts) && p in posts && q in posts && p.id == q.id
    ensures p == q
  {
  }

  lemma {:induction false} NewestWithout(posts: seq<Post>, friends: set<Edge>, u: UserId, id: PostId)
    ensures Newest(Without(posts, id), friends, u) == Without(Newest(posts, friends, u), id)
  {
    if posts == [] {
    } else {
      var n := |posts| - 1;
      var rest, older := Without(posts[..n], id), Newest(posts[..n], friends, u);
      NewestWithout(posts[..n], friends, u, id);
      if Edge(u, posts[n].author) in friends {
        WithoutBoth([posts[n]], older, id);
        WithoutOne(posts[n], id);
        assert [] + Without(older, id) == Without(older, id);
      } else {
        assert [] + older == older && [] + Newest(rest, friends, u) == Newest(rest, friends, u);
      }
      if posts[n].id != id {
        NewestOfNext(rest, posts[n], friends, u);
      } else {
        assert Without(posts, id) == rest;
      }
    }
  }

  lemma WithoutOne(post: Post, id: PostId)
    ensures Without([post], id) == if post.id == id then [] else [post]
  {
  }

  lemma NewestOfNext(posts: seq<Post>, last: Post, friends: set<Edge>, u: UserId)
    ensures Newest(posts + [last], friends, u) ==
            (if Edge(u, last.author) in friends then [last] else []) + Newest(posts, friends, u)
  {
  }

  lemma {:induction false} WithoutBoth(a: seq<Post>, b: seq<Post>, id: PostId)
    ensures Without(a + b, id) == Without(a, id) + Without(b, id)
  {
    if b == [] {
      assert a + b == a;
    } else {
      WithoutBoth(a, b[..|b| - 1], id);
      assert (a + b)[..|a + b| - 1] == a + b[..|b| - 1];
    }
  }

  lemma {:induction false} WithoutAbsent(rows: seq<Post>, id: PostId)
    requires forall i :: 0 <= i < |rows| ==> rows[i].id != id
    ensures Without(rows, id) == rows
  {
    if rows == [] {
    } else {
      WithoutAbsent(rows[..|rows| - 1], id);
    }
  }

  lemma LimitInFront(front: seq<Post>, back: seq<Post>, size: nat)
    requires size <= |front|
    ensures Limit(front + back, size) == front[..size]
  {
  }

  /** Deleting behind the cut does not move what is in front of it. */
  lemma WithoutLate(rows: seq<Post>, id: PostId, size: nat, k: nat)
    requires size <= k < |rows| && rows[k].id == id
    requires forall i, j :: 0 <= i < j < |rows| ==> rows[i].id != rows[j].id
    ensures Limit(Without(rows, id), size) == Limit(rows, size)
  {
    assert rows == rows[..k] + rows[k..];
    WithoutBoth(rows[..k], rows[k..], id);
    WithoutAbsent(rows[..k], id);
    LimitInFront(rows[..k], rows[k..], size);
    LimitInFront(rows[..k], Without(rows[k..], id), size);
  }
}

/** Posts and the friends table. */
module SocialGraph {
  import opened Users

  type PostId = nat

  /** Times are milliseconds of one clock. */
  datatype Post = Post(id: PostId, author: UserId, text: string, createdAt: nat, updatedAt: nat)

  /** A row of users_friends: `follower` reads the posts of `friend`. */
  datatype Edge = Edge(follower: UserId, friend: UserId)

  function Followers(friends: set<Edge>, author: UserId): (followers: set<UserId>)
    ensures forall u :: u in followers <==> Edge(u, author) in friends
  {
    set e | e in friends && e.friend == author :: e.follower
  }
}

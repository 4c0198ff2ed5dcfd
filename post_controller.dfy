/** The post controller as an in-memory store: one method per controller,
    each reading or changing the map of stored posts the way the matching
    Mongoose call does. The clock is the `now` parameter; the acting user
    (the authenticated `req.user`) is the `actor` parameter. */
module PostController {
  import opened Results
  import opened Posts
  import opened Feed

  class PostStore {
    /** The stored posts, by id. */
    var posts: map<PostId, Post>
    /** The users the controller looks up (creation and feed); never changed here. */
    var users: map<UserId, User>
    /** The id the next created post receives. */
    var nextId: PostId

    /** Every post is stored under its own id, and every id in use is below `nextId`. */
    ghost predicate Valid()
      reads this
    {
      IdsMatchKeys(posts) && forall k :: k in posts ==> k < nextId
    }

    /** No post's likes or saves name a user twice. */
    ghost predicate DuplicateFree()
      reads this
    {
      forall k :: k in posts ==> Distinct(posts[k].likes) && Distinct(posts[k].savedLists)
    }

    constructor (users: map<UserId, User>)
      ensures Valid() && DuplicateFree()
      ensures posts == map[] && this.users == users && nextId == 0
    {
      posts := map[];
      this.users := users;
      nextId := 0;
    }

    /** createPost: checks the request, then stores a fresh post. */
    method CreatePost(actor: UserId, postedBy: UserId, textComment: string, image: string, now: Time)
      returns (r: Result<Post>)
      requires Valid()
      modifies this
      ensures Valid() && users == old(users)
      ensures old(DuplicateFree()) ==> DuplicateFree()
      ensures CreateCheck(users, actor, postedBy, textComment).Fail? ==>
        && r == Err(CreateCheck(users, actor, postedBy, textComment).error)
        && posts == old(posts) && nextId == old(nextId)
      ensures CreateCheck(users, actor, postedBy, textComment).Pass? ==>
        && r == Ok(NewPost(old(nextId), postedBy, textComment, image, now))
        && old(nextId) !in old(posts)
        && posts == old(posts)[old(nextId) := r.value]
        && nextId == old(nextId) + 1
    {
      var check := CreateCheck(users, actor, postedBy, textComment);
      if check.Fail? {
        return Err(check.error);
      }
      var post := NewPost(nextId, postedBy, textComment, image, now);
      posts := posts[nextId := post];
      nextId := nextId + 1;
      r := Ok(post);
    }

    /** getDetailPost: `$inc` the view counter and return the post after it. */
    method GetDetailPost(id: PostId) returns (r: Result<Post>)
      requires Valid()
      modifies this
      ensures Valid() && (old(DuplicateFree()) ==> DuplicateFree())
      ensures users == old(users) && nextId == old(nextId)
      ensures id !in old(posts) ==> r == Err(NotFound) && posts == old(posts)
      ensures id in old(posts) ==>
        && r == Ok(Viewed(old(posts)[id]))
        && posts == old(posts)[id := r.value]
    {
      if id !in posts {
        return Err(NotFound);
      }
      var post := Viewed(posts[id]);
      posts := posts[id := post];
      r := Ok(post);
    }

    /** getAllPosts: every stored post, each once, in creation order. */
    function GetAllPosts(): (r: seq<Post>)
      reads this
      requires Valid()
      ensures forall k :: k in posts ==> posts[k] in r
      ensures forall p :: p in r ==> p.id in posts && posts[p.id] == p
      ensures forall i, j :: 0 <= i < j < |r| ==> r[i].id < r[j].id
    {
      StoredPosts(posts, nextId)
    }

    /** updatePost: the author of an existing post merges a non-empty body into it. */
    method UpdatePost(id: PostId, actor: UserId, q: Patch) returns (r: Result<Post>)
      requires Valid()
      modifies this
      ensures Valid()
      ensures users == old(users) && nextId == old(nextId)
      ensures old(DuplicateFree()) && PatchDistinct(q) ==> DuplicateFree()
      ensures UpdateCheck(old(posts), id, actor, q).Fail? ==>
        r == Err(UpdateCheck(old(posts), id, actor, q).error) && posts == old(posts)
      ensures UpdateCheck(old(posts), id, actor, q).Pass? ==>
        && r == Ok(Merge(old(posts)[id], q))
        && posts == old(posts)[id := r.value]
    {
      var check := UpdateCheck(posts, id, actor, q);
      if check.Fail? {
        return Err(check.error);
      }
      var post := Merge(posts[id], q);
      posts := posts[id := post];
      r := Ok(post);
    }

    /** deletePost: the author of an existing post removes it; the removed post is returned. */
    method DeletePost(id: PostId, actor: UserId) returns (r: Result<Post>)
      requires Valid()
      modifies this
      ensures Valid() && (old(DuplicateFree()) ==> DuplicateFree())
      ensures users == old(users) && nextId == old(nextId)
      ensures AuthorCheck(old(posts), id, actor).Fail? ==>
        r == Err(AuthorCheck(old(posts), id, actor).error) && posts == old(posts)
      ensures AuthorCheck(old(posts), id, actor).Pass? ==>
        && r == Ok(old(posts)[id])
        && posts == old(posts) - {id}
    {
      var check := AuthorCheck(posts, id, actor);
      if check.Fail? {
        return Err(check.error);
      }
      r := Ok(posts[id]);
      posts := posts - {id};
    }

    /** likePost: `$pull` the actor from `likes` when present, `$push` it otherwise. */
    method LikePost(id: PostId, actor: UserId) returns (r: Result<Post>)
      requires Valid()
      modifies this
      ensures Valid() && (old(DuplicateFree()) ==> DuplicateFree())
      ensures users == old(users) && nextId == old(nextId)
      ensures id !in old(posts) ==> r == Err(NotFound) && posts == old(posts)
      ensures id in old(posts) ==>
        && r == Ok(old(posts)[id].(likes := Toggle(old(posts)[id].likes, actor)))
        && posts == old(posts)[id := r.value]
    {
      if id !in posts {
        return Err(NotFound);
      }
      var post := posts[id];
      if DuplicateFree() {
        ToggleKeepsDistinct(post.likes, actor);
      }
      var liked := actor in post.likes;
      if liked {
        post := post.(likes := Pull(post.likes, actor));
      } else {
        post := post.(likes := post.likes + [actor]);
      }
      posts := posts[id := post];
      r := Ok(post);
    }

    /** savePost: the same toggle, on `savedLists`. */
    method SavePost(id: PostId, actor: UserId) returns (r: Result<Post>)
      requires Valid()
      modifies this
      ensures Valid() && (old(DuplicateFree()) ==> DuplicateFree())
      ensures users == old(users) && nextId == old(nextId)
      ensures id !in old(posts) ==> r == Err(NotFound) && posts == old(posts)
      ensures id in old(posts) ==>
        && r == Ok(old(posts)[id].(savedLists := Toggle(old(posts)[id].savedLists, actor)))
        && posts == old(posts)[id := r.value]
    {
      if id !in posts {
        return Err(NotFound);
      }
      var post := posts[id];
      if DuplicateFree() {
        ToggleKeepsDistinct(post.savedLists, actor);
      }
      var saved := actor in post.savedLists;
      if saved {
        post := post.(savedLists := Pull(post.savedLists, actor));
      } else {
        post := post.(savedLists := post.savedLists + [actor]);
      }
      posts := posts[id := post];
      r := Ok(post);
    }

    /** replyPost: append a snapshot of the actor's id, avatar and name with the text. */
    method ReplyPost(id: PostId, actor: UserId, textComment: string, userAvatar: string, username: string)
      returns (r: Result<Post>)
      requires Valid()
      modifies this
      ensures Valid() && (old(DuplicateFree()) ==> DuplicateFree())
      ensures users == old(users) && nextId == old(nextId)
      ensures ReplyCheck(old(posts), id, textComment).Fail? ==>
        r == Err(ReplyCheck(old(posts), id, textComment).error) && posts == old(posts)
      ensures ReplyCheck(old(posts), id, textComment).Pass? ==>
        && r == Ok(old(posts)[id].(replies := old(posts)[id].replies + [Reply(actor, textComment, userAvatar, username)]))
        && posts == old(posts)[id := r.value]
    {
      var check := ReplyCheck(posts, id, textComment);
      if check.Fail? {
        return Err(check.error);
      }
      var post := posts[id];
      post := post.(replies := post.replies + [Reply(actor, textComment, userAvatar, username)]);
      posts := posts[id := post];
      r := Ok(post);
    }

    /** repostPost: store a snapshot of the original posted by the actor, then
        raise the original's repost counter without touching its `updatedAt`. */
    method RepostPost(id: PostId, actor: UserId, now: Time) returns (r: Result<Post>)
      requires Valid()
      modifies this
      ensures Valid() && (old(DuplicateFree()) ==> DuplicateFree())
      ensures users == old(users)
      ensures id !in old(posts) ==> r == Err(NotFound) && posts == old(posts) && nextId == old(nextId)
      ensures id in old(posts) ==>
        && r == Ok(RepostOf(old(posts)[id], old(nextId), actor, now))
        && old(nextId) !in old(posts) && old(nextId) != id
        && posts == old(posts)[old(nextId) := r.value][id := Reposted(old(posts)[id])]
        && nextId == old(nextId) + 1
    {
      if id !in posts {
        return Err(NotFound);
      }
      var original := posts[id];
      var repost := RepostOf(original, nextId, actor, now);
      posts := posts[nextId := repost];
      nextId := nextId + 1;
      posts := posts[id := Reposted(original)];
      r := Ok(repost);
    }

    /** getFeedPosts: the posts of everyone the actor follows, newest first. */
    function GetFeedPosts(actor: UserId): (r: Result<seq<Post>>)
      reads this
      requires Valid()
      ensures actor !in users ==> r == Err(NotFound)
      ensures actor in users ==> r.Ok?
      ensures r.Ok? ==> NewestFirstOrder(r.value) && Distinct(r.value)
      ensures r.Ok? ==> forall p :: p in r.value <==>
        p.id in posts && posts[p.id] == p && p.postedBy in users[actor].following
    {
      if actor !in users then Err(NotFound)
      else Ok(FeedOf(posts, nextId, users[actor].following))
    }
  }

  /** Snapshot isolation: after a repost, a like on the original and a like on
      the repost each change only the post they target. */
  method RepostThenLikeBoth(store: PostStore, id: PostId, actor: UserId, a: UserId, b: UserId, now: Time)
    returns (repostId: PostId)
    requires store.Valid() && id in store.posts
    modifies store
    ensures store.Valid()
    ensures repostId != id && repostId in store.posts && id in store.posts
    ensures store.posts[id].likes == Toggle(old(store.posts[id].likes), a)
    ensures store.posts[repostId].likes == Toggle(old(store.posts[id].likes), b)
    ensures store.posts[id].numberViewsRepost == old(store.posts[id].numberViewsRepost) + 1
    ensures store.posts[id].updatedAt == old(store.posts[id].updatedAt)
  {
    repostId := store.nextId;
    var r := store.RepostPost(id, actor, now);
    var l1 := store.LikePost(id, a);
    var l2 := store.LikePost(repostId, b);
  }

  /** A whole session: the length bound on creation, a fresh post's zero view
      count, a like undone by a second like, and a repost of a deleted post. */
  method Session(alice: UserId)
    requires alice != ""
  {
    var store := new PostStore(map[alice := User([])]);
    var tooLong := seq(501, _ => 'a');
    var r := store.CreatePost(alice, alice, tooLong, "", 1);
    assert r == Err(Invalid);
    var longest := seq(500, _ => 'a');
    r := store.CreatePost(alice, alice, longest, "", 2);
    assert r.Ok? && r.value.numberViews == 0;
    var id := r.value.id;
    r := store.LikePost(id, alice);
    r := store.LikePost(id, alice);
    assert alice !in r.value.likes;
    r := store.DeletePost(id, alice);
    assert r.Ok?;
    r := store.RepostPost(id, alice, 3);
    assert r == Err(NotFound);
  }
}

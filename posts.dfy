/** The post record and the pure pieces of the post controller: the guards
    that decide whether an operation may proceed, and the per-post updates
    ($inc, $push, $pull, field merge, repost snapshot) that the store applies. */
module Posts {
  import opened Results

  /** User ids are compared as strings; the empty string is the falsy "missing" id. */
  type UserId = string
  /** Post ids are opaque; the store hands them out in increasing order. */
  type PostId = nat
  /** Timestamps, in whatever unit the caller's clock uses. */
  type Time = int

  /** The longest `textComment` a new post may carry. */
  const MaxTextLength: nat := 500

  /** A reply embeds a snapshot of its author's id, avatar and name. */
  datatype Reply = Reply(authorId: UserId, textComment: string, userAvatar: string, username: string)

  /** A user, as far as the post controller looks at one: whom they follow. */
  datatype User = User(following: seq<UserId>)

  /** A stored post. `image` is "" when the post has none. */
  datatype Post = Post(
    id: PostId,
    postedBy: UserId,
    textComment: string,
    image: string,
    numberViews: nat,
    numberViewsRepost: nat,
    likes: seq<UserId>,
    savedLists: seq<UserId>,
    replies: seq<Reply>,
    originalPost: Option<PostId>,
    lastRepostedAt: Option<Time>,
    createdAt: Time,
    updatedAt: Time)

  /** No element occurs twice. */
  ghost predicate Distinct<T>(s: seq<T>) {
    forall i, j :: 0 <= i < j < |s| ==> s[i] != s[j]
  }

  // ---------------------------------------------------------------------------
  // Engagement lists: $pull and the like/save toggle

  /** `$pull`: every occurrence of `u` is removed, the rest keeps its order. */
  function Pull(s: seq<UserId>, u: UserId): (r: seq<UserId>)
    ensures forall x :: x in r <==> x in s && x != u
    ensures |r| <= |s|
  {
    if s == [] then []
    else (if s[0] == u then [] else [s[0]]) + Pull(s[1..], u)
  }

  /** Pulling an absent user leaves the sequence as it is. */
  lemma {:induction false} PullAbsent(s: seq<UserId>, u: UserId)
    requires u !in s
    ensures Pull(s, u) == s
  {
    if s != [] {
      PullAbsent(s[1..], u);
      assert s == [s[0]] + s[1..];
    }
  }

  /** One step of `Pull` on a sequence written as head and tail. */
  lemma PullCons(x: UserId, s: seq<UserId>, u: UserId)
    ensures Pull([x] + s, u) == (if x == u then [] else [x]) + Pull(s, u)
  {
    assert ([x] + s)[0] == x && ([x] + s)[1..] == s;
  }

  /** Pulling distributes over concatenation. */
  lemma {:induction false} PullAppend(s: seq<UserId>, t: seq<UserId>, u: UserId)
    ensures Pull(s + t, u) == Pull(s, u) + Pull(t, u)
  {
    if s == [] {
      assert s + t == t;
    } else {
      var x, tail := s[0], s[1..];
      var head := if x == u then [] else [x];
      assert Pull(s + t, u) == head + Pull(tail + t, u) by {
        assert s + t == [x] + (tail + t);
        PullCons(x, tail + t, u);
      }
      assert Pull(s, u) == head + Pull(tail, u) by {
        assert s == [x] + tail;
        PullCons(x, tail, u);
      }
      PullAppend(tail, t, u);
    }
  }

  /** Pulling never introduces a duplicate. */
  lemma {:induction false} PullKeepsDistinct(s: seq<UserId>, u: UserId)
    requires Distinct(s)
    ensures Distinct(Pull(s, u))
  {
    if s != [] {
      DistinctTail(s);
      PullKeepsDistinct(s[1..], u);
      var rest := Pull(s[1..], u);
      if s[0] != u {
        assert s[0] !in rest;
        DistinctPrepend(s[0], rest);
      }
    }
  }

  /** The tail of a duplicate-free sequence is duplicate-free and misses the head. */
  lemma DistinctTail<T>(s: seq<T>)
    requires s != [] && Distinct(s)
    ensures Distinct(s[1..]) && s[0] !in s[1..]
  {
  }

  /** Prepending an absent element keeps a sequence duplicate-free. */
  lemma DistinctPrepend<T>(x: T, s: seq<T>)
    requires x !in s && Distinct(s)
    ensures Distinct([x] + s)
  {
  }

  /** likePost / savePost: remove `u` when present, otherwise append it. */
  function Toggle(s: seq<UserId>, u: UserId): (r: seq<UserId>)
    ensures u in r <==> u !in s
    ensures forall x :: x != u ==> (x in r <==> x in s)
    ensures u !in s ==> r == s + [u]
  {
    if u in s then Pull(s, u) else s + [u]
  }

  /** Two consecutive toggles by the same user restore the membership, and
      when the user was absent they restore the exact sequence. */
  lemma ToggleTwice(s: seq<UserId>, u: UserId)
    ensures forall x :: x in Toggle(Toggle(s, u), u) <==> x in s
    ensures u !in s ==> Toggle(Toggle(s, u), u) == s
  {
    if u !in s {
      PullAppend(s, [u], u);
      PullAbsent(s, u);
      assert Pull([u], u) == [];
    }
  }

  /** A toggle keeps a duplicate-free list duplicate-free. */
  lemma ToggleKeepsDistinct(s: seq<UserId>, u: UserId)
    requires Distinct(s)
    ensures Distinct(Toggle(s, u))
  {
    if u in s {
      PullKeepsDistinct(s, u);
    }
  }

  // ---------------------------------------------------------------------------
  // Views

  /** getDetailPost's `$inc: { numberViews: 1 }`. */
  function Viewed(p: Post): (r: Post)
    ensures r.numberViews == p.numberViews + 1
  {
    p.(numberViews := p.numberViews + 1)
  }

  /** `n` successive detail views of one post. */
  function ViewedTimes(p: Post, n: nat): Post {
    if n == 0 then p else Viewed(ViewedTimes(p, n - 1))
  }

  /** `n` views add exactly `n` to the counter and change nothing else. */
  lemma {:induction false} ViewedTimesAdds(p: Post, n: nat)
    ensures ViewedTimes(p, n) == p.(numberViews := p.numberViews + n)
  {
    if n > 0 {
      ViewedTimesAdds(p, n - 1);
    }
  }

  // ---------------------------------------------------------------------------
  // Creation and repost

  /** The post `Post.create` stores for a request that passed the checks:
      counters at zero, no engagement, not a repost. */
  function NewPost(id: PostId, postedBy: UserId, textComment: string, image: string, now: Time): (r: Post)
    ensures r.id == id && r.postedBy == postedBy && r.textComment == textComment && r.image == image
    ensures r.numberViews == 0 && r.numberViewsRepost == 0
    ensures r.likes == [] && r.savedLists == [] && r.replies == []
    ensures r.originalPost.None? && r.lastRepostedAt.None?
    ensures r.createdAt == now && r.updatedAt == now
  {
    Post(id, postedBy, textComment, image, 0, 0, [], [], [], None, None, now, now)
  }

  /** The document repostPost saves. It copies the original's `text`, a field
      the post record does not have, so the repost's `textComment` stays empty;
      image, view count, likes, replies and saves are copied by value. */
  function RepostOf(original: Post, id: PostId, actor: UserId, now: Time): (r: Post)
    ensures r.id == id && r.postedBy == actor && r.textComment == ""
    ensures r.originalPost == Some(original.id) && r.lastRepostedAt == Some(now)
    ensures r.image == original.image && r.numberViews == original.numberViews
    ensures r.likes == original.likes && r.replies == original.replies && r.savedLists == original.savedLists
    ensures r.numberViewsRepost == 0 && r.createdAt == now && r.updatedAt == now
  {
    Post(id, actor, "", original.image, original.numberViews, 0,
         original.likes, original.savedLists, original.replies,
         Some(original.id), Some(now), now, now)
  }

  /** The counter-only update repostPost applies to the original: with
      `timestamps: false`, every other field, `updatedAt` included, stays. */
  function Reposted(p: Post): (r: Post)
    ensures r.numberViewsRepost == p.numberViewsRepost + 1
    ensures r.(numberViewsRepost := p.numberViewsRepost) == p
  {
    p.(numberViewsRepost := p.numberViewsRepost + 1)
  }

  // ---------------------------------------------------------------------------
  // updatePost's partial merge

  /** The fields a request body may supply to updatePost. */
  datatype Patch = Patch(
    postedBy: Option<UserId>,
    textComment: Option<string>,
    image: Option<string>,
    numberViews: Option<nat>,
    numberViewsRepost: Option<nat>,
    likes: Option<seq<UserId>>,
    savedLists: Option<seq<UserId>>,
    replies: Option<seq<Reply>>)

  /** The body has no key at all. */
  predicate EmptyPatch(q: Patch) {
    && q.postedBy.None? && q.textComment.None? && q.image.None?
    && q.numberViews.None? && q.numberViewsRepost.None?
    && q.likes.None? && q.savedLists.None? && q.replies.None?
  }

  /** Supplied fields overwrite, absent fields keep their stored value. */
  function Merge(p: Post, q: Patch): (r: Post)
    ensures r.id == p.id && r.originalPost == p.originalPost && r.lastRepostedAt == p.lastRepostedAt
    ensures r.createdAt == p.createdAt && r.updatedAt == p.updatedAt
  {
    p.(postedBy := q.postedBy.GetOr(p.postedBy),
       textComment := q.textComment.GetOr(p.textComment),
       image := q.image.GetOr(p.image),
       numberViews := q.numberViews.GetOr(p.numberViews),
       numberViewsRepost := q.numberViewsRepost.GetOr(p.numberViewsRepost),
       likes := q.likes.GetOr(p.likes),
       savedLists := q.savedLists.GetOr(p.savedLists),
       replies := q.replies.GetOr(p.replies))
  }

  /** An empty body changes nothing (updatePost refuses it anyway). */
  lemma MergeEmpty(p: Post, q: Patch)
    requires EmptyPatch(q)
    ensures Merge(p, q) == p
  {
  }

  /** Applying the same body twice is the same as applying it once. */
  lemma MergeIdempotent(p: Post, q: Patch)
    ensures Merge(Merge(p, q), q) == Merge(p, q)
  {
  }

  /** Every field the body may carry: an absent key keeps the stored value,
      a supplied key takes the body's value. */
  lemma MergeFields(p: Post, q: Patch)
    ensures q.postedBy.None? ==> Merge(p, q).postedBy == p.postedBy
    ensures q.postedBy.Some? ==> Merge(p, q).postedBy == q.postedBy.value
    ensures q.textComment.None? ==> Merge(p, q).textComment == p.textComment
    ensures q.textComment.Some? ==> Merge(p, q).textComment == q.textComment.value
    ensures q.image.None? ==> Merge(p, q).image == p.image
    ensures q.image.Some? ==> Merge(p, q).image == q.image.value
    ensures q.numberViews.None? ==> Merge(p, q).numberViews == p.numberViews
    ensures q.numberViews.Some? ==> Merge(p, q).numberViews == q.numberViews.value
    ensures q.numberViewsRepost.None? ==> Merge(p, q).numberViewsRepost == p.numberViewsRepost
    ensures q.numberViewsRepost.Some? ==> Merge(p, q).numberViewsRepost == q.numberViewsRepost.value
    ensures q.likes.None? ==> Merge(p, q).likes == p.likes
    ensures q.likes.Some? ==> Merge(p, q).likes == q.likes.value
    ensures q.savedLists.None? ==> Merge(p, q).savedLists == p.savedLists
    ensures q.savedLists.Some? ==> Merge(p, q).savedLists == q.savedLists.value
    ensures q.replies.None? ==> Merge(p, q).replies == p.replies
    ensures q.replies.Some? ==> Merge(p, q).replies == q.replies.value
  {
  }

  /** The engagement lists of a body are duplicate-free. */
  ghost predicate PatchDistinct(q: Patch) {
    (q.likes.Some? ==> Distinct(q.likes.value)) && (q.savedLists.Some? ==> Distinct(q.savedLists.value))
  }

  // ---------------------------------------------------------------------------
  // Guards

  /** createPost's checks, in the source's order. */
  function CreateCheck(users: map<UserId, User>, actor: UserId, postedBy: UserId, textComment: string): (r: Check)
    ensures r == Fail(NotFound) <==> postedBy != "" && textComment != "" && postedBy !in users
    ensures r == Fail(Unauthorized) <==>
      postedBy != "" && textComment != "" && postedBy in users && postedBy != actor
    ensures r == Fail(Invalid) <==>
      postedBy == "" || textComment == "" ||
      (postedBy in users && postedBy == actor && |textComment| > MaxTextLength)
  {
    if postedBy == "" || textComment == "" then Fail(Invalid)
    else if postedBy !in users then Fail(NotFound)
    else if postedBy != actor then Fail(Unauthorized)
    else if |textComment| > MaxTextLength then Fail(Invalid)
    else Pass
  }

  /** A post may be created exactly when both fields are present, the author
      exists and is the acting user, and the text has at most 500 characters. */
  lemma CreateCheckPasses(users: map<UserId, User>, actor: UserId, postedBy: UserId, textComment: string)
    ensures CreateCheck(users, actor, postedBy, textComment) == Pass <==>
      && postedBy != "" && textComment != ""
      && postedBy in users && postedBy == actor
      && |textComment| <= MaxTextLength
  {
  }

  /** Posting as somebody else is refused as unauthorised. */
  lemma CreateAsOtherRefused(users: map<UserId, User>, actor: UserId, postedBy: UserId, textComment: string)
    requires postedBy != "" && textComment != "" && postedBy in users && postedBy != actor
    ensures CreateCheck(users, actor, postedBy, textComment) == Fail(Unauthorized)
  {
  }

  /** The bound is inclusive: 500 characters pass, 501 are invalid. */
  lemma CreateLengthBoundary(users: map<UserId, User>, actor: UserId, textComment: string)
    requires actor != "" && actor in users && textComment != ""
    ensures |textComment| <= 500 ==> CreateCheck(users, actor, actor, textComment) == Pass
    ensures |textComment| > 500 ==> CreateCheck(users, actor, actor, textComment) == Fail(Invalid)
  {
  }

  /** deletePost's checks: the post must exist and belong to the actor. */
  function AuthorCheck(posts: map<PostId, Post>, id: PostId, actor: UserId): (r: Check)
    ensures r == Fail(NotFound) <==> id !in posts
    ensures r == Fail(Unauthorized) <==> id in posts && posts[id].postedBy != actor
    ensures r.Fail? ==> r.error != Invalid
  {
    if id !in posts then Fail(NotFound)
    else if posts[id].postedBy != actor then Fail(Unauthorized)
    else Pass
  }

  /** updatePost's checks: those of deletePost, then a non-empty body. */
  function UpdateCheck(posts: map<PostId, Post>, id: PostId, actor: UserId, q: Patch): (r: Check)
    ensures r == Fail(NotFound) <==> id !in posts
    ensures r == Fail(Unauthorized) <==> id in posts && posts[id].postedBy != actor
    ensures r == Fail(Invalid) <==> id in posts && posts[id].postedBy == actor && EmptyPatch(q)
  {
    match AuthorCheck(posts, id, actor)
    case Fail(e) => Fail(e)
    case Pass => if EmptyPatch(q) then Fail(Invalid) else Pass
  }

  /** Only the author of an existing post passes the author check, and every
      other actor is refused as unauthorised. */
  lemma AuthorCheckExact(posts: map<PostId, Post>, id: PostId, actor: UserId)
    ensures AuthorCheck(posts, id, actor) == Pass <==> id in posts && posts[id].postedBy == actor
    ensures id in posts && posts[id].postedBy != actor ==> AuthorCheck(posts, id, actor) == Fail(Unauthorized)
  {
  }

  /** An update proceeds exactly for the author of an existing post with at
      least one field supplied; authorisation is decided before emptiness. */
  lemma UpdateCheckExact(posts: map<PostId, Post>, id: PostId, actor: UserId, q: Patch)
    ensures UpdateCheck(posts, id, actor, q) == Pass <==>
      id in posts && posts[id].postedBy == actor && !EmptyPatch(q)
    ensures id in posts && posts[id].postedBy != actor ==> UpdateCheck(posts, id, actor, q) == Fail(Unauthorized)
  {
  }

  /** replyPost's checks: the text is looked at before the post. */
  function ReplyCheck(posts: map<PostId, Post>, id: PostId, textComment: string): (r: Check)
    ensures r == Fail(Invalid) <==> textComment == ""
    ensures r == Fail(NotFound) <==> textComment != "" && id !in posts
    ensures r.Fail? ==> r.error != Unauthorized
  {
    if textComment == "" then Fail(Invalid)
    else if id !in posts then Fail(NotFound)
    else Pass
  }
}

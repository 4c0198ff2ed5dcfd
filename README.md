# Post controller of a social feed, modelled in Dafny

This project models `controllers/PostController.js` of a small social network
back end. The controller handles user-authored posts. Its operations are:

- create, view, list, update and delete posts;
- like/unlike and save/unsave a post (toggles);
- reply to a post;
- repost a post;
- assemble a user's feed from the posts of the users they follow.

The database is modelled as an in-memory store: the class
`PostController.PostStore`. It holds a map from post id to a `Post` record and
a map from user id to the user's `following` list. Each controller is one
member of the store:

- Controllers that change a post are methods with `modifies this`. Their
  `ensures` give the whole new map in terms of the old one.
- The read-only queries, `GetAllPosts` and `GetFeedPosts`, are functions.

The per-post updates and the guards are pure functions, in module `Posts`:

- `Toggle` and `Pull` model `$push`/`$pull` on `likes` and `savedLists`.
- `Viewed` models `$inc numberViews`.
- `Merge` is the partial update.
- `RepostOf` is the repost snapshot and `Reposted` is the counter bump.
- `CreateCheck`, `AuthorCheck`, `UpdateCheck` and `ReplyCheck` are the guards.

The feed query (`find` with `$in`, then sort by `createdAt` descending) is in
module `Feed`. It is a filter followed by an insertion sort. Lemmas prove that
the result is ordered newest first and holds each matching post exactly once.

Results are `Ok(value)` or `Err(NotFound | Unauthorized | Invalid)`. Other
modelling choices:

- The authenticated user is the `actor` parameter.
- The clock (`Date.now()`) is the `now` parameter.
- Post ids are handed out by the store from `nextId`.
- User ids are strings, and the empty string is JavaScript's falsy "missing" value.

The model reproduces these quirks of the source:

- **What a repost copies.** `repostPost` copies `originalPost.text`
  (controllers/PostController.js:186). A post has no such field; its text field
  is `textComment`. So the repost's `textComment` is empty, and `RepostOf` says so.
- **Update and delete of a missing post.** `updatePost` and `deletePost` read
  `post.postedBy` without checking that the post exists
  (controllers/PostController.js:54-55 and 69-70). In the source this raises an
  error and stores nothing. The model returns `Err(NotFound)` and leaves the
  store unchanged.
- **Reply check order.** `replyPost` checks the text before looking up the post.
  An empty reply to a missing post is therefore `Invalid`, not `NotFound`.
- **Update length check.** `updatePost` does not re-check the 500-character bound.

Two client methods sit beside the store. `PostController.RepostThenLikeBoth`
shows that a repost and its original evolve independently.
`PostController.Session` is an end-to-end scenario that models no controller
of its own. It shows that a 501-character post is refused and a 500-character
one is stored with zero views. It shows that a second like removes the first.
It shows that reposting a deleted post is `NotFound`.

## Model

| member | source | states |
|---|---|---|
| Posts.Pull | controllers/PostController.js:91 | `$pull` removes every occurrence of the user and keeps every other member; it never lengthens the list |
| Posts.PullAbsent | controllers/PostController.js:91 | pulling a user who is absent leaves the list exactly as it was |
| Posts.PullAppend | controllers/PostController.js:91 | pulling from a concatenation is the concatenation of the pulls |
| Posts.PullKeepsDistinct | controllers/PostController.js:91 | pulling from a duplicate-free list leaves it duplicate-free |
| Posts.Toggle | controllers/PostController.js:85-107 | after the like toggle the user is a member exactly when it was not before; every other user's membership is unchanged; an absent user is appended at the end |
| Posts.ToggleTwice | controllers/PostController.js:85-107 | two consecutive toggles by one user restore the original membership, and restore the exact list when the user was absent |
| Posts.ToggleKeepsDistinct | controllers/PostController.js:144-163 | the toggle pushes only an absent user, so a duplicate-free `likes`/`savedLists` stays duplicate-free |
| Posts.Viewed | controllers/PostController.js:32 | one detail view raises `numberViews` by exactly one |
| Posts.ViewedTimesAdds | controllers/PostController.js:29-35 | N detail views raise `numberViews` by exactly N and change no other field |
| Posts.NewPost | controllers/PostController.js:17 | a created post carries the given id, author, text and image; both counters are zero; likes, saves and replies are empty; it is not a repost; `createdAt = updatedAt = now` |
| Posts.RepostOf | controllers/PostController.js:184-194 | the repost has `postedBy` = actor, `originalPost` = the original's id and `lastRepostedAt` = now. It copies `image`, `numberViews`, `likes`, `replies` and `savedLists`. Its `numberViewsRepost` is 0, and its `textComment` is empty because line 186 copies `text`, which is not a post field |
| Posts.Reposted | controllers/PostController.js:199-200 | the repost bump raises the original's `numberViewsRepost` by exactly one; every other field, `updatedAt` included, stays as it was |
| Posts.Merge | controllers/PostController.js:58 | a merge never changes the id, the repost back-reference or the timestamps |
| Posts.MergeEmpty | controllers/PostController.js:57-58 | a body with no field leaves the post as it was |
| Posts.MergeIdempotent | controllers/PostController.js:58 | applying the same body twice equals applying it once |
| Posts.MergeFields | controllers/PostController.js:58 | for each of `postedBy`, `textComment`, `image`, both counters, `likes`, `savedLists` and `replies`: a key the body leaves out keeps the stored value, and a key it supplies takes the body's value |
| Posts.CreateCheck | controllers/PostController.js:7-15 | `NotFound` exactly when both fields are present but the author does not exist. `Unauthorized` exactly when the author exists but is not the actor. `Invalid` exactly when a field is missing, or the actor's own text is over 500 characters |
| Posts.CreateCheckPasses | controllers/PostController.js:7-15 | creation is allowed exactly when `postedBy` and `textComment` are present, the author exists and is the acting user, and the text has at most 500 characters |
| Posts.CreateAsOtherRefused | controllers/PostController.js:11-12 | posting as another existing user is refused as unauthorised |
| Posts.CreateLengthBoundary | controllers/PostController.js:14-15 | a text of at most 500 characters is accepted; a longer one is invalid |
| Posts.AuthorCheck | controllers/PostController.js:69-70 | `NotFound` exactly when the post is missing and `Unauthorized` exactly when it belongs to someone else; never `Invalid` |
| Posts.UpdateCheck | controllers/PostController.js:54-57 | `NotFound` exactly for a missing post and `Unauthorized` exactly for a non-author. `Invalid` exactly when the author sends an empty body |
| Posts.ReplyCheck | controllers/PostController.js:124-126 | `Invalid` exactly for an empty text, whether or not the post exists. `NotFound` exactly for a non-empty text on a missing post; never `Unauthorized` |
| Posts.AuthorCheckExact | controllers/PostController.js:69-70 | delete is allowed exactly for the author of an existing post; any other actor is unauthorised |
| Posts.UpdateCheckExact | controllers/PostController.js:54-57 | update is allowed exactly for the author of an existing post with a non-empty body; a non-author is unauthorised even with an empty body |
| Feed.StoredPosts | controllers/PostController.js:43 | lists exactly the stored posts, each once, in increasing id order |
| Feed.FollowedBy | controllers/PostController.js:218 | keeps exactly the posts whose author is in the following list |
| Feed.FollowedByDistinct | controllers/PostController.js:218 | filtering a duplicate-free sequence gives a duplicate-free sequence |
| Feed.InsertNewest | controllers/PostController.js:218 | inserting adds exactly the one post; the result's head is the new post or the old head |
| Feed.InsertNewestOrdered | controllers/PostController.js:218 | inserting into a newest-first sequence keeps it newest first |
| Feed.NewestFirst | controllers/PostController.js:218 | the sort returns a permutation of its input with `createdAt` non-increasing |
| Feed.FeedOf | controllers/PostController.js:217-218 | the feed holds each stored post by a followed author exactly once, and no other post, newest first |
| Feed.NewerComesFirst | controllers/PostController.js:218 | in the feed a strictly newer post comes before an older one |
| PostController.PostStore.CreatePost | controllers/PostController.js:5-17 | on a failed check, returns that check's error and leaves the store unchanged; otherwise stores a new post under a fresh id with zero counters, no likes, saves or replies, and `createdAt = updatedAt = now` |
| PostController.PostStore.GetDetailPost | controllers/PostController.js:25-35 | a missing post is `NotFound` with no change; otherwise only that post's `numberViews` rises by one, and the post after the increment is returned |
| PostController.PostStore.GetAllPosts | controllers/PostController.js:42-43 | returns every stored post, each once, in creation order |
| PostController.PostStore.UpdatePost | controllers/PostController.js:50-58 | a missing post, a non-author or an empty body fails with no change; otherwise only that post changes, to the merge of the body, which is returned |
| PostController.PostStore.DeletePost | controllers/PostController.js:65-72 | a missing post or a non-author fails with no change; otherwise exactly that id is removed and the removed post is returned |
| PostController.PostStore.LikePost | controllers/PostController.js:79-113 | a missing post is `NotFound` with no change; otherwise only that post's `likes` is toggled for the actor, and duplicate-freedom is preserved |
| PostController.PostStore.SavePost | controllers/PostController.js:138-173 | a missing post is `NotFound` with no change; otherwise only that post's `savedLists` is toggled for the actor, and duplicate-freedom is preserved |
| PostController.PostStore.ReplyPost | controllers/PostController.js:116-136 | an empty text is `Invalid`, then a missing post `NotFound`, both with no change; otherwise the reply snapshot is appended after the existing replies of that post only |
| PostController.PostStore.RepostPost | controllers/PostController.js:175-210 | a missing original is `NotFound` with no change; otherwise a new post is stored under a fresh id with `postedBy` = actor, `originalPost` = the original's id, and the copied fields. The original's `numberViewsRepost` rises by one; its other fields, `updatedAt` included, stay the same |
| PostController.PostStore.GetFeedPosts | controllers/PostController.js:212-218 | a missing user is `NotFound`; otherwise the result holds each stored post by a followed author exactly once, in non-increasing `createdAt` order |
| PostController.RepostThenLikeBoth | controllers/PostController.js:184-200 | after a repost, a like on the original and a like on the repost each change only their own post's `likes`, both starting from the original's likes |

## Left out

- HTTP plumbing is not modelled: `req`/`res`, status codes, the JSON response shapes, the success and message strings, and the `asyncHandler` wrapper. Every outcome is a `Result`.
- The "post id missing" checks on route parameters (controllers/PostController.js:27, 52, 67) are not modelled, because a route always supplies the parameter.
- The `console.log` calls are not modelled.
- Mongoose itself is not modelled. Ids are plain values compared by equality, with no ObjectId casting or `toString`. A malformed id is not a case.
- The user store is outside this model. It is a map given to the constructor, and the controller reads only each user's `following` list.
- Concurrency is not modelled. This covers the read-then-write window of the toggles, a post deleted between the two reads of `updatePost`/`deletePost`, and the non-atomic two-step repost. Operations run one at a time, so the repost bump's "loaded value + 1" is the same as "+1".
- `Date.now()` is the `now` parameter.
- Mongoose's automatic `updatedAt` refresh on the other writes (view, like, save, reply, update) is not modelled. Those operations leave both timestamps as they were. On insert, the model sets `createdAt` and `updatedAt` to `now`.
- `models/PostModel.js` is not part of this model. The model assumes its defaults: counters start at 0 and lists start empty. A `required` validator on `textComment` could make the repost's save fail; that is not modelled.
- `Post.create(req.body)` stores any other fields the body carries. The model creates a post from `postedBy`, `textComment` and `image` only.
- The update body covers `postedBy`, `textComment`, `image`, both counters, `likes`, `savedLists` and `replies`. A body that sets `originalPost`, `lastRepostedAt`, the timestamps or `_id` is not modelled. Neither is a body holding only keys outside the schema, which the source counts as non-empty.
- `updatePost` hands the body to `findByIdAndUpdate` unchanged (controllers/PostController.js:58). Mongoose wraps only operator-free bodies in `$set`, so a body with keys such as `$inc`, `$push` or `$unset` is applied as those update operators; an author could lower `numberViews` or push a duplicate like that way. The model's `Patch` is a plain `$set` body and does not express these.
- A body key whose value is `null` is `$set` to null in the source. `Patch` has no null value, so this is not modelled.
- Text length is counted in characters, not in JavaScript's UTF-16 code units.
- The order of feed posts with equal `createdAt` is unspecified in the source. The model sorts them in one fixed order, and its contracts state only the non-increasing order and the exact contents.

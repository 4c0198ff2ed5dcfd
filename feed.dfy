/** getAllPosts and getFeedPosts as queries over the stored posts:
    `Post.find()`, and `Post.find({ postedBy: { $in: following } })`
    sorted by `createdAt` descending. */
module Feed {
  import opened Results
  import opened Posts

  /** Every stored post carries the id it is stored under. */
  predicate IdsMatchKeys(posts: map<PostId, Post>) {
    forall k :: k in posts ==> posts[k].id == k
  }

  /** The stored posts with an id below `n`, in increasing id order,
      which is the order the store created them in. */
  function StoredPosts(posts: map<PostId, Post>, n: nat): (r: seq<Post>)
    requires IdsMatchKeys(posts)
    ensures forall p :: p in r <==> p.id < n && p.id in posts && posts[p.id] == p
    ensures forall i, j :: 0 <= i < j < |r| ==> r[i].id < r[j].id
    ensures Distinct(r)
  {
    if n == 0 then []
    else StoredPosts(posts, n - 1) + (if n - 1 in posts then [posts[n - 1]] else [])
  }

  /** The posts of `s` whose author is in `following`, in their order in `s`. */
  function FollowedBy(s: seq<Post>, following: seq<UserId>): (r: seq<Post>)
    ensures forall p :: p in r <==> p in s && p.postedBy in following
  {
    if s == [] then []
    else (if s[0].postedBy in following then [s[0]] else []) + FollowedBy(s[1..], following)
  }

  /** Filtering a duplicate-free sequence gives a duplicate-free sequence. */
  lemma {:induction false} FollowedByDistinct(s: seq<Post>, following: seq<UserId>)
    requires Distinct(s)
    ensures Distinct(FollowedBy(s, following))
  {
    if s != [] {
      DistinctTail(s);
      FollowedByDistinct(s[1..], following);
      if s[0].postedBy in following {
        DistinctPrepend(s[0], FollowedBy(s[1..], following));
      }
    }
  }

  /** Newest first: `createdAt` never increases along the sequence. */
  predicate NewestFirstOrder(s: seq<Post>) {
    forall i, j :: 0 <= i < j < |s| ==> s[i].createdAt >= s[j].createdAt
  }

  /** Inserts `p` before the first post that is not newer than it. */
  function InsertNewest(p: Post, s: seq<Post>): (r: seq<Post>)
    ensures multiset(r) == multiset(s) + multiset{p}
    ensures |r| == |s| + 1
    ensures r[0] == p || (s != [] && r[0] == s[0])
  {
    if s == [] then [p]
    else if p.createdAt >= s[0].createdAt then [p] + s
    else
      assert s == [s[0]] + s[1..];
      [s[0]] + InsertNewest(p, s[1..])
  }

  /** Inserting into a newest-first sequence keeps it newest first. */
  lemma {:induction false} InsertNewestOrdered(p: Post, s: seq<Post>)
    requires NewestFirstOrder(s)
    ensures NewestFirstOrder(InsertNewest(p, s))
  {
    if s != [] && p.createdAt < s[0].createdAt {
      var rest := InsertNewest(p, s[1..]);
      InsertNewestOrdered(p, s[1..]);
      var r := [s[0]] + rest;
      assert s[0].createdAt >= rest[0].createdAt by {
        if |s| > 1 { assert s[0].createdAt >= s[1].createdAt; }
      }
      forall i, j | 0 <= i < j < |r| ensures r[i].createdAt >= r[j].createdAt {
        if i == 0 {
          assert r[j] == rest[j - 1];
          if j > 1 { assert rest[0].createdAt >= rest[j - 1].createdAt; }
        } else {
          assert r[i] == rest[i - 1] && r[j] == rest[j - 1];
        }
      }
    }
  }

  /** `.sort({ createdAt: -1 })`, as an insertion sort. */
  function NewestFirst(s: seq<Post>): (r: seq<Post>)
    ensures NewestFirstOrder(r)
    ensures multiset(r) == multiset(s)
  {
    if s == [] then []
    else
      var rest := NewestFirst(s[1..]);
      InsertNewestOrdered(s[0], rest);
      assert s == [s[0]] + s[1..];
      InsertNewest(s[0], rest)
  }

  /** A sequence with the same elements as a duplicate-free one is duplicate-free. */
  lemma SameMultisetDistinct<T>(a: seq<T>, b: seq<T>)
    requires multiset(a) == multiset(b) && Distinct(b)
    ensures Distinct(a)
  {
    forall x | x in multiset(b) ensures multiset(b)[x] == 1 {
      DistinctOnce(b, x);
    }
    forall i, j | 0 <= i < j < |a| ensures a[i] != a[j] {
      if a[i] == a[j] {
        TwiceInMultiset(a, i, j);
      }
    }
  }

  /** In a duplicate-free sequence every element occurs once. */
  lemma {:induction false} DistinctOnce<T>(s: seq<T>, x: T)
    requires Distinct(s) && x in s
    ensures multiset(s)[x] == 1
  {
    assert s == [s[0]] + s[1..];
    DistinctTail(s);
    if s[0] == x {
      assert x !in multiset(s[1..]);
    } else {
      DistinctOnce(s[1..], x);
    }
  }

  /** Two positions holding the same value make it occur at least twice. */
  lemma {:induction false} TwiceInMultiset<T>(s: seq<T>, i: nat, j: nat)
    requires i < j < |s| && s[i] == s[j]
    ensures multiset(s)[s[i]] >= 2
  {
    assert s == s[..j] + [s[j]] + s[j + 1..];
    assert s[i] == s[..j][i];
    assert s[i] in multiset(s[..j]);
  }

  /** The feed of a user following `following`: each stored post by a
      followed author exactly once, newest first. */
  function FeedOf(posts: map<PostId, Post>, n: nat, following: seq<UserId>): (r: seq<Post>)
    requires IdsMatchKeys(posts)
    ensures NewestFirstOrder(r)
    ensures Distinct(r)
    ensures forall p :: p in r <==> p.id < n && p.id in posts && posts[p.id] == p && p.postedBy in following
  {
    var matching := FollowedBy(StoredPosts(posts, n), following);
    FollowedByDistinct(StoredPosts(posts, n), following);
    var r := NewestFirst(matching);
    SameMultisetDistinct(r, matching);
    assert forall p :: p in r <==> p in multiset(matching);
    r
  }

  /** Of two posts in a newest-first sequence, the strictly newer one comes first. */
  lemma NewerComesFirst(s: seq<Post>, i: nat, j: nat)
    requires NewestFirstOrder(s) && i < |s| && j < |s|
    requires s[i].createdAt > s[j].createdAt
    ensures i < j
  {
  }
}

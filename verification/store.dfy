/** The database state the services work on: the posts, post images, post
    likes and comments tables.

    Posts and comments are kept as sequences indexed by their primary key;
    images and likes are rows that can be removed, so they carry their own ids
    and the store keeps the next id to hand out. Every service call is one
    atomic transition from a `Store` to a `Store`.
 */
module Tables {
  import opened Outcomes
  import opened PostModel
  import CM = CommentModel

  datatype Store = Store(
    posts: seq<Post>,
    images: seq<PostImage>,
    nextImageId: nat,
    likes: seq<PostLike>,
    nextLikeId: nat,
    comments: seq<CM.Comment>)

  // ----- counting rows -------------------------------------------------------

  /** The number of `PostLike` rows that point at `post`. */
  function LikesOn(likes: seq<PostLike>, post: nat): nat
  {
    if |likes| == 0 then 0
    else LikesOn(likes[..|likes| - 1], post) + (if likes[|likes| - 1].post == post then 1 else 0)
  }

  /** 1 when `c` is a comment on `post` that is not soft-deleted. */
  function Live(c: CM.Comment, post: nat): nat
  {
    if c.post == post && !c.isDeleted then 1 else 0
  }

  /** The number of comments on `post` that are not soft-deleted. */
  function LiveCommentsOn(comments: seq<CM.Comment>, post: nat): nat
  {
    if |comments| == 0 then 0
    else LiveCommentsOn(comments[..|comments| - 1], post) + Live(comments[|comments| - 1], post)
  }

  lemma {:induction false} LikesOnConcat(a: seq<PostLike>, b: seq<PostLike>, post: nat)
    ensures LikesOn(a + b, post) == LikesOn(a, post) + LikesOn(b, post)
    decreases |b|
  {
    if |b| == 0 {
      assert a + b == a;
    } else {
      var b' := b[..|b| - 1];
      assert (a + b)[..|a + b| - 1] == a + b';
      LikesOnConcat(a, b', post);
    }
  }

  /** A single row counts once for its own post and not at all elsewhere. */
  lemma LikesOnSingle(l: PostLike, post: nat)
    ensures LikesOn([l], post) == if l.post == post then 1 else 0
  {
    assert [l][..0] == [];
  }

  /** Removing row `i` lowers the count of its post by one and leaves the
      counts of all other posts alone. */
  lemma LikesOnRemove(likes: seq<PostLike>, i: nat, post: nat)
    requires i < |likes|
    ensures LikesOn(likes[..i] + likes[i + 1..], post) + (if likes[i].post == post then 1 else 0)
      == LikesOn(likes, post)
  {
    assert likes == likes[..i] + [likes[i]] + likes[i + 1..];
    LikesOnConcat(likes[..i] + [likes[i]], likes[i + 1..], post);
    LikesOnConcat(likes[..i], [likes[i]], post);
    LikesOnConcat(likes[..i], likes[i + 1..], post);
    LikesOnSingle(likes[i], post);
  }

  /** Appending a row raises the count of its post by one. */
  lemma LikesOnAppend(likes: seq<PostLike>, l: PostLike, post: nat)
    ensures LikesOn(likes + [l], post) == LikesOn(likes, post) + (if l.post == post then 1 else 0)
  {
    assert (likes + [l])[..|likes|] == likes;
  }

  /** A post no row points at has no likes. */
  lemma {:induction false} LikesOnNone(likes: seq<PostLike>, post: nat)
    requires forall i :: 0 <= i < |likes| ==> likes[i].post != post
    ensures LikesOn(likes, post) == 0
  {
    if |likes| > 0 {
      LikesOnNone(likes[..|likes| - 1], post);
    }
  }

  /** Appending a comment raises the live count of its post when it is live. */
  lemma LiveCommentsOnAppend(comments: seq<CM.Comment>, c: CM.Comment, post: nat)
    ensures LiveCommentsOn(comments + [c], post) == LiveCommentsOn(comments, post) + Live(c, post)
  {
    assert (comments + [c])[..|comments|] == comments;
  }

  /** Replacing comment `i` changes each post's live count by the difference
      between the new and the old row. */
  lemma {:induction false} LiveCommentsOnUpdate(comments: seq<CM.Comment>, i: nat, c: CM.Comment, post: nat)
    requires i < |comments|
    ensures LiveCommentsOn(comments[i := c], post) + Live(comments[i], post)
      == LiveCommentsOn(comments, post) + Live(c, post)
  {
    var n := |comments|;
    var updated := comments[i := c];
    if i == n - 1 {
      assert updated[..n - 1] == comments[..n - 1];
    } else {
      assert updated[..n - 1] == comments[..n - 1][i := c];
      LiveCommentsOnUpdate(comments[..n - 1], i, c, post);
    }
  }

  /** A post no comment points at has no live comments. */
  lemma {:induction false} LiveCommentsOnNone(comments: seq<CM.Comment>, post: nat)
    requires forall i :: 0 <= i < |comments| ==> comments[i].post != post
    ensures LiveCommentsOn(comments, post) == 0
  {
    if |comments| > 0 {
      LiveCommentsOnNone(comments[..|comments| - 1], post);
    }
  }

  // ----- the invariant -------------------------------------------------------

  /** Posts sit at the index of their id, and their flags agree. */
  predicate PostsKeyed(s: Store)
  {
    forall i :: 0 <= i < |s.posts| ==> s.posts[i].id == i && FlagsAgree(s.posts[i])
  }

  /** Comments sit at the index of their id, point at an existing post, and
      their flags agree. */
  predicate CommentsKeyed(s: Store)
  {
    forall i :: 0 <= i < |s.comments| ==>
      s.comments[i].id == i && s.comments[i].post < |s.posts| && CM.FlagsAgree(s.comments[i])
  }

  /** Image and like rows point at existing posts and have ids below the next
      id to be handed out. */
  predicate RowsReferencePosts(s: Store)
  {
    && (forall i :: 0 <= i < |s.images| ==> s.images[i].post < |s.posts| && s.images[i].id < s.nextImageId)
    && (forall i :: 0 <= i < |s.likes| ==> s.likes[i].post < |s.posts| && s.likes[i].id < s.nextLikeId)
  }

  /** The unique constraint on (post, user) of `PostLike`. */
  predicate LikesUnique(likes: seq<PostLike>)
  {
    forall i, j :: 0 <= i < j < |likes| ==> likes[i].post != likes[j].post || likes[i].user != likes[j].user
  }

  /** The denormalised counters agree with the rows they count. */
  predicate CountersAgree(s: Store)
  {
    forall i :: 0 <= i < |s.posts| ==>
      s.posts[i].likeCount == LikesOn(s.likes, i) && s.posts[i].commentCount == LiveCommentsOn(s.comments, i)
  }

  predicate Valid(s: Store)
  {
    PostsKeyed(s) && CommentsKeyed(s) && RowsReferencePosts(s) && LikesUnique(s.likes) && CountersAgree(s)
  }

  /** The empty database. */
  function Empty(): (s: Store)
    ensures Valid(s)
    ensures |s.posts| == 0 && |s.comments| == 0 && |s.likes| == 0 && |s.images| == 0
  {
    Store([], [], 0, [], 0, [])
  }

  // ----- lookups -------------------------------------------------------------

  /** `get_object_or_404(Post, id=id, is_deleted=False)` succeeds. */
  predicate IsLivePost(s: Store, id: nat)
  {
    id < |s.posts| && !s.posts[id].isDeleted
  }

  /** `get_object_or_404(Comment, id=id, is_deleted=False)` succeeds. */
  predicate IsLiveComment(s: Store, id: nat)
  {
    id < |s.comments| && !s.comments[id].isDeleted
  }

  /** A `PostLike` row exists for (post, user). */
  predicate Liked(s: Store, post: nat, user: nat)
  {
    exists i :: 0 <= i < |s.likes| && s.likes[i].post == post && s.likes[i].user == user
  }

  /** The position of the like row of (post, user), if there is one. */
  function FindLike(likes: seq<PostLike>, post: nat, user: nat): (r: Option<nat>)
    ensures r.Some? ==> r.value < |likes| && likes[r.value].post == post && likes[r.value].user == user
    ensures r.None? ==> forall i :: 0 <= i < |likes| ==> likes[i].post != post || likes[i].user != user
  {
    if |likes| == 0 then None
    else
      var n := |likes| - 1;
      if likes[n].post == post && likes[n].user == user then Some(n)
      else
        var r := FindLike(likes[..n], post, user);
        assert forall i :: 0 <= i < n ==> likes[..n][i] == likes[i];
        r
  }

  /** The row sequence without position `i`. */
  function RemoveAt<T>(xs: seq<T>, i: nat): (r: seq<T>)
    requires i < |xs|
    ensures |r| == |xs| - 1
    ensures forall k :: 0 <= k < i ==> r[k] == xs[k]
    ensures forall k :: i <= k < |r| ==> r[k] == xs[k + 1]
  {
    xs[..i] + xs[i + 1..]
  }

  /** Only post `id` may differ between `s` and `t`; every other table and
      counter is the same. */
  predicate OnlyPostChanged(s: Store, t: Store, id: nat)
  {
    && |t.posts| == |s.posts|
    && (forall i :: 0 <= i < |s.posts| && i != id ==> t.posts[i] == s.posts[i])
    && t.images == s.images && t.nextImageId == s.nextImageId
    && t.likes == s.likes && t.nextLikeId == s.nextLikeId
    && t.comments == s.comments
  }
}

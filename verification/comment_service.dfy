/** `CommentService` (comments/services.py): the comment list of a post,
    create, update and soft delete, each as one transition of the `Store`.

    `delete_comment` looks the comment up with the keyword `is_delete`, which
    names no field of `Comment`; the ORM rejects such a lookup before any
    query runs. `DeleteCommentAsWritten` models that call, and `DeleteComment`
    the evidently intended lookup on `is_deleted`.
 */
module CommentService {
  import opened Outcomes
  import opened Listing
  import opened PostModel
  import opened Tables
  import CM = CommentModel

  /** The live comments of `post`: `filter(post_id=post, is_deleted=False)`. */
  function LiveOn(post: nat): CM.Comment -> bool
  {
    (c: CM.Comment) => c.post == post && !c.isDeleted
  }

  /** The comments of `post` that are not deleted, newest first. */
  function CommentsOf(s: Store, post: nat): (r: seq<CM.Comment>)
    ensures NewestFirst(r, CM.CommentCreatedAt)
    ensures forall c :: multiset(r)[c] == if c.post == post && !c.isDeleted then multiset(s.comments)[c] else 0
  {
    SortNewestFirst(Filter(s.comments, LiveOn(post)), CM.CommentCreatedAt)
  }

  /** Every listed comment is a stored, live comment of the post. */
  lemma CommentsOfRows(s: Store, post: nat)
    ensures forall c :: c in CommentsOf(s, post) ==> c in s.comments && c.post == post && !c.isDeleted
  {
    var all := CommentsOf(s, post);
    forall c | c in all
      ensures c in s.comments && c.post == post && !c.isDeleted
    {
      assert multiset(all)[c] > 0;
    }
  }

  /** `get_post_comments`: not found for a missing or deleted post; otherwise
      the slice `[offset, offset + limit)` of the post's live comments, newest
      first, with the total of all of them. */
  function GetPostComments(s: Store, post: nat, offset: nat, limit: nat): (r: Result<Listed<CM.Comment>>)
    ensures r.Err? <==> !IsLivePost(s, post)
    ensures r.Err? ==> r.error == NotFound
    ensures r.Ok? ==> r.value.totalCount == |CommentsOf(s, post)|
    ensures r.Ok? ==>
      |r.value.items| == (if offset >= r.value.totalCount then 0 else Min(limit, r.value.totalCount - offset))
    ensures r.Ok? ==> (forall k :: 0 <= k < |r.value.items| ==> r.value.items[k] == CommentsOf(s, post)[offset + k])
    ensures r.Ok? ==> forall c :: c in r.value.items ==> c in s.comments && c.post == post && !c.isDeleted
  {
    if !IsLivePost(s, post) then Err(NotFound)
    else
      var all := CommentsOf(s, post);
      var page := Window(all, offset, limit);
      CommentsOfRows(s, post);
      Ok(Listed(page, |all|))
  }

  lemma {:induction false} LiveCommentsOnConcat(a: seq<CM.Comment>, b: seq<CM.Comment>, post: nat)
    ensures LiveCommentsOn(a + b, post) == LiveCommentsOn(a, post) + LiveCommentsOn(b, post)
    decreases |b|
  {
    if |b| == 0 {
      assert a + b == a;
    } else {
      var b' := b[..|b| - 1];
      assert (a + b)[..|a + b| - 1] == a + b';
      LiveCommentsOnConcat(a, b', post);
    }
  }

  /** Filtering the live comments of a post keeps as many rows as the live
      count says. */
  lemma {:induction false} FilterCountsLive(xs: seq<CM.Comment>, post: nat)
    ensures |Filter(xs, LiveOn(post))| == LiveCommentsOn(xs, post)
  {
    if |xs| > 0 {
      assert xs == [xs[0]] + xs[1..];
      LiveCommentsOnConcat([xs[0]], xs[1..], post);
      assert [xs[0]][..0] == [];
      FilterCountsLive(xs[1..], post);
    }
  }

  /** Under the invariant, the total of a post's comment list is the post's
      `comment_count`. */
  lemma ListedTotalIsCommentCount(s: Store, post: nat, offset: nat, limit: nat)
    requires Valid(s) && IsLivePost(s, post)
    ensures GetPostComments(s, post, offset, limit).value.totalCount == s.posts[post].commentCount
  {
    var f := Filter(s.comments, LiveOn(post));
    FilterCountsLive(s.comments, post);
    assert |CommentsOf(s, post)| == |multiset(CommentsOf(s, post))| == |multiset(f)| == |f|;
  }

  /** `create_comment`: not found for a missing or deleted post; otherwise one
      new live comment and the post's `comment_count` one higher. */
  function CreateComment(s: Store, post: nat, user: nat, content: string, now: int): (r: Result<(Store, CM.Comment)>)
    ensures r.Err? <==> !IsLivePost(s, post)
    ensures r.Err? ==> r.error == NotFound
    ensures r.Ok? ==> r.value.0.comments == s.comments + [r.value.1]
    ensures r.Ok? ==> r.value.1.id == |s.comments| && r.value.1.post == post && r.value.1.user == user
    ensures r.Ok? ==> r.value.1.content == content && !r.value.1.isDeleted && r.value.1.status == CM.Active
    ensures r.Ok? ==> |r.value.0.posts| == |s.posts| && r.value.0.posts[post].commentCount == s.posts[post].commentCount + 1
    ensures r.Ok? ==> r.value.0.posts[post].(commentCount := s.posts[post].commentCount) == s.posts[post]
    ensures r.Ok? ==> forall i :: 0 <= i < |s.posts| && i != post ==> r.value.0.posts[i] == s.posts[i]
    ensures r.Ok? ==> r.value.0.likes == s.likes && r.value.0.images == s.images
    ensures r.Ok? ==> r.value.0.nextImageId == s.nextImageId && r.value.0.nextLikeId == s.nextLikeId
  {
    if !IsLivePost(s, post) then Err(NotFound)
    else
      var c := CM.NewComment(|s.comments|, post, user, content, now);
      var p := s.posts[post];
      Ok((s.(comments := s.comments + [c], posts := s.posts[post := p.(commentCount := p.commentCount + 1)]), c))
  }

  lemma CreateCommentKeepsValid(s: Store, post: nat, user: nat, content: string, now: int)
    requires Valid(s) && IsLivePost(s, post)
    ensures Valid(CreateComment(s, post, user, content, now).value.0)
  {
    var (t, c) := CreateComment(s, post, user, content, now).value;
    forall q | 0 <= q < |t.posts|
      ensures t.posts[q].commentCount == LiveCommentsOn(t.comments, q)
    {
      LiveCommentsOnAppend(s.comments, c, q);
    }
    assert forall i :: 0 <= i < |t.posts| ==> t.posts[i].id == s.posts[i].id && FlagsAgree(t.posts[i]);
  }

  /** `update_comment`: not found for a missing or deleted comment, then a
      non-author is rejected, then a comment whose post is deleted; otherwise
      the content is replaced and the row saved. */
  function UpdateComment(s: Store, id: nat, user: nat, content: string, now: int): (r: Result<(Store, CM.Comment)>)
    requires CommentsKeyed(s)
    ensures !IsLiveComment(s, id) ==> r == Err(NotFound)
    ensures IsLiveComment(s, id) && s.comments[id].user != user ==> r == Err(Invalid(NotCommentAuthorEdit))
    ensures IsLiveComment(s, id) && s.comments[id].user == user && s.posts[s.comments[id].post].isDeleted ==>
      r == Err(Invalid(ParentPostDeleted))
    ensures IsLiveComment(s, id) && s.comments[id].user == user && !s.posts[s.comments[id].post].isDeleted ==> r.Ok?
    ensures r.Ok? ==> IsLiveComment(s, id) && |r.value.0.comments| == |s.comments| && r.value.0.comments[id] == r.value.1
    ensures r.Ok? ==> r.value.1.content == content && r.value.1.updatedAt == now
    ensures r.Ok? ==> r.value.1.(content := s.comments[id].content, updatedAt := s.comments[id].updatedAt) == s.comments[id]
    ensures r.Ok? ==> forall i :: 0 <= i < |s.comments| && i != id ==> r.value.0.comments[i] == s.comments[i]
    ensures r.Ok? ==> r.value.0.posts == s.posts && r.value.0.likes == s.likes && r.value.0.images == s.images
    ensures r.Ok? ==> r.value.0.nextImageId == s.nextImageId && r.value.0.nextLikeId == s.nextLikeId
  {
    if !IsLiveComment(s, id) then Err(NotFound)
    else
      var c := s.comments[id];
      if c.user != user then Err(Invalid(NotCommentAuthorEdit))
      else if s.posts[c.post].isDeleted then Err(Invalid(ParentPostDeleted))
      else
        var c' := c.(content := content, updatedAt := now);
        Ok((s.(comments := s.comments[id := c']), c'))
  }

  lemma UpdateCommentKeepsValid(s: Store, id: nat, user: nat, content: string, now: int)
    requires Valid(s)
    requires UpdateComment(s, id, user, content, now).Ok?
    ensures Valid(UpdateComment(s, id, user, content, now).value.0)
  {
    var (t, c) := UpdateComment(s, id, user, content, now).value;
    forall q | 0 <= q < |t.posts|
      ensures t.posts[q].commentCount == LiveCommentsOn(t.comments, q)
    {
      LiveCommentsOnUpdate(s.comments, id, c, q);
    }
  }

  /** `delete_comment` as written: the lookup `is_delete=False` names no field
      of `Comment`, so the ORM raises `FieldError` before reading a row, and
      the transaction changes nothing. */
  function DeleteCommentAsWritten(s: Store, id: nat, user: nat, now: int): (r: Result<Store>)
    ensures r == Err(FieldError)
  {
    Err(FieldError)
  }

  /** The author of a live comment cannot delete it through the code as
      written, although the intended deletion succeeds. */
  lemma AuthorCannotDeleteAsWritten(s: Store, id: nat, user: nat, now: int)
    requires Valid(s) && IsLiveComment(s, id) && s.comments[id].user == user
    ensures DeleteCommentAsWritten(s, id, user, now).Err?
    ensures DeleteComment(s, id, user, now).Ok?
  {
    LivePostCountPositive(s, id);
  }

  /** `delete_comment` with the lookup on `is_deleted`: not found for a
      missing or deleted comment, then a non-author is rejected; otherwise the
      post's `comment_count` drops by one (the database refuses a negative
      counter) and the comment is soft-deleted. The counter is written with
      `update()`, which touches no row when the post is gone and leaves the
      post's `updated_at` alone. */
  function DeleteComment(s: Store, id: nat, user: nat, now: int): (r: Result<Store>)
    ensures !IsLiveComment(s, id) ==> r == Err(NotFound)
    ensures IsLiveComment(s, id) && s.comments[id].user != user ==> r == Err(Invalid(NotCommentAuthorDelete))
    ensures (IsLiveComment(s, id) && s.comments[id].user == user && s.comments[id].post < |s.posts|
             && s.posts[s.comments[id].post].commentCount == 0) ==> r == Err(IntegrityError)
    ensures r.Ok? ==> IsLiveComment(s, id) && |r.value.comments| == |s.comments| && |r.value.posts| == |s.posts|
    ensures r.Ok? ==> r.value.comments[id] == CM.SoftDelete(s.comments[id], now).0
    ensures r.Ok? ==> forall i :: 0 <= i < |s.comments| && i != id ==> r.value.comments[i] == s.comments[i]
    ensures r.Ok? && s.comments[id].post < |s.posts| ==> var post := s.comments[id].post;
      && r.value.posts[post].commentCount + 1 == s.posts[post].commentCount
      && r.value.posts[post].(commentCount := s.posts[post].commentCount) == s.posts[post]
    ensures r.Ok? ==> forall i :: 0 <= i < |s.posts| && i != s.comments[id].post ==> r.value.posts[i] == s.posts[i]
    ensures r.Ok? ==> r.value.likes == s.likes && r.value.images == s.images
    ensures r.Ok? ==> r.value.nextImageId == s.nextImageId && r.value.nextLikeId == s.nextLikeId
  {
    if !IsLiveComment(s, id) then Err(NotFound)
    else
      var c := s.comments[id];
      if c.user != user then Err(Invalid(NotCommentAuthorDelete))
      else if c.post < |s.posts| && s.posts[c.post].commentCount == 0 then Err(IntegrityError)
      else
        var posts := if c.post < |s.posts| then
                       s.posts[c.post := s.posts[c.post].(commentCount := s.posts[c.post].commentCount - 1)]
                     else s.posts;
        Ok(s.(posts := posts, comments := s.comments[id := CM.SoftDelete(c, now).0]))
  }

  /** A live comment is counted on its post, so under the invariant the
      post's counter is positive. */
  lemma LivePostCountPositive(s: Store, id: nat)
    requires Valid(s) && IsLiveComment(s, id)
    ensures s.posts[s.comments[id].post].commentCount > 0
  {
    var c := s.comments[id];
    LiveCommentsOnUpdate(s.comments, id, c.(isDeleted := true), c.post);
  }

  /** The corrected delete keeps `comment_count` equal to the number of live
      comments, and under the invariant it fails only for a missing comment or
      a non-author. */
  lemma DeleteCommentKeepsValid(s: Store, id: nat, user: nat, now: int)
    requires Valid(s)
    ensures DeleteComment(s, id, user, now).Ok? <==> IsLiveComment(s, id) && s.comments[id].user == user
    ensures DeleteComment(s, id, user, now).Ok? ==> Valid(DeleteComment(s, id, user, now).value)
  {
    if IsLiveComment(s, id) && s.comments[id].user == user {
      LivePostCountPositive(s, id);
      var t := DeleteComment(s, id, user, now).value;
      var c := s.comments[id];
      var c' := CM.SoftDelete(c, now).0;
      assert t.comments == s.comments[id := c'];
      forall q | 0 <= q < |t.posts|
        ensures t.posts[q].commentCount == LiveCommentsOn(t.comments, q)
      {
        LiveCommentsOnUpdate(s.comments, id, c', q);
      }
      assert forall i :: 0 <= i < |t.posts| ==> t.posts[i].id == s.posts[i].id && FlagsAgree(t.posts[i]);
    }
  }

  /** A deleted comment cannot be deleted again, so its post is decremented
      once only. */
  lemma DeleteCommentTwiceNotFound(s: Store, id: nat, user: nat, other: nat, now: int, later: int)
    requires Valid(s)
    requires DeleteComment(s, id, user, now).Ok?
    ensures DeleteComment(DeleteComment(s, id, user, now).value, id, other, later) == Err(NotFound)
  {
    DeleteCommentKeepsValid(s, id, user, now);
  }

  /** Writing a comment and deleting it again leaves the post's
      `comment_count` where it was. */
  lemma CreateThenDeleteKeepsCount(s: Store, post: nat, user: nat, content: string, now: int, later: int)
    requires Valid(s) && IsLivePost(s, post)
    ensures var t := CreateComment(s, post, user, content, now).value.0;
      var r := DeleteComment(t, |s.comments|, user, later);
      r.Ok? && r.value.posts[post].commentCount == s.posts[post].commentCount
  {
    CreateCommentKeepsValid(s, post, user, content, now);
    var t := CreateComment(s, post, user, content, now).value.0;
    DeleteCommentKeepsValid(t, |s.comments|, user, later);
  }
}

/** `PostService` (posts/services.py): the post list query, the detail read
    with its view-count bump, create, update, soft delete and the like toggle,
    each as one transition of the `Store`.
 */
module PostService {
  import opened Outcomes
  import opened Text
  import opened Listing
  import opened PostModel
  import opened Tables

  /** Python truthiness of an optional query parameter: present and not empty. */
  predicate Given(o: Option<string>)
  {
    o.Some? && o.value != ""
  }

  // ----- listing -------------------------------------------------------------

  /** `validate_category`: a given category must be one of the stored
      category values; the value itself is passed through. */
  function ValidateCategory(category: Option<string>): (r: Result<Option<string>>)
    ensures r.Ok? ==> r.value == category
    ensures r.Err? ==> r.error == Invalid(UnknownCategory)
  {
    if Given(category) && ParseCategory(category.value).None? then Err(Invalid(UnknownCategory))
    else Ok(category)
  }

  /** The category check accepts exactly the absent or empty category and the
      eight stored values. */
  lemma ValidateCategoryAcceptsTheEight(category: Option<string>)
    ensures ValidateCategory(category).Ok? <==>
      !Given(category) || exists c: Category :: CategoryName(c) == category.value
  {
    if Given(category) {
      if c: Category :| CategoryName(c) == category.value {
        CategoryRoundTrip(c);
      }
    }
  }

  /** The filters of `get_post_list`: not deleted, in the category when one is
      given, and with the keyword in the title or the content (ignoring case)
      when one is given. */
  predicate Selected(p: Post, category: Option<string>, keyword: Option<string>)
  {
    && !p.isDeleted
    && (Given(category) ==> CategoryName(p.category) == category.value)
    && (Given(keyword) ==> IContains(p.title, keyword.value) || IContains(p.content, keyword.value))
  }

  /** The filtered queryset ordered by `-created_at`. */
  function Matching(s: Store, category: Option<string>, keyword: Option<string>): (r: seq<Post>)
    ensures NewestFirst(r, PostCreatedAt)
    ensures forall p :: multiset(r)[p] == if Selected(p, category, keyword) then multiset(s.posts)[p] else 0
  {
    SortNewestFirst(Filter(s.posts, p => Selected(p, category, keyword)), PostCreatedAt)
  }

  /** Every matching post is a stored post that the filters select. */
  lemma MatchingRows(s: Store, category: Option<string>, keyword: Option<string>)
    ensures forall p :: p in Matching(s, category, keyword) ==> p in s.posts && Selected(p, category, keyword)
  {
    var all := Matching(s, category, keyword);
    forall p | p in all
      ensures p in s.posts && Selected(p, category, keyword)
    {
      assert multiset(all)[p] > 0;
    }
  }

  /** `get_post_list`: an unknown category fails before anything is listed;
      otherwise the page is the slice `[offset, offset + limit)` of the
      matching posts, newest first, and the total counts every match whatever
      the slice. */
  function GetPostList(s: Store, category: Option<string>, keyword: Option<string>, offset: nat, limit: nat)
    : (r: Result<Listed<Post>>)
    ensures r.Err? <==> Given(category) && ParseCategory(category.value).None?
    ensures r.Err? ==> r.error == Invalid(UnknownCategory)
    ensures r.Ok? ==> r.value.totalCount == |Matching(s, category, keyword)|
    ensures r.Ok? ==>
      |r.value.items| == (if offset >= r.value.totalCount then 0 else Min(limit, r.value.totalCount - offset))
    ensures r.Ok? ==> (forall k :: 0 <= k < |r.value.items| ==>
      r.value.items[k] == Matching(s, category, keyword)[offset + k])
    ensures r.Ok? ==> forall p :: p in r.value.items ==> p in s.posts && Selected(p, category, keyword)
  {
    var _ :- ValidateCategory(category);
    var all := Matching(s, category, keyword);
    var page := Window(all, offset, limit);
    MatchingRows(s, category, keyword);
    Ok(Listed(page, |all|))
  }

  // ----- detail --------------------------------------------------------------

  /** `get_post_detail`: a missing or deleted post is not found; otherwise the
      stored view count goes up by one while the caller gets the row as it was
      read, before the increment. Nothing else is written. */
  function GetPostDetail(s: Store, id: nat): (r: Result<(Store, Post)>)
    ensures r.Err? <==> !IsLivePost(s, id)
    ensures r.Err? ==> r.error == NotFound
    ensures r.Ok? ==> r.value.1 == s.posts[id]
    ensures r.Ok? ==> OnlyPostChanged(s, r.value.0, id)
    ensures r.Ok? ==> r.value.0.posts[id].viewCount == s.posts[id].viewCount + 1
    ensures r.Ok? ==> r.value.0.posts[id].(viewCount := s.posts[id].viewCount) == s.posts[id]
  {
    if !IsLivePost(s, id) then Err(NotFound)
    else
      var p := s.posts[id];
      Ok((s.(posts := s.posts[id := p.(viewCount := p.viewCount + 1)]), p))
  }

  /** The view-count bump touches no counter the invariant constrains. */
  lemma GetPostDetailKeepsValid(s: Store, id: nat)
    requires Valid(s)
    requires GetPostDetail(s, id).Ok?
    ensures Valid(GetPostDetail(s, id).value.0)
  {
    var t := GetPostDetail(s, id).value.0;
    assert forall i :: 0 <= i < |t.posts| ==> t.posts[i].id == s.posts[i].id;
  }

  // ----- create --------------------------------------------------------------

  /** `_handle_images`: one new image row per file, numbered from `firstId`. */
  function ImageRows(post: nat, urls: seq<string>, firstId: nat, now: int): (r: seq<PostImage>)
    ensures |r| == |urls|
    ensures forall k :: 0 <= k < |r| ==> r[k].id == firstId + k && r[k].post == post && r[k].imageUrl == urls[k]
  {
    seq(|urls|, k requires 0 <= k < |urls| => PostImage(firstId + k, post, urls[k], now))
  }

  /** Adds the image rows of `urls` to post `post`; no files, no rows. */
  function AddImages(s: Store, post: nat, urls: seq<string>, now: int): (t: Store)
    ensures t.images == s.images + ImageRows(post, urls, s.nextImageId, now)
    ensures t.nextImageId == s.nextImageId + |urls|
    ensures t.posts == s.posts && t.likes == s.likes && t.nextLikeId == s.nextLikeId && t.comments == s.comments
  {
    s.(images := s.images + ImageRows(post, urls, s.nextImageId, now), nextImageId := s.nextImageId + |urls|)
  }

  /** `create_post`: a new post with the defaults of a fresh row, plus one
      image row per file. */
  function CreatePost(s: Store, user: nat, title: string, content: string, category: Category,
                      urls: seq<string>, now: int): (r: (Store, Post))
    ensures r.1.id == |s.posts| && r.1.user == user && r.1.title == title && r.1.content == content
    ensures r.1.category == category && r.1.status == Active && !r.1.isDeleted
    ensures r.1.viewCount == 0 && r.1.likeCount == 0 && r.1.commentCount == 0
    ensures r.0.posts == s.posts + [r.1]
    ensures |r.0.images| == |s.images| + |urls| && r.0.images[..|s.images|] == s.images
    ensures forall k :: 0 <= k < |urls| ==>
      r.0.images[|s.images| + k].post == r.1.id && r.0.images[|s.images| + k].imageUrl == urls[k]
    ensures r.0.images == s.images + ImageRows(r.1.id, urls, s.nextImageId, now)
    ensures r.0.nextImageId == s.nextImageId + |urls| && r.0.nextLikeId == s.nextLikeId
    ensures r.0.likes == s.likes && r.0.comments == s.comments
  {
    var p := NewPost(|s.posts|, user, title, content, category, now);
    (AddImages(s.(posts := s.posts + [p]), p.id, urls, now), p)
  }

  lemma CreatePostKeepsValid(s: Store, user: nat, title: string, content: string, category: Category,
                             urls: seq<string>, now: int)
    requires Valid(s)
    ensures Valid(CreatePost(s, user, title, content, category, urls, now).0)
  {
    var (t, p) := CreatePost(s, user, title, content, category, urls, now);
    var n := |s.posts|;
    LikesOnNone(s.likes, n);
    LiveCommentsOnNone(s.comments, n);
    assert t.posts[n] == p;
    var added := ImageRows(p.id, urls, s.nextImageId, now);
    assert forall i :: 0 <= i < |t.images| ==> t.images[i].post < |t.posts| && t.images[i].id < t.nextImageId by {
      forall i | 0 <= i < |t.images|
        ensures t.images[i].post < |t.posts| && t.images[i].id < t.nextImageId
      {
        if i >= |s.images| {
          assert t.images[i] == added[i - |s.images|];
        }
      }
    }
  }

  // ----- update --------------------------------------------------------------

  /** The rows `PostImage.objects.filter(post_id=post, id__in=ids).delete()`
      leaves behind. */
  function RemoveImages(images: seq<PostImage>, post: nat, ids: seq<nat>): (r: seq<PostImage>)
    ensures forall img :: img in r <==> img in images && !(img.post == post && img.id in ids)
  {
    var r := Filter(images, (img: PostImage) => !(img.post == post && img.id in ids));
    assert forall img :: img in r <==> img in multiset(r);
    r
  }

  /** `update_post`: not found, then not the owner; otherwise the supplied
      fields are set and the row saved, the new images are added, and the
      listed images of this post are removed. */
  function UpdatePost(s: Store, id: nat, user: nat, patch: PostPatch, urls: seq<string>,
                      removeIds: seq<nat>, now: int): (r: Result<(Store, Post)>)
    ensures !IsLivePost(s, id) ==> r == Err(NotFound)
    ensures IsLivePost(s, id) && s.posts[id].user != user ==> r == Err(PermissionDenied(NotPostAuthorEdit))
    ensures IsLivePost(s, id) && s.posts[id].user == user ==> r.Ok?
    ensures r.Ok? ==> IsLivePost(s, id) && |r.value.0.posts| == |s.posts| && r.value.1 == r.value.0.posts[id]
    ensures r.Ok? ==> r.value.1 == ApplyPatch(s.posts[id], patch).(updatedAt := now)
    ensures r.Ok? ==> forall i :: 0 <= i < |s.posts| && i != id ==> r.value.0.posts[i] == s.posts[i]
    ensures r.Ok? ==> r.value.0.likes == s.likes && r.value.0.comments == s.comments
    ensures r.Ok? ==> forall img :: img in r.value.0.images <==>
      (img in s.images || img in ImageRows(id, urls, s.nextImageId, now)) && !(img.post == id && img.id in removeIds)
    ensures r.Ok? ==> forall img :: img in s.images && img.post != id ==> img in r.value.0.images
    ensures r.Ok? ==> r.value.0.nextImageId == s.nextImageId + |urls| && r.value.0.nextLikeId == s.nextLikeId
  {
    if !IsLivePost(s, id) then Err(NotFound)
    else if s.posts[id].user != user then Err(PermissionDenied(NotPostAuthorEdit))
    else
      var p := ApplyPatch(s.posts[id], patch).(updatedAt := now);
      var s1 := AddImages(s.(posts := s.posts[id := p]), id, urls, now);
      Ok((s1.(images := RemoveImages(s1.images, id, removeIds)), p))
  }

  /** With nothing to change, an update only refreshes `updated_at`. */
  lemma EmptyUpdateOnlyTouches(s: Store, id: nat, user: nat, now: int)
    requires IsLivePost(s, id) && s.posts[id].user == user
    ensures var r := UpdatePost(s, id, user, PostPatch(None, None, None), [], [], now);
      r.Ok? && r.value.0 == s.(posts := s.posts[id := s.posts[id].(updatedAt := now)])
  {
    var r := UpdatePost(s, id, user, PostPatch(None, None, None), [], [], now);
    var t := r.value.0;
    assert t.images == s.images by {
      var kept := RemoveImages(s.images + [], id, []);
      assert s.images + [] == s.images;
      assert forall img :: img in kept <==> img in s.images;
      FilterNothing(s.images, (img: PostImage) => !(img.post == id && img.id in []));
    }
  }

  /** A filter that keeps every row returns the sequence itself. */
  lemma {:induction false} FilterNothing<T(!new)>(xs: seq<T>, keep: T -> bool)
    requires forall x :: x in xs ==> keep(x)
    ensures Filter(xs, keep) == xs
  {
    if |xs| > 0 {
      assert xs == [xs[0]] + xs[1..];
      FilterNothing(xs[1..], keep);
    }
  }

  lemma UpdatePostKeepsValid(s: Store, id: nat, user: nat, patch: PostPatch, urls: seq<string>,
                             removeIds: seq<nat>, now: int)
    requires Valid(s)
    requires UpdatePost(s, id, user, patch, urls, removeIds, now).Ok?
    ensures Valid(UpdatePost(s, id, user, patch, urls, removeIds, now).value.0)
  {
    var t := UpdatePost(s, id, user, patch, urls, removeIds, now).value.0;
    assert t.nextImageId == s.nextImageId + |urls| && t.nextLikeId == s.nextLikeId;
    KeptImagesReferencePosts(s, id, urls, now, t.images);
    assert t.posts[id].id == id && t.posts[id].isDeleted == s.posts[id].isDeleted;
    assert t.posts[id].status == s.posts[id].status;
    assert t.posts[id].likeCount == s.posts[id].likeCount && t.posts[id].commentCount == s.posts[id].commentCount;
  }

  /** Image rows drawn from the old rows and the new rows of a post point at
      existing posts and have ids below the advanced counter. */
  lemma KeptImagesReferencePosts(s: Store, id: nat, urls: seq<string>, now: int, images: seq<PostImage>)
    requires RowsReferencePosts(s) && id < |s.posts|
    requires forall img :: img in images ==> img in s.images || img in ImageRows(id, urls, s.nextImageId, now)
    ensures forall i :: 0 <= i < |images| ==> images[i].post < |s.posts| && images[i].id < s.nextImageId + |urls|
  {
    var added := ImageRows(id, urls, s.nextImageId, now);
    forall i | 0 <= i < |images|
      ensures images[i].post < |s.posts| && images[i].id < s.nextImageId + |urls|
    {
      var img := images[i];
      assert img in images;
      if img in s.images {
        var j :| 0 <= j < |s.images| && s.images[j] == img;
      } else {
        var j :| 0 <= j < |added| && added[j] == img;
      }
    }
  }

  // ----- delete --------------------------------------------------------------

  /** `delete_post`: not found, then a non-owner is rejected with a validation
      error (not a permission error); otherwise the post is soft-deleted. */
  function DeletePost(s: Store, id: nat, user: nat, now: int): (r: Result<Store>)
    ensures !IsLivePost(s, id) ==> r == Err(NotFound)
    ensures IsLivePost(s, id) && s.posts[id].user != user ==> r == Err(Invalid(NotPostAuthorDelete))
    ensures IsLivePost(s, id) && s.posts[id].user == user ==> r.Ok?
    ensures r.Ok? ==> OnlyPostChanged(s, r.value, id) && !IsLivePost(r.value, id)
    ensures r.Ok? ==> r.value.posts[id] == SoftDelete(s.posts[id], now).0
  {
    if !IsLivePost(s, id) then Err(NotFound)
    else if s.posts[id].user != user then Err(Invalid(NotPostAuthorDelete))
    else Ok(s.(posts := s.posts[id := SoftDelete(s.posts[id], now).0]))
  }

  /** A deleted post cannot be deleted again, by anyone. */
  lemma DeleteTwiceNotFound(s: Store, id: nat, user: nat, other: nat, now: int, later: int)
    requires DeletePost(s, id, user, now).Ok?
    ensures DeletePost(DeletePost(s, id, user, now).value, id, other, later) == Err(NotFound)
  {
  }

  lemma DeletePostKeepsValid(s: Store, id: nat, user: nat, now: int)
    requires Valid(s)
    requires DeletePost(s, id, user, now).Ok?
    ensures Valid(DeletePost(s, id, user, now).value)
  {
    var t := DeletePost(s, id, user, now).value;
    assert forall i :: 0 <= i < |t.posts| ==> t.posts[i].id == s.posts[i].id;
  }

  // ----- likes ---------------------------------------------------------------

  /** `toggle_like`: not found for a missing or deleted post. Without a like
      row for (post, user) it adds one, raises `like_count` and answers true;
      with one it removes it, lowers `like_count` and answers false, unless
      the counter is already 0, when the database's non-negative check fails
      and the transaction is rolled back. The post row is saved either way. */
  function ToggleLike(s: Store, id: nat, user: nat, now: int): (r: Result<(Store, bool)>)
    ensures r.Ok? ==> IsLivePost(s, id) && |r.value.0.posts| == |s.posts|
    ensures !IsLivePost(s, id) ==> r == Err(NotFound)
    ensures IsLivePost(s, id) && !Liked(s, id, user) ==>
      && r.Ok? && r.value.1
      && r.value.0.likes == s.likes + [PostLike(s.nextLikeId, id, user, now)]
      && r.value.0.posts[id].likeCount == s.posts[id].likeCount + 1
    ensures IsLivePost(s, id) && Liked(s, id, user) && s.posts[id].likeCount == 0 ==> r == Err(IntegrityError)
    ensures IsLivePost(s, id) && Liked(s, id, user) && s.posts[id].likeCount > 0 ==>
      && r.Ok? && !r.value.1
      && |r.value.0.likes| == |s.likes| - 1
      && multiset(r.value.0.likes) <= multiset(s.likes)
      && r.value.0.posts[id].likeCount == s.posts[id].likeCount - 1
    ensures r.Ok? ==> forall i :: 0 <= i < |s.posts| && i != id ==> r.value.0.posts[i] == s.posts[i]
    ensures r.Ok? ==>
      && r.value.0.posts[id].(likeCount := s.posts[id].likeCount, updatedAt := s.posts[id].updatedAt) == s.posts[id]
      && r.value.0.posts[id].updatedAt == now
    ensures r.Ok? ==> r.value.0.images == s.images && r.value.0.comments == s.comments
    ensures r.Ok? ==> r.value.0.nextImageId == s.nextImageId
    ensures r.Ok? ==> r.value.0.nextLikeId == s.nextLikeId + (if r.value.1 then 1 else 0)
  {
    if !IsLivePost(s, id) then Err(NotFound)
    else
      var p := s.posts[id];
      match FindLike(s.likes, id, user)
      case None =>
        var like := PostLike(s.nextLikeId, id, user, now);
        Ok((s.(likes := s.likes + [like], nextLikeId := s.nextLikeId + 1,
               posts := s.posts[id := p.(likeCount := p.likeCount + 1, updatedAt := now)]), true))
      case Some(i) =>
        if p.likeCount == 0 then Err(IntegrityError)
        else
          var rest := RemoveAt(s.likes, i);
          assert s.likes == s.likes[..i] + [s.likes[i]] + s.likes[i + 1..];
          assert multiset(s.likes) == multiset(rest) + multiset{s.likes[i]};
          Ok((s.(likes := rest, posts := s.posts[id := p.(likeCount := p.likeCount - 1, updatedAt := now)]), false))
  }

  /** Removing a row keeps the (post, user) pairs unique. */
  lemma LikesUniqueRemove(likes: seq<PostLike>, i: nat)
    requires i < |likes| && LikesUnique(likes)
    ensures LikesUnique(RemoveAt(likes, i))
  {
    var r := RemoveAt(likes, i);
    forall a, b | 0 <= a < b < |r|
      ensures r[a].post != r[b].post || r[a].user != r[b].user
    {
      var a' := if a < i then a else a + 1;
      var b' := if b < i then b else b + 1;
      assert r[a] == likes[a'] && r[b] == likes[b'];
    }
  }

  /** Under the invariant, a like row for the post means its counter is
      positive, so the decrement never meets the database check. */
  lemma LikedMeansPositive(s: Store, id: nat, user: nat)
    requires Valid(s) && id < |s.posts| && Liked(s, id, user)
    ensures s.posts[id].likeCount > 0
  {
    var i :| 0 <= i < |s.likes| && s.likes[i].post == id && s.likes[i].user == user;
    LikesOnRemove(s.likes, i, id);
  }

  /** The toggle keeps `like_count` equal to the number of like rows, keeps the
      (post, user) pairs unique, and under the invariant never fails with an
      integrity error. */
  lemma ToggleLikeKeepsValid(s: Store, id: nat, user: nat, now: int)
    requires Valid(s)
    ensures ToggleLike(s, id, user, now).Ok? <==> IsLivePost(s, id)
    ensures ToggleLike(s, id, user, now).Ok? ==> Valid(ToggleLike(s, id, user, now).value.0)
  {
    if Liked(s, id, user) && id < |s.posts| {
      LikedMeansPositive(s, id, user);
    }
    if IsLivePost(s, id) {
      if FindLike(s.likes, id, user).None? {
        LikeAddedKeepsValid(s, id, user, now);
      } else {
        LikeRemovedKeepsValid(s, id, user, now);
      }
    }
  }

  /** The adding half of `ToggleLikeKeepsValid`. */
  lemma LikeAddedKeepsValid(s: Store, id: nat, user: nat, now: int)
    requires Valid(s) && IsLivePost(s, id) && FindLike(s.likes, id, user).None?
    ensures Valid(ToggleLike(s, id, user, now).value.0)
  {
    var t := ToggleLike(s, id, user, now).value.0;
    var like := PostLike(s.nextLikeId, id, user, now);
    assert t.likes == s.likes + [like];
    assert PostsKeyed(t) by {
      assert forall i :: 0 <= i < |t.posts| ==> t.posts[i].id == s.posts[i].id && FlagsAgree(t.posts[i]);
    }
    forall q | 0 <= q < |t.posts|
      ensures t.posts[q].likeCount == LikesOn(t.likes, q)
    {
      LikesOnAppend(s.likes, like, q);
    }
  }

  /** The removing half of `ToggleLikeKeepsValid`. */
  lemma LikeRemovedKeepsValid(s: Store, id: nat, user: nat, now: int)
    requires Valid(s) && IsLivePost(s, id) && FindLike(s.likes, id, user).Some?
    ensures ToggleLike(s, id, user, now).Ok? ==> Valid(ToggleLike(s, id, user, now).value.0)
  {
    if ToggleLike(s, id, user, now).Ok? {
      var t := ToggleLike(s, id, user, now).value.0;
      var i := FindLike(s.likes, id, user).value;
      assert t.likes == RemoveAt(s.likes, i);
      assert PostsKeyed(t) by {
        assert forall j :: 0 <= j < |t.posts| ==> t.posts[j].id == s.posts[j].id && FlagsAgree(t.posts[j]);
      }
      forall q | 0 <= q < |t.posts|
        ensures t.posts[q].likeCount == LikesOn(t.likes, q)
      {
        LikesOnRemove(s.likes, i, q);
      }
      LikesUniqueRemove(s.likes, i);
    }
  }

  /** Under the invariant, the answer of the toggle is whether the user likes
      the post afterwards. */
  lemma ToggleLikeAnswersLiked(s: Store, id: nat, user: nat, now: int)
    requires Valid(s) && IsLivePost(s, id)
    ensures var r := ToggleLike(s, id, user, now);
      r.Ok? && (r.value.1 <==> Liked(r.value.0, id, user)) && (r.value.1 <==> !Liked(s, id, user))
  {
    var r := ToggleLike(s, id, user, now);
    ToggleLikeKeepsValid(s, id, user, now);
    var t := r.value.0;
    if r.value.1 {
      assert t.likes[|s.likes|].post == id && t.likes[|s.likes|].user == user;
    } else {
      var i := FindLike(s.likes, id, user).value;
      assert t.likes == RemoveAt(s.likes, i);
      if Liked(t, id, user) {
        assert false;
      }
    }
  }

  /** Removing the like row of one pair leaves every other pair's like as it
      was. */
  lemma RemovedLikeKeepsOthers(likes: seq<PostLike>, i: nat, post: nat, user: nat)
    requires i < |likes| && (likes[i].post != post || likes[i].user != user)
    ensures (exists j :: 0 <= j < |likes| && likes[j].post == post && likes[j].user == user) <==>
      (exists j :: 0 <= j < |RemoveAt(likes, i)| && RemoveAt(likes, i)[j].post == post && RemoveAt(likes, i)[j].user == user)
  {
    var r := RemoveAt(likes, i);
    if j :| 0 <= j < |likes| && likes[j].post == post && likes[j].user == user {
      var j' := if j < i then j else j - 1;
      assert r[j'] == likes[j];
    }
    if j :| 0 <= j < |r| && r[j].post == post && r[j].user == user {
      var j' := if j < i then j else j + 1;
      assert likes[j'] == r[j];
    }
  }

  /** Removing the like row of a pair and then appending a new row for the
      same pair leaves who likes what as it was. */
  lemma ReAddedLikeRestoresLiked(s: Store, t1: Store, t2: Store, i: nat, id: nat, user: nat, likeId: nat, at: int)
    requires i < |s.likes| && s.likes[i].post == id && s.likes[i].user == user
    requires t1.likes == RemoveAt(s.likes, i)
    requires t2.likes == t1.likes + [PostLike(likeId, id, user, at)]
    ensures forall q, u :: Liked(t2, q, u) <==> Liked(s, q, u)
  {
    forall q, u
      ensures Liked(t2, q, u) <==> Liked(s, q, u)
    {
      if q == id && u == user {
        assert t2.likes[|t1.likes|].post == q && t2.likes[|t1.likes|].user == u;
      } else {
        RemovedLikeKeepsOthers(s.likes, i, q, u);
        if Liked(t2, q, u) {
          var j :| 0 <= j < |t2.likes| && t2.likes[j].post == q && t2.likes[j].user == u;
          assert j < |t1.likes| && t1.likes[j] == t2.likes[j];
        }
        if Liked(t1, q, u) {
          var j :| 0 <= j < |t1.likes| && t1.likes[j].post == q && t1.likes[j].user == u;
          assert t2.likes[j] == t1.likes[j];
        }
      }
    }
  }

  /** Two toggles by the same user restore who likes what and every
      `like_count`; the second toggle gives the opposite answer. Only
      `updated_at` of the post and the next like id move on. */
  lemma ToggleTwiceRestores(s: Store, id: nat, user: nat, now: int, later: int)
    requires Valid(s) && IsLivePost(s, id)
    ensures var r1 := ToggleLike(s, id, user, now);
      r1.Ok? &&
      var r2 := ToggleLike(r1.value.0, id, user, later);
      && r2.Ok? && r2.value.1 == !r1.value.1
      && (forall q, u :: Liked(r2.value.0, q, u) <==> Liked(s, q, u))
      && |r2.value.0.posts| == |s.posts|
      && (forall q :: 0 <= q < |s.posts| && q != id ==> r2.value.0.posts[q] == s.posts[q])
      && r2.value.0.posts[id].(updatedAt := s.posts[id].updatedAt) == s.posts[id]
      && r2.value.0.images == s.images && r2.value.0.comments == s.comments
  {
    ToggleLikeKeepsValid(s, id, user, now);
    var t1 := ToggleLike(s, id, user, now).value.0;
    assert IsLivePost(t1, id);
    ToggleLikeKeepsValid(t1, id, user, later);
    ToggleLikeAnswersLiked(s, id, user, now);
    ToggleLikeAnswersLiked(t1, id, user, later);
    var t2 := ToggleLike(t1, id, user, later).value.0;
    if Liked(s, id, user) {
      // remove, then add back a row for the same pair
      var i := FindLike(s.likes, id, user).value;
      assert t1.likes == RemoveAt(s.likes, i);
      assert t2.likes == t1.likes + [PostLike(t1.nextLikeId, id, user, later)];
      ReAddedLikeRestoresLiked(s, t1, t2, i, id, user, t1.nextLikeId, later);
    } else {
      // add, then remove exactly the added row
      var n := |s.likes|;
      assert t1.likes == s.likes + [PostLike(s.nextLikeId, id, user, now)];
      var j := FindLike(t1.likes, id, user).value;
      assert j == n by {
        if j < n {
          assert false;
        }
      }
      assert t2.likes == RemoveAt(t1.likes, n);
      assert t2.likes == s.likes;
    }
  }
}

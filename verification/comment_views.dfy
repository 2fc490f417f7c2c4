/** The comment views (comments/views.py): the list endpoint with its
    pagination block, and the create and update endpoints, which look the
    post or comment up before the serializer runs and then call the service.

    The permission class of the list and create endpoints turns away an
    anonymous caller before the handler runs, so those endpoints receive the
    authenticated `User`; the update endpoint declares no permission class and
    receives any `Caller`.
 */
module CommentViews {
  import opened Outcomes
  import opened Accounts
  import opened Listing
  import opened PostModel
  import opened Tables
  import opened Pagination
  import CM = CommentModel
  import CommentService
  import CommentSerializers

  /** The body of a list response: the rows and the pagination block. */
  datatype CommentListResponse = CommentListResponse(data: seq<CM.Comment>, pagination: PageMeta)

  /** `CommentListView.get`: the pagination parameters are checked before the
      post is looked up; the page is the slice at `(page - 1) * limit`. */
  function ListComments(s: Store, post: nat, page: Option<string>, limit: Option<string>)
    : (r: Result<CommentListResponse>)
    ensures ValidatePaginationParams(page, limit).Err? ==> r == Err(ValidatePaginationParams(page, limit).error)
    ensures ValidatePaginationParams(page, limit).Ok? ==>
      (r.Err? <==> !IsLivePost(s, post))
    ensures ValidatePaginationParams(page, limit).Ok? && !IsLivePost(s, post) ==> r == Err(NotFound)
    ensures r.Ok? ==> var p := ValidatePaginationParams(page, limit).value;
      && r.value.data == CommentService.GetPostComments(s, post, Offset(p), p.limit).value.items
      && r.value.pagination == Meta(p, |CommentService.CommentsOf(s, post)|)
      && |r.value.data| <= p.limit
  {
    var p :- ValidatePaginationParams(page, limit);
    var listed :- CommentService.GetPostComments(s, post, Offset(p), p.limit);
    Ok(CommentListResponse(listed.items, Meta(p, listed.totalCount)))
  }

  /** `has_next` of a comment page says exactly that the following page has
      rows. */
  lemma CommentPagesChain(s: Store, post: nat, p: Paging)
    requires IsLivePost(s, post)
    ensures var all := CommentService.CommentsOf(s, post);
      var next := CommentService.GetPostComments(s, post, Offset(Paging(p.page + 1, p.limit)), p.limit);
      next.Ok? && (Meta(p, |all|).hasNext <==> |next.value.items| > 0)
  {
    HasNextIffNextPageNonEmpty(CommentService.CommentsOf(s, post), p);
  }

  /** `CommentCreateView.post`: a missing or deleted post is not found before
      the serializer runs; the serializer gets the request and the post; the
      service then writes the comment as the caller. */
  function CreateCommentView(s: Store, post: nat, u: User, content: string, now: int)
    : (r: Result<(Store, CM.Comment)>)
    ensures !IsLivePost(s, post) ==> r == Err(NotFound)
    ensures IsLivePost(s, post) && u.role !in CommentSerializers.CommentRoles ==> r == Err(Invalid(MembersOnly))
    ensures IsLivePost(s, post) && u.role in CommentSerializers.CommentRoles ==>
      r == CommentService.CreateComment(s, post, u.id, content, now) && r.Ok?
    ensures r.Ok? ==> r.value.0.comments == s.comments + [r.value.1] && r.value.1.user == u.id
  {
    if !IsLivePost(s, post) then Err(NotFound)
    else
      var _ :- CommentSerializers.ValidateCommentCreate(Some(Member(u)), Some(s.posts[post]), content);
      CommentService.CreateComment(s, post, u.id, content, now)
  }

  /** Through the view, the serializer's checks for a logged-out caller, a
      missing post and a deleted post never fire: the permission class and the
      lookup have settled them. */
  lemma CreateViewSkipsSettledChecks(s: Store, post: nat, u: User, content: string, now: int)
    ensures var r := CreateCommentView(s, post, u, content, now);
      r.Err? ==> r.error in {NotFound, Invalid(MembersOnly)}
  {
  }

  /** Creating through the view keeps the store valid. */
  lemma CreateCommentViewKeepsValid(s: Store, post: nat, u: User, content: string, now: int)
    requires Valid(s)
    ensures var r := CreateCommentView(s, post, u, content, now);
      r.Ok? ==> Valid(r.value.0)
  {
    if IsLivePost(s, post) {
      CommentService.CreateCommentKeepsValid(s, post, u.id, content, now);
    }
  }

  /** `CommentUpdateView.patch`: a missing or deleted comment is not found
      before the serializer runs; the serializer gets the comment and the
      request; the service then writes the new content as the caller. */
  function UpdateCommentView(s: Store, id: nat, caller: Caller, content: string, now: int)
    : (r: Result<(Store, CM.Comment)>)
    requires CommentsKeyed(s)
    ensures !IsLiveComment(s, id) ==> r == Err(NotFound)
    ensures IsLiveComment(s, id) && !IsUser(caller, s.comments[id].user) ==> r == Err(Invalid(NotCommentAuthorEdit))
    ensures IsLiveComment(s, id) && IsUser(caller, s.comments[id].user) && s.posts[s.comments[id].post].isDeleted ==>
      r == Err(Invalid(ParentPostDeleted))
    ensures IsLiveComment(s, id) && IsUser(caller, s.comments[id].user) && !s.posts[s.comments[id].post].isDeleted ==>
      r == CommentService.UpdateComment(s, id, caller.user.id, content, now) && r.Ok?
  {
    if !IsLiveComment(s, id) then Err(NotFound)
    else
      var c := s.comments[id];
      match CommentSerializers.ValidateCommentUpdate(Some((c, s.posts[c.post])), Some(caller), content)
      case Err(e) => Err(e)
      case Ok(_) =>
        match caller
        case Member(u) => CommentService.UpdateComment(s, id, u.id, content, now)
        case Anonymous => assert false; Err(KeyError)
  }

  /** For a logged-in caller the view answers exactly as the service does: the
      serializer checks nothing the service does not, and reports the same
      reasons. */
  lemma UpdateViewAgreesWithService(s: Store, id: nat, u: User, content: string, now: int)
    requires CommentsKeyed(s)
    ensures UpdateCommentView(s, id, Member(u), content, now) == CommentService.UpdateComment(s, id, u.id, content, now)
  {
  }

  /** Through the view, the serializer's checks for a missing instance and a
      deleted comment never fire: the lookup has settled them. */
  lemma UpdateViewSkipsSettledChecks(s: Store, id: nat, caller: Caller, content: string, now: int)
    requires CommentsKeyed(s)
    ensures var r := UpdateCommentView(s, id, caller, content, now);
      r.Err? ==> r.error in {NotFound, Invalid(NotCommentAuthorEdit), Invalid(ParentPostDeleted)}
  {
  }
}

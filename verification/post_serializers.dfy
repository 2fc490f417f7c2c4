/** The validation and update logic of the post serializers
    (posts/serializers.py).

    A serializer reads the request from its context; `request` is `None` when
    the caller built the serializer without one, and reading it then fails
    with `KeyError`.
 */
module PostSerializers {
  import opened Outcomes
  import opened Accounts
  import opened PostModel
  import opened Tables
  import PostService

  /** The fields of a new post after field-level validation. */
  datatype PostDraft = PostDraft(title: string, content: string, category: Category)

  /** The role that may write posts, compared case-sensitively. */
  const WorkshopRole: string := "WORKSHOP"

  /** `PostCreateSerializer.validate`: the request must come from a logged-in
      user, and then from one whose role is exactly `WORKSHOP`; the attributes
      pass through unchanged. */
  function ValidatePostCreate(request: Option<Caller>, attrs: PostDraft): (r: Result<PostDraft>)
    ensures request.None? ==> r == Err(KeyError)
    ensures request == Some(Anonymous) ==> r == Err(Invalid(LoginRequired))
    ensures request.Some? && request.value.Member? && request.value.user.role != WorkshopRole ==>
      r == Err(Invalid(WorkshopOnly))
    ensures r.Ok? <==> request.Some? && request.value.Member? && request.value.user.role == WorkshopRole
    ensures r.Ok? ==> r.value == attrs
  {
    match request
    case None => Err(KeyError)
    case Some(Anonymous) => Err(Invalid(LoginRequired))
    case Some(Member(u)) => if u.role != WorkshopRole then Err(Invalid(WorkshopOnly)) else Ok(attrs)
  }

  /** `PostUpdateSerializer.validate`: with an instance, the caller must be
      its owner; with none, the check does not run and the request is never
      read. */
  function ValidatePostUpdate(instance: Option<Post>, request: Option<Caller>, attrs: PostPatch): (r: Result<PostPatch>)
    ensures instance.None? ==> r == Ok(attrs)
    ensures instance.Some? && request.None? ==> r == Err(KeyError)
    ensures instance.Some? && request.Some? ==>
      (r.Ok? <==> IsUser(request.value, instance.value.user))
    ensures r.Err? && request.Some? ==> r.error == Invalid(NotPostAuthorEdit)
    ensures r.Ok? ==> r.value == attrs
  {
    match instance
    case None => Ok(attrs)
    case Some(p) =>
      match request
      case None => Err(KeyError)
      case Some(caller) => if !IsUser(caller, p.user) then Err(Invalid(NotPostAuthorEdit)) else Ok(attrs)
  }

  /** `PostUpdateSerializer.update`: a deleted post is refused; otherwise the
      supplied fields replace the old ones, the others keep their values, and
      the row is saved. */
  function UpdateInstance(instance: Post, patch: PostPatch, now: int): (r: Result<Post>)
    ensures r.Err? <==> instance.isDeleted
    ensures r.Err? ==> r.error == Invalid(PostDeleted)
    ensures r.Ok? ==> r.value.title == (if patch.title.Some? then patch.title.value else instance.title)
    ensures r.Ok? ==> r.value.content == (if patch.content.Some? then patch.content.value else instance.content)
    ensures r.Ok? ==> r.value.category == (if patch.category.Some? then patch.category.value else instance.category)
    ensures r.Ok? ==> r.value.updatedAt == now
    ensures r.Ok? ==>
      r.value.(title := instance.title, content := instance.content, category := instance.category,
               updatedAt := instance.updatedAt) == instance
  {
    if instance.isDeleted then Err(Invalid(PostDeleted))
    else
      Ok(instance.(title := if patch.title.Some? then patch.title.value else instance.title,
                   content := if patch.content.Some? then patch.content.value else instance.content,
                   category := if patch.category.Some? then patch.category.value else instance.category,
                   updatedAt := now))
  }

  /** The serializer's `update` and the service's `update_post` write the same
      row for the owner of a live post. */
  lemma UpdateInstanceAgreesWithService(s: Store, id: nat, user: nat, patch: PostPatch, now: int)
    requires IsLivePost(s, id) && s.posts[id].user == user
    ensures var r := PostService.UpdatePost(s, id, user, patch, [], [], now);
      r.Ok? && UpdateInstance(s.posts[id], patch, now) == Ok(r.value.1)
  {
  }

  /** `PostDetailSerializer.get_is_liked`: false for an anonymous caller,
      otherwise whether a like row exists for the post and the caller. */
  function IsLiked(s: Store, post: nat, request: Option<Caller>): (r: Result<bool>)
    ensures request.None? ==> r == Err(KeyError)
    ensures request == Some(Anonymous) ==> r == Ok(false)
    ensures request.Some? && request.value.Member? ==> r == Ok(Liked(s, post, request.value.user.id))
  {
    match request
    case None => Err(KeyError)
    case Some(Anonymous) => Ok(false)
    case Some(Member(u)) => Ok(Liked(s, post, u.id))
  }

  /** After a member toggles a like, `is_liked` reports the toggle's answer. */
  lemma IsLikedAfterToggle(s: Store, post: nat, u: User, now: int)
    requires Valid(s) && IsLivePost(s, post)
    ensures var r := PostService.ToggleLike(s, post, u.id, now);
      r.Ok? && IsLiked(r.value.0, post, Some(Member(u))) == Ok(r.value.1)
  {
    PostService.ToggleLikeAnswersLiked(s, post, u.id, now);
  }
}

/** The comment serializers (comments/serializers.py): who may write and edit
    a comment, the edit itself, and how a comment and its author are shown.

    As for posts, `request` is the request found in the serializer's context,
    `None` when none was passed.
 */
module CommentSerializers {
  import opened Outcomes
  import opened Accounts
  import opened PostModel
  import opened Tables
  import CM = CommentModel
  import CommentService

  /** The roles that may comment, compared case-sensitively. */
  const CommentRoles: set<string> := {"COMPANY", "WORKSHOP"}

  /** `CommentCreateSerializer.validate`: in this order, the caller must be
      logged in, must have a commenting role, the post must be in the context,
      and it must not be deleted. */
  function ValidateCommentCreate(request: Option<Caller>, post: Option<Post>, content: string): (r: Result<string>)
    ensures request.None? ==> r == Err(KeyError)
    ensures request == Some(Anonymous) ==> r == Err(Invalid(LoginRequired))
    ensures request.Some? && request.value.Member? && request.value.user.role !in CommentRoles ==>
      r == Err(Invalid(MembersOnly))
    ensures request.Some? && request.value.Member? && request.value.user.role in CommentRoles && post.None? ==>
      r == Err(Invalid(PostContextMissing))
    ensures (request.Some? && request.value.Member? && request.value.user.role in CommentRoles
             && post.Some? && post.value.isDeleted) ==> r == Err(Invalid(CommentPostDeleted))
    ensures r.Ok? <==>
      request.Some? && request.value.Member? && request.value.user.role in CommentRoles && post.Some? && !post.value.isDeleted
    ensures r.Err? && request.Some? && r.error != Invalid(CommentPostDeleted) ==>
      r.error in {Invalid(LoginRequired), Invalid(MembersOnly), Invalid(PostContextMissing)}
    ensures r.Ok? ==> r.value == content
  {
    match request
    case None => Err(KeyError)
    case Some(caller) =>
      if caller.Anonymous? then Err(Invalid(LoginRequired))
      else if caller.user.role !in CommentRoles then Err(Invalid(MembersOnly))
      else if post.None? then Err(Invalid(PostContextMissing))
      else if post.value.isDeleted then Err(Invalid(CommentPostDeleted))
      else Ok(content)
  }

  /** `CommentUpdateSerializer.validate` on a comment and its post: in this
      order, an instance must be given, the caller must be its author, the
      comment must not be deleted, and neither its post. */
  function ValidateCommentUpdate(instance: Option<(CM.Comment, Post)>, request: Option<Caller>, content: string)
    : (r: Result<string>)
    ensures instance.None? ==> r == Err(Invalid(CommentMissing))
    ensures instance.Some? && request.None? ==> r == Err(KeyError)
    ensures instance.Some? && request.Some? && !IsUser(request.value, instance.value.0.user) ==>
      r == Err(Invalid(NotCommentAuthorEdit))
    ensures instance.Some? && request.Some? && IsUser(request.value, instance.value.0.user) && instance.value.0.isDeleted ==>
      r == Err(Invalid(CommentDeleted))
    ensures (instance.Some? && request.Some? && IsUser(request.value, instance.value.0.user)
             && !instance.value.0.isDeleted && instance.value.1.isDeleted) ==> r == Err(Invalid(ParentPostDeleted))
    ensures r.Ok? <==>
      (instance.Some? && request.Some? && IsUser(request.value, instance.value.0.user)
       && !instance.value.0.isDeleted && !instance.value.1.isDeleted)
    ensures r.Ok? ==> r.value == content
  {
    match instance
    case None => Err(Invalid(CommentMissing))
    case Some((c, post)) =>
      match request
      case None => Err(KeyError)
      case Some(caller) =>
        if !IsUser(caller, c.user) then Err(Invalid(NotCommentAuthorEdit))
        else if c.isDeleted then Err(Invalid(CommentDeleted))
        else if post.isDeleted then Err(Invalid(ParentPostDeleted))
        else Ok(content)
  }

  /** `CommentUpdateSerializer.update`: the content, when supplied, replaces
      the old one; the row is saved. No other field changes. */
  function UpdateInstance(c: CM.Comment, content: Option<string>, now: int): (r: CM.Comment)
    ensures r.content == (if content.Some? then content.value else c.content)
    ensures r.updatedAt == now
    ensures r.id == c.id && r.post == c.post && r.user == c.user && r.status == c.status
    ensures r.isDeleted == c.isDeleted && r.createdAt == c.createdAt
  {
    c.(content := if content.Some? then content.value else c.content, updatedAt := now)
  }

  /** The serializer's `update` and the service's `update_comment` write the
      same row for the author of a live comment on a live post. */
  lemma UpdateInstanceAgreesWithService(s: Store, id: nat, user: nat, content: string, now: int)
    requires CommentsKeyed(s) && IsLiveComment(s, id) && s.comments[id].user == user
    requires !s.posts[s.comments[id].post].isDeleted
    ensures var r := CommentService.UpdateComment(s, id, user, content, now);
      r.Ok? && UpdateInstance(s.comments[id], Some(content), now) == r.value.1
  {
  }

  /** The author block of a rendered comment: id and role always; a company
      author adds the company name and a workshop author the workshop name,
      each possibly null. */
  datatype AuthorView = AuthorView(
    id: nat,
    role: string,
    companyName: Option<Option<string>>,
    workshopName: Option<Option<string>>)

  /** `CommentResponseSerializer.get_author`. */
  function AuthorOf(u: User): (a: AuthorView)
    ensures a.id == u.id && a.role == u.role
    ensures a.companyName.Some? <==> u.role == "COMPANY"
    ensures a.workshopName.Some? <==> u.role == "WORKSHOP"
    ensures a.companyName.Some? ==> a.companyName.value == u.companyName
    ensures a.workshopName.Some? ==> a.workshopName.value == u.workshopName
  {
    if u.role == "COMPANY" then AuthorView(u.id, u.role, Some(u.companyName), None)
    else if u.role == "WORKSHOP" then AuthorView(u.id, u.role, None, Some(u.workshopName))
    else AuthorView(u.id, u.role, None, None)
  }

  /** An author block never carries both names. */
  lemma AuthorHasAtMostOneName(u: User)
    ensures AuthorOf(u).companyName.None? || AuthorOf(u).workshopName.None?
  {
  }

  /** A comment as the response shows it. */
  datatype CommentView = CommentView(
    id: nat,
    content: string,
    author: AuthorView,
    isDeleted: bool,
    createdAt: int,
    updatedAt: int)

  /** The text shown in place of a deleted comment's content. */
  const DeletedCommentText: string := "삭제된 댓글입니다."

  /** `CommentResponseSerializer.to_representation`: a deleted comment shows
      the fixed text instead of its content; everything else is copied. */
  function Render(c: CM.Comment, author: User): (v: CommentView)
    requires author.id == c.user
    ensures v.content == if c.isDeleted then DeletedCommentText else c.content
    ensures v.id == c.id && v.isDeleted == c.isDeleted && v.createdAt == c.createdAt && v.updatedAt == c.updatedAt
    ensures v.author == AuthorOf(author)
  {
    var v := CommentView(c.id, c.content, AuthorOf(author), c.isDeleted, c.createdAt, c.updatedAt);
    if c.isDeleted then v.(content := DeletedCommentText) else v
  }

  /** Once soft-deleted, a comment renders as the fixed text while its stored
      content is kept. */
  lemma DeletedCommentIsMasked(c: CM.Comment, author: User, now: int)
    requires author.id == c.user
    ensures var d := CM.SoftDelete(c, now).0;
      Render(d, author).content == DeletedCommentText && d.content == c.content
  {
  }
}

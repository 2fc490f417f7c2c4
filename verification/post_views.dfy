/** The post views (posts/views.py): the list endpoint with its pagination
    block, the upload checks of `validate_images`, the ownership check of the
    images to remove, and the create and update endpoints that chain the
    serializer, the upload checks and the service.

    Authentication is outside the model: the update endpoint receives the id
    of the authenticated caller. Field-level serializer validation (required
    fields, lengths, choices) is assumed to have passed.
 */
module PostViews {
  import opened Outcomes
  import opened Accounts
  import opened PostModel
  import opened Tables
  import opened Pagination
  import PostService
  import PostSerializers

  // ----- list ----------------------------------------------------------------

  /** The body of a list response: the rows and the pagination block. */
  datatype PostListResponse = PostListResponse(data: seq<Post>, pagination: PageMeta)

  /** One validated page of the post list. */
  function PostPage(s: Store, p: Paging, category: Option<string>, search: Option<string>)
    : (r: Result<PostListResponse>)
    ensures r.Err? <==> PostService.ValidateCategory(category).Err?
    ensures r.Err? ==> r.error == Invalid(UnknownCategory)
    ensures r.Ok? ==> r.value.pagination.totalCount == |PostService.Matching(s, category, search)|
    ensures r.Ok? ==> r.value.pagination == Meta(p, |PostService.Matching(s, category, search)|)
    ensures r.Ok? ==> r.value.data == PostService.GetPostList(s, category, search, Offset(p), p.limit).value.items
    ensures r.Ok? ==> |r.value.data| <= p.limit
  {
    match PostService.GetPostList(s, category, search, Offset(p), p.limit)
    case Err(e) => Err(e)
    case Ok(listed) =>
      Ok(PostListResponse(listed.items, Meta(p, listed.totalCount)))
  }

  /** `PostListView.get`: the pagination parameters are checked before the
      category, so a bad page or limit is reported even with an unknown
      category. */
  function ListPosts(s: Store, page: Option<string>, limit: Option<string>,
                     category: Option<string>, search: Option<string>): (r: Result<PostListResponse>)
    ensures ValidatePaginationParams(page, limit).Err? ==> r == Err(ValidatePaginationParams(page, limit).error)
    ensures ValidatePaginationParams(page, limit).Ok? ==> r == PostPage(s, ValidatePaginationParams(page, limit).value, category, search)
  {
    var p :- ValidatePaginationParams(page, limit);
    PostPage(s, p, category, search)
  }

  /** `has_next` of a page says exactly that the following page has rows. */
  lemma PostPagesChain(s: Store, p: Paging, category: Option<string>, search: Option<string>)
    requires PostService.ValidateCategory(category).Ok?
    ensures var here := PostPage(s, p, category, search);
      var next := PostPage(s, Paging(p.page + 1, p.limit), category, search);
      here.Ok? && next.Ok? && (here.value.pagination.hasNext <==> |next.value.data| > 0)
  {
    var all := PostService.Matching(s, category, search);
    HasNextIffNextPageNonEmpty(all, p);
  }

  // ----- uploads -------------------------------------------------------------

  const MaxImageSize: nat := 5 * 1024 * 1024
  const MaxImageCount: nat := 10
  const AllowedImageTypes: set<string> := {"image/jpeg", "image/png", "image/gif"}

  /** An uploaded file as the checks see it: its size and content type when
      the object has them, and whether the image library can decode it. */
  datatype Upload = Upload(name: string, size: Option<nat>, contentType: Option<string>, decodes: bool)

  /** The first check one file fails, in the order size present, size within
      5 MiB, allowed type, decodable. */
  function ImageFault(f: Upload): (r: Option<Reason>)
    ensures r.None? <==>
      f.size.Some? && f.size.value <= MaxImageSize && f.contentType.Some? && f.contentType.value in AllowedImageTypes
      && f.decodes
    ensures f.size.None? ==> r == Some(InvalidImageFile)
    ensures f.size.Some? && f.size.value > MaxImageSize ==> r == Some(ImageTooLarge)
    ensures (f.size.Some? && f.size.value <= MaxImageSize
             && (f.contentType.None? || f.contentType.value !in AllowedImageTypes)) ==> r == Some(ImageTypeNotAllowed)
    ensures r.Some? ==> r.value in {InvalidImageFile, ImageTooLarge, ImageTypeNotAllowed, CorruptedImage}
  {
    if f.size.None? then Some(InvalidImageFile)
    else if f.size.value > MaxImageSize then Some(ImageTooLarge)
    else if f.contentType.None? || f.contentType.value !in AllowedImageTypes then Some(ImageTypeNotAllowed)
    else if !f.decodes then Some(CorruptedImage)
    else None
  }

  /** The fault of the first file that has one. */
  function FirstFault(files: seq<Upload>): (r: Option<Reason>)
    ensures r.None? <==> forall i :: 0 <= i < |files| ==> ImageFault(files[i]).None?
    ensures r.Some? ==>
      exists i :: 0 <= i < |files| && ImageFault(files[i]) == r && (forall j :: 0 <= j < i ==> ImageFault(files[j]).None?)
  {
    if |files| == 0 then None
    else if ImageFault(files[0]).Some? then ImageFault(files[0])
    else
      var r := FirstFault(files[1..]);
      assert forall i :: 1 <= i < |files| ==> files[1..][i - 1] == files[i];
      if r.Some? then
        var i :| 0 <= i < |files[1..]| && ImageFault(files[1..][i]) == r &&
          (forall j :: 0 <= j < i ==> ImageFault(files[1..][j]).None?);
        assert ImageFault(files[i + 1]) == r;
        r
      else r
  }

  /** What `validate_images` answers: no files pass as they are, more than ten
      are refused before any file is looked at, and otherwise the first faulty
      file decides. */
  function ImagesVerdict(files: seq<Upload>): (r: Result<seq<Upload>>)
    ensures |files| == 0 ==> r == Ok(files)
    ensures |files| > MaxImageCount ==> r == Err(Invalid(TooManyImages))
    ensures r.Ok? <==> |files| <= MaxImageCount && forall i :: 0 <= i < |files| ==> ImageFault(files[i]).None?
    ensures r.Ok? ==> r.value == files
  {
    if |files| == 0 then Ok(files)
    else if |files| > MaxImageCount then Err(Invalid(TooManyImages))
    else match FirstFault(files)
      case None => Ok(files)
      case Some(why) => Err(Invalid(why))
  }

  /** `PostCreateView.validate_images`, file by file. The running total of the
      sizes that the source keeps is never read, so it is not kept here. */
  method ValidateImages(files: seq<Upload>) returns (r: Result<seq<Upload>>)
    ensures r == ImagesVerdict(files)
  {
    if |files| == 0 {
      return Ok(files);
    }
    if |files| > MaxImageCount {
      return Err(Invalid(TooManyImages));
    }
    var i := 0;
    while i < |files|
      invariant 0 <= i <= |files|
      invariant FirstFault(files[i..]) == FirstFault(files)
    {
      var f := files[i];
      assert files[i..][0] == f && files[i..][1..] == files[i + 1..];
      if f.size.None? {
        return Err(Invalid(InvalidImageFile));
      }
      if f.size.value > MaxImageSize {
        return Err(Invalid(ImageTooLarge));
      }
      if f.contentType.None? || f.contentType.value !in AllowedImageTypes {
        return Err(Invalid(ImageTypeNotAllowed));
      }
      if !f.decodes {
        return Err(Invalid(CorruptedImage));
      }
      i := i + 1;
    }
    assert files[i..] == [];
    return Ok(files);
  }

  /** The uploads' file names, which the model takes as the stored image
      URLs. */
  function Names(files: seq<Upload>): (r: seq<string>)
    ensures |r| == |files| && forall i :: 0 <= i < |files| ==> r[i] == files[i].name
  {
    seq(|files|, i requires 0 <= i < |files| => files[i].name)
  }

  /** An image row of `post` with the given id exists. */
  predicate HasImage(s: Store, post: nat, id: nat)
  {
    exists i :: 0 <= i < |s.images| && s.images[i].post == post && s.images[i].id == id
  }

  /** `PostUpdateView.validate_image_operations`: every id to remove must name
      an image of this post. */
  function ValidateImageOperations(s: Store, post: nat, removeIds: seq<nat>): (r: Result<()>)
    ensures r.Ok? <==> forall k :: 0 <= k < |removeIds| ==> HasImage(s, post, removeIds[k])
    ensures r.Err? ==> r.error == Invalid(InvalidImageIds)
  {
    if exists k :: 0 <= k < |removeIds| && !HasImage(s, post, removeIds[k]) then Err(Invalid(InvalidImageIds))
    else Ok(())
  }

  // ----- create --------------------------------------------------------------

  /** The create endpoint for the request's caller, with `passContext`
      saying whether the serializer is given the request: serializer
      validation, then the uploads, then the service. */
  function CreatePostWithContext(s: Store, caller: Caller, passContext: bool,
                                 draft: PostSerializers.PostDraft, files: seq<Upload>, now: int)
    : (r: Result<(Store, Post)>)
    ensures var request := if passContext then Some(caller) else None;
      PostSerializers.ValidatePostCreate(request, draft).Err? ==>
        r == Err(PostSerializers.ValidatePostCreate(request, draft).error)
    ensures passContext && caller.Member? && caller.user.role == PostSerializers.WorkshopRole ==>
      (r.Ok? <==> ImagesVerdict(files).Ok?) && (r.Err? ==> r == Err(ImagesVerdict(files).error))
    ensures r.Ok? ==>
      && caller.Member? && ImagesVerdict(files).Ok?
      && r.value == PostService.CreatePost(s, caller.user.id, draft.title, draft.content, draft.category, Names(files), now)
  {
    var _ :- PostSerializers.ValidatePostCreate(if passContext then Some(caller) else None, draft);
    var accepted :- ImagesVerdict(files);
    match caller
    case Member(u) => Ok(PostService.CreatePost(s, u.id, draft.title, draft.content, draft.category, Names(accepted), now))
    case Anonymous => assert false; Err(KeyError)
  }

  /** `PostCreateView.post` as written: the serializer is built without a
      context, so its `validate` fails reading the request. */
  function CreatePostViewAsWritten(s: Store, caller: Caller, draft: PostSerializers.PostDraft,
                                   files: seq<Upload>, now: int): (r: Result<(Store, Post)>)
    ensures r == Err(KeyError)
  {
    CreatePostWithContext(s, caller, false, draft, files, now)
  }

  /** `PostCreateView.post` with the request passed in the serializer's
      context: anonymous callers and non-workshop roles are refused, then
      faulty uploads; otherwise the post is created. */
  function CreatePostView(s: Store, caller: Caller, draft: PostSerializers.PostDraft,
                          files: seq<Upload>, now: int): (r: Result<(Store, Post)>)
    ensures caller.Anonymous? ==> r == Err(Invalid(LoginRequired))
    ensures caller.Member? && caller.user.role != PostSerializers.WorkshopRole ==> r == Err(Invalid(WorkshopOnly))
    ensures caller.Member? && caller.user.role == PostSerializers.WorkshopRole ==>
      (r.Ok? <==> ImagesVerdict(files).Ok?)
    ensures r.Ok? ==> caller.Member? && r.value.1.user == caller.user.id && r.value.0.posts == s.posts + [r.value.1]
  {
    CreatePostWithContext(s, caller, true, draft, files, now)
  }

  /** A workshop member's well-formed post is refused by the endpoint as
      written and accepted once the context is passed. */
  lemma WorkshopPostRefusedAsWritten(s: Store, u: User, draft: PostSerializers.PostDraft, now: int)
    requires u.role == "WORKSHOP"
    ensures CreatePostViewAsWritten(s, Member(u), draft, [], now) == Err(KeyError)
    ensures CreatePostView(s, Member(u), draft, [], now).Ok?
  {
  }

  // ----- update --------------------------------------------------------------

  /** `PostUpdateView.patch`: the serializer gets no instance, so its owner
      check passes without running (`ValidatePostUpdate` with no instance);
      then the ids to remove are checked, then the new uploads, and only then
      does the service look the post up and check the owner. */
  function UpdatePostView(s: Store, id: nat, user: nat, patch: PostPatch, files: seq<Upload>,
                          removeIds: seq<nat>, now: int): (r: Result<(Store, Post)>)
    ensures ValidateImageOperations(s, id, removeIds).Err? ==> r == Err(Invalid(InvalidImageIds))
    ensures ValidateImageOperations(s, id, removeIds).Ok? && ImagesVerdict(files).Err? ==>
      r == Err(ImagesVerdict(files).error)
    ensures ValidateImageOperations(s, id, removeIds).Ok? && ImagesVerdict(files).Ok? ==>
      r == PostService.UpdatePost(s, id, user, patch, Names(files), removeIds, now)
  {
    var _ :- ValidateImageOperations(s, id, removeIds);
    var accepted :- ImagesVerdict(files);
    PostService.UpdatePost(s, id, user, patch, Names(accepted), removeIds, now)
  }

  /** Because the image ids are checked first, updating a post that does not
      exist with images to remove reports bad image ids, not "not found". */
  lemma MissingPostReportsImageIds(s: Store, id: nat, user: nat, patch: PostPatch, files: seq<Upload>,
                                   removeIds: seq<nat>, now: int)
    requires Valid(s) && id >= |s.posts| && |removeIds| > 0
    ensures UpdatePostView(s, id, user, patch, files, removeIds, now) == Err(Invalid(InvalidImageIds))
  {
    assert !HasImage(s, id, removeIds[0]);
  }
}

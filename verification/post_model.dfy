/** The rows of the posts app: `Post`, `PostImage` and `PostLike`
    (posts/models.py), and the soft delete that `Post.delete` performs
    instead of removing the row.

    Timestamps are plain integers supplied by the caller: `created_at` is set
    when a row is created and `updated_at` whenever `save()` writes the row.
 */
module PostModel {
  import opened Outcomes

  datatype Status = Active | Hidden | Deleted

  /** The eight fixed post categories. */
  datatype Category = Balloon | Gift | Wood | Diffuser | Resin | Rattan | Flower | Total

  /** The stored value of a category. */
  function CategoryName(c: Category): string
  {
    match c
    case Balloon => "BALLOON"
    case Gift => "GIFT"
    case Wood => "WOOD"
    case Diffuser => "DIFFUSER"
    case Resin => "RESIN"
    case Rattan => "RATTAN"
    case Flower => "FLOWER"
    case Total => "TOTAL"
  }

  /** Looks a stored value up among the category choices (case-sensitive). */
  function ParseCategory(s: string): (r: Option<Category>)
    ensures r.Some? ==> CategoryName(r.value) == s
  {
    if s == "BALLOON" then Some(Balloon)
    else if s == "GIFT" then Some(Gift)
    else if s == "WOOD" then Some(Wood)
    else if s == "DIFFUSER" then Some(Diffuser)
    else if s == "RESIN" then Some(Resin)
    else if s == "RATTAN" then Some(Rattan)
    else if s == "FLOWER" then Some(Flower)
    else if s == "TOTAL" then Some(Total)
    else None
  }

  /** Every category is recognised by its stored value, so the choices are
      exactly the eight names. */
  lemma CategoryRoundTrip(c: Category)
    ensures ParseCategory(CategoryName(c)) == Some(c)
  {
  }

  datatype Post = Post(
    id: nat,
    user: nat,
    title: string,
    content: string,
    category: Category,
    viewCount: nat,
    likeCount: nat,
    commentCount: nat,
    status: Status,
    isDeleted: bool,
    createdAt: int,
    updatedAt: int)

  datatype PostImage = PostImage(id: nat, post: nat, imageUrl: string, createdAt: int)

  /** One row per (post, user) pair that likes the post. */
  datatype PostLike = PostLike(id: nat, post: nat, user: nat, createdAt: int)

  /** Fields of an edit; `None` marks a key the request did not supply. */
  datatype PostPatch = PostPatch(title: Option<string>, content: Option<string>, category: Option<Category>)

  function PostCreatedAt(p: Post): int
  {
    p.createdAt
  }

  /** The soft-delete flag and the status agree. */
  predicate FlagsAgree(p: Post)
  {
    p.isDeleted <==> p.status == Deleted
  }

  /** `Post.objects.create(...)`: the field defaults of a new row. */
  function NewPost(id: nat, user: nat, title: string, content: string, category: Category, now: int): (p: Post)
    ensures p.id == id && p.user == user && p.title == title && p.content == content && p.category == category
    ensures p.status == Active && !p.isDeleted && FlagsAgree(p)
    ensures p.viewCount == 0 && p.likeCount == 0 && p.commentCount == 0
    ensures p.createdAt == now && p.updatedAt == now
  {
    Post(id, user, title, content, category, 0, 0, 0, Active, false, now, now)
  }

  /** `Post.delete`: marks the row deleted and saves it, which also refreshes
      `updated_at`; it reports one affected row. */
  function SoftDelete(p: Post, now: int): (r: (Post, nat))
    ensures r.0.isDeleted && r.0.status == Deleted && FlagsAgree(r.0)
    ensures r.0.updatedAt == now
    ensures r.0.id == p.id && r.0.user == p.user && r.0.title == p.title && r.0.content == p.content
    ensures r.0.category == p.category && r.0.createdAt == p.createdAt
    ensures r.0.viewCount == p.viewCount && r.0.likeCount == p.likeCount && r.0.commentCount == p.commentCount
    ensures r.1 == 1
  {
    (p.(isDeleted := true, status := Deleted, updatedAt := now), 1)
  }

  /** Deleting a deleted post leaves it as it was, up to `updated_at`. */
  lemma SoftDeleteIdempotent(p: Post, now: int, later: int)
    ensures SoftDelete(SoftDelete(p, now).0, later).0 == SoftDelete(p, later).0
  {
  }

  /** Sets the supplied fields and keeps the others. */
  function ApplyPatch(p: Post, patch: PostPatch): (r: Post)
    ensures r.title == (if patch.title.Some? then patch.title.value else p.title)
    ensures r.content == (if patch.content.Some? then patch.content.value else p.content)
    ensures r.category == (if patch.category.Some? then patch.category.value else p.category)
    ensures r.(title := p.title, content := p.content, category := p.category) == p
  {
    var p1 := if patch.title.Some? then p.(title := patch.title.value) else p;
    var p2 := if patch.content.Some? then p1.(content := patch.content.value) else p1;
    if patch.category.Some? then p2.(category := patch.category.value) else p2
  }
}

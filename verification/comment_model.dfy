/** The `Comment` row (comments/models.py) and its soft delete. */
module CommentModel {

  datatype Status = Active | Hidden | Deleted

  datatype Comment = Comment(
    id: nat,
    post: nat,
    user: nat,
    content: string,
    status: Status,
    isDeleted: bool,
    createdAt: int,
    updatedAt: int)

  function CommentCreatedAt(c: Comment): int
  {
    c.createdAt
  }

  /** The soft-delete flag and the status agree. */
  predicate FlagsAgree(c: Comment)
  {
    c.isDeleted <==> c.status == Deleted
  }

  /** `Comment.objects.create(...)`: a new comment is active and not deleted. */
  function NewComment(id: nat, post: nat, user: nat, content: string, now: int): (c: Comment)
    ensures c.id == id && c.post == post && c.user == user && c.content == content
    ensures c.status == Active && !c.isDeleted && FlagsAgree(c)
    ensures c.createdAt == now && c.updatedAt == now
  {
    Comment(id, post, user, content, Active, false, now, now)
  }

  /** `Comment.delete`: marks the row deleted and saves it (refreshing
      `updated_at`) without removing it; it reports one affected row. */
  function SoftDelete(c: Comment, now: int): (r: (Comment, nat))
    ensures r.0.isDeleted && r.0.status == Deleted && FlagsAgree(r.0)
    ensures r.0.id == c.id && r.0.post == c.post && r.0.user == c.user && r.0.content == c.content
    ensures r.0.createdAt == c.createdAt && r.0.updatedAt == now
    ensures r.1 == 1
  {
    (c.(isDeleted := true, status := Deleted, updatedAt := now), 1)
  }

  /** A second soft delete changes nothing beyond the timestamp. */
  lemma SoftDeleteIdempotent(c: Comment, now: int, later: int)
    ensures SoftDelete(SoftDelete(c, now).0, later).0 == SoftDelete(c, later).0
  {
  }
}

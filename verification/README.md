# A model of the posts, comments, inquiries and sign-up core

This project models the core of a community back end written with Django and
Django REST framework. In the back end, workshops publish posts with images,
and companies and workshops comment on them and like them. Visitors send
contact inquiries, and users sign up with a role. The model covers these
parts:

- **Store.** The post, image, like and comment tables are an immutable
  `Tables.Store`. Every service call is a pure transition on it.
- **Invariant.** `Tables.Valid` says that rows are keyed by their ids, that
  images, likes and comments reference posts, that at most one like exists per
  (post, user), and that every post's `like_count` and `comment_count`
  equal the number of its like rows and live comments.
- **Soft delete.** A delete sets `is_deleted` and status `DELETED` and keeps
  the row.
- **Guard chains.** Every check the services, serializers and views make,
  kept in the order the code makes them. The outcome is a
  `Outcomes.Result`, so the first failing check decides the error:
  - `NotFound` is the 404 that `get_object_or_404` raises;
  - `Invalid(reason)` and `PermissionDenied(reason)` are DRF's
    `ValidationError` (400) and `PermissionDenied` (403);
  - `IntegrityError`, `FieldError` and `KeyError` are the uncaught Python and
    database exceptions (500) the code can raise.
- **Offset pagination** of the post and comment lists, with its parameter
  checks and its metadata block.
- **Input validators:** the inquiry serializer with its phone pattern, the
  sign-up and password-change serializers, and the post and comment role
  checks.

The modules follow the repository's files:

| module | file |
|---|---|
| `Outcomes` | error and result types |
| `Text` | ASCII character classes and case-insensitive substring search |
| `PyInt` | Python's `int(str)` |
| `Listing` | ordering, filtering and slicing |
| `Pagination` | the pagination checks and metadata in posts/views.py and comments/views.py |
| `PostModel` | posts/models.py |
| `CommentModel` | comments/models.py |
| `Accounts` | users/models.py |
| `Tables` | the database tables and the invariant |
| `PostService` | posts/services.py |
| `CommentService` | comments/services.py |
| `PostSerializers` | posts/serializers.py |
| `CommentSerializers` | comments/serializers.py |
| `PostViews` | posts/views.py |
| `CommentViews` | comments/views.py |
| `Inquiries` | contacts/serializers.py |
| `UserSerializers` | users/serializers.py |

Other inputs become parameters:

- The clock is an `int` parameter `now`.
- The authenticated user is a `Caller` (`Anonymous` or `Member(user)`).
- Django's password validators are a predicate `strong`, and its password
  hasher is a function `hash`.
- Whether the image library can decode an upload is a flag on the upload.

## Model

| member | source | states |
|---|---|---|
| PostModel.ParseCategory | posts/models.py:25-33 | a parsed category's name is the text parsed |
| PostModel.CategoryRoundTrip | posts/models.py:25-33 | each of the eight categories is recovered from its stored name |
| PostModel.NewPost | posts/models.py:50-59 | a new post is active, not deleted, with all three counters at zero and both timestamps at creation time |
| PostModel.SoftDelete | posts/models.py:82-93 | `Post.delete` marks the row deleted with status DELETED, refreshes `updated_at`, keeps every other field, and reports one row |
| PostModel.SoftDeleteIdempotent | posts/models.py:82-93 | deleting a deleted post again changes nothing but the timestamp |
| PostModel.ApplyPatch | posts/services.py:110-112 | each supplied field replaces the stored one; omitted fields and all other fields are kept |
| CommentModel.NewComment | comments/models.py:20-42 | a new comment is active, not deleted, and stamped with the creation time |
| CommentModel.SoftDelete | comments/models.py:58-68 | `Comment.delete` sets `is_deleted` and status DELETED and keeps content, post and author |
| CommentModel.SoftDeleteIdempotent | comments/models.py:58-68 | deleting twice equals deleting once, up to the timestamp |
| Tables.Empty | posts/models.py:137-140 | the empty database satisfies the invariant, including the unique (post, user) like constraint |
| Tables.FindLike | posts/services.py:162-166 | the like lookup finds the row of that (post, user), or reports that none exists |
| Text.Contains | posts/services.py:42-43 | substring search answers exactly whether the needle occurs at some position |
| Text.IContains | posts/services.py:42-43 | `icontains` is substring search after ASCII lower-casing |
| Text.IContainsIgnoresCase | posts/services.py:42-43 | the keyword search gives the same answer on lower-cased text and keyword |
| PyInt.ParseFormatRoundTrip | posts/views.py:32-33 | `int()` reads back every integer from its decimal text |
| PyInt.ParsedHasDigit | posts/views.py:32-33 | text that `int()` accepts contains a digit |
| Pagination.ValidatePaginationParams | posts/views.py:29-50 | an accepted page is at least 1 and an accepted limit lies in 1..50; missing or empty parameters default to page 1 and limit 10; a non-numeric page, or a numeric page with a non-numeric limit, is rejected as non-numeric; every failure is a validation error |
| Pagination.NumericParamsVerdict | posts/views.py:29-50 | for numeric parameters the verdict is: page below 1, then limit below 1, then limit above 50, otherwise accepted unchanged |
| Pagination.NonNumericPageRejected | posts/views.py:49-50 | a page with no digit is rejected as non-numeric, whatever the limit |
| Pagination.NonNumericLimitRejected | posts/views.py:49-50 | a numeric page with a limit that has no digit is rejected as non-numeric |
| Pagination.ConsecutivePagesAdjoin | posts/views.py:57 | page p+1 starts exactly where page p ends, and only page 1 starts at offset 0 |
| Pagination.Meta | posts/views.py:86-97 | `total_pages` is the least page count covering the total; `has_next` holds iff a later page exists; `has_previous` holds iff the page does not start at offset 0 |
| Pagination.CeilingDivision | posts/views.py:90 | `(total + limit - 1) // limit` is the ceiling of `total / limit` |
| Pagination.HasNextMeansLaterPage | posts/views.py:93 | `page * limit < total` iff `page < total_pages` |
| Pagination.HasNextIffNextPageNonEmpty | posts/views.py:93 | `has_next` is true exactly when the slice for the next page is non-empty |
| Pagination.EveryRowOnAPage | posts/services.py:47 | row k of the listing is on page `k // limit + 1`, at position `k % limit`, and that page is within `total_pages` |
| Pagination.NoOtherPageHoldsRow | posts/services.py:47 | a row's page number is determined by its index |
| Pagination.SecondPageOfTwentyFive | posts/views.py:86-97 | the metadata for page 2 of 25 rows with limit 10 |
| Listing.Filter | posts/services.py:34-44 | the kept rows are exactly the input rows satisfying the condition, with their multiplicities |
| Listing.InsertNewest | posts/services.py:47 | inserting into a newest-first list keeps it newest first and adds exactly the one row |
| Listing.SortNewestFirst | posts/services.py:47 | `order_by("-created_at")` is a newest-first permutation of its input |
| Listing.Window | posts/services.py:47 | the slice `[offset:offset+limit]` has `min(limit, rest)` rows, taken in order from the offset |
| PostService.ValidateCategory | posts/services.py:141-144 | a category is accepted unchanged or rejected as unknown |
| PostService.ValidateCategoryAcceptsTheEight | posts/services.py:141-144 | accepted exactly when absent, empty or one of the eight category names |
| PostService.Matching | posts/services.py:31-47 | the listed rows are exactly the live posts of the category whose title or content contains the keyword, newest first |
| PostService.GetPostList | posts/services.py:19-49 | an unknown category is rejected and nothing else is; the total is the number of matching posts; the items are the page of them at the offset |
| PostService.GetPostDetail | posts/services.py:52-71 | a missing or deleted post is not found; otherwise the post is returned and only its view count changes, by one |
| PostService.GetPostDetailKeepsValid | posts/services.py:66-69 | viewing a post keeps the invariant |
| PostService.ImageRows | posts/services.py:147-151 | one image row per stored file, in order, with consecutive ids |
| PostService.AddImages | posts/services.py:147-151 | image rows are appended and no other table changes |
| PostService.CreatePost | posts/services.py:75-90 | the new post gets the next id, the author and the fields given, zero counters and one image row per file, numbered on from the next image id, which advances by the number of files; likes, comments and the next like id are untouched |
| PostService.CreatePostKeepsValid | posts/services.py:75-90 | creating a post keeps the invariant |
| PostService.RemoveImages | posts/services.py:120-123 | exactly the images of this post with the given ids are removed |
| PostService.UpdatePost | posts/services.py:94-125 | in order: not found, then not the author; otherwise only this post changes, the patch is applied, `updated_at` is refreshed, and the named images go while the new ones are added, numbered on from the next image id; the next image id advances by the number of files and the next like id is kept |
| PostService.EmptyUpdateOnlyTouches | posts/services.py:94-125 | an update with nothing to change still refreshes `updated_at` and changes nothing else |
| PostService.UpdatePostKeepsValid | posts/services.py:94-125 | updating a post keeps the invariant |
| PostService.DeletePost | posts/services.py:128-138 | in order: not found, then not the author; otherwise only this post changes, and it is soft-deleted |
| PostService.DeleteTwiceNotFound | posts/services.py:128-138 | a second delete of the same post is not found, whoever asks |
| PostService.DeletePostKeepsValid | posts/services.py:128-138 | deleting a post keeps the invariant |
| PostService.ToggleLike | posts/services.py:155-178 | a missing or deleted post is not found; with no like row one is added and `like_count` rises by one, answering true; with a row it is removed and `like_count` falls by one, answering false, except that a decrement below zero is an integrity error; nothing but this post and the like table changes, and the next like id advances only when a row is added |
| PostService.LikesUniqueRemove | posts/models.py:137-140 | removing a like keeps at most one like per (post, user) |
| PostService.LikedMeansPositive | posts/services.py:168-171 | under the invariant, a post that someone has liked has a positive `like_count`, so the decrement never fails |
| PostService.ToggleLikeKeepsValid | posts/services.py:155-178 | a toggle succeeds exactly on a live post and keeps the invariant, counters included |
| PostService.ToggleLikeAnswersLiked | posts/services.py:162-178 | the answer is whether the user likes the post afterwards |
| PostService.RemovedLikeKeepsOthers | posts/services.py:168-169 | removing one like leaves every other (post, user) like as it was |
| PostService.ToggleTwiceRestores | posts/services.py:155-178 | two toggles by the same user restore the like relation and the post's `like_count` |
| PostSerializers.ValidatePostCreate | posts/serializers.py:40-49 | in order: no request in the context is a `KeyError`, an anonymous caller needs to log in, a role other than exactly "WORKSHOP" is refused; otherwise the data is unchanged |
| PostSerializers.ValidatePostUpdate | posts/serializers.py:134-139 | without an instance nothing is checked; with one, a caller other than the author is refused |
| PostSerializers.UpdateInstance | posts/serializers.py:141-155 | a deleted post is refused; otherwise the supplied fields replace the stored ones and `updated_at` is refreshed |
| PostSerializers.UpdateInstanceAgreesWithService | posts/serializers.py:141-155 | the serializer's update writes the same row as the service's update |
| PostSerializers.IsLiked | posts/serializers.py:113-118 | false for an anonymous caller; otherwise true iff a like row for (post, caller) exists; a `KeyError` without a request |
| PostSerializers.IsLikedAfterToggle | posts/serializers.py:113-118 | after a toggle, `is_liked` reports the toggle's answer |
| PostViews.PostPage | posts/views.py:59-97 | an unknown category is rejected; otherwise the page holds at most `limit` rows of the matching posts, and its pagination block is the metadata for the page and the number of matching posts |
| PostViews.ListPosts | posts/views.py:52-98 | the pagination parameters are checked before the category |
| PostViews.PostPagesChain | posts/views.py:93 | `has_next` holds iff the next page of posts is non-empty |
| PostViews.ImageFault | posts/views.py:119-141 | per file, in order: no size, larger than 5 MiB, type missing or outside jpeg/png/gif, not decodable; a file passes iff none applies |
| PostViews.FirstFault | posts/views.py:117-141 | the error reported is that of the first faulty file |
| PostViews.ImagesVerdict | posts/views.py:107-143 | no files pass; more than ten are refused before any is examined; otherwise accepted iff every file passes |
| PostViews.ValidateImages | posts/views.py:107-143 | the loop over the files gives the verdict above |
| PostViews.Names | posts/views.py:152-159 | the uploads handed to the service are the accepted files, in order |
| PostViews.ValidateImageOperations | posts/views.py:193-206 | accepted iff every id to remove names an image of this post |
| PostViews.CreatePostWithContext | posts/views.py:145-165 | the serializer, given the request or not, decides first; for a workshop member with the request passed, the post is created iff the uploads pass, by the service and as the caller |
| PostViews.CreatePostViewAsWritten | posts/views.py:145-165 | built without a context, the serializer always fails with `KeyError` |
| PostViews.CreatePostView | posts/views.py:145-165 | with the request in the context: anonymous, then non-workshop, are refused; a workshop member's post is created iff the uploads pass |
| PostViews.WorkshopPostRefusedAsWritten | posts/views.py:148 | a valid workshop post is refused as written and accepted with the context |
| PostViews.UpdatePostView | posts/views.py:209-228 | image ids are checked first, then uploads, then the service's not-found and author checks |
| PostViews.MissingPostReportsImageIds | posts/views.py:217-220 | updating a missing post with ids to remove reports bad image ids, not "not found" |
| CommentService.CommentsOf | comments/services.py:24-28 | the listed comments are exactly the live comments of the post, newest first |
| CommentService.GetPostComments | comments/services.py:14-33 | a missing or deleted post is not found; otherwise the total and the page of live comments at the offset |
| CommentService.FilterCountsLive | comments/services.py:24-30 | the count of the filtered rows is the number of live comments on the post |
| CommentService.ListedTotalIsCommentCount | comments/services.py:14-33 | under the invariant, the listed total equals the post's `comment_count` |
| CommentService.CreateComment | comments/services.py:37-61 | a missing or deleted post is not found; otherwise a live comment is appended and the post's `comment_count` rises by one; every other post, the likes, the images and both id counters are unchanged |
| CommentService.CreateCommentKeepsValid | comments/services.py:37-61 | creating a comment keeps the invariant |
| CommentService.UpdateComment | comments/services.py:65-89 | in order: not found, not the author, post deleted; otherwise only the content and `updated_at` of this comment change, and the posts, likes, images and both id counters are kept |
| CommentService.UpdateCommentKeepsValid | comments/services.py:65-89 | updating a comment keeps the invariant |
| CommentService.DeleteCommentAsWritten | comments/services.py:93-107 | the lookup names the unknown field `is_delete`, so every call fails with `FieldError` |
| CommentService.AuthorCannotDeleteAsWritten | comments/services.py:95-97 | the author of a live comment cannot delete it as written, yet can with the corrected lookup |
| CommentService.DeleteComment | comments/services.py:93-107 | corrected lookup: in order not found, then not the author; otherwise the comment is soft-deleted and its post's `comment_count` falls by one; other comments and posts, the likes, the images and both id counters are kept |
| CommentService.LivePostCountPositive | comments/services.py:102-104 | under the invariant, a live comment's post has a positive `comment_count` |
| CommentService.DeleteCommentKeepsValid | comments/services.py:93-107 | deleting succeeds exactly for the author of a live comment and keeps the invariant |
| CommentService.DeleteCommentTwiceNotFound | comments/services.py:93-107 | a second delete of the same comment is not found |
| CommentService.CreateThenDeleteKeepsCount | comments/services.py:37-107 | creating a comment and then deleting it as its author restores the post's `comment_count` |
| CommentSerializers.ValidateCommentCreate | comments/serializers.py:29-45 | in order: no request, anonymous, role not COMPANY or WORKSHOP, no post in the context, deleted post; otherwise accepted unchanged |
| CommentSerializers.ValidateCommentUpdate | comments/serializers.py:99-112 | in order: no instance, no request, not the author, comment deleted, post deleted; otherwise accepted unchanged |
| CommentSerializers.UpdateInstance | comments/serializers.py:114-117 | the supplied content replaces the old and `updated_at` is refreshed; nothing else changes |
| CommentSerializers.UpdateInstanceAgreesWithService | comments/serializers.py:114-117 | the serializer's update writes the same row as the service's update |
| CommentSerializers.AuthorOf | comments/serializers.py:64-83 | the author block has id and role, plus the company name for a company author and the workshop name for a workshop author |
| CommentSerializers.AuthorHasAtMostOneName | comments/serializers.py:64-83 | an author block never has both names |
| CommentSerializers.Render | comments/serializers.py:85-90 | a deleted comment shows the fixed placeholder text; all other fields are copied |
| CommentSerializers.DeletedCommentIsMasked | comments/serializers.py:85-90 | after a soft delete the comment renders as the placeholder, while the stored content is kept |
| CommentViews.ListComments | comments/views.py:54-83 | pagination is checked first, then the post is looked up; the page holds at most `limit` live comments, with metadata for their total |
| CommentViews.CommentPagesChain | comments/views.py:71-81 | `has_next` holds iff the next page of comments is non-empty |
| CommentViews.CreateCommentView | comments/views.py:93-111 | a missing or deleted post is not found; otherwise a non-commenting role is refused; otherwise the service creates the comment |
| CommentViews.CreateViewSkipsSettledChecks | comments/views.py:93-111 | through the view, only "not found" and "members only" can be reported |
| CommentViews.CreateCommentViewKeepsValid | comments/views.py:93-111 | creating through the view keeps the invariant |
| CommentViews.UpdateCommentView | comments/views.py:120-135 | in order: not found, not the author, post deleted; otherwise the service's update |
| CommentViews.UpdateViewAgreesWithService | comments/views.py:120-135 | for a logged-in caller the view answers exactly as the service |
| CommentViews.UpdateViewSkipsSettledChecks | comments/views.py:120-135 | through the view the serializer's missing-instance and comment-deleted checks never fire |
| Inquiries.ToInternalValue | contacts/serializers.py:81-87 | a missing `email` or `phone` key is added as null; every existing key keeps its value |
| Inquiries.ToInternalValueIdempotent | contacts/serializers.py:81-87 | defaulting twice is defaulting once |
| Inquiries.IndexOf | contacts/serializers.py:8-11 | the first position of the character from a start, or the end |
| Inquiries.PhonePatternExact | contacts/serializers.py:8-11 | the phone validator accepts exactly `^\d{2,3}-\d{3,4}-\d{4}$` |
| Inquiries.AcceptedPhoneHasDash | contacts/serializers.py:8-14 | an accepted phone number contains a dash |
| Inquiries.PhoneExamples | contacts/serializers.py:8-11 | the example numbers accepted and rejected |
| Inquiries.OrganisationFault | contacts/serializers.py:42-51 | a COMPANY or WORKSHOP inquiry needs an organisation name |
| Inquiries.ContactFault | contacts/serializers.py:58-77 | an e-mail preference needs a non-empty e-mail containing "@"; a phone preference needs a non-empty phone containing "-" |
| Inquiries.ValidateInquiry | contacts/serializers.py:37-79 | the organisation check runs before the contact check; data that passes is unchanged |
| Inquiries.OrganisationCheckedFirst | contacts/serializers.py:42-67 | an inquiry failing both checks is refused for the organisation |
| Inquiries.PhoneFieldFault | contacts/serializers.py:14 | the phone field accepts null or a number matching the pattern |
| Inquiries.PhoneDashCheckRedundant | contacts/serializers.py:68-77 | after the phone field, the dash check in `validate` cannot fail |
| UserSerializers.ValidateSignUp | users/serializers.py:37-57 | in order: passwords differ, nickname outside 2..10, company without a company name, workshop without a workshop name, weak password; otherwise unchanged |
| UserSerializers.StrengthCheckedLast | users/serializers.py:52-55 | a sign-up passing the other checks is refused exactly when the password is weak |
| UserSerializers.NormalizeEmail | users/serializers.py:61-64 | `create_user` lower-cases the part after the last `@` and keeps the rest |
| UserSerializers.NormalizeEmailIdempotent | users/serializers.py:61-64 | normalising an address twice is normalising it once |
| UserSerializers.MixedCaseDomain | users/serializers.py:61-64 | "a@EXAMPLE.com" is stored as "a@example.com", so the stored e-mail differs from the user name |
| UserSerializers.Row | users/serializers.py:59-64 | the confirmation is dropped, the raw e-mail becomes the user name, the normalised e-mail is stored, the password is stored only as its hash, and the other fields as sent |
| UserSerializers.Insert | users/models.py:28-38 | a row sharing a user name, e-mail, nickname or non-null phone with a stored row is an integrity error, and nothing else is |
| UserSerializers.CreateAccountAsWritten | users/serializers.py:59-66 | as written the row stores the empty phone, so it fails whenever a stored row has the empty phone |
| UserSerializers.CreateAccount | users/serializers.py:59-66 | with a null phone, creation fails exactly when the user name, e-mail or nickname is taken, and otherwise stores the row |
| UserSerializers.SecondSignUpFailsAsWritten | users/models.py:38 | two sign-ups with different e-mails and nicknames: as written the second fails; with a null phone both succeed |
| UserSerializers.AccountIgnoresConfirmation | users/serializers.py:59-66 | the stored account does not depend on the confirmation |
| UserSerializers.SignedUpRolesCannotWrite | users/models.py:41-49 | the lowercase roles sign-up stores fail the uppercase role checks for posts and comments |
| UserSerializers.AsUserAligned | users/models.py:41-44 | with the role constants shared, the stored "workshop" reads as the post check's "WORKSHOP", and exactly the two role choices read as commenting roles |
| UserSerializers.AlignedSignUpsCanWrite | comments/serializers.py:35 | with the role constants shared, every signed-up account may comment on a live post, and a post is accepted exactly from a workshop account |
| UserSerializers.ValidatePasswordChange | users/serializers.py:114-127 | the new passwords must match before the strength check; otherwise unchanged |
| UserSerializers.PasswordChangeIgnoresCurrent | users/serializers.py:114-127 | the outcome does not depend on the current password given |

## Left out

- I/O is not modelled: HTTP, the database engine, caching, e-mail and files. contacts/services.py sends mail and swallows a failure to send; it is not part of this model.
- Transactions, `select_for_update` and concurrency are left out. Each service call is one atomic transition.
- JWT and authentication are left out. The permission class of the comment create view (comments/permissions.py) becomes a `User` parameter, and the post and comment update views take a `Caller`. The comment list view (comments/views.py:22) refuses anonymous callers through the same permission class; that refusal is not modelled, and `CommentViews.ListComments` takes no caller.
- Django's `validate_password` becomes the predicate `strong`, and `make_password` the function `hash`.
- Image decoding is the upload's `decodes` flag.
- The unused running `total_size` in `validate_images` is not kept.
- The list view's cache key, the detail view's ETag and `Cache-Control` header are left out, because none of them changes a response body.
- DRF field-level validation is assumed to have passed. This covers required fields, lengths, `ChoiceField`, `EmailField` format and `CharField` trimming. The phone field's pattern is the one exception.
- Python's `int()` is modelled on ASCII digits and ASCII whitespace. Unicode digits and spaces are not.
- Inquiries.PhonePatternExact: `\d` is modelled as the ASCII digits. The source's pattern is a Python `str` pattern, whose `\d` also matches other Unicode decimal digits, such as Arabic-Indic ones; the model rejects those numbers.
- Inquiries.PhoneFieldFault: inherits the ASCII-only `\d` above, so a number written in non-ASCII decimal digits is refused where the source's field accepts it.
- UserSerializers.NormalizeEmail: lower-cases ASCII letters only. Python's `str.lower` on a non-ASCII domain, and the NFKC normalisation `create_user` applies to the user name, are not modelled.
- UserSerializers.CreateAccount: the `UserProfile` row created with each account (users/serializers.py:65) is not modelled; nothing in the core reads it. The nickname's uniqueness validator, which the serializer adds at field level, is taken as passed, so only the database constraint is modelled.
- Integers are unbounded. The database's integer range is not modelled.
- Ties on `created_at` are broken by insertion order. The database leaves the order of equal timestamps unspecified.
- Response rendering is left out, except the comment author block and the deleted-comment placeholder. After create and update, posts/views.py:163 and posts/views.py:228 build `PostDetailSerializer(post)` without a context; its `is_liked` field would then read a missing request. `PostSerializers.IsLiked` models that lookup, but the responses themselves are not modelled.
- `PostDetailView`, `PostDeleteView`, `PostLikeView` and `CommentDeleteView` are thin wrappers that pass the caller to a service. The model states their behaviour on the service members they call.
- The legacy `contact/` app is left out. It is superseded by `contacts/` and is internally inconsistent.
- users/views.py, the profile and reset serializers, the routing, the settings and the migrations are glue with no behaviour of the core.
- PostViews.UpdatePostView: takes the caller's id rather than a `Caller`. An anonymous caller reaching the endpoint is not modelled.

## Findings

| source | as written | input that shows it | evidently intended | confidence | as-written member | corrected member |
|---|---|---|---|---|---|---|
| users/models.py:38 | `phone` is a unique, non-null column that sign-up never fills, so every account created by sign-up stores the empty phone, and the second one violates the unique constraint with an `IntegrityError` | two sign-ups with different e-mails and nicknames | a phone left out at sign-up is stored as null (`null=True`), which the unique constraint admits any number of times | medium (not executed; the migrations of users/ are not visible) | UserSerializers.CreateAccountAsWritten, UserSerializers.SecondSignUpFailsAsWritten | UserSerializers.CreateAccount |
| comments/services.py:95-97 | the comment lookup filters on `is_delete`, a field `Comment` does not have, so Django raises `FieldError` on every call | the author deleting their own live comment | filter on `is_deleted`: soft-delete the comment and decrement the post's `comment_count` | high (not executed) | CommentService.DeleteCommentAsWritten, CommentService.AuthorCannotDeleteAsWritten | CommentService.DeleteComment |
| posts/views.py:148 | `PostCreateSerializer` is built without a context, and its `validate` reads `self.context["request"]`, so every create raises `KeyError` | a workshop member posting a valid draft with no images | pass `context={"request": request}` so that the login and role checks run; the response's `PostDetailSerializer(post)` at posts/views.py:163, and at :228 in the update view, needs the same context, or `get_is_liked` raises `KeyError` after the post is saved | high (not executed) | PostViews.CreatePostViewAsWritten, PostViews.WorkshopPostRefusedAsWritten | PostViews.CreatePostView |
| posts/serializers.py:47 | sign-up stores the role as "company" or "workshop" (users/models.py:41-44), but the post check compares against "WORKSHOP" and the comment check against "COMPANY" and "WORKSHOP" (comments/serializers.py:35), so no signed-up account may write a post or a comment | a workshop account created by sign-up submitting a valid post or a comment on a live post | one shared set of role constants, as the notes at posts/serializers.py:164-165 ask, so that the stored role passes the matching check | high (not executed) | UserSerializers.SignedUpRolesCannotWrite | UserSerializers.AsUserAligned, UserSerializers.AlignedSignUpsCanWrite |

/** Outcomes of the service, serializer and view operations.

    The web framework reports failures by raising exceptions that the HTTP
    layer translates into status codes: `Http404` (not found),
    `PermissionDenied` (403), `ValidationError` (400), and database or ORM
    errors (500). Each becomes one constructor of `Error`. Validation and
    permission failures carry a `Reason` naming the message the source raises,
    so the order in which guards run is observable in the model.
 */
module Outcomes {

  /** The distinct failure messages of the modelled code. */
  datatype Reason =
    // pagination parameters
    | PageTooSmall | LimitTooSmall | LimitTooLarge | NotNumeric
    // post listing
    | UnknownCategory
    // uploaded images
    | TooManyImages | InvalidImageFile | ImageTooLarge | ImageTypeNotAllowed | CorruptedImage
    | InvalidImageIds
    // who may write
    | LoginRequired | WorkshopOnly | MembersOnly
    // posts
    | NotPostAuthorEdit | NotPostAuthorDelete | PostDeleted
    // comments
    | PostContextMissing | CommentPostDeleted | CommentMissing | NotCommentAuthorEdit
    | NotCommentAuthorDelete | CommentDeleted | ParentPostDeleted
    // contact inquiries
    | CompanyInquiryNeedsName | WorkshopInquiryNeedsName | EmailRequired | EmailMalformed
    | PhoneRequired | PhoneMalformed
    // accounts
    | PasswordMismatch | NicknameLength | CompanyNameRequired | WorkshopNameRequired
    | WeakPassword | NewPasswordMismatch | WeakNewPassword

  datatype Error =
    | NotFound                          // Http404 from get_object_or_404
    | PermissionDenied(why: Reason)     // rest_framework PermissionDenied
    | Invalid(why: Reason)              // rest_framework ValidationError
    | IntegrityError                    // a CHECK constraint of the database failed
    | FieldError                        // the ORM could not resolve a lookup keyword
    | KeyError                          // a serializer read a context key nobody passed

  datatype Result<+T> = Ok(value: T) | Err(error: Error) {
    predicate IsFailure() {
      Err?
    }

    function PropagateFailure<U>(): Result<U>
      requires Err?
    {
      Err(error)
    }

    function Extract(): T
      requires Ok?
    {
      value
    }
  }

  datatype Option<+T> = None | Some(value: T)

  /** Python truthiness of an optional string: present and not empty. */
  predicate Filled(v: Option<string>)
  {
    v.Some? && |v.value| > 0
  }

  function Min(a: int, b: int): int
  {
    if a <= b then a else b
  }
}

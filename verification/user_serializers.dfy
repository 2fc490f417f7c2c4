/** The sign-up and password-change serializers (users/serializers.py).

    Django's `validate_password` runs the configured password validators; the
    model takes its verdict as the predicate `strong`.
 */
module UserSerializers {
  import opened Outcomes
  import opened Accounts
  import opened Text
  import PostModel
  import PostSerializers
  import CommentSerializers

  /** The roles a sign-up may choose, in lower case as the user table
      declares them. */
  const RoleChoices: set<string> := {"company", "workshop"}

  /** A sign-up request after field-level validation; an optional name that
      was not sent is `None`. */
  datatype SignUp = SignUp(
    email: string,
    password: string,
    confirmPassword: string,
    nickname: string,
    district: string,
    neighborhood: string,
    role: string,
    companyName: Option<string>,
    workshopName: Option<string>)

  /** `UserCreateSerializer.validate`: in this order, the two passwords must
      match, the nickname must have 2 to 10 characters, a company needs a
      company name and a workshop a workshop name, and the password must pass
      the validators. The data comes back unchanged. */
  function ValidateSignUp(d: SignUp, strong: string -> bool): (r: Result<SignUp>)
    ensures d.password != d.confirmPassword ==> r == Err(Invalid(PasswordMismatch))
    ensures d.password == d.confirmPassword && !(2 <= |d.nickname| <= 10) ==> r == Err(Invalid(NicknameLength))
    ensures d.password == d.confirmPassword && 2 <= |d.nickname| <= 10 && d.role == "company" && !Filled(d.companyName) ==>
      r == Err(Invalid(CompanyNameRequired))
    ensures d.password == d.confirmPassword && 2 <= |d.nickname| <= 10 && d.role == "workshop" && !Filled(d.workshopName) ==>
      r == Err(Invalid(WorkshopNameRequired))
    ensures r.Ok? <==>
      (&& d.password == d.confirmPassword
       && 2 <= |d.nickname| <= 10
       && (d.role == "company" ==> Filled(d.companyName))
       && (d.role == "workshop" ==> Filled(d.workshopName))
       && strong(d.password))
    ensures && d.password == d.confirmPassword && 2 <= |d.nickname| <= 10
            && (d.role == "company" ==> Filled(d.companyName))
            && (d.role == "workshop" ==> Filled(d.workshopName))
            && !strong(d.password)
            ==> r == Err(Invalid(WeakPassword))
    ensures r.Err? ==> r.error.Invalid?
    ensures r.Ok? ==> r.value == d
  {
    if d.password != d.confirmPassword then Err(Invalid(PasswordMismatch))
    else if |d.nickname| < 2 || |d.nickname| > 10 then Err(Invalid(NicknameLength))
    else if d.role == "company" && !Filled(d.companyName) then Err(Invalid(CompanyNameRequired))
    else if d.role == "workshop" && !Filled(d.workshopName) then Err(Invalid(WorkshopNameRequired))
    else if !strong(d.password) then Err(Invalid(WeakPassword))
    else Ok(d)
  }

  /** The strength check comes last: a sign-up whose other fields pass is
      refused as weak exactly when the validators refuse its password. */
  lemma StrengthCheckedLast(d: SignUp, strong: string -> bool)
    requires d.password == d.confirmPassword && 2 <= |d.nickname| <= 10
    requires d.role == "company" ==> Filled(d.companyName)
    requires d.role == "workshop" ==> Filled(d.workshopName)
    ensures ValidateSignUp(d, strong) == if strong(d.password) then Ok(d) else Err(Invalid(WeakPassword))
  {
  }

  // ----- the stored account ---------------------------------------------

  /** The position of the last `@` in an address, if any. */
  function LastAt(e: string): (r: Option<nat>)
    ensures r.Some? ==> r.value < |e| && e[r.value] == '@' && forall k :: r.value < k < |e| ==> e[k] != '@'
    ensures r.None? ==> forall k :: 0 <= k < |e| ==> e[k] != '@'
  {
    if |e| == 0 then None
    else if e[|e| - 1] == '@' then Some(|e| - 1)
    else LastAt(e[..|e| - 1])
  }

  /** `normalize_email`: the domain, after the last `@`, is lower-cased; the
      local part and an address without `@` are kept. */
  function NormalizeEmail(e: string): (r: string)
    ensures |r| == |e|
    ensures LastAt(e).None? ==> r == e
    ensures LastAt(e).Some? ==> forall k :: 0 <= k < |e| ==>
      r[k] == if k > LastAt(e).value then LowerChar(e[k]) else e[k]
  {
    match LastAt(e)
    case None => e
    case Some(i) => e[..i + 1] + LowerAscii(e[i + 1..])
  }

  /** Normalising keeps the `@` signs where they are. */
  lemma {:induction false} NormalizeKeepsAt(e: string)
    ensures LastAt(NormalizeEmail(e)) == LastAt(e)
  {
    var r := NormalizeEmail(e);
    assert forall k :: 0 <= k < |e| ==> (r[k] == '@' <==> e[k] == '@');
    LastAtDeterminedByAts(e, r);
  }

  /** Two strings of one length with `@` at the same places agree on the last
      one. */
  lemma {:induction false} LastAtDeterminedByAts(a: string, b: string)
    requires |a| == |b| && forall k :: 0 <= k < |a| ==> (a[k] == '@' <==> b[k] == '@')
    ensures LastAt(a) == LastAt(b)
    decreases |a|
  {
    if |a| > 0 && a[|a| - 1] != '@' {
      LastAtDeterminedByAts(a[..|a| - 1], b[..|b| - 1]);
    }
  }

  /** Normalising an address twice is normalising it once. */
  lemma NormalizeEmailIdempotent(e: string)
    ensures NormalizeEmail(NormalizeEmail(e)) == NormalizeEmail(e)
  {
    NormalizeKeepsAt(e);
  }

  /** A mixed-case domain is stored lower-cased, so the stored e-mail then
      differs from the user name, which keeps the address as sent. */
  lemma MixedCaseDomain()
    ensures NormalizeEmail("a@EXAMPLE.com") == "a@example.com"
  {
    var e := "a@EXAMPLE.com";
    assert e[1] == '@' && forall k :: 2 <= k < |e| ==> e[k] != '@';
    assert LastAt(e) == Some(1);
    assert e[..2] == "a@" && e[2..] == "EXAMPLE.com";
    assert LowerAscii("EXAMPLE.com") == "example.com";
  }

  /** A user row as `create_user` writes it. `phone` is `None` for a SQL null. */
  datatype Account = Account(
    username: string,
    email: string,
    passwordHash: string,
    nickname: string,
    district: string,
    neighborhood: string,
    role: string,
    companyName: Option<string>,
    workshopName: Option<string>,
    phone: Option<string>)

  /** The row for a validated sign-up: the confirmation is dropped, the raw
      e-mail becomes the user name, the normalised e-mail is stored, and the
      password is kept only as `hash` of it. */
  function Row(d: SignUp, hash: string -> string, phone: Option<string>): (a: Account)
    ensures a.username == d.email && a.email == NormalizeEmail(d.email) && a.passwordHash == hash(d.password)
    ensures a.nickname == d.nickname && a.district == d.district && a.neighborhood == d.neighborhood
    ensures a.role == d.role && a.companyName == d.companyName && a.workshopName == d.workshopName
    ensures a.phone == phone
  {
    Account(d.email, NormalizeEmail(d.email), hash(d.password), d.nickname, d.district, d.neighborhood,
            d.role, d.companyName, d.workshopName, phone)
  }

  /** Two rows that the user table's unique columns (user name, e-mail,
      nickname, phone) cannot hold together; SQL nulls never clash. */
  predicate Clash(a: Account, b: Account)
  {
    || a.username == b.username || a.email == b.email || a.nickname == b.nickname
    || (a.phone.Some? && b.phone.Some? && a.phone.value == b.phone.value)
  }

  /** Inserting `row` next to `existing`: a clash with any stored row is an
      integrity error. */
  function Insert(existing: seq<Account>, row: Account): (r: Result<Account>)
    ensures r.Err? <==> exists i :: 0 <= i < |existing| && Clash(existing[i], row)
    ensures r.Err? ==> r.error == IntegrityError
    ensures r.Ok? ==> r.value == row
  {
    if exists i :: 0 <= i < |existing| && Clash(existing[i], row) then Err(IntegrityError) else Ok(row)
  }

  /** `UserCreateSerializer.create` as written: `phone` is a unique, non-null
      column the sign-up never fills, so the row stores the empty string. */
  function CreateAccountAsWritten(d: SignUp, hash: string -> string, existing: seq<Account>): (r: Result<Account>)
    ensures r.Ok? ==> r.value == Row(d, hash, Some(""))
    ensures (exists i :: 0 <= i < |existing| && existing[i].phone == Some("")) ==> r == Err(IntegrityError)
  {
    Insert(existing, Row(d, hash, Some("")))
  }

  /** `UserCreateSerializer.create` with the phone stored as null: only a
      repeated user name, e-mail or nickname is an integrity error. */
  function CreateAccount(d: SignUp, hash: string -> string, existing: seq<Account>): (r: Result<Account>)
    ensures r.Ok? <==> forall i :: 0 <= i < |existing| ==>
      existing[i].username != d.email && existing[i].email != NormalizeEmail(d.email) && existing[i].nickname != d.nickname
    ensures r.Err? ==> r.error == IntegrityError
    ensures r.Ok? ==> r.value == Row(d, hash, None)
  {
    Insert(existing, Row(d, hash, None))
  }

  /** Two sign-ups with different e-mails and nicknames: as written the second
      fails on the shared empty phone; with a null phone both succeed. */
  lemma SecondSignUpFailsAsWritten(d1: SignUp, d2: SignUp, hash: string -> string)
    requires d1.email != d2.email && NormalizeEmail(d1.email) != NormalizeEmail(d2.email)
    requires d1.nickname != d2.nickname
    ensures var first := CreateAccountAsWritten(d1, hash, []);
      first.Ok? && CreateAccountAsWritten(d2, hash, [first.value]) == Err(IntegrityError)
    ensures var first := CreateAccount(d1, hash, []);
      first.Ok? && CreateAccount(d2, hash, [first.value]).Ok?
  {
    var first := Row(d1, hash, Some(""));
    assert Clash([first][0], Row(d2, hash, Some("")));
  }

  /** The stored row does not depend on the confirmation field. */
  lemma AccountIgnoresConfirmation(d: SignUp, hash: string -> string, existing: seq<Account>, other: string)
    ensures CreateAccount(d.(confirmPassword := other), hash, existing) == CreateAccount(d, hash, existing)
  {
  }

  /** The user as the rest of the model sees an account stored under `id`. */
  function AsUser(a: Account, id: nat): (u: User)
    ensures u.id == id && u.role == a.role
    ensures u.companyName == a.companyName && u.workshopName == a.workshopName
  {
    User(id, a.role, a.companyName, a.workshopName)
  }

  /** Sign-up stores the roles in lower case while the post and comment checks
      compare against upper case: no account made through sign-up may write a
      post or a comment. */
  lemma SignedUpRolesCannotWrite(d: SignUp, strong: string -> bool, hash: string -> string, existing: seq<Account>,
                                 id: nat, draft: PostSerializers.PostDraft, post: PostModel.Post, content: string)
    requires d.role in RoleChoices && ValidateSignUp(d, strong).Ok? && CreateAccount(d, hash, existing).Ok?
    ensures var u := AsUser(CreateAccount(d, hash, existing).value, id);
      && PostSerializers.ValidatePostCreate(Some(Member(u)), draft) == Err(Invalid(WorkshopOnly))
      && CommentSerializers.ValidateCommentCreate(Some(Member(u)), Some(post), content) == Err(Invalid(MembersOnly))
  {
  }

  /** The user an account becomes once the role constants are shared: each
      stored role choice reads as the upper-case constant the post and comment
      checks compare against, and any other role matches neither. */
  function AsUserAligned(a: Account, id: nat): (u: User)
    ensures u.id == id && u.companyName == a.companyName && u.workshopName == a.workshopName
    ensures u.role == PostSerializers.WorkshopRole <==> a.role == "workshop"
    ensures u.role in CommentSerializers.CommentRoles <==> a.role in RoleChoices
  {
    var role := if a.role == "company" then "COMPANY" else if a.role == "workshop" then "WORKSHOP" else "";
    User(id, role, a.companyName, a.workshopName)
  }

  /** With the role constants shared, every signed-up account may comment on
      a live post, and exactly the workshop accounts may write posts. */
  lemma AlignedSignUpsCanWrite(d: SignUp, strong: string -> bool, hash: string -> string, existing: seq<Account>,
                               id: nat, draft: PostSerializers.PostDraft, post: PostModel.Post, content: string)
    requires d.role in RoleChoices && ValidateSignUp(d, strong).Ok? && CreateAccount(d, hash, existing).Ok?
    requires !post.isDeleted
    ensures var u := AsUserAligned(CreateAccount(d, hash, existing).value, id);
      && (PostSerializers.ValidatePostCreate(Some(Member(u)), draft).Ok? <==> d.role == "workshop")
      && CommentSerializers.ValidateCommentCreate(Some(Member(u)), Some(post), content) == Ok(content)
  {
  }

  /** A password change request after field-level validation. */
  datatype PasswordChange = PasswordChange(currentPassword: string, newPassword: string, newPasswordConfirm: string)

  /** `PasswordChangeSerializer.validate`: the two new passwords must match,
      then the new one must pass the validators. The current password is not
      checked here. */
  function ValidatePasswordChange(d: PasswordChange, strong: string -> bool): (r: Result<PasswordChange>)
    ensures d.newPassword != d.newPasswordConfirm ==> r == Err(Invalid(NewPasswordMismatch))
    ensures d.newPassword == d.newPasswordConfirm && !strong(d.newPassword) ==> r == Err(Invalid(WeakNewPassword))
    ensures r.Ok? <==> d.newPassword == d.newPasswordConfirm && strong(d.newPassword)
    ensures r.Ok? ==> r.value == d
  {
    if d.newPassword != d.newPasswordConfirm then Err(Invalid(NewPasswordMismatch))
    else if !strong(d.newPassword) then Err(Invalid(WeakNewPassword))
    else Ok(d)
  }

  /** The outcome of a password change does not depend on the current
      password given. */
  lemma PasswordChangeIgnoresCurrent(d: PasswordChange, other: string, strong: string -> bool)
    ensures ValidatePasswordChange(d.(currentPassword := other), strong).Ok? <==> ValidatePasswordChange(d, strong).Ok?
  {
  }
}

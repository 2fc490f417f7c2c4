/** The requesting user as the rest of the model sees it. Authentication is
    outside the model: a request carries either an anonymous user or a
    member, and a member has an id, a role string and the optional display
    names of the user table.
 */
module Accounts {
  import opened Outcomes

  datatype User = User(id: nat, role: string, companyName: Option<string>, workshopName: Option<string>)

  datatype Caller = Anonymous | Member(user: User)

  /** `request.user == other`: users compare by primary key, and the
      anonymous user equals no stored user. */
  predicate IsUser(caller: Caller, id: nat)
  {
    caller.Member? && caller.user.id == id
  }
}

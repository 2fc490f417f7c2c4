/** The contact-inquiry serializer (contacts/serializers.py): defaulting of
    the optional contact fields, the format of a phone number, and the
    object-level checks that tie the organisation name to the inquiry type and
    the contact details to the preferred channel.
 */
module Inquiries {
  import opened Outcomes
  import opened Text

  // ----- raw input -----------------------------------------------------------

  /** A request body: field name to value, `None` standing for JSON null. */
  type RawData = map<string, Option<string>>

  /** `to_internal_value`: a missing `email` or `phone` key is added as null;
      every key already present keeps its value. */
  function ToInternalValue(data: RawData): (r: RawData)
    ensures "email" in r && "phone" in r
    ensures r.Keys == data.Keys + {"email", "phone"}
    ensures r["email"] == if "email" in data then data["email"] else None
    ensures r["phone"] == if "phone" in data then data["phone"] else None
    ensures forall k :: k in data ==> r[k] == data[k]
  {
    var withEmail := if "email" in data then data else data["email" := None];
    if "phone" in withEmail then withEmail else withEmail["phone" := None]
  }

  /** Defaulting twice is defaulting once. */
  lemma ToInternalValueIdempotent(data: RawData)
    ensures ToInternalValue(ToInternalValue(data)) == ToInternalValue(data)
  {
  }

  // ----- the phone pattern -------------------------------------------------

  /** The shape `^\d{2,3}-\d{3,4}-\d{4}$` with the two dashes at `i` and `j`:
      two or three digits, a dash, three or four digits, a dash, four
      digits, nothing else. */
  predicate DashesAt(p: string, i: int, j: int)
  {
    && 0 <= i < j < |p|
    && p[i] == '-' && p[j] == '-'
    && 2 <= i <= 3 && 3 <= j - i - 1 <= 4 && |p| - j - 1 == 4
    && AllDigits(p[..i]) && AllDigits(p[i + 1..j]) && AllDigits(p[j + 1..])
  }

  /** The strings the phone pattern describes. */
  predicate PhoneShape(p: string)
  {
    exists i, j | 0 <= i < j < |p| :: DashesAt(p, i, j)
  }

  /** The first position at or after `from` holding `c`, or `|s|` when there
      is none. */
  function IndexOf(s: string, c: char, from: nat): (r: nat)
    requires from <= |s|
    ensures from <= r <= |s|
    ensures r < |s| ==> s[r] == c
    ensures forall k :: from <= k < r ==> s[k] != c
    decreases |s| - from
  {
    if from == |s| then |s|
    else if s[from] == c then from
    else IndexOf(s, c, from + 1)
  }

  /** The phone validator: locate the two dashes, then check the three digit
      groups between them. */
  function MatchesPhonePattern(p: string): bool
  {
    var i := IndexOf(p, '-', 0);
    if i == |p| then false
    else
      var j := IndexOf(p, '-', i + 1);
      j < |p| && DashesAt(p, i, j)
  }

  /** The validator accepts exactly the strings of the pattern. */
  lemma PhonePatternExact(p: string)
    ensures MatchesPhonePattern(p) <==> PhoneShape(p)
  {
    if PhoneShape(p) {
      var i, j :| 0 <= i < j < |p| && DashesAt(p, i, j);
      assert p[..i] == p[0..i];
      DigitsBetween(p, 0, i);
      FirstDashAt(p, i, 0);
      DigitsBetween(p, i + 1, j);
      FirstDashAt(p, j, i + 1);
    }
  }

  lemma DigitsBetween(p: string, a: nat, b: nat)
    requires a <= b <= |p| && AllDigits(p[a..b])
    ensures forall k :: a <= k < b ==> IsAsciiDigit(p[k])
  {
    forall k | a <= k < b
      ensures IsAsciiDigit(p[k])
    {
      assert p[a..b][k - a] == p[k];
    }
  }

  /** Digits up to a dash at `i` make `i` the first dash from `from`. */
  lemma FirstDashAt(p: string, i: nat, from: nat)
    requires from <= i < |p| && p[i] == '-'
    requires forall k :: from <= k < i ==> IsAsciiDigit(p[k])
    ensures IndexOf(p, '-', from) == i
  {
  }

  /** An accepted phone number is not empty and contains a dash. */
  lemma AcceptedPhoneHasDash(p: string)
    requires MatchesPhonePattern(p)
    ensures |p| > 0 && '-' in p
  {
  }

  /** The example the error message gives is accepted; the same digits
      without dashes, and a group too short, are not. */
  lemma PhoneExamples()
    ensures MatchesPhonePattern("010-1234-5678")
    ensures MatchesPhonePattern("02-123-4567")
    ensures !MatchesPhonePattern("01012345678")
    ensures !MatchesPhonePattern("010-12-5678")
  {
    assert DashesAt("010-1234-5678", 3, 8);
    PhonePatternExact("010-1234-5678");
    assert DashesAt("02-123-4567", 2, 6);
    PhonePatternExact("02-123-4567");
    PhonePatternExact("01012345678");
    PhonePatternExact("010-12-5678");
  }

  // ----- object-level validation -------------------------------------------

  /** The fields `validate` reads, after field-level validation. */
  datatype InquiryData = InquiryData(
    name: string,
    email: Option<string>,
    phone: Option<string>,
    content: string,
    organizationName: string,
    preferredContact: string,
    inquiryType: string)

  /** The organisation check alone. */
  function OrganisationFault(d: InquiryData): (r: Option<Reason>)
    ensures r.Some? <==> d.inquiryType in {"COMPANY", "WORKSHOP"} && d.organizationName == ""
    ensures r.Some? ==> r.value == (if d.inquiryType == "COMPANY" then CompanyInquiryNeedsName else WorkshopInquiryNeedsName)
  {
    if d.inquiryType == "COMPANY" && d.organizationName == "" then Some(CompanyInquiryNeedsName)
    else if d.inquiryType == "WORKSHOP" && d.organizationName == "" then Some(WorkshopInquiryNeedsName)
    else None
  }

  /** The contact-channel check alone. */
  function ContactFault(d: InquiryData): (r: Option<Reason>)
    ensures d.preferredContact == "EMAIL" ==>
      (r.None? <==> Filled(d.email) && '@' in d.email.value)
    ensures d.preferredContact == "PHONE" ==>
      (r.None? <==> Filled(d.phone) && '-' in d.phone.value)
    ensures d.preferredContact !in {"EMAIL", "PHONE"} ==> r.None?
    ensures d.preferredContact == "EMAIL" && !Filled(d.email) ==> r == Some(EmailRequired)
    ensures d.preferredContact == "PHONE" && !Filled(d.phone) ==> r == Some(PhoneRequired)
  {
    if d.preferredContact == "EMAIL" then
      if !Filled(d.email) then Some(EmailRequired)
      else if '@' !in d.email.value then Some(EmailMalformed)
      else None
    else if d.preferredContact == "PHONE" then
      if !Filled(d.phone) then Some(PhoneRequired)
      else if '-' !in d.phone.value then Some(PhoneMalformed)
      else None
    else None
  }

  /** `InquirySerializer.validate`: the organisation check runs first, then
      the contact check; data that passes comes back unchanged. */
  function ValidateInquiry(d: InquiryData): (r: Result<InquiryData>)
    ensures OrganisationFault(d).Some? ==> r == Err(Invalid(OrganisationFault(d).value))
    ensures OrganisationFault(d).None? && ContactFault(d).Some? ==> r == Err(Invalid(ContactFault(d).value))
    ensures r.Ok? <==> OrganisationFault(d).None? && ContactFault(d).None?
    ensures r.Ok? ==> r.value == d
  {
    match OrganisationFault(d)
    case Some(why) => Err(Invalid(why))
    case None =>
      match ContactFault(d)
      case Some(why) => Err(Invalid(why))
      case None => Ok(d)
  }

  /** An inquiry missing both its organisation name and its preferred contact
      is refused for the organisation name. */
  lemma OrganisationCheckedFirst(d: InquiryData)
    requires d.inquiryType == "WORKSHOP" && d.organizationName == ""
    requires d.preferredContact == "EMAIL" && d.email.None?
    ensures ValidateInquiry(d) == Err(Invalid(WorkshopInquiryNeedsName))
  {
  }

  /** The phone field runs the pattern on a non-null value before `validate`
      sees it; the result is the rejection reason, or `None` when the field
      accepts the value. */
  function PhoneFieldFault(phone: Option<string>): (r: Option<Reason>)
    ensures r.None? <==> phone.None? || MatchesPhonePattern(phone.value)
  {
    if phone.Some? && !MatchesPhonePattern(phone.value) then Some(PhoneMalformed) else None
  }

  /** Once the phone field has accepted a value, the dash check of `validate`
      cannot fail: with the phone channel only a missing phone is refused. */
  lemma PhoneDashCheckRedundant(d: InquiryData)
    requires PhoneFieldFault(d.phone).None? && d.preferredContact == "PHONE"
    ensures ContactFault(d).None? <==> d.phone.Some?
  {
    if d.phone.Some? {
      AcceptedPhoneHasDash(d.phone.value);
    }
  }
}

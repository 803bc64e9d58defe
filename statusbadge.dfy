/** The badge colour of a request status (`StatusBadge`'s `getVariant`). */
module StatusBadge {
  import opened Common
  import opened JsString

  /** The variant for `status`, compared after lower-casing; a missing status
      and every other string get `Light`. */
  function GetVariant(status: Option<string>): (v: Variant)
    ensures v in {Success, Warning, Danger, Secondary, Light}
    ensures v == Success <==> status.Some? && Lower(status.value) == "approved"
    ensures v == Warning <==> status.Some? && Lower(status.value) == "pending"
    ensures v == Danger <==> status.Some? && Lower(status.value) == "denied"
    ensures v == Secondary <==> status.Some? && Lower(status.value) == "revoked"
  {
    if status.None? then Light
    else
      match Lower(status.value)
      case "approved" => Success
      case "pending" => Warning
      case "denied" => Danger
      case "revoked" => Secondary
      case _ => Light
  }

  /** The four known statuses, in lower case. */
  const KnownStatuses: set<string> := {"approved", "pending", "denied", "revoked"}

  /** Everything outside the four known statuses, missing included, is `Light`. */
  lemma UnknownStatusIsLight(status: Option<string>)
    ensures GetVariant(status) == Light <==> status.None? || Lower(status.value) !in KnownStatuses
  {
  }

  /** Statuses that agree once lower-cased get the same badge. */
  lemma CaseInsensitive(a: string, b: string)
    requires Lower(a) == Lower(b)
    ensures GetVariant(Some(a)) == GetVariant(Some(b))
  {
  }

  /** A colour other than `Light` identifies the status up to case. */
  lemma VariantIdentifiesStatus(a: string, b: string)
    requires GetVariant(Some(a)) == GetVariant(Some(b)) != Light
    ensures Lower(a) == Lower(b)
  {
  }

  /** Any spelling gets the badge of its lower-case spelling, so "APPROVED"
      and "Approved" are `success` like "approved". */
  lemma LowerCaseSpellingDecides(s: string)
    ensures GetVariant(Some(s)) == GetVariant(Some(Lower(s)))
  {
    LowerIdempotent(s);
    CaseInsensitive(s, Lower(s));
  }
}

/** The state of one submitted review (domain/value-objects/ReviewState.ts). */
module ReviewStateVO {
  import opened Wrappers

  datatype ReviewState = Approved | ChangesRequested | Commented | Dismissed | Pending

  /** Thrown by `fromString` for any other string. */
  datatype InvalidReviewStateError = InvalidReviewStateError(value: string)

  const ValidStates: seq<string> := ["APPROVED", "CHANGES_REQUESTED", "COMMENTED", "DISMISSED", "PENDING"]

  function ToString(s: ReviewState): (r: string)
    ensures r in ValidStates
  {
    match s
    case Approved => "APPROVED"
    case ChangesRequested => "CHANGES_REQUESTED"
    case Commented => "COMMENTED"
    case Dismissed => "DISMISSED"
    case Pending => "PENDING"
  }

  /** Parses a review state; only the five upper-case names are accepted. */
  function FromString(value: string): (r: Result<ReviewState, InvalidReviewStateError>)
    ensures r.Ok? <==> value in ValidStates
    ensures r.Ok? ==> ToString(r.value) == value
    ensures r.Err? ==> r.error == InvalidReviewStateError(value)
  {
    if value == "APPROVED" then Ok(Approved)
    else if value == "CHANGES_REQUESTED" then Ok(ChangesRequested)
    else if value == "COMMENTED" then Ok(Commented)
    else if value == "DISMISSED" then Ok(Dismissed)
    else if value == "PENDING" then Ok(Pending)
    else Err(InvalidReviewStateError(value))
  }

  predicate IsApproved(s: ReviewState) { ToString(s) == "APPROVED" }
  predicate RequiresChanges(s: ReviewState) { ToString(s) == "CHANGES_REQUESTED" }
  predicate IsCommented(s: ReviewState) { ToString(s) == "COMMENTED" }
  predicate IsDismissed(s: ReviewState) { ToString(s) == "DISMISSED" }
  predicate IsPending(s: ReviewState) { ToString(s) == "PENDING" }

  function Equals(a: ReviewState, b: ReviewState): (r: bool)
    ensures r <==> a == b
  {
    ToString(a) == ToString(b)
  }

  /** The number of the five predicates that hold. */
  function PredicatesHolding(s: ReviewState): nat {
    (if IsApproved(s) then 1 else 0) + (if RequiresChanges(s) then 1 else 0)
    + (if IsCommented(s) then 1 else 0) + (if IsDismissed(s) then 1 else 0)
    + (if IsPending(s) then 1 else 0)
  }

  /** Every review state answers exactly one of the five predicates. */
  lemma ExactlyOnePredicate(s: ReviewState)
    ensures PredicatesHolding(s) == 1
  {
  }

  lemma FromStringOfToString(s: ReviewState)
    ensures FromString(ToString(s)) == Ok(s)
  {
  }
}

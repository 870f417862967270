/** The lifecycle state of a pull request (domain/value-objects/PRState.ts). */
module PRStateVO {
  import opened Wrappers

  /** The four values the state's validation admits. */
  datatype PRState = Open | Draft | Merged | Closed

  /** Thrown by `fromString` for any other string. */
  datatype InvalidPRStateError = InvalidPRStateError(value: string)

  /** The strings `validate` accepts, in the source's order. */
  const ValidStates: seq<string> := ["open", "draft", "merged", "closed"]

  /** The underlying string value. */
  function ToString(s: PRState): (r: string)
    ensures r in ValidStates
  {
    match s
    case Open => "open"
    case Draft => "draft"
    case Merged => "merged"
    case Closed => "closed"
  }

  /** Parses a state; any string outside the four valid ones (case-sensitive) is an error. */
  function FromString(value: string): (r: Result<PRState, InvalidPRStateError>)
    ensures r.Ok? <==> value in ValidStates
    ensures r.Ok? ==> ToString(r.value) == value
    ensures r.Err? ==> r.error == InvalidPRStateError(value)
  {
    if value == "open" then Ok(Open)
    else if value == "draft" then Ok(Draft)
    else if value == "merged" then Ok(Merged)
    else if value == "closed" then Ok(Closed)
    else Err(InvalidPRStateError(value))
  }

  predicate IsOpen(s: PRState) { ToString(s) == "open" }
  predicate IsDraft(s: PRState) { ToString(s) == "draft" }
  predicate IsMerged(s: PRState) { ToString(s) == "merged" }
  predicate IsClosed(s: PRState) { ToString(s) == "closed" }

  /** Equality of the underlying strings, which is equality of states. */
  function Equals(a: PRState, b: PRState): (r: bool)
    ensures r <==> a == b
  {
    ToString(a) == ToString(b)
  }

  /** Every state answers exactly one of the four predicates. */
  lemma ExactlyOnePredicate(s: PRState)
    ensures IsOpen(s) || IsDraft(s) || IsMerged(s) || IsClosed(s)
    ensures IsOpen(s) ==> !IsDraft(s) && !IsMerged(s) && !IsClosed(s)
    ensures IsDraft(s) ==> !IsMerged(s) && !IsClosed(s)
    ensures IsMerged(s) ==> !IsClosed(s)
  {
  }

  /** Printing and parsing back gives the same state. */
  lemma FromStringOfToString(s: PRState)
    ensures FromString(ToString(s)) == Ok(s)
  {
  }
}

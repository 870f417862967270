/** The identifier of a pull request (domain/value-objects/PRId.ts). */
module PRIdVO {
  import opened Wrappers
  import opened Text

  datatype PRId = PRId(value: string)

  /** `PRId.create`: any string with a non-whitespace character, kept untrimmed. */
  function Create(value: string): (r: Result<PRId, string>)
    ensures r.Ok? <==> !IsBlank(value)
    ensures r.Ok? ==> ToString(r.value) == value
    ensures r.Err? ==> r.error == "PR ID cannot be empty"
  {
    if value == [] || IsBlank(value) then Err("PR ID cannot be empty") else Ok(PRId(value))
  }

  function ToString(id: PRId): string {
    id.value
  }

  function Equals(a: PRId, b: PRId): (r: bool)
    ensures r <==> ToString(a) == ToString(b)
  {
    a.value == b.value
  }

  /** Equality of identifiers is reflexive and symmetric. */
  lemma EqualsReflexiveSymmetric(a: PRId, b: PRId)
    ensures Equals(a, a)
    ensures Equals(a, b) == Equals(b, a)
  {
  }

  /** Two created identifiers are equal exactly when they were created from the same string. */
  lemma CreatedEqualIffSameString(s: string, t: string)
    requires Create(s).Ok? && Create(t).Ok?
    ensures Equals(Create(s).value, Create(t).value) <==> s == t
  {
  }
}

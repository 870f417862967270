/** A GitHub repository named by owner and name (domain/value-objects/Repository.ts). */
module RepositoryVO {
  import opened Wrappers
  import opened Text

  datatype Repository = Repository(owner: string, name: string)

  datatype InvalidRepositoryError = InvalidRepositoryError(message: string)

  /** What `validate` demands: neither part empty nor whitespace only. */
  predicate Valid(r: Repository) {
    !IsBlank(r.owner) && !IsBlank(r.name)
  }

  /** `Repository.create`: rejects an empty part first, then a whitespace-only one. */
  function Create(owner: string, name: string): (r: Result<Repository, InvalidRepositoryError>)
    ensures r.Ok? <==> !IsBlank(owner) && !IsBlank(name)
    ensures r.Ok? ==> r.value == Repository(owner, name) && Valid(r.value)
  {
    if owner == [] || name == [] then
      Err(InvalidRepositoryError("Repository owner and name are required"))
    else if IsBlank(owner) || IsBlank(name) then
      Err(InvalidRepositoryError("Repository owner and name cannot be empty"))
    else
      Ok(Repository(owner, name))
  }

  /** "owner/name". */
  function ToString(r: Repository): string {
    r.owner + "/" + r.name
  }

  /** `Repository.fromString`: the string must split on '/' into exactly two parts. */
  function FromString(fullName: string): (r: Result<Repository, InvalidRepositoryError>)
    ensures CountChar(fullName, '/') != 1 ==>
      r == Err(InvalidRepositoryError("Invalid repository format: " + fullName))
    ensures r.Ok? ==> Valid(r.value) && '/' !in r.value.owner && '/' !in r.value.name
  {
    var parts := Split(fullName, '/');
    if |parts| != 2 then
      Err(InvalidRepositoryError("Invalid repository format: " + fullName))
    else
      assert parts[0] in parts && parts[1] in parts;
      Create(parts[0], parts[1])
  }

  function Equals(a: Repository, b: Repository): (r: bool)
    ensures r <==> a == b
  {
    a.owner == b.owner && a.name == b.name
  }

  /** Parsing what `toString` printed gives the repository back, when neither part holds a '/'. */
  lemma {:induction false} FromStringOfToString(r: Repository)
    requires Valid(r) && '/' !in r.owner && '/' !in r.name
    ensures FromString(ToString(r)) == Ok(r)
  {
    SplitAfterFirst(r.owner, r.name, '/');
    SplitWithoutSeparator(r.name, '/');
  }

  /** Printing what `fromString` parsed gives the original string. */
  lemma {:induction false} ToStringOfFromString(fullName: string)
    requires FromString(fullName).Ok?
    ensures ToString(FromString(fullName).value) == fullName
  {
    JoinSplit(fullName, '/');
  }

  /** A valid repository whose owner holds a '/' prints to a string `fromString` rejects. */
  lemma {:induction false} SlashInOwnerBreaksRoundTrip(r: Repository)
    requires Valid(r) && '/' in r.owner
    ensures FromString(ToString(r)).Err?
  {
    CountCharConcat(r.owner, "/" + r.name, '/');
    CountCharConcat("/", r.name, '/');
    CountCharPositive(r.owner, '/');
    assert r.owner + ("/" + r.name) == ToString(r);
  }
}

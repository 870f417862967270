/** The signed-in user (domain/entities/User.ts). */
module UserEntity {
  import opened Wrappers
  import opened Text

  datatype UserId = UserId(value: string)

  /** `UserId.create`: rejects an empty or whitespace-only value. */
  function UserIdCreate(value: string): (r: Result<UserId, string>)
    ensures r.Ok? <==> !IsBlank(value)
    ensures r.Ok? ==> UserIdToString(r.value) == value
  {
    if value == [] || IsBlank(value) then Err("User ID cannot be empty") else Ok(UserId(value))
  }

  function UserIdToString(id: UserId): string {
    id.value
  }

  function UserIdEquals(a: UserId, b: UserId): (r: bool)
    ensures r <==> UserIdToString(a) == UserIdToString(b)
  {
    a.value == b.value
  }

  datatype User = User(id: UserId, login: string, avatarUrl: Option<string>, email: Option<string>)

  datatype UserData = UserData(id: string, login: string, avatarUrl: Option<string>, email: Option<string>)

  /** `User.create`: only the id is validated; login, avatar and email are copied as given. */
  function UserCreate(data: UserData): (r: Result<User, string>)
    ensures r.Ok? <==> !IsBlank(data.id)
    ensures r.Ok? ==> r.value == User(UserId(data.id), data.login, data.avatarUrl, data.email)
  {
    match UserIdCreate(data.id)
    case Err(e) => Err(e)
    case Ok(id) => Ok(User(id, data.login, data.avatarUrl, data.email))
  }

  /** Users are equal when their ids are. */
  function UserEquals(a: User, b: User): (r: bool)
    ensures r <==> a.id == b.id
  {
    UserIdEquals(a.id, b.id)
  }

  /** Two users differing in every field but the id are still equal, and a blank login is accepted. */
  lemma EqualityIgnoresProfile(id: string, login1: string, login2: string)
    requires !IsBlank(id)
    ensures UserCreate(UserData(id, login1, None, None)).Ok?
    ensures UserEquals(UserCreate(UserData(id, login1, None, None)).value,
                       UserCreate(UserData(id, login2, Some("a"), Some("e"))).value)
  {
  }
}

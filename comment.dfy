/** A comment on a pull request and its value parts (domain/entities/Comment.ts). */
module CommentEntity {
  import opened Wrappers
  import opened Text
  import opened CommentSourceVO

  datatype CommentId = CommentId(value: string)

  /** `CommentId.create`: rejects an empty or whitespace-only id. */
  function CommentIdCreate(value: string): (r: Result<CommentId, string>)
    ensures r.Ok? <==> !IsBlank(value)
    ensures r.Ok? ==> r.value.value == value
  {
    if value == [] || IsBlank(value) then Err("Comment ID cannot be empty") else Ok(CommentId(value))
  }

  /** The author as stored on a comment; `CommentAuthor.create` validates nothing. */
  datatype CommentAuthor = CommentAuthor(login: string, kind: AuthorType, avatarUrl: Option<string>)

  predicate AuthorIsBot(a: CommentAuthor) { a.kind == BotAccount }
  predicate AuthorIsHuman(a: CommentAuthor) { a.kind == UserAccount }

  function ToGitHubAuthor(a: CommentAuthor): (g: GitHubAuthor)
    ensures g.login == a.login && g.kind == a.kind
  {
    GitHubAuthor(a.kind, a.login)
  }

  datatype CommentContent = CommentContent(value: string)

  /** `CommentContent.create`: rejects empty or whitespace-only text. */
  function CommentContentCreate(value: string): (r: Result<CommentContent, string>)
    ensures r.Ok? <==> !IsBlank(value)
    ensures r.Ok? ==> ContentLength(r.value) == |value|
  {
    if value == [] || IsBlank(value) then Err("Comment content cannot be empty") else Ok(CommentContent(value))
  }

  /** `CommentContent.length()`: the length of the text (in UTF-16 units in the source). */
  function ContentLength(c: CommentContent): nat {
    |c.value|
  }

  datatype Comment = Comment(
    id: CommentId,
    author: CommentAuthor,
    content: CommentContent,
    source: CommentSource,
    createdAt: int,
    isResolved: bool,
    url: Option<string>)

  /** The argument of `Comment.create`. */
  datatype CommentData = CommentData(
    id: string,
    author: CommentAuthor,
    content: string,
    source: CommentSource,
    createdAt: int,
    isResolved: Option<bool>,
    url: Option<string>)

  /** `Comment.create`: the id is checked first, then the content; `isResolved` defaults to false. */
  function Create(data: CommentData): (r: Result<Comment, string>)
    ensures r.Ok? <==> !IsBlank(data.id) && !IsBlank(data.content)
    ensures IsBlank(data.id) ==> r == Err("Comment ID cannot be empty")
    ensures r.Ok? ==> r.value.isResolved == (data.isResolved == Some(true))
    ensures r.Ok? ==> r.value.id.value == data.id && r.value.author == data.author
                      && r.value.content.value == data.content && r.value.source == data.source
                      && r.value.createdAt == data.createdAt && r.value.url == data.url
  {
    match CommentIdCreate(data.id)
    case Err(e) => Err(e)
    case Ok(id) =>
      match CommentContentCreate(data.content)
      case Err(e) => Err(e)
      case Ok(content) =>
        Ok(Comment(id, data.author, content, data.source, data.createdAt,
                   data.isResolved.GetOr(false), data.url))
  }

  predicate IsFromBot(c: Comment) { AuthorIsBot(c.author) }

  predicate IsFromReviewer(c: Comment) { AuthorIsHuman(c.author) && !IsFromBot(c) }

  /** Strictly newer than `date`. */
  predicate IsNewerThan(c: Comment, date: int) { c.createdAt > date }

  function Resolve(c: Comment): (r: Comment)
    ensures r.isResolved
    ensures r == c.(isResolved := true)
  {
    Comment(c.id, c.author, c.content, c.source, c.createdAt, true, c.url)
  }

  function Unresolve(c: Comment): (r: Comment)
    ensures !r.isResolved
    ensures r == c.(isResolved := false)
  {
    Comment(c.id, c.author, c.content, c.source, c.createdAt, false, c.url)
  }

  /** Every comment is from a bot or from a reviewer, never both: the author type decides. */
  lemma BotXorReviewer(c: Comment)
    ensures IsFromBot(c) != IsFromReviewer(c)
    ensures IsFromBot(c) <==> c.author.kind == BotAccount
  {
  }

  /** Resolving and unresolving are idempotent and each undoes the other on everything but the flag. */
  lemma ResolveLaws(c: Comment)
    ensures Resolve(Resolve(c)) == Resolve(c)
    ensures Unresolve(Unresolve(c)) == Unresolve(c)
    ensures Resolve(Unresolve(c)) == Resolve(c)
    ensures Unresolve(Resolve(c)) == Unresolve(c)
    ensures c.isResolved ==> Resolve(c) == c
    ensures !c.isResolved ==> Unresolve(c) == c
  {
  }
}

/** The pull-request aggregate and its parts (domain/entities/PR.ts). */
module PREntity {
  import opened Wrappers
  import opened Text
  import opened Seqs
  import opened PRIdVO
  import opened PRStateVO
  import opened RepositoryVO
  import opened UserMetadataVO
  import opened CommentEntity

  // ---------------------------------------------------------------------------
  // PRNumber, Title, Author
  // ---------------------------------------------------------------------------

  datatype PRNumber = PRNumber(value: int)

  /** `PRNumber.create`: only positive numbers. */
  function PRNumberCreate(value: int): (r: Result<PRNumber, string>)
    ensures r.Ok? <==> value > 0
    ensures r.Ok? ==> r.value.value == value
  {
    if value <= 0 then Err("PR number must be positive") else Ok(PRNumber(value))
  }

  datatype Title = Title(value: string)

  /** `Title.create`: rejects an empty or whitespace-only title. */
  function TitleCreate(value: string): (r: Result<Title, string>)
    ensures r.Ok? <==> !IsBlank(value)
    ensures r.Ok? ==> r.value.value == value
  {
    if value == [] || IsBlank(value) then Err("Title cannot be empty") else Ok(Title(value))
  }

  datatype Author = Author(login: string, avatarUrl: Option<string>)

  /** `Author.create`: rejects an empty or whitespace-only login. */
  function AuthorCreate(login: string, avatarUrl: Option<string>): (r: Result<Author, string>)
    ensures r.Ok? <==> !IsBlank(login)
    ensures r.Ok? ==> r.value == Author(login, avatarUrl)
  {
    if login == [] || IsBlank(login) then Err("Author login cannot be empty") else Ok(Author(login, avatarUrl))
  }

  /** Authors are equal when their logins are. */
  function AuthorEquals(a: Author, b: Author): (r: bool)
    ensures r <==> a.(avatarUrl := None) == b.(avatarUrl := None)
  {
    a.login == b.login
  }

  // ---------------------------------------------------------------------------
  // ReviewStatus
  // ---------------------------------------------------------------------------

  datatype ReviewStatus = ReviewStatus(approved: int, changesRequested: int, commented: int, pending: int)

  /** The constructor's check: no count is negative. */
  predicate ReviewStatusValid(rs: ReviewStatus) {
    rs.approved >= 0 && rs.changesRequested >= 0 && rs.commented >= 0 && rs.pending >= 0
  }

  /** `ReviewStatus.create`: throws when any of the four counts is negative. */
  function ReviewStatusCreate(approved: int, changesRequested: int, commented: int, pending: int)
    : (r: Result<ReviewStatus, string>)
    ensures r.Ok? <==> approved >= 0 && changesRequested >= 0 && commented >= 0 && pending >= 0
    ensures r.Ok? ==> r.value == ReviewStatus(approved, changesRequested, commented, pending)
    ensures r.Err? ==> r.error == "Review counts cannot be negative"
  {
    if approved < 0 || changesRequested < 0 || commented < 0 || pending < 0 then
      Err("Review counts cannot be negative")
    else
      Ok(ReviewStatus(approved, changesRequested, commented, pending))
  }

  function ReviewStatusEmpty(): (rs: ReviewStatus)
    ensures ReviewStatusValid(rs) && Total(rs) == 0
  {
    ReviewStatus(0, 0, 0, 0)
  }

  predicate HasPendingReviews(rs: ReviewStatus) { rs.pending > 0 }
  predicate HasApprovals(rs: ReviewStatus) { rs.approved > 0 }
  predicate HasChangesRequested(rs: ReviewStatus) { rs.changesRequested > 0 }

  /** The sum of the four counts. */
  function Total(rs: ReviewStatus): int {
    rs.approved + rs.changesRequested + rs.commented + rs.pending
  }

  /** A valid status has a non-negative total bounding each count, and total 0 only when all are 0. */
  lemma TotalBounds(rs: ReviewStatus)
    requires ReviewStatusValid(rs)
    ensures Total(rs) >= rs.approved && Total(rs) >= rs.changesRequested
    ensures Total(rs) >= rs.commented && Total(rs) >= rs.pending
    ensures Total(rs) == 0 ==> rs == ReviewStatusEmpty()
  {
    if Total(rs) == 0 {
      assert rs.approved == 0 && rs.changesRequested == 0 && rs.commented == 0 && rs.pending == 0;
    }
  }

  // ---------------------------------------------------------------------------
  // CommentCollection
  // ---------------------------------------------------------------------------

  datatype CommentCollection = CommentCollection(
    comments: seq<Comment>,
    total: int,
    unresolved: int,
    lastCommentAt: Option<int>)

  function IsUnresolved(c: Comment): bool { !c.isResolved }

  /** `t` is the largest creation time among `cs`, and some comment has it. */
  predicate IsLatestTime(cs: seq<Comment>, t: int) {
    && (exists i :: 0 <= i < |cs| && cs[i].createdAt == t)
    && (forall i :: 0 <= i < |cs| ==> cs[i].createdAt <= t)
  }

  /** The `reduce` step of `CommentCollection.create`: keeps the earlier comment unless a later one is strictly newer. */
  function LatestOf(latest: Comment, rest: seq<Comment>): (r: Comment)
    ensures r == latest || r in rest
    ensures r.createdAt >= latest.createdAt
    ensures forall i :: 0 <= i < |rest| ==> rest[i].createdAt <= r.createdAt
    decreases |rest|
  {
    if rest == [] then latest
    else
      var next := if rest[0].createdAt > latest.createdAt then rest[0] else latest;
      LatestOf(next, rest[1..])
  }

  /** `CommentCollection.create`: total, unresolved count and latest creation time of the list. */
  function CollectionCreate(comments: seq<Comment>): (cc: CommentCollection)
    ensures cc.comments == comments && cc.total == |comments|
    ensures cc.unresolved == Count(comments, IsUnresolved) && 0 <= cc.unresolved <= cc.total
    ensures cc.lastCommentAt.None? <==> comments == []
    ensures cc.lastCommentAt.Some? ==> IsLatestTime(comments, cc.lastCommentAt.value)
  {
    var unresolved := |Filter(comments, IsUnresolved)|;
    if |comments| > 0 then
      var last := LatestOf(comments[0], comments[1..]);
      assert forall i :: 1 <= i < |comments| ==> comments[i] == comments[1..][i - 1];
      var k :| 0 <= k < |comments| && comments[k] == last;
      CommentCollection(comments, |comments|, unresolved, Some(last.createdAt))
    else
      CommentCollection(comments, |comments|, unresolved, None)
  }

  function CollectionEmpty(): (cc: CommentCollection)
    ensures cc == CollectionCreate([])
  {
    CommentCollection([], 0, 0, None)
  }

  /** `getComments()`: a copy of the list. */
  function GetComments(cc: CommentCollection): seq<Comment> {
    cc.comments
  }

  /** False without comments; otherwise the latest comment is strictly newer than `since`. */
  function HasNewCommentsSince(cc: CommentCollection, since: int): bool {
    if cc.lastCommentAt.None? then false else cc.lastCommentAt.value > since
  }

  /** For a created collection, "has new comments" means some comment is strictly newer. */
  lemma HasNewCommentsIffSomeNewer(cs: seq<Comment>, since: int)
    ensures HasNewCommentsSince(CollectionCreate(cs), since)
            <==> exists i :: 0 <= i < |cs| && IsNewerThan(cs[i], since)
  {
    var cc := CollectionCreate(cs);
    if cc.lastCommentAt.Some? {
      var t := cc.lastCommentAt.value;
      var k :| 0 <= k < |cs| && cs[k].createdAt == t;
      if t > since {
        assert IsNewerThan(cs[k], since);
      }
    }
  }

  /** Comments whose source prints as `source`, in order. */
  function GetCommentsBySource(cc: CommentCollection, source: string): (r: seq<Comment>)
    ensures IsSubsequence(r, cc.comments)
    ensures forall i :: 0 <= i < |r| ==> CommentSourceVO.ToString(r[i].source) == source
    ensures forall i :: 0 <= i < |cc.comments| && CommentSourceVO.ToString(cc.comments[i].source) == source
              ==> cc.comments[i] in r
    ensures forall c :: multiset(r)[c] ==
              if CommentSourceVO.ToString(c.source) == source then multiset(cc.comments)[c] else 0
  {
    var p := (c: Comment) => CommentSourceVO.ToString(c.source) == source;
    FilterIsSubsequence(cc.comments, p);
    FilterMembers(cc.comments, p);
    FilterMultiplicity(cc.comments, p);
    Filter(cc.comments, p)
  }

  /** `addComment`: rebuilds the collection from the list with `comment` appended. */
  function AddComment(cc: CommentCollection, comment: Comment): (r: CommentCollection)
    ensures r == CollectionCreate(cc.comments + [comment])
  {
    CollectionCreate(cc.comments + [comment])
  }

  /** Adding one comment to a created collection: total grows by one, unresolved by one exactly when
      the comment is unresolved, and the latest time becomes the larger of the two. */
  lemma AddCommentEffect(cs: seq<Comment>, c: Comment)
    ensures AddComment(CollectionCreate(cs), c).total == CollectionCreate(cs).total + 1
    ensures AddComment(CollectionCreate(cs), c).unresolved
            == CollectionCreate(cs).unresolved + (if c.isResolved then 0 else 1)
    ensures AddComment(CollectionCreate(cs), c).lastCommentAt
            == Some(MaxTime(CollectionCreate(cs).lastCommentAt, c.createdAt))
  {
    CountSnoc(cs, c, IsUnresolved);
    LatestTimeSnoc(cs, c, CollectionCreate(cs).lastCommentAt, CollectionCreate(cs + [c]).lastCommentAt.value);
  }

  /** The larger of an optional time and a time. */
  function MaxTime(t: Option<int>, u: int): int {
    match t
    case None => u
    case Some(v) => if u > v then u else v
  }

  /** The latest time of a list with one more comment is the larger of the old latest time and the new one. */
  lemma LatestTimeSnoc(cs: seq<Comment>, c: Comment, old_: Option<int>, t: int)
    requires old_.None? <==> cs == []
    requires old_.Some? ==> IsLatestTime(cs, old_.value)
    requires IsLatestTime(cs + [c], t)
    ensures t == MaxTime(old_, c.createdAt)
  {
    var s := cs + [c];
    assert s[|cs|] == c;
    var j :| 0 <= j < |s| && s[j].createdAt == t;
    match old_
    case None =>
      assert |s| == 1;
    case Some(v) =>
      var k :| 0 <= k < |cs| && cs[k].createdAt == v;
      assert s[k] == cs[k];
      if j < |cs| {
        assert s[j] == cs[j];
      }
  }

  // ---------------------------------------------------------------------------
  // PR
  // ---------------------------------------------------------------------------

  datatype PR = PR(
    id: PRId,
    number: PRNumber,
    title: Title,
    url: string,
    repository: Repository,
    author: Author,
    assignees: seq<string>,
    reviewers: seq<string>,
    status: PRState,
    reviewStatus: ReviewStatus,
    comments: CommentCollection,
    createdAt: int,
    updatedAt: int,
    lastSyncedAt: int,
    userMetadata: Option<UserMetadata>)

  /** The argument of `PR.create`. */
  datatype PRData = PRData(
    id: string,
    number: int,
    title: string,
    url: string,
    repositoryOwner: string,
    repositoryName: string,
    authorLogin: string,
    authorAvatarUrl: Option<string>,
    assignees: Option<seq<string>>,
    reviewers: Option<seq<string>>,
    status: PRState,
    reviewStatus: ReviewStatus,
    comments: seq<Comment>,
    createdAt: int,
    updatedAt: int,
    lastSyncedAt: int,
    userMetadata: Option<UserMetadata>)

  /** What `PR.create` checks, in the order it checks it. */
  predicate CreateAccepts(data: PRData) {
    && !IsBlank(data.id) && data.number > 0 && !IsBlank(data.title)
    && !IsBlank(data.repositoryOwner) && !IsBlank(data.repositoryName)
    && !IsBlank(data.authorLogin)
  }

  /** `PR.create`: validates id, number, title, repository and author; missing assignee and reviewer
      lists become empty; the comment list becomes a collection. */
  function Create(data: PRData): (r: Result<PR, string>)
    ensures r.Ok? <==> CreateAccepts(data)
    ensures r.Ok? ==> && r.value.assignees == data.assignees.GetOr([])
                      && r.value.reviewers == data.reviewers.GetOr([])
                      && r.value.comments == CollectionCreate(data.comments)
                      && r.value.id.value == data.id && r.value.number.value == data.number
                      && r.value.title.value == data.title && r.value.url == data.url
                      && r.value.repository == Repository(data.repositoryOwner, data.repositoryName)
                      && r.value.author == Author(data.authorLogin, data.authorAvatarUrl)
                      && r.value.status == data.status && r.value.reviewStatus == data.reviewStatus
                      && r.value.createdAt == data.createdAt && r.value.updatedAt == data.updatedAt
                      && r.value.lastSyncedAt == data.lastSyncedAt && r.value.userMetadata == data.userMetadata
  {
    match PRIdVO.Create(data.id)
    case Err(e) => Err(e)
    case Ok(id) =>
      match PRNumberCreate(data.number)
      case Err(e) => Err(e)
      case Ok(number) =>
        match TitleCreate(data.title)
        case Err(e) => Err(e)
        case Ok(title) =>
          match RepositoryVO.Create(data.repositoryOwner, data.repositoryName)
          case Err(e) => Err(e.message)
          case Ok(repository) =>
            match AuthorCreate(data.authorLogin, data.authorAvatarUrl)
            case Err(e) => Err(e)
            case Ok(author) =>
              Ok(PR(id, number, title, data.url, repository, author,
                    data.assignees.GetOr([]), data.reviewers.GetOr([]),
                    data.status, data.reviewStatus, CollectionCreate(data.comments),
                    data.createdAt, data.updatedAt, data.lastSyncedAt, data.userMetadata))
  }

  /** Open and still waiting for at least one requested review. */
  function NeedsReview(pr: PR): (r: bool)
    ensures r <==> pr.status == Open && pr.reviewStatus.pending > 0
  {
    IsOpen(pr.status) && HasPendingReviews(pr.reviewStatus)
  }

  function HasNewComments(pr: PR, since: int): bool {
    HasNewCommentsSince(pr.comments, since)
  }

  function UpdateUserMetadata(pr: PR, metadata: UserMetadata): (r: PR)
    ensures r == pr.(userMetadata := Some(metadata))
  {
    PR(pr.id, pr.number, pr.title, pr.url, pr.repository, pr.author, pr.assignees, pr.reviewers,
       pr.status, pr.reviewStatus, pr.comments, pr.createdAt, pr.updatedAt, pr.lastSyncedAt,
       Some(metadata))
  }

  function UpdateReviewStatus(pr: PR, reviewStatus: ReviewStatus): (r: PR)
    ensures r == pr.(reviewStatus := reviewStatus)
  {
    PR(pr.id, pr.number, pr.title, pr.url, pr.repository, pr.author, pr.assignees, pr.reviewers,
       pr.status, reviewStatus, pr.comments, pr.createdAt, pr.updatedAt, pr.lastSyncedAt,
       pr.userMetadata)
  }

  function UpdateComments(pr: PR, comments: seq<Comment>): (r: PR)
    ensures r == pr.(comments := CollectionCreate(comments))
    ensures r.comments.total == |comments|
  {
    PR(pr.id, pr.number, pr.title, pr.url, pr.repository, pr.author, pr.assignees, pr.reviewers,
       pr.status, pr.reviewStatus, CollectionCreate(comments), pr.createdAt, pr.updatedAt,
       pr.lastSyncedAt, pr.userMetadata)
  }

  function UpdateLastSyncedAt(pr: PR, date: int): (r: PR)
    ensures r == pr.(lastSyncedAt := date)
  {
    PR(pr.id, pr.number, pr.title, pr.url, pr.repository, pr.author, pr.assignees, pr.reviewers,
       pr.status, pr.reviewStatus, pr.comments, pr.createdAt, pr.updatedAt, date, pr.userMetadata)
  }

  function GetUserMetadata(pr: PR): Option<UserMetadata> {
    pr.userMetadata
  }

  /** Updates touch different fields, so two of them commute, and repeating one keeps the last value. */
  lemma UpdatesCommute(pr: PR, rs: ReviewStatus, date: int, m: UserMetadata, rs2: ReviewStatus)
    ensures UpdateLastSyncedAt(UpdateReviewStatus(pr, rs), date) == UpdateReviewStatus(UpdateLastSyncedAt(pr, date), rs)
    ensures UpdateUserMetadata(UpdateReviewStatus(pr, rs), m) == UpdateReviewStatus(UpdateUserMetadata(pr, m), rs)
    ensures UpdateReviewStatus(UpdateReviewStatus(pr, rs), rs2) == UpdateReviewStatus(pr, rs2)
    ensures NeedsReview(UpdateReviewStatus(pr, rs)) <==> pr.status == Open && rs.pending > 0
  {
  }
}

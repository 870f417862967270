/** GitHub's REST payloads and their mapping onto the domain
    (infrastructure/external/github/types.ts, infrastructure/external/github/GitHubPRMapper.ts). */
module GitHubPRMapper {
  import opened Wrappers
  import opened Text
  import opened Seqs
  import opened PRStateVO
  import RS = ReviewStateVO
  import opened CommentSourceVO
  import CommentEntity
  import ReviewEntity
  import opened RepositoryVO
  import opened PREntity

  /** `{ login, avatar_url? }`. */
  datatype GitHubUserRef = GitHubUserRef(login: string, avatarUrl: Option<string>)

  /** `head.repo`: the repository the PR's branch lives in. */
  datatype GitHubRepo = GitHubRepo(ownerLogin: string, name: string)

  /** A pull request as GitHub returns it. `head` is optional because the search endpoint's items carry
      none; timestamps are already parsed to epoch milliseconds. */
  datatype GitHubPR = GitHubPR(
    id: string,
    number: int,
    title: string,
    htmlUrl: string,
    state: string,
    draft: bool,
    user: GitHubUserRef,
    head: Option<GitHubRepo>,
    assignees: seq<GitHubUserRef>,
    requestedReviewers: seq<GitHubUserRef>,
    createdAt: int,
    updatedAt: int,
    mergedAt: Option<string>)

  datatype GitHubCommentUser = GitHubCommentUser(login: string, kind: AuthorType, avatarUrl: Option<string>)

  datatype GitHubComment = GitHubComment(
    id: string,
    user: GitHubCommentUser,
    body: string,
    createdAt: int,
    htmlUrl: Option<string>)

  datatype GitHubReview = GitHubReview(
    id: string,
    user: GitHubUserRef,
    state: string,
    submittedAt: int,
    body: Option<string>)

  /** JavaScript truthiness of an optional string: present and not empty. */
  predicate Truthy(s: Option<string>) {
    s.Some? && s.value != []
  }

  /** `xs.map(x => x.login)`. */
  function LoginsOf(xs: seq<GitHubUserRef>): (ls: seq<string>)
    ensures |ls| == |xs|
    ensures forall i :: 0 <= i < |xs| ==> ls[i] == xs[i].login
  {
    seq(|xs|, i requires 0 <= i < |xs| => xs[i].login)
  }

  /** The state ternary: draft wins, then a closed PR is merged when `merged_at` is set and closed
      otherwise; anything else is open. */
  function DeriveState(gh: GitHubPR): (s: PRState)
    ensures s == Draft <==> gh.draft
    ensures s == Merged <==> !gh.draft && gh.state == "closed" && Truthy(gh.mergedAt)
    ensures s == Closed <==> !gh.draft && gh.state == "closed" && !Truthy(gh.mergedAt)
    ensures s == Open <==> !gh.draft && gh.state != "closed"
  {
    if gh.draft then Draft
    else if gh.state == "closed" then (if Truthy(gh.mergedAt) then Merged else Closed)
    else Open
  }

  /** The review counts the mapper computes: states counted over all reviews, and pending as requested
      reviewers minus reviews, which goes negative when there are more reviews. */
  function MapperCounts(gh: GitHubPR, reviews: seq<ReviewEntity.Review>): (int, int, int, int) {
    (|Filter(reviews, ReviewEntity.IsApproved)|,
     |Filter(reviews, ReviewEntity.RequiresChanges)|,
     |Filter(reviews, ReviewEntity.IsCommented)|,
     |gh.requestedReviewers| - |reviews|)
  }

  /** `toDomainPR`: derives the state, builds the review status (which throws on a negative pending
      count), reads the repository from `head.repo` (a TypeError when absent) and hands everything to
      `PR.create`; the clock reading `now` becomes the sync time. */
  function ToDomainPR(gh: GitHubPR, comments: seq<CommentEntity.Comment>, reviews: seq<ReviewEntity.Review>, now: int)
    : (r: Result<PR, string>)
    ensures |gh.requestedReviewers| < |reviews| ==> r == Err("Review counts cannot be negative")
    ensures r.Ok? <==>
      && |reviews| <= |gh.requestedReviewers| && gh.head.Some?
      && !IsBlank(gh.id) && gh.number > 0 && !IsBlank(gh.title)
      && !IsBlank(gh.head.value.ownerLogin) && !IsBlank(gh.head.value.name) && !IsBlank(gh.user.login)
    ensures r.Ok? ==>
      && r.value.status == DeriveState(gh)
      && r.value.reviewStatus.pending + |reviews| == |gh.requestedReviewers|
      && (r.value.reviewStatus.approved, r.value.reviewStatus.changesRequested,
          r.value.reviewStatus.commented, r.value.reviewStatus.pending) == MapperCounts(gh, reviews)
      && r.value.reviewers == LoginsOf(gh.requestedReviewers)
      && r.value.assignees == LoginsOf(gh.assignees)
      && r.value.repository == Repository(gh.head.value.ownerLogin, gh.head.value.name)
      && r.value.author == Author(gh.user.login, gh.user.avatarUrl)
      && r.value.comments == CollectionCreate(comments)
      && r.value.id.value == gh.id && r.value.number.value == gh.number && r.value.title.value == gh.title
      && r.value.createdAt == gh.createdAt && r.value.updatedAt == gh.updatedAt
      && r.value.lastSyncedAt == now && r.value.userMetadata == None
  {
    var state := DeriveState(gh);
    var (approved, changesRequested, commented, pending) := MapperCounts(gh, reviews);
    match ReviewStatusCreate(approved, changesRequested, commented, pending)
    case Err(e) => Err(e)
    case Ok(reviewStatus) =>
      match gh.head
      case None => Err("Cannot read properties of undefined (reading 'repo')")
      case Some(repo) =>
        PREntity.Create(PRData(
          gh.id, gh.number, gh.title, gh.htmlUrl, repo.ownerLogin, repo.name,
          gh.user.login, gh.user.avatarUrl,
          Some(LoginsOf(gh.assignees)), Some(LoginsOf(gh.requestedReviewers)),
          state, reviewStatus, comments, gh.createdAt, gh.updatedAt, now, None))
  }

  /** GitHub drops a reviewer from `requested_reviewers` once they review, so a single review on a PR
      with no reviewer still requested already makes the mapping throw. */
  lemma ReviewedAfterRequestFails(gh: GitHubPR, comments: seq<CommentEntity.Comment>,
                                  review: ReviewEntity.Review, now: int)
    requires gh.requestedReviewers == []
    ensures ToDomainPR(gh, comments, [review], now).Err?
  {
  }

  /** A successful mapping's counts never exceed what was given: the three state counts fit within the
      reviews and pending within the requested reviewers. */
  lemma MappedCountsBounded(gh: GitHubPR, comments: seq<CommentEntity.Comment>,
                            reviews: seq<ReviewEntity.Review>, now: int)
    requires ToDomainPR(gh, comments, reviews, now).Ok?
    ensures ReviewStatusValid(ToDomainPR(gh, comments, reviews, now).value.reviewStatus)
    ensures var rs := ToDomainPR(gh, comments, reviews, now).value.reviewStatus;
            rs.approved + rs.changesRequested + rs.commented <= |reviews|
            && rs.pending <= |gh.requestedReviewers|
  {
    ReviewEntity.StateCountsBound(reviews);
  }

  /** `toDomainComment`: the source is classified from the author, and the comment starts unresolved. */
  function ToDomainComment(gc: GitHubComment): (r: Result<CommentEntity.Comment, string>)
    ensures r.Ok? <==> !IsBlank(gc.id) && !IsBlank(gc.body)
    ensures r.Ok? ==>
      && !r.value.isResolved
      && r.value.source == FromAuthor(GitHubAuthor(gc.user.kind, gc.user.login))
      && r.value.author == CommentEntity.CommentAuthor(gc.user.login, gc.user.kind, gc.user.avatarUrl)
      && r.value.id.value == gc.id && r.value.content.value == gc.body
      && r.value.createdAt == gc.createdAt && r.value.url == gc.htmlUrl
  {
    var source := FromAuthor(GitHubAuthor(gc.user.kind, gc.user.login));
    CommentEntity.Create(CommentEntity.CommentData(
      gc.id, CommentEntity.CommentAuthor(gc.user.login, gc.user.kind, gc.user.avatarUrl),
      gc.body, source, gc.createdAt, Some(false), gc.htmlUrl))
  }

  /** A mapped comment's source agrees with its author: a bot source exactly for a bot account. */
  lemma MappedCommentSourceAgreesWithAuthor(gc: GitHubComment)
    requires ToDomainComment(gc).Ok?
    ensures CommentEntity.IsFromBot(ToDomainComment(gc).value) <==> IsBot(ToDomainComment(gc).value.source)
    ensures CommentEntity.IsFromReviewer(ToDomainComment(gc).value) <==> ToDomainComment(gc).value.source == Reviewer
  {
    FromAuthorIsBotIffBotAccount(GitHubAuthor(gc.user.kind, gc.user.login));
    BotXorReviewer(ToDomainComment(gc).value.source);
  }

  /** The message `InvalidReviewStateError` carries. */
  function InvalidReviewStateMessage(value: string): string {
    "Invalid review state: " + value + ". Valid states are: APPROVED, CHANGES_REQUESTED, COMMENTED, DISMISSED, PENDING"
  }

  /** `toDomainReview`: the state is parsed first (throwing for anything but the five names), then
      `Review.create` validates id and reviewer. */
  function ToDomainReview(gr: GitHubReview): (r: Result<ReviewEntity.Review, string>)
    ensures gr.state !in RS.ValidStates ==> r == Err(InvalidReviewStateMessage(gr.state))
    ensures r.Ok? <==> gr.state in RS.ValidStates && !IsBlank(gr.id) && !IsBlank(gr.user.login)
    ensures r.Ok? ==>
      && RS.ToString(r.value.state) == gr.state
      && r.value.reviewer == ReviewEntity.Reviewer(gr.user.login, gr.user.avatarUrl)
      && r.value.id.value == gr.id && r.value.submittedAt == gr.submittedAt && r.value.body == gr.body
  {
    match RS.FromString(gr.state)
    case Err(e) => Err(InvalidReviewStateMessage(e.value))
    case Ok(state) =>
      ReviewEntity.Create(ReviewEntity.ReviewData(
        gr.id, gr.user.login, gr.user.avatarUrl, state, gr.submittedAt, gr.body))
  }

  /** The state names are case-sensitive: a lower-case "approved" review does not map. */
  lemma LowerCaseReviewStateRejected(gr: GitHubReview)
    requires gr.state == "approved"
    ensures ToDomainReview(gr) == Err(InvalidReviewStateMessage("approved"))
  {
  }
}

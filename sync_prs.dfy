/** Pulling the user's pull requests from GitHub with their comments and reviews
    (application/use-cases/sync-prs/SyncPRsUseCase.ts). */
module SyncPRs {
  import opened Wrappers
  import opened Seqs
  import CommentEntity
  import ReviewEntity
  import opened PREntity
  import opened GitHubPRMapper
  import opened PRStatusCalculator

  /** The detail sources. The two flags say whether the injected comment and review repositories are
      the GitHub-backed ones (only those are asked); the two functions are GitHub's answers for
      (owner, repo, number), an `Err` standing for a failed request. */
  datatype Sources = Sources(
    commentsFromGitHub: bool,
    reviewsFromGitHub: bool,
    fetchComments: (string, string, int) -> Result<seq<GitHubComment>, string>,
    fetchReviews: (string, string, int) -> Result<seq<GitHubReview>, string>)

  /** `githubComments.map(toDomainComment)`: the first comment that fails to map makes the whole call throw. */
  function MapComments(gcs: seq<GitHubComment>): (r: Result<seq<CommentEntity.Comment>, string>)
    ensures r.Ok? <==> forall i :: 0 <= i < |gcs| ==> ToDomainComment(gcs[i]).Ok?
    ensures r.Ok? ==> |r.value| == |gcs| && forall i :: 0 <= i < |gcs| ==> r.value[i] == ToDomainComment(gcs[i]).value
  {
    if gcs == [] then Ok([])
    else
      match ToDomainComment(gcs[0])
      case Err(e) => Err(e)
      case Ok(c) =>
        match MapComments(gcs[1..])
        case Err(e) => Err(e)
        case Ok(cs) =>
          assert forall i :: 1 <= i < |gcs| ==> gcs[i] == gcs[1..][i - 1];
          Ok([c] + cs)
  }

  /** `githubReviews.map(toDomainReview)`, throwing at the first review with an unknown state or a blank field. */
  function MapReviews(grs: seq<GitHubReview>): (r: Result<seq<ReviewEntity.Review>, string>)
    ensures r.Ok? <==> forall i :: 0 <= i < |grs| ==> ToDomainReview(grs[i]).Ok?
    ensures r.Ok? ==> |r.value| == |grs| && forall i :: 0 <= i < |grs| ==> r.value[i] == ToDomainReview(grs[i]).value
  {
    if grs == [] then Ok([])
    else
      match ToDomainReview(grs[0])
      case Err(e) => Err(e)
      case Ok(rv) =>
        match MapReviews(grs[1..])
        case Err(e) => Err(e)
        case Ok(rvs) =>
          assert forall i :: 1 <= i < |grs| ==> grs[i] == grs[1..][i - 1];
          Ok([rv] + rvs)
  }

  /** `GitHubCommentRepository.findByPRWithRepository`. */
  function FindComments(src: Sources, owner: string, repo: string, number: int): Result<seq<CommentEntity.Comment>, string> {
    match src.fetchComments(owner, repo, number)
    case Err(e) => Err(e)
    case Ok(gcs) => MapComments(gcs)
  }

  /** `GitHubReviewRepository.findByPRWithRepository`. */
  function FindReviews(src: Sources, owner: string, repo: string, number: int): Result<seq<ReviewEntity.Review>, string> {
    match src.fetchReviews(owner, repo, number)
    case Err(e) => Err(e)
    case Ok(grs) => MapReviews(grs)
  }

  /** The comments and reviews the inner `try` leaves behind: both start empty, comments are fetched
      first, and a failure stops the block keeping what was already assigned. */
  function Fetched(src: Sources, repo: GitHubRepo, number: int): (r: (seq<CommentEntity.Comment>, seq<ReviewEntity.Review>))
    ensures src.commentsFromGitHub && FindComments(src, repo.ownerLogin, repo.name, number).Err? ==> r == ([], [])
    ensures src.commentsFromGitHub && FindComments(src, repo.ownerLogin, repo.name, number).Ok? ==>
              r.0 == FindComments(src, repo.ownerLogin, repo.name, number).value
    ensures !src.commentsFromGitHub ==> r.0 == []
    ensures (!src.commentsFromGitHub || FindComments(src, repo.ownerLogin, repo.name, number).Ok?) ==>
              r.1 == (if src.reviewsFromGitHub && FindReviews(src, repo.ownerLogin, repo.name, number).Ok?
                      then FindReviews(src, repo.ownerLogin, repo.name, number).value else [])
  {
    var comments :=
      if src.commentsFromGitHub then FindComments(src, repo.ownerLogin, repo.name, number) else Ok([]);
    match comments
    case Err(_) => ([], [])
    case Ok(cs) =>
      if src.reviewsFromGitHub then
        match FindReviews(src, repo.ownerLogin, repo.name, number)
        case Err(_) => (cs, [])
        case Ok(rs) => (cs, rs)
      else (cs, [])
  }

  /** The reviews a PR is mapped with (none when its head repository is missing). */
  function FetchedReviews(src: Sources, gh: GitHubPR): seq<ReviewEntity.Review> {
    if gh.head.Some? then Fetched(src, gh.head.value, gh.number).1 else []
  }

  /** The outcome of one iteration of the outer `try`: `None` when reading `head.repo` throws or when
      `toDomainPR` throws; otherwise the mapped PR with its review status recomputed by the calculator
      from the same reviews. `now` is the clock reading `toDomainPR` takes. */
  function ProcessPR(src: Sources, gh: GitHubPR, now: int): (r: Option<PR>)
    ensures r.Some? <==> gh.head.Some? && ToDomainPR(gh, Fetched(src, gh.head.value, gh.number).0,
                                                     FetchedReviews(src, gh), now).Ok?
    ensures r.Some? ==>
      var mapped := ToDomainPR(gh, Fetched(src, gh.head.value, gh.number).0, FetchedReviews(src, gh), now).value;
      && r.value == mapped.(reviewStatus := r.value.reviewStatus)
      && r.value.reviewStatus == CalculateReviewStatus(r.value, FetchedReviews(src, gh))
      && |FetchedReviews(src, gh)| <= |gh.requestedReviewers|
  {
    match gh.head
    case None => None
    case Some(repo) =>
      var (comments, reviews) := Fetched(src, repo, gh.number);
      match ToDomainPR(gh, comments, reviews, now)
      case Err(_) => None
      case Ok(pr) => Some(UpdateReviewStatus(pr, CalculateReviewStatus(pr, reviews)))
  }

  /** The present values of a list of outcomes, in order. */
  function Somes<T>(os: seq<Option<T>>): seq<T> {
    if os == [] then [] else Somes(os[..|os| - 1]) + (if os[|os| - 1].Some? then [os[|os| - 1].value] else [])
  }

  /** The positions of the present outcomes, in order. */
  function SomeIndexes<T>(os: seq<Option<T>>): seq<nat> {
    if os == [] then [] else SomeIndexes(os[..|os| - 1]) + (if os[|os| - 1].Some? then [|os| - 1] else [])
  }

  /** `Somes` picks exactly the present outcomes, keeping their order. */
  lemma {:induction false} SomesSelect<T>(os: seq<Option<T>>)
    ensures |SomeIndexes(os)| == |Somes(os)| <= |os|
    ensures forall k :: 0 <= k < |SomeIndexes(os)| ==>
              SomeIndexes(os)[k] < |os| && os[SomeIndexes(os)[k]] == Some(Somes(os)[k])
    ensures forall k, l :: 0 <= k < l < |SomeIndexes(os)| ==> SomeIndexes(os)[k] < SomeIndexes(os)[l]
    ensures forall j :: 0 <= j < |os| && os[j].Some? ==> j in SomeIndexes(os)
  {
    if os != [] {
      var init := os[..|os| - 1];
      SomesSelect(init);
      assert forall j :: 0 <= j < |init| ==> init[j] == os[j];
    }
  }

  /** The outcome of each of GitHub's PRs; the i-th is processed at clock reading `clock(i)`. */
  function Outcomes(src: Sources, ghs: seq<GitHubPR>, clock: nat -> int): (os: seq<Option<PR>>)
    ensures |os| == |ghs|
    ensures forall i :: 0 <= i < |ghs| ==> os[i] == ProcessPR(src, ghs[i], clock(i))
  {
    seq(|ghs|, i requires 0 <= i < |ghs| => ProcessPR(src, ghs[i], clock(i)))
  }

  /** The PRs a sync returns for GitHub's list `ghs`. */
  function Synced(src: Sources, ghs: seq<GitHubPR>, clock: nat -> int): seq<PR> {
    Somes(Outcomes(src, ghs, clock))
  }

  /** The positions in `ghs` of the PRs that survive, in order. */
  function Kept(src: Sources, ghs: seq<GitHubPR>, clock: nat -> int): seq<nat> {
    SomeIndexes(Outcomes(src, ghs, clock))
  }

  /** `execute`: a failure of `getPRs` propagates; otherwise each PR is processed in turn, a PR whose
      processing throws is skipped, and the rest are returned in order. */
  method Execute(src: Sources, githubPRs: Result<seq<GitHubPR>, string>, clock: nat -> int)
    returns (r: Result<seq<PR>, string>)
    ensures githubPRs.Err? ==> r == Err(githubPRs.error)
    ensures githubPRs.Ok? ==> r == Ok(Synced(src, githubPRs.value, clock))
  {
    if githubPRs.Err? {
      return Err(githubPRs.error);
    }
    var prs := githubPRs.value;
    var results: seq<PR> := [];
    for i := 0 to |prs|
      invariant results == Somes(Outcomes(src, prs, clock)[..i])
    {
      var githubPR := prs[i];
      PrefixSnoc(Outcomes(src, prs, clock), i);
      if githubPR.head.Some? {
        var owner := githubPR.head.value.ownerLogin;
        var repo := githubPR.head.value.name;
        var number := githubPR.number;
        var comments: seq<CommentEntity.Comment> := [];
        var reviews: seq<ReviewEntity.Review> := [];
        var failed := false;
        if src.commentsFromGitHub {
          var fetched := FindComments(src, owner, repo, number);
          if fetched.Ok? {
            comments := fetched.value;
          } else {
            failed := true;
          }
        }
        if !failed && src.reviewsFromGitHub {
          var fetched := FindReviews(src, owner, repo, number);
          if fetched.Ok? {
            reviews := fetched.value;
          }
        }
        var mapped := ToDomainPR(githubPR, comments, reviews, clock(i));
        if mapped.Ok? {
          var pr := mapped.value;
          var reviewStatus := CalculateReviewStatus(pr, reviews);
          results := results + [UpdateReviewStatus(pr, reviewStatus)];
        }
      }
    }
    assert Outcomes(src, prs, clock)[..|prs|] == Outcomes(src, prs, clock);
    r := Ok(results);
  }

  /** The result is an order-preserving selection of GitHub's list: the k-th PR comes from position
      `Kept[k]`, the positions increase, and every position whose processing succeeds is kept. */
  lemma SyncedSelection(src: Sources, ghs: seq<GitHubPR>, clock: nat -> int)
    ensures |Kept(src, ghs, clock)| == |Synced(src, ghs, clock)| <= |ghs|
    ensures forall k :: 0 <= k < |Kept(src, ghs, clock)| ==>
      && Kept(src, ghs, clock)[k] < |ghs|
      && ProcessPR(src, ghs[Kept(src, ghs, clock)[k]], clock(Kept(src, ghs, clock)[k])) == Some(Synced(src, ghs, clock)[k])
    ensures forall k, l :: 0 <= k < l < |Kept(src, ghs, clock)| ==> Kept(src, ghs, clock)[k] < Kept(src, ghs, clock)[l]
    ensures forall j :: 0 <= j < |ghs| && ProcessPR(src, ghs[j], clock(j)).Some? ==> j in Kept(src, ghs, clock)
  {
    SomesSelect(Outcomes(src, ghs, clock));
  }

  /** Every PR a sync returns was mapped with at most as many reviews as it had requested reviewers, and
      carries the calculator's review status for those reviews. */
  lemma EmittedPRs(src: Sources, ghs: seq<GitHubPR>, clock: nat -> int, k: nat)
    requires k < |Synced(src, ghs, clock)|
    ensures k < |Kept(src, ghs, clock)| && Kept(src, ghs, clock)[k] < |ghs|
    ensures var j := Kept(src, ghs, clock)[k];
      && |FetchedReviews(src, ghs[j])| <= |ghs[j].requestedReviewers|
      && Synced(src, ghs, clock)[k].reviewStatus
         == CalculateReviewStatus(Synced(src, ghs, clock)[k], FetchedReviews(src, ghs[j]))
  {
    SyncedSelection(src, ghs, clock);
  }

  /** A PR whose fetched reviews outnumber its requested reviewers is dropped: the mapper's negative
      pending count throws. */
  lemma OverReviewedDropped(src: Sources, gh: GitHubPR, now: int)
    requires |FetchedReviews(src, gh)| > |gh.requestedReviewers|
    ensures ProcessPR(src, gh, now) == None
  {
  }

  /** A failed comment request is absorbed: the PR is still synced, with no comments and no reviews
      (the review request is never made), provided it maps at all. */
  lemma CommentFailureStillSyncs(src: Sources, gh: GitHubPR, now: int)
    requires gh.head.Some? && src.commentsFromGitHub
    requires FindComments(src, gh.head.value.ownerLogin, gh.head.value.name, gh.number).Err?
    requires ToDomainPR(gh, [], [], now).Ok?
    ensures ProcessPR(src, gh, now).Some?
    ensures ProcessPR(src, gh, now).value.comments.total == 0
    ensures FetchedReviews(src, gh) == []
    ensures ProcessPR(src, gh, now).value.reviewStatus
            == ReviewStatus(0, 0, 0, |gh.requestedReviewers|)
  {
    var pr := ProcessPR(src, gh, now).value;
    assert Logins([]) == {};
  }

  /** A failed review request keeps the comments already fetched. */
  lemma ReviewFailureKeepsComments(src: Sources, gh: GitHubPR, now: int)
    requires gh.head.Some? && src.commentsFromGitHub && src.reviewsFromGitHub
    requires FindComments(src, gh.head.value.ownerLogin, gh.head.value.name, gh.number).Ok?
    requires FindReviews(src, gh.head.value.ownerLogin, gh.head.value.name, gh.number).Err?
    requires ProcessPR(src, gh, now).Some?
    ensures ProcessPR(src, gh, now).value.comments
            == CollectionCreate(FindComments(src, gh.head.value.ownerLogin, gh.head.value.name, gh.number).value)
    ensures FetchedReviews(src, gh) == []
  {
  }
}

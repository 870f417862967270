/** A submitted review and its parts (domain/entities/Review.ts). */
module ReviewEntity {
  import opened Wrappers
  import opened Text
  import opened ReviewStateVO
  import opened Seqs

  datatype ReviewId = ReviewId(value: string)

  /** `ReviewId.create`: rejects an empty or whitespace-only id. */
  function ReviewIdCreate(value: string): (r: Result<ReviewId, string>)
    ensures r.Ok? <==> !IsBlank(value)
    ensures r.Ok? ==> r.value.value == value
  {
    if value == [] || IsBlank(value) then Err("Review ID cannot be empty") else Ok(ReviewId(value))
  }

  datatype Reviewer = Reviewer(login: string, avatarUrl: Option<string>)

  /** `Reviewer.create`: rejects an empty or whitespace-only login. */
  function ReviewerCreate(login: string, avatarUrl: Option<string>): (r: Result<Reviewer, string>)
    ensures r.Ok? <==> !IsBlank(login)
    ensures r.Ok? ==> r.value == Reviewer(login, avatarUrl)
  {
    if login == [] || IsBlank(login) then Err("Reviewer login cannot be empty") else Ok(Reviewer(login, avatarUrl))
  }

  /** Reviewers are equal when their logins are; the avatar is ignored. */
  function ReviewerEquals(a: Reviewer, b: Reviewer): (r: bool)
    ensures r <==> a.(avatarUrl := None) == b.(avatarUrl := None)
  {
    a.login == b.login
  }

  datatype Review = Review(
    id: ReviewId,
    reviewer: Reviewer,
    state: ReviewState,
    submittedAt: int,
    body: Option<string>)

  /** The argument of `Review.create`. */
  datatype ReviewData = ReviewData(
    id: string,
    reviewerLogin: string,
    reviewerAvatarUrl: Option<string>,
    state: ReviewState,
    submittedAt: int,
    body: Option<string>)

  /** `Review.create`: the id is checked first, then the reviewer login. */
  function Create(data: ReviewData): (r: Result<Review, string>)
    ensures r.Ok? <==> !IsBlank(data.id) && !IsBlank(data.reviewerLogin)
    ensures IsBlank(data.id) ==> r == Err("Review ID cannot be empty")
    ensures r.Ok? ==> r.value == Review(ReviewId(data.id), Reviewer(data.reviewerLogin, data.reviewerAvatarUrl),
                                        data.state, data.submittedAt, data.body)
  {
    match ReviewIdCreate(data.id)
    case Err(e) => Err(e)
    case Ok(id) =>
      match ReviewerCreate(data.reviewerLogin, data.reviewerAvatarUrl)
      case Err(e) => Err(e)
      case Ok(reviewer) => Ok(Review(id, reviewer, data.state, data.submittedAt, data.body))
  }

  predicate IsApproved(r: Review) { ReviewStateVO.IsApproved(r.state) }
  predicate RequiresChanges(r: Review) { ReviewStateVO.RequiresChanges(r.state) }
  predicate IsCommented(r: Review) { ReviewStateVO.IsCommented(r.state) }
  predicate IsDismissed(r: Review) { ReviewStateVO.IsDismissed(r.state) }
  predicate IsPending(r: Review) { ReviewStateVO.IsPending(r.state) }

  /** Strictly newer than `date`. */
  predicate IsNewerThan(r: Review, date: int) { r.submittedAt > date }

  /** Any review answers exactly one of the five state predicates. */
  lemma ExactlyOneStatePredicate(r: Review)
    ensures (if IsApproved(r) then 1 else 0) + (if RequiresChanges(r) then 1 else 0)
            + (if IsCommented(r) then 1 else 0) + (if IsDismissed(r) then 1 else 0)
            + (if IsPending(r) then 1 else 0) == 1
  {
    ReviewStateVO.ExactlyOnePredicate(r.state);
  }

  /** The approved, changes-requested and commented filters pick disjoint reviews, so their counts
      together never exceed the number of reviews. */
  lemma {:induction false} StateCountsBound(reviews: seq<Review>)
    ensures Count(reviews, IsApproved) + Count(reviews, RequiresChanges) + Count(reviews, IsCommented) <= |reviews|
  {
    if reviews != [] {
      StateCountsBound(reviews[1..]);
      ExactlyOneStatePredicate(reviews[0]);
    }
  }
}

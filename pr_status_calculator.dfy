/** Derives a pull request's review counts from its submitted reviews (domain/services/PRStatusCalculator.ts). */
module PRStatusCalculator {
  import opened Wrappers
  import opened Seqs
  import opened PRStateVO
  import opened ReviewStateVO
  import RE = ReviewEntity
  import opened PREntity

  /** `new Set(reviews.map(r => r.reviewer.login))`. */
  function Logins(reviews: seq<RE.Review>): set<string> {
    set i | 0 <= i < |reviews| :: reviews[i].reviewer.login
  }

  /** Requested reviewers minus distinct reviewing logins, clamped at zero. */
  function PendingOf(requested: nat, reviewedBy: nat): nat {
    if requested > reviewedBy then requested - reviewedBy else 0
  }

  /** `calculateReviewStatus`: every review is counted by its state, several from one reviewer included;
      pending is the requested-reviewer count minus the number of distinct reviewing logins, floored at 0.
      Neither side is matched against the other: any reviewer's review, in any state, reduces pending. */
  function CalculateReviewStatus(pr: PR, reviews: seq<RE.Review>): (rs: ReviewStatus)
    ensures ReviewStatusValid(rs)
    ensures rs.approved == |Filter(reviews, RE.IsApproved)|
    ensures rs.changesRequested == |Filter(reviews, RE.RequiresChanges)|
    ensures rs.commented == |Filter(reviews, RE.IsCommented)|
    ensures rs.pending == PendingOf(|pr.reviewers|, |Logins(reviews)|)
    ensures rs.approved + rs.changesRequested + rs.commented <= |reviews|
    ensures rs.pending <= |pr.reviewers|
  {
    RE.StateCountsBound(reviews);
    var approved := Count(reviews, RE.IsApproved);
    var changesRequested := Count(reviews, RE.RequiresChanges);
    var commented := Count(reviews, RE.IsCommented);
    var pending := |pr.reviewers| - |Logins(reviews)|;
    var r := ReviewStatusCreate(approved, changesRequested, commented, if pending > 0 then pending else 0);
    r.value
  }

  /** `determinePRState`: the ladder over merged, closed, draft and the review counts always
      answers the state the PR already has. */
  function DeterminePRState(pr: PR, reviews: seq<RE.Review>): (r: PRState)
    ensures r == pr.status
  {
    if PRStateVO.IsMerged(pr.status) then Merged
    else if PRStateVO.IsClosed(pr.status) then Closed
    else if PRStateVO.IsDraft(pr.status) then Draft
    else
      var reviewStatus := CalculateReviewStatus(pr, reviews);
      if HasChangesRequested(reviewStatus) then Open
      else if HasApprovals(reviewStatus) then Open
      else Open
  }

  lemma LoginsSnoc(reviews: seq<RE.Review>, x: RE.Review)
    ensures Logins(reviews + [x]) == Logins(reviews) + {x.reviewer.login}
  {
    var s := reviews + [x];
    forall l | l in Logins(s) ensures l in Logins(reviews) + {x.reviewer.login} {
      var i :| 0 <= i < |s| && s[i].reviewer.login == l;
      if i < |reviews| { assert s[i] == reviews[i]; }
    }
    forall l | l in Logins(reviews) ensures l in Logins(s) {
      var i :| 0 <= i < |reviews| && reviews[i].reviewer.login == l;
      assert s[i] == reviews[i];
    }
    assert s[|reviews|] == x;
  }

  /** A review from a login not seen before lowers pending by one (while it is positive), whatever the
      review's state and whether or not that login was a requested reviewer. */
  lemma NewLoginLowersPending(pr: PR, reviews: seq<RE.Review>, x: RE.Review)
    requires x.reviewer.login !in Logins(reviews)
    ensures CalculateReviewStatus(pr, reviews + [x]).pending
         == PendingOf(CalculateReviewStatus(pr, reviews).pending, 1)
  {
    LoginsSnoc(reviews, x);
  }

  /** A further review from a login already seen leaves pending alone but is counted again:
      the calculator does not reduce to one review per reviewer. */
  lemma RepeatLoginCountedAgain(pr: PR, reviews: seq<RE.Review>, x: RE.Review)
    requires x.reviewer.login in Logins(reviews)
    ensures CalculateReviewStatus(pr, reviews + [x]).pending == CalculateReviewStatus(pr, reviews).pending
    ensures CalculateReviewStatus(pr, reviews + [x]).approved
         == CalculateReviewStatus(pr, reviews).approved + (if RE.IsApproved(x) then 1 else 0)
    ensures CalculateReviewStatus(pr, reviews + [x]).changesRequested
         == CalculateReviewStatus(pr, reviews).changesRequested + (if RE.RequiresChanges(x) then 1 else 0)
  {
    LoginsSnoc(reviews, x);
    assert Logins(reviews + [x]) == Logins(reviews);
    CountSnoc(reviews, x, RE.IsApproved);
    CountSnoc(reviews, x, RE.RequiresChanges);
  }

  /** Three requested reviewers who approve, request changes and comment: one of each, none pending. */
  lemma MixedReviewStates(pr: PR, a: RE.Review, b: RE.Review, c: RE.Review)
    requires pr.reviewers == ["reviewer1", "reviewer2", "reviewer3"]
    requires a.reviewer.login == "reviewer1" && a.state == Approved
    requires b.reviewer.login == "reviewer2" && b.state == ChangesRequested
    requires c.reviewer.login == "reviewer3" && c.state == Commented
    ensures CalculateReviewStatus(pr, [a, b, c]) == ReviewStatus(1, 1, 1, 0)
  {
    ThreeSnocs(a, b, c);
    ThreeLogins(a, b, c);
    var rs := CalculateReviewStatus(pr, [a, b, c]);
    assert rs.pending == 0;
  }

  lemma ThreeLogins(a: RE.Review, b: RE.Review, c: RE.Review)
    requires a.reviewer.login == "reviewer1" && b.reviewer.login == "reviewer2" && c.reviewer.login == "reviewer3"
    ensures |Logins([a, b, c])| == 3
  {
    LoginsSnoc([], a);
    assert [] + [a] == [a];
    LoginsSnoc([a], b);
    assert [a] + [b] == [a, b];
    LoginsSnoc([a, b], c);
    assert [a, b] + [c] == [a, b, c];
    assert Logins([]) == {};
    assert Logins([a, b, c]) == {"reviewer1", "reviewer2", "reviewer3"};
  }

  lemma ThreeSnocs(a: RE.Review, b: RE.Review, c: RE.Review)
    requires a.state == Approved && b.state == ChangesRequested && c.state == Commented
    ensures Count([a, b, c], RE.IsApproved) == 1
    ensures Count([a, b, c], RE.RequiresChanges) == 1
    ensures Count([a, b, c], RE.IsCommented) == 1
  {
    assert [a, b, c][1..] == [b, c] && [b, c][1..] == [c] && [c][1..] == [];
    assert Filter([c], RE.IsApproved) == [] && Filter([b, c], RE.IsApproved) == [];
    assert Filter([a, b, c], RE.IsApproved) == [a];
    assert Filter([c], RE.RequiresChanges) == [] && Filter([b, c], RE.RequiresChanges) == [b];
    assert Filter([a, b, c], RE.RequiresChanges) == [b];
    assert Filter([c], RE.IsCommented) == [c] && Filter([b, c], RE.IsCommented) == [c];
    assert Filter([a, b, c], RE.IsCommented) == [c];
  }
}

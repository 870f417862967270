/** Narrowing the user's stored pull requests by optional criteria
    (application/use-cases/filter-prs/FilterPRsUseCase.ts, FilterPRsQuery.ts). */
module FilterPRs {
  import opened Wrappers
  import opened Text
  import opened Seqs
  import opened PRStateVO
  import opened RepositoryVO
  import opened UserEntity
  import opened PREntity
  import opened PRMapper

  datatype DateRange = DateRange(from: int, to: int)

  /** `FilterPRsQuery`: every criterion is optional. */
  datatype FilterQuery = FilterQuery(
    userId: UserId,
    repository: Option<Repository>,
    status: Option<PRState>,
    assignee: Option<string>,
    dateRange: Option<DateRange>,
    search: Option<string>)

  /** The guard of the k-th `if`: the criterion is present and, for the two strings, not empty
      (an empty string is falsy). */
  predicate Applies(q: FilterQuery, k: nat) {
    if k == 1 then q.repository.Some?
    else if k == 2 then q.status.Some?
    else if k == 3 then q.assignee.Some? && q.assignee.value != []
    else if k == 4 then q.dateRange.Some?
    else if k == 5 then q.search.Some? && q.search.value != []
    else false
  }

  /** The case-insensitive search: the lower-cased title, "owner/name" or author login contains the
      lower-cased term. */
  predicate SearchHit(pr: PR, term: string) {
    var needle := Lower(term);
    || Contains(Lower(pr.title.value), needle)
    || Contains(Lower(RepositoryVO.ToString(pr.repository)), needle)
    || Contains(Lower(pr.author.login), needle)
  }

  /** The body of the k-th filter, meaningful when its guard holds. */
  predicate Test(q: FilterQuery, k: nat, pr: PR)
    requires Applies(q, k)
  {
    if k == 1 then RepositoryVO.Equals(pr.repository, q.repository.value)
    else if k == 2 then PRStateVO.Equals(pr.status, q.status.value)
    else if k == 3 then q.assignee.value in pr.assignees
    else if k == 4 then q.dateRange.value.from <= pr.updatedAt <= q.dateRange.value.to
    else SearchHit(pr, q.search.value)
  }

  /** The k-th criterion: vacuous when its guard fails. */
  predicate Criterion(q: FilterQuery, k: nat, pr: PR) {
    Applies(q, k) ==> Test(q, k, pr)
  }

  /** The first `k` criteria hold. */
  predicate UpTo(q: FilterQuery, k: nat, pr: PR) {
    k == 0 || (UpTo(q, k - 1, pr) && Criterion(q, k, pr))
  }

  function Stage(q: FilterQuery, k: nat): PR -> bool {
    pr => UpTo(q, k, pr)
  }

  function Step(q: FilterQuery, k: nat): PR -> bool
    requires Applies(q, k)
  {
    pr => Test(q, k, pr)
  }

  /** A PR passes every criterion of the query. */
  predicate Matches(q: FilterQuery, pr: PR) {
    UpTo(q, 5, pr)
  }

  /** The criteria, spelt out. */
  lemma MatchesMeaning(q: FilterQuery, pr: PR)
    ensures Matches(q, pr) <==>
      && (q.repository.Some? ==> pr.repository == q.repository.value)
      && (q.status.Some? ==> pr.status == q.status.value)
      && (q.assignee.Some? && q.assignee.value != [] ==> q.assignee.value in pr.assignees)
      && (q.dateRange.Some? ==> q.dateRange.value.from <= pr.updatedAt <= q.dateRange.value.to)
      && (q.search.Some? && q.search.value != [] ==> SearchHit(pr, q.search.value))
  {
    assert UpTo(q, 5, pr) == (UpTo(q, 4, pr) && Criterion(q, 5, pr));
    assert UpTo(q, 4, pr) == (UpTo(q, 3, pr) && Criterion(q, 4, pr));
    assert UpTo(q, 3, pr) == (UpTo(q, 2, pr) && Criterion(q, 3, pr));
    assert UpTo(q, 2, pr) == (UpTo(q, 1, pr) && Criterion(q, 2, pr));
    assert UpTo(q, 1, pr) == Criterion(q, 1, pr);
  }

  /** The PRs that pass every criterion, in their original order. */
  function Selected(prs: seq<PR>, q: FilterQuery): seq<PR> {
    Filter(prs, Stage(q, 5))
  }

  /** One `if`: filtering what the first k-1 criteria left by the k-th (or leaving it when the guard
      fails) leaves what the first k criteria select. */
  lemma Advance(prs: seq<PR>, q: FilterQuery, k: nat, cur: seq<PR>)
    requires 1 <= k && cur == Filter(prs, Stage(q, k - 1))
    ensures Applies(q, k) ==> Filter(cur, Step(q, k)) == Filter(prs, Stage(q, k))
    ensures !Applies(q, k) ==> cur == Filter(prs, Stage(q, k))
  {
    if Applies(q, k) {
      FilterCompose(prs, Stage(q, k - 1), Step(q, k), Stage(q, k));
    } else {
      FilterExt(prs, Stage(q, k - 1), Stage(q, k));
    }
  }

  /** `execute`: `found` is what the repository returns for the query's user; each present criterion
      narrows the list in turn, and the survivors are mapped to DTOs. */
  method Execute(found: seq<PR>, query: FilterQuery) returns (dtos: seq<PRDTO>)
    ensures dtos == DTOsOf(Selected(found, query))
  {
    var prs := found;
    FilterAll(found, Stage(query, 0));

    Advance(found, query, 1, prs);
    if query.repository.Some? {
      prs := Filter(prs, Step(query, 1));
    }
    assert prs == Filter(found, Stage(query, 1));

    Advance(found, query, 2, prs);
    if query.status.Some? {
      prs := Filter(prs, Step(query, 2));
    }
    assert prs == Filter(found, Stage(query, 2));

    Advance(found, query, 3, prs);
    if query.assignee.Some? && query.assignee.value != [] {
      prs := Filter(prs, Step(query, 3));
    }
    assert prs == Filter(found, Stage(query, 3));

    Advance(found, query, 4, prs);
    if query.dateRange.Some? {
      prs := Filter(prs, Step(query, 4));
    }
    assert prs == Filter(found, Stage(query, 4));

    Advance(found, query, 5, prs);
    if query.search.Some? && query.search.value != [] {
      prs := Filter(prs, Step(query, 5));
    }
    assert prs == Filter(found, Stage(query, 5)) == Selected(found, query);

    dtos := ToDTOs(prs);
  }

  /** The selection is an order-preserving sublist holding exactly the matching PRs, each as often as
      it occurs in the input. */
  lemma SelectedFacts(prs: seq<PR>, q: FilterQuery)
    ensures IsSubsequence(Selected(prs, q), prs)
    ensures forall i :: 0 <= i < |Selected(prs, q)| ==> Matches(q, Selected(prs, q)[i])
    ensures forall i :: 0 <= i < |prs| && Matches(q, prs[i]) ==> prs[i] in Selected(prs, q)
    ensures forall pr :: multiset(Selected(prs, q))[pr] == if Matches(q, pr) then multiset(prs)[pr] else 0
  {
    FilterIsSubsequence(prs, Stage(q, 5));
    FilterMembers(prs, Stage(q, 5));
    FilterMultiplicity(prs, Stage(q, 5));
  }

  /** With no criterion, or only empty strings, nothing is dropped. */
  lemma NoCriteriaKeepsAll(prs: seq<PR>, q: FilterQuery)
    requires q.repository.None? && q.status.None? && q.dateRange.None?
    requires q.assignee.None? || q.assignee.value == []
    requires q.search.None? || q.search.value == []
    ensures Selected(prs, q) == prs
  {
    forall i | 0 <= i < |prs| ensures Stage(q, 5)(prs[i]) {
      MatchesMeaning(q, prs[i]);
    }
    FilterAll(prs, Stage(q, 5));
  }

  /** Repository, status and assignee together: of an open PR in owner/repo1, a draft one there and
      an open one in owner/repo2, all assigned to assignee1, only the first remains. */
  lemma CombinedFilters(p1: PR, p2: PR, p3: PR, q: FilterQuery)
    requires q.repository == Some(Repository("owner", "repo1")) && q.status == Some(Open)
    requires q.assignee == Some("assignee1") && q.dateRange.None? && q.search.None?
    requires p1.repository == Repository("owner", "repo1") && p1.status == Open && "assignee1" in p1.assignees
    requires p2.repository == Repository("owner", "repo1") && p2.status == Draft && "assignee1" in p2.assignees
    requires p3.repository == Repository("owner", "repo2") && p3.status == Open && "assignee1" in p3.assignees
    ensures Selected([p1, p2, p3], q) == [p1]
  {
    MatchesMeaning(q, p1);
    MatchesMeaning(q, p2);
    MatchesMeaning(q, p3);
    assert [p1, p2, p3][1..] == [p2, p3] && [p2, p3][1..] == [p3] && [p3][1..] == [];
    assert Filter([p3], Stage(q, 5)) == [];
    assert Filter([p2, p3], Stage(q, 5)) == [];
  }
}

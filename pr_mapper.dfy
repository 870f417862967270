/** The transfer object handed to the UI, and the mapping onto it
    (application/dto/PRDTO.ts, application/mappers/PRMapper.ts). */
module PRMapper {
  import opened Wrappers
  import opened Seqs
  import opened OrderedMaps
  import PRStateVO
  import RepositoryVO
  import opened UserMetadataVO
  import opened PREntity
  import CA = CommentAnalyzer
  import CommentSourceVO

  datatype RepositoryDTO = RepositoryDTO(owner: string, name: string, fullName: string)
  datatype AuthorDTO = AuthorDTO(login: string, avatarUrl: Option<string>)
  datatype ReviewStatusDTO = ReviewStatusDTO(approved: int, changesRequested: int, commented: int, pending: int)

  /** `bySource` is a plain record filled in the order the statistics map yields its entries. */
  datatype CommentsDTO = CommentsDTO(
    total: int,
    unresolved: int,
    lastCommentAt: Option<int>,
    bySource: Option<Entries<string, int>>)

  /** `PRDTO`; times stay epoch milliseconds. */
  datatype PRDTO = PRDTO(
    id: string,
    number: int,
    title: string,
    url: string,
    repository: RepositoryDTO,
    author: AuthorDTO,
    assignees: seq<string>,
    reviewers: seq<string>,
    status: string,
    reviewStatus: ReviewStatusDTO,
    comments: CommentsDTO,
    createdAt: int,
    updatedAt: int,
    lastSyncedAt: int,
    userMetadata: Option<UserMetadata>)

  /** The `forEach` that copies each statistics entry into the record `bySource[source] = count`.
      The statistics map never repeats a key, so the record ends up with the same entries in the
      same order. */
  method CopyBySource(entries: Entries<string, int>) returns (record: Entries<string, int>)
    requires DistinctKeys(entries)
    ensures record == entries
  {
    record := [];
    for i := 0 to |entries|
      invariant record == entries[..i]
    {
      var (source, count) := entries[i];
      assert !HasKey(record, source);
      SetFacts(record, source, count);
      record := Set(record, source, count);
      assert entries[..i + 1] == entries[..i] + [entries[i]];
    }
    assert entries[..|entries|] == entries;
  }

  /** The DTO `toDTO` builds: the statistics' per-source counts when there are any, no record otherwise. */
  function DTOOf(pr: PR): PRDTO {
    var stats := CA.Statistics(GetComments(pr.comments));
    PRDTO(
      pr.id.value, pr.number.value, pr.title.value, pr.url,
      RepositoryDTO(pr.repository.owner, pr.repository.name, RepositoryVO.ToString(pr.repository)),
      AuthorDTO(pr.author.login, pr.author.avatarUrl),
      pr.assignees, pr.reviewers,
      PRStateVO.ToString(pr.status),
      ReviewStatusDTO(pr.reviewStatus.approved, pr.reviewStatus.changesRequested,
                      pr.reviewStatus.commented, pr.reviewStatus.pending),
      CommentsDTO(pr.comments.total, pr.comments.unresolved, pr.comments.lastCommentAt,
                  if |stats.bySource| > 0 then Some(stats.bySource) else None),
      pr.createdAt, pr.updatedAt, pr.lastSyncedAt,
      GetUserMetadata(pr))
  }

  /** `toDTO`. */
  method ToDTO(pr: PR) returns (dto: PRDTO)
    ensures dto == DTOOf(pr)
  {
    var commentStats := CA.AnalyzeComments(GetComments(pr.comments));
    CA.StatisticsFacts(GetComments(pr.comments));
    var bySource := CopyBySource(commentStats.bySource);
    dto := PRDTO(
      pr.id.value, pr.number.value, pr.title.value, pr.url,
      RepositoryDTO(pr.repository.owner, pr.repository.name, RepositoryVO.ToString(pr.repository)),
      AuthorDTO(pr.author.login, pr.author.avatarUrl),
      pr.assignees, pr.reviewers,
      PRStateVO.ToString(pr.status),
      ReviewStatusDTO(pr.reviewStatus.approved, pr.reviewStatus.changesRequested,
                      pr.reviewStatus.commented, pr.reviewStatus.pending),
      CommentsDTO(pr.comments.total, pr.comments.unresolved, pr.comments.lastCommentAt,
                  if |Keys(bySource)| > 0 then Some(bySource) else None),
      pr.createdAt, pr.updatedAt, pr.lastSyncedAt,
      GetUserMetadata(pr));
  }

  /** What the DTO says about the PR: the review counts and comment totals are copied unchanged, the
      full name is "owner/name" and parses back to the repository, the status is the state's name,
      the record is absent exactly when there are no comments, and otherwise each source's entry
      counts that source's comments. For a collection built by `CommentCollection.create` the record's
      counts sum to its total. */
  lemma DTOFacts(pr: PR)
    ensures DTOOf(pr).reviewStatus.approved == pr.reviewStatus.approved
    ensures DTOOf(pr).reviewStatus.changesRequested == pr.reviewStatus.changesRequested
    ensures DTOOf(pr).reviewStatus.commented == pr.reviewStatus.commented
    ensures DTOOf(pr).reviewStatus.pending == pr.reviewStatus.pending
    ensures DTOOf(pr).comments.total == pr.comments.total
    ensures DTOOf(pr).comments.unresolved == pr.comments.unresolved
    ensures DTOOf(pr).repository.fullName == pr.repository.owner + "/" + pr.repository.name
    ensures PRStateVO.FromString(DTOOf(pr).status) == Ok(pr.status)
    ensures DTOOf(pr).comments.bySource.None? <==> pr.comments.comments == []
    ensures DTOOf(pr).comments.bySource.Some? ==>
      && DistinctKeys(DTOOf(pr).comments.bySource.value)
      && forall s :: Get(DTOOf(pr).comments.bySource.value, CommentSourceVO.ToString(s)).GetOr(0)
                     == |CA.GetCommentsBySource(pr.comments.comments, s)|
    ensures pr.comments == CollectionCreate(pr.comments.comments) && DTOOf(pr).comments.bySource.Some? ==>
      Sum(Values(DTOOf(pr).comments.bySource.value)) == DTOOf(pr).comments.total
  {
    CA.StatisticsFacts(pr.comments.comments);
    PRStateVO.FromStringOfToString(pr.status);
  }

  /** The DTOs of a list of PRs, one per PR in the same order. */
  function DTOsOf(prs: seq<PR>): (dtos: seq<PRDTO>)
    ensures |dtos| == |prs|
    ensures forall i :: 0 <= i < |prs| ==> dtos[i] == DTOOf(prs[i])
  {
    seq(|prs|, i requires 0 <= i < |prs| => DTOOf(prs[i]))
  }

  /** `toDTOs`: maps each PR, keeping length and order. */
  method ToDTOs(prs: seq<PR>) returns (dtos: seq<PRDTO>)
    ensures dtos == DTOsOf(prs)
  {
    dtos := [];
    for i := 0 to |prs|
      invariant dtos == DTOsOf(prs[..i])
    {
      var dto := ToDTO(prs[i]);
      DTOsOfConcat(prs[..i], [prs[i]]);
      PrefixSnoc(prs, i);
      dtos := dtos + [dto];
    }
    assert prs[..|prs|] == prs;
  }

  /** Mapping distributes over concatenation, so the DTOs of a sublist are a sublist of the DTOs. */
  lemma DTOsOfConcat(a: seq<PR>, b: seq<PR>)
    ensures DTOsOf(a + b) == DTOsOf(a) + DTOsOf(b)
  {
  }
}

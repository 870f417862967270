# pr-viewer core, modelled in Dafny

pr-viewer is a pull-request dashboard. It pulls pull requests, comments and reviews from the GitHub REST
API. It turns them into validated domain values: PR states, review states, comment sources, repositories,
ids, users, comments, reviews and PRs. It computes review and comment statistics, maps PRs to transfer
objects, filters them for display, and caches them through a scheduled worker. This project models that
core, one Dafny module per source file:

- **Value objects and entities** (`PRStateVO`, `ReviewStateVO`, `CommentSourceVO`, `RepositoryVO`,
  `PRIdVO`, `UserMetadataVO`, `UserEntity`, `CommentEntity`, `ReviewEntity`, `PREntity`). These are
  datatypes with smart constructors returning `Result`. Each thrown error is an `Err` carrying the
  error's name and message.
- **Domain services** (`PRStatusCalculator`, `CommentAnalyzer`) and the **mappers** (`GitHubPRMapper`,
  `PRMapper`). These are functions. The loops that build the per-source counts are methods proved
  against those functions.
- **Use cases** (`FilterPRs`, `SyncPRs`). The filter chain and the per-PR sync loop are methods. Every
  network answer is an input: a fetched list, or an outcome per PR.
- **The scheduled worker** (`ScheduledWorker`). The search and detail fetches are functions of the
  URL. The KV namespace is a map.
- **The REST client** (`GitHubAPIClient`):
  - error classification;
  - the page-until-short loop over a given sequence of server responses, where a page past the end
    is empty;
  - the merges built on it.
- **Storage** (`MemoryStorage`, `CloudflareKV`). Each is a class whose field the methods update in place.
- **Display helpers** (`PRCard`, `PRRow`). Priority ladder, time buckets, badges, reviewer names and
  the comment breakdown.

Shared modules:
- `Wrappers`: `Option` and `Result`.
- `Text`: ASCII lower-casing, substring search, JavaScript trimming, splitting, joining and decimal
  rendering.
- `Seqs`: filters, subsequences and sums.
- `OrderedMaps`: JavaScript `Map` and object-key insertion order, as association lists.

Conventions:
- Timestamps are integers (epoch milliseconds).
- Strings are `seq<char>`.
- `toLowerCase` is modelled for ASCII letters.

`GitHubPRMapper.toDomainPR` computes pending reviews as the requested reviewers minus all reviews.
When a PR has more reviews than requested reviewers, this is negative and the `ReviewStatus`
constructor throws. The model keeps this behaviour, so `SyncPRs` drops such a PR
(`SyncPRs.OverReviewedDropped`).

## Model

| member | source | states |
|---|---|---|
| PRStateVO.ToString | domain/value-objects/PRState.ts:38-40 | the text of a state is always one of the four valid names |
| PRStateVO.FromString | domain/value-objects/PRState.ts:14-47 | succeeds exactly for "open", "draft", "merged" and "closed" (case-sensitive), and the state prints back as its input; any other text fails with `InvalidPRStateError` carrying that text |
| PRStateVO.Equals | domain/value-objects/PRState.ts:34-36 | two states are equal exactly when their values are |
| PRStateVO.ExactlyOnePredicate | domain/value-objects/PRState.ts:18-32 | every state satisfies exactly one of `isOpen`, `isDraft`, `isMerged` and `isClosed` |
| PRStateVO.FromStringOfToString | domain/value-objects/PRState.ts:14-40 | reading a state's text gives the state back |
| ReviewStateVO.ToString | domain/value-objects/ReviewState.ts:43-45 | the text of a review state is always one of the five valid names |
| ReviewStateVO.FromString | domain/value-objects/ReviewState.ts:15-52 | succeeds exactly for APPROVED, CHANGES_REQUESTED, COMMENTED, DISMISSED and PENDING, and prints back as its input; any other text fails with `InvalidReviewStateError` |
| ReviewStateVO.Equals | domain/value-objects/ReviewState.ts:39-41 | two review states are equal exactly when their values are |
| ReviewStateVO.ExactlyOnePredicate | domain/value-objects/ReviewState.ts:19-37 | every review state satisfies exactly one of the five predicates |
| ReviewStateVO.FromStringOfToString | domain/value-objects/ReviewState.ts:15-45 | reading a review state's text gives the state back |
| CommentSourceVO.FromAuthor | domain/value-objects/CommentSource.ts:17-25 | a user account is always a reviewer and never `other`; a bot is Copilot exactly when its lower-cased login contains "copilot", CodeRabbit exactly when it contains "coderabbit" but not "copilot", and a plain bot otherwise |
| CommentSourceVO.Equals | domain/value-objects/CommentSource.ts:27-29 | two sources are equal exactly when their values are |
| CommentSourceVO.BotXorReviewer | domain/value-objects/CommentSource.ts:35-46 | every source is either a bot or a reviewer, never both; only `reviewer` is a reviewer |
| CommentSourceVO.FromAuthorIsBotIffBotAccount | domain/value-objects/CommentSource.ts:17-46 | a derived source is a bot exactly when the author is a bot account, and a reviewer exactly when it is a user account |
| CommentSourceVO.CopilotBeforeCodeRabbit | domain/value-objects/CommentSource.ts:20-21 | a bot whose login names both assistants is classified as Copilot, because that test comes first |
| CommentSourceVO.UserNamedLikeBotIsReviewer | domain/value-objects/CommentSource.ts:18-24 | a user account whose login is "copilot" is still a reviewer: only the account type counts |
| RepositoryVO.Create | domain/value-objects/Repository.ts:12-39 | succeeds exactly when neither owner nor name is blank (missing, empty or whitespace only), keeping both as given |
| RepositoryVO.FromString | domain/value-objects/Repository.ts:16-22 | text that does not split on '/' into exactly two parts fails with "Invalid repository format: " and the text; a parsed repository is valid and has no '/' in either part |
| RepositoryVO.Equals | domain/value-objects/Repository.ts:28-30 | repositories are equal exactly when owner and name both are |
| RepositoryVO.FromStringOfToString | domain/value-objects/Repository.ts:16-26 | a valid repository without '/' in its parts prints to "owner/name" and parses back to itself |
| RepositoryVO.ToStringOfFromString | domain/value-objects/Repository.ts:16-26 | text that parses prints back exactly |
| RepositoryVO.SlashInOwnerBreaksRoundTrip | domain/value-objects/Repository.ts:12-26 | a repository created with '/' in its owner prints to text that no longer parses |
| PRIdVO.Create | domain/value-objects/PRId.ts:8-24 | succeeds exactly for non-blank text, which prints back unchanged; blank text fails with "PR ID cannot be empty" |
| PRIdVO.Equals | domain/value-objects/PRId.ts:16-18 | ids are equal exactly when their texts are |
| PRIdVO.EqualsReflexiveSymmetric | domain/value-objects/PRId.ts:16-18 | id equality is reflexive and symmetric |
| PRIdVO.CreatedEqualIffSameString | domain/value-objects/PRId.ts:8-18 | two created ids are equal exactly when they were created from the same text |
| UserMetadataVO.Create | domain/value-objects/UserMetadata.ts:11-18 | without data every field is absent; with data each field is taken from it |
| UserMetadataVO.UpdateNotes | domain/value-objects/UserMetadata.ts:20-22 | the notes are replaced and the other three fields are unchanged |
| UserMetadataVO.UpdateTags | domain/value-objects/UserMetadata.ts:24-26 | the tags are replaced and the other three fields are unchanged |
| UserMetadataVO.UpdatePriority | domain/value-objects/UserMetadata.ts:28-30 | the priority is replaced and the other three fields are unchanged |
| UserMetadataVO.UpdateCustomStatus | domain/value-objects/UserMetadata.ts:32-34 | the custom status is replaced and the other three fields are unchanged |
| UserMetadataVO.HasNotes | domain/value-objects/UserMetadata.ts:36-38 | true exactly when notes are present and hold a non-whitespace character |
| UserMetadataVO.HasTags | domain/value-objects/UserMetadata.ts:40-42 | true exactly when tags are present and non-empty |
| UserMetadataVO.UpdateNotesDecidesHasNotes | domain/value-objects/UserMetadata.ts:20-42 | after updating the notes, `hasNotes` holds exactly when the new notes are not blank, and `hasTags` is unchanged |
| UserEntity.UserIdCreate | domain/entities/User.ts:3-12 | succeeds exactly for non-blank text, which prints back unchanged |
| UserEntity.UserIdEquals | domain/entities/User.ts:18-20 | user ids are equal exactly when their texts are |
| UserEntity.UserCreate | domain/entities/User.ts:31-43 | succeeds exactly when the id is not blank, keeping login, avatar and e-mail as given |
| UserEntity.UserEquals | domain/entities/User.ts:45-47 | users are equal exactly when their ids are |
| UserEntity.EqualityIgnoresProfile | domain/entities/User.ts:45-47 | two users with the same id but different login, avatar and e-mail are equal |
| CommentEntity.CommentIdCreate | domain/entities/Comment.ts:4-13 | succeeds exactly for non-blank text, which is kept as the id |
| CommentEntity.ToGitHubAuthor | domain/entities/Comment.ts:43-48 | the author's login and account type are carried over unchanged |
| CommentEntity.CommentContentCreate | domain/entities/Comment.ts:51-68 | succeeds exactly for non-blank text, whose `length()` is the text's length |
| CommentEntity.Create | domain/entities/Comment.ts:82-100 | succeeds exactly when id and content are both non-blank, the id being checked first; a comment is resolved only when `isResolved` was given as true, and every other field is taken from the input |
| CommentEntity.Resolve | domain/entities/Comment.ts:114-124 | the copy is resolved and differs from the comment in nothing else |
| CommentEntity.Unresolve | domain/entities/Comment.ts:126-136 | the copy is unresolved and differs from the comment in nothing else |
| CommentEntity.BotXorReviewer | domain/entities/Comment.ts:102-108 | every comment is from a bot or from a reviewer, never both, and it is from a bot exactly when its author is a bot account |
| CommentEntity.ResolveLaws | domain/entities/Comment.ts:114-136 | resolving and unresolving are idempotent, the later one wins, and each leaves a comment already in that state unchanged |
| ReviewEntity.ReviewIdCreate | domain/entities/Review.ts:4-13 | succeeds exactly for non-blank text, which is kept as the id |
| ReviewEntity.ReviewerCreate | domain/entities/Review.ts:24-36 | succeeds exactly for a non-blank login, keeping login and avatar |
| ReviewEntity.ReviewerEquals | domain/entities/Review.ts:38-40 | reviewers are equal exactly when their logins are; the avatar does not matter |
| ReviewEntity.Create | domain/entities/Review.ts:52-66 | succeeds exactly when the id and the reviewer login are both non-blank, the id being checked first, keeping every field as given |
| ReviewEntity.ExactlyOneStatePredicate | domain/entities/Review.ts:68-86 | every review satisfies exactly one of the five state predicates |
| ReviewEntity.StateCountsBound | domain/entities/Review.ts:68-78 | among any reviews, the approved, changes-requested and commented ones together number at most all of them |
| PREntity.PRNumberCreate | domain/entities/PR.ts:9-18 | succeeds exactly for a positive number, which is kept |
| PREntity.TitleCreate | domain/entities/PR.ts:29-38 | succeeds exactly for non-blank text, which is kept |
| PREntity.AuthorCreate | domain/entities/PR.ts:45-57 | succeeds exactly for a non-blank login, keeping login and avatar |
| PREntity.AuthorEquals | domain/entities/PR.ts:59-61 | authors are equal exactly when their logins are; the avatar does not matter |
| PREntity.ReviewStatusCreate | domain/entities/PR.ts:64-88 | succeeds exactly when all four counts are non-negative, keeping them; otherwise fails with "Review counts cannot be negative" |
| PREntity.ReviewStatusEmpty | domain/entities/PR.ts:90-92 | the empty status is valid and totals zero |
| PREntity.TotalBounds | domain/entities/PR.ts:106-108 | for a valid status the total is at least each count, and a zero total means the empty status |
| PREntity.LatestOf | domain/entities/PR.ts:121-124 | the `reduce` picks one of the comments, and no comment is newer than the one it picks |
| PREntity.CollectionCreate | domain/entities/PR.ts:119-133 | the collection keeps the comments; `total` is their number, `unresolved` the number not resolved (between 0 and `total`), and the latest time is absent exactly when there are no comments, otherwise the newest creation time |
| PREntity.CollectionEmpty | domain/entities/PR.ts:135-137 | the empty collection is the collection of no comments |
| PREntity.HasNewCommentsIffSomeNewer | domain/entities/PR.ts:143-146 | a collection has new comments since a time exactly when one of its comments was created after it |
| PREntity.GetCommentsBySource | domain/entities/PR.ts:148-150 | the result keeps the collection's order and holds each comment from the named source as many times as the collection does, and no other comment |
| PREntity.AddComment | domain/entities/PR.ts:152-155 | adding a comment rebuilds the collection from the old comments followed by the new one |
| PREntity.AddCommentEffect | domain/entities/PR.ts:119-155 | adding a comment adds one to `total`, adds one to `unresolved` when the comment is unresolved, and moves the latest time to the later of the old one and the comment's |
| PREntity.LatestTimeSnoc | domain/entities/PR.ts:121-124 | the newest time of the comments plus one more is the later of the old newest time and the new comment's time |
| PREntity.Create | domain/entities/PR.ts:177-211 | succeeds exactly when id, title, repository owner and name and author login are non-blank and the number is positive; missing assignee and reviewer lists become empty, the comments become a collection, and every other field is kept |
| PREntity.NeedsReview | domain/entities/PR.ts:213-215 | true exactly for an open PR with pending reviews |
| PREntity.UpdateUserMetadata | domain/entities/PR.ts:221-239 | only the user metadata changes |
| PREntity.UpdateReviewStatus | domain/entities/PR.ts:241-259 | only the review status changes |
| PREntity.UpdateComments | domain/entities/PR.ts:261-279 | only the comment collection changes, rebuilt from the new comments |
| PREntity.UpdateLastSyncedAt | domain/entities/PR.ts:281-299 | only the last-synced time changes |
| PREntity.UpdatesCommute | domain/entities/PR.ts:221-299 | updates of different fields commute, a second review-status update overrides the first, and after a review-status update `needsReview` depends on the new status only |
| PRStatusCalculator.CalculateReviewStatus | domain/services/PRStatusCalculator.ts:8-24 | the status is valid; approved, changes-requested and commented are the numbers of reviews in those states (several reviews by one reviewer all count), together at most the number of reviews; pending is the requested-reviewer count minus the number of distinct reviewing logins, floored at 0, and never above the requested count |
| PRStatusCalculator.DeterminePRState | domain/services/PRStatusCalculator.ts:26-55 | every branch returns the state the PR already has: merged, closed and draft as they are, and open whatever the reviews say |
| PRStatusCalculator.LoginsSnoc | domain/services/PRStatusCalculator.ts:15 | one more review adds its reviewer's login to the set of reviewing logins |
| PRStatusCalculator.NewLoginLowersPending | domain/services/PRStatusCalculator.ts:14-22 | a review by a login not seen before lowers pending by one, down to 0 |
| PRStatusCalculator.RepeatLoginCountedAgain | domain/services/PRStatusCalculator.ts:9-22 | a further review by a login already seen leaves pending alone but is counted again in its state |
| PRStatusCalculator.MixedReviewStates | domain/services/PRStatusCalculator.ts:8-24 | three requested reviewers who approve, request changes and comment give 1, 1, 1 and 0 pending |
| CommentAnalyzer.GetCountBySource | domain/services/CommentAnalyzer.ts:16-18 | a source without an entry counts 0; otherwise the count is that entry's |
| CommentAnalyzer.SourceKeys | domain/services/CommentAnalyzer.ts:33-34 | one source name per comment, in comment order |
| CommentAnalyzer.GroupBySource | domain/services/CommentAnalyzer.ts:30-40 | the loop builds the tally of the comments' source names |
| CommentAnalyzer.SumBump | domain/services/CommentAnalyzer.ts:35-36 | counting one more occurrence of a name raises the sum of the counts by one |
| CommentAnalyzer.TallyDistinct | domain/services/CommentAnalyzer.ts:30-40 | the tally has each source name at most once |
| CommentAnalyzer.TallyCounts | domain/services/CommentAnalyzer.ts:30-40 | the tally reads, for every name, the number of times it occurs, and 0 for a name that does not occur |
| CommentAnalyzer.TallyKeys | domain/services/CommentAnalyzer.ts:30-40 | the tally has exactly the names that occur, and is empty exactly when there are no comments |
| CommentAnalyzer.TallySum | domain/services/CommentAnalyzer.ts:30-40 | the tally's counts add up to the number of names |
| CommentAnalyzer.AnalyzeComments | domain/services/CommentAnalyzer.ts:22-28 | the statistics are the comment count, the unresolved count and the tally by source |
| CommentAnalyzer.OccurrencesAreSourceFilter | domain/services/CommentAnalyzer.ts:30-44 | the number of times a source's name occurs among the comments is the number of comments `getCommentsBySource` returns for it |
| CommentAnalyzer.StatisticsFacts | domain/services/CommentAnalyzer.ts:16-44 | unresolved is between 0 and total, which is the number of comments; `getCountBySource` of any source agrees with `getCommentsBySource`; every key is a source name; the counts sum to the total; the map is empty exactly when there are no comments |
| CommentAnalyzer.GetCommentsBySource | domain/services/CommentAnalyzer.ts:42-44 | an order-keeping selection holding each comment from the given source as many times as the input does, and no other comment |
| CommentAnalyzer.GetBotComments | domain/services/CommentAnalyzer.ts:46-48 | an order-keeping selection holding each comment by a bot account as many times as the input does, and no other comment |
| CommentAnalyzer.GetReviewerComments | domain/services/CommentAnalyzer.ts:50-52 | an order-keeping selection holding each comment by a user account as many times as the input does, and no other comment |
| CommentAnalyzer.GetNewCommentsSince | domain/services/CommentAnalyzer.ts:54-56 | an order-keeping selection holding each comment created after the given time as many times as the input does, and no other comment |
| CommentAnalyzer.BotReviewerPartition | domain/services/CommentAnalyzer.ts:46-52 | every comment is in exactly one of the bot and reviewer selections |
| CommentAnalyzer.BotAccountWithReviewerSource | domain/services/CommentAnalyzer.ts:42-52 | a bot-authored comment labelled with the reviewer source is a bot comment by author and a reviewer comment by source: the two classifications can disagree |
| CommentAnalyzer.NewSinceAgreesWithCollection | domain/services/CommentAnalyzer.ts:54-56 | there are new comments since a time exactly when the collection built from the same comments says so |
| GitHubPRMapper.LoginsOf | infrastructure/external/github/GitHubPRMapper.ts:45-46 | one login per user, in order |
| GitHubPRMapper.DeriveState | infrastructure/external/github/GitHubPRMapper.ts:17-23 | draft exactly when the draft flag is set; otherwise merged exactly for a closed PR with a merge time, closed for a closed one without, and open for any other state text |
| GitHubPRMapper.ToDomainPR | infrastructure/external/github/GitHubPRMapper.ts:12-54 | fails with "Review counts cannot be negative" whenever there are more reviews than requested reviewers, and otherwise succeeds exactly when the head repository is present and the PR's id, number, title, owner, repository name and author pass validation; a mapped PR has the derived state, review counts whose pending plus the number of reviews is the number of requested reviewers, logins copied in order, the comments as a collection, the sync time given, and no user metadata |
| GitHubPRMapper.ReviewedAfterRequestFails | infrastructure/external/github/GitHubPRMapper.ts:25-30 | a PR with no requested reviewer and one review cannot be mapped |
| GitHubPRMapper.MappedCountsBounded | infrastructure/external/github/GitHubPRMapper.ts:25-30 | a mapped PR's review status is valid, its three state counts add up to at most the number of reviews, and pending is at most the requested count |
| GitHubPRMapper.ToDomainComment | infrastructure/external/github/GitHubPRMapper.ts:56-75 | succeeds exactly when id and body are non-blank; the comment is unresolved, its source is derived from the author, and the other fields are copied |
| GitHubPRMapper.MappedCommentSourceAgreesWithAuthor | infrastructure/external/github/GitHubPRMapper.ts:56-75 | for a mapped comment, "from a bot" by author and "bot" by source agree, and so do "from a reviewer" and the reviewer source |
| GitHubPRMapper.ToDomainReview | infrastructure/external/github/GitHubPRMapper.ts:77-90 | a state text outside the five names fails with the review-state error; otherwise it succeeds exactly when id and reviewer login are non-blank, keeping the state's text and the other fields |
| GitHubPRMapper.LowerCaseReviewStateRejected | infrastructure/external/github/GitHubPRMapper.ts:78 | the lower-case state "approved" is rejected: the names are case-sensitive |
| PRMapper.CopyBySource | application/mappers/PRMapper.ts:12-16 | copying a map without repeated keys into a record keeps its entries and their order |
| PRMapper.ToDTO | application/mappers/PRMapper.ts:9-59 | the transfer object is the one `DTOOf` describes |
| PRMapper.DTOFacts | application/mappers/PRMapper.ts:9-59 | the four review counts, total and unresolved are copied; `fullName` is "owner/name"; the status text reads back as the PR's state; `bySource` is omitted exactly when there are no comments, and otherwise has each source once with the number of comments from it, the counts summing to `total` |
| PRMapper.DTOsOf | application/mappers/PRMapper.ts:61-63 | one transfer object per PR, in order |
| PRMapper.ToDTOs | application/mappers/PRMapper.ts:61-63 | the list is the one `DTOsOf` describes |
| PRMapper.DTOsOfConcat | application/mappers/PRMapper.ts:61-63 | mapping a concatenation is concatenating the mappings |
| FilterPRs.MatchesMeaning | application/use-cases/filter-prs/FilterPRsUseCase.ts:13-46 | a PR passes the chain exactly when it is in the given repository, has the given state, lists the given non-empty assignee, was updated within the given range (both ends included), and its title, "owner/name" or author login contains the given non-empty search text ignoring case; each criterion counts only when it is given |
| FilterPRs.Advance | application/use-cases/filter-prs/FilterPRsUseCase.ts:14-46 | applying the next filter of the chain to what the earlier ones kept equals filtering the original list by all of them at once; a criterion that is not given leaves the list as it was |
| FilterPRs.Execute | application/use-cases/filter-prs/FilterPRsUseCase.ts:10-49 | the result is the transfer objects of the user's PRs that match every given criterion, in the repository's order |
| FilterPRs.SelectedFacts | application/use-cases/filter-prs/FilterPRsUseCase.ts:13-46 | the selection keeps the original order, holds only matching PRs, and holds each matching PR as many times as the input does |
| FilterPRs.NoCriteriaKeepsAll | application/use-cases/filter-prs/FilterPRsUseCase.ts:14-37 | with no criterion given, or only an empty assignee or search text, every PR is kept |
| FilterPRs.CombinedFilters | application/use-cases/filter-prs/FilterPRsUseCase.ts:14-26 | a repository, state and assignee filter together keep only the PR meeting all three |
| SyncPRs.MapComments | infrastructure/repositories/GitHubCommentRepository.ts:32-35 | mapping the fetched comments succeeds exactly when each one maps, and keeps them one for one in order |
| SyncPRs.MapReviews | infrastructure/repositories/GitHubReviewRepository.ts:25-28 | mapping the fetched reviews succeeds exactly when each one maps, and keeps them one for one in order |
| SyncPRs.Fetched | application/use-cases/sync-prs/SyncPRsUseCase.ts:31-46 | only GitHub-backed repositories are asked; a comment failure leaves both lists empty; otherwise the comments are the fetched ones, and the reviews are the fetched ones unless the review fetch failed, when they stay empty |
| SyncPRs.ProcessPR | application/use-cases/sync-prs/SyncPRsUseCase.ts:26-58 | a PR is produced exactly when its head repository is present and `toDomainPR` accepts it with the fetched comments and reviews; it is the mapped PR with its review status replaced by the calculator's over the same reviews, and those reviews are no more than the requested reviewers |
| SyncPRs.SomesSelect | application/use-cases/sync-prs/SyncPRsUseCase.ts:25-61 | the kept results are the successful iterations' PRs, in iteration order, and no successful iteration is left out |
| SyncPRs.Outcomes | application/use-cases/sync-prs/SyncPRsUseCase.ts:25-59 | one outcome per fetched PR, each processed at its own clock reading |
| SyncPRs.Execute | application/use-cases/sync-prs/SyncPRsUseCase.ts:19-62 | a failure of `getPRs` propagates; otherwise the result is every successfully processed PR, in fetch order |
| SyncPRs.SyncedSelection | application/use-cases/sync-prs/SyncPRsUseCase.ts:25-61 | each synced PR comes from a distinct fetched PR, in increasing fetch order, and every fetched PR that processes successfully is synced |
| SyncPRs.EmittedPRs | application/use-cases/sync-prs/SyncPRsUseCase.ts:49-55 | every synced PR had no more reviews than requested reviewers, and carries the calculator's review status over its reviews |
| SyncPRs.OverReviewedDropped | application/use-cases/sync-prs/SyncPRsUseCase.ts:49-58 | a PR with more fetched reviews than requested reviewers is dropped, because the mapper's status construction throws |
| SyncPRs.CommentFailureStillSyncs | application/use-cases/sync-prs/SyncPRsUseCase.ts:34-55 | when the comment fetch fails the PR is still synced, with no comments, no reviews and every requested reviewer pending |
| SyncPRs.ReviewFailureKeepsComments | application/use-cases/sync-prs/SyncPRsUseCase.ts:34-46 | when only the review fetch fails, the fetched comments are kept and the reviews stay empty |
| ScheduledWorker.VisitItems | worker/scheduled.ts:51-74 | visiting a search's items after earlier ones extends the collected PRs and the seen ids exactly as collecting over the concatenated items would: an id already seen adds nothing, a new id is recorded and its PR is added when it has a URL and the fetch succeeds |
| ScheduledWorker.FetchGitHubPRs | worker/scheduled.ts:24-81 | the result is the PRs collected over the items of the five searches in order, a failed search contributing no items |
| ScheduledWorker.CollectIsFirstOccurrences | worker/scheduled.ts:51-74 | collecting equals hydrating the first item of each id, in order of first appearance |
| ScheduledWorker.FirstOccurrencesOrdered | worker/scheduled.ts:51-53 | the first occurrences keep the order of the search results |
| ScheduledWorker.FirstOccurrencesIds | worker/scheduled.ts:26-53 | the first occurrences have pairwise distinct ids and cover every id that appeared |
| ScheduledWorker.FirstOccurrencesComplete | worker/scheduled.ts:52-53 | every item whose id did not appear earlier is among the first occurrences |
| ScheduledWorker.FailedHydrationNotRetried | worker/scheduled.ts:52-72 | an id whose first item yields no PR is not retried through a later item with the same id, since the id is recorded before the fetch |
| ScheduledWorker.Scheduled | worker/scheduled.ts:84-121 | without a token, or when the stored user list is not a list of ids, the cache is unchanged; otherwise each listed user's fetched PRs are written under `prs:<user>` in list order, a failed write being skipped |
| ScheduledWorker.PrsKeyInjective | worker/scheduled.ts:105 | distinct users get distinct cache keys |
| ScheduledWorker.WrittenSnapshots | worker/scheduled.ts:97-117 | after the run each user whose write succeeded holds a snapshot of exactly their fetched PRs, whatever became of earlier users |
| ScheduledWorker.WrittenOthersUnchanged | worker/scheduled.ts:97-117 | a key that is no listed user's `prs:` key is present after the run exactly when it was before, with the same value |
| ScheduledWorker.WrittenKeepsUserList | worker/scheduled.ts:94-105 | the `sync_users` entry is never overwritten by a run |
| GitHubAPIClient.NewClient | infrastructure/external/github/GitHubAPIClient.ts:24-28 | construction fails exactly when the token is empty, and a built client keeps the token |
| GitHubAPIClient.LeadingDigitsFacts | infrastructure/external/github/GitHubAPIClient.ts:48-50 | the digits `parseInt` reads are the longest all-digit prefix of the text |
| GitHubAPIClient.ParseIntOfDigits | infrastructure/external/github/GitHubAPIClient.ts:48-50 | a header made of decimal digits only reads as their decimal value |
| GitHubAPIClient.ParseIntOfDecimal | infrastructure/external/github/GitHubAPIClient.ts:48-50 | a header holding a rendered non-negative number reads back as that number |
| GitHubAPIClient.Request | infrastructure/external/github/GitHubAPIClient.ts:47-68 | a request succeeds exactly when the response is ok, yielding its body; otherwise it fails with the classified error |
| GitHubAPIClient.FailureClassified | infrastructure/external/github/GitHubAPIClient.ts:53-65 | every error carries the response status and rate-limit reading, and is the rate-limit error exactly when the status is 403 and the remaining count reads as 0 |
| GitHubAPIClient.RateLimitEdgeCases | infrastructure/external/github/GitHubAPIClient.ts:49-54 | a 403 without a remaining-count header is reported as rate limiting (the missing header reads as 0), while a non-numeric header is not |
| GitHubAPIClient.Paginate | infrastructure/external/github/GitHubAPIClient.ts:101-123 | the page loop returns the same result as the page-by-page definition: items of every page up to the first empty or short page, or the error of the first failed page |
| GitHubAPIClient.PaginatedStopsAtShortPage | infrastructure/external/github/GitHubAPIClient.ts:106-120 | when pages before `k` are full and page `k` is the first short one, the result is all items of pages 0 to `k` in order, and later pages are not consulted |
| GitHubAPIClient.PagesFromSuffix | infrastructure/external/github/GitHubAPIClient.ts:106-120 | from any page onwards, full pages followed by a short page yield the items of exactly those pages |
| GitHubAPIClient.PaginatedError | infrastructure/external/github/GitHubAPIClient.ts:78-108 | a failed request after only full pages makes the whole listing fail with that request's error, discarding the items gathered so far |
| GitHubAPIClient.PagesFromError | infrastructure/external/github/GitHubAPIClient.ts:106-120 | from any page onwards, full pages followed by a failed request yield that request's error |
| GitHubAPIClient.GetPRs | infrastructure/external/github/GitHubAPIClient.ts:71-99 | the authored listing's error comes first, then the review-requested listing's; when both succeed the result is the authored PRs not also review-requested, followed by the review-requested PRs |
| GitHubAPIClient.GetPRsWithReviewRequests | infrastructure/external/github/GitHubAPIClient.ts:101-123 | the result is the paginated review-requested listing |
| GitHubAPIClient.MergePRsFacts | infrastructure/external/github/GitHubAPIClient.ts:93-98 | the merge ends with all review-requested PRs; before them come, in order, exactly the authored PRs whose id is not review-requested |
| GitHubAPIClient.GetComments | infrastructure/external/github/GitHubAPIClient.ts:130-198 | issue comments are listed first and their failure propagates first; when both listings succeed the result is the issue comments followed by the review comments |
| GitHubAPIClient.GetReviews | infrastructure/external/github/GitHubAPIClient.ts:200-222 | the result is the paginated review listing |
| MemoryStorage.Lookup | infrastructure/external/storage/MemoryStorageClient.ts:18-24 | a value is found exactly when the store exists and holds a truthy value under the key, and it is that stored value; a falsy stored value reads as absent |
| MemoryStorage.AllOf | infrastructure/external/storage/MemoryStorageClient.ts:41-60 | a missing store gives nothing; without both an index name and value every stored value is returned in insertion order; with them, the stored values in insertion order that match the index, each as often as it is stored |
| MemoryStorage.AllOfIndexed | infrastructure/external/storage/MemoryStorageClient.ts:50-57 | with a non-empty index name and value, the result holds exactly the stored objects whose field under the index name equals the value, each as often as it is stored |
| MemoryStorage.MemoryStorageClient.constructor | infrastructure/external/storage/MemoryStorageClient.ts:8 | a new client holds no stores |
| MemoryStorage.MemoryStorageClient.Get | infrastructure/external/storage/MemoryStorageClient.ts:18-24 | `get` answers the lookup of the key in the store, changing nothing |
| MemoryStorage.MemoryStorageClient.Set | infrastructure/external/storage/MemoryStorageClient.ts:26-32 | the store is created when missing and the key is bound to the value (an existing key keeps its position); the storage stays well formed |
| MemoryStorage.MemoryStorageClient.Delete | infrastructure/external/storage/MemoryStorageClient.ts:34-39 | the key is removed from the store when the store exists, nothing else changes, and the storage stays well formed |
| MemoryStorage.MemoryStorageClient.GetAll | infrastructure/external/storage/MemoryStorageClient.ts:41-60 | `getAll` answers the store's values, filtered by the index when both index arguments are given |
| MemoryStorage.MemoryStorageClient.Clear | infrastructure/external/storage/MemoryStorageClient.ts:62-64 | the whole store is dropped and the storage stays well formed |
| MemoryStorage.SetTwice | infrastructure/external/storage/MemoryStorageClient.ts:31 | setting a key twice is the same as setting it once to the second value |
| MemoryStorage.LookupAfterStored | infrastructure/external/storage/MemoryStorageClient.ts:18-32 | after a set, the key reads back the value (absent if falsy), and every other store and key reads as before |
| MemoryStorage.LookupAfterRemoved | infrastructure/external/storage/MemoryStorageClient.ts:18-39 | after a delete, the key reads as absent and every other store and key reads as before |
| MemoryStorage.LookupAfterCleared | infrastructure/external/storage/MemoryStorageClient.ts:18-64 | after a clear, nothing in that store is found and it lists no values; other stores read as before |
| MemoryStorage.StoredWellFormed | infrastructure/external/storage/MemoryStorageClient.ts:8-32 | a set keeps store names and keys unique |
| MemoryStorage.RemovedWellFormed | infrastructure/external/storage/MemoryStorageClient.ts:8-39 | a delete keeps store names and keys unique |
| MemoryStorage.ClearWellFormed | infrastructure/external/storage/MemoryStorageClient.ts:62-64 | a clear keeps store names and keys unique |
| CloudflareKV.ParsedSet | infrastructure/external/storage/CloudflareKVClient.ts:46-62 | a missing or empty value is the empty set, a stored array is its members, and any other stored text is a failure |
| CloudflareKV.FieldKey | infrastructure/external/storage/CloudflareKVClient.ts:28-33 | a hash field is stored under the key, a colon, then the field |
| CloudflareKV.FieldKeyInjective | infrastructure/external/storage/CloudflareKVClient.ts:28-33 | for one key, distinct fields are stored under distinct names |
| CloudflareKV.HGetAll | infrastructure/external/storage/CloudflareKVClient.ts:36-41 | `hgetall` always fails |
| CloudflareKV.CloudflareKVClient.constructor | infrastructure/external/storage/CloudflareKVClient.ts:11-13 | the client works on the namespace it is given |
| CloudflareKV.CloudflareKVClient.Read | infrastructure/external/storage/CloudflareKVClient.ts:15-17 | a read finds a value exactly when the key is bound, and it is the bound value |
| CloudflareKV.CloudflareKVClient.Get | infrastructure/external/storage/CloudflareKVClient.ts:15-17 | `get` answers the bound value, changing nothing |
| CloudflareKV.CloudflareKVClient.Set | infrastructure/external/storage/CloudflareKVClient.ts:19-21 | the key is bound to the value and every other key is unchanged |
| CloudflareKV.CloudflareKVClient.Del | infrastructure/external/storage/CloudflareKVClient.ts:23-25 | the key is unbound and every other key is unchanged |
| CloudflareKV.CloudflareKVClient.HGet | infrastructure/external/storage/CloudflareKVClient.ts:27-30 | `hget` reads the field's combined key |
| CloudflareKV.CloudflareKVClient.HSet | infrastructure/external/storage/CloudflareKVClient.ts:32-34 | `hset` binds the field's combined key to the value and nothing else |
| CloudflareKV.CloudflareKVClient.SAdd | infrastructure/external/storage/CloudflareKVClient.ts:43-52 | fails exactly when the stored value is text that is not a JSON array, then writing nothing; an existing member writes nothing; otherwise the key holds the old members with the new one appended |
| CloudflareKV.CloudflareKVClient.SMembers | infrastructure/external/storage/CloudflareKVClient.ts:54-57 | `smembers` answers the parsed set, or fails when the value is text that is not a JSON array |
| CloudflareKV.CloudflareKVClient.SRem | infrastructure/external/storage/CloudflareKVClient.ts:59-66 | fails exactly when the stored value is text that is not a JSON array; a missing or empty value is left alone; otherwise the key holds the old members without every copy of the removed one |
| CloudflareKV.AddedFacts | infrastructure/external/storage/CloudflareKVClient.ts:48-49 | adding keeps the members duplicate-free, keeps their order, and yields exactly the old members plus the new one |
| CloudflareKV.AddedIdempotent | infrastructure/external/storage/CloudflareKVClient.ts:48-51 | adding the same member twice is the same as adding it once |
| CloudflareKV.WithoutFacts | infrastructure/external/storage/CloudflareKVClient.ts:63 | removal drops every copy of the member, keeps every other member in order and as often as it occurred, and changes nothing when the member is absent |
| CloudflareKV.WithoutAdded | infrastructure/external/storage/CloudflareKVClient.ts:48-63 | removing a member just added to a set that lacked it restores the set |
| PRCard.GetPriority | presentation/web/components/pr/PRCard.tsx:15-41 | a PR is draft exactly when its status is draft; urgent exactly when it is not a draft and the viewer (or the empty id when none is given) is among its reviewers; approved-and-ready exactly when, besides, no changes are requested, no comment is unresolved and some approval exists; blocked only with changes requested; action only with unresolved comments and no changes requested |
| PRCard.PendingMeansQuiet | presentation/web/components/pr/PRCard.tsx:15-41 | for non-negative counts, a PR is pending exactly when it is no draft, the viewer is not a reviewer, and it has no changes requested, no unresolved comment and no approval |
| PRCard.GetPriorityLabel | presentation/web/components/pr/PRCard.tsx:43-52 | every priority has a non-empty label |
| PRCard.PriorityLabelInjective | presentation/web/components/pr/PRCard.tsx:43-52 | distinct priorities have distinct labels |
| PRCard.AgeOf | presentation/web/components/pr/PRCard.tsx:57-63 | under a minute is "just now"; otherwise the largest unit below the next threshold is chosen and its count is the floor of the elapsed seconds by that unit (at least 1, below the next unit) |
| PRCard.GetTimeAgo | presentation/web/components/pr/PRCard.tsx:54-64 | the text is "just now", or the age's count in decimal followed by its unit letter and " ago" |
| PRCard.TimeAgoReadsBack | presentation/web/components/pr/PRCard.tsx:60-63 | the leading digits of a non-"just now" text are all digits and read back as the age's count |
| PRCard.BadgeOf | presentation/web/components/pr/PRCard.tsx:73-88 | a badge keeps the count; the lower-cased source is checked for copilot, then coderabbit, then bot, and the first one found gives the Copilot, CodeRabbit or Bot badge; a source mentioning none of them is a reviewer badge under its own name |
| PRCard.GetSourceBadges | presentation/web/components/pr/PRCard.tsx:66-93 | no per-source counts give no badges; otherwise the loop produces the badges of the entries in their order |
| PRCard.BadgesOfPositive | presentation/web/components/pr/PRCard.tsx:71-90 | the badges are, one for one and in order, the badges of the entries with a positive count |
| PRCard.BadgesArePositive | presentation/web/components/pr/PRCard.tsx:72 | every badge has a positive count |
| PRRow.GetTimeAgo | presentation/web/components/pr/PRRow.tsx:12-22 | the text is "now", or the age's count in decimal followed by its unit letter, with the same thresholds and floors as the card |
| PRRow.TimeAgoMatchesCard | presentation/web/components/pr/PRRow.tsx:12-22 | the row shows "now" exactly when under a minute has passed, and otherwise the card's text without " ago" |
| PRRow.GetActionLabel | presentation/web/components/pr/PRRow.tsx:24-39 | the label's text and style are empty exactly when the action is not one of the five known ones |
| PRRow.ActionLabelsDistinct | presentation/web/components/pr/PRRow.tsx:25-35 | distinct known actions get distinct texts |
| PRRow.ShortName | presentation/web/components/pr/PRRow.tsx:44-52 | a human keeps their login; a bot is shown as CodeRabbit when its lower-cased login mentions coderabbit, else as Copilot when it mentions copilot, else as its login with the first "[bot]" removed and then trimmed |
| PRRow.BotSuffixDropped | presentation/web/components/pr/PRRow.tsx:49 | any other bot named `<name>[bot]` is shown as the trimmed name |
| PRRow.Names | presentation/web/components/pr/PRRow.tsx:44-52 | one short name per reviewer, in order |
| PRRow.FormatReviewers | presentation/web/components/pr/PRRow.tsx:41-56 | no reviewers give the empty text; one or two give their names joined by ", "; more give the first two names and "+" with the number of the rest |
| PRRow.HiddenReviewersCounted | presentation/web/components/pr/PRRow.tsx:55 | with more than two reviewers the text ends in "+" followed by digits that read back as the number of hidden reviewers |
| PRRow.KindOf | presentation/web/components/pr/PRRow.tsx:65-74 | the lower-cased source is checked for coderabbit, then copilot, then bot, and the first one found makes it CodeRabbit, Copilot or Bot; a source is human exactly when it mentions none of them |
| PRRow.AssistantPrecedenceDiffers | presentation/web/components/pr/PRRow.tsx:66-69 | a source naming both assistants is a Copilot badge on the card but a CodeRabbit part in the row |
| PRRow.FormatCommentBreakdown | presentation/web/components/pr/PRRow.tsx:58-82 | no or empty per-source counts give the empty text; otherwise the loop's text is the parts joined by ", " |
| PRRow.AutomatedPartsOfEntries | presentation/web/components/pr/PRRow.tsx:64-72 | the automated parts are, one for one and in order, those of the entries whose source mentions coderabbit, copilot or bot |
| PRRow.HumanCountOfEntries | presentation/web/components/pr/PRRow.tsx:62-74 | the human count is the sum of the counts of the sources mentioning none of them |
| PRRow.HumanPartLast | presentation/web/components/pr/PRRow.tsx:77-79 | with a positive human count the last part is "Human" and that count, after all the automated parts |

## Left out

- Network I/O is not modelled: `fetch`, request headers and the access token's use in them. Responses are inputs. For the worker they are functions of the URL; for the REST client, a sequence of pages; for sync, outcome values per PR.
- `async`/`await` is not modelled. The code awaits each call in turn, so the model runs sequentially.
- Date parsing, `new Date()` and `toISOString` are not modelled. Times are integers, the current time is a parameter, and the worker's `syncedAt` is a clock reading per user.
- Console logging is not modelled.
- JSON is not modelled as text. KV values are `Text`, `UserList`/`Members` (a parsed array) or `Snapshot`. Non-empty `Text` stands for any stored text that is not a JSON array, and the model treats it as a failure to read a list. That matches the source for malformed JSON, which `JSON.parse` rejects, but not for every valid JSON value; the next two lines say where it differs.
- CloudflareKV.ParsedSet: valid JSON that is not an array (a number, a string, an object) is treated as a failure. In the source, `smembers` returns such a value as it is, and `sadd` on a JSON string tests the member with string `includes`, writing nothing when it is a substring. `srem`, and `sadd` in every other such case, throw as the model says. Telling these apart needs a JSON value type, which the model does not have.
- ScheduledWorker.Scheduled: a `sync_users` entry holding a JSON string is treated as unreadable, so nothing is written. The source iterates the string's characters and syncs each one as a user id: `"ab"` writes `prs:a` and `prs:b`. Other non-array JSON (a number, `null`, an object) is not iterable, so the source's `for ... of` throws, the run's `catch` takes it, and nothing is written, as in the model.
- The KV `expirationTtl` option is not modelled, so entries never expire in the model.
- Storage payloads are abstracted. A `MemoryStorage` item is falsy, a primitive, or an object with string fields.
- `MemoryStorageClient.open` and `close` have no body in the source, so the model has nothing for them.
- `parseInt` of the rate-limit headers is modelled for base-10 digits only. The `0x` prefix is not modelled; GitHub sends decimal headers.
- `getUser`, `getRateLimit` and `getPR` are single calls to `request`. `GitHubAPIClient.Request` models them; their endpoint strings are not modelled.
- Endpoint and search URL formatting for pagination is not modelled. The page responses are given in page order.
- `PRRow.GetActionLabel` takes the action as an optional string, because `actionNeeded` is not declared on the transfer object.
- Rendering is not modelled: React components, JSX, CSS classes and `window.open`.
- Route wiring, dependency construction, notifications, browser and Vercel storage, and authentication are outside this core.
- CommentEntity.IsNewerThan and ReviewEntity.IsNewerThan: these strict comparisons carry no contract of their own; the lemmas about comment filtering state what they mean.
- Tests that contradict the code are not modelled: `getBotComments` filtering by source, and labels the card does not render. The model follows the code.

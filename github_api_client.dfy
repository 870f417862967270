/** The REST client: error classification, page-until-short pagination and the merges built on it
    (infrastructure/external/github/GitHubAPIClient.ts). */
module GitHubAPIClient {
  import opened Wrappers
  import opened Text
  import opened Seqs
  import opened GitHubPRMapper

  /** The client only keeps its token. */
  datatype Client = Client(accessToken: string)

  /** The constructor: an empty token is refused. */
  function NewClient(accessToken: string): (r: Result<Client, string>)
    ensures r.Err? <==> accessToken == []
    ensures r.Ok? ==> r.value.accessToken == accessToken
  {
    if accessToken == [] then Err("GitHub access token is required") else Ok(Client(accessToken))
  }

  // ---------------------------------------------------------------------------
  // request: classifying a response
  // ---------------------------------------------------------------------------

  /** Digits at the start of `s`, as many as there are. */
  function LeadingDigits(s: string): (r: string)
  {
    if s != [] && IsDigit(s[0]) then [s[0]] + LeadingDigits(s[1..]) else []
  }

  /** `parseInt(s)` in base 10: leading whitespace and one sign are skipped, then as many digits as
      follow are read; `None` is `NaN` (no digit at all). */
  function ParseInt(s: string): Option<int> {
    var t := TrimStart(s);
    var negative := t != [] && t[0] == '-';
    var rest := if t != [] && (t[0] == '-' || t[0] == '+') then t[1..] else t;
    var digits := LeadingDigits(rest);
    if digits == [] then None
    else Some(if negative then -DecimalValue(digits) else DecimalValue(digits))
  }

  /** `header || '0'`: a missing or empty header reads as "0". */
  function HeaderText(header: Option<string>): string {
    if header.Some? && header.value != [] then header.value else "0"
  }

  /** `parseInt(header || '0')`. */
  function HeaderValue(header: Option<string>): Option<int> {
    ParseInt(HeaderText(header))
  }

  /** A rate-limit reading; `None` is `NaN`. */
  datatype RateLimit = RateLimit(limit: Option<int>, remaining: Option<int>, reset: Option<int>)

  /** `GitHubAPIError`. */
  datatype APIError = APIError(message: string, statusCode: int, rateLimit: RateLimit)

  /** What `fetch` answers: the status, the three rate-limit headers as sent (if sent) and the parsed body. */
  datatype Response<T> = Response(
    ok: bool,
    status: int,
    statusText: string,
    limitHeader: Option<string>,
    remainingHeader: Option<string>,
    resetHeader: Option<string>,
    body: T)

  function RateLimitOf<T>(response: Response<T>): RateLimit {
    RateLimit(HeaderValue(response.limitHeader), HeaderValue(response.remainingHeader),
              HeaderValue(response.resetHeader))
  }

  /** The error `request` throws for a non-ok response: a rate-limit error when the status is 403 and
      no request remains, a generic error carrying the status text otherwise. */
  function Failure<T>(response: Response<T>): APIError {
    var rateLimit := RateLimitOf(response);
    if response.status == 403 && rateLimit.remaining == Some(0) then
      APIError("GitHub API rate limit exceeded", response.status, rateLimit)
    else
      APIError("GitHub API error: " + response.statusText, response.status, rateLimit)
  }

  /** `request`: an ok response yields its body, any other throws. */
  function Request<T>(response: Response<T>): (r: Result<T, APIError>)
    ensures response.ok <==> r.Ok?
    ensures r.Ok? ==> r.value == response.body
    ensures r.Err? ==> r.error == Failure(response)
  {
    if !response.ok then Err(Failure(response)) else Ok(response.body)
  }

  /** Every failure carries the status and the rate-limit reading, and is the rate-limit error exactly
      when the status is 403 and no request remains. */
  lemma FailureClassified<T>(response: Response<T>)
    ensures Failure(response).statusCode == response.status
    ensures Failure(response).rateLimit == RateLimitOf(response)
    ensures Failure(response).message == "GitHub API rate limit exceeded"
            <==> response.status == 403 && RateLimitOf(response).remaining == Some(0)
  {
    var message := "GitHub API error: " + response.statusText;
    assert message[11] != "GitHub API rate limit exceeded"[11];
  }

  /** Reading a rendered number gives the number back. */
  lemma ParseIntOfDecimal(n: nat)
    ensures ParseInt(NatToDecimal(n)) == Some(n)
  {
    ParseIntOfDigits(NatToDecimal(n));
    DecimalRoundTrip(n);
  }

  /** A text made only of digits reads as its decimal value. */
  lemma ParseIntOfDigits(s: string)
    requires s != [] && forall i :: 0 <= i < |s| ==> IsDigit(s[i])
    ensures ParseInt(s) == Some(DecimalValue(s))
  {
    assert !IsWhitespace(s[0]) && s[0] != '-' && s[0] != '+';
    assert TrimStart(s) == s;
    LeadingDigitsAll(s);
  }

  /** `parseInt` reads the longest run of digits at the start of the text. */
  lemma {:induction false} LeadingDigitsFacts(s: string)
    ensures |LeadingDigits(s)| <= |s| && LeadingDigits(s) == s[..|LeadingDigits(s)|]
    ensures forall i :: 0 <= i < |LeadingDigits(s)| ==> IsDigit(LeadingDigits(s)[i])
    ensures |LeadingDigits(s)| < |s| ==> !IsDigit(s[|LeadingDigits(s)|])
  {
    if s != [] && IsDigit(s[0]) {
      LeadingDigitsFacts(s[1..]);
      assert LeadingDigits(s) == [s[0]] + LeadingDigits(s[1..]);
    }
  }

  lemma {:induction false} LeadingDigitsAll(s: string)
    requires forall i :: 0 <= i < |s| ==> IsDigit(s[i])
    ensures LeadingDigits(s) == s
  {
    if s != [] {
      LeadingDigitsAll(s[1..]);
    }
  }

  /** A 403 without a remaining-count header counts as rate-limited, because the missing header reads
      as 0; a header that is not a number never does. */
  lemma RateLimitEdgeCases<T>(response: Response<T>)
    requires !response.ok && response.status == 403
    ensures response.remainingHeader.None? ==> Request(response).error.message == "GitHub API rate limit exceeded"
    ensures response.remainingHeader == Some("none") ==> Request(response).error.message != "GitHub API rate limit exceeded"
  {
    FailureClassified(response);
    ParseIntZero();
    ParseIntWord();
  }

  lemma ParseIntZero()
    ensures ParseInt("0") == Some(0)
  {
    assert TrimStart("0") == "0";
    assert LeadingDigits("0") == "0" by {
      LeadingDigitsAll("0");
    }
  }

  lemma ParseIntWord()
    ensures ParseInt("none") == None
  {
    assert TrimStart("none") == "none";
    assert LeadingDigits("none") == [];
  }

  // ---------------------------------------------------------------------------
  // Pagination
  // ---------------------------------------------------------------------------

  const PerPage: nat := 100

  /** `request` for page `page` (counted from 1) of a listing whose server answers are `pages`; beyond
      the last one the server answers an ok, empty page. */
  function RequestPage<T>(pages: seq<Response<seq<T>>>, page: nat): Result<seq<T>, APIError> {
    if 1 <= page <= |pages| then Request(pages[page - 1]) else Ok([])
  }

  function Prepend<T>(acc: seq<T>, r: Result<seq<T>, APIError>): Result<seq<T>, APIError> {
    match r
    case Err(e) => Err(e)
    case Ok(items) => Ok(acc + items)
  }

  lemma PrependPrepend<T>(acc: seq<T>, items: seq<T>, r: Result<seq<T>, APIError>)
    ensures Prepend(acc, Prepend(items, r)) == Prepend(acc + items, r)
    ensures Prepend(acc, Ok([])) == Ok(acc)
  {
    if r.Ok? {
      assert acc + (items + r.value) == (acc + items) + r.value;
    }
    assert acc + [] == acc;
  }

  /** What reading from page `page` on yields: an error stops everything, an empty page stops, a
      short page is the last one read. */
  function PagesFrom<T>(pages: seq<Response<seq<T>>>, page: nat): Result<seq<T>, APIError>
    decreases |pages| + 1 - page
  {
    match RequestPage(pages, page)
    case Err(e) => Err(e)
    case Ok(items) =>
      if |items| == 0 then Ok([])
      else if |items| < PerPage then Ok(items)
      else Prepend(items, PagesFrom(pages, page + 1))
  }

  /** A listing read from page 1. */
  function Paginated<T>(pages: seq<Response<seq<T>>>): Result<seq<T>, APIError> {
    PagesFrom(pages, 1)
  }

  /** The `while (true)` loop shared by every listing: request page after page, append, and stop at an
      empty or short page; a failed request throws out of the loop. */
  method Paginate<T>(pages: seq<Response<seq<T>>>) returns (r: Result<seq<T>, APIError>)
    ensures r == Paginated(pages)
  {
    var acc: seq<T> := [];
    var page: nat := 1;
    PrependPrepend(acc, [], PagesFrom(pages, 1));
    assert Prepend(acc, PagesFrom(pages, 1)) == PagesFrom(pages, 1) by {
      if PagesFrom(pages, 1).Ok? {
        assert acc + PagesFrom(pages, 1).value == PagesFrom(pages, 1).value;
      }
    }
    while true
      invariant 1 <= page <= |pages| + 1
      invariant Paginated(pages) == Prepend(acc, PagesFrom(pages, page))
      decreases |pages| + 1 - page
    {
      var response := RequestPage(pages, page);
      if response.Err? {
        return Err(response.error);
      }
      var items := response.value;
      PrependPrepend(acc, items, PagesFrom(pages, page + 1));
      if |items| == 0 {
        return Ok(acc);
      }
      acc := acc + items;
      page := page + 1;
      if |items| < PerPage {
        return Ok(acc);
      }
    }
  }

  /** The listing is the concatenation of the pages up to and including the first short one, when every
      page before it was full. */
  lemma {:induction false} PaginatedStopsAtShortPage<T>(pages: seq<Response<seq<T>>>, k: nat)
    requires k < |pages|
    requires forall i :: 0 <= i <= k ==> pages[i].ok
    requires forall i :: 0 <= i < k ==> |pages[i].body| >= PerPage
    requires |pages[k].body| < PerPage
    ensures Paginated(pages) == Ok(AllItemsBetween(pages, 0, k + 1))
  {
    PagesFromSuffix(pages, 1, k);
  }

  /** Reading from page `page`, with the pages from there to `k + 1` full up to the short page `k + 1`,
      yields their items. */
  lemma {:induction false} PagesFromSuffix<T>(pages: seq<Response<seq<T>>>, page: nat, k: nat)
    requires 1 <= page <= k + 1 <= |pages|
    requires forall i :: page - 1 <= i <= k ==> pages[i].ok
    requires forall i :: page - 1 <= i < k ==> |pages[i].body| >= PerPage
    requires |pages[k].body| < PerPage
    ensures PagesFrom(pages, page) == Ok(AllItemsBetween(pages, page - 1, k + 1))
    decreases k + 1 - page
  {
    if page - 1 == k {
      assert AllItemsBetween(pages, k, k + 1) == pages[k].body + [] == pages[k].body;
      if |pages[k].body| == 0 {
        assert pages[k].body == [];
      }
    } else {
      PagesFromSuffix(pages, page + 1, k);
    }
  }

  /** The items of pages `lo` to `hi - 1` (counted from 0). */
  function AllItemsBetween<T>(pages: seq<Response<seq<T>>>, lo: nat, hi: nat): seq<T>
    requires lo <= hi <= |pages|
    decreases hi - lo
  {
    if lo == hi then [] else pages[lo].body + AllItemsBetween(pages, lo + 1, hi)
  }

  /** An error on a page reached after full pages is the listing's error. */
  lemma {:induction false} PaginatedError<T>(pages: seq<Response<seq<T>>>, k: nat)
    requires k < |pages|
    requires forall i :: 0 <= i < k ==> pages[i].ok && |pages[i].body| >= PerPage
    requires !pages[k].ok
    ensures Paginated(pages) == Err(Failure(pages[k]))
  {
    PagesFromError(pages, 1, k);
  }

  /** Reading from page `page`, with the pages from there to `k` full and page `k + 1` failing, fails
      the way that page's request does. */
  lemma {:induction false} PagesFromError<T>(pages: seq<Response<seq<T>>>, page: nat, k: nat)
    requires 1 <= page <= k + 1 <= |pages|
    requires forall i :: page - 1 <= i < k ==> pages[i].ok && |pages[i].body| >= PerPage
    requires !pages[k].ok
    ensures PagesFrom(pages, page) == RequestPage(pages, k + 1) && RequestPage(pages, k + 1).Err?
    decreases k + 1 - page
  {
    if page - 1 < k {
      assert pages[page - 1].ok && |pages[page - 1].body| >= PerPage;
      PagesFromError(pages, page + 1, k);
      PagesFromFullFailing(pages, page, RequestPage(pages, k + 1));
    }
  }

  /** A full page followed by a failing read fails the same way. */
  lemma PagesFromFullFailing<T>(pages: seq<Response<seq<T>>>, page: nat, r: Result<seq<T>, APIError>)
    requires 1 <= page <= |pages| && pages[page - 1].ok && |pages[page - 1].body| >= PerPage
    requires r.Err? && PagesFrom(pages, page + 1) == r
    ensures PagesFrom(pages, page) == r
  {
    PagesFromFull(pages, page);
  }

  /** Reading from a full page is that page followed by reading from the next. */
  lemma PagesFromFull<T>(pages: seq<Response<seq<T>>>, page: nat)
    requires 1 <= page <= |pages| && pages[page - 1].ok && |pages[page - 1].body| >= PerPage
    ensures PagesFrom(pages, page) == Prepend(pages[page - 1].body, PagesFrom(pages, page + 1))
  {
  }

  // ---------------------------------------------------------------------------
  // The listings
  // ---------------------------------------------------------------------------

  /** The ids of a list of PRs. */
  function IdsOf(prs: seq<GitHubPR>): set<string> {
    set i | 0 <= i < |prs| :: prs[i].id
  }

  /** The merge at the end of `getPRs`: authored PRs that are not also review-requested, then every
      review-requested PR. */
  function MergePRs(authored: seq<GitHubPR>, requested: seq<GitHubPR>): seq<GitHubPR> {
    Filter(authored, (pr: GitHubPR) => pr.id !in IdsOf(requested)) + requested
  }

  /** `getPRs`: both listings are read in full (either failing fails the call) and merged. */
  method GetPRs(authoredPages: seq<Response<seq<GitHubPR>>>, requestedPages: seq<Response<seq<GitHubPR>>>)
    returns (r: Result<seq<GitHubPR>, APIError>)
    ensures Paginated(authoredPages).Err? ==> r == Err(Paginated(authoredPages).error)
    ensures Paginated(authoredPages).Ok? && Paginated(requestedPages).Err? ==> r == Err(Paginated(requestedPages).error)
    ensures Paginated(authoredPages).Ok? && Paginated(requestedPages).Ok? ==>
              r == Ok(MergePRs(Paginated(authoredPages).value, Paginated(requestedPages).value))
  {
    var prs := Paginate(authoredPages);
    if prs.Err? {
      return Err(prs.error);
    }
    var reviewRequestedPRs := GetPRsWithReviewRequests(requestedPages);
    if reviewRequestedPRs.Err? {
      return Err(reviewRequestedPRs.error);
    }
    var reviewRequestedIds := IdsOf(reviewRequestedPRs.value);
    var uniquePRs := Filter(prs.value, (pr: GitHubPR) => pr.id !in reviewRequestedIds);
    return Ok(uniquePRs + reviewRequestedPRs.value);
  }

  /** `getPRsWithReviewRequests`. */
  method GetPRsWithReviewRequests(pages: seq<Response<seq<GitHubPR>>>) returns (r: Result<seq<GitHubPR>, APIError>)
    ensures r == Paginated(pages)
  {
    r := Paginate(pages);
  }

  /** What the merge keeps: the review-requested PRs come last and in full; before them stand, in their
      order, exactly the authored PRs whose id is not review-requested, so no review-requested id
      appears twice through the authored part. */
  lemma MergePRsFacts(authored: seq<GitHubPR>, requested: seq<GitHubPR>)
    ensures var m := MergePRs(authored, requested);
      var n := |m| - |requested|;
      && 0 <= n <= |authored|
      && m[n..] == requested
      && IsSubsequence(m[..n], authored)
      && (forall i :: 0 <= i < n ==> m[i].id !in IdsOf(requested))
      && (forall i :: 0 <= i < |authored| && authored[i].id !in IdsOf(requested) ==> authored[i] in m[..n])
  {
    var p := (pr: GitHubPR) => pr.id !in IdsOf(requested);
    var f := Filter(authored, p);
    FilterIsSubsequence(authored, p);
    FilterMembers(authored, p);
    var m := f + requested;
    assert m[..|f|] == f && m[|f|..] == requested;
  }

  /** `getComments`: the issue comments, then the review comments; a failure in either fails the call. */
  method GetComments(issuePages: seq<Response<seq<GitHubComment>>>, reviewPages: seq<Response<seq<GitHubComment>>>)
    returns (r: Result<seq<GitHubComment>, APIError>)
    ensures Paginated(issuePages).Err? ==> r == Err(Paginated(issuePages).error)
    ensures Paginated(issuePages).Ok? && Paginated(reviewPages).Err? ==> r == Err(Paginated(reviewPages).error)
    ensures Paginated(issuePages).Ok? && Paginated(reviewPages).Ok? ==>
              r == Ok(Paginated(issuePages).value + Paginated(reviewPages).value)
  {
    var comments: seq<GitHubComment> := [];
    var issueComments := Paginate(issuePages);
    if issueComments.Err? {
      return Err(issueComments.error);
    }
    comments := comments + issueComments.value;
    var reviewComments := Paginate(reviewPages);
    if reviewComments.Err? {
      return Err(reviewComments.error);
    }
    comments := comments + reviewComments.value;
    assert comments == issueComments.value + reviewComments.value;
    return Ok(comments);
  }

  /** `getReviews`. */
  method GetReviews(pages: seq<Response<seq<GitHubReview>>>) returns (r: Result<seq<GitHubReview>, APIError>)
    ensures r == Paginated(pages)
  {
    r := Paginate(pages);
  }
}

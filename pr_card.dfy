/** The rules the PR card applies before rendering: the priority ladder and its label, the relative
    age of the last update, and the comment-source badges (presentation/web/components/pr/PRCard.tsx). */
module PRCard {
  import opened Wrappers
  import opened Text
  import opened Seqs
  import opened OrderedMaps
  import opened PRMapper

  datatype Priority = Urgent | Action | Blocked | Good | Pending | Draft

  /** `currentUserId || ''`. */
  function ViewerId(currentUserId: Option<string>): string {
    if currentUserId.Some? then currentUserId.value else ""
  }

  /** `getPriority`: the first rule that applies wins. */
  function GetPriority(pr: PRDTO, currentUserId: Option<string>): (r: Priority)
    ensures r == Draft <==> pr.status == "draft"
    ensures r == Urgent <==> pr.status != "draft" && ViewerId(currentUserId) in pr.reviewers
    ensures r == Good <==>
      && pr.status != "draft"
      && ViewerId(currentUserId) !in pr.reviewers
      && pr.reviewStatus.changesRequested == 0
      && pr.comments.unresolved <= 0
      && pr.reviewStatus.approved > 0
    ensures r == Blocked ==> pr.reviewStatus.changesRequested > 0
    ensures r == Action ==> pr.comments.unresolved > 0 && pr.reviewStatus.changesRequested <= 0
  {
    if pr.status == "draft" then Draft
    else if ViewerId(currentUserId) in pr.reviewers then Urgent
    else if pr.reviewStatus.changesRequested > 0 then Blocked
    else if pr.comments.unresolved > 0 then Action
    else if pr.reviewStatus.approved > 0 && pr.reviewStatus.changesRequested == 0 then Good
    else Pending
  }

  /** With non-negative counts, a PR is pending exactly when nothing else applies: no approval, no
      requested change, no unresolved comment, not a draft and not waiting for the viewer. */
  lemma PendingMeansQuiet(pr: PRDTO, currentUserId: Option<string>)
    requires pr.reviewStatus.approved >= 0 && pr.reviewStatus.changesRequested >= 0 && pr.comments.unresolved >= 0
    ensures GetPriority(pr, currentUserId) == Pending <==>
      && pr.status != "draft"
      && ViewerId(currentUserId) !in pr.reviewers
      && pr.reviewStatus.changesRequested == 0
      && pr.comments.unresolved == 0
      && pr.reviewStatus.approved == 0
  {
  }

  /** `getPriorityLabel`. */
  function GetPriorityLabel(priority: Priority): (r: string)
    ensures r != []
  {
    match priority
    case Urgent => "Review Requested"
    case Action => "Has Comments"
    case Blocked => "Changes Requested"
    case Good => "Approved"
    case Draft => "Draft"
    case Pending => "Pending Review"
  }

  /** Every priority has its own label. */
  lemma PriorityLabelInjective(p: Priority, q: Priority)
    ensures GetPriorityLabel(p) == GetPriorityLabel(q) ==> p == q
  {
    if GetPriorityLabel(p) == GetPriorityLabel(q) {
      assert |GetPriorityLabel(p)| == |GetPriorityLabel(q)|;
    }
  }

  // ---------------------------------------------------------------------------
  // Relative time
  // ---------------------------------------------------------------------------

  /** `Math.floor((now - date) / 1000)`, on epoch milliseconds (`/` rounds down here too). */
  function Seconds(date: int, now: int): int {
    (now - date) / 1000
  }

  /** The bucket an age in seconds falls in, with the count shown for it. */
  datatype Age = JustNow | Minutes(count: nat) | Hours(count: nat) | Days(count: nat) | Weeks(count: nat)

  function AgeOf(seconds: int): (r: Age)
    ensures r.JustNow? <==> seconds < 60
    ensures r.Minutes? ==> 1 <= r.count < 60 && r.count * 60 <= seconds < (r.count + 1) * 60
    ensures r.Hours? ==> 1 <= r.count < 24 && r.count * 3600 <= seconds < (r.count + 1) * 3600
    ensures r.Days? ==> 1 <= r.count < 7 && r.count * 86400 <= seconds < (r.count + 1) * 86400
    ensures r.Weeks? ==> 1 <= r.count && r.count * 604800 <= seconds < (r.count + 1) * 604800
  {
    if seconds < 60 then JustNow
    else if seconds < 3600 then Minutes(seconds / 60)
    else if seconds < 86400 then Hours(seconds / 3600)
    else if seconds < 604800 then Days(seconds / 86400)
    else Weeks(seconds / 604800)
  }

  /** The unit letter of a bucket. */
  function Unit(age: Age): string {
    match age
    case JustNow => ""
    case Minutes(_) => "m"
    case Hours(_) => "h"
    case Days(_) => "d"
    case Weeks(_) => "w"
  }

  /** `getTimeAgo`: "just now" under a minute, otherwise the count and unit of the largest bucket. */
  function GetTimeAgo(date: int, now: int): (r: string)
    ensures AgeOf(Seconds(date, now)).JustNow? ==> r == "just now"
    ensures !AgeOf(Seconds(date, now)).JustNow? ==>
              r == NatToDecimal(AgeOf(Seconds(date, now)).count) + Unit(AgeOf(Seconds(date, now))) + " ago"
  {
    var seconds := Seconds(date, now);
    if seconds < 60 then "just now"
    else if seconds < 3600 then NatToDecimal(seconds / 60) + "m ago"
    else if seconds < 86400 then NatToDecimal(seconds / 3600) + "h ago"
    else if seconds < 604800 then NatToDecimal(seconds / 86400) + "d ago"
    else NatToDecimal(seconds / 604800) + "w ago"
  }

  /** The number shown reads back as the count of whole units elapsed. */
  lemma TimeAgoReadsBack(date: int, now: int)
    requires Seconds(date, now) >= 60
    ensures var age := AgeOf(Seconds(date, now));
            var digits := GetTimeAgo(date, now)[..|NatToDecimal(age.count)|];
            (forall i :: 0 <= i < |digits| ==> IsDigit(digits[i])) && DecimalValue(digits) == age.count
  {
    var age := AgeOf(Seconds(date, now));
    assert GetTimeAgo(date, now)[..|NatToDecimal(age.count)|] == NatToDecimal(age.count);
    DecimalRoundTrip(age.count);
  }

  // ---------------------------------------------------------------------------
  // Source badges
  // ---------------------------------------------------------------------------

  datatype BadgeType = CopilotBadge | CodeRabbitBadge | BotBadge | ReviewerBadge

  datatype Badge = Badge(name: string, count: int, kind: BadgeType)

  /** The badge of one entry: copilot is checked first, then coderabbit, then any "bot"; anything
      else is a reviewer shown under its own name. */
  function BadgeOf(source: string, count: int): (r: Badge)
    ensures r.count == count
    ensures r.kind == ReviewerBadge <==>
      !Contains(Lower(source), "copilot") && !Contains(Lower(source), "coderabbit") && !Contains(Lower(source), "bot")
    ensures r.kind == ReviewerBadge ==> r.name == source
    ensures Contains(Lower(source), "copilot") ==> r == Badge("Copilot", count, CopilotBadge)
    ensures !Contains(Lower(source), "copilot") && Contains(Lower(source), "coderabbit") ==>
              r == Badge("CodeRabbit", count, CodeRabbitBadge)
    ensures (!Contains(Lower(source), "copilot") && !Contains(Lower(source), "coderabbit")
             && Contains(Lower(source), "bot")) ==> r == Badge("Bot", count, BotBadge)
  {
    var sourceLower := Lower(source);
    if Contains(sourceLower, "copilot") then Badge("Copilot", count, CopilotBadge)
    else if Contains(sourceLower, "coderabbit") then Badge("CodeRabbit", count, CodeRabbitBadge)
    else if Contains(sourceLower, "bot") then Badge("Bot", count, BotBadge)
    else Badge(source, count, ReviewerBadge)
  }

  /** The badges of the first entries, in entry order, one per entry with a positive count. */
  function Badges(entries: Entries<string, int>): seq<Badge> {
    if entries == [] then []
    else
      var last := entries[|entries| - 1];
      Badges(entries[..|entries| - 1]) + (if last.1 > 0 then [BadgeOf(last.0, last.1)] else [])
  }

  predicate Positive(entry: (string, int)) {
    entry.1 > 0
  }

  /** `getSourceBadges`: no record, no badges; otherwise the `forEach` over the record's entries. */
  method GetSourceBadges(bySource: Option<Entries<string, int>>) returns (badges: seq<Badge>)
    ensures bySource.None? ==> badges == []
    ensures bySource.Some? ==> badges == Badges(bySource.value)
  {
    if bySource.None? {
      return [];
    }
    var entries := bySource.value;
    badges := [];
    for i := 0 to |entries|
      invariant badges == Badges(entries[..i])
    {
      var (source, count) := entries[i];
      assert entries[..i + 1][..i] == entries[..i];
      if count > 0 {
        badges := badges + [BadgeOf(source, count)];
      }
    }
    assert entries[..|entries|] == entries;
  }

  /** The badges are exactly the positive entries, in order, each classified on its own. */
  lemma {:induction false} BadgesOfPositive(entries: Entries<string, int>)
    ensures |Badges(entries)| == |Filter(entries, Positive)|
    ensures forall i :: 0 <= i < |Badges(entries)| ==>
              Badges(entries)[i] == BadgeOf(Filter(entries, Positive)[i].0, Filter(entries, Positive)[i].1)
  {
    if entries != [] {
      var init := entries[..|entries| - 1];
      var last := entries[|entries| - 1];
      BadgesOfPositive(init);
      assert entries == init + [last];
      FilterConcat(init, [last], Positive);
      if Positive(last) {
        assert Filter([last], Positive) == [last];
      } else {
        assert Filter([last], Positive) == [];
      }
    }
  }

  /** Every badge counts something. */
  lemma BadgesArePositive(entries: Entries<string, int>)
    ensures forall i :: 0 <= i < |Badges(entries)| ==> Badges(entries)[i].count > 0
  {
    BadgesOfPositive(entries);
    FilterMembers(entries, Positive);
  }
}

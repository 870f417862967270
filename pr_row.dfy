/** The rules the compact PR row applies before rendering: short relative ages, the action label,
    the reviewer list and the comment breakdown (presentation/web/components/pr/PRRow.tsx). */
module PRRow {
  import opened Wrappers
  import opened Text
  import opened Seqs
  import opened OrderedMaps
  import PRCard

  // ---------------------------------------------------------------------------
  // Relative time
  // ---------------------------------------------------------------------------

  /** `getTimeAgo`: the card's buckets with short labels ("now", "5m", "3h", "2d", "1w"). */
  function GetTimeAgo(date: int, now: int): (r: string)
    ensures PRCard.AgeOf(PRCard.Seconds(date, now)).JustNow? ==> r == "now"
    ensures !PRCard.AgeOf(PRCard.Seconds(date, now)).JustNow? ==>
              r == NatToDecimal(PRCard.AgeOf(PRCard.Seconds(date, now)).count)
                   + PRCard.Unit(PRCard.AgeOf(PRCard.Seconds(date, now)))
  {
    var seconds := (now - date) / 1000;
    if seconds < 60 then "now"
    else if seconds < 3600 then NatToDecimal(seconds / 60) + "m"
    else if seconds < 86400 then NatToDecimal(seconds / 3600) + "h"
    else if seconds < 604800 then NatToDecimal(seconds / 86400) + "d"
    else NatToDecimal(seconds / 604800) + "w"
  }

  /** The row and the card agree on the age: past the first minute the card's text is the row's
      followed by " ago". */
  lemma TimeAgoMatchesCard(date: int, now: int)
    ensures PRCard.Seconds(date, now) < 60 <==> GetTimeAgo(date, now) == "now"
    ensures PRCard.Seconds(date, now) >= 60 ==> PRCard.GetTimeAgo(date, now) == GetTimeAgo(date, now) + " ago"
  {
    var age := PRCard.AgeOf(PRCard.Seconds(date, now));
    if !age.JustNow? {
      var digits := NatToDecimal(age.count);
      assert GetTimeAgo(date, now)[0] == digits[0];
      assert IsDigit(GetTimeAgo(date, now)[0]);
    }
  }

  // ---------------------------------------------------------------------------
  // Action label
  // ---------------------------------------------------------------------------

  datatype ActionLabel = ActionLabel(text: string, style: string)

  /** The five actions the label knows. */
  predicate KnownAction(action: Option<string>) {
    action.Some? &&
    (action.value == "review" || action.value == "address_feedback" || action.value == "respond_comments"
     || action.value == "ready_to_merge" || action.value == "waiting")
  }

  /** `getActionLabel`: a fixed text and style per known action, empty ones for anything else
      (including no action at all). */
  function GetActionLabel(action: Option<string>): (r: ActionLabel)
    ensures r.text == [] <==> !KnownAction(action)
    ensures r.style == [] <==> !KnownAction(action)
  {
    if action == Some("review") then ActionLabel("NEEDS YOUR REVIEW", "actionReview")
    else if action == Some("address_feedback") then ActionLabel("ADDRESS FEEDBACK", "actionFeedback")
    else if action == Some("respond_comments") then ActionLabel("RESPOND TO COMMENTS", "actionComments")
    else if action == Some("ready_to_merge") then ActionLabel("READY TO MERGE", "actionReady")
    else if action == Some("waiting") then ActionLabel("WAITING FOR REVIEW", "actionWaiting")
    else ActionLabel("", "")
  }

  /** Different known actions are told apart by their text. */
  lemma ActionLabelsDistinct(a: Option<string>, b: Option<string>)
    requires KnownAction(a) && KnownAction(b)
    ensures GetActionLabel(a).text == GetActionLabel(b).text ==> a == b
  {
    if GetActionLabel(a).text == GetActionLabel(b).text {
      assert |GetActionLabel(a).text| == |GetActionLabel(b).text|;
    }
  }

  // ---------------------------------------------------------------------------
  // Reviewers
  // ---------------------------------------------------------------------------

  datatype Reviewer = Reviewer(login: string, isBot: bool)

  /** The shown name: a bot is CodeRabbit (checked first) or Copilot when its login says so, else
      its login without the first "[bot]", trimmed; a person is shown by login. */
  function ShortName(reviewer: Reviewer): (r: string)
    ensures !reviewer.isBot ==> r == reviewer.login
    ensures reviewer.isBot && Contains(Lower(reviewer.login), "coderabbit") ==> r == "CodeRabbit"
    ensures (reviewer.isBot && !Contains(Lower(reviewer.login), "coderabbit")
             && Contains(Lower(reviewer.login), "copilot")) ==> r == "Copilot"
    ensures (reviewer.isBot && !Contains(Lower(reviewer.login), "coderabbit")
             && !Contains(Lower(reviewer.login), "copilot")) ==> r == Trim(ReplaceFirst(reviewer.login, "[bot]", ""))
  {
    if reviewer.isBot then
      if Contains(Lower(reviewer.login), "coderabbit") then "CodeRabbit"
      else if Contains(Lower(reviewer.login), "copilot") then "Copilot"
      else Trim(ReplaceFirst(reviewer.login, "[bot]", ""))
    else reviewer.login
  }

  /** A bot login of the form "name[bot]" is shown as the trimmed name. */
  lemma BotSuffixDropped(name: string)
    requires '[' !in name
    requires !Contains(Lower(name + "[bot]"), "coderabbit") && !Contains(Lower(name + "[bot]"), "copilot")
    ensures ShortName(Reviewer(name + "[bot]", true)) == Trim(name)
  {
    var login := name + "[bot]";
    forall j | 0 <= j < |name| ensures !OccursAt(login, "[bot]", j) {
      assert login[j] == name[j];
    }
    ReplaceFirstAfter(name, "[bot]", "[bot]", "");
    assert ReplaceFirst("[bot]", "[bot]", "") == [];
    assert name + [] == name;
  }

  function Names(reviewers: seq<Reviewer>): (names: seq<string>)
    ensures |names| == |reviewers|
    ensures forall i :: 0 <= i < |reviewers| ==> names[i] == ShortName(reviewers[i])
  {
    seq(|reviewers|, i requires 0 <= i < |reviewers| => ShortName(reviewers[i]))
  }

  /** `formatReviewers`: nothing for nobody, up to two names joined by ", ", and beyond that the
      first two names and how many more there are. */
  function FormatReviewers(reviewers: seq<Reviewer>): (r: string)
    ensures reviewers == [] ==> r == []
    ensures 1 <= |reviewers| <= 2 ==> r == Join(Names(reviewers), ", ")
    ensures |reviewers| > 2 ==>
              r == ShortName(reviewers[0]) + ", " + ShortName(reviewers[1]) + " +" + NatToDecimal(|reviewers| - 2)
  {
    var names := Names(reviewers);
    if |names| == 0 then ""
    else if |names| <= 2 then Join(names, ", ")
    else names[0] + ", " + names[1] + " +" + NatToDecimal(|names| - 2)
  }

  /** Beyond two reviewers, the number after the final '+' reads back as the count of names not shown. */
  lemma HiddenReviewersCounted(reviewers: seq<Reviewer>)
    requires |reviewers| > 2
    ensures var r := FormatReviewers(reviewers);
            var k := |NatToDecimal(|reviewers| - 2)|;
            && |r| > k && r[|r| - k - 1] == '+'
            && (forall i :: |r| - k <= i < |r| ==> IsDigit(r[i]))
            && DecimalValue(r[|r| - k..]) == |reviewers| - 2
  {
    var r := FormatReviewers(reviewers);
    var digits := NatToDecimal(|reviewers| - 2);
    var front := ShortName(reviewers[0]) + ", " + ShortName(reviewers[1]) + " +";
    assert r == front + digits;
    assert r[|r| - |digits|..] == digits;
    assert r[|r| - |digits| - 1] == front[|front| - 1] == '+';
    DecimalRoundTrip(|reviewers| - 2);
  }

  // ---------------------------------------------------------------------------
  // Comment breakdown
  // ---------------------------------------------------------------------------

  datatype SourceKind = CodeRabbitSource | CopilotSource | BotSource | HumanSource

  /** The row's classification: coderabbit is checked first, then copilot, then any "bot". */
  function KindOf(source: string): (r: SourceKind)
    ensures Contains(Lower(source), "coderabbit") ==> r == CodeRabbitSource
    ensures !Contains(Lower(source), "coderabbit") && Contains(Lower(source), "copilot") ==> r == CopilotSource
    ensures (!Contains(Lower(source), "coderabbit") && !Contains(Lower(source), "copilot")
             && Contains(Lower(source), "bot")) ==> r == BotSource
    ensures r == HumanSource <==>
      !Contains(Lower(source), "coderabbit") && !Contains(Lower(source), "copilot") && !Contains(Lower(source), "bot")
  {
    var sourceLower := Lower(source);
    if Contains(sourceLower, "coderabbit") then CodeRabbitSource
    else if Contains(sourceLower, "copilot") then CopilotSource
    else if Contains(sourceLower, "bot") then BotSource
    else HumanSource
  }

  /** The row and the card rank the two assistants in opposite orders: a source naming both is a
      Copilot badge on the card and a CodeRabbit part in the row. */
  lemma AssistantPrecedenceDiffers()
    ensures PRCard.BadgeOf("copilot-coderabbit", 1).kind == PRCard.CopilotBadge
    ensures KindOf("copilot-coderabbit") == CodeRabbitSource
  {
    var s := "copilot-coderabbit";
    assert Lower(s) == s by {
      forall i | 0 <= i < |s| ensures Lower(s)[i] == s[i] {
        assert !('A' <= s[i] <= 'Z');
      }
    }
    assert OccursAt(s, "copilot", 0) by {
      assert s[0..7] == "copilot";
    }
    assert OccursAt(s, "coderabbit", 8) by {
      assert s[8..18] == "coderabbit";
    }
  }

  predicate IsHuman(entry: (string, int)) {
    KindOf(entry.0) == HumanSource
  }

  predicate IsAutomated(entry: (string, int)) {
    !IsHuman(entry)
  }

  /** The part shown for an automated source. */
  function PartOf(source: string, count: int): string {
    match KindOf(source)
    case CodeRabbitSource => "CodeRabbit " + IntToDecimal(count)
    case CopilotSource => "Copilot " + IntToDecimal(count)
    case BotSource => "Bot " + IntToDecimal(count)
    case HumanSource => "Human " + IntToDecimal(count)
  }

  /** The parts pushed for the automated sources among the entries, in entry order. */
  function AutomatedParts(entries: Entries<string, int>): seq<string> {
    if entries == [] then []
    else
      var last := entries[|entries| - 1];
      AutomatedParts(entries[..|entries| - 1]) + (if IsHuman(last) then [] else [PartOf(last.0, last.1)])
  }

  /** `humanCount`: the counts of the human sources added up. */
  function HumanCount(entries: Entries<string, int>): int {
    if entries == [] then 0
    else
      var last := entries[|entries| - 1];
      HumanCount(entries[..|entries| - 1]) + (if IsHuman(last) then last.1 else 0)
  }

  /** The parts: the automated ones in entry order, then one for the humans when they count. */
  function Parts(entries: Entries<string, int>): seq<string> {
    var humans := HumanCount(entries);
    AutomatedParts(entries) + (if humans > 0 then ["Human " + IntToDecimal(humans)] else [])
  }

  /** `formatCommentBreakdown`: nothing without a record or with an empty one; otherwise the parts
      joined by ", ". */
  method FormatCommentBreakdown(bySource: Option<Entries<string, int>>) returns (r: string)
    ensures bySource.None? || bySource == Some([]) ==> r == []
    ensures bySource.Some? && bySource.value != [] ==> r == Join(Parts(bySource.value), ", ")
  {
    if bySource.None? || |bySource.value| == 0 {
      return "";
    }
    var entries := bySource.value;
    var parts: seq<string> := [];
    var humanCount := 0;
    for i := 0 to |entries|
      invariant parts == AutomatedParts(entries[..i])
      invariant humanCount == HumanCount(entries[..i])
    {
      var (source, count) := entries[i];
      assert entries[..i + 1][..i] == entries[..i];
      assert entries[..i + 1][i] == (source, count);
      var sourceLower := Lower(source);
      if Contains(sourceLower, "coderabbit") {
        parts := parts + ["CodeRabbit " + IntToDecimal(count)];
      } else if Contains(sourceLower, "copilot") {
        parts := parts + ["Copilot " + IntToDecimal(count)];
      } else if Contains(sourceLower, "bot") {
        parts := parts + ["Bot " + IntToDecimal(count)];
      } else {
        humanCount := humanCount + count;
      }
    }
    assert entries[..|entries|] == entries;
    if humanCount > 0 {
      parts := parts + ["Human " + IntToDecimal(humanCount)];
    } else {
      assert parts + [] == parts;
    }
    assert parts == Parts(entries);
    r := Join(parts, ", ");
  }

  /** One part per automated entry, in entry order. */
  lemma {:induction false} AutomatedPartsOfEntries(entries: Entries<string, int>)
    ensures |AutomatedParts(entries)| == |Filter(entries, IsAutomated)|
    ensures forall i :: 0 <= i < |AutomatedParts(entries)| ==>
              AutomatedParts(entries)[i] == PartOf(Filter(entries, IsAutomated)[i].0, Filter(entries, IsAutomated)[i].1)
  {
    if entries != [] {
      var init := entries[..|entries| - 1];
      var last := entries[|entries| - 1];
      AutomatedPartsOfEntries(init);
      assert entries == init + [last];
      FilterConcat(init, [last], IsAutomated);
      var before := Filter(init, IsAutomated);
      if IsHuman(last) {
        assert Filter([last], IsAutomated) == [];
        assert Filter(entries, IsAutomated) == before;
        assert AutomatedParts(entries) == AutomatedParts(init);
      } else {
        assert Filter([last], IsAutomated) == [last];
        assert Filter(entries, IsAutomated) == before + [last];
        assert AutomatedParts(entries) == AutomatedParts(init) + [PartOf(last.0, last.1)];
      }
    }
  }

  /** The human total is the sum of the human entries' counts. */
  lemma {:induction false} HumanCountOfEntries(entries: Entries<string, int>)
    ensures HumanCount(entries) == Sum(Values(Filter(entries, IsHuman)))
  {
    if entries != [] {
      var init := entries[..|entries| - 1];
      var last := entries[|entries| - 1];
      HumanCountOfEntries(init);
      assert entries == init + [last];
      FilterConcat(init, [last], IsHuman);
      if IsHuman(last) {
        assert Filter([last], IsHuman) == [last];
        assert Values(Filter(init, IsHuman) + [last]) == Values(Filter(init, IsHuman)) + [last.1];
        SumSnoc(Values(Filter(init, IsHuman)), last.1);
      } else {
        assert Filter([last], IsHuman) == [];
        assert Filter(init, IsHuman) + [] == Filter(init, IsHuman);
      }
    }
  }

  /** The human part, when present, is the last one. */
  lemma HumanPartLast(entries: Entries<string, int>)
    requires HumanCount(entries) > 0
    ensures Parts(entries)[|Parts(entries)| - 1] == "Human " + IntToDecimal(HumanCount(entries))
    ensures forall i :: 0 <= i < |Parts(entries)| - 1 ==> Parts(entries)[i] == AutomatedParts(entries)[i]
  {
    var automated := AutomatedParts(entries);
    assert Parts(entries) == automated + ["Human " + IntToDecimal(HumanCount(entries))];
  }
}

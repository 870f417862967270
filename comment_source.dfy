/** Where a comment came from, derived from its GitHub author (domain/value-objects/CommentSource.ts). */
module CommentSourceVO {
  import opened Text

  datatype CommentSource = Reviewer | Bot | Copilot | CodeRabbit | Other

  /** GitHub's account type of a comment author. */
  datatype AuthorType = UserAccount | BotAccount

  /** The author fields the classification looks at. */
  datatype GitHubAuthor = GitHubAuthor(kind: AuthorType, login: string)

  function ToString(s: CommentSource): string {
    match s
    case Reviewer => "reviewer"
    case Bot => "bot"
    case Copilot => "copilot"
    case CodeRabbit => "coderabbit"
    case Other => "other"
  }

  /** Classifies an author: users are reviewers; bots by lower-cased login, "copilot" before "coderabbit". */
  function FromAuthor(author: GitHubAuthor): (r: CommentSource)
    ensures r != Other
    ensures author.kind == UserAccount ==> r == Reviewer
    ensures r == Copilot <==>
      author.kind == BotAccount && Contains(Lower(author.login), "copilot")
    ensures r == CodeRabbit <==>
      author.kind == BotAccount && !Contains(Lower(author.login), "copilot")
      && Contains(Lower(author.login), "coderabbit")
    ensures r == Bot <==>
      author.kind == BotAccount && !Contains(Lower(author.login), "copilot")
      && !Contains(Lower(author.login), "coderabbit")
  {
    if author.kind == BotAccount then
      var login := Lower(author.login);
      if Contains(login, "copilot") then Copilot
      else if Contains(login, "coderabbit") then CodeRabbit
      else Bot
    else Reviewer
  }

  /** Equality of the underlying strings. */
  function Equals(a: CommentSource, b: CommentSource): (r: bool)
    ensures r <==> a == b
  {
    ToString(a) == ToString(b)
  }

  predicate IsBot(s: CommentSource) {
    Equals(s, Bot) || Equals(s, Copilot) || Equals(s, CodeRabbit) || Equals(s, Other)
  }

  predicate IsReviewer(s: CommentSource) {
    Equals(s, Reviewer)
  }

  /** Every source is either a bot or a reviewer, never both. */
  lemma BotXorReviewer(s: CommentSource)
    ensures IsBot(s) != IsReviewer(s)
    ensures IsReviewer(s) <==> s == Reviewer
  {
  }

  /** The classification agrees with the account type: bot sources exactly for bot accounts. */
  lemma FromAuthorIsBotIffBotAccount(author: GitHubAuthor)
    ensures IsBot(FromAuthor(author)) <==> author.kind == BotAccount
    ensures IsReviewer(FromAuthor(author)) <==> author.kind == UserAccount
  {
  }

  /** "copilot" is matched first: a bot whose login names both tools is a Copilot source. */
  lemma CopilotBeforeCodeRabbit()
    ensures FromAuthor(GitHubAuthor(BotAccount, "CodeRabbit-Copilot[bot]")) == Copilot
  {
    var login := Lower("CodeRabbit-Copilot[bot]");
    assert login == "coderabbit-copilot[bot]";
    assert OccursAt(login, "copilot", 11);
  }

  /** A user account is a reviewer whatever its login says. */
  lemma UserNamedLikeBotIsReviewer()
    ensures FromAuthor(GitHubAuthor(UserAccount, "copilot")) == Reviewer
  {
  }
}

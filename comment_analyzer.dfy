/** Statistics and filters over a pull request's comments (domain/services/CommentAnalyzer.ts). */
module CommentAnalyzer {
  import opened Wrappers
  import opened Seqs
  import opened OrderedMaps
  import opened CommentSourceVO
  import opened CommentEntity
  import PREntity

  /** `CommentStatistics`: `bySource` is a `Map<string, number>`, kept here in its insertion order. */
  datatype CommentStatistics = CommentStatistics(total: int, unresolved: int, bySource: Entries<string, int>)

  /** `getCountBySource`: the recorded count, or 0 for a source that has none. */
  function GetCountBySource(stats: CommentStatistics, source: string): (n: int)
    ensures !HasKey(stats.bySource, source) ==> n == 0
    ensures HasKey(stats.bySource, source) ==> exists i :: 0 <= i < |stats.bySource| && stats.bySource[i] == (source, n)
  {
    Get(stats.bySource, source).GetOr(0)
  }

  // ---------------------------------------------------------------------------
  // groupBySource
  // ---------------------------------------------------------------------------

  /** The source name of each comment, in order. */
  function SourceKeys(comments: seq<Comment>): (ks: seq<string>)
    ensures |ks| == |comments|
    ensures forall i :: 0 <= i < |comments| ==> ks[i] == CommentSourceVO.ToString(comments[i].source)
  {
    seq(|comments|, i requires 0 <= i < |comments| => CommentSourceVO.ToString(comments[i].source))
  }

  /** One step of the grouping loop: `map.set(key, (map.get(key) ?? 0) + 1)`. */
  function Bump(e: Entries<string, int>, key: string): Entries<string, int> {
    var current := Get(e, key).GetOr(0);
    Set(e, key, current + 1)
  }

  /** The map the grouping loop has built after the given keys. */
  function Tally(keys: seq<string>): Entries<string, int>
    decreases |keys|
  {
    if keys == [] then [] else Bump(Tally(keys[..|keys| - 1]), keys[|keys| - 1])
  }

  /** `groupBySource`: one pass over the comments counting each source name. */
  method GroupBySource(comments: seq<Comment>) returns (bySource: Entries<string, int>)
    ensures bySource == Tally(SourceKeys(comments))
  {
    bySource := [];
    ghost var keys := SourceKeys(comments);
    for i := 0 to |comments|
      invariant bySource == Tally(keys[..i])
    {
      var source := CommentSourceVO.ToString(comments[i].source);
      TallySnoc(keys, i);
      bySource := Bump(bySource, source);
    }
    assert keys[..|comments|] == keys;
  }

  /** The map after one more key is the map before it, bumped at that key. */
  lemma TallySnoc(keys: seq<string>, i: nat)
    requires i < |keys|
    ensures Tally(keys[..i + 1]) == Bump(Tally(keys[..i]), keys[i])
  {
    assert keys[..i + 1][..i] == keys[..i];
  }

  lemma SumValuesCons(x: (string, int), e: Entries<string, int>)
    ensures Sum(Values([x] + e)) == x.1 + Sum(Values(e))
  {
    assert Values([x] + e)[1..] == Values(e);
  }

  /** Adding one to an existing count, or appending a count of one, adds one to the sum of counts. */
  lemma {:induction false} SumBump(e: Entries<string, int>, key: string)
    ensures Sum(Values(Bump(e, key))) == Sum(Values(e)) + 1
  {
    if !HasKey(e, key) {
      SumBumpNew(e, key);
    } else if e[0].0 == key {
      SumBumpHead(e, key);
    } else {
      SumBump(e[1..], key);
      SumBumpTail(e, key);
    }
  }

  lemma SumBumpNew(e: Entries<string, int>, key: string)
    requires !HasKey(e, key)
    ensures Sum(Values(Bump(e, key))) == Sum(Values(e)) + 1
  {
    SetFacts(e, key, 1);
    assert Bump(e, key) == e + [(key, 1)];
    assert Values(e + [(key, 1)]) == Values(e) + [1];
    SumSnoc(Values(e), 1);
  }

  lemma SumBumpHead(e: Entries<string, int>, key: string)
    requires e != [] && e[0].0 == key
    ensures Sum(Values(Bump(e, key))) == Sum(Values(e)) + 1
  {
    assert Get(e, key) == Some(e[0].1);
    assert Bump(e, key) == [(key, e[0].1 + 1)] + e[1..];
    SumValuesCons((key, e[0].1 + 1), e[1..]);
    SumValuesCons(e[0], e[1..]);
    assert [e[0]] + e[1..] == e;
  }

  /** A bump of a key that is not first leaves the first entry in front. */
  lemma BumpCons(e: Entries<string, int>, key: string)
    requires e != [] && e[0].0 != key
    ensures Bump(e, key) == [e[0]] + Bump(e[1..], key)
  {
    var v := Get(e[1..], key).GetOr(0) + 1;
    GetCons(e, key);
    assert Bump(e, key) == Set(e, key, v);
    SetCons(e, key, v);
    assert Bump(e[1..], key) == Set(e[1..], key, v);
  }

  lemma SumBumpTail(e: Entries<string, int>, key: string)
    requires e != [] && e[0].0 != key
    requires Sum(Values(Bump(e[1..], key))) == Sum(Values(e[1..])) + 1
    ensures Sum(Values(Bump(e, key))) == Sum(Values(e)) + 1
  {
    BumpCons(e, key);
    SumValuesCons(e[0], Bump(e[1..], key));
    SumValuesCons(e[0], e[1..]);
    assert [e[0]] + e[1..] == e;
  }

  /** The grouping keeps each name once. */
  lemma {:induction false} TallyDistinct(keys: seq<string>)
    ensures DistinctKeys(Tally(keys))
  {
    if keys != [] {
      var prefix, key := keys[..|keys| - 1], keys[|keys| - 1];
      assert keys == prefix + [key];
      TallyDistinct(prefix);
      var e := Tally(prefix);
      SetKeepsDistinct(e, key, Get(e, key).GetOr(0) + 1);
    }
  }

  /** The grouping counts each name as often as it occurs (and reads 0 for a name that does not). */
  lemma {:induction false} TallyCounts(keys: seq<string>)
    ensures forall k :: Get(Tally(keys), k).GetOr(0) == multiset(keys)[k]
  {
    if keys != [] {
      var prefix, key := keys[..|keys| - 1], keys[|keys| - 1];
      assert keys == prefix + [key];
      TallyCounts(prefix);
      var e := Tally(prefix);
      forall k ensures Get(Tally(keys), k).GetOr(0) == multiset(keys)[k] {
        GetAfterSet(e, key, Get(e, key).GetOr(0) + 1, k);
      }
    }
  }

  /** A bump adds its key and no other. */
  lemma BumpKeys(e: Entries<string, int>, key: string)
    ensures forall k :: HasKey(Bump(e, key), k) <==> HasKey(e, k) || k == key
  {
    forall k ensures HasKey(Bump(e, key), k) <==> HasKey(e, k) || k == key {
      GetAfterSet(e, key, Get(e, key).GetOr(0) + 1, k);
    }
  }

  /** The grouping has exactly the names that occur, so it is empty exactly when there are none. */
  lemma {:induction false} TallyKeys(keys: seq<string>)
    ensures forall k :: HasKey(Tally(keys), k) <==> k in keys
    ensures Tally(keys) == [] <==> keys == []
  {
    if keys != [] {
      var prefix, key := keys[..|keys| - 1], keys[|keys| - 1];
      assert keys == prefix + [key];
      TallyKeys(prefix);
      BumpKeys(Tally(prefix), key);
      forall k ensures k in keys <==> k in prefix || k == key {
      }
      assert HasKey(Tally(keys), key);
    }
  }

  /** The counts sum to the number of names. */
  lemma {:induction false} TallySum(keys: seq<string>)
    ensures Sum(Values(Tally(keys))) == |keys|
  {
    if keys != [] {
      var prefix, key := keys[..|keys| - 1], keys[|keys| - 1];
      assert keys == prefix + [key];
      TallySum(prefix);
      SumBump(Tally(prefix), key);
    }
  }

  // ---------------------------------------------------------------------------
  // analyzeComments
  // ---------------------------------------------------------------------------

  /** The statistics `analyzeComments` reports for a list of comments. */
  function Statistics(comments: seq<Comment>): CommentStatistics {
    CommentStatistics(|comments|, Count(comments, PREntity.IsUnresolved), Tally(SourceKeys(comments)))
  }

  /** `analyzeComments`: total, unresolved count and the per-source counts. */
  method AnalyzeComments(comments: seq<Comment>) returns (stats: CommentStatistics)
    ensures stats == Statistics(comments)
  {
    var total := |comments|;
    var unresolved := |Filter(comments, PREntity.IsUnresolved)|;
    var bySource := GroupBySource(comments);
    stats := CommentStatistics(total, unresolved, bySource);
  }

  /** The occurrences of a source's name among the keys are the comments from that source. */
  lemma {:induction false} OccurrencesAreSourceFilter(comments: seq<Comment>, s: CommentSource)
    ensures multiset(SourceKeys(comments))[CommentSourceVO.ToString(s)] == |GetCommentsBySource(comments, s)|
  {
    if comments != [] {
      OccurrencesAreSourceFilter(comments[1..], s);
      assert SourceKeys(comments) == [SourceKeys(comments)[0]] + SourceKeys(comments[1..]);
      assert CommentSourceVO.Equals(comments[0].source, s) <==> comments[0].source == s;
    }
  }

  /** The reported statistics agree with the comments: unresolved within total, one distinct key per
      source name that occurs, each source's count equal to the number of its comments, and the
      counts summing to the total. */
  lemma StatisticsFacts(comments: seq<Comment>)
    ensures 0 <= Statistics(comments).unresolved <= Statistics(comments).total == |comments|
    ensures DistinctKeys(Statistics(comments).bySource)
    ensures forall s :: GetCountBySource(Statistics(comments), CommentSourceVO.ToString(s))
                        == |GetCommentsBySource(comments, s)|
    ensures forall k :: HasKey(Statistics(comments).bySource, k) ==> exists s :: k == CommentSourceVO.ToString(s)
    ensures Sum(Values(Statistics(comments).bySource)) == |comments|
    ensures Statistics(comments).bySource == [] <==> comments == []
  {
    var keys := SourceKeys(comments);
    TallyDistinct(keys);
    TallyCounts(keys);
    TallyKeys(keys);
    TallySum(keys);
    forall s ensures GetCountBySource(Statistics(comments), CommentSourceVO.ToString(s))
                     == |GetCommentsBySource(comments, s)| {
      OccurrencesAreSourceFilter(comments, s);
    }
    forall k | HasKey(Statistics(comments).bySource, k) ensures exists s :: k == CommentSourceVO.ToString(s) {
      var i :| 0 <= i < |keys| && keys[i] == k;
      assert k == CommentSourceVO.ToString(comments[i].source);
    }
  }

  // ---------------------------------------------------------------------------
  // Filters
  // ---------------------------------------------------------------------------

  /** `getCommentsBySource`: the comments whose source equals `source`, in order. */
  function GetCommentsBySource(comments: seq<Comment>, source: CommentSource): (r: seq<Comment>)
    ensures IsSubsequence(r, comments)
    ensures forall i :: 0 <= i < |r| ==> r[i] in comments && r[i].source == source
    ensures forall i :: 0 <= i < |comments| && comments[i].source == source ==> comments[i] in r
    ensures forall c :: multiset(r)[c] == if c.source == source then multiset(comments)[c] else 0
  {
    var p := (c: Comment) => CommentSourceVO.Equals(c.source, source);
    FilterIsSubsequence(comments, p);
    FilterMembers(comments, p);
    FilterMultiplicity(comments, p);
    Filter(comments, p)
  }

  /** `getBotComments`: selected by the author's account type, not by the recorded source. */
  function GetBotComments(comments: seq<Comment>): (r: seq<Comment>)
    ensures IsSubsequence(r, comments)
    ensures forall i :: 0 <= i < |r| ==> r[i] in comments && r[i].author.kind == BotAccount
    ensures forall i :: 0 <= i < |comments| && comments[i].author.kind == BotAccount ==> comments[i] in r
    ensures forall c :: multiset(r)[c] == if c.author.kind == BotAccount then multiset(comments)[c] else 0
  {
    FilterIsSubsequence(comments, IsFromBot);
    FilterMembers(comments, IsFromBot);
    FilterMultiplicity(comments, IsFromBot);
    Filter(comments, IsFromBot)
  }

  /** `getReviewerComments`: comments whose author is a user account. */
  function GetReviewerComments(comments: seq<Comment>): (r: seq<Comment>)
    ensures IsSubsequence(r, comments)
    ensures forall i :: 0 <= i < |r| ==> r[i] in comments && r[i].author.kind == UserAccount
    ensures forall i :: 0 <= i < |comments| && comments[i].author.kind == UserAccount ==> comments[i] in r
    ensures forall c :: multiset(r)[c] == if c.author.kind == UserAccount then multiset(comments)[c] else 0
  {
    FilterIsSubsequence(comments, IsFromReviewer);
    FilterMembers(comments, IsFromReviewer);
    FilterMultiplicity(comments, IsFromReviewer);
    Filter(comments, IsFromReviewer)
  }

  /** `getNewCommentsSince`: comments created strictly after `since`. */
  function GetNewCommentsSince(comments: seq<Comment>, since: int): (r: seq<Comment>)
    ensures IsSubsequence(r, comments)
    ensures forall i :: 0 <= i < |r| ==> r[i] in comments && r[i].createdAt > since
    ensures forall i :: 0 <= i < |comments| && comments[i].createdAt > since ==> comments[i] in r
    ensures forall c :: multiset(r)[c] == if c.createdAt > since then multiset(comments)[c] else 0
  {
    var p := (c: Comment) => IsNewerThan(c, since);
    FilterIsSubsequence(comments, p);
    FilterMembers(comments, p);
    FilterMultiplicity(comments, p);
    Filter(comments, p)
  }

  /** Bot and reviewer comments split the list: every comment is in exactly one of the two. */
  lemma {:induction false} BotReviewerPartition(comments: seq<Comment>)
    ensures |GetBotComments(comments)| + |GetReviewerComments(comments)| == |comments|
  {
    if comments != [] {
      BotReviewerPartition(comments[1..]);
      CommentEntity.BotXorReviewer(comments[0]);
    }
  }

  /** A bot account's comment recorded with the reviewer source is still a bot comment. */
  lemma BotAccountWithReviewerSource(c: Comment)
    requires c.author.kind == BotAccount && c.source == Reviewer
    ensures GetBotComments([c]) == [c] && GetReviewerComments([c]) == []
    ensures GetCommentsBySource([c], Reviewer) == [c]
  {
  }

  /** There are new comments since `since` exactly when the collection of the same comments says so. */
  lemma NewSinceAgreesWithCollection(comments: seq<Comment>, since: int)
    ensures GetNewCommentsSince(comments, since) != []
            <==> PREntity.HasNewCommentsSince(PREntity.CollectionCreate(comments), since)
  {
    PREntity.HasNewCommentsIffSomeNewer(comments, since);
    var r := GetNewCommentsSince(comments, since);
    if r != [] {
      var c := r[0];
      var i :| 0 <= i < |comments| && comments[i] == c;
      assert IsNewerThan(comments[i], since);
    }
  }
}

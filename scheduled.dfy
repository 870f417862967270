/** The scheduled worker that refreshes each registered user's cached PR list (worker/scheduled.ts). */
module ScheduledWorker {
  import opened Wrappers
  import opened Seqs

  /** One item of a search response: its id (already in string form) and `pull_request.url`, if any. */
  datatype SearchItem = SearchItem(id: string, prUrl: Option<string>)

  /** A pull request payload as the detail endpoint returns it; it is stored as received. */
  datatype RawPR = RawPR(id: string, number: int, title: string, htmlUrl: string, state: string)

  /** GitHub as the worker sees it. `search` answers a search URL with the response's items, `None`
      standing for a non-ok response or one that fails to parse; `fetchPR` answers a PR URL, `None`
      standing for a non-ok response or a failed request. */
  datatype GitHub = GitHub(search: string -> Option<seq<SearchItem>>, fetchPR: string -> Option<RawPR>)

  /** The five searches, in the order they run. */
  function Queries(userId: string): seq<string> {
    ["author:" + userId, "review-requested:" + userId, "commenter:" + userId,
     "reviewed-by:" + userId, "assignee:" + userId]
  }

  function SearchUrl(query: string): string {
    "https://api.github.com/search/issues?q=type:pr+" + query + "+state:open&per_page=100"
  }

  /** The items one search contributes: none when the search fails. */
  function ItemsOf(gh: GitHub, query: string): seq<SearchItem> {
    match gh.search(SearchUrl(query))
    case None => []
    case Some(items) => items
  }

  /** The items of the searches `qs`, in the order they are visited. */
  function Gathered(gh: GitHub, qs: seq<string>): seq<SearchItem> {
    if qs == [] then [] else Gathered(gh, qs[..|qs| - 1]) + ItemsOf(gh, qs[|qs| - 1])
  }

  /** The ids of a list of items. */
  function Ids(items: seq<SearchItem>): set<string> {
    set i | 0 <= i < |items| :: items[i].id
  }

  /** What one first-seen item adds: its PR when it has a (non-empty) URL and the fetch succeeds. */
  function HydrateOne(gh: GitHub, item: SearchItem): seq<RawPR> {
    if item.prUrl.Some? && item.prUrl.value != [] then
      match gh.fetchPR(item.prUrl.value)
      case None => []
      case Some(pr) => [pr]
    else []
  }

  /** The PRs collected from a run of items: an item whose id was seen earlier in the run adds nothing,
      whatever became of the earlier item. */
  function Collect(gh: GitHub, items: seq<SearchItem>): seq<RawPR> {
    if items == [] then []
    else
      var init := items[..|items| - 1];
      var item := items[|items| - 1];
      Collect(gh, init) + (if item.id in Ids(init) then [] else HydrateOne(gh, item))
  }

  /** The first item with each id, in order of first appearance. */
  function FirstOccurrences(items: seq<SearchItem>): seq<SearchItem> {
    if items == [] then []
    else
      var init := items[..|items| - 1];
      var item := items[|items| - 1];
      FirstOccurrences(init) + (if item.id in Ids(init) then [] else [item])
  }

  /** The PRs of a list of items, each hydrated in turn. */
  function HydrateAll(gh: GitHub, items: seq<SearchItem>): seq<RawPR> {
    if items == [] then [] else HydrateAll(gh, items[..|items| - 1]) + HydrateOne(gh, items[|items| - 1])
  }

  /** The PRs the worker caches for `userId`. */
  function Fetch(gh: GitHub, userId: string): seq<RawPR> {
    Collect(gh, Gathered(gh, Queries(userId)))
  }

  lemma IdsSnoc(items: seq<SearchItem>, x: SearchItem)
    ensures Ids(items + [x]) == Ids(items) + {x.id}
  {
    SnocParts(items, x);
    var s := items + [x];
    forall id | id in Ids(s) ensures id in Ids(items) + {x.id} {
      var i :| 0 <= i < |s| && s[i].id == id;
      if i < |items| { assert s[i] == items[i]; }
    }
    forall id | id in Ids(items) ensures id in Ids(s) {
      var i :| 0 <= i < |items| && items[i].id == id;
      assert s[i] == items[i];
    }
    assert s[|items|] == x;
  }

  /** One more item: it adds nothing when its id is already seen (even if that earlier item was never
      hydrated), and its PR, if any, otherwise. */
  lemma CollectSnoc(gh: GitHub, items: seq<SearchItem>, x: SearchItem)
    ensures Collect(gh, items + [x]) == Collect(gh, items) + (if x.id in Ids(items) then [] else HydrateOne(gh, x))
  {
    SnocParts(items, x);
  }

  lemma GatheredSnoc(gh: GitHub, qs: seq<string>, q: nat)
    requires q < |qs|
    ensures Gathered(gh, qs[..q + 1]) == Gathered(gh, qs[..q]) + ItemsOf(gh, qs[q])
  {
    PrefixSnoc(qs, q);
    assert qs[..q + 1][..q] == qs[..q];
  }

  /** The inner `for (const item of data.items)`: an unseen id is recorded, then its PR is fetched
      when the item has a URL, and kept when the fetch succeeds. */
  method VisitItems(gh: GitHub, ghost before: seq<SearchItem>, items: seq<SearchItem>,
                    prs: seq<RawPR>, seen: set<string>)
    returns (allPRs: seq<RawPR>, seenIds: set<string>)
    requires prs == Collect(gh, before) && seen == Ids(before)
    ensures allPRs == Collect(gh, before + items) && seenIds == Ids(before + items)
  {
    allPRs, seenIds := prs, seen;
    assert before + items[..0] == before;
    for j := 0 to |items|
      invariant allPRs == Collect(gh, before + items[..j])
      invariant seenIds == Ids(before + items[..j])
    {
      var item := items[j];
      CollectSnoc(gh, before + items[..j], item);
      IdsSnoc(before + items[..j], item);
      ConcatPrefixSnoc(before, items, j);
      if item.id !in seenIds {
        seenIds := seenIds + {item.id};
        if item.prUrl.Some? && item.prUrl.value != [] {
          var pr := gh.fetchPR(item.prUrl.value);
          if pr.Some? {
            allPRs := allPRs + [pr.value];
          }
        }
      } else {
        assert seenIds + {item.id} == seenIds;
      }
    }
    assert items[..|items|] == items;
  }

  /** `fetchGitHubPRs`: the five searches in order; each item is processed once per id (the id is
      recorded before its PR is fetched), and the fetched PRs are kept in the order they arrive. */
  method FetchGitHubPRs(gh: GitHub, userId: string) returns (allPRs: seq<RawPR>)
    ensures allPRs == Fetch(gh, userId)
  {
    allPRs := [];
    var seenIds: set<string> := {};
    var queries := Queries(userId);
    for q := 0 to |queries|
      invariant allPRs == Collect(gh, Gathered(gh, queries[..q]))
      invariant seenIds == Ids(Gathered(gh, queries[..q]))
    {
      GatheredSnoc(gh, queries, q);
      var response := gh.search(SearchUrl(queries[q]));
      if response.Some? {
        allPRs, seenIds := VisitItems(gh, Gathered(gh, queries[..q]), response.value, allPRs, seenIds);
      } else {
        assert Gathered(gh, queries[..q]) + ItemsOf(gh, queries[q]) == Gathered(gh, queries[..q]);
      }
    }
    assert queries[..|queries|] == queries;
  }

  /** Collecting is hydrating the first occurrence of each id, in order. */
  lemma {:induction false} CollectIsFirstOccurrences(gh: GitHub, items: seq<SearchItem>)
    ensures Collect(gh, items) == HydrateAll(gh, FirstOccurrences(items))
  {
    if items != [] {
      var init := items[..|items| - 1];
      var item := items[|items| - 1];
      CollectIsFirstOccurrences(gh, init);
      var fo := FirstOccurrences(init);
      if item.id !in Ids(init) {
        SnocParts(fo, item);
        assert HydrateAll(gh, fo + [item]) == HydrateAll(gh, fo) + HydrateOne(gh, item);
      } else {
        assert FirstOccurrences(items) == fo + [] == fo;
        assert Collect(gh, items) == Collect(gh, init) + [];
      }
    }
  }

  lemma FirstOccurrencesSnoc(items: seq<SearchItem>)
    requires items != []
    ensures var n := |items| - 1;
      FirstOccurrences(items) == FirstOccurrences(items[..n]) + (if items[n].id in Ids(items[..n]) then [] else [items[n]])
  {
  }

  /** The first occurrences keep the order of the items. */
  lemma {:induction false} FirstOccurrencesOrdered(items: seq<SearchItem>)
    ensures IsSubsequence(FirstOccurrences(items), items)
  {
    if items != [] {
      var n := |items| - 1;
      FirstOccurrencesOrdered(items[..n]);
      PrefixSnoc(items, n);
      assert items[..n + 1] == items;
      FirstOccurrencesSnoc(items);
      SubsequenceSnoc(FirstOccurrences(items[..n]), items[..n], items[n]);
      if items[n].id in Ids(items[..n]) {
        assert FirstOccurrences(items) == FirstOccurrences(items[..n]);
      }
    }
  }

  /** The first occurrences repeat no id and cover every id. */
  lemma {:induction false} FirstOccurrencesIds(items: seq<SearchItem>)
    ensures forall k, l :: 0 <= k < l < |FirstOccurrences(items)| ==>
              FirstOccurrences(items)[k].id != FirstOccurrences(items)[l].id
    ensures Ids(FirstOccurrences(items)) == Ids(items)
  {
    if items != [] {
      var n := |items| - 1;
      var init := items[..n];
      var item := items[n];
      var fo := FirstOccurrences(init);
      FirstOccurrencesIds(init);
      FirstOccurrencesSnoc(items);
      PrefixSnoc(items, n);
      assert init + [item] == items;
      IdsSnoc(init, item);
      if item.id !in Ids(init) {
        IdsSnoc(fo, item);
        SnocParts(fo, item);
        forall k | 0 <= k < |fo| ensures fo[k].id != item.id {
          assert fo[k].id in Ids(fo);
        }
      } else {
        assert FirstOccurrences(items) == fo;
      }
    }
  }

  /** Every item that shares its id with no earlier item is a first occurrence. */
  lemma {:induction false} FirstOccurrencesComplete(items: seq<SearchItem>)
    ensures forall i :: 0 <= i < |items| && items[i].id !in Ids(items[..i]) ==> items[i] in FirstOccurrences(items)
  {
    if items != [] {
      var n := |items| - 1;
      var init := items[..n];
      FirstOccurrencesComplete(init);
      FirstOccurrencesSnoc(items);
      forall i | 0 <= i < |items| && items[i].id !in Ids(items[..i])
        ensures items[i] in FirstOccurrences(items)
      {
        if i < n {
          assert items[..i] == init[..i];
          assert init[i] == items[i];
        }
      }
    }
  }

  /** An id is recorded before its PR is fetched, so when the first item with some id has no URL or its
      fetch fails, a later item with the same id is not tried. */
  lemma FailedHydrationNotRetried(gh: GitHub, a: SearchItem, b: SearchItem)
    requires a.id == b.id && HydrateOne(gh, a) == []
    ensures Collect(gh, [a, b]) == []
  {
    CollectSnoc(gh, [a], b);
    CollectSnoc(gh, [], a);
    assert [] + [a] == [a] && [a] + [b] == [a, b];
    IdsSnoc([], a);
  }

  // ---------------------------------------------------------------------------
  // The per-user loop over the cache
  // ---------------------------------------------------------------------------

  /** What the cache holds, as the worker reads it: `UserList` is a JSON array of user ids, `Snapshot`
      the object written for a user, and `Text` anything else. */
  datatype CacheValue = Text(text: string) | UserList(users: seq<string>) | Snapshot(prs: seq<RawPR>, syncedAt: int)

  const SyncUsersKey: string := "sync_users"

  function PrsKey(userId: string): string {
    "prs:" + userId
  }

  /** `usersJson ? JSON.parse(usersJson) : []` followed by the `for ... of`: a missing or empty entry
      means no users, a list gives its ids, and any other value stops the run before any write.
      That is what the source does for malformed JSON and for values that are not iterable; a JSON
      string, which the source would iterate character by character, is not told apart here. */
  function UsersToSync(stored: Option<CacheValue>): Option<seq<string>> {
    match stored
    case None => Some([])
    case Some(Text(t)) => if t == [] then Some([]) else None
    case Some(UserList(users)) => Some(users)
    case Some(Snapshot(_, _)) => None
  }

  /** The cache after the first `|users|` users have been processed: the i-th write is skipped when
      `putFails(i)`, and its snapshot is stamped `clock(i)`. */
  function Written(kv: map<string, CacheValue>, gh: GitHub, users: seq<string>,
                   putFails: nat -> bool, clock: nat -> int): map<string, CacheValue>
  {
    if users == [] then kv
    else
      var n := |users| - 1;
      var before := Written(kv, gh, users[..n], putFails, clock);
      if putFails(n) then before else before[PrsKey(users[n]) := Snapshot(Fetch(gh, users[n]), clock(n))]
  }

  /** `scheduled`: nothing happens without a token or when the user list cannot be read; otherwise each
      user's PRs are fetched and written under `prs:<user>`, a failed write being skipped. */
  method Scheduled(token: string, kv: map<string, CacheValue>, gh: GitHub, putFails: nat -> bool, clock: nat -> int)
    returns (result: map<string, CacheValue>)
    ensures token == [] ==> result == kv
    ensures token != [] && UsersToSync(if SyncUsersKey in kv then Some(kv[SyncUsersKey]) else None).None? ==> result == kv
    ensures token != [] && UsersToSync(if SyncUsersKey in kv then Some(kv[SyncUsersKey]) else None).Some? ==>
              result == Written(kv, gh, UsersToSync(if SyncUsersKey in kv then Some(kv[SyncUsersKey]) else None).value,
                                putFails, clock)
  {
    result := kv;
    if token == [] {
      return;
    }
    var usersJson := if SyncUsersKey in kv then Some(kv[SyncUsersKey]) else None;
    var parsed := UsersToSync(usersJson);
    if parsed.None? {
      return;
    }
    var users := parsed.value;
    for i := 0 to |users|
      invariant result == Written(kv, gh, users[..i], putFails, clock)
    {
      var prs := FetchGitHubPRs(gh, users[i]);
      WrittenSnoc(kv, gh, users, i, putFails, clock);
      if !putFails(i) {
        result := result[PrsKey(users[i]) := Snapshot(prs, clock(i))];
      }
    }
    assert users[..|users|] == users;
  }

  /** One more user: their snapshot is written unless the write fails. */
  lemma WrittenSnoc(kv: map<string, CacheValue>, gh: GitHub, users: seq<string>, i: nat,
                    putFails: nat -> bool, clock: nat -> int)
    requires i < |users|
    ensures Written(kv, gh, users[..i + 1], putFails, clock)
            == if putFails(i) then Written(kv, gh, users[..i], putFails, clock)
               else Written(kv, gh, users[..i], putFails, clock)[PrsKey(users[i]) := Snapshot(Fetch(gh, users[i]), clock(i))]
  {
    assert users[..i + 1][..i] == users[..i];
  }

  lemma PrsKeyInjective(a: string, b: string)
    requires PrsKey(a) == PrsKey(b)
    ensures a == b
  {
    assert a == PrsKey(a)[4..] && b == PrsKey(b)[4..];
  }

  /** Every user whose write succeeded has a snapshot of their PRs under `prs:<user>`: an earlier
      user's failure does not stop later writes, and a later write for the same user stores the same PRs. */
  lemma {:induction false} WrittenSnapshots(kv: map<string, CacheValue>, gh: GitHub, users: seq<string>,
                                            putFails: nat -> bool, clock: nat -> int)
    ensures forall i :: 0 <= i < |users| && !putFails(i) ==>
              PrsKey(users[i]) in Written(kv, gh, users, putFails, clock)
              && Written(kv, gh, users, putFails, clock)[PrsKey(users[i])].Snapshot?
              && Written(kv, gh, users, putFails, clock)[PrsKey(users[i])].prs == Fetch(gh, users[i])
  {
    if users != [] {
      var n := |users| - 1;
      var init := users[..n];
      WrittenSnapshots(kv, gh, init, putFails, clock);
      var before := Written(kv, gh, init, putFails, clock);
      var after := Written(kv, gh, users, putFails, clock);
      forall i | 0 <= i < |users| && !putFails(i)
        ensures PrsKey(users[i]) in after && after[PrsKey(users[i])].Snapshot?
                && after[PrsKey(users[i])].prs == Fetch(gh, users[i])
      {
        if i < n {
          assert init[i] == users[i];
          if !putFails(n) && PrsKey(users[i]) == PrsKey(users[n]) {
            PrsKeyInjective(users[i], users[n]);
          }
        }
      }
    }
  }

  /** A key that is no user's `prs:` key is left exactly as it was. */
  lemma {:induction false} WrittenOthersUnchanged(kv: map<string, CacheValue>, gh: GitHub, users: seq<string>,
                                                  putFails: nat -> bool, clock: nat -> int, k: string)
    requires forall i :: 0 <= i < |users| ==> k != PrsKey(users[i])
    ensures k in Written(kv, gh, users, putFails, clock) <==> k in kv
    ensures k in kv ==> Written(kv, gh, users, putFails, clock)[k] == kv[k]
  {
    if users != [] {
      var n := |users| - 1;
      var init := users[..n];
      assert forall i :: 0 <= i < n ==> init[i] == users[i];
      WrittenOthersUnchanged(kv, gh, init, putFails, clock, k);
    }
  }

  /** The user list itself is never overwritten by a run. */
  lemma WrittenKeepsUserList(kv: map<string, CacheValue>, gh: GitHub, users: seq<string>,
                             putFails: nat -> bool, clock: nat -> int)
    requires SyncUsersKey in kv
    ensures SyncUsersKey in Written(kv, gh, users, putFails, clock)
    ensures Written(kv, gh, users, putFails, clock)[SyncUsersKey] == kv[SyncUsersKey]
  {
    forall i | 0 <= i < |users| ensures SyncUsersKey != PrsKey(users[i]) {
      assert PrsKey(users[i])[..4] == "prs:";
      assert SyncUsersKey[..4] == "sync";
    }
    WrittenOthersUnchanged(kv, gh, users, putFails, clock, SyncUsersKey);
  }
}

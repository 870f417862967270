/** The in-memory stand-in for the browser's object stores: a map of named stores, each an
    insertion-ordered map from keys to values
    (infrastructure/external/storage/MemoryStorageClient.ts). */
module MemoryStorage {
  import opened Wrappers
  import opened Seqs
  import opened OrderedMaps

  /** A stored value as the client sees it: a falsy one (`null`, `0`, `''`, `false`), a truthy
      primitive, or an object whose string-valued properties can be matched against an index. */
  datatype Item = Falsy | Primitive(text: string) | Object(fields: map<string, string>)

  /** Every store, by name, in the order the stores were created. */
  type Storage = Entries<string, Entries<string, Item>>

  /** Both levels are maps: no store name and no key within a store occurs twice. */
  ghost predicate WellFormed(storage: Storage) {
    DistinctKeys(storage) && forall i :: 0 <= i < |storage| ==> DistinctKeys(storage[i].1)
  }

  /** `get`: `null` for a missing store or key, and for a falsy value (`store.get(key) || null`). */
  function Lookup(storage: Storage, storeName: string, key: string): (r: Option<Item>)
    ensures r.Some? <==>
      Get(storage, storeName).Some? && Get(Get(storage, storeName).value, key).Some?
      && !Get(Get(storage, storeName).value, key).value.Falsy?
    ensures r.Some? ==> Get(Get(storage, storeName).value, key) == Some(r.value)
  {
    match Get(storage, storeName)
    case None => None
    case Some(store) =>
      match Get(store, key)
      case None => None
      case Some(item) => if item.Falsy? then None else Some(item)
  }

  /** The state after `set`: the store is created (empty, last) when it is missing, then the key
      is written in it. */
  function Stored(storage: Storage, storeName: string, key: string, value: Item): Storage {
    var store := match Get(storage, storeName) case None => [] case Some(s) => s;
    Set(storage, storeName, Set(store, key, value))
  }

  /** The state after `delete`: the key leaves its store; a missing store stays missing. */
  function Removed(storage: Storage, storeName: string, key: string): Storage {
    match Get(storage, storeName)
    case None => storage
    case Some(store) => Set(storage, storeName, Delete(store, key))
  }

  /** The state after `clear`: the whole store is dropped. */
  function Cleared(storage: Storage, storeName: string): Storage {
    Delete(storage, storeName)
  }

  /** `indexName && indexValue`: filtering happens only when both are given and non-empty. */
  predicate Indexed(indexName: Option<string>, indexValue: Option<string>) {
    indexName.Some? && indexName.value != [] && indexValue.Some? && indexValue.value != []
  }

  /** The filter's test: only an object whose property `indexName` is `indexValue` matches. */
  predicate MatchesIndex(item: Item, indexName: string, indexValue: string) {
    item.Object? && indexName in item.fields && item.fields[indexName] == indexValue
  }

  /** `getAll`: the values of the store in insertion order, filtered by the index when it is given;
      `[]` for a missing store. */
  function AllOf(storage: Storage, storeName: string, indexName: Option<string>, indexValue: Option<string>)
    : (r: seq<Item>)
    ensures Get(storage, storeName).None? ==> r == []
    ensures Get(storage, storeName).Some? && !Indexed(indexName, indexValue) ==>
              r == Values(Get(storage, storeName).value)
    ensures Get(storage, storeName).Some? ==> IsSubsequence(r, Values(Get(storage, storeName).value))
    ensures Get(storage, storeName).Some? && Indexed(indexName, indexValue) ==>
              forall item :: multiset(r)[item] ==
                if MatchesIndex(item, indexName.value, indexValue.value)
                then multiset(Values(Get(storage, storeName).value))[item] else 0
  {
    match Get(storage, storeName)
    case None => []
    case Some(store) =>
      var values := Values(store);
      if Indexed(indexName, indexValue) then
        FilterIsSubsequence(values, (item: Item) => MatchesIndex(item, indexName.value, indexValue.value));
        FilterMultiplicity(values, (item: Item) => MatchesIndex(item, indexName.value, indexValue.value));
        Filter(values, (item: Item) => MatchesIndex(item, indexName.value, indexValue.value))
      else
        SubsequenceRefl(values);
        values
  }

  /** `MemoryStorageClient`. */
  class MemoryStorageClient {
    var storage: Storage

    ghost predicate Valid()
      reads this
    {
      WellFormed(storage)
    }

    constructor()
      ensures Valid() && storage == []
    {
      storage := [];
    }

    method Get(storeName: string, key: string) returns (r: Option<Item>)
      ensures r == Lookup(storage, storeName, key)
    {
      var store := OrderedMaps.Get(storage, storeName);
      if store.None? {
        return None;
      }
      var item := OrderedMaps.Get(store.value, key);
      if item.None? || item.value.Falsy? {
        return None;
      }
      return item;
    }

    method Set(storeName: string, key: string, value: Item)
      requires Valid()
      modifies this
      ensures Valid()
      ensures storage == Stored(old(storage), storeName, key, value)
    {
      StoredWellFormed(storage, storeName, key, value);
      ghost var before := storage;
      if !HasKey(storage, storeName) {
        storage := OrderedMaps.Set(storage, storeName, []);
        GetAfterSet(before, storeName, [], storeName);
        SetTwice(before, storeName, [], OrderedMaps.Set([], key, value));
      }
      var store := OrderedMaps.Get(storage, storeName).value;
      storage := OrderedMaps.Set(storage, storeName, OrderedMaps.Set(store, key, value));
    }

    method Delete(storeName: string, key: string)
      requires Valid()
      modifies this
      ensures Valid()
      ensures storage == Removed(old(storage), storeName, key)
    {
      RemovedWellFormed(storage, storeName, key);
      var store := OrderedMaps.Get(storage, storeName);
      if store.Some? {
        storage := OrderedMaps.Set(storage, storeName, OrderedMaps.Delete(store.value, key));
      }
    }

    method GetAll(storeName: string, indexName: Option<string>, indexValue: Option<string>) returns (r: seq<Item>)
      ensures r == AllOf(storage, storeName, indexName, indexValue)
    {
      var store := OrderedMaps.Get(storage, storeName);
      if store.None? {
        return [];
      }
      var values := Values(store.value);
      if Indexed(indexName, indexValue) {
        return Filter(values, (item: Item) => MatchesIndex(item, indexName.value, indexValue.value));
      }
      return values;
    }

    method Clear(storeName: string)
      requires Valid()
      modifies this
      ensures Valid()
      ensures storage == Cleared(old(storage), storeName)
    {
      ClearWellFormed(storage, storeName);
      storage := OrderedMaps.Delete(storage, storeName);
    }
  }

  // ---------------------------------------------------------------------------
  // What the operations guarantee
  // ---------------------------------------------------------------------------

  /** Writing a key twice in a row keeps the last value. */
  lemma {:induction false} SetTwice<K, V>(e: Entries<K, V>, k: K, v: V, w: V)
    ensures OrderedMaps.Set(OrderedMaps.Set(e, k, v), k, w) == OrderedMaps.Set(e, k, w)
  {
    if e != [] && e[0].0 != k {
      SetTwice(e[1..], k, v, w);
      SetCons(e, k, v);
      SetCons(e, k, w);
      var once := OrderedMaps.Set(e, k, v);
      assert once[0] == e[0] && once[1..] == OrderedMaps.Set(e[1..], k, v);
      SetCons(once, k, w);
    }
  }

  /** After `set`, the key reads back as the value (as `null` when the value is falsy), and every other
      store and key reads as before. */
  lemma LookupAfterStored(storage: Storage, storeName: string, key: string, value: Item, storeName': string, key': string)
    ensures Lookup(Stored(storage, storeName, key, value), storeName, key) == (if value.Falsy? then None else Some(value))
    ensures (storeName', key') != (storeName, key) ==>
              Lookup(Stored(storage, storeName, key, value), storeName', key') == Lookup(storage, storeName', key')
  {
    var store := match OrderedMaps.Get(storage, storeName) case None => [] case Some(s) => s;
    GetAfterSet(storage, storeName, OrderedMaps.Set(store, key, value), storeName');
    GetAfterSet(store, key, value, key');
  }

  /** After `delete`, the key reads as `null` and every other store and key reads as before. */
  lemma LookupAfterRemoved(storage: Storage, storeName: string, key: string, storeName': string, key': string)
    ensures Lookup(Removed(storage, storeName, key), storeName, key) == None
    ensures (storeName', key') != (storeName, key) ==>
              Lookup(Removed(storage, storeName, key), storeName', key') == Lookup(storage, storeName', key')
  {
    if OrderedMaps.Get(storage, storeName).Some? {
      var store := OrderedMaps.Get(storage, storeName).value;
      GetAfterSet(storage, storeName, OrderedMaps.Delete(store, key), storeName');
      GetAfterDelete(store, key, key');
    }
  }

  /** After `clear`, the store is empty to every reader; the other stores are untouched. */
  lemma LookupAfterCleared(storage: Storage, storeName: string, key: string, indexName: Option<string>,
                           indexValue: Option<string>, storeName': string)
    ensures Lookup(Cleared(storage, storeName), storeName, key) == None
    ensures AllOf(Cleared(storage, storeName), storeName, indexName, indexValue) == []
    ensures storeName' != storeName ==>
              Lookup(Cleared(storage, storeName), storeName', key) == Lookup(storage, storeName', key)
  {
    GetAfterDelete(storage, storeName, storeName');
  }

  /** With an index, `getAll` returns exactly the store's values that match it, in store order. */
  lemma AllOfIndexed(storage: Storage, storeName: string, indexName: string, indexValue: string)
    requires indexName != [] && indexValue != []
    requires OrderedMaps.Get(storage, storeName).Some?
    ensures forall i :: 0 <= i < |AllOf(storage, storeName, Some(indexName), Some(indexValue))| ==>
              AllOf(storage, storeName, Some(indexName), Some(indexValue))[i] in Values(OrderedMaps.Get(storage, storeName).value)
              && MatchesIndex(AllOf(storage, storeName, Some(indexName), Some(indexValue))[i], indexName, indexValue)
    ensures forall item :: item in Values(OrderedMaps.Get(storage, storeName).value) && MatchesIndex(item, indexName, indexValue) ==>
              item in AllOf(storage, storeName, Some(indexName), Some(indexValue))
    ensures forall item :: multiset(AllOf(storage, storeName, Some(indexName), Some(indexValue)))[item] ==
              if MatchesIndex(item, indexName, indexValue)
              then multiset(Values(OrderedMaps.Get(storage, storeName).value))[item] else 0
  {
    var values := Values(OrderedMaps.Get(storage, storeName).value);
    FilterMembers(values, (item: Item) => MatchesIndex(item, indexName, indexValue));
    FilterMultiplicity(values, (item: Item) => MatchesIndex(item, indexName, indexValue));
  }

  lemma StoredWellFormed(storage: Storage, storeName: string, key: string, value: Item)
    requires WellFormed(storage)
    ensures WellFormed(Stored(storage, storeName, key, value))
  {
    var store := match OrderedMaps.Get(storage, storeName) case None => [] case Some(s) => s;
    assert DistinctKeys(store);
    SetKeepsDistinct(store, key, value);
    SetKeepsDistinct(storage, storeName, OrderedMaps.Set(store, key, value));
    SetEntries(storage, storeName, OrderedMaps.Set(store, key, value));
  }

  lemma RemovedWellFormed(storage: Storage, storeName: string, key: string)
    requires WellFormed(storage)
    ensures WellFormed(Removed(storage, storeName, key))
  {
    if OrderedMaps.Get(storage, storeName).Some? {
      var store := OrderedMaps.Get(storage, storeName).value;
      DeleteKeepsDistinct(store, key);
      SetKeepsDistinct(storage, storeName, OrderedMaps.Delete(store, key));
      SetEntries(storage, storeName, OrderedMaps.Delete(store, key));
    }
  }

  lemma ClearWellFormed(storage: Storage, storeName: string)
    requires WellFormed(storage)
    ensures WellFormed(Cleared(storage, storeName))
  {
    DeleteKeepsDistinct(storage, storeName);
  }
}

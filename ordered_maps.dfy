/** Insertion-ordered maps, as JavaScript's `Map` and string-keyed object records behave: `set` on a
    present key replaces the value where it stands, on a new key appends; iteration follows that order. */
module OrderedMaps {
  import opened Wrappers

  type Entries<K, V> = seq<(K, V)>

  /** The keys, in iteration order. */
  function Keys<K, V>(e: Entries<K, V>): (ks: seq<K>)
    ensures |ks| == |e|
    ensures forall i :: 0 <= i < |e| ==> ks[i] == e[i].0
  {
    seq(|e|, i requires 0 <= i < |e| => e[i].0)
  }

  /** No key occurs twice: what every `Map` guarantees. */
  predicate DistinctKeys<K(==), V>(e: Entries<K, V>) {
    forall i, j :: 0 <= i < j < |e| ==> e[i].0 != e[j].0
  }

  predicate HasKey<K(==), V>(e: Entries<K, V>, k: K) {
    exists i :: 0 <= i < |e| && e[i].0 == k
  }

  /** `map.get(k)`. */
  function Get<K(==), V>(e: Entries<K, V>, k: K): (r: Option<V>)
    ensures r.Some? <==> HasKey(e, k)
    ensures r.Some? ==> exists i :: 0 <= i < |e| && e[i] == (k, r.value)
    ensures DistinctKeys(e) ==> forall i :: 0 <= i < |e| && e[i].0 == k ==> r == Some(e[i].1)
  {
    if e == [] then None
    else if e[0].0 == k then Some(e[0].1)
    else
      var r := Get(e[1..], k);
      assert forall i :: 1 <= i < |e| ==> e[i] == e[1..][i - 1];
      assert HasKey(e[1..], k) ==> HasKey(e, k);
      r
  }

  /** `map.set(k, v)`. */
  function Set<K(==), V>(e: Entries<K, V>, k: K, v: V): Entries<K, V>
    decreases |e|
  {
    if e == [] then [(k, v)]
    else if e[0].0 == k then [(k, v)] + e[1..]
    else [e[0]] + Set(e[1..], k, v)
  }

  /** `set` on a present key keeps the length and the key order, on a new key appends the entry, and
      leaves every entry for another key where it was. */
  lemma {:induction false} SetFacts<K, V>(e: Entries<K, V>, k: K, v: V)
    ensures HasKey(e, k) ==> |Set(e, k, v)| == |e| && Keys(Set(e, k, v)) == Keys(e)
    ensures !HasKey(e, k) ==> Set(e, k, v) == e + [(k, v)]
    ensures forall i :: 0 <= i < |e| && e[i].0 != k ==> Set(e, k, v)[i] == e[i]
    decreases |e|
  {
    if e == [] {
    } else if e[0].0 == k {
      assert Keys(Set(e, k, v)) == Keys(e);
    } else {
      assert forall i :: 1 <= i < |e| ==> e[i] == e[1..][i - 1];
      assert HasKey(e, k) ==> HasKey(e[1..], k);
      SetFacts(e[1..], k, v);
      var rest := Set(e[1..], k, v);
      assert Set(e, k, v)[1..] == rest;
      if !HasKey(e, k) {
        assert Set(e, k, v) == e + [(k, v)];
      } else {
        assert Keys(Set(e, k, v)) == Keys(e);
      }
    }
  }

  /** `map.delete(k)`. */
  function Delete<K(==), V>(e: Entries<K, V>, k: K): (r: Entries<K, V>)
    ensures !HasKey(r, k)
    ensures forall i :: 0 <= i < |r| ==> r[i] in e
    ensures forall i :: 0 <= i < |e| && e[i].0 != k ==> e[i] in r
    ensures !HasKey(e, k) ==> r == e
  {
    if e == [] then []
    else if e[0].0 == k then Delete(e[1..], k)
    else
      assert forall i :: 1 <= i < |e| ==> e[i] == e[1..][i - 1];
      [e[0]] + Delete(e[1..], k)
  }

  /** `Array.from(map.values())`. */
  function Values<K, V>(e: Entries<K, V>): (vs: seq<V>)
    ensures |vs| == |e|
    ensures forall i :: 0 <= i < |e| ==> vs[i] == e[i].1
  {
    seq(|e|, i requires 0 <= i < |e| => e[i].1)
  }

  /** `set` keeps the keys distinct. */
  lemma SetKeepsDistinct<K, V>(e: Entries<K, V>, k: K, v: V)
    requires DistinctKeys(e)
    ensures DistinctKeys(Set(e, k, v))
  {
    var r := Set(e, k, v);
    SetFacts(e, k, v);
    if HasKey(e, k) {
      assert forall i :: 0 <= i < |r| ==> r[i].0 == Keys(r)[i] == Keys(e)[i] == e[i].0;
    }
  }

  /** Reading a key back after `set`, and reading any other key, which `set` did not change. */
  lemma {:induction false} GetAfterSet<K, V>(e: Entries<K, V>, k: K, v: V, k': K)
    ensures Get(Set(e, k, v), k) == Some(v)
    ensures k' != k ==> Get(Set(e, k, v), k') == Get(e, k')
  {
    if e != [] {
      if e[0].0 == k {
        var r := [(k, v)] + e[1..];
        assert Set(e, k, v) == r;
        if k' != k {
          GetCons(r, k');
          assert r[1..] == e[1..];
        }
      } else {
        GetAfterSet(e[1..], k, v, k');
        SetCons(e, k, v);
        var r := [e[0]] + Set(e[1..], k, v);
        assert r[1..] == Set(e[1..], k, v);
        GetCons(r, k);
        if k' != k && e[0].0 != k' {
          GetCons(r, k');
          GetCons(e, k');
        }
      }
    }
  }

  /** `delete` keeps the keys distinct. */
  lemma {:induction false} DeleteKeepsDistinct<K, V>(e: Entries<K, V>, k: K)
    requires DistinctKeys(e)
    ensures DistinctKeys(Delete(e, k))
  {
    if e != [] {
      assert [e[0]] + e[1..] == e;
      DistinctCons(e[0], e[1..]);
      DeleteKeepsDistinct(e[1..], k);
      if e[0].0 != k {
        var rest := Delete(e[1..], k);
        forall j | 0 <= j < |rest| ensures rest[j].0 != e[0].0 {
          var m :| 0 <= m < |e[1..]| && e[1..][m] == rest[j];
        }
        DistinctCons(e[0], rest);
      }
    }
  }

  /** Putting an entry in front keeps the keys distinct exactly when its key is new. */
  lemma DistinctCons<K, V>(x: (K, V), rest: Entries<K, V>)
    ensures DistinctKeys([x] + rest) <==> DistinctKeys(rest) && !HasKey(rest, x.0)
  {
    var e := [x] + rest;
    assert forall i :: 0 <= i < |rest| ==> e[i + 1] == rest[i];
    if DistinctKeys(e) {
      forall i | 0 <= i < |rest| ensures rest[i].0 != x.0 {
        assert e[0].0 != e[i + 1].0;
      }
    }
  }

  /** After `delete`, the key reads as absent and every other key reads as before. */
  lemma {:induction false} GetAfterDelete<K, V>(e: Entries<K, V>, k: K, k': K)
    ensures Get(Delete(e, k), k) == None
    ensures k' != k ==> Get(Delete(e, k), k') == Get(e, k')
  {
    if k' != k && e != [] {
      GetAfterDelete(e[1..], k, k');
      if e[0].0 != k {
        var r := [e[0]] + Delete(e[1..], k);
        assert Delete(e, k) == r;
        assert r[1..] == Delete(e[1..], k);
      }
    }
  }

  /** `set` of a key that is not first leaves the first entry in front of the rest's update. */
  lemma SetCons<K, V>(e: Entries<K, V>, k: K, v: V)
    requires e != [] && e[0].0 != k
    ensures Set(e, k, v) == [e[0]] + Set(e[1..], k, v)
  {
  }

  /** Looking up a key that is not first looks in the rest. */
  lemma GetCons<K, V>(e: Entries<K, V>, k: K)
    requires e != [] && e[0].0 != k
    ensures Get(e, k) == Get(e[1..], k)
  {
  }

  /** Every entry after `set` was there before or is the new one. */
  lemma {:induction false} SetEntries<K, V>(e: Entries<K, V>, k: K, v: V)
    ensures forall i :: 0 <= i < |Set(e, k, v)| ==> Set(e, k, v)[i] in e || Set(e, k, v)[i] == (k, v)
  {
    if e != [] && e[0].0 != k {
      SetEntries(e[1..], k, v);
      SetCons(e, k, v);
      var rest := Set(e[1..], k, v);
      forall i | 1 <= i < |Set(e, k, v)| ensures Set(e, k, v)[i] in e || Set(e, k, v)[i] == (k, v) {
        assert Set(e, k, v)[i] == rest[i - 1];
        assert rest[i - 1] in e[1..] ==> rest[i - 1] in e;
      }
    } else if e != [] {
      forall i | 1 <= i < |Set(e, k, v)| ensures Set(e, k, v)[i] in e {
        assert Set(e, k, v)[i] == e[i];
      }
    }
  }
}

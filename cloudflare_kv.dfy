/** The key-value client over a Cloudflare KV namespace: plain get/put/delete, hashes emulated by
    composed keys, and sets emulated by JSON arrays read, changed and written back
    (infrastructure/external/storage/CloudflareKVClient.ts). */
module CloudflareKV {
  import opened Wrappers
  import opened Seqs

  /** A value held in the namespace: either text, or a JSON array of strings. */
  datatype KVValue = Text(text: string) | Members(members: seq<string>)

  /** `existing ? JSON.parse(existing) : []`: a missing or empty value is the empty set, an array is
      its members, and any other text is a failure. Malformed JSON throws in `JSON.parse`; valid JSON
      that is not an array is not told apart from it here. */
  function ParsedSet(existing: Option<KVValue>): (r: Result<seq<string>, string>)
    ensures existing.None? || existing == Some(Text([])) ==> r == Ok([])
    ensures existing.Some? && existing.value.Members? ==> r == Ok(existing.value.members)
    ensures r.Err? <==> existing.Some? && existing.value.Text? && existing.value.text != []
  {
    match existing
    case None => Ok([])
    case Some(Text(t)) => if t == [] then Ok([]) else Err("not a JSON array: " + t)
    case Some(Members(m)) => Ok(m)
  }

  /** The members after `sadd`: the member is appended unless it is already there. */
  function Added(members: seq<string>, member: string): (r: seq<string>) {
    if member in members then members else members + [member]
  }

  /** The members after `srem`: every occurrence of the member is dropped. */
  function Without(members: seq<string>, member: string): (r: seq<string>) {
    Filter(members, (m: string) => m != member)
  }

  /** The flat key a hash field is stored under: `${key}:${field}`. */
  function FieldKey(key: string, field: string): (r: string)
    ensures |r| == |key| + 1 + |field| && r[|key|] == ':'
    ensures r[..|key|] == key && r[|key| + 1..] == field
  {
    key + ":" + field
  }

  /** `hgetall` is not supported and always throws. */
  function HGetAll(key: string): (r: Result<map<string, string>, string>)
    ensures r.Err?
  {
    Err("hgetall not directly supported in Cloudflare KV")
  }

  /** `CloudflareKVClient`, over the namespace's contents. */
  class CloudflareKVClient {
    var kv: map<string, KVValue>

    constructor(kv: map<string, KVValue>)
      ensures this.kv == kv
    {
      this.kv := kv;
    }

    function Read(key: string): (r: Option<KVValue>)
      reads this
      ensures r.Some? <==> key in kv
      ensures r.Some? ==> r.value == kv[key]
    {
      if key in kv then Some(kv[key]) else None
    }

    method Get(key: string) returns (r: Option<KVValue>)
      ensures r == Read(key)
    {
      r := Read(key);
    }

    /** `set`; the expiration option is not modelled. */
    method Set(key: string, value: KVValue)
      modifies this
      ensures kv == old(kv)[key := value]
    {
      kv := kv[key := value];
    }

    method Del(key: string)
      modifies this
      ensures kv == old(kv) - {key}
    {
      kv := kv - {key};
    }

    method HGet(key: string, field: string) returns (r: Option<KVValue>)
      ensures r == Read(FieldKey(key, field))
    {
      r := Read(FieldKey(key, field));
    }

    method HSet(key: string, field: string, value: string)
      modifies this
      ensures kv == old(kv)[FieldKey(key, field) := Text(value)]
    {
      kv := kv[FieldKey(key, field) := Text(value)];
    }

    /** `sadd`: read, append when absent and write back; nothing is written when the member is
        already there, and unparsable contents throw before any write. */
    method SAdd(key: string, member: string) returns (r: Result<(), string>)
      modifies this
      ensures r.Err? <==> ParsedSet(old(Read(key))).Err?
      ensures r.Err? ==> kv == old(kv)
      ensures r.Ok? && member in ParsedSet(old(Read(key))).value ==> kv == old(kv)
      ensures r.Ok? && member !in ParsedSet(old(Read(key))).value ==>
                kv == old(kv)[key := Members(Added(ParsedSet(old(Read(key))).value, member))]
    {
      var existing := Read(key);
      var parsed := ParsedSet(existing);
      if parsed.Err? {
        return Err(parsed.error);
      }
      if member !in parsed.value {
        var grown := parsed.value + [member];
        kv := kv[key := Members(grown)];
      }
      return Ok(());
    }

    /** `smembers`: the parsed set, `[]` for a missing key. */
    method SMembers(key: string) returns (r: Result<seq<string>, string>)
      ensures r == ParsedSet(Read(key))
    {
      var data := Read(key);
      r := ParsedSet(data);
    }

    /** `srem`: a missing or empty value is left alone (nothing is written); otherwise the filtered
        members are written back, even when nothing was removed. */
    method SRem(key: string, member: string) returns (r: Result<(), string>)
      modifies this
      ensures r.Err? <==> ParsedSet(old(Read(key))).Err?
      ensures r.Err? || old(Read(key)).None? || old(Read(key)) == Some(Text([])) ==> kv == old(kv)
      ensures r.Ok? && old(Read(key)).Some? && old(Read(key)).value.Members? ==>
                kv == old(kv)[key := Members(Without(old(kv)[key].members, member))]
    {
      var existing := Read(key);
      if existing.Some? && existing.value != Text([]) {
        var parsed := ParsedSet(existing);
        if parsed.Err? {
          return Err(parsed.error);
        }
        var filtered := Filter(parsed.value, (m: string) => m != member);
        kv := kv[key := Members(filtered)];
      }
      return Ok(());
    }
  }

  // ---------------------------------------------------------------------------
  // The set emulation
  // ---------------------------------------------------------------------------

  predicate NoDuplicates(s: seq<string>) {
    forall i, j :: 0 <= i < j < |s| ==> s[i] != s[j]
  }

  /** `sadd` keeps the member list free of duplicates, holds the member afterwards, loses nothing and
      adds nothing else. */
  lemma AddedFacts(members: seq<string>, member: string)
    ensures NoDuplicates(members) ==> NoDuplicates(Added(members, member))
    ensures member in Added(members, member)
    ensures forall m :: m in Added(members, member) <==> m in members || m == member
    ensures IsSubsequence(members, Added(members, member))
  {
    SubsequenceRefl(members);
    if member !in members {
      SubsequenceSnoc(members, members, member);
      var r := members + [member];
      assert forall m :: m in r <==> m in members || m == member by {
        forall m ensures m in r <==> m in members || m == member {
          if m in r {
            var i :| 0 <= i < |r| && r[i] == m;
            if i < |members| {
              assert members[i] == m;
            }
          }
          if m in members {
            var i :| 0 <= i < |members| && members[i] == m;
            assert r[i] == m;
          }
        }
      }
    }
  }

  /** Adding twice is adding once. */
  lemma AddedIdempotent(members: seq<string>, member: string)
    ensures Added(Added(members, member), member) == Added(members, member)
  {
    assert member in members + [member] by {
      assert (members + [member])[|members|] == member;
    }
  }

  /** `srem` drops every occurrence of the member, keeps every other member as often as it occurs,
      and keeps their order. */
  lemma WithoutFacts(members: seq<string>, member: string)
    ensures member !in Without(members, member)
    ensures forall i :: 0 <= i < |members| && members[i] != member ==> members[i] in Without(members, member)
    ensures IsSubsequence(Without(members, member), members)
    ensures member !in members ==> Without(members, member) == members
    ensures forall m :: m != member ==> multiset(Without(members, member))[m] == multiset(members)[m]
  {
    var p := (m: string) => m != member;
    FilterMembers(members, p);
    FilterMultiplicity(members, p);
    FilterIsSubsequence(members, p);
    if member !in members {
      FilterAll(members, p);
    }
  }

  /** Removing after adding a new member gives the members back. */
  lemma {:induction false} WithoutAdded(members: seq<string>, member: string)
    requires member !in members
    ensures Without(Added(members, member), member) == members
  {
    var p := (m: string) => m != member;
    FilterConcat(members, [member], p);
    FilterAll(members, p);
    assert Filter([member], p) == [];
  }

  /** Distinct fields of one key are distinct stored keys. */
  lemma FieldKeyInjective(key: string, field: string, field': string)
    ensures FieldKey(key, field) == FieldKey(key, field') ==> field == field'
  {
    if FieldKey(key, field) == FieldKey(key, field') {
      assert field == FieldKey(key, field)[|key| + 1..];
    }
  }

  /** Across keys the composition is ambiguous: a key containing ':' can share its stored entry with
      another key's field. */
  lemma FieldKeyAmbiguous()
    ensures FieldKey("a:b", "c") == FieldKey("a", "b:c")
  {
  }
}

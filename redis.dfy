/**
 * The Redis storage backend: the same deduplication as the in-memory
 * backend, spread over separate commands on the key space, with the key
 * layout `id:<id>` (a field-set) and `hash:<hash>` (a plain string).
 */
module Redis {
  import opened Wrappers
  import opened Strings
  import opened Entries
  import opened RedisUtil
  import InMem

  const IdPrefix: string := "id:"
  const HashPrefix: string := "hash:"

  /** generateKeyId */
  function KeyId(id: string): (k: string)
    ensures HasPrefix(k, IdPrefix) && k[|IdPrefix|..] == id
  {
    PrefixedHasPrefix(IdPrefix, id);
    IdPrefix + id
  }

  /** generateKeyHash */
  function KeyHash(hash: string): (k: string)
    ensures HasPrefix(k, HashPrefix) && k[|HashPrefix|..] == hash
  {
    PrefixedHasPrefix(HashPrefix, hash);
    HashPrefix + hash
  }

  /**
   * generateKeys: the id key and the hash key of an entry. They never
   * collide, only the id key matches `id:*`, and each carries its part of
   * the entry after its prefix.
   */
  function GenerateKeys(e: Entry): (keys: (string, string))
    ensures keys.0 != keys.1
    ensures HasPrefix(keys.0, IdPrefix) && keys.0[|IdPrefix|..] == e.id
    ensures HasPrefix(keys.1, HashPrefix) && keys.1[|HashPrefix|..] == e.hash
    ensures !HasPrefix(keys.1, IdPrefix)
  {
    KeyNamespacesDisjoint(e.id, e.hash);
    (KeyId(e.id), KeyHash(e.hash))
  }

  /** The two key namespaces never collide, and no hash key matches `id:*`. */
  lemma KeyNamespacesDisjoint(id: string, hash: string)
    ensures KeyId(id) != KeyHash(hash)
    ensures !HasPrefix(KeyHash(hash), IdPrefix) && !HasPrefix(KeyId(id), HashPrefix)
  {
    assert KeyHash(hash)[0] == HashPrefix[0] == 'h';
    assert KeyId(id)[0] == IdPrefix[0] == 'i';
    assert KeyHash(hash)[..|IdPrefix|][0] == 'h';
    if |KeyId(id)| >= |HashPrefix| {
      assert KeyId(id)[..|HashPrefix|][0] == 'i';
    }
  }

  /** Each builder is injective, and every key with the prefix is built by it. */
  lemma KeyBuildersInjective()
    ensures forall x, y :: KeyId(x) == KeyId(y) ==> x == y
    ensures forall x, y :: KeyHash(x) == KeyHash(y) ==> x == y
    ensures forall k :: HasPrefix(k, IdPrefix) ==> KeyId(k[|IdPrefix|..]) == k
    ensures forall k :: HasPrefix(k, HashPrefix) ==> KeyHash(k[|HashPrefix|..]) == k
  {
    forall k | HasPrefix(k, IdPrefix) ensures KeyId(k[|IdPrefix|..]) == k {
      assert k == k[..|IdPrefix|] + k[|IdPrefix|..];
    }
    forall k | HasPrefix(k, HashPrefix) ensures KeyHash(k[|HashPrefix|..]) == k {
      assert k == k[..|HashPrefix|] + k[|HashPrefix|..];
    }
  }

  /**
   * AddEntry as a sequence of commands. `up[0]` answers EXISTS on the hash
   * key; on a hit `up[1]` answers GET and `up[2]` HGETALL; on a miss `up[1]`
   * answers the HSET of the id key and `up[2]` the SET of the hash key.
   * Command errors are swallowed and the entry is returned regardless.
   */
  function AddSpec(ks: KeySpace, url: string, hash: string, id: string, up: seq<bool>): (KeySpace, Entry)
    requires |up| == 3
  {
    if ExistsReply(ks, KeyHash(hash), up[0]).0 then
      var storedId := GetReply(ks, KeyHash(hash), up[1]).0;
      (ks, GetHashReply(ks, KeyId(storedId), up[2]).0)
    else
      var e := Entry(url, hash, id);
      var (ks1, err1) := SetHashResult(ks, KeyId(id), e, up[1]);
      if err1.Some? then (ks1, e)
      else (SetResult(ks1, KeyHash(hash), id, up[2]).0, e)
  }

  /**
   * DeleteEntry as a sequence of commands: `up[0]` answers the HGETALL of
   * the id key, `up[1]` the DEL of the id key, `up[2]` the DEL of the hash
   * key. A failed lookup or a failed delete ends the operation.
   */
  function DeleteSpec(ks: KeySpace, id: string, up: seq<bool>): KeySpace
    requires |up| == 3
  {
    var (e, err) := GetHashReply(ks, KeyId(id), up[0]);
    if err.Some? then ks
    else
      var (idKey, hashKey) := GenerateKeys(e);
      var (ks1, err1) := DelResult(ks, idKey, up[1]);
      if err1.Some? then ks1
      else DelResult(ks1, hashKey, up[2]).0
  }

  const AllUp: seq<bool> := [true, true, true]

  /** `k` is the id key of a stored entry and holds that entry's three fields. */
  ghost predicate IdKeyHolds(ks: KeySpace, s: InMem.Store, k: string)
    requires k in ks
  {
    HasPrefix(k, IdPrefix) && k[|IdPrefix|..] in s.entries
    && ks[k] == Fields(FieldsOf(s.entries[k[|IdPrefix|..]]))
  }

  /** `k` is the hash key of a known hash and holds the id stored for it. */
  ghost predicate HashKeyHolds(ks: KeySpace, s: InMem.Store, k: string)
    requires k in ks
  {
    HasPrefix(k, HashPrefix) && k[|HashPrefix|..] in s.ids
    && ks[k] == Str(s.ids[k[|HashPrefix|..]])
  }

  /**
   * The key space lays out the in-memory backend's two maps: every key is
   * an id key `id:<i>` holding the three fields of `entries[i]` or a hash
   * key `hash:<h>` holding `ids[h]`, and every entry and every hash has its
   * key.
   */
  ghost predicate Refines(ks: KeySpace, s: InMem.Store) {
    && (forall k :: k in ks ==> IdKeyHolds(ks, s, k) || HashKeyHolds(ks, s, k))
    && (forall i :: i in s.entries ==> KeyId(i) in ks)
    && (forall h :: h in s.ids ==> KeyHash(h) in ks)
  }

  /** Refines read per id: `id:<i>` exists exactly for the stored ids, and holds the entry's fields. */
  lemma RefinesIdKey(ks: KeySpace, s: InMem.Store, i: string)
    requires Refines(ks, s)
    ensures KeyId(i) in ks <==> i in s.entries
    ensures i in s.entries ==> ks[KeyId(i)] == Fields(FieldsOf(s.entries[i]))
  {
    if KeyId(i) in ks {
      assert IdKeyHolds(ks, s, KeyId(i)) || HashKeyHolds(ks, s, KeyId(i));
      KeyNamespacesDisjoint(i, "");
    }
  }

  /** Refines read per hash: `hash:<h>` exists exactly for the known hashes, and holds the id. */
  lemma RefinesHashKey(ks: KeySpace, s: InMem.Store, h: string)
    requires Refines(ks, s)
    ensures KeyHash(h) in ks <==> h in s.ids
    ensures h in s.ids ==> ks[KeyHash(h)] == Str(s.ids[h])
  {
    if KeyHash(h) in ks {
      assert IdKeyHolds(ks, s, KeyHash(h)) || HashKeyHolds(ks, s, KeyHash(h));
      KeyNamespacesDisjoint("", h);
    }
  }

  /** An empty key space is an empty database. */
  lemma EmptyRefines()
    ensures Refines(map[], InMem.EmptyStore)
  {
  }

  /** Overwriting an id key with an entry's field-set updates `entries` only. */
  lemma RefinesSetId(ks: KeySpace, s: InMem.Store, e: Entry)
    requires Refines(ks, s)
    ensures Refines(ks[KeyId(e.id) := Fields(FieldsOf(e))], InMem.Store(s.entries[e.id := e], s.ids))
  {
    var ks', s' := ks[KeyId(e.id) := Fields(FieldsOf(e))], InMem.Store(s.entries[e.id := e], s.ids);
    forall k | k in ks' ensures IdKeyHolds(ks', s', k) || HashKeyHolds(ks', s', k) {
      if k != KeyId(e.id) {
        assert IdKeyHolds(ks, s, k) || HashKeyHolds(ks, s, k);
        if IdKeyHolds(ks, s, k) {
          assert k == KeyId(k[|IdPrefix|..]) by { assert k == k[..|IdPrefix|] + k[|IdPrefix|..]; }
        }
      }
    }
  }
  /** Writing a hash key updates `ids` only. */
  lemma RefinesSetHash(ks: KeySpace, s: InMem.Store, hash: string, id: string)
    requires Refines(ks, s)
    ensures Refines(ks[KeyHash(hash) := Str(id)], InMem.Store(s.entries, s.ids[hash := id]))
  {
    var ks', s' := ks[KeyHash(hash) := Str(id)], InMem.Store(s.entries, s.ids[hash := id]);
    forall k | k in ks' ensures IdKeyHolds(ks', s', k) || HashKeyHolds(ks', s', k) {
      if k != KeyHash(hash) {
        assert IdKeyHolds(ks, s, k) || HashKeyHolds(ks, s, k);
        if HashKeyHolds(ks, s, k) {
          assert k == KeyHash(k[|HashPrefix|..]) by { assert k == k[..|HashPrefix|] + k[|HashPrefix|..]; }
        }
      }
    }
  }
  /** Deleting an id key removes it from `entries`. */
  lemma RefinesDeleteId(ks: KeySpace, s: InMem.Store, id: string)
    requires Refines(ks, s)
    ensures Refines(ks - {KeyId(id)}, InMem.Store(s.entries - {id}, s.ids))
  {
    var ks', s' := ks - {KeyId(id)}, InMem.Store(s.entries - {id}, s.ids);
    forall k | k in ks' ensures IdKeyHolds(ks', s', k) || HashKeyHolds(ks', s', k) {
      assert IdKeyHolds(ks, s, k) || HashKeyHolds(ks, s, k);
      if IdKeyHolds(ks, s, k) {
        assert k == KeyId(k[|IdPrefix|..]) by { assert k == k[..|IdPrefix|] + k[|IdPrefix|..]; }
      }
    }
    forall h | h in s'.ids ensures KeyHash(h) in ks' {
      KeyNamespacesDisjoint(id, h);
    }
  }
  /** Deleting a hash key removes it from `ids`. */
  lemma RefinesDeleteHash(ks: KeySpace, s: InMem.Store, hash: string)
    requires Refines(ks, s)
    ensures Refines(ks - {KeyHash(hash)}, InMem.Store(s.entries, s.ids - {hash}))
  {
    var ks', s' := ks - {KeyHash(hash)}, InMem.Store(s.entries, s.ids - {hash});
    forall k | k in ks' ensures IdKeyHolds(ks', s', k) || HashKeyHolds(ks', s', k) {
      assert IdKeyHolds(ks, s, k) || HashKeyHolds(ks, s, k);
      if HashKeyHolds(ks, s, k) {
        assert k == KeyHash(k[|HashPrefix|..]) by { assert k == k[..|HashPrefix|] + k[|HashPrefix|..]; }
      }
    }
    forall i | i in s'.entries ensures KeyId(i) in ks' {
      KeyNamespacesDisjoint(i, hash);
    }
  }
  /** GetEntry on the Redis backend answers what the in-memory lookup answers. */
  lemma GetRefines(ks: KeySpace, s: InMem.Store, id: string)
    requires Refines(ks, s)
    ensures var (e, err) := GetHashReply(ks, KeyId(id), true);
      (e, err == None) == InMem.Lookup(s, id)
  {
    RefinesIdKey(ks, s, id);
    if id in s.entries {
      FieldsRoundTrip(s.entries[id]);
      assert |FieldsOf(s.entries[id]).Keys| == 3;
    }
  }

  /**
   * With every command answered, Redis AddEntry behaves as the in-memory
   * AddEntry: the same entry, and a key space laying out the same new state.
   */
  lemma AddRefines(ks: KeySpace, s: InMem.Store, url: string, hash: string, id: string)
    requires Refines(ks, s)
    ensures var (ks', e) := AddSpec(ks, url, hash, id, AllUp);
      var (s', e') := InMem.Add(s, url, hash, id);
      Refines(ks', s') && e == e'
  {
    RefinesHashKey(ks, s, hash);
    if hash in s.ids {
      GetRefines(ks, s, s.ids[hash]);
    } else {
      var e := Entry(url, hash, id);
      FieldsRoundTrip(e);
      RefinesIdKey(ks, s, id);
      if id in s.entries {
        FieldsRoundTrip(s.entries[id]);
        assert ks[KeyId(id)].fields + FieldsOf(e) == FieldsOf(e);
      }
      var ks1 := ks[KeyId(id) := Fields(FieldsOf(e))];
      assert SetHashResult(ks, KeyId(id), e, true) == (ks1, None);
      RefinesSetId(ks, s, e);
      RefinesSetHash(ks1, InMem.Store(s.entries[id := e], s.ids), hash, id);
    }
  }

  /**
   * The delete protocol on a stored entry: an unanswered HGETALL or a
   * failed first DEL leaves every key; a failed second DEL removes only
   * the id key; otherwise both keys go.
   */
  lemma DeleteStoredEntry(ks: KeySpace, e: Entry, up: seq<bool>)
    requires |up| == 3 && KeyId(e.id) in ks && ks[KeyId(e.id)] == Fields(FieldsOf(e))
    ensures DeleteSpec(ks, e.id, up) ==
      if !up[0] || !up[1] then ks
      else if !up[2] then ks - {KeyId(e.id)}
      else ks - {KeyId(e.id)} - {KeyHash(e.hash)}
  {
    FieldsRoundTrip(e);
    assert |FieldsOf(e)| == 3;
    if up[0] {
      assert GetHashReply(ks, KeyId(e.id), true) == (e, None);
    }
  }

  /**
   * With every command answered, Redis DeleteEntry behaves as the in-memory
   * DeleteEntry on every store keyed by id, which includes the stores left
   * behind by an id collision.
   */
  lemma DeleteRefines(ks: KeySpace, s: InMem.Store, id: string)
    requires Refines(ks, s) && InMem.KeyedById(s)
    ensures Refines(DeleteSpec(ks, id, AllUp), InMem.Delete(s, id))
  {
    RefinesIdKey(ks, s, id);
    if id in s.entries {
      var e := s.entries[id];
      DeleteStoredEntry(ks, e, AllUp);
      RefinesDeleteId(ks, s, id);
      RefinesDeleteHash(ks - {KeyId(id)}, InMem.Store(s.entries - {id}, s.ids), e.hash);
    } else {
      DeleteUnknown(ks, s, id, AllUp);
    }
  }

  /** Adding the same URL twice on a Redis backend: the second call writes nothing and returns the same entry. */
  lemma AddTwice(ks: KeySpace, s: InMem.Store, url: string, hash: string, id1: string, id2: string)
    requires Refines(ks, s)
    ensures var (ks1, e1) := AddSpec(ks, url, hash, id1, AllUp);
      AddSpec(ks1, url, hash, id2, AllUp) == (ks1, e1)
  {
    AddRefines(ks, s, url, hash, id1);
    var (ks1, e1) := AddSpec(ks, url, hash, id1, AllUp);
    var s1 := InMem.Add(s, url, hash, id1).0;
    AddRefines(ks1, s1, url, hash, id2);
    InMem.AddTwice(s, url, hash, id1, id2);
  }

  /** A known hash: the entry stored at `id:<value of hash:<h>>` is returned, with no write. */
  lemma AddKnownHash(ks: KeySpace, url: string, hash: string, id: string, up: seq<bool>)
    requires |up| == 3 && KeyHash(hash) in ks && up[0]
    ensures var (ks', e) := AddSpec(ks, url, hash, id, up);
      && ks' == ks
      && (up[1] && up[2] && ks[KeyHash(hash)].Str? ==> e == GetHashReply(ks, KeyId(ks[KeyHash(hash)].s), true).0)
  {
  }

  /**
   * A new hash: the id key is written first; if that write fails the hash
   * key is not written; the generated entry is returned either way.
   */
  lemma AddNewHash(ks: KeySpace, url: string, hash: string, id: string, up: seq<bool>)
    requires |up| == 3 && KeyHash(hash) !in ks && KeyId(id) !in ks
    ensures var (ks', e) := AddSpec(ks, url, hash, id, up);
      && e == Entry(url, hash, id)
      && (!up[1] ==> ks' == ks)
      && (up[1] && !up[2] ==> ks' == ks[KeyId(id) := Fields(FieldsOf(e))])
      && (up[1] && up[2] ==> ks' == ks[KeyId(id) := Fields(FieldsOf(e))][KeyHash(hash) := Str(id)])
  {
  }

  /**
   * An unanswered EXISTS counts as "hash unknown": a URL that is already
   * stored gets a second entry, and the hash key is repointed at the new id
   * while the old id key stays.
   */
  lemma ExistsFailureDuplicates(ks: KeySpace, s: InMem.Store, url: string, hash: string, id: string)
    requires Refines(ks, s) && InMem.Consistent(s) && hash in s.ids && id !in s.entries
    ensures var (ks', e) := AddSpec(ks, url, hash, id, [false, true, true]);
      && e == Entry(url, hash, id)
      && KeyId(s.ids[hash]) in ks' && KeyId(id) in ks' && s.ids[hash] != id
      && ks'[KeyHash(hash)] == Str(id)
  {
    var prev := s.ids[hash];
    RefinesIdKey(ks, s, id);
    RefinesIdKey(ks, s, prev);
    KeyNamespacesDisjoint(prev, hash);
    var e := Entry(url, hash, id);
    var ks1 := ks[KeyId(id) := Fields(FieldsOf(e))];
    assert SetHashResult(ks, KeyId(id), e, true) == (ks1, None);
    assert AddSpec(ks, url, hash, id, [false, true, true]) == (ks1[KeyHash(hash) := Str(id)], e);
  }

  /** Deleting an unknown id changes nothing, whichever commands are answered. */
  lemma DeleteUnknown(ks: KeySpace, s: InMem.Store, id: string, up: seq<bool>)
    requires |up| == 3 && Refines(ks, s) && id !in s.entries
    ensures DeleteSpec(ks, id, up) == ks
  {
  }

  /**
   * A delete whose second DEL is not answered removes the id key but keeps
   * the hash key: the hash still reads as known although its entry is gone.
   */
  lemma DeletePartialFailure(ks: KeySpace, s: InMem.Store, id: string)
    requires Refines(ks, s) && InMem.Consistent(s) && id in s.entries
    ensures var ks' := DeleteSpec(ks, id, [true, true, false]);
      && KeyId(id) !in ks'
      && KeyHash(s.entries[id].hash) in ks'
      && ks' == ks - {KeyId(id)}
  {
    var e := s.entries[id];
    RefinesIdKey(ks, s, id);
    RefinesHashKey(ks, s, e.hash);
    DeleteStoredEntry(ks, e, [true, true, false]);
    KeyNamespacesDisjoint(id, e.hash);
  }

  /** A hash key written or removed never changes what `id:*` matches. */
  lemma CountIgnoresHashKeys(ks: KeySpace, hash: string, v: Value)
    ensures MatchingKeys(ks[KeyHash(hash) := v], IdPrefix) == MatchingKeys(ks, IdPrefix)
    ensures MatchingKeys(ks - {KeyHash(hash)}, IdPrefix) == MatchingKeys(ks, IdPrefix)
  {
    KeyNamespacesDisjoint("", hash);
  }

  /** The image of a set under an injective key builder has the same size. */
  lemma {:induction false} IdKeysSize(ids: set<string>)
    ensures |set i | i in ids :: KeyId(i)| == |ids|
    decreases |ids|
  {
    if ids != {} {
      var i :| i in ids;
      var rest := ids - {i};
      IdKeysSize(rest);
      KeyBuildersInjective();
      assert (set j | j in ids :: KeyId(j)) == (set j | j in rest :: KeyId(j)) + {KeyId(i)};
      assert KeyId(i) !in (set j | j in rest :: KeyId(j));
    }
  }

  /** CountEntries counts exactly the stored entries: the `id:*` keys are the id keys of `entries`. */
  lemma CountRefines(ks: KeySpace, s: InMem.Store)
    requires Refines(ks, s)
    ensures |MatchingKeys(ks, IdPrefix)| == |s.entries|
  {
    forall k | k in MatchingKeys(ks, IdPrefix) ensures k in set i | i in s.entries.Keys :: KeyId(i) {
      assert IdKeyHolds(ks, s, k) || HashKeyHolds(ks, s, k);
      if HashKeyHolds(ks, s, k) {
        assert k == KeyHash(k[|HashPrefix|..]) by { assert k == k[..|HashPrefix|] + k[|HashPrefix|..]; }
        KeyNamespacesDisjoint("", k[|HashPrefix|..]);
      } else {
        assert k == KeyId(k[|IdPrefix|..]) by { assert k == k[..|IdPrefix|] + k[|IdPrefix|..]; }
      }
    }
    assert MatchingKeys(ks, IdPrefix) == set i | i in s.entries.Keys :: KeyId(i);
    IdKeysSize(s.entries.Keys);
  }

  /** The Redis database: a helper over the server's key space and the content hash. */
  class RedisDatabase {
    const helper: RedisHelper
    const hashOf: Hasher

    /** NewRedisDatabase over an already connected helper. */
    constructor (helper: RedisHelper, hashOf: Hasher)
      ensures this.helper == helper && this.hashOf == hashOf
    {
      this.helper := helper;
      this.hashOf := hashOf;
    }

    /** AddEntry: dedup by the hash key, else write the id key, then the hash key. */
    method AddEntry(url: string, draws: seq<Draw>, up: seq<bool>) returns (e: Entry)
      requires ValidDraws(draws) && |up| == 3
      modifies helper
      ensures (helper.keys, e) == AddSpec(old(helper.keys), url, hashOf(url), IdOf(draws), up)
    {
      var hash := hashOf(url);
      var has := HasURLHash(hash, up[0]);
      if has {
        var id := GetIdByHash(hash, up[1]);
        var err;
        e, err := GetEntry(id, up[2]);
        return;
      }
      e := GenerateEntry(url, hash, draws);
      var (idKey, hashKey) := GenerateKeys(e);
      var err := helper.SetHash(idKey, e, up[1]);
      if err.Some? {
        return;
      }
      err := helper.Set(hashKey, e.id, up[2]);
    }

    /** HasURLHash: whether `hash:<hash>` exists; an unanswered command counts as false. */
    method HasURLHash(hash: string, up: bool) returns (b: bool)
      ensures b <==> up && KeyHash(hash) in helper.keys
    {
      var err;
      b, err := helper.Exists(KeyHash(hash), up);
    }

    /** GetIdByHash: the id stored under `hash:<hash>`, or "" on any error. */
    method GetIdByHash(hash: string, up: bool) returns (id: string)
      ensures id == GetReply(helper.keys, KeyHash(hash), up).0
      ensures up && KeyHash(hash) in helper.keys && helper.keys[KeyHash(hash)].Str? ==> id == helper.keys[KeyHash(hash)].s
      ensures !(up && KeyHash(hash) in helper.keys) ==> id == ""
    {
      var err;
      id, err := helper.Get(KeyHash(hash), up);
    }

    /** GetEntry: the entry rebuilt from `id:<id>`, or the zero Entry and an error. */
    method GetEntry(id: string, up: bool) returns (e: Entry, err: Option<StoreError>)
      ensures (e, err) == GetHashReply(helper.keys, KeyId(id), up)
      ensures err == None ==> helper.keys[KeyId(id)].Fields? && e == EntryOf(helper.keys[KeyId(id)].fields)
    {
      e, err := helper.GetHash(KeyId(id), up);
    }

    /** DeleteEntry: look the entry up, delete its id key, then its hash key, stopping at the first error. */
    method DeleteEntry(id: string, up: seq<bool>)
      requires |up| == 3
      modifies helper
      ensures helper.keys == DeleteSpec(old(helper.keys), id, up)
    {
      var entry, err := GetEntry(id, up[0]);
      if err.Some? {
        return;
      }
      var (idKey, hashKey) := GenerateKeys(entry);
      err := helper.Delete(idKey, up[1]);
      if err.Some? {
        return;
      }
      err := helper.Delete(hashKey, up[2]);
    }

    /** CountEntries: the number of `id:*` keys; hash keys are never counted. */
    method CountEntries(up: bool) returns (n: int)
      ensures up ==> n == |MatchingKeys(helper.keys, IdPrefix)|
      ensures !up ==> n == 0
      ensures forall i :: up && KeyId(i) in helper.keys ==> n > 0
    {
      var err;
      n, err := helper.CountKeysOfPattern(IdPrefix, up);
      if up && exists i :: KeyId(i) in helper.keys {
        var i :| KeyId(i) in helper.keys;
        assert KeyId(i) in MatchingKeys(helper.keys, IdPrefix);
      }
    }
  }
}

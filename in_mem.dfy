/**
 * The in-memory storage backend: two maps updated in place, `entries`
 * (id -> Entry) and `ids` (hash -> id), with deduplication by hash.
 */
module InMem {
  import opened Wrappers
  import opened Entries

  /** The two indexes of the backend, taken as one value. */
  datatype Store = Store(entries: map<string, Entry>, ids: map<string, string>)

  const EmptyStore := Store(map[], map[])

  /**
   * The two-way consistency of the indexes: `ids[h] == i` exactly when the
   * entry stored under `i` has hash `h`, and every entry is stored under its own id.
   */
  ghost predicate Consistent(s: Store) {
    && (forall h :: h in s.ids ==> s.ids[h] in s.entries && s.entries[s.ids[h]].hash == h)
    && (forall i :: i in s.entries ==>
          s.entries[i].id == i && s.entries[i].hash in s.ids && s.ids[s.entries[i].hash] == i)
  }

  /** Every entry is stored under its own id; unlike Consistent, this survives an id collision. */
  ghost predicate KeyedById(s: Store) {
    forall i :: i in s.entries ==> s.entries[i].id == i
  }

  /** Lookup by id: the stored entry and `true`, or the zero Entry and `false`. */
  function Lookup(s: Store, id: string): (Entry, bool) {
    if id in s.entries then (s.entries[id], true) else (Empty, false)
  }

  /**
   * AddEntry on the state: a known hash gives back the entry its id points
   * at and changes nothing; an unknown hash stores a new entry under the
   * freshly generated id and maps the hash to it. Nothing checks that the
   * id is unused.
   */
  function Add(s: Store, url: string, hash: string, id: string): (Store, Entry) {
    if hash in s.ids then (s, Lookup(s, s.ids[hash]).0)
    else
      var e := Entry(url, hash, id);
      (Store(s.entries[id := e], s.ids[hash := id]), e)
  }

  /** DeleteEntry on the state: removes the id key and the hash key of a present entry. */
  function Delete(s: Store, id: string): Store {
    if id in s.entries then Store(s.entries - {id}, s.ids - {s.entries[id].hash}) else s
  }

  /** A new database is consistent. */
  lemma EmptyIsConsistent()
    ensures Consistent(EmptyStore) && |EmptyStore.entries| == 0 && |EmptyStore.ids| == 0
  {
  }

  /** An unseen hash stores the new entry in both indexes; the count grows by one when the id is fresh. */
  lemma AddNewHash(s: Store, url: string, hash: string, id: string)
    requires hash !in s.ids
    ensures var (s', e) := Add(s, url, hash, id);
      && e == Entry(url, hash, id)
      && s'.entries == s.entries[id := e] && s'.ids == s.ids[hash := id]
      && (id !in s.entries ==> |s'.entries| == |s.entries| + 1)
      && |s'.ids| == |s.ids| + 1
  {
  }

  /** A known hash gives back the stored entry (same id and hash) and changes neither map. */
  lemma AddKnownHash(s: Store, url: string, hash: string, id: string)
    requires Consistent(s) && hash in s.ids
    ensures var (s', e) := Add(s, url, hash, id);
      && s' == s
      && e.hash == hash && e.id == s.ids[hash]
      && e.id in s.entries && s.entries[e.id] == e
  {
  }

  /** Adding keeps the indexes consistent, provided an unseen hash gets an unused id. */
  lemma AddPreservesConsistent(s: Store, url: string, hash: string, id: string)
    requires Consistent(s)
    requires hash !in s.ids ==> id !in s.entries
    ensures Consistent(Add(s, url, hash, id).0)
  {
    if hash !in s.ids {
      var s' := Add(s, url, hash, id).0;
      forall h | h in s'.ids
        ensures s'.ids[h] in s'.entries && s'.entries[s'.ids[h]].hash == h
      {
        if h != hash {
          assert s'.ids[h] == s.ids[h] != id;
        }
      }
    }
  }

  /** Adding the same URL twice: the second call returns the first call's entry and changes nothing. */
  lemma AddTwice(s: Store, url: string, hash: string, id1: string, id2: string)
    ensures var (s1, e1) := Add(s, url, hash, id1);
      Add(s1, url, hash, id2) == (s1, e1)
  {
  }

  /** An entry returned by Add can be looked up under its id. */
  lemma AddThenLookup(s: Store, url: string, hash: string, id: string)
    requires Consistent(s)
    ensures var (s', e) := Add(s, url, hash, id);
      Lookup(s', e.id) == (e, true) && e.hash == hash
  {
  }

  /**
   * An id collision is not detected: adding a new hash under an id that is
   * already used overwrites that entry and leaves the old hash pointing at
   * an entry with another hash.
   */
  lemma IdCollisionBreaksConsistency()
    ensures var s := Store(map["abcdef" := Entry("https://a", "h1", "abcdef")], map["h1" := "abcdef"]);
      && Consistent(s)
      && var s' := Add(s, "https://b", "h2", "abcdef").0;
      && !Consistent(s')
      && s'.ids["h1"] == "abcdef" && s'.entries["abcdef"].hash == "h2"
  {
    var s := Store(map["abcdef" := Entry("https://a", "h1", "abcdef")], map["h1" := "abcdef"]);
    var s' := Add(s, "https://b", "h2", "abcdef").0;
    assert s'.ids["h1"] == "abcdef" && s'.entries["abcdef"].hash == "h2" != "h1";
    assert !(s'.ids["h1"] in s'.entries && s'.entries[s'.ids["h1"]].hash == "h1");
  }

  /** Deleting keeps the indexes consistent. */
  lemma DeletePreservesConsistent(s: Store, id: string)
    requires Consistent(s)
    ensures Consistent(Delete(s, id))
  {
    if id in s.entries {
      var s' := Delete(s, id);
      var h := s.entries[id].hash;
      forall i | i in s'.entries
        ensures s'.entries[i].hash in s'.ids && s'.ids[s'.entries[i].hash] == i
      {
        assert s.ids[s.entries[i].hash] == i != id;
      }
    }
  }

  /**
   * Deleting a present id removes its id key and its hash key, and every
   * other entry stays as it was; deleting an absent id changes nothing.
   */
  lemma DeleteEffect(s: Store, id: string)
    requires Consistent(s)
    ensures id !in s.entries ==> Delete(s, id) == s
    ensures id in s.entries ==>
      var s' := Delete(s, id);
      && id !in s'.entries && s.entries[id].hash !in s'.ids
      && |s'.entries| == |s.entries| - 1 && |s'.ids| == |s.ids| - 1
      && forall j :: j in s.entries && j != id ==> j in s'.entries && s'.entries[j] == s.entries[j]
  {
  }

  /**
   * Every store the backend can reach is keyed by id: the empty store is,
   * and Add and Delete keep it, whatever id Add is given.
   */
  lemma KeyedByIdReachable(s: Store, url: string, hash: string, id: string, gone: string)
    requires KeyedById(s)
    ensures KeyedById(EmptyStore)
    ensures KeyedById(Add(s, url, hash, id).0)
    ensures KeyedById(Delete(s, gone))
  {
  }

  /** Consistent indexes are keyed by id. */
  lemma ConsistentKeyedById(s: Store)
    requires Consistent(s)
    ensures KeyedById(s)
  {
  }

  /** Consistent indexes have the same size. */
  lemma {:induction false} ConsistentSizes(s: Store)
    requires Consistent(s)
    ensures |s.entries| == |s.ids|
    decreases |s.entries|
  {
    if s.entries != map[] {
      var id :| id in s.entries;
      DeletePreservesConsistent(s, id);
      DeleteEffect(s, id);
      ConsistentSizes(Delete(s, id));
    }
  }

  /** The in-memory database: two maps mutated in place. */
  class InMemoryDatabase {
    /** id -> Entry */
    var entries: map<string, Entry>
    /** hash -> id */
    var ids: map<string, string>
    /** The content hash used by AddEntry. */
    const hashOf: Hasher

    function State(): Store
      reads this
    {
      Store(entries, ids)
    }

    /** NewInMemoryDatabase: both maps empty. */
    constructor (hashOf: Hasher)
      ensures entries == map[] && ids == map[] && this.hashOf == hashOf
      ensures Consistent(State())
    {
      entries := map[];
      ids := map[];
      this.hashOf := hashOf;
    }

    /**
     * AddEntry: deduplicates by hash; an unseen hash gets a new entry whose
     * id comes from the random source (`draws`).
     */
    method AddEntry(url: string, draws: seq<Draw>) returns (e: Entry)
      requires ValidDraws(draws)
      modifies this
      ensures (State(), e) == Add(old(State()), url, hashOf(url), IdOf(draws))
      ensures old(Consistent(State())) && (hashOf(url) !in old(ids) ==> IdOf(draws) !in old(entries))
        ==> Consistent(State())
    {
      ghost var s := State();
      var hash := hashOf(url);
      var has := HasURLHash(hash);
      if has {
        var found;
        e, found := GetEntry(ids[hash]);
        return;
      }
      e := GenerateEntry(url, hash, draws);
      entries := entries[e.id := e];
      ids := ids[hash := e.id];
      if Consistent(s) && IdOf(draws) !in s.entries {
        AddPreservesConsistent(s, url, hash, IdOf(draws));
      }
    }

    /**
     * GetEntry: `found` says whether the id is stored; a missing id yields
     * the zero Entry.
     */
    method GetEntry(id: string) returns (e: Entry, found: bool)
      ensures found <==> id in entries
      ensures found ==> e == entries[id]
      ensures !found ==> e == Empty
      ensures Consistent(State()) && found ==> e.id == id && e.hash in ids && ids[e.hash] == id
    {
      found := id in entries;
      e := if found then entries[id] else Empty;
    }

    /** DeleteEntry: removes both mappings of a present id; an absent id is a no-op. */
    method DeleteEntry(id: string)
      modifies this
      ensures State() == Delete(old(State()), id)
      ensures old(Consistent(State())) ==> Consistent(State())
    {
      if id in entries {
        ghost var s := State();
        var entry := entries[id];
        entries := entries - {id};
        ids := ids - {entry.hash};
        if Consistent(s) {
          DeletePreservesConsistent(s, id);
        }
      }
    }

    /** HasURLHash: whether the hash index holds the hash, i.e. whether some stored entry has it. */
    method HasURLHash(hash: string) returns (b: bool)
      ensures b <==> hash in ids
      ensures Consistent(State()) ==> (b <==> exists id :: id in entries && entries[id].hash == hash)
    {
      b := hash in ids;
      if b && Consistent(State()) {
        assert entries[ids[hash]].hash == hash;
      }
    }

    /** CountEntries: the number of stored entries, equal to the size of the hash index. */
    method CountEntries() returns (n: int)
      ensures n == |entries|
      ensures Consistent(State()) ==> n == |ids|
    {
      n := |entries|;
      if Consistent(State()) {
        ConsistentSizes(State());
      }
    }

    /** CountIds: the size of the hash index, equal to the number of entries. */
    method CountIds() returns (n: int)
      ensures n == |ids|
      ensures Consistent(State()) ==> n == |entries|
    {
      n := |ids|;
      if Consistent(State()) {
        ConsistentSizes(State());
      }
    }

    /** Close: clears both maps. */
    method Close()
      modifies this
      ensures entries == map[] && ids == map[]
      ensures Consistent(State())
    {
      entries := map[];
      ids := map[];
    }
  }
}

/**
 * The Redis helper: the commands the Redis backend issues, over an
 * abstract key space, and the Entry <-> field-set conversion. Each
 * command takes `up`, whether the server answered it; an unanswered
 * command changes nothing and returns an error.
 */
module RedisUtil {
  import opened Wrappers
  import opened Strings
  import opened Entries

  /** What a key holds: a plain string or a field-set (a Redis hash). */
  datatype Value = Str(s: string) | Fields(fields: map<string, string>)

  type KeySpace = map<string, Value>

  /**
   * The errors the commands return: `redis.Nil` for a missing key, a
   * WRONGTYPE reply for a key of the other kind, and no answer at all.
   */
  datatype StoreError = Nil | WrongType | Unreachable

  const FieldUrl: string := "url"
  const FieldHash: string := "hash"
  const FieldId: string := "id"

  /** The field-set SetHash writes for an entry. */
  function FieldsOf(e: Entry): map<string, string> {
    map[FieldUrl := e.url, FieldHash := e.hash, FieldId := e.id]
  }

  /** A Go map lookup: a missing field reads as "". */
  function FieldOr(f: map<string, string>, name: string): string {
    if name in f then f[name] else ""
  }

  /** The Entry GetHash rebuilds from a field-set. */
  function EntryOf(f: map<string, string>): Entry {
    Entry(FieldOr(f, FieldUrl), FieldOr(f, FieldHash), FieldOr(f, FieldId))
  }

  /** The field-set round-trips: exactly three fields, and they rebuild the entry. */
  lemma FieldsRoundTrip(e: Entry)
    ensures FieldsOf(e).Keys == {FieldUrl, FieldHash, FieldId}
    ensures EntryOf(FieldsOf(e)) == e
  {
  }

  /** GET: the string at `key`. */
  function GetReply(ks: KeySpace, key: string, up: bool): (string, Option<StoreError>) {
    if !up then ("", Some(Unreachable))
    else if key !in ks then ("", Some(Nil))
    else match ks[key]
      case Str(v) => (v, None)
      case Fields(_) => ("", Some(WrongType))
  }

  /** SET: overwrites `key` with a string, whatever it held. */
  function SetResult(ks: KeySpace, key: string, value: string, up: bool): (KeySpace, Option<StoreError>) {
    if !up then (ks, Some(Unreachable)) else (ks[key := Str(value)], None)
  }

  /** DEL: removes `key`; a missing key is not an error. */
  function DelResult(ks: KeySpace, key: string, up: bool): (KeySpace, Option<StoreError>) {
    if !up then (ks, Some(Unreachable)) else (ks - {key}, None)
  }

  /** HGETALL: the field-set at `key`, empty for a missing key. */
  function HGetAllReply(ks: KeySpace, key: string, up: bool): (map<string, string>, Option<StoreError>) {
    if !up then (map[], Some(Unreachable))
    else if key !in ks then (map[], None)
    else match ks[key]
      case Fields(f) => (f, None)
      case Str(_) => (map[], Some(WrongType))
  }

  /** GetHash: HGETALL, then no fields is `redis.Nil`, else the rebuilt entry. */
  function GetHashReply(ks: KeySpace, key: string, up: bool): (Entry, Option<StoreError>) {
    var (f, err) := HGetAllReply(ks, key, up);
    if err.Some? then (Empty, err)
    else if |f| == 0 then (Empty, Some(Nil))
    else (EntryOf(f), None)
  }

  /** HSET: merges the given fields into the field-set at `key`. */
  function HSetResult(ks: KeySpace, key: string, fields: map<string, string>, up: bool): (KeySpace, Option<StoreError>) {
    if !up then (ks, Some(Unreachable))
    else if key !in ks then (ks[key := Fields(fields)], None)
    else match ks[key]
      case Fields(f) => (ks[key := Fields(f + fields)], None)
      case Str(_) => (ks, Some(WrongType))
  }

  /** SetHash: HSET of the entry's three fields. */
  function SetHashResult(ks: KeySpace, key: string, e: Entry, up: bool): (KeySpace, Option<StoreError>) {
    HSetResult(ks, key, FieldsOf(e), up)
  }

  /** EXISTS: the number of the named keys that exist (0 or 1 here). */
  function ExistsCount(ks: KeySpace, key: string, up: bool): (int, Option<StoreError>) {
    if !up then (0, Some(Unreachable)) else (if key in ks then 1 else 0, None)
  }

  /** Exists: the reported count is positive. */
  function ExistsReply(ks: KeySpace, key: string, up: bool): (bool, Option<StoreError>) {
    var (n, err) := ExistsCount(ks, key, up);
    (n > 0, err)
  }

  /** The keys matched by the glob pattern `prefix*`. */
  function MatchingKeys(ks: KeySpace, prefix: string): set<string> {
    set k | k in ks && HasPrefix(k, prefix)
  }

  /** KEYS `prefix*` then the length of the list; no answer gives an empty list. */
  function CountReply(ks: KeySpace, prefix: string, up: bool): (int, Option<StoreError>) {
    if !up then (0, Some(Unreachable)) else (|MatchingKeys(ks, prefix)|, None)
  }

  /**
   * In a store that answers, GetHash after SetHash on a fresh or field-set
   * key yields the entry, whatever other fields the key held: HSET
   * overrides all three.
   */
  lemma GetHashAfterSetHash(ks: KeySpace, key: string, e: Entry)
    requires key !in ks || ks[key].Fields?
    ensures var (ks', err) := SetHashResult(ks, key, e, true);
      && err == None
      && GetHashReply(ks', key, true) == (e, None)
  {
    var (ks', _) := SetHashResult(ks, key, e, true);
    var m := ks'[key].fields;
    assert m == (if key in ks then ks[key].fields else map[]) + FieldsOf(e);
    assert FieldUrl in m && m[FieldUrl] == e.url;
    assert FieldHash in m && m[FieldHash] == e.hash;
    assert FieldId in m && m[FieldId] == e.id;
    assert EntryOf(m) == e;
    assert |m| > 0 by { assert FieldUrl in m.Keys; }
  }

  /** GetHash on a key with no fields gives the zero Entry and `redis.Nil`. */
  lemma GetHashMissing(ks: KeySpace, key: string)
    requires key !in ks || ks[key] == Fields(map[])
    ensures GetHashReply(ks, key, true) == (Empty, Some(Nil))
  {
  }

  /** GetHash fails with the zero Entry unless the key holds a non-empty field-set. */
  lemma GetHashFailure(ks: KeySpace, key: string, up: bool)
    ensures var (e, err) := GetHashReply(ks, key, up);
      (err == None <==> up && key in ks && ks[key].Fields? && |ks[key].fields| > 0)
      && (err != None ==> e == Empty)
  {
  }

  /** Exists reports true exactly when the server answered and the key is present. */
  lemma ExistsMeaning(ks: KeySpace, key: string, up: bool)
    ensures ExistsReply(ks, key, up).0 <==> up && key in ks
  {
  }

  /** The Redis client's view of the server's key space. */
  class RedisHelper {
    var keys: KeySpace

    /** A helper over a given key space (connection setup is not modelled). */
    constructor (keys: KeySpace)
      ensures this.keys == keys
    {
      this.keys := keys;
    }

    method Get(key: string, up: bool) returns (v: string, err: Option<StoreError>)
      ensures (v, err) == GetReply(keys, key, up)
      ensures err == None <==> up && key in keys && keys[key].Str?
      ensures err == None ==> keys[key] == Str(v)
    {
      if !up {
        return "", Some(Unreachable);
      }
      if key !in keys {
        return "", Some(Nil);
      }
      match keys[key] {
        case Str(s) => v, err := s, None;
        case Fields(_) => v, err := "", Some(WrongType);
      }
    }

    method Set(key: string, value: string, up: bool) returns (err: Option<StoreError>)
      modifies this
      ensures (keys, err) == SetResult(old(keys), key, value, up)
    {
      if !up {
        return Some(Unreachable);
      }
      keys := keys[key := Str(value)];
      err := None;
    }

    method Delete(key: string, up: bool) returns (err: Option<StoreError>)
      modifies this
      ensures (keys, err) == DelResult(old(keys), key, up)
    {
      if !up {
        return Some(Unreachable);
      }
      keys := keys - {key};
      err := None;
    }

    /** GetHash: rebuilds an Entry from the fields `url`, `hash`, `id`. */
    method GetHash(key: string, up: bool) returns (e: Entry, err: Option<StoreError>)
      ensures (e, err) == GetHashReply(keys, key, up)
      ensures err == None ==> keys[key].Fields? && e == EntryOf(keys[key].fields)
      ensures err != None ==> e == Empty
    {
      var (result, hgetErr) := HGetAllReply(keys, key, up);
      if hgetErr.Some? {
        return Empty, hgetErr;
      }
      if |result| == 0 {
        return Empty, Some(Nil);
      }
      e := EntryOf(result);
      err := None;
    }

    /** SetHash: stores exactly the three fields of the entry. */
    method SetHash(key: string, e: Entry, up: bool) returns (err: Option<StoreError>)
      modifies this
      ensures (keys, err) == SetHashResult(old(keys), key, e, up)
    {
      var fields := FieldsOf(e);
      if !up {
        return Some(Unreachable);
      }
      if key !in keys {
        keys := keys[key := Fields(fields)];
        return None;
      }
      match keys[key] {
        case Fields(f) =>
          keys := keys[key := Fields(f + fields)];
          err := None;
        case Str(_) =>
          err := Some(WrongType);
      }
    }

    /** Exists: whether the reported key count is positive. */
    method Exists(key: string, up: bool) returns (b: bool, err: Option<StoreError>)
      ensures (b, err) == ExistsReply(keys, key, up)
      ensures b <==> up && key in keys
    {
      var count: int;
      if !up {
        count, err := 0, Some(Unreachable);
      } else {
        count, err := if key in keys then 1 else 0, None;
      }
      b := count > 0;
    }

    /** CountKeysOfPattern for the pattern `prefix*`: the length of the matching key list. */
    method CountKeysOfPattern(prefix: string, up: bool) returns (n: int, err: Option<StoreError>)
      ensures (n, err) == CountReply(keys, prefix, up)
      ensures up ==> n == |set k | k in keys && HasPrefix(k, prefix)|
    {
      if !up {
        return 0, Some(Unreachable);
      }
      var matching := set k | k in keys && HasPrefix(k, prefix);
      n, err := |matching|, None;
    }
  }
}

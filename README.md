# url-shortener and wc, modelled in Dafny

This project models two programs.

The first is a URL shortener. It hashes a URL and gives it a random
six-symbol short id, and it stores each entry once per hash. The model covers:

- the entry value and its id generator (`Entries`);
- the in-memory backend, whose two maps `entries` (id to Entry) and `ids` (hash to id) are updated in place (`InMem`);
- the Redis backend, which spreads the same deduplication over separate commands on a key space laid out as `id:<id>` (a field-set) and `hash:<hash>` (a string) (`RedisUtil`, `Redis`);
- URL normalisation and short-id validation (`Validation`), with Go's byte length of a string (`Utf8`);
- the HTTP handler's creation path and status decisions (`Handlers`);
- the sequential part of the gRPC entry service: a broadcast queue of capacity 100 with a non-blocking publish, and the list of watchers (`Grpc`).

The second is `wc`. It has four counters over a file's bytes and a flag switch that chooses what a run prints (`Wc`).

Things outside the model enter as parameters:

- The SHA-256 content hash is a function value `Hasher`. It is therefore deterministic and nothing else.
- The random source is a sequence of six draws. Each draw is an index into the alphabet or a failure.
- `url.Parse` is a function value `Parser` that yields a scheme and a host, or an error.
- Each Redis command takes a flag saying whether the server answered it. An unanswered command is taken to have had no effect on the server.
- A watcher's loop turn takes the event it saw.

Five entities are classes whose methods update or read fields: `InMem.InMemoryDatabase`, `Redis.RedisDatabase`, `RedisUtil.RedisHelper`, `Handlers.Handler` and `Grpc.GrpcServer` (with its `Grpc.StreamSubscriber`). Their methods are proved against functions on the state, and the lemmas about those functions carry the properties:

- `InMemoryDatabase.AddEntry`, `GetEntry` and `DeleteEntry` against `InMem.Add`, `Lookup` and `Delete`;
- `RedisDatabase.AddEntry` and `DeleteEntry` against `Redis.AddSpec` and `DeleteSpec`, its `GetEntry` against `RedisUtil.GetHashReply`, `GetIdByHash` against `GetReply` and `CountEntries` against `MatchingKeys`;
- each `RedisHelper` command against its reply function (`GetReply`, `SetResult`, `DelResult`, `GetHashReply`, `SetHashResult`, `ExistsReply`, `CountReply`);
- `Handler.CreateEntry` and `HandleCreateShortURL` against `Handlers.Create`;
- `GrpcServer.AddEntry` against `Handlers.Create` and `Grpc.Offer`; `Unsubscribe`, and `Step` when it ends the watch, against `Grpc.RemoveFirst`.

`GrpcServer.GetEntry`, `Subscribe` and the rest of `Step`, `RedisDatabase.HasURLHash`, and the handler's `HandleRedirect` and `HandleGet` state their results and new state directly in their contracts.

How the model settles points the code leaves open:

- `GetEntry`'s second result is declared as an `error` in `url-shortener/db/database.go:6`, but the handlers and the gRPC server read it as a boolean `found`. The model follows the callers: `found` holds exactly when the id is a key of `entries`.
- The code never checks a generated id against the ids already in use. `InMem.Add` models the overwrite as written. Consistency is proved on the condition that a new hash comes with an unused id. `InMem.IdCollisionBreaksConsistency` shows what happens otherwise.
- A comment in `url-shortener/db/redis/redis.go:15` names the hash keys `has:*`. The code builds `hash:<hash>`, and the model follows the code.
- Every queued gRPC response goes to exactly one watcher loop. All watchers receive from the same channel, so nothing is copied to every watcher.
- `countCharacters` returns `len(string(content))`, which is the byte length. The model counts bytes, as the code does.
- A Dafny string is a sequence of code points, while Go's `len` counts UTF-8 bytes. The short-id bound is therefore stated on `Utf8.ByteLen`.

## Model

| member | source | states |
|---|---|---|
| Entries.AlphabetIsSourceLiteral | url-shortener/db/entry.go:30 | the id alphabet is the literal `a-z A-Z 0-9` |
| Entries.LowerIsLiteral | url-shortener/db/entry.go:30 | the lower-case range is `a` to `z` |
| Entries.UpperIsLiteral | url-shortener/db/entry.go:30 | the upper-case range is `A` to `Z` |
| Entries.DigitsIsLiteral | url-shortener/db/entry.go:30 | the digit range is `0` to `9` |
| Entries.AlphabetSymbol | url-shortener/db/entry.go:30 | the alphabet has 62 symbols; symbol k is alphanumeric and sits at position k |
| Entries.AlphabetDistinct | url-shortener/db/entry.go:30 | the 62 symbols are pairwise distinct |
| Entries.Symbol | url-shortener/db/entry.go:33-39 | every id character is alphanumeric; an answered draw r gives `chars[r]`, a failed draw at position i gives `chars[i % 62]` |
| Entries.AlphabetIndexOfSymbol | url-shortener/db/entry.go:36-38 | every id character is a symbol of the alphabet, at a definite position |
| Entries.IdOf | url-shortener/db/entry.go:29-41 | the id the loop builds from six draws: position i holds the symbol draw i picks; IdShape, AllFailuresGiveFallback and GeneratedIdIsValid are proved about it |
| Entries.IdShape | url-shortener/db/entry.go:28-41 | a generated id has exactly 6 characters, all from the alphabet |
| Entries.AllFailuresGiveFallback | url-shortener/db/entry.go:34-36 | when every draw fails, the id is `abcdef` |
| Entries.GenerateId | url-shortener/db/entry.go:29-42 | the loop fills the 6-slot buffer so that slot i holds the symbol chosen by draw i |
| Entries.GenerateEntry | url-shortener/db/entry.go:44-50 | the URL and the hash are kept verbatim; only the id is generated |
| InMem.Lookup | url-shortener/db/in_mem/in_mem.go:41-43 | GetEntry on the two maps: the stored entry and found, or the zero Entry and not found |
| InMem.Add | url-shortener/db/in_mem/in_mem.go:27-39 | AddEntry on the two maps: a known hash returns its stored entry unchanged, an unseen one stores the new entry under its id and the id under the hash; the Add lemmas below are about it |
| InMem.Delete | url-shortener/db/in_mem/in_mem.go:45-50 | DeleteEntry on the two maps: a stored id loses its entry and its entry's hash, an unknown id changes nothing; DeleteEffect and DeletePreservesConsistent are about it |
| InMem.EmptyIsConsistent | url-shortener/db/in_mem/in_mem.go:20-25 | a new database has two empty maps and is consistent |
| InMem.AddNewHash | url-shortener/db/in_mem/in_mem.go:34-38 | an unseen hash stores `entries[id] = e` and `ids[hash] = id`; the entry count grows by one when the id is fresh |
| InMem.AddKnownHash | url-shortener/db/in_mem/in_mem.go:28-33 | a known hash returns the stored entry with the same id and hash and changes neither map |
| InMem.AddPreservesConsistent | url-shortener/db/in_mem/in_mem.go:27-39 | Add keeps `ids[h] = i` iff `entries[i].hash = h`, provided a new hash comes with an unused id |
| InMem.AddTwice | url-shortener/db/in_mem/in_mem.go:27-39 | adding the same URL again returns the first entry and changes nothing |
| InMem.AddThenLookup | url-shortener/db/in_mem/in_mem.go:27-43 | the entry Add returns can be looked up under its own id |
| InMem.IdCollisionBreaksConsistency | url-shortener/db/in_mem/in_mem.go:34-36 | an id collision overwrites the old entry and leaves its hash pointing at an entry with another hash |
| InMem.DeletePreservesConsistent | url-shortener/db/in_mem/in_mem.go:45-50 | Delete keeps the two maps consistent |
| InMem.DeleteEffect | url-shortener/db/in_mem/in_mem.go:45-50 | a present id loses its id key and its hash key and every other entry stays; an absent id changes nothing |
| InMem.ConsistentSizes | url-shortener/db/in_mem/in_mem.go:57-63 | consistent maps have the same size, so CountEntries equals CountIds |
| InMem.KeyedByIdReachable | url-shortener/db/in_mem/in_mem.go:20-50 | every store the backend can reach keeps each entry under its own id: the new database does, and AddEntry (id collisions included) and DeleteEntry keep it |
| InMem.ConsistentKeyedById | url-shortener/db/in_mem/in_mem.go:27-50 | the two-way consistency of the maps implies that each entry is stored under its own id |
| InMem.InMemoryDatabase.constructor | url-shortener/db/in_mem/in_mem.go:20-25 | NewInMemoryDatabase: both maps empty, consistent |
| InMem.InMemoryDatabase.AddEntry | url-shortener/db/in_mem/in_mem.go:27-39 | the new maps and the entry are `Add` of the old ones; consistency is kept when a new hash gets an unused id |
| InMem.InMemoryDatabase.GetEntry | url-shortener/db/in_mem/in_mem.go:41-43 | found iff the id is stored; a missing id gives the zero Entry; a found entry carries that id |
| InMem.InMemoryDatabase.DeleteEntry | url-shortener/db/in_mem/in_mem.go:45-50 | the new maps are `Delete` of the old ones, and consistency is kept |
| InMem.InMemoryDatabase.HasURLHash | url-shortener/db/in_mem/in_mem.go:52-55 | true iff the hash is a key of `ids`, that is iff some stored entry has that hash |
| InMem.InMemoryDatabase.CountEntries | url-shortener/db/in_mem/in_mem.go:57-59 | the size of `entries`, equal to the size of `ids` when consistent |
| InMem.InMemoryDatabase.CountIds | url-shortener/db/in_mem/in_mem.go:61-63 | the size of `ids`, equal to the size of `entries` when consistent |
| InMem.InMemoryDatabase.Close | url-shortener/db/in_mem/in_mem.go:72-77 | both maps are emptied |
| Validation.NormalizeURL | url-shortener/api/validation.go:41-46 | the result always starts with `http://` or `https://`; a URL with either prefix is kept, any other gets `https://` in front |
| Validation.NormalizeIdempotent | url-shortener/api/validation.go:41-46 | normalising twice is normalising once |
| Validation.NormalizeSchemeless | url-shortener/api/validation.go:41-46 | a schemeless URL and the same URL with `https://` normalise alike |
| Validation.IsValidURL | url-shortener/api/validation.go:22-38 | valid iff non-empty and the parser accepts the prefixed URL with a non-empty scheme and host |
| Validation.Accepts | url-shortener/api/validation.go:32-37 | the test on `url.Parse`'s result: no parse error, and both the scheme and the host are non-empty; IsValidURL's ensures is stated with it |
| Validation.EmptyURLInvalid | url-shortener/api/validation.go:23-25 | the empty URL is never valid |
| Validation.ValiditySchemeless | url-shortener/api/validation.go:27-30 | a schemeless URL is valid iff the same URL with `https://` is |
| Validation.IsValidShortID | url-shortener/api/validation.go:49-60 | valid iff the UTF-8 byte length, the length Go's `len` gives, is 1 to 20; characters are not checked |
| Validation.AsciiShortID | url-shortener/api/validation.go:55 | for an ASCII id the bound is on its characters: valid iff it has 1 to 20 |
| Validation.MultibyteShortID | url-shortener/api/validation.go:55 | an id of only non-ASCII characters with more than 10 of them is rejected |
| Validation.ElevenAccentsRejected | url-shortener/api/validation.go:55 | eleven copies of `é` (11 characters, 22 bytes) are rejected |
| Validation.GeneratedIdIsValid | url-shortener/api/validation.go:55 | every generated id passes the short-id check |
| Handlers.Create | url-shortener/api/handlers.go:99-110 | CreateEntry on the store: an invalid URL is an error with the zero Entry and no change, a valid one is normalised and added; CreateInvalid, CreateValid and the dedup lemmas are about it |
| Handlers.Binds | url-shortener/api/handlers.go:78 | `ShouldBindJSON` into a request whose `url` is `binding:"required"` (url-shortener/api/models.go:5): it succeeds iff the body is JSON with a non-empty `url`; HandleCreateShortURL answers 400 "Invalid request body" exactly when it fails |
| Handlers.CreateInvalid | url-shortener/api/handlers.go:103-105 | an invalid URL gives an error and the zero Entry, and the store is unchanged |
| Handlers.CreateValid | url-shortener/api/handlers.go:107-109 | a valid URL is added in normalised form, so every stored URL keeps an http/https prefix |
| Handlers.CreateSchemelessDedup | url-shortener/api/handlers.go:107-109 | `u` and `https://u` create one entry: the second call returns the first entry and stores nothing |
| Handlers.ExampleComDedup | url-shortener/api/handlers.go:107-109 | `example.com` and `https://example.com` give the same id and hash |
| Handlers.Handler.constructor | url-shortener/api/handlers.go:28-34 | NewHandler keeps the database and the validator's parser |
| Handlers.Handler.CreateEntry | url-shortener/api/handlers.go:99-110 | validate, normalise, AddEntry: the new state, the entry and the error flag are `Create` of the old state |
| Handlers.Handler.HandleRedirect | url-shortener/api/handlers.go:42-56 | 400 for a malformed id, 404 for an unknown id, else 307 to the stored URL |
| Handlers.Handler.HandleGet | url-shortener/api/handlers.go:59-73 | 400 / 404 as for redirect, else 200 with the stored entry's id and URL |
| Handlers.Handler.HandleCreateShortURL | url-shortener/api/handlers.go:76-91 | 400 "Invalid request body" for an unbindable body, 400 "Invalid URL format" on a CreateEntry error, else 200 with the entry |
| RedisUtil.FieldsOf | url-shortener/db/redis/redis_util.go:64-69 | the field-set SetHash writes: `url`, `hash` and `id` with the entry's values; FieldsRoundTrip is about it |
| RedisUtil.EntryOf | url-shortener/db/redis/redis_util.go:53-57 | the Entry GetHash rebuilds, a missing field reading as ""; FieldsRoundTrip is about it |
| RedisUtil.GetReply | url-shortener/db/redis/redis_util.go:27-29 | GET: the string at the key, else Nil for a missing key, WRONGTYPE for a field-set, or no answer |
| RedisUtil.SetResult | url-shortener/db/redis/redis_util.go:31-33 | SET: the key holds the string afterwards, or nothing changes without an answer |
| RedisUtil.DelResult | url-shortener/db/redis/redis_util.go:35-37 | DEL: the key is gone afterwards, or nothing changes without an answer |
| RedisUtil.HGetAllReply | url-shortener/db/redis/redis_util.go:42 | HGETALL: the key's field-set, empty for a missing key, WRONGTYPE for a string |
| RedisUtil.GetHashReply | url-shortener/db/redis/redis_util.go:40-60 | GetHash: HGETALL, Nil on no fields, else the rebuilt entry; GetHashAfterSetHash, GetHashMissing and GetHashFailure are about it |
| RedisUtil.HSetResult | url-shortener/db/redis/redis_util.go:71 | HSET: the fields are merged into the key's field-set, the new values winning, or WRONGTYPE on a string key |
| RedisUtil.SetHashResult | url-shortener/db/redis/redis_util.go:63-72 | SetHash: HSET of the entry's three fields |
| RedisUtil.ExistsCount | url-shortener/db/redis/redis_util.go:76 | EXISTS: 1 when the key is present, else 0 |
| RedisUtil.ExistsReply | url-shortener/db/redis/redis_util.go:75-78 | Exists: the count is positive; ExistsMeaning is about it |
| RedisUtil.MatchingKeys | url-shortener/db/redis/redis_util.go:89 | KEYS `prefix*`: the keys that start with the prefix |
| RedisUtil.CountReply | url-shortener/db/redis/redis_util.go:88-91 | CountKeysOfPattern: the number of matching keys, 0 without an answer |
| RedisUtil.FieldsRoundTrip | url-shortener/db/redis/redis_util.go:53-69 | the field-set has exactly the fields url, hash, id, and rebuilding it gives the entry back |
| RedisUtil.GetHashAfterSetHash | url-shortener/db/redis/redis_util.go:40-72 | in a store that answers, GetHash after SetHash on a fresh or field-set key yields the entry, whatever other fields the key held |
| RedisUtil.GetHashMissing | url-shortener/db/redis/redis_util.go:47-50 | a key with no fields gives the zero Entry and `redis.Nil` |
| RedisUtil.GetHashFailure | url-shortener/db/redis/redis_util.go:40-50 | GetHash succeeds iff the key holds a non-empty field-set and the server answered; on failure the entry is zero |
| RedisUtil.ExistsMeaning | url-shortener/db/redis/redis_util.go:75-78 | Exists is true iff the server answered and the key is present |
| RedisUtil.RedisHelper.constructor | url-shortener/db/redis/redis_util.go:16-25 | a helper over a given key space |
| RedisUtil.RedisHelper.Get | url-shortener/db/redis/redis_util.go:27-29 | GET: the string at the key; an error for a missing key, a field-set, or no answer |
| RedisUtil.RedisHelper.Set | url-shortener/db/redis/redis_util.go:31-33 | SET overwrites the key with the string |
| RedisUtil.RedisHelper.Delete | url-shortener/db/redis/redis_util.go:35-37 | DEL removes the key; a missing key is not an error |
| RedisUtil.RedisHelper.GetHash | url-shortener/db/redis/redis_util.go:40-60 | on success the entry is rebuilt from the key's fields; on error it is the zero Entry |
| RedisUtil.RedisHelper.SetHash | url-shortener/db/redis/redis_util.go:63-72 | HSET merges the entry's three fields into the key |
| RedisUtil.RedisHelper.Exists | url-shortener/db/redis/redis_util.go:75-78 | true iff the reported count is positive, that is iff the key exists |
| RedisUtil.RedisHelper.CountKeysOfPattern | url-shortener/db/redis/redis_util.go:88-91 | the number of keys matching `prefix*` |
| Redis.KeyId | url-shortener/db/redis/redis.go:97-99 | `id:` followed by the id |
| Redis.KeyHash | url-shortener/db/redis/redis.go:93-95 | `hash:` followed by the hash |
| Redis.GenerateKeys | url-shortener/db/redis/redis.go:89-91 | the two keys of an entry never collide, only the id key matches `id:*`, and each carries the id or the hash after its prefix |
| Redis.AddSpec | url-shortener/db/redis/redis.go:26-45 | AddEntry as commands on the key space: EXISTS on the hash key, then GET and GetHash for a known hash, else SetHash of the id key and SET of the hash key, stopping at the first error; AddRefines, AddTwice, AddKnownHash, AddNewHash and ExistsFailureDuplicates are about it |
| Redis.DeleteSpec | url-shortener/db/redis/redis.go:61-73 | DeleteEntry as commands: GetHash of the id key, then DEL of the id key and of the hash key, stopping at the first error; DeleteStoredEntry, DeleteRefines, DeleteUnknown and DeletePartialFailure are about it |
| Redis.KeyNamespacesDisjoint | url-shortener/db/redis/redis.go:93-99 | an id key never equals a hash key; no hash key matches `id:*` |
| Redis.KeyBuildersInjective | url-shortener/db/redis/redis.go:93-99 | each key builder is injective, and every key with its prefix is built by it |
| Redis.RefinesIdKey | url-shortener/db/redis/redis.go:57-59 | in a key space that lays out an in-memory store, `id:<i>` exists iff i is stored, and holds its fields |
| Redis.RefinesHashKey | url-shortener/db/redis/redis.go:52-55 | in such a key space, `hash:<h>` exists iff h is known, and holds its id |
| Redis.EmptyRefines | url-shortener/db/redis/redis.go:20-24 | the empty key space lays out the empty store |
| Redis.RefinesSetId | url-shortener/db/redis/redis.go:37 | writing an id key moves the layout to the store with that entry |
| Redis.RefinesSetHash | url-shortener/db/redis/redis.go:40 | writing a hash key moves the layout to the store with that hash |
| Redis.RefinesDeleteId | url-shortener/db/redis/redis.go:67 | deleting an id key moves the layout to the store without that entry |
| Redis.RefinesDeleteHash | url-shortener/db/redis/redis.go:70 | deleting a hash key moves the layout to the store without that hash |
| Redis.GetRefines | url-shortener/db/redis/redis.go:57-59 | GetEntry on Redis answers what the in-memory lookup answers |
| Redis.AddRefines | url-shortener/db/redis/redis.go:26-45 | with every command answered, Redis AddEntry returns the in-memory entry and lays out the in-memory result |
| Redis.DeleteRefines | url-shortener/db/redis/redis.go:61-73 | with every command answered, Redis DeleteEntry lays out the in-memory result, on every store keyed by id (so also after an id collision) |
| Redis.DeleteStoredEntry | url-shortener/db/redis/redis.go:61-73 | for a stored entry's id: no HGETALL answer or a failed first DEL keeps every key; a failed second DEL removes only the id key; otherwise both keys go |
| Redis.AddTwice | url-shortener/db/redis/redis.go:26-33 | adding the same URL twice on Redis writes nothing the second time and returns the same entry |
| Redis.AddKnownHash | url-shortener/db/redis/redis.go:28-33 | an existing hash key: no write, and the entry read from `id:<value of hash:<h>>` is returned |
| Redis.AddNewHash | url-shortener/db/redis/redis.go:35-44 | a new hash: the id key is written first; if that fails the hash key is not written; the new entry is returned either way |
| Redis.ExistsFailureDuplicates | url-shortener/db/redis/redis.go:47-50 | an unanswered EXISTS counts as unknown, so a stored URL gets a second entry and its hash key is repointed |
| Redis.DeleteUnknown | url-shortener/db/redis/redis.go:62-65 | deleting an unknown id changes nothing, whatever the server answers |
| Redis.DeletePartialFailure | url-shortener/db/redis/redis.go:67-72 | when the second DEL fails, the id key is gone but the hash key stays |
| Redis.CountIgnoresHashKeys | url-shortener/db/redis/redis.go:75-78 | writing or removing a hash key never changes what `id:*` matches |
| Redis.IdKeysSize | url-shortener/db/redis/redis.go:97-99 | distinct ids give distinct id keys, so the key set has the size of the id set |
| Redis.CountRefines | url-shortener/db/redis/redis.go:75-78 | the `id:*` count equals the number of stored entries |
| Redis.RedisDatabase.constructor | url-shortener/db/redis/redis.go:20-24 | a database over a helper and the content hash |
| Redis.RedisDatabase.AddEntry | url-shortener/db/redis/redis.go:26-45 | the new key space and the entry are `AddSpec` of the old key space |
| Redis.RedisDatabase.HasURLHash | url-shortener/db/redis/redis.go:47-50 | true iff the server answered and `hash:<h>` exists |
| Redis.RedisDatabase.GetIdByHash | url-shortener/db/redis/redis.go:52-55 | the string stored at `hash:<h>`, or "" when it is missing or unanswered |
| Redis.RedisDatabase.GetEntry | url-shortener/db/redis/redis.go:57-59 | GetHash of `id:<id>` |
| Redis.RedisDatabase.DeleteEntry | url-shortener/db/redis/redis.go:61-73 | the new key space is `DeleteSpec` of the old one |
| Redis.RedisDatabase.CountEntries | url-shortener/db/redis/redis.go:75-78 | the number of `id:*` keys; 0 when unanswered; positive whenever an id key exists |
| Grpc.Offer | url-shortener/api/grpc.go:57-61 | the non-blocking send on the buffered channel; OfferBounded and OfferThenTake are about it |
| Grpc.NotFoundMessage | url-shortener/api/grpc.go:73 | the InvalidArgument message `Entry not found: <id>` for an unknown id; GetEntry's ensures is stated with it |
| Grpc.OfferBounded | url-shortener/api/grpc.go:57-61 | the send appends at the back when fewer than 100 items are queued, drops the item when full, and never exceeds 100 |
| Grpc.OfferThenTake | url-shortener/api/grpc.go:57-61 | two accepted items sit behind the queue in the order sent |
| Grpc.RemoveFirst | url-shortener/api/grpc.go:93-97 | the subscriber list after the loop that finds the first identical subscriber and splices it out; RemoveFirstAbsent, RemoveFirstAt and RemoveFirstMultiset are about it |
| Grpc.RemoveFirstAbsent | url-shortener/api/grpc.go:93-99 | removing an absent subscriber changes nothing |
| Grpc.RemoveFirstAt | url-shortener/api/grpc.go:93-97 | removal splices out the first identical element and keeps the rest in order |
| Grpc.RemoveFirstMultiset | url-shortener/api/grpc.go:93-97 | removal takes exactly one copy of a present subscriber and keeps every other |
| Grpc.StreamSubscriber.constructor | url-shortener/api/grpc.go:83-86 | a new subscriber has an open `done` and an empty stream |
| Grpc.GrpcServer.constructor | url-shortener/api/grpc.go:37-44 | NewGrpcServer: no subscribers and an empty queue |
| Grpc.GrpcServer.AddEntry | url-shortener/api/grpc.go:46-64 | a CreateEntry error gives InvalidArgument and queues nothing; otherwise `{id, url}` is offered to the queue and returned either way |
| Grpc.GrpcServer.GetEntry | url-shortener/api/grpc.go:66-80 | InvalidArgument "Entry not found: id" for an unknown id, else the entry's id and URL |
| Grpc.GrpcServer.Subscribe | url-shortener/api/grpc.go:82-89 | a new open subscriber is appended at the end of the list; the others are untouched |
| Grpc.GrpcServer.Unsubscribe | url-shortener/api/grpc.go:91-101 | the first identical subscriber is removed and its `done` closed once; an absent one changes nothing |
| Grpc.GrpcServer.Step | url-shortener/api/grpc.go:104-116 | a receive takes the oldest item for this watcher alone; a failed send or a cancelled stream ends the loop and unsubscribes |
| Utf8.RuneLen | url-shortener/api/validation.go:55 | one code point takes 1 to 4 bytes, and exactly 1 when it is ASCII |
| Utf8.EncodeRune | wc/main_test.go:19 | a code point's bytes: the lead byte announces the length (section 3 of RFC 3629), the rest are continuation bytes |
| Utf8.RuneRoundTrip | wc/main_test.go:19 | decoding the bytes of a code point gives the code point back |
| Utf8.Encode | wc/main_test.go:19 | `[]byte(s)`: the UTF-8 bytes of a string, code point by code point; EncodeLength is about it |
| Utf8.ByteLen | url-shortener/api/validation.go:55 | `len(s)` on a Go string: the sum of the byte lengths of its code points |
| Utf8.EncodeLength | wc/main_test.go:19 | the encoding of a string has ByteLen bytes |
| Utf8.ByteLenBounds | url-shortener/api/validation.go:55 | a string has between 1 and 4 bytes per code point, and as many bytes as code points exactly when it is ASCII |
| Utf8.NonAsciiByteLen | url-shortener/api/validation.go:55 | a string of non-ASCII code points has at least two bytes per code point |
| Wc.CountBytes | wc/main.go:19-21 | countBytes: the number of bytes of the content |
| Wc.CountLines | wc/main.go:23-25 | countLines: `strings.Count` of `\n`, as a scan; CountLinesIsNewlineCount and CountLinesAppend are about it |
| Wc.CountWordsFrom | wc/main.go:27-29 | the scan that counts the fields `strings.Fields` splits off, a word starting at each non-space byte after a space or the start; CountWordsIsFieldCount ties it to the field list |
| Wc.CountWords | wc/main.go:27-29 | countWords: the scan from outside a word |
| Wc.Fields | wc/main.go:28 | `strings.Fields`: the maximal runs of non-space bytes in order; FieldsAreWords and FieldsCoverContent are about it, and CountWordsIsFieldCount ties countWords to its length |
| Wc.CountCharacters | wc/main.go:31-33 | countCharacters: `len(string(content))`, the byte length; CharactersAreBytes is about it |
| Wc.CountLinesIsNewlineCount | wc/main.go:23-25 | countLines is the number of newline bytes |
| Wc.CountLinesAppend | wc/main.go:23-25 | the line count of a concatenation is the sum of the counts |
| Wc.NoNewlineNoLines | wc/main.go:23-25 | bytes without a newline count no lines |
| Wc.LinesAtMostBytes | wc/main.go:19-25 | there are never more lines than bytes |
| Wc.CharactersAreBytes | wc/main.go:31-33 | countCharacters equals countBytes for all input |
| Wc.WordAtStart | wc/main.go:27-29 | the leading word is a prefix without whitespace, ended by whitespace or the end of input |
| Wc.FieldsAreWords | wc/main.go:27-29 | every field is a non-empty run without whitespace |
| Wc.FieldsCoverContent | wc/main.go:27-29 | the fields laid end to end are exactly the non-space bytes, in order |
| Wc.NonSpaceOfWord | wc/main.go:27-29 | a run without whitespace keeps all of its bytes when the whitespace is dropped |
| Wc.NonSpaceAppend | wc/main.go:27-29 | dropping whitespace distributes over concatenation |
| Wc.ScanSkipsWord | wc/main.go:27-29 | once inside a word, the rest of that word adds no count |
| Wc.WordCountsOnce | wc/main.go:27-29 | a single non-empty run without whitespace is one word, and the scan ends inside it |
| Wc.CountWordsIsFieldCount | wc/main.go:27-29 | the counting scan gives the number of fields |
| Wc.CountWordsAppend | wc/main.go:27-29 | over a concatenation, a word spanning the seam is counted once |
| Wc.SpacesHaveNoWords | wc/main.go:27-29 | whitespace-only input has no words |
| Wc.SeparatorRunsCollapse | wc/main.go:27-29 | any run of whitespace separates words like a single space |
| Wc.RepeatCounts | wc/main.go:23-29 | repeating n times a block that ends outside a word gives n times its lines and n times its words |
| Wc.HelloLineCounts | wc/main_test.go:40 | `hello world\n` has 1 line and 2 words, and ends outside a word |
| Wc.RepeatedHelloLine | wc/main_test.go:152-164 | `hello world\n` repeated n times has n lines and 2n words |
| Wc.CafeIsFiveBytes | wc/main_test.go:19 | `café` has 4 characters, and its UTF-8 bytes count 5 for countBytes and for countCharacters |
| Wc.ExampleWords | wc/main_test.go:63-65 | each of `hello`, `world` and `test` is one word with no line |
| Wc.LineExamples | wc/main_test.go:38-43 | "" and "hello world" have 0 lines, "hello\nworld\ntest" has 2, "\n\n\n" has 3 |
| Wc.WordExamples | wc/main_test.go:67-68 | "hello   world" has 2 words and "hello\tworld test" has 3 |
| Wc.WhitespaceOnlyExample | wc/main_test.go:166-171 | "   \t\n   " has no words |
| Wc.Report | wc/main.go:75-86 | the numbers one run prints, chosen by the first set flag in the order `-c`, `-l`, `-w`, `-m`; ReportPrecedence and ReportShape are about it |
| Wc.ReportPrecedence | wc/main.go:75-86 | `-c` hides `-l`, `-w` and `-m`; `-l` hides `-w` and `-m`; `-w` hides `-m` |
| Wc.ReportShape | wc/main.go:75-86 | a flag prints one number; no flag prints bytes, newline count and field count, in that order |

## Left out

- The SHA-256 digest and its hex encoding in `Hash` (url-shortener/db/entry.go:22-26) are an arbitrary deterministic function, because they are foreign cryptography.
- `crypto/rand` (url-shortener/db/entry.go:33) is an oracle of six draws, each an index below 62 or a failure.
- `url.Parse` (url-shortener/api/validation.go:32) is an arbitrary parser returning a scheme and a host, or an error.
- The go-redis client is left out: connection setup, `context`, `Close` and `FlushDB`. The server is a map from key strings to values, and each command takes a flag saying whether it was answered.
- An unanswered command is taken to have had no effect on the key space. go-redis also returns an error when a write reached the server and only its reply was lost (a read timeout or a reset connection); that outcome is not modelled, so the failure cases of the three lemmas below hold only for writes that never reached the server.
- `Redis.DeleteStoredEntry`: "a failed first DEL keeps every key" holds only when the failed DEL never reached the server; a DEL whose reply was lost may have removed the id key.
- `Redis.DeletePartialFailure`: "the hash key stays" holds only when the unanswered second DEL never reached the server; if only its reply was lost, the hash key is gone too.
- `Redis.AddNewHash`: "a failed HSET changes nothing" holds only when the HSET never reached the server; if only its reply was lost, the id key is written while the hash key is not.
- `RedisUtil.RedisHelper.CountKeysOfPattern`: only patterns of the form `prefix*` are modelled, because the backend uses no other glob.
- gin routing, JSON binding and `HandleIndex` are left out. A request is either unbindable or carries `url`. `HandleHealthCheck` has a fixed reply and is not modelled.
- `Handlers.Handler` works over the in-memory backend only. Backend selection in the server wiring is not part of this model.
- The gRPC transport is left out: `registerGrpcServer`, `net.Listen`, `stream.Send` and `stream.Context()`. A send's outcome and a cancelled stream enter as the `Event` of a loop turn.
- `Grpc.GrpcServer.Step`: the `select` loop is modelled one turn at a time, with every call atomic. The goroutines, the mutexes and the blocking of an empty receive are not modelled; an empty queue leaves the state unchanged. The `!ok` branch for a closed channel is not modelled, because nothing closes the channel.
- The mutexes `Handler.mu` and `GrpcServer.mu` are left out. The model is sequential.
- The `String()` printing methods are console output only and are left out.
- `wc`'s file handling, flag parsing and printing are left out (wc/main.go:12-17, 35-73). `Wc.Report` returns the numbers a run prints.
- `Wc.CountWordsFrom`: only ASCII whitespace separates words. For input with non-ASCII bytes, `strings.Fields` decodes UTF-8 and also splits at Unicode spaces such as U+00A0, and the model does not do that.
- `Utf8.ByteLen`: strings are sequences of code points, so a Go string holding bytes that are not valid UTF-8 has no counterpart in the model.

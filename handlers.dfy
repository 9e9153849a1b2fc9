/**
 * The HTTP handlers' decisions: the creation path CreateEntry
 * (validate, normalise, AddEntry) and the status each handler chooses.
 * The handler is modelled over the in-memory backend.
 */
module Handlers {
  import opened Wrappers
  import opened Entries
  import opened Strings
  import opened Validation
  import opened InMem

  const StatusOK: int := 200
  const StatusTemporaryRedirect: int := 307
  const StatusBadRequest: int := 400
  const StatusNotFound: int := 404

  /** What a handler writes back: a JSON body or a redirect target. */
  datatype Body =
    | ErrorBody(error: string)
    | EntryBody(id: string, url: string)
    | EntryJson(entry: Entry)
    | RedirectTo(location: string)

  datatype Response = Response(status: int, body: Body)

  /** A create request as the router sees it: a body that does not bind, or the `url` field. */
  datatype Request = Unbindable | Json(url: string)

  /** JSON binding succeeds when the body is well formed and the required `url` is non-empty. */
  predicate Binds(req: Request) {
    req.Json? && req.url != ""
  }

  /**
   * CreateEntry on the store: an invalid URL fails and stores nothing;
   * a valid one is normalised and then added. The result is the new
   * store, the entry and whether an error was returned.
   */
  function Create(s: Store, url: string, hashOf: Hasher, parse: Parser, id: string): (Store, Entry, bool) {
    if !IsValidURL(url, parse) then (s, Empty, true)
    else
      var n := NormalizeURL(url);
      var (s', e) := Add(s, n, hashOf(n), id);
      (s', e, false)
  }

  /** Every stored URL carries an http:// or https:// prefix. */
  ghost predicate AllNormalized(s: Store) {
    forall i :: i in s.entries ==> HasScheme(s.entries[i].url)
  }

  /** An invalid URL gives an error and the zero Entry, and the store is unchanged. */
  lemma CreateInvalid(s: Store, url: string, hashOf: Hasher, parse: Parser, id: string)
    requires !IsValidURL(url, parse)
    ensures Create(s, url, hashOf, parse, id) == (s, Empty, true)
  {
  }

  /**
   * A valid URL is added in its normalised form; when every stored URL is
   * normalised, so is every stored URL afterwards and the returned entry's URL.
   */
  lemma CreateValid(s: Store, url: string, hashOf: Hasher, parse: Parser, id: string)
    requires IsValidURL(url, parse)
    ensures var (s', e, failed) := Create(s, url, hashOf, parse, id);
      && !failed
      && (s', e) == Add(s, NormalizeURL(url), hashOf(NormalizeURL(url)), id)
      && (Consistent(s) && AllNormalized(s) ==> AllNormalized(s') && HasScheme(e.url))
  {
    var n := NormalizeURL(url);
    if Consistent(s) && AllNormalized(s) && hashOf(n) in s.ids {
      AddKnownHash(s, n, hashOf(n), id);
    }
  }

  /**
   * A schemeless URL and the same URL with https:// in front create one
   * entry: the second call returns the first call's entry and stores nothing.
   */
  lemma CreateSchemelessDedup(s: Store, url: string, hashOf: Hasher, parse: Parser, id1: string, id2: string)
    requires Consistent(s)
    requires url != "" && !HasScheme(url)
    ensures var (s1, e1, f1) := Create(s, url, hashOf, parse, id1);
      var (s2, e2, f2) := Create(s1, HttpsScheme + url, hashOf, parse, id2);
      f1 == f2 && (!f1 ==> s2 == s1 && e2 == e1)
  {
    ValiditySchemeless(url, parse);
    NormalizeSchemeless(url);
    var n := HttpsScheme + url;
    AddTwice(s, n, hashOf(n), id1, id2);
  }

  /** The concrete case: "example.com" and "https://example.com" give the same id and hash. */
  lemma ExampleComDedup(s: Store, hashOf: Hasher, parse: Parser, id1: string, id2: string)
    requires Consistent(s)
    ensures var (s1, e1, f1) := Create(s, "example.com", hashOf, parse, id1);
      var (s2, e2, f2) := Create(s1, "https://example.com", hashOf, parse, id2);
      f1 == f2 && (!f1 ==> e2.id == e1.id && e2.hash == e1.hash == hashOf("https://example.com"))
  {
    assert "example.com"[..7][0] == 'e' != HttpScheme[0];
    assert "example.com"[..8][0] == 'e' != HttpsScheme[0];
    assert HttpsScheme + "example.com" == "https://example.com";
    CreateSchemelessDedup(s, "example.com", hashOf, parse, id1, id2);
    assert NormalizeURL("example.com") == "https://example.com";
    if IsValidURL("example.com", parse) {
      AddThenLookup(s, "https://example.com", hashOf("https://example.com"), id1);
    }
  }

  /** The request handler: a database and the URL parser the validator uses. */
  class Handler {
    const db: InMemoryDatabase
    const parse: Parser

    /** NewHandler. */
    constructor (db: InMemoryDatabase, parse: Parser)
      ensures this.db == db && this.parse == parse
    {
      this.db := db;
      this.parse := parse;
    }

    /** CreateEntry: validate, normalise, then AddEntry on the database. */
    method CreateEntry(url: string, draws: seq<Draw>) returns (e: Entry, failed: bool)
      requires ValidDraws(draws)
      modifies db
      ensures (db.State(), e, failed) == Create(old(db.State()), url, db.hashOf, parse, IdOf(draws))
      ensures old(Consistent(db.State())) && (!failed && db.hashOf(NormalizeURL(url)) !in old(db.ids) ==> IdOf(draws) !in old(db.entries))
        ==> Consistent(db.State())
    {
      if !IsValidURL(url, parse) {
        return Empty, true;
      }
      var normalized := NormalizeURL(url);
      e := db.AddEntry(normalized, draws);
      failed := false;
    }

    /** HandleRedirect: 400 for a malformed id (no lookup), 404 for an unknown id, else 307 to the stored URL. */
    method HandleRedirect(id: string) returns (r: Response)
      ensures !IsValidShortID(id) ==> r == Response(StatusBadRequest, ErrorBody("Invalid short ID format"))
      ensures IsValidShortID(id) && id !in db.entries ==> r == Response(StatusNotFound, ErrorBody("Entry not found"))
      ensures IsValidShortID(id) && id in db.entries ==> r == Response(StatusTemporaryRedirect, RedirectTo(db.entries[id].url))
    {
      if !IsValidShortID(id) {
        return Response(StatusBadRequest, ErrorBody("Invalid short ID format"));
      }
      var entry, found := db.GetEntry(id);
      if !found {
        return Response(StatusNotFound, ErrorBody("Entry not found"));
      }
      r := Response(StatusTemporaryRedirect, RedirectTo(entry.url));
    }

    /** HandleGet: the same checks as HandleRedirect; a found id gives 200 with its id and URL. */
    method HandleGet(id: string) returns (r: Response)
      ensures !IsValidShortID(id) ==> r == Response(StatusBadRequest, ErrorBody("Invalid short ID format"))
      ensures IsValidShortID(id) && id !in db.entries ==> r == Response(StatusNotFound, ErrorBody("Entry not found"))
      ensures IsValidShortID(id) && id in db.entries ==>
        r == Response(StatusOK, EntryBody(db.entries[id].id, db.entries[id].url))
      ensures Consistent(db.State()) && r.status == StatusOK ==> r.body.id == id
    {
      if !IsValidShortID(id) {
        return Response(StatusBadRequest, ErrorBody("Invalid short ID format"));
      }
      var entry, found := db.GetEntry(id);
      if !found {
        return Response(StatusNotFound, ErrorBody("Entry not found"));
      }
      r := Response(StatusOK, EntryBody(entry.id, entry.url));
    }

    /**
     * HandleCreateShortURL: a body that does not bind gives 400 "Invalid
     * request body"; a CreateEntry error gives 400 "Invalid URL format";
     * otherwise 200 with the entry.
     */
    method HandleCreateShortURL(req: Request, draws: seq<Draw>) returns (r: Response)
      requires ValidDraws(draws)
      modifies db
      ensures !Binds(req) ==> r == Response(StatusBadRequest, ErrorBody("Invalid request body")) && db.State() == old(db.State())
      ensures Binds(req) ==>
        var (s', e, failed) := Create(old(db.State()), req.url, db.hashOf, parse, IdOf(draws));
        && db.State() == s'
        && r == if failed then Response(StatusBadRequest, ErrorBody("Invalid URL format")) else Response(StatusOK, EntryJson(e))
    {
      if !Binds(req) {
        return Response(StatusBadRequest, ErrorBody("Invalid request body"));
      }
      var entry, failed := CreateEntry(req.url, draws);
      if failed {
        return Response(StatusBadRequest, ErrorBody("Invalid URL format"));
      }
      r := Response(StatusOK, EntryJson(entry));
    }
  }
}

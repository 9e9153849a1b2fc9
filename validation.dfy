/** URL validation and normalisation, and short-id validation (`URLValidator`). */
module Validation {
  import opened Wrappers
  import opened Strings
  import opened Utf8
  import Entries

  const HttpScheme: string := "http://"
  const HttpsScheme: string := "https://"

  /** Longest short id accepted by IsValidShortID. */
  const MaxShortIdLength: nat := 20

  predicate HasScheme(s: string) {
    HasPrefix(s, HttpScheme) || HasPrefix(s, HttpsScheme)
  }

  /** The part of `url.Parse`'s result that IsValidURL inspects. */
  datatype ParsedURL = ParsedURL(scheme: string, host: string)

  /** `url.Parse`, abstracted: a parsed URL, or None when parsing fails. */
  type Parser = string -> Option<ParsedURL>

  /** A parse result IsValidURL accepts: no error, a scheme and a host. */
  predicate Accepts(p: Option<ParsedURL>) {
    p.Some? && p.value.scheme != "" && p.value.host != ""
  }

  /**
   * NormalizeURL: a URL with an http:// or https:// prefix is kept, any
   * other string gets https:// in front; the result always has a scheme.
   */
  function NormalizeURL(s: string): (r: string)
    ensures HasScheme(r)
    ensures HasScheme(s) ==> r == s
    ensures !HasScheme(s) ==> r == HttpsScheme + s
  {
    if HasPrefix(s, HttpScheme) || HasPrefix(s, HttpsScheme) then s
    else
      PrefixedHasPrefix(HttpsScheme, s);
      HttpsScheme + s
  }

  /** Normalising twice is normalising once. */
  lemma NormalizeIdempotent(s: string)
    ensures NormalizeURL(NormalizeURL(s)) == NormalizeURL(s)
  {
  }

  /** A schemeless URL and the same URL with https:// in front normalise to the same string. */
  lemma NormalizeSchemeless(s: string)
    requires !HasScheme(s)
    ensures NormalizeURL(s) == NormalizeURL(HttpsScheme + s) == HttpsScheme + s
  {
  }

  /**
   * IsValidURL: the empty string is rejected; otherwise the string, with
   * https:// added when it has no scheme, must parse with a non-empty
   * scheme and host. The added prefix is exactly NormalizeURL's.
   */
  predicate IsValidURL(s: string, parse: Parser)
    ensures IsValidURL(s, parse) <==> s != "" && Accepts(parse(NormalizeURL(s)))
  {
    if s == "" then false
    else
      var withScheme := if !HasPrefix(s, HttpScheme) && !HasPrefix(s, HttpsScheme) then HttpsScheme + s else s;
      match parse(withScheme)
      case None => false
      case Some(p) => p.scheme != "" && p.host != ""
  }

  /** The empty string is never a valid URL, whatever the parser says. */
  lemma EmptyURLInvalid(parse: Parser)
    ensures !IsValidURL("", parse)
  {
  }

  /** A non-empty schemeless URL is valid exactly when it is valid with https:// in front. */
  lemma ValiditySchemeless(s: string, parse: Parser)
    requires s != "" && !HasScheme(s)
    ensures IsValidURL(s, parse) <==> IsValidURL(HttpsScheme + s, parse)
  {
    NormalizeSchemeless(s);
  }

  /**
   * IsValidShortID: only the length is checked, in bytes as Go's `len`
   * counts (1 to 20); the characters themselves are not, whatever the
   * comment says.
   */
  predicate IsValidShortID(id: string)
    ensures IsValidShortID(id) <==> 1 <= ByteLen(id) <= MaxShortIdLength
  {
    if id == "" then false
    else if ByteLen(id) < 1 || ByteLen(id) > MaxShortIdLength then false
    else true
  }

  /** For an ASCII id the byte bound is a bound on its characters. */
  lemma AsciiShortID(id: string)
    requires forall i :: 0 <= i < |id| ==> id[i] as int < 0x80
    ensures IsValidShortID(id) <==> 1 <= |id| <= MaxShortIdLength
  {
    ByteLenBounds(id);
  }

  /**
   * An id made only of non-ASCII characters takes two bytes or more per
   * character, so one of more than 10 characters is rejected.
   */
  lemma MultibyteShortID(id: string)
    requires forall i :: 0 <= i < |id| ==> id[i] as int >= 0x80
    ensures |id| > MaxShortIdLength / 2 ==> !IsValidShortID(id)
  {
    NonAsciiByteLen(id);
  }

  /** Eleven copies of `é` are 11 characters but 22 bytes, and are rejected. */
  lemma ElevenAccentsRejected()
    ensures |"ééééééééééé"| == 11 && !IsValidShortID("ééééééééééé")
  {
    var e := "ééééééééééé";
    assert forall i :: 0 <= i < |e| ==> e[i] as int >= 0x80;
    MultibyteShortID(e);
  }

  /** Every id the generator produces is a valid short id. */
  lemma GeneratedIdIsValid(draws: seq<Entries.Draw>)
    requires Entries.ValidDraws(draws)
    ensures IsValidShortID(Entries.IdOf(draws))
  {
    Entries.IdShape(draws);
    AsciiShortID(Entries.IdOf(draws));
  }
}

/**
 * The entry value object of the URL shortener (package `common`):
 * the stored (url, hash, id) triple, the content hash and the
 * random short-id generator.
 */
module Entries {
  import opened Wrappers

  /** A stored mapping from a short id to a URL, with the URL's content hash. */
  datatype Entry = Entry(url: string, hash: string, id: string)

  /** Go's zero value `Entry{}`: every field empty. */
  const Empty := Entry("", "", "")

  /**
   * The content hash of a URL. The source uses the hex SHA-256 digest; the
   * model treats it as an arbitrary function, so the only thing known about it
   * is that it is deterministic, which holds of every Dafny function value.
   */
  type Hasher = string -> string

  /** The `n` consecutive characters starting at `first`. */
  function Range(first: char, n: nat): (r: string)
    requires first as int + n <= 128
    ensures |r| == n && forall i :: 0 <= i < n ==> r[i] as int == first as int + i
  {
    seq(n, i requires 0 <= i < n => (first as int + i) as char)
  }

  /** The 62-symbol alphabet of short ids, written as its three ranges. */
  const Lower: string := Range('a', 26)
  const Upper: string := Range('A', 26)
  const Digits: string := Range('0', 10)
  const Chars: string := Lower + Upper + Digits

  /** Number of symbols in a generated id. */
  const IdLength: nat := 6

  predicate IsAlphanumeric(c: char) {
    'a' <= c <= 'z' || 'A' <= c <= 'Z' || '0' <= c <= '9'
  }

  /** The position an alphanumeric character has in `Chars`. */
  function AlphabetIndex(c: char): int {
    if 'a' <= c <= 'z' then c as int - 'a' as int
    else if 'A' <= c <= 'Z' then c as int - 'A' as int + 26
    else c as int - '0' as int + 52
  }

  /** The three ranges spell exactly the alphabet literal of the source. */
  lemma AlphabetIsSourceLiteral()
    ensures Chars == "abcdefghijklmnopqrstuvwxyz" + "ABCDEFGHIJKLMNOPQRSTUVWXYZ" + "0123456789"
  {
    LowerIsLiteral();
    UpperIsLiteral();
    DigitsIsLiteral();
  }

  lemma LowerIsLiteral()
    ensures Lower == "abcdefghijklmnopqrstuvwxyz"
  {
    assert Lower[..13] == "abcdefghijklm";
    assert Lower[13..] == "nopqrstuvwxyz";
    assert Lower == Lower[..13] + Lower[13..];
  }

  lemma UpperIsLiteral()
    ensures Upper == "ABCDEFGHIJKLMNOPQRSTUVWXYZ"
  {
    assert Upper[..13] == "ABCDEFGHIJKLM";
    assert Upper[13..] == "NOPQRSTUVWXYZ";
    assert Upper == Upper[..13] + Upper[13..];
  }

  lemma DigitsIsLiteral()
    ensures Digits == "0123456789"
  {
  }

  /** Every symbol of the alphabet is alphanumeric and sits at its own index. */
  lemma AlphabetSymbol(k: nat)
    requires k < |Chars|
    ensures |Chars| == 62
    ensures IsAlphanumeric(Chars[k]) && AlphabetIndex(Chars[k]) == k
  {
    assert |Lower| == 26 && |Upper| == 26;
  }

  /** The alphabet has 62 pairwise-distinct symbols. */
  lemma AlphabetDistinct()
    ensures |Chars| == 62
    ensures forall k, j :: 0 <= k < j < |Chars| ==> Chars[k] != Chars[j]
  {
    forall k | 0 <= k < |Chars| ensures AlphabetIndex(Chars[k]) == k {
      AlphabetSymbol(k);
    }
  }

  /**
   * One answer of the random source: `Some(i)` is a uniform index below
   * |Chars|, `None` means the source failed.
   */
  type Draw = Option<nat>

  /** What the random source can answer for the six positions of one id. */
  predicate ValidDraws(draws: seq<Draw>) {
    |draws| == IdLength &&
    forall k :: 0 <= k < |draws| && draws[k].Some? ==> draws[k].value < |Chars|
  }

  /** The symbol placed at position `i` once the source answered `draw`. */
  function Symbol(draw: Draw, i: nat): (c: char)
    requires draw.Some? ==> draw.value < |Chars|
    ensures IsAlphanumeric(c)
    ensures draw.Some? ==> c == Chars[draw.value]
    ensures draw.None? ==> c == Chars[i % 62]
  {
    var k := match draw case Some(r) => r case None => i % |Chars|;
    AlphabetSymbol(k);
    Chars[k]
  }

  /** The id built from six answers of the source. */
  function IdOf(draws: seq<Draw>): (id: string)
    requires ValidDraws(draws)
  {
    seq(IdLength, k requires 0 <= k < IdLength => Symbol(draws[k], k))
  }

  /** A generated id has six symbols, all from the alphabet. */
  lemma IdShape(draws: seq<Draw>)
    requires ValidDraws(draws)
    ensures |IdOf(draws)| == 6
    ensures forall k :: 0 <= k < |IdOf(draws)| ==> IsAlphanumeric(IdOf(draws)[k]) && IdOf(draws)[k] in Chars
  {
    var id := IdOf(draws);
    forall k | 0 <= k < |id| ensures id[k] in Chars {
      AlphabetSymbol(AlphabetIndexOfSymbol(draws[k], k));
    }
  }

  /** Index in `Chars` of the symbol chosen at position `i`. */
  function AlphabetIndexOfSymbol(draw: Draw, i: nat): (k: nat)
    requires draw.Some? ==> draw.value < |Chars|
    ensures k < |Chars| && Chars[k] == Symbol(draw, i)
  {
    match draw case Some(r) => r case None => i % |Chars|
  }

  /** When the random source fails at every position the id is "abcdef". */
  lemma AllFailuresGiveFallback(draws: seq<Draw>)
    requires |draws| == IdLength && forall k :: 0 <= k < |draws| ==> draws[k].None?
    ensures ValidDraws(draws) && IdOf(draws) == "abcdef"
  {
    var id := IdOf(draws);
    assert id[0] == Chars[0] == 'a' && id[1] == Chars[1] == 'b' && id[2] == Chars[2] == 'c';
    assert id[3] == Chars[3] == 'd' && id[4] == Chars[4] == 'e' && id[5] == Chars[5] == 'f';
  }

  /**
   * GenerateId: fills a six-symbol buffer, drawing each symbol from the
   * random source and falling back to `Chars[i % 62]` when the source fails.
   */
  method GenerateId(draws: seq<Draw>) returns (id: string)
    requires ValidDraws(draws)
    ensures id == IdOf(draws)
  {
    var buf := new char[IdLength];
    for i := 0 to IdLength
      invariant forall k :: 0 <= k < i ==> buf[k] == Symbol(draws[k], k)
    {
      buf[i] := Symbol(draws[i], i);
    }
    id := buf[..];
    assert forall k :: 0 <= k < IdLength ==> id[k] == IdOf(draws)[k];
  }

  /** GenerateEntry: keeps the URL and hash as given and mints a fresh id. */
  method GenerateEntry(url: string, hash: string, draws: seq<Draw>) returns (e: Entry)
    requires ValidDraws(draws)
    ensures e.url == url && e.hash == hash && e.id == IdOf(draws)
  {
    var id := GenerateId(draws);
    e := Entry(url, hash, id);
  }
}

/**
 * The counters of the `wc` tool over a file's raw bytes, and the choice
 * of what one run reports from its flags.
 */
module Wc {
  import opened Utf8

  const Newline: byte := 10

  /** The ASCII whitespace `strings.Fields` splits at: tab, newline, vertical tab, form feed, carriage return, space. */
  predicate IsSpace(b: byte) {
    b == 9 || b == 10 || b == 11 || b == 12 || b == 13 || b == 32
  }

  /** countBytes: the length of the content. */
  function CountBytes(c: seq<byte>): nat {
    |c|
  }

  /** countLines: the number of newline bytes (a last line without one is not counted). */
  function CountLines(c: seq<byte>): nat
    decreases |c|
  {
    if c == [] then 0
    else (if c[0] == Newline then 1 else 0) + CountLines(c[1..])
  }

  /**
   * The scan `strings.Fields` makes to count its fields: a field starts at
   * every non-space byte that follows a space or the start of the input.
   * `inWord` says whether the byte before `c` was a non-space byte.
   */
  function CountWordsFrom(c: seq<byte>, inWord: bool): nat
    decreases |c|
  {
    if c == [] then 0
    else if IsSpace(c[0]) then CountWordsFrom(c[1..], false)
    else (if inWord then 0 else 1) + CountWordsFrom(c[1..], true)
  }

  /** countWords: the number of fields of the content. */
  function CountWords(c: seq<byte>): nat {
    CountWordsFrom(c, false)
  }

  /** countCharacters: `len(string(content))`, which is the byte length. */
  function CountCharacters(c: seq<byte>): nat {
    |c|
  }

  /** The leading run of non-space bytes. */
  function WordAtStart(c: seq<byte>): (w: seq<byte>)
    ensures w <= c
    ensures forall i :: 0 <= i < |w| ==> !IsSpace(w[i])
    ensures |w| < |c| ==> IsSpace(c[|w|])
    decreases |c|
  {
    if c == [] || IsSpace(c[0]) then [] else [c[0]] + WordAtStart(c[1..])
  }

  /**
   * The fields themselves, as `strings.Fields` returns them: skip the
   * spaces, take the maximal run of non-space bytes, repeat.
   */
  function Fields(c: seq<byte>): (fs: seq<seq<byte>>)
    decreases |c|
  {
    if c == [] then []
    else if IsSpace(c[0]) then Fields(c[1..])
    else
      var w := WordAtStart(c);
      [w] + Fields(c[|w|..])
  }

  /** The bytes of a list of fields, laid end to end. */
  function Concat(fs: seq<seq<byte>>): seq<byte> {
    if fs == [] then [] else fs[0] + Concat(fs[1..])
  }

  /** The non-space bytes of the content, in order. */
  function NonSpace(c: seq<byte>): seq<byte>
    decreases |c|
  {
    if c == [] then [] else (if IsSpace(c[0]) then [] else [c[0]]) + NonSpace(c[1..])
  }

  /** Every field is a non-empty run without whitespace. */
  lemma {:induction false} FieldsAreWords(c: seq<byte>)
    ensures forall k :: 0 <= k < |Fields(c)| ==> |Fields(c)[k]| > 0
    ensures forall k, i :: 0 <= k < |Fields(c)| && 0 <= i < |Fields(c)[k]| ==> !IsSpace(Fields(c)[k][i])
    decreases |c|
  {
    if c != [] {
      if IsSpace(c[0]) {
        FieldsAreWords(c[1..]);
      } else {
        var w := WordAtStart(c);
        assert w[0] == c[0];
        FieldsAreWords(c[|w|..]);
      }
    }
  }

  /** The non-space bytes of a word are the word. */
  lemma {:induction false} NonSpaceOfWord(w: seq<byte>)
    requires forall i :: 0 <= i < |w| ==> !IsSpace(w[i])
    ensures NonSpace(w) == w
    decreases |w|
  {
    if w != [] {
      NonSpaceOfWord(w[1..]);
      assert w == [w[0]] + w[1..];
    }
  }

  lemma {:induction false} NonSpaceAppend(a: seq<byte>, b: seq<byte>)
    ensures NonSpace(a + b) == NonSpace(a) + NonSpace(b)
    decreases |a|
  {
    if a != [] {
      assert (a + b)[0] == a[0] && (a + b)[1..] == a[1..] + b;
      NonSpaceAppend(a[1..], b);
    } else {
      assert a + b == b;
    }
  }

  /** The fields hold exactly the non-space bytes of the content: nothing is lost or added. */
  lemma {:induction false} FieldsCoverContent(c: seq<byte>)
    ensures Concat(Fields(c)) == NonSpace(c)
    decreases |c|
  {
    if c != [] {
      if IsSpace(c[0]) {
        FieldsCoverContent(c[1..]);
      } else {
        var w := WordAtStart(c);
        assert c == w + c[|w|..];
        FieldsCoverContent(c[|w|..]);
        NonSpaceAppend(w, c[|w|..]);
        NonSpaceOfWord(w);
        assert ([w] + Fields(c[|w|..]))[1..] == Fields(c[|w|..]);
      }
    }
  }

  /** Inside a word the scan adds nothing until the word ends. */
  lemma {:induction false} ScanSkipsWord(w: seq<byte>, rest: seq<byte>)
    requires forall i :: 0 <= i < |w| ==> !IsSpace(w[i])
    ensures CountWordsFrom(w + rest, true) == CountWordsFrom(rest, true)
    decreases |w|
  {
    if w != [] {
      assert (w + rest)[0] == w[0] && (w + rest)[1..] == w[1..] + rest;
      ScanSkipsWord(w[1..], rest);
    } else {
      assert w + rest == rest;
    }
  }

  /** The counting scan and the field list agree: countWords is the number of fields. */
  lemma {:induction false} CountWordsIsFieldCount(c: seq<byte>)
    ensures CountWords(c) == |Fields(c)|
    decreases |c|
  {
    if c != [] {
      if IsSpace(c[0]) {
        CountWordsIsFieldCount(c[1..]);
      } else {
        var w := WordAtStart(c);
        var rest := c[|w|..];
        assert c == w + rest;
        assert w[0] == c[0];
        ScanSkipsWord(w[1..], rest);
        assert c[1..] == w[1..] + rest;
        if rest != [] {
          assert CountWordsFrom(rest, true) == CountWordsFrom(rest, false);
        }
        CountWordsIsFieldCount(rest);
      }
    }
  }

  /** Counting lines is additive over concatenation. */
  lemma {:induction false} CountLinesAppend(a: seq<byte>, b: seq<byte>)
    ensures CountLines(a + b) == CountLines(a) + CountLines(b)
    decreases |a|
  {
    if a != [] {
      assert (a + b)[0] == a[0] && (a + b)[1..] == a[1..] + b;
      CountLinesAppend(a[1..], b);
    } else {
      assert a + b == b;
    }
  }

  /** countLines is exactly the number of occurrences of the newline byte. */
  lemma {:induction false} CountLinesIsNewlineCount(c: seq<byte>)
    ensures CountLines(c) == multiset(c)[Newline]
    decreases |c|
  {
    if c != [] {
      assert c == [c[0]] + c[1..];
      CountLinesIsNewlineCount(c[1..]);
    }
  }

  /** No more lines than bytes. */
  lemma {:induction false} LinesAtMostBytes(c: seq<byte>)
    ensures CountLines(c) <= CountBytes(c)
    decreases |c|
  {
    if c != [] {
      LinesAtMostBytes(c[1..]);
    }
  }

  /** countCharacters counts bytes, not decoded characters. */
  lemma CharactersAreBytes(c: seq<byte>)
    ensures CountCharacters(c) == CountBytes(c)
  {
  }

  /** Whether the scan is inside a word after reading `c`. */
  function EndsInWord(c: seq<byte>, inWord: bool): bool {
    if c == [] then inWord else !IsSpace(c[|c| - 1])
  }

  /**
   * The scan over a concatenation: the second part is scanned in the
   * state the first part ends in, so a word that spans the seam counts once.
   */
  lemma {:induction false} CountWordsAppend(a: seq<byte>, b: seq<byte>, inWord: bool)
    ensures CountWordsFrom(a + b, inWord) == CountWordsFrom(a, inWord) + CountWordsFrom(b, EndsInWord(a, inWord))
    decreases |a|
  {
    if a != [] {
      assert (a + b)[0] == a[0] && (a + b)[1..] == a[1..] + b;
      CountWordsAppend(a[1..], b, !IsSpace(a[0]));
      if |a| > 1 {
        assert a[1..][|a| - 2] == a[|a| - 1];
      }
    } else {
      assert a + b == b;
    }
  }

  /** Whitespace only: no words. */
  lemma {:induction false} SpacesHaveNoWords(c: seq<byte>, inWord: bool)
    requires forall i :: 0 <= i < |c| ==> IsSpace(c[i])
    ensures CountWordsFrom(c, inWord) == 0
    decreases |c|
  {
    if c != [] {
      SpacesHaveNoWords(c[1..], false);
    }
  }

  /** A run of separators separates once: any non-empty run of whitespace counts as a single space. */
  lemma SeparatorRunsCollapse(a: seq<byte>, sep: seq<byte>, b: seq<byte>)
    requires |sep| > 0 && forall i :: 0 <= i < |sep| ==> IsSpace(sep[i])
    ensures CountWords(a + sep + b) == CountWords(a + [32] + b)
  {
    CountWordsAppend(a + sep, b, false);
    CountWordsAppend(a, sep, false);
    CountWordsAppend(a + [32], b, false);
    CountWordsAppend(a, [32], false);
    SpacesHaveNoWords(sep, EndsInWord(a, false));
    SpacesHaveNoWords([32], EndsInWord(a, false));
    assert (a + sep)[|a + sep| - 1] == sep[|sep| - 1];
  }

  /** A single run of non-space bytes is one word, and the scan ends inside it. */
  lemma WordCountsOnce(w: seq<byte>)
    requires |w| > 0 && forall i :: 0 <= i < |w| ==> !IsSpace(w[i])
    ensures CountWordsFrom(w, false) == 1 && EndsInWord(w, false)
  {
    ScanSkipsWord(w[1..], []);
    assert w[1..] + [] == w[1..];
  }

  /** Bytes without a newline have no lines. */
  lemma NoNewlineNoLines(c: seq<byte>)
    requires forall i :: 0 <= i < |c| ==> c[i] != Newline
    ensures CountLines(c) == 0
  {
    CountLinesIsNewlineCount(c);
    assert Newline !in multiset(c);
  }

  /** `strings.Repeat(s, n)`. */
  function Repeat(s: seq<byte>, n: nat): (r: seq<byte>)
    ensures |r| == |s| * n
  {
    if n == 0 then [] else s + Repeat(s, n - 1)
  }

  /** "hello", "world" and "test". */
  const Hello: seq<byte> := [104, 101, 108, 108, 111]
  const World: seq<byte> := [119, 111, 114, 108, 100]
  const Test: seq<byte> := [116, 101, 115, 116]

  /** Each of "hello", "world" and "test" is one word on no line. */
  lemma ExampleWords()
    ensures CountWords(Hello) == 1 && CountWords(World) == 1 && CountWords(Test) == 1
    ensures EndsInWord(Hello, false) && EndsInWord(World, false) && EndsInWord(Test, false)
    ensures CountLines(Hello) == 0 && CountLines(World) == 0 && CountLines(Test) == 0
  {
    WordCountsOnce(Hello);
    WordCountsOnce(World);
    WordCountsOnce(Test);
    NoNewlineNoLines(Hello);
    NoNewlineNoLines(World);
    NoNewlineNoLines(Test);
  }

  /** "hello world\n" */
  function HelloLine(): seq<byte> {
    Hello + [32] + World + [10]
  }

  lemma HelloLineCounts()
    ensures CountLines(HelloLine()) == 1 && CountWords(HelloLine()) == 2
    ensures !EndsInWord(HelloLine(), false)
  {
    ExampleWords();
    CountLinesAppend(Hello, [32]);
    CountLinesAppend(Hello + [32], World);
    CountLinesAppend(Hello + [32] + World, [10]);
    CountWordsAppend(Hello, [32], false);
    CountWordsAppend(Hello + [32], World, false);
    CountWordsAppend(Hello + [32] + World, [10], false);
  }

  /**
   * Repeating a block that ends outside a word multiplies its line and word
   * counts: no word runs across two copies.
   */
  lemma {:induction false} RepeatCounts(s: seq<byte>, n: nat)
    requires !EndsInWord(s, false)
    ensures CountLines(Repeat(s, n)) == n * CountLines(s)
    ensures CountWords(Repeat(s, n)) == n * CountWords(s)
  {
    if n > 0 {
      RepeatCounts(s, n - 1);
      CountLinesAppend(s, Repeat(s, n - 1));
      CountWordsAppend(s, Repeat(s, n - 1), false);
      assert n * CountLines(s) == CountLines(s) + (n - 1) * CountLines(s);
      assert n * CountWords(s) == CountWords(s) + (n - 1) * CountWords(s);
    }
  }

  /** "hello world\n" repeated n times has n lines and 2n words. */
  lemma RepeatedHelloLine(n: nat)
    ensures CountLines(Repeat(HelloLine(), n)) == n
    ensures CountWords(Repeat(HelloLine(), n)) == 2 * n
  {
    HelloLineCounts();
    RepeatCounts(HelloLine(), n);
  }

  /**
   * countBytes on `[]byte("café")`: four characters, the accented one
   * encoded in two bytes, give five bytes, and countCharacters agrees.
   */
  lemma CafeIsFiveBytes()
    ensures |"café"| == 4
    ensures CountBytes(Encode("café")) == 5 && CountCharacters(Encode("café")) == 5
  {
    EncodeLength("café");
    assert ByteLen("é") == 2;
  }

  /** countLines on "", "hello world", "hello\nworld\ntest", "\n\n\n". */
  lemma LineExamples()
    ensures CountLines([]) == 0
    ensures CountLines(Hello + [32] + World) == 0
    ensures CountLines(Hello + [10] + World + [10] + Test) == 2
    ensures CountLines([10, 10, 10]) == 3
  {
    ExampleWords();
    CountLinesAppend(Hello, [32]);
    CountLinesAppend(Hello + [32], World);
    CountLinesAppend(Hello, [10]);
    CountLinesAppend(Hello + [10], World);
    CountLinesAppend(Hello + [10] + World, [10]);
    CountLinesAppend(Hello + [10] + World + [10], Test);
  }

  /** countWords on "hello   world" and "hello\tworld test". */
  lemma WordExamples()
    ensures CountWords(Hello + [32, 32, 32] + World) == 2
    ensures CountWords(Hello + [9] + World + [32] + Test) == 3
  {
    ExampleWords();
    CountWordsAppend(Hello, [32, 32, 32], false);
    CountWordsAppend(Hello + [32, 32, 32], World, false);
    CountWordsAppend(Hello, [9], false);
    CountWordsAppend(Hello + [9], World, false);
    CountWordsAppend(Hello + [9] + World, [32], false);
    CountWordsAppend(Hello + [9] + World + [32], Test, false);
  }

  /** countWords on the whitespace-only "   \t\n   ". */
  lemma WhitespaceOnlyExample()
    ensures CountWords([32, 32, 32, 9, 10, 32, 32, 32]) == 0
  {
  }

  /** The `-c`, `-l`, `-w` and `-m` flags. */
  datatype Flags = Flags(bytes: bool, lines: bool, words: bool, chars: bool)

  /**
   * The numbers one run prints: the first set flag in the order
   * `-c`, `-l`, `-w`, `-m` picks one counter; no flag prints bytes,
   * lines and words.
   */
  function Report(flags: Flags, c: seq<byte>): (r: seq<nat>) {
    if flags.bytes then [CountBytes(c)]
    else if flags.lines then [CountLines(c)]
    else if flags.words then [CountWords(c)]
    else if flags.chars then [CountCharacters(c)]
    else [CountBytes(c), CountLines(c), CountWords(c)]
  }

  /** A set flag hides every flag after it. */
  lemma ReportPrecedence(flags: Flags, c: seq<byte>)
    ensures flags.bytes ==> Report(flags, c) == Report(Flags(true, false, false, false), c)
    ensures !flags.bytes && flags.lines ==> Report(flags, c) == Report(Flags(false, true, false, false), c)
    ensures !flags.bytes && !flags.lines && flags.words ==> Report(flags, c) == Report(Flags(false, false, true, false), c)
  {
  }

  /** One flag prints one number, and no flag prints three. */
  lemma ReportShape(flags: Flags, c: seq<byte>)
    ensures |Report(flags, c)| == if flags.bytes || flags.lines || flags.words || flags.chars then 1 else 3
    ensures flags == Flags(false, false, false, false) ==>
      Report(flags, c) == [|c|, multiset(c)[Newline], |Fields(c)|]
  {
    CountLinesIsNewlineCount(c);
    CountWordsIsFieldCount(c);
  }
}

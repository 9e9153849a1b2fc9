/** Optional values, used for the random source's draws and for lookups that may fail. */
module Wrappers {
  datatype Option<+T> = None | Some(value: T)
}

/** Go's `strings.HasPrefix` on Dafny strings. */
module Strings {
  predicate HasPrefix(s: string, prefix: string) {
    |prefix| <= |s| && s[..|prefix|] == prefix
  }

  lemma PrefixedHasPrefix(prefix: string, s: string)
    ensures HasPrefix(prefix + s, prefix)
  {
    assert (prefix + s)[..|prefix|] == prefix;
  }
}

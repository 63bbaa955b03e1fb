/** Text helpers shared by the modules that read identifiers. */
module Text {
  predicate StartsWith(s: string, prefix: string) {
    |prefix| <= |s| && s[..|prefix|] == prefix
  }
}

/** Trimming of strings. */
module Whitespace {
  /** White space of `str.strip`, within the first 256 code points. */
  predicate Strippable(c: char) {
    '\t' <= c <= '\r' || 28 <= c as int <= 32 || c as int == 0x85 || c as int == 0xA0
  }

  function StripLeft(s: string): string {
    if s != [] && Strippable(s[0]) then StripLeft(s[1..]) else s
  }

  function StripRight(s: string): string {
    if s != [] && Strippable(s[|s| - 1]) then StripRight(s[..|s| - 1]) else s
  }

  function Strip(s: string): string {
    StripRight(StripLeft(s))
  }
}

/** White space in the sense of the two languages' text libraries. */
module Spaces {

  /** unicode.IsSpace */
  predicate IsSpace(c: char) {
    '\U{0009}' <= c <= '\U{000D}' || c == ' ' || c == '\U{0085}' || c == '\U{00A0}' || c == '\U{1680}'
    || '\U{2000}' <= c <= '\U{200A}' || c == '\U{2028}' || c == '\U{2029}' || c == '\U{202F}' || c == '\U{205F}'
      || c == '\U{3000}'
  }

  /** What TrimSpace leaves nothing of. */
  predicate Blank(s: string) {
    forall i | 0 <= i < |s| :: IsSpace(s[i])
  }

  /** Python's str.isspace, str.strip and the \s of its regular expressions: four separators more. */
  predicate PySpace(c: char) {
    IsSpace(c) || '\U{001C}' <= c <= '\U{001F}'
  }
}

/** Shared vocabulary: optional values and the white space that Go's `unicode.IsSpace` accepts. */
module Common {

  datatype Option<T> = None | Some(value: T)

  predicate Space(c: char) {
    || c == ' ' || ('\t' <= c <= '\r') || c == '\U{85}' || c == '\U{A0}' || c == '\U{1680}'
    || ('\U{2000}' <= c <= '\U{200A}') || c == '\U{2028}' || c == '\U{2029}' || c == '\U{202F}'
    || c == '\U{205F}' || c == '\U{3000}'
  }

  // The Unicode characters with the property White_Space.
  lemma SpaceMeans(c: char)
    ensures Space(c) <==> c as int in {
      9, 10, 11, 12, 13, 32, 0x85, 0xA0, 0x1680, 0x2000, 0x2001, 0x2002, 0x2003, 0x2004, 0x2005, 0x2006, 0x2007,
      0x2008, 0x2009, 0x200A, 0x2028, 0x2029, 0x202F, 0x205F, 0x3000}
  {}

  // strings.TrimSpace(s) == ""
  predicate Blank(s: string) { forall i :: 0 <= i < |s| ==> Space(s[i]) }
}

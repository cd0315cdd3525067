/** Character classes the preprocessor relies on: the whitespace class (the
    regular-expression class `\s`, which is also what `split()` and `strip()`
    split on), the word class `\w` and lower-casing. They are given for the
    ASCII range; every other character is neither a word character nor
    whitespace. */
module Chars {

  /** Space, tab, line feed, vertical tab, form feed, carriage return and the
      four ASCII separators 0x1C to 0x1F. */
  predicate IsSpace(c: char)
  {
    c == ' ' || ('\t' <= c <= '\r') || ('\U{1C}' <= c <= '\U{1F}')
  }

  predicate IsUpper(c: char)
  {
    'A' <= c <= 'Z'
  }

  /** A letter, a digit or the underscore. */
  predicate IsWordChar(c: char)
  {
    'a' <= c <= 'z' || IsUpper(c) || '0' <= c <= '9' || c == '_'
  }

  function Lower(c: char): (d: char)
    ensures !IsUpper(d)
    ensures IsWordChar(d) <==> IsWordChar(c)
    ensures IsSpace(d) <==> IsSpace(c)
    ensures !IsUpper(c) ==> d == c
  {
    if IsUpper(c) then (c as int - 'A' as int + 'a' as int) as char else c
  }
}

/** Character classes of the C locale. */
module Ctype {

  /** isspace */
  predicate IsSpace(c: char): (r: bool)
    ensures r <==> c in " \t\n\r" || c as int == 11 || c as int == 12
  {
    c == ' ' || (9 as char <= c <= 13 as char)
  }

  /** tolower */
  function ToLower(c: char): char {
    if 'A' <= c <= 'Z' then c - 'A' + 'a' else c
  }
}

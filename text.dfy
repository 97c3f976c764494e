/**
 * Character classes of the "C" locale, as the word counters use them through
 * std::isalnum and std::tolower. A char stands for one byte of a line; every
 * char other than an ASCII letter or digit is a separator.
 */
module Text {

  /** is_word_char / std::isalnum: an ASCII letter or digit. */
  function IsWordChar(c: char): (r: bool)
    ensures r ==> c != ' ' && c != '\'' && c != '-'
    ensures r ==> c as int < 128
  {
    ('a' <= c <= 'z') || ('A' <= c <= 'Z') || ('0' <= c <= '9')
  }

  /** std::tolower: 'A'..'Z' become 'a'..'z', every other char is unchanged. */
  function ToLower(c: char): (r: char)
    ensures IsWordChar(r) <==> IsWordChar(c)
    ensures IsWordChar(c) ==> ('a' <= r <= 'z') || ('0' <= r <= '9')
    ensures !('A' <= c <= 'Z') ==> r == c
  {
    if 'A' <= c <= 'Z' then (c as int + 32) as char else c
  }

  /** The characters a normalised line is made of. */
  predicate IsNormChar(c: char) {
    ('a' <= c <= 'z') || ('0' <= c <= '9') || c == '\'' || c == ' '
  }
}

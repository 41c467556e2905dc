/** Character classes, case folding and the stop-word list of app.py
    (app.py:8-16, the character classes of the regular expressions at
    app.py:16, 22-23 and 59). */
module Lexicon {
  /** Whitespace as Python's `\s` and `str.strip()` see it, restricted to ASCII:
      space, tab, line feed, vertical tab, form feed, carriage return and the
      four separators 0x1C-0x1F. */
  predicate IsSpace(c: char)
  {
    c == ' ' || 9 <= c as int <= 13 || 28 <= c as int <= 31
  }

  /** `[A-Za-z]` */
  predicate IsLatin(c: char)
  {
    'A' <= c <= 'Z' || 'a' <= c <= 'z'
  }

  /** `[가-힣]`: the precomposed Hangul syllables U+AC00 to U+D7A3. */
  predicate IsHangul(c: char)
  {
    '가' <= c <= '힣'
  }

  /** The characters a sentence may end with before a split (app.py:23):
      the class `[\.\!\?\。\?!]`, whose members are `.`, `!`, `?` and U+3002,
      or the Korean sentence-final syllable `다`. */
  predicate IsMarker(c: char)
  {
    c == '.' || c == '!' || c == '?' || c == '。' || c == '다'
  }

  /** `str.lower()` on one character, restricted to ASCII. */
  function LowerChar(c: char): (d: char)
    ensures !('A' <= d <= 'Z')
    ensures !('A' <= c <= 'Z') ==> d == c
    ensures 'A' <= c <= 'Z' ==> d == "abcdefghijklmnopqrstuvwxyz"[c as int - 'A' as int]
  {
    if 'A' <= c <= 'Z' then (c as int + 32) as char else c
  }

  /** `str.lower()`, restricted to ASCII case folding. */
  function Lower(s: string): (r: string)
    ensures |r| == |s|
    ensures forall i :: 0 <= i < |s| ==> r[i] == LowerChar(s[i])
  {
    seq(|s|, i requires 0 <= i < |s| => LowerChar(s[i]))
  }

  /** Lower-casing twice is lower-casing once. */
  lemma LowerIdempotent(s: string)
    ensures Lower(Lower(s)) == Lower(s)
  {
  }

  /** A string without capital letters is its own lower case. */
  lemma LowerOfLowercase(s: string)
    requires forall i :: 0 <= i < |s| ==> !('A' <= s[i] <= 'Z')
    ensures Lower(s) == s
  {
  }

  /** STOPWORDS (app.py:8-14); "so" and "이" are listed twice there. */
  const StopWords: set<string> := {
    "a", "an", "the", "and", "or", "but", "if", "then", "so", "because", "as", "of", "in", "on", "at", "to", "for", "from", "by", "with",
    "about", "into", "through", "during", "before", "after", "above", "below", "up", "down", "out", "over", "under", "again", "further",
    "here", "there", "when", "where", "why", "how", "all", "any", "both", "each", "few", "more", "most", "other", "some", "such", "no",
    "nor", "not", "only", "own", "same", "so", "than", "too", "very", "can", "will", "just", "should", "now",
    "이", "그", "저", "것", "수", "등", "및", "또는", "그리고", "그래서", "또한", "은", "는", "이", "가", "을", "를", "의", "에", "에서", "으로", "로", "와", "과", "도", "만"
  }
}

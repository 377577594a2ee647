/** Characters, bytes and the C library's character classes (in the "C" locale). */
module Ctype {
  type Byte = b: int | 0 <= b < 256

  datatype Option<+T> = None | Some(value: T)

  const NUL: char := '\0'

  predicate IsDigit(c: char) {
    '0' <= c <= '9'
  }

  predicate IsAlpha(c: char) {
    'A' <= c <= 'Z' || 'a' <= c <= 'z'
  }

  predicate IsAlnum(c: char) {
    IsAlpha(c) || IsDigit(c)
  }

  /** tolower() */
  function Lower(c: char): char {
    if 'A' <= c <= 'Z' then (c as int + 32) as char else c
  }

  /** What reading a C string at position i gives: its text is followed by a NUL. */
  function CharAt(s: string, i: nat): char {
    if i < |s| then s[i] else NUL
  }

  predicate AllDigits(s: string) {
    forall i :: 0 <= i < |s| ==> IsDigit(s[i])
  }

  predicate AllSpaces(s: string) {
    forall i :: 0 <= i < |s| ==> s[i] == ' '
  }

  predicate NulFree(s: string) {
    forall i :: 0 <= i < |s| ==> s[i] != NUL
  }

  /** Whether s starts with "AT" in any case: !strncasecmp (s, "AT", 2). */
  predicate StartsWithAT(s: string) {
    |s| >= 2 && Lower(s[0]) == 'a' && Lower(s[1]) == 't'
  }

  /** The classes by the codes of the characters (ASCII). */
  lemma ClassesByCode(c: char)
    ensures IsDigit(c) <==> 48 <= c as int <= 57
    ensures IsAlpha(c) <==> 65 <= c as int <= 90 || 97 <= c as int <= 122
    ensures IsAlnum(c) <==> IsDigit(c) || IsAlpha(c)
    ensures Lower(c) as int == if 65 <= c as int <= 90 then c as int + 32 else c as int
  {
  }

  lemma LedByAT(s: string)
    ensures StartsWithAT(s) <==> |s| >= 2 && s[0] in {'A', 'a'} && s[1] in {'T', 't'}
  {
  }
}

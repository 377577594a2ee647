/**
 * What the tokenizer guarantees: the partition of a line, the shape of the commands it yields, when
 * it gives up, and the round trip of printed command lists.
 */
module CommandLines {
  import opened Ctype
  import opened Tokenizer

  // ------------------------------------------------------------------ shapes

  predicate IsNumber(u: string) {
    exists k :: 0 <= k <= |u| && AllSpaces(u[..k]) && AllDigits(u[k..])
  }

  /** A letter other than D and S, or an ampersand and a letter, and a number that may be empty. */
  predicate IsLetterCommand(t: string) {
    || (|t| >= 1 && IsAlpha(t[0]) && Lower(t[0]) != 'd' && Lower(t[0]) != 's' && IsNumber(t[1..]))
    || (|t| >= 2 && t[0] == '&' && IsAlpha(t[1]) && IsNumber(t[2..]))
  }

  predicate IsSTail(u: string) {
    u == "" || u == "?" || (u[0] == '=' && IsNumber(u[1..]))
  }

  predicate IsSCommand(t: string) {
    && |t| >= 1 && Lower(t[0]) == 's'
    && exists i, j :: 1 <= i <= j <= |t| && IsNumber(t[1..i]) && AllSpaces(t[i..j]) && IsSTail(t[j..])
  }

  function Quotes(s: string): nat {
    if s == "" then 0 else Quotes(s[..|s| - 1]) + if s[|s| - 1] == '"' then 1 else 0
  }

  /** Position i of s lies inside a quoted string. */
  predicate Quoted(s: string, i: nat)
    requires i <= |s|
  {
    Quotes(s[..i]) % 2 == 1
  }

  predicate NoBareSemicolon(s: string, n: nat)
    requires n <= |s|
  {
    forall i :: 0 <= i < n && s[i] == ';' ==> Quoted(s, i)
  }

  predicate IsExtendedCommand(t: string) {
    t != "" && Quotes(t) % 2 == 0 && NoBareSemicolon(t, |t|)
  }

  /** A quoted string opens and never closes, and no bare ';' comes before it. */
  predicate Unterminated(s: string) {
    Quotes(s) % 2 == 1 && NoBareSemicolon(s, |s|)
  }

  predicate StartsBasic(s: string) {
    |s| >= 1 && (IsAlpha(s[0]) || (s[0] == '&' && |s| >= 2 && IsAlpha(s[1])))
  }

  predicate WellShaped(t: string, after: string) {
    || (|t| >= 1 && Lower(t[0]) == 'd' && after == "")
    || IsSCommand(t)
    || IsLetterCommand(t)
    || (!StartsBasic(t + after) && IsExtendedCommand(t) && (after == "" || after[0] == ';'))
  }

  predicate Malformed(s: string) {
    s == ";" || (Unterminated(s) && !StartsBasic(s))
  }

  // ------------------------------------------------------------------ the extended scan

  lemma QuotesSnoc(s: string, i: nat)
    requires i < |s|
    ensures Quotes(s[..i + 1]) == Quotes(s[..i]) + if s[i] == '"' then 1 else 0
  {
    assert s[..i + 1][..i] == s[..i];
  }

  lemma {:induction false} QuotesFlat(s: string, i: nat, j: nat)
    requires i <= j <= |s| && forall k :: i <= k < j ==> s[k] != '"'
    ensures Quotes(s[..j]) == Quotes(s[..i])
  {
    if i == j {
    } else {
      QuotesFlat(s, i, j - 1);
      QuotesSnoc(s, j - 1);
    }
  }

  lemma {:induction false} IndexFromIsFirst(s: string, c: char, from: nat)
    requires from <= |s|
    ensures var i := IndexFrom(s, c, from);
            (i < |s| ==> s[i] == c) && forall j :: from <= j < i ==> s[j] != c
    decreases |s| - from
  {
    if from < |s| && s[from] != c {
      IndexFromIsFirst(s, c, from + 1);
    }
  }

  /** Scanning on from an unquoted position: the scan stops at a bare ';' or at the end, or never. */
  lemma {:induction false} ExtendedScan(s: string, p: nat)
    requires p <= |s| && !Quoted(s, p) && NoBareSemicolon(s, p)
    ensures var n := ExtendedFrom(s, p);
            if n >= p && (n > 0 || s == "" || s[0] == ';') then
              !Quoted(s, n) && NoBareSemicolon(s, n) && (n == |s| || s[n] == ';')
            else n == 0 && Unterminated(s)
    decreases |s| - p
  {
    hide Quotes;
    if p == |s| || s[p] == ';' {
    } else if s[p] == '"' {
      var close := IndexFrom(s, '"', p + 1);
      IndexFromIsFirst(s, '"', p + 1);
      QuotesSnoc(s, p);
      forall i | p < i <= close ensures Quoted(s, i) {
        QuotesFlat(s, p + 1, i);
      }
      if close == |s| {
        assert Quoted(s, |s|) && s[..|s|] == s;
      } else {
        QuotesSnoc(s, close);
        assert Quoted(s, close);
        ExtendedScan(s, close + 1);
      }
    } else {
      QuotesSnoc(s, p);
      ExtendedScan(s, p + 1);
    }
  }

  lemma ExtendedLengthCases(s: string)
    ensures Unterminated(s) ==> ExtendedLength(s) == 0
    ensures ExtendedLength(s) == 0 ==> s == "" || s[0] == ';' || Unterminated(s)
    ensures var n := ExtendedLength(s); n > 0 ==>
              IsExtendedCommand(s[..n]) && (n == |s| || s[n] == ';')
  {
    ExtendedScan(s, 0);
    var n := ExtendedLength(s);
    assert s[..|s|] == s;
    if n > 0 {
      var t := s[..n];
      assert t[..n] == t;
      forall i | 0 <= i < n && t[i] == ';' ensures Quoted(t, i) {
        assert Quoted(s, i) && t[..i] == s[..i];
      }
    }
  }

  // ------------------------------------------------------------------ basic commands

  lemma {:induction false} SpaceRunIsSpaces(s: string)
    ensures AllSpaces(s[..SpaceRun(s)]) && (SpaceRun(s) < |s| ==> s[SpaceRun(s)] != ' ')
    decreases |s|
  {
    if s != "" && s[0] == ' ' {
      SpaceRunIsSpaces(s[1..]);
      assert s[..SpaceRun(s)] == [s[0]] + s[1..][..SpaceRun(s[1..])];
    }
  }

  lemma {:induction false} DigitRunIsDigits(s: string)
    ensures AllDigits(s[..DigitRun(s)]) && (DigitRun(s) < |s| ==> !IsDigit(s[DigitRun(s)]))
    decreases |s|
  {
    if s != "" && IsDigit(s[0]) {
      DigitRunIsDigits(s[1..]);
      assert s[..DigitRun(s)] == [s[0]] + s[1..][..DigitRun(s[1..])];
    }
  }

  lemma NumberAt(s: string)
    ensures IsNumber(s[..CountDigits(s)])
  {
    SpaceRunIsSpaces(s);
    DigitRunIsDigits(s[SpaceRun(s)..]);
    var k, n := SpaceRun(s), CountDigits(s);
    assert s[..n][..k] == s[..k] && s[..n][k..] == s[k..][..n - k];
  }

  lemma SCommandShape(s: string)
    requires s != "" && Lower(s[0]) == 's'
    ensures IsSCommand(s[..SLength(s)])
  {
    hide CountDigits, SpaceRun;
    var n := SLength(s);
    var t := s[..n];
    var i := 1 + CountDigits(s[1..]);
    var j := i + SpaceRun(s[i..]);
    NumberAt(s[1..]);
    SpaceRunIsSpaces(s[i..]);
    assert t[1..i] == s[1..][..i - 1];
    assert t[i..j] == s[i..][..j - i];
    if j < |s| && s[j] == '=' {
      NumberAt(s[j + 1..]);
      assert t[j..][1..] == s[j + 1..][..n - j - 1];
    }
    assert IsSTail(t[j..]);
  }

  lemma BasicShape(s: string)
    requires BasicLength(s) != 0
    ensures StartsBasic(s)
    ensures WellShaped(s[..BasicLength(s)], s[BasicLength(s)..])
  {
    var n := BasicLength(s);
    if Lower(s[0]) == 'd' {
    } else if Lower(s[0]) == 's' {
      SCommandShape(s);
    } else {
      var offset := if s[0] == '&' then 2 else 1;
      NumberAt(s[offset..]);
      assert s[..n][offset..] == s[offset..][..n - offset];
    }
  }

  lemma CommandShape(s: string)
    requires CommandLength(s) != 0
    ensures WellShaped(s[..CommandLength(s)], s[CommandLength(s)..])
  {
    hide BasicLength, ExtendedLength, IsSCommand, IsLetterCommand, IsExtendedCommand;
    if BasicLength(s) != 0 {
      BasicShape(s);
    } else {
      BasicLengthZeroIff(s);
      ExtendedLengthCases(s);
      assert s[..CommandLength(s)] + s[CommandLength(s)..] == s;
    }
  }

  lemma BasicLengthZeroIff(s: string)
    ensures BasicLength(s) == 0 <==> !StartsBasic(s)
  {
    if BasicLength(s) != 0 {
      BasicShape(s);
    }
  }

  /** The iteration gives up, away from separators, exactly at the end, on a lone ';' or in an unterminated quote. */
  lemma IterationStopsIff(s: string)
    requires NulFree(s) && SkipSeparators(s) == 0
    ensures CommandLength(s) == 0 <==> s == "" || Malformed(s)
  {
    BasicLengthZeroIff(s);
    ExtendedLengthCases(s);
    if s != "" && s[0] == ';' {
      assert |s| == 1 && s == ";";
    }
  }

  /** On a syntax error the cursor is unchanged, as documented, exactly when the line starts with no separator. */
  lemma SyntaxErrorKeepsCursorIff(s: string)
    requires NulFree(s) && s[SkipSeparators(s)..] != "" && CommandLength(s[SkipSeparators(s)..]) == 0
    ensures SkipSeparators(s) == 0 <==> s[0] != ' ' && (s[0] != ';' || |s| == 1)
  {
    assert s[0] != NUL;
  }

  /** A space before an unterminated quote: there is no command, and the cursor has moved past the space. */
  lemma SyntaxErrorMovesCursor()
    ensures SkipSeparators([' ', '"']) == 1 && CommandLength([' ', '"'][1..]) == 0
  {
    var s := ['"'];
    assert [' ', '"'][1..] == s && SkipSeparators(s) == 0;
    assert Quotes(s) == 1 by { assert s[..0] == "" && s[..1] == s; }
    IterationStopsIff(s);
  }

  // ------------------------------------------------------------------ partition of a line

  function Render(p: Parse): string {
    match p
    case End(gap, rest) => gap + rest
    case Command(gap, text, more) => gap + text + Render(more)
  }

  predicate IsGap(g: string) {
    forall i :: 0 <= i < |g| ==> g[i] == ' ' || g[i] == ';'
  }

  /** Every separator, every command and the remainder are as promised. */
  predicate WellParsed(p: Parse) {
    match p
    case End(gap, rest) => IsGap(gap) && (rest == "" || Malformed(rest))
    case Command(gap, text, more) =>
      IsGap(gap) && text != "" && WellShaped(text, Render(more)) && WellParsed(more)
  }

  lemma {:induction false} SkippedIsGap(s: string)
    requires NulFree(s)
    ensures IsGap(s[..SkipSeparators(s)])
    ensures SkipSeparators(s[SkipSeparators(s)..]) == 0
    decreases |s|
  {
    if s != "" && IsSeparator(s[0], |s|) {
      SkippedIsGap(s[1..]);
      var k := SkipSeparators(s[1..]);
      assert s[..k + 1] == [s[0]] + s[1..][..k];
      assert s[k + 1..] == s[1..][k..];
    } else {
      assert s[0..] == s;
    }
  }

  /** All separators are skipped: what is left starts with none, but for a ';' that ends the line. */
  lemma SkipsAllSeparators(s: string)
    requires NulFree(s)
    ensures var rest := s[SkipSeparators(s)..];
            && IsGap(s[..SkipSeparators(s)]) && (rest != "" ==> rest[0] != ' ' && (rest[0] == ';' ==> |rest| == 1))
  {
    SkippedIsGap(s);
    var rest := s[SkipSeparators(s)..];
    assert rest != "" ==> !IsSeparator(rest[0], |rest|);
  }

  /**
   * Separators and commands partition the line; commands are non-empty and well shaped (so no
   * extended command holds a bare ';', and iteration terminates); a remainder is left only for a
   * lone final ';' or an unterminated quote.
   */
  lemma {:induction false} ParsePartitionsLine(s: string)
    requires NulFree(s)
    ensures Render(ParseOf(s)) == s
    ensures WellParsed(ParseOf(s))
    decreases |s|
  {
    hide CommandLength, WellShaped, Malformed, SkipSeparators, IsGap, NulFree;
    var k := SkipSeparators(s);
    var body := s[k..];
    var n := CommandLength(body);
    SkippedIsGap(s);
    LineInThree(s, k, n);
    IterationStopsIff(body);
    if n == 0 {
    } else {
      ParsePartitionsLine(s[k + n..]);
      CommandShape(body);
    }
  }

  /** Separators, a command and the rest of a line. */
  lemma LineInThree(s: string, k: nat, n: nat)
    requires k + n <= |s|
    ensures s[k..][..n] == s[k..k + n] && s[k..][n..] == s[k + n..]
    ensures s[..k] + s[k..k + n] + s[k + n..] == s == s[..k] + s[k..]
    ensures NulFree(s) ==> NulFree(s[k..]) && NulFree(s[k + n..])
  {
  }

  // ------------------------------------------------------------------ printing

  function Spaces(n: nat): (text: string)
    ensures |text| == n && AllSpaces(text)
  {
    seq(n, _ => ' ')
  }

  /** A number as it may be written: digits, if any, after spaces, if any. */
  datatype Number = Number(spaces: nat, digits: string)

  function NumberText(u: Number): string {
    Spaces(u.spaces) + u.digits
  }

  datatype Cmd =
    | Letter(letter: char, number: Number)
    | Ampersand(letter: char, number: Number)
    | SSet(param: Number, spaces: nat, value: Number)
    | SQuery(param: Number, spaces: nat)
    | Extended(text: string)
    | Dial(dialled: string)

  predicate WellFormed(c: Cmd) {
    match c
    case Letter(letter, number) =>
      IsAlpha(letter) && Lower(letter) != 'd' && Lower(letter) != 's' && AllDigits(number.digits)
    case Ampersand(letter, number) => IsAlpha(letter) && AllDigits(number.digits)
    case SSet(param, _, value) => AllDigits(param.digits) && AllDigits(value.digits)
    case SQuery(param, _) => AllDigits(param.digits)
    case Extended(text) =>
      && IsExtendedCommand(text) && !IsAlnum(text[0]) && text[0] != ' ' && text[0] != NUL
      && !(text[0] == '&' && |text| > 1 && IsAlpha(text[1]))
    case Dial(_) => true
  }

  /** Every command is well formed, and a dial command, which takes the rest of the line, comes last. */
  predicate WellFormedList(cmds: seq<Cmd>) {
    && (forall i :: 0 <= i < |cmds| ==> WellFormed(cmds[i]))
    && (forall i :: 0 <= i < |cmds| - 1 ==> !cmds[i].Dial?)
  }

  function TextOf(c: Cmd): string {
    match c
    case Letter(letter, number) => [letter] + NumberText(number)
    case Ampersand(letter, number) => ['&', letter] + NumberText(number)
    case SSet(param, spaces, value) => "S" + NumberText(param) + Spaces(spaces) + "=" + NumberText(value)
    case SQuery(param, spaces) => "S" + NumberText(param) + Spaces(spaces) + "?"
    case Extended(text) => text
    case Dial(dialled) => "D" + dialled
  }

  function TextsOf(cmds: seq<Cmd>): seq<string> {
    seq(|cmds|, i requires 0 <= i < |cmds| => TextOf(cmds[i]))
  }

  /** The commands in a row; a ';' parts an extended command from the next one. */
  function Print(cmds: seq<Cmd>): string {
    if cmds == [] then ""
    else TextOf(cmds[0]) + (if cmds[0].Extended? && |cmds| > 1 then ";" else "") + Print(cmds[1..])
  }

  // ------------------------------------------------------------------ round trip

  lemma {:induction false} SpaceRunIs(n: nat, after: string)
    requires after == "" || after[0] != ' '
    ensures SpaceRun(Spaces(n) + after) == n
    decreases n
  {
    if n == 0 {
      assert Spaces(0) + after == after;
    } else {
      assert (Spaces(n) + after)[1..] == Spaces(n - 1) + after;
      SpaceRunIs(n - 1, after);
    }
  }

  lemma {:induction false} DigitRunIs(s: string, n: nat)
    requires n <= |s| && AllDigits(s[..n])
    requires n < |s| ==> !IsDigit(s[n])
    ensures DigitRun(s) == n
  {
    if n == 0 {
    } else {
      assert s[..n][0] == s[0] && s[..n][1..] == s[1..][..n - 1];
      DigitRunIs(s[1..], n - 1);
    }
  }

  /** What may follow a number: no further digit; and where it has no digits, no further space. */
  predicate EndsNumber(u: Number, after: string) {
    after == "" || (!IsDigit(after[0]) && (u.digits == "" ==> after[0] != ' '))
  }

  /** A number is counted with its spaces, up to where it ends. */
  lemma NumberIsCounted(u: Number, after: string)
    requires AllDigits(u.digits) && EndsNumber(u, after)
    ensures CountDigits(NumberText(u) + after) == |NumberText(u)|
  {
    var s, rest := NumberText(u) + after, u.digits + after;
    assert s == Spaces(u.spaces) + rest;
    assert u.digits != "" ==> rest[0] == u.digits[0];
    assert u.digits == "" ==> rest == after;
    SpaceRunIs(u.spaces, rest);
    assert s[u.spaces..] == rest && rest[..|u.digits|] == u.digits;
    DigitRunIs(rest, |u.digits|);
  }

  /** The operator of an S command is found behind the spaces after its parameter. */
  lemma OperatorFound(param: Number, spaces: nat, tail: string)
    requires AllDigits(param.digits) && tail != "" && tail[0] in {'=', '?'}
    ensures var s := "S" + NumberText(param) + Spaces(spaces) + tail;
            var number := 1 + CountDigits(s[1..]);
            number + SpaceRun(s[number..]) == 1 + |NumberText(param)| + spaces
            && s[1 + |NumberText(param)| + spaces..] == tail
  {
    hide CountDigits, SpaceRun;
    var s := "S" + NumberText(param) + Spaces(spaces) + tail;
    assert s[1 + |NumberText(param)| + spaces..] == tail;
    if param.digits == "" {
      var all := Number(param.spaces + spaces, "");
      assert s[1..] == NumberText(all) + tail;
      NumberIsCounted(all, tail);
      SpaceRunIs(0, tail);
      assert Spaces(0) + tail == tail;
    } else {
      assert s[1..] == NumberText(param) + (Spaces(spaces) + tail);
      NumberIsCounted(param, Spaces(spaces) + tail);
      assert s[1 + |NumberText(param)|..] == Spaces(spaces) + tail;
      SpaceRunIs(spaces, tail);
    }
  }

  lemma SSetLength(param: Number, spaces: nat, value: Number, after: string)
    requires AllDigits(param.digits) && AllDigits(value.digits) && EndsNumber(value, after)
    ensures var text := "S" + NumberText(param) + Spaces(spaces) + "=" + NumberText(value);
            SLength(text + after) == |text|
  {
    hide CountDigits, SpaceRun, NumberText;
    var tail := "=" + NumberText(value) + after;
    var s := "S" + NumberText(param) + Spaces(spaces) + tail;
    assert "S" + NumberText(param) + Spaces(spaces) + "=" + NumberText(value) + after == s;
    OperatorFound(param, spaces, tail);
    var op := 1 + |NumberText(param)| + spaces;
    assert s[op] == '=' && s[op + 1..] == NumberText(value) + after;
    NumberIsCounted(value, after);
  }

  lemma SQueryLength(param: Number, spaces: nat, after: string)
    requires AllDigits(param.digits)
    ensures var text := "S" + NumberText(param) + Spaces(spaces) + "?"; SLength(text + after) == |text|
  {
    hide CountDigits, SpaceRun, NumberText;
    var tail := "?" + after;
    var s := "S" + NumberText(param) + Spaces(spaces) + tail;
    assert "S" + NumberText(param) + Spaces(spaces) + "?" + after == s;
    OperatorFound(param, spaces, tail);
    assert s[1 + |NumberText(param)| + spaces] == '?';
  }

  lemma ExtendedCommandStops(text: string, after: string)
    requires IsExtendedCommand(text) && text[0] != ';' && (after == "" || after[0] == ';')
    ensures ExtendedLength(text + after) == |text|
  {
    var s := text + after;
    var m := |text|;
    ExtendedScan(s, 0);
    assert s[..m] == text && s[..|s|] == s;
    assert !Quoted(s, m);
    forall i | 0 <= i < m && s[i] == ';' ensures Quoted(s, i) {
      assert Quoted(text, i) && s[..i] == text[..i];
    }
    assert !Unterminated(s);
  }

  lemma PrintedLetterLength(c: Cmd, after: string)
    requires WellFormed(c) && (c.Letter? || c.Ampersand?) && EndsNumber(c.number, after)
    ensures CommandLength(TextOf(c) + after) == |TextOf(c)| > 0
  {
    hide CountDigits, SLength, ExtendedLength, NumberText;
    var s := TextOf(c) + after;
    NumberIsCounted(c.number, after);
    hide AllDigits, EndsNumber;
    if c.Letter? {
      assert s[0] == c.letter && s[1..] == NumberText(c.number) + after;
    } else {
      assert s[0] == '&' && s[1] == c.letter && s[2..] == NumberText(c.number) + after;
    }
  }

  /** What may follow a command, so that it ends where its text does. */
  predicate EndsCommand(c: Cmd, after: string) {
    match c
    case Letter(_, number) => EndsNumber(number, after)
    case Ampersand(_, number) => EndsNumber(number, after)
    case SSet(_, _, value) => EndsNumber(value, after)
    case SQuery(_, _) => true
    case Extended(_) => after == "" || after[0] == ';'
    case Dial(_) => after == ""
  }

  lemma PrintedSLength(c: Cmd, after: string)
    requires WellFormed(c) && (c.SSet? || c.SQuery?) && EndsCommand(c, after)
    ensures CommandLength(TextOf(c) + after) == |TextOf(c)| > 0
  {
    hide SLength, NumberText, Spaces;
    if c.SSet? {
      SSetLength(c.param, c.spaces, c.value, after);
    } else {
      SQueryLength(c.param, c.spaces, after);
    }
  }

  lemma PrintedExtendedLength(text: string, after: string)
    requires WellFormed(Extended(text)) && (after == "" || after[0] == ';')
    ensures text[0] != ';' && CommandLength(text + after) == |text| > 0
  {
    hide BasicLength;
    assert !Quoted(text, 0);
    ExtendedCommandStops(text, after);
    BasicLengthZeroIff(text + after);
  }

  /** A printed command, with any spaces in it, is cut off exactly where it ends. */
  lemma PrintedCommandLength(c: Cmd, after: string)
    requires WellFormed(c) && EndsCommand(c, after)
    ensures SkipSeparators(TextOf(c) + after) == 0
    ensures CommandLength(TextOf(c) + after) == |TextOf(c)| > 0
  {
    hide SLength, LetterLength, ExtendedLength, NumberText, Spaces;
    match c {
      case Letter(_, _) => PrintedLetterLength(c, after);
      case Ampersand(_, _) => PrintedLetterLength(c, after);
      case SSet(_, _, _) => PrintedSLength(c, after);
      case SQuery(_, _) => PrintedSLength(c, after);
      case Extended(text) => PrintedExtendedLength(text, after);
      case Dial(dialled) => assert TextOf(c) + after == TextOf(c);
    }
  }

  lemma {:induction false} SkipsGap(gap: string, u: string)
    requires IsGap(gap) && u != ""
    ensures SkipSeparators(gap + u) == |gap| + SkipSeparators(u)
    decreases |gap|
  {
    if gap == "" {
      assert gap + u == u;
    } else {
      assert (gap + u)[0] == gap[0] && (gap + u)[1..] == gap[1..] + u;
      SkipsGap(gap[1..], u);
    }
  }

  /** Any spaces and semicolons in front of a command only widen the separators. */
  lemma GapIsTransparent(gap: string, u: string)
    requires IsGap(gap) && u != ""
    ensures Texts(ParseOf(gap + u)) == Texts(ParseOf(u)) && Rest(ParseOf(gap + u)) == Rest(ParseOf(u))
  {
    hide CommandLength, SkipSeparators;
    SkipsGap(gap, u);
    var s := gap + u;
    var k := SkipSeparators(u);
    assert s[|gap| + k..] == u[k..];
    var n := CommandLength(u[k..]);
    assert s[|gap| + k..|gap| + k + n] == u[k..k + n] && s[|gap| + k + n..] == u[k + n..];
  }

  lemma FirstCommandParses(text: string, after: string)
    requires SkipSeparators(text + after) == 0 && CommandLength(text + after) == |text| > 0
    ensures Texts(ParseOf(text + after)) == [text] + Texts(ParseOf(after))
    ensures Rest(ParseOf(text + after)) == Rest(ParseOf(after))
  {
    hide CommandLength, SkipSeparators;
    var s := text + after;
    assert s[0..] == s && s[0..0 + |text|] == text && s[0 + |text|..] == after;
  }

  /** A command starts with neither a digit nor a space. */
  lemma PrintIsNotEmpty(cmds: seq<Cmd>)
    requires cmds != [] && WellFormedList(cmds)
    ensures Print(cmds) != "" && !IsDigit(Print(cmds)[0]) && Print(cmds)[0] != ' '
  {
    hide NumberText, Spaces;
    var first := TextOf(cmds[0]);
    assert WellFormed(cmds[0]);
    FirstCharacter(cmds[0]);
    assert Print(cmds)[0] == first[0];
  }

  lemma FirstCharacter(c: Cmd)
    requires WellFormed(c)
    ensures TextOf(c) != "" && !IsDigit(TextOf(c)[0]) && TextOf(c)[0] != ' '
  {
  }

  /** What the printed form of the later commands starts with, and what it parses to. */
  lemma SeparatedListParses(c: Cmd, others: seq<Cmd>)
    requires WellFormedList([c] + others)
    ensures var after := Print([c] + others)[|TextOf(c)|..];
            && Print([c] + others) == TextOf(c) + after
            && Texts(ParseOf(after)) == Texts(ParseOf(Print(others)))
            && Rest(ParseOf(after)) == Rest(ParseOf(Print(others)))
            && EndsCommand(c, after)
  {
    hide TextOf, ParseOf, Texts, Rest, WellFormed;
    var cmds := [c] + others;
    assert cmds[1..] == others && cmds[0] == c;
    var separator := if c.Extended? && |cmds| > 1 then ";" else "";
    assert Print(cmds) == TextOf(c) + (separator + Print(others));
    assert separator == "" ==> separator + Print(others) == Print(others);
    if others != [] {
      assert forall i :: 0 <= i < |others| ==> others[i] == cmds[i + 1];
      PrintIsNotEmpty(others);
      GapIsTransparent(";", Print(others));
    }
  }

  lemma TextsOfCons(c: Cmd, others: seq<Cmd>)
    ensures TextsOf([c] + others) == [TextOf(c)] + TextsOf(others)
  {
    hide TextOf;
  }

  lemma ListTail(c: Cmd, others: seq<Cmd>)
    requires WellFormedList([c] + others)
    ensures WellFormed(c) && WellFormedList(others)
  {
    hide WellFormed;
    var cmds := [c] + others;
    assert cmds[0] == c && forall i :: 0 <= i < |others| ==> others[i] == cmds[i + 1];
  }

  /** Printing a list of well-formed commands and iterating over the line yields exactly that list. */
  lemma {:induction false} PrintedListParsesBack(cmds: seq<Cmd>)
    requires WellFormedList(cmds)
    ensures Texts(ParseOf(Print(cmds))) == TextsOf(cmds)
    ensures Rest(ParseOf(Print(cmds))) == ""
    decreases |cmds|
  {
    if cmds == [] {
      assert Print(cmds) == "" && ParseOf("") == End("", "");
    } else {
      hide CommandLength, SkipSeparators, WellFormedList, WellFormed, EndsCommand;
      hide TextOf, TextsOf, ParseOf, Texts, Rest, Print;
      var c, others := cmds[0], cmds[1..];
      assert cmds == [c] + others;
      ListTail(c, others);
      SeparatedListParses(c, others);
      var after := Print(cmds)[|TextOf(c)|..];
      PrintedCommandLength(c, after);
      FirstCommandParses(TextOf(c), after);
      PrintedListParsesBack(others);
      TextsOfCons(c, others);
    }
  }
}

/**
 * The command line editor: bytes from the terminal become command lines.
 *
 * Step is the reference, an editor whose line is unbounded; class Parser is the program's editor,
 * with its two fixed buffers. Runs are sequences of steps.
 */
module LineEditor {
  import opened Ctype
  import opened Editing

  const MAXLINE: nat := 2048

  // ------------------------------------------------------------------ the reference editor

  /** The line being typed, and the line that "A/" repeats. */
  datatype Editor = Editor(line: string, last: Option<string>)

  /** What the terminal side observes of one byte. */
  datatype Event = Quiet | Line(text: string) | Overflow

  const START := Editor("", None)

  /** The seven significant bits, with Delete read as Backspace and Line Feed as Carriage Return. */
  function Normalise(c: Byte): (k: char)
    ensures k as int < 127
  {
    var low := c % 128;
    if low == 127 then BACKSPACE else if low == 10 then '\r' else low as char
  }

  const BACKSPACE: char := 8 as char

  predicate IsPrintable(c: char) {
    ' ' <= c <= '~'
  }

  /** The suffix of a line that starts at its first "AT", if it has one. */
  function CommandPart(line: string): (r: Option<string>)
    ensures r.Some? ==> StartsWithAT(r.value) && |r.value| <= |line| && r.value == line[|line| - |r.value|..]
  {
    if |line| < 2 then None
    else if StartsWithAT(line) then Some(line)
    else CommandPart(line[1..])
  }

  predicate Repeats(e: Editor, k: char) {
    k == '/' && e.line != "" && Lower(e.line[|e.line| - 1]) == 'a'
  }

  /** What Carriage Return makes of a typed line. */
  function Completed(e: Editor, line: string): (Editor, Event) {
    if |line| >= MAXLINE then (Editor("", None), Overflow)
    else
      match CommandPart(line)
      case None => (e.(line := ""), Quiet)
      case Some(text) => (Editor("", Some(text)), Line(text))
  }

  /** One byte. */
  function Step(e: Editor, c: Byte): (Editor, Event) {
    var k := Normalise(c);
    if k == BACKSPACE then (e.(line := Strike(e.line, Erase)), Quiet)
    else if Repeats(e, k) then
      (e.(line := ""), if e.last.Some? then Line(e.last.value) else Quiet)
    else if k == '\r' then
      Completed(e, e.line)
    else if k < ' ' then (e, Quiet)
    else (e.(line := Strike(e.line, Type(k))), Quiet)
  }

  function Run(e: Editor, bytes: seq<Byte>): (Editor, seq<Event>)
    decreases |bytes|
  {
    if bytes == [] then (e, [])
    else
      var (e1, event) := Step(e, bytes[0]);
      var (e2, events) := Run(e1, bytes[1..]);
      (e2, [event] + events)
  }

  // ------------------------------------------------------------------ runs of the reference

  lemma {:induction false} RunConcat(e: Editor, a: seq<Byte>, b: seq<Byte>)
    ensures Run(e, a + b).0 == Run(Run(e, a).0, b).0
    ensures Run(e, a + b).1 == Run(e, a).1 + Run(Run(e, a).0, b).1
    decreases |a|
  {
    if a == [] {
      assert a + b == b;
    } else {
      assert (a + b)[0] == a[0] && (a + b)[1..] == a[1..] + b;
      RunConcat(Step(e, a[0]).0, a[1..], b);
    }
  }

  lemma RunOne(e: Editor, c: Byte)
    ensures Run(e, [c]) == (Step(e, c).0, [Step(e, c).1])
  {
    assert [c][1..] == [];
    assert Run(Step(e, c).0, []) == (Step(e, c).0, []);
    assert [Step(e, c).1] + [] == [Step(e, c).1];
  }

  /** What every delivered line is: short enough for the buffers, printable, and led by "AT". */
  predicate IsCommandLine(text: string) {
    StartsWithAT(text) && |text| < MAXLINE && forall i :: 0 <= i < |text| ==> IsPrintable(text[i])
  }

  predicate Sound(e: Editor) {
    && (forall i :: 0 <= i < |e.line| ==> IsPrintable(e.line[i]))
    && (e.last.Some? ==> IsCommandLine(e.last.value))
  }

  /** Whatever bytes arrive, only command lines are ever delivered or remembered. */
  lemma {:induction false} RunDeliversCommandLines(e: Editor, bytes: seq<Byte>)
    requires Sound(e)
    ensures Sound(Run(e, bytes).0)
    ensures forall i :: 0 <= i < |Run(e, bytes).1| && Run(e, bytes).1[i].Line? ==>
              IsCommandLine(Run(e, bytes).1[i].text)
    decreases |bytes|
  {
    if bytes == [] {
    } else {
      var (e1, event) := Step(e, bytes[0]);
      assert Sound(e1);
      RunDeliversCommandLines(e1, bytes[1..]);
    }
  }

  predicate AllQuiet(events: seq<Event>) {
    forall i :: 0 <= i < |events| ==> events[i] == Quiet
  }

  /** What the memory holds after an event. */
  function MemoryAfter(last: Option<string>, event: Event): Option<string> {
    match event
    case Quiet => last
    case Line(text) => Some(text)
    case Overflow => None
  }

  lemma StepRemembers(e: Editor, c: Byte)
    ensures Step(e, c).0.last == MemoryAfter(e.last, Step(e, c).1)
  {
  }

  lemma QuietTail(event: Event, events: seq<Event>)
    ensures AllQuiet([event] + events) <==> event == Quiet && AllQuiet(events)
  {
    var all := [event] + events;
    assert all[0] == event && forall i :: 0 <= i < |events| ==> events[i] == all[i + 1];
  }

  /** The remembered line is the one the latest event left: the line delivered, or none after an overflow. */
  lemma {:induction false} RunRemembersLatestLine(e: Editor, bytes: seq<Byte>)
    ensures |Run(e, bytes).1| == |bytes|
    ensures AllQuiet(Run(e, bytes).1) ==> Run(e, bytes).0.last == e.last
    ensures forall i :: 0 <= i < |bytes| && Run(e, bytes).1[i] != Quiet && AllQuiet(Run(e, bytes).1[i + 1..]) ==>
              Run(e, bytes).0.last == MemoryAfter(None, Run(e, bytes).1[i])
    decreases |bytes|
  {
    hide Step, AllQuiet;
    if bytes == [] {
    } else {
      var (e1, event) := Step(e, bytes[0]);
      var events, events1 := Run(e, bytes).1, Run(e1, bytes[1..]).1;
      StepRemembers(e, bytes[0]);
      RunRemembersLatestLine(e1, bytes[1..]);
      QuietTail(event, events1);
      forall i | 0 <= i < |bytes| && events[i] != Quiet && AllQuiet(events[i + 1..])
        ensures Run(e, bytes).0.last == MemoryAfter(None, events[i])
      {
        assert events[i + 1..] == events1[i..];
        if i == 0 {
          assert events1[0..] == events1;
        } else {
          assert events[i] == events1[i - 1] && events1[i..] == events1[(i - 1) + 1..];
        }
      }
    }
  }

  lemma StepA(e: Editor)
    ensures Step(e, 65) == (e.(line := e.line + ['A']), Quiet)
  {
  }

  lemma StepSlashAfterA(e: Editor)
    requires e.line != "" && e.line[|e.line| - 1] == 'A'
    ensures Step(e, 47) == (e.(line := ""), if e.last.Some? then Line(e.last.value) else Quiet)
  {
  }

  /** "A/" after any run delivers again the latest line, unless an overflow came after it. */
  lemma RepeatDeliversLatestLine(bytes: seq<Byte>, i: nat)
    requires i < |bytes| && |Run(START, bytes).1| == |bytes|
    requires Run(START, bytes).1[i] != Quiet && AllQuiet(Run(START, bytes).1[i + 1..])
    ensures |Run(START, bytes + [65, 47]).1| == |bytes| + 2
    ensures Run(START, bytes + [65, 47]).1[|bytes| + 1] ==
              if Run(START, bytes).1[i].Line? then Run(START, bytes).1[i] else Quiet
    ensures Run(START, bytes + [65, 47]).0 == Run(START, bytes).0.(line := "")
  {
    hide Step, Run, AllQuiet;
    RunRemembersLatestLine(START, bytes);
    var e := Run(START, bytes).0;
    var typed := e.(line := e.line + ['A']);
    StepA(e);
    StepSlashAfterA(typed);
    RunConcat(START, bytes, [65] + [47]);
    RunConcat(e, [65], [47]);
    RunOne(e, 65);
    RunOne(typed, 47);
    assert [65, 47] == [65] + [47];
  }

  // ------------------------------------------------------------------ by the numbers of the bytes

  /** The last character of a line is an A. */
  predicate EndsInA(line: string) {
    line != "" && (line[|line| - 1] == 'A' || line[|line| - 1] == 'a')
  }

  /** The byte ends the line being typed: Carriage Return or Line Feed, or the '/' of "A/"; the top bit is ignored. */
  predicate EndsLine(e: Editor, c: Byte) {
    c % 128 in {10, 13} || (c % 128 == 47 && EndsInA(e.line))
  }

  /** What other bytes type: Backspace and Delete erase, other control characters do nothing. */
  function KeysOfByte(c: Byte): seq<Keystroke<char>> {
    var low := c % 128;
    if low == 8 || low == 127 then [Erase] else if low < 32 then [] else [Type(low as char)]
  }

  /** The editing keys among the bytes. */
  function Keystrokes(bytes: seq<Byte>): seq<Keystroke<char>> {
    if bytes == [] then [] else Keystrokes(bytes[..|bytes| - 1]) + KeysOfByte(bytes[|bytes| - 1])
  }

  /** Bytes that do not end the line: one character less, nothing, or one more. */
  lemma StepEdits(e: Editor, c: Byte)
    requires !EndsLine(e, c)
    ensures var low, n := c % 128, |e.line|;
            Step(e, c) == (e.(line := if low == 8 || low == 127 then (if n == 0 then "" else e.line[..n - 1])
                                      else if low < 32 then e.line
                                      else e.line + [low as char]), Quiet)
  {
  }

  /** Bytes that do: the end of a typed line, or the repetition of the last one. */
  lemma StepEnds(e: Editor, c: Byte)
    requires EndsLine(e, c)
    ensures Step(e, c).0.line == ""
    ensures c % 128 == 47 ==>
              Step(e, c) == (e.(line := ""), if e.last.Some? then Line(e.last.value) else Quiet)
    ensures c % 128 != 47 && |e.line| >= 2048 ==> Step(e, c) == (Editor("", None), Overflow)
    ensures c % 128 != 47 && |e.line| < 2048 ==>
              match CommandPart(e.line)
              case None => Step(e, c) == (e.(line := ""), Quiet)
              case Some(text) => Step(e, c) == (Editor("", Some(text)), Line(text))
  {
  }

  predicate StaysOnLine(e: Editor, bytes: seq<Byte>)
    decreases |bytes|
  {
    bytes == [] || (!EndsLine(e, bytes[0]) && StaysOnLine(Step(e, bytes[0]).0, bytes[1..]))
  }

  lemma {:induction false} StaysOnLineSnoc(e: Editor, bytes: seq<Byte>)
    requires bytes != [] && StaysOnLine(e, bytes)
    ensures StaysOnLine(e, bytes[..|bytes| - 1])
    ensures !EndsLine(Run(e, bytes[..|bytes| - 1]).0, bytes[|bytes| - 1])
    decreases |bytes|
  {
    if |bytes| <= 1 {
    } else {
      StaysOnLineSnoc(Step(e, bytes[0]).0, bytes[1..]);
      assert bytes[1..][..|bytes| - 2] == bytes[..|bytes| - 1][1..];
    }
  }

  /** The line after the keys of one more byte. */
  function Typed(line: string, c: Byte): string {
    if KeysOfByte(c) == [] then line else Strike(line, KeysOfByte(c)[0])
  }

  lemma StepTypes(e: Editor, c: Byte)
    requires !EndsLine(e, c)
    ensures Step(e, c) == (e.(line := Typed(e.line, c)), Quiet)
  {
    StepEdits(e, c);
    hide Step;
  }

  lemma EditedTypes(before: seq<Byte>, c: Byte)
    ensures Edited(Keystrokes(before + [c])) == Typed(Edited(Keystrokes(before)), c)
  {
    assert (before + [c])[..|before|] == before;
    if KeysOfByte(c) == [] {
      assert Keystrokes(before) + [] == Keystrokes(before);
    } else {
      EditedSnoc(Keystrokes(before), KeysOfByte(c)[0]);
      assert KeysOfByte(c) == [KeysOfByte(c)[0]];
    }
  }

  lemma QuietSnoc(events: seq<Event>)
    ensures AllQuiet(events) ==> AllQuiet(events + [Quiet])
  {
  }

  lemma NothingTyped(e: Editor)
    ensures Run(e, []) == (e, []) && Survivors(Keystrokes([]), 0) == "" && AllQuiet([])
  {
  }

  /** While a line is being typed the editor holds exactly the keys that no later erase cancels. */
  lemma {:induction false} TypingHoldsSurvivors(e: Editor, bytes: seq<Byte>)
    requires e.line == "" && StaysOnLine(e, bytes)
    ensures Run(e, bytes).0 == e.(line := Survivors(Keystrokes(bytes), 0))
    ensures AllQuiet(Run(e, bytes).1)
    decreases |bytes|
  {
    hide Step, Edited, Survivors, Keystrokes, KeysOfByte, Typed, EndsLine, AllQuiet, Run;
    EditingCancelsFromTheEnd(Keystrokes(bytes));
    if bytes == [] {
      NothingTyped(e);
    } else {
      var before, c := bytes[..|bytes| - 1], bytes[|bytes| - 1];
      StaysOnLineSnoc(e, bytes);
      TypingHoldsSurvivors(e, before);
      EditingCancelsFromTheEnd(Keystrokes(before));
      assert before + [c] == bytes;
      RunConcat(e, before, [c]);
      RunOne(Run(e, before).0, c);
      StepTypes(Run(e, before).0, c);
      EditedTypes(before, c);
      QuietSnoc(Run(e, before).1);
    }
  }

  /**
   * One whole line: after Carriage Return the typed line is delivered from its first "AT" on and
   * remembered when it is shorter than the buffer; a longer one is dropped together with the memory.
   */
  lemma ReturnDeliversTypedLine(e: Editor, bytes: seq<Byte>)
    requires e.line == "" && StaysOnLine(e, bytes)
    ensures var line, part := Survivors(Keystrokes(bytes), 0), CommandPart(Survivors(Keystrokes(bytes), 0));
            && Run(e, bytes + [13]).0.line == ""
            && Run(e, bytes + [13]).0.last == (if |line| >= MAXLINE then None else if part.None? then e.last else part)
            && Run(e, bytes + [13]).1 == Run(e, bytes).1
                 + [if |line| >= MAXLINE then Overflow else if part.None? then Quiet else Line(part.value)]
    ensures AllQuiet(Run(e, bytes).1)
  {
    hide Run, Survivors, Keystrokes, StaysOnLine, CommandPart;
    TypingHoldsSurvivors(e, bytes);
    RunConcat(e, bytes, [13]);
    RunOne(Run(e, bytes).0, 13);
    StepReturn(Run(e, bytes).0);
  }

  lemma StepReturn(e: Editor)
    ensures Step(e, 13) == Completed(e, e.line)
  {
  }

  /** CommandPart is the suffix at the least position where "AT" occurs. */
  lemma {:induction false} CommandPartIsAtFirstAT(line: string)
    ensures CommandPart(line).None? <==> forall i :: 0 <= i <= |line| ==> !StartsWithAT(line[i..])
    ensures CommandPart(line).Some? ==>
              forall i :: 0 <= i < |line| - |CommandPart(line).value| ==> !StartsWithAT(line[i..])
    decreases |line|
  {
    assert line[0..] == line;
    if |line| >= 2 && !StartsWithAT(line) {
      CommandPartIsAtFirstAT(line[1..]);
      forall i | 1 <= i <= |line| ensures line[i..] == line[1..][i - 1..] {}
      if CommandPart(line).None? {
        forall i | 0 <= i <= |line| ensures !StartsWithAT(line[i..]) {
          if i > 0 { assert line[i..] == line[1..][i - 1..]; }
        }
      } else {
        var at := |line| - |CommandPart(line).value|;
        assert line[at..] == CommandPart(line).value;
      }
    } else if |line| >= 2 {
      assert !(forall i :: 0 <= i <= |line| ==> !StartsWithAT(line[i..]));
    }
  }

  // ------------------------------------------------------------------ the program's editor

  /** A piece of a character array, as the program's char pointers and lengths denote. */
  datatype Slice = Slice(a: array<char>, start: nat, len: nat)

  lemma CommandPartStep(s: string, i: nat)
    requires i + 2 <= |s|
    ensures CommandPart(s[i..]) ==
              if Lower(s[i]) == 'a' && Lower(s[i + 1]) == 't' then Some(s[i..]) else CommandPart(s[i + 1..])
  {
    assert s[i..][1..] == s[i + 1..];
  }

  /** at_find_prefix: moves a cursor over the text it reads to the first "AT". */
  method FindPrefix(str: string) returns (found: bool, at: nat)
    ensures at <= |str|
    ensures CommandPart(str) == if found then Some(str[at..]) else None
  {
    var len := |str|;
    at := 0;
    assert str[0..] == str;
    while len >= 2
      invariant at <= |str| && at + len == |str|
      invariant CommandPart(str[at..]) == CommandPart(str)
    {
      CommandPartStep(str, at);
      if Lower(str[at]) == 'a' && Lower(str[at + 1]) == 't' {
        return true, at;
      }
      at, len := at + 1, len - 1;
    }
    found := false;
  }

  class Parser {
    var length: nat
    var oldlength: nat
    var buf: array<char>
    var previous: array<char>
    ghost var edited: string

    ghost predicate Valid()
      reads this, buf, previous
    {
      && buf.Length == MAXLINE && previous.Length == MAXLINE && buf != previous
      && length == |edited|
      && (forall i :: 0 <= i < length && i < MAXLINE ==> buf[i] == edited[i])
      && (oldlength != 0 ==>
            oldlength < MAXLINE && previous[oldlength] == NUL && StartsWithAT(previous[..oldlength]))
    }

    ghost function View(): Editor
      requires Valid()
      reads this, buf, previous
    {
      Editor(edited, if oldlength == 0 then None else Some(previous[..oldlength]))
    }

    constructor ()
      ensures Valid() && fresh(buf) && fresh(previous)
      ensures View() == START
    {
      buf, previous := new char[MAXLINE], new char[MAXLINE];
      length, oldlength, edited := 0, 0, "";
    }

    /** The slice holds the line that the event delivers; there is a slice only for such an event. */
    ghost predicate Delivers(r: Option<Slice>, event: Event)
      reads buf, previous, this`buf, this`previous
    {
      match r
      case None => !event.Line?
      case Some(slice) =>
        && slice.a in {buf, previous} && slice.start + slice.len < slice.a.Length
        && slice.a[slice.start + slice.len] == NUL
        && event == Line(slice.a[slice.start..slice.start + slice.len])
    }

    /** at_parser_push. A '/' is only legal while the byte before it is still in the buffer. */
    method Push(c: Byte) returns (r: Option<Slice>)
      requires Valid()
      requires Normalise(c) == '/' ==> length <= MAXLINE
      modifies this, buf, previous
      ensures Valid() && buf == old(buf) && previous == old(previous)
      ensures View() == Step(old(View()), c).0
      ensures Delivers(r, Step(old(View()), c).1)
    {
      var k := Normalise(c);
      if k == BACKSPACE {
        if length > 0 {
          length := length - 1;
          edited := edited[..length];
        }
        return None;
      }
      if k == '/' && length >= 1 && (buf[length - 1] == 'A' || buf[length - 1] == 'a') {
        length, edited := 0, "";
        if oldlength == 0 {
          return None;
        }
        return Some(Slice(previous, 0, oldlength));
      }
      if k != '\r' {
        if k < ' ' {
          return None;
        }
        if length < buf.Length {
          buf[length] := k;
        }
        length, edited := length + 1, edited + [k];
        return None;
      }
      if length >= buf.Length {
        length, oldlength, edited := 0, 0, "";
        return None;
      }
      r := Complete();
    }

    /** The end of at_parser_push: a line that fits is searched, remembered and delivered. */
    method Complete() returns (r: Option<Slice>)
      requires Valid() && length < MAXLINE
      modifies this, buf, previous
      ensures Valid() && buf == old(buf) && previous == old(previous)
      ensures match CommandPart(old(edited))
              case None => View() == old(View()).(line := "") && r.None?
              case Some(text) => View() == Editor("", Some(text)) && Delivers(r, Line(text))
    {
      buf[length] := NUL;
      assert buf[..length] == edited;
      var found, at := FindPrefix(buf[..length]);
      var len := length - at;
      assert buf[..length][at..] == buf[at..at + len];
      if found {
        Remember(at, len);
      }
      length, edited := 0, "";
      r := if found then Some(Slice(buf, at, len)) else None;
    }

    /** memcpy (old, ret, len + 1). */
    method Remember(at: nat, len: nat)
      requires buf.Length == previous.Length == MAXLINE && buf != previous
      requires at + len < MAXLINE
      modifies this`oldlength, previous
      ensures oldlength == len && previous[..len] == buf[at..at + len] && previous[len] == buf[at + len]
    {
      forall i | 0 <= i <= len {
        previous[i] := buf[at + i];
      }
      oldlength := len;
    }
  }
}

/**
 * The reader thread: every byte goes to the line editor, and every line it delivers is executed. The
 * end-to-end results follow printed command lists from the keyboard to the handlers.
 */
module Session {
  import opened Ctype
  import opened LineEditor
  import opened CommandLines
  import opened Engine
  import opened Results
  import T = Tokenizer

  /**
   * The editor, the settings, the bank in use (0 before the first), the bytes that are still to come from the
   * terminal, all commands executed, all output.
   */
  datatype State = State(
    editor: Editor, settings: Settings, bank: nat, input: seq<Byte>, executed: seq<Call>, output: seq<Output>)

  /** The final results stay defined. */
  predicate Sane(s: State) {
    s.settings.cmee <= 2 && Sound(s.editor)
  }

  /** Before the first command of a line. */
  function Ready(s: State): Outcome {
    Outcome(s.settings, s.bank, s.input, s.executed, s.output, AT_OK)
  }

  /** After the last one, and the final result. */
  function Concluded(s: State, o: Outcome): State
    requires o.settings.cmee <= 2
  {
    State(s.editor, o.settings, o.bank, o.input, o.executed, o.output + Replies(o.settings, o.code))
  }

  /** A delivered line is executed to its end before the next byte is read. */
  function Deliver(exec: Handlers, s: State, text: string): (s': State)
    requires s.settings.cmee <= 2 && |text| >= 2
    ensures s'.settings.cmee <= 2 && |s'.input| <= |s.input|
  {
    RunKeepsCmee(exec, T.ParseOf(text[2..]), Ready(s));
    RunStaysOnBank(exec, T.ParseOf(text[2..]), Ready(s));
    Concluded(s, RunFrom(exec, T.ParseOf(text[2..]), Ready(s)))
  }

  function Feed(exec: Handlers, s: State, c: Byte): (s': State)
    requires Sane(s)
    ensures Sane(s') && |s'.input| <= |s.input|
  {
    var (e, event) := Step(s.editor, c);
    RunDeliversCommandLines(s.editor, [c]);
    RunOne(s.editor, c);
    match event
    case Line(text) =>
      assert Run(s.editor, [c]).1[0] == Line(text);
      Deliver(exec, s, text).(editor := e)
    case _ => s.(editor := e)
  }

  /** The head of the loop: a pending reset replaces the bank. */
  function TakeReset(s: State): (s': State)
    ensures Sane(s) ==> Sane(s')
  {
    if s.settings.reset then s.(bank := s.bank + 1, settings := s.settings.(reset := false)) else s
  }

  /** One turn of the loop, on the next byte. */
  function Turn(exec: Handlers, s: State): (s': State)
    requires Sane(s) && s.input != []
    ensures Sane(s') && |s'.input| < |s.input|
  {
    Feed(exec, TakeReset(s).(input := s.input[1..]), s.input[0])
  }

  /** The reading loop, until the modem is hung up or no byte is left. */
  function FeedAll(exec: Handlers, s: State): (s': State)
    requires Sane(s)
    ensures Sane(s')
    decreases |s.input|
  {
    if s.settings.hungup then s
    else if s.input == [] then TakeReset(s)
    else FeedAll(exec, Turn(exec, s))
  }

  /** No '/' is read from the terminal while the line is longer than the buffer. */
  predicate SlashSafe(exec: Handlers, s: State)
    requires Sane(s)
    decreases |s.input|
  {
    s.settings.hungup || s.input == [] ||
    ((Normalise(s.input[0]) == '/' ==> |s.editor.line| <= MAXLINE) && SlashSafe(exec, Turn(exec, s)))
  }

  /** The state that the program's editor and modem are in. */
  ghost function View(parser: Parser, modem: Modem): State
    requires parser.Valid()
    reads parser, parser.buf, parser.previous, modem
  {
    State(parser.View(), modem.settings, modem.bank, modem.input, modem.executed, modem.output)
  }

  lemma TurnTakesReset(exec: Handlers, s: State)
    requires Sane(s) && s.input != []
    ensures Turn(exec, TakeReset(s)) == Turn(exec, s) && TakeReset(TakeReset(s)) == TakeReset(s)
  {
  }

  /** The reading loop of dte_thread, on all that the terminal will send. */
  method ReadLines(parser: Parser, modem: Modem, exec: Handlers)
    requires parser.Valid() && Sane(View(parser, modem)) && SlashSafe(exec, View(parser, modem))
    modifies parser, parser.buf, parser.previous, modem
    ensures parser.Valid() && View(parser, modem) == FeedAll(exec, old(View(parser, modem)))
  {
    hide Feed, Sound, Turn;
    ghost var begin := View(parser, modem);
    while !modem.settings.hungup
      invariant parser.buf == old(parser.buf) && parser.previous == old(parser.previous)
      invariant parser.Valid() && Sane(View(parser, modem)) && SlashSafe(exec, View(parser, modem))
      invariant FeedAll(exec, begin) == FeedAll(exec, View(parser, modem))
      decreases |modem.input|
    {
      ghost var s := View(parser, modem);
      if modem.settings.reset {
        modem.Reinitialise();
      }
      if modem.input == [] {
        return;
      }
      TurnTakesReset(exec, s);
      ghost var s1 := View(parser, modem);
      var c := modem.GetByte();
      TurnIsFeed(exec, s1, c, View(parser, modem));
      ReadByte(parser, modem, exec, c);
    }
  }

  lemma TurnIsFeed(exec: Handlers, s: State, c: Byte, s': State)
    requires Sane(s) && !s.settings.reset && [c] + s'.input == s.input && s' == s.(input := s'.input)
    ensures Sane(s') && s.input[0] == c && Turn(exec, s) == Feed(exec, s', c)
  {
    assert s.input[1..] == s'.input;
  }

  /** Executes the line that the editor delivers; the editor's buffers come out as they went in. */
  method ExecuteSlice(parser: Parser, modem: Modem, exec: Handlers, slice: Slice)
    requires parser.Valid() && modem.settings.cmee <= 2
    requires slice.a in {parser.buf, parser.previous} && slice.start + slice.len < slice.a.Length
    requires slice.a[slice.start + slice.len] == NUL
    requires var text := slice.a[slice.start..slice.start + slice.len]; StartsWithAT(text) && NulFree(text)
    modifies slice.a, modem
    ensures parser.Valid()
    ensures View(parser, modem) ==
            Deliver(exec, old(View(parser, modem)), old(slice.a[slice.start..slice.start + slice.len]))
  {
    hide RunFrom, Replies, NulFree, T.ParseOf;
    ghost var text := slice.a[slice.start..slice.start + slice.len];
    assert slice.a[slice.start + 2..slice.start + slice.len] == text[2..];
    modem.ProcessLine(exec, slice.a, slice.start, slice.len);
    ViewStays(parser);
  }

  /** The editor's state is in its fields and the contents of its buffers. */
  twostate lemma ViewStays(parser: Parser)
    requires old(parser.Valid()) && unchanged(parser)
    requires parser.buf[..] == old(parser.buf[..]) && parser.previous[..] == old(parser.previous[..])
    ensures parser.Valid() && parser.View() == old(parser.View())
  {
    assert forall i :: 0 <= i < MAXLINE ==> parser.buf[i] == parser.buf[..][i] == old(parser.buf[..])[i];
    assert forall i :: 0 <= i < MAXLINE ==> parser.previous[i] == parser.previous[..][i];
  }

  /** One turn of the loop, after the byte has come. */
  method ReadByte(parser: Parser, modem: Modem, exec: Handlers, c: Byte)
    requires parser.Valid() && Sane(View(parser, modem))
    requires Normalise(c) == '/' ==> |parser.View().line| <= MAXLINE
    modifies parser, parser.buf, parser.previous, modem
    ensures parser.buf == old(parser.buf) && parser.previous == old(parser.previous) && parser.Valid()
    ensures View(parser, modem) == Feed(exec, old(View(parser, modem)), c)
  {
    hide Step, RunFrom, Replies, Sound, Deliver;
    ghost var s := View(parser, modem);
    var r := parser.Push(c);
    if r.Some? {
      ghost var text := r.value.a[r.value.start..r.value.start + r.value.len];
      DeliveredIsCommandLine(s.editor, c, text);
      DeliverIgnoresEditor(exec, s, View(parser, modem), text);
      ExecuteSlice(parser, modem, exec, r.value);
    }
  }

  lemma DeliveredIsCommandLine(e: Editor, c: Byte, text: string)
    requires Sound(e) && Step(e, c).1 == Line(text)
    ensures StartsWithAT(text) && NulFree(text)
  {
    hide Step;
    RunDeliversCommandLines(e, [c]);
    RunOne(e, c);
    assert Run(e, [c]).1[0] == Line(text);
  }

  // ------------------------------------------------------------------ what a line puts out

  /**
   * From s a line has come to s': its commands were handled in order up to the first failure; they have changed
   * the settings and taken the input; the terminal got first all that they put out, in order, then, unless in
   * quiet mode, one final result, which reports that of the line.
   */
  predicate LineDone(exec: Handlers, s: State, texts: seq<string>, rest: string, es: seq<Execution>, s': State) {
    && StopsAtFailure(texts, es) && HandledInOrder(exec, Ready(s), texts, es)
    && s'.settings == ApplyAll(s.settings, SettersOf(es)) && s'.bank == s.bank && s'.editor == s.editor
    && s'.executed == s.executed + Calls(s.bank, texts[..|es|]) && s'.input == Unread(s.input, TakenBy(es))
    && EndsWithResult(s.output + Shown(OutputOf(es)), s'.settings, ResultOf(es, rest), s'.output)
  }

  predicate EndsWithResult(printed: seq<Output>, settings: Settings, res: nat, output: seq<Output>) {
    if settings.quiet then output == printed
    else
      && |output| == |printed| + 1 && output[..|printed|] == printed
      && output[|printed|].Final? && Reports(settings, res, output[|printed|].reply)
  }

  /** Every delivered line is done so. */
  lemma LineEndsWithItsResult(exec: Handlers, s: State, text: string)
    requires s.settings.cmee <= 2 && |text| >= 2
    ensures var p := T.ParseOf(text[2..]);
            LineDone(exec, s, T.Texts(p), T.Rest(p), Trace(exec, p, Ready(s)), Deliver(exec, s, text))
  {
    hide RunFrom, Trace, T.ParseOf, T.Texts, T.Rest, Replies, Reports, ApplyAll, ResultOf, Shown, OutputOf;
    hide HandledInOrder, Unread, Calls, SettersOf, TakenBy, StopsAtFailure;
    var p := T.ParseOf(text[2..]);
    LineIsItsTrace(exec, p, Ready(s));
    RunKeepsCmee(exec, p, Ready(s));
    var final := RunFrom(exec, p, Ready(s));
    RepliesReport(final.settings, final.code);
  }

  /** In words: the last thing that a line puts out is OK if and only if everything in it succeeded. */
  lemma LineEndsWithOkIff(exec: Handlers, s: State, text: string)
    requires s.settings.cmee <= 2 && |text| >= 2
    requires var now := Deliver(exec, s, text).settings; !now.quiet && now.verbose
    ensures var p, output := T.ParseOf(text[2..]), Deliver(exec, s, text).output;
            && output != []
            && (output[|output| - 1] == Final(Words("OK")) <==>
                  T.Rest(p) == "" && forall i :: 0 <= i < |Trace(exec, p, Ready(s))| ==>
                    Trace(exec, p, Ready(s))[i].code == 0)
  {
    var p := T.ParseOf(text[2..]);
    var es, now := Trace(exec, p, Ready(s)), Deliver(exec, s, text).settings;
    LineEndsWithItsResult(exec, s, text);
    hide Deliver, Trace, T.ParseOf, T.Texts, T.Rest, HandledInOrder, Calls, ApplyAll, Unread, Shown, Reports;
    OnlyOkReportsOk(now, ResultOf(es, T.Rest(p)));
  }

  lemma OnlyOkReportsOk(s: Settings, res: nat)
    requires s.verbose
    ensures Reports(s, res, Words("OK")) <==> res == 0
  {
    WordsAreNotOk();
  }

  lemma WordsAreNotOk()
    ensures forall res :: 1 <= res <= 8 ==> Wording(res) != "OK"
    ensures "ERROR" != "OK"
  {
    assert |"ERROR"| == 5 && |"CONNECT"| == 7 && |"RING"| == |"BUSY"| == 4 && |"NO CARRIER"| == 10;
    assert |"NO DIALTONE"| == 11 && |"NO ANSWER"| == 9;
  }

  // ------------------------------------------------------------------ banks over command lines

  /** What one byte makes the modem execute is appended, on the bank in use. */
  lemma LineStaysOnBank(exec: Handlers, s: State, c: Byte)
    requires Sane(s)
    ensures var s' := Feed(exec, s, c);
            && s'.bank == s.bank && s.executed <= s'.executed
            && forall i :: |s.executed| <= i < |s'.executed| ==> s'.executed[i].bank == s.bank
  {
    hide Step, RunFrom, Replies, Sound;
    if Step(s.editor, c).1.Line? {
      var text := Step(s.editor, c).1.text;
      DeliveredIsCommandLine(s.editor, c, text);
      RunStaysOnBank(exec, T.ParseOf(text[2..]), Ready(s));
    }
  }

  /**
   * A reset that a line asks for takes effect before the next byte is read, and not earlier: the line is
   * executed on the bank before it, whatever comes after on a new one.
   */
  lemma ResetWaitsForLineEnd(exec: Handlers, s: State, c: Byte)
    requires Sane(s) && !s.settings.hungup && !s.settings.reset
    ensures var s1 := Feed(exec, s, c);
            var s2 := FeedAll(exec, s1);
            !s1.settings.hungup ==>
              && s.bank == s1.bank && s2.bank >= s1.bank + (if s1.settings.reset then 1 else 0)
              && s1.executed <= s2.executed
              && (forall i :: |s.executed| <= i < |s1.executed| ==> s1.executed[i].bank == s.bank)
              && forall i :: |s1.executed| <= i < |s2.executed| ==>
                   s2.executed[i].bank >= s.bank + (if s1.settings.reset then 1 else 0)
  {
    hide Feed, FeedAll, Sane;
    LineStaysOnBank(exec, s, c);
    BanksAscend(exec, Feed(exec, s, c));
  }

  lemma TurnStaysOnBank(exec: Handlers, s: State)
    requires Sane(s) && s.input != []
    ensures var s' := Turn(exec, s);
            && s'.bank == TakeReset(s).bank && s.executed <= s'.executed
            && forall i :: |s.executed| <= i < |s'.executed| ==> s'.executed[i].bank == s'.bank
  {
    hide Feed, Sound;
    LineStaysOnBank(exec, TakeReset(s).(input := s.input[1..]), s.input[0]);
  }

  /** Over every run commands are appended, on banks that never go back, and no reset is left pending. */
  lemma {:induction false} BanksAscend(exec: Handlers, s: State)
    requires Sane(s)
    ensures var s' := FeedAll(exec, s);
            var low := if s.settings.hungup then s.bank else TakeReset(s).bank;
            && low <= s'.bank && s.executed <= s'.executed && (s'.settings.hungup || !s'.settings.reset)
            && (forall i :: |s.executed| <= i < |s'.executed| ==> low <= s'.executed[i].bank <= s'.bank)
            && forall i, j :: |s.executed| <= i < j < |s'.executed| ==>
                 s'.executed[i].bank <= s'.executed[j].bank
    decreases |s.input|
  {
    hide Turn, Sane;
    if s.settings.hungup || s.input == [] {
    } else {
      TurnStaysOnBank(exec, s);
      BanksAscend(exec, Turn(exec, s));
    }
  }

  /** A bank is only replaced because some command asked for a reset. */
  ghost predicate NeverResets(exec: Handlers) {
    forall past: seq<Call>, settings: Settings, input: seq<Byte>, call: Call ::
      ResetModem !in exec(past, settings, input, call).setters
  }

  lemma {:induction false} SettersKeepNoReset(s: Settings, ops: seq<Setter>)
    requires !s.reset && ResetModem !in ops
    ensures !ApplyAll(s, ops).reset
    decreases |ops|
  {
    if ops == [] {
    } else {
      SettersKeepNoReset(Apply(s, ops[0]), ops[1..]);
    }
  }

  lemma {:induction false} RunKeepsNoReset(exec: Handlers, p: T.Parse, o: Outcome)
    requires NeverResets(exec) && !o.settings.reset
    ensures !RunFrom(exec, p, o).settings.reset
    decreases p
  {
    if p.End? {
    } else {
      SettersKeepNoReset(o.settings, exec(o.executed, o.settings, o.input, Call(o.bank, p.text)).setters);
      RunKeepsNoReset(exec, p.more, Execute(exec, o, p.text));
    }
  }

  lemma FeedKeepsNoReset(exec: Handlers, s: State, c: Byte)
    requires NeverResets(exec) && Sane(s) && !s.settings.reset
    ensures !Feed(exec, s, c).settings.reset && Feed(exec, s, c).bank == s.bank
  {
    hide Step, RunFrom, Replies, Sound, NeverResets;
    LineStaysOnBank(exec, s, c);
    if Step(s.editor, c).1.Line? {
      var text := Step(s.editor, c).1.text;
      DeliveredIsCommandLine(s.editor, c, text);
      RunKeepsNoReset(exec, T.ParseOf(text[2..]), Ready(s));
    }
  }

  lemma {:induction false} BankOnlyChangesByReset(exec: Handlers, s: State)
    requires NeverResets(exec) && Sane(s) && !s.settings.reset
    ensures FeedAll(exec, s).bank == s.bank
    decreases |s.input|
  {
    hide Feed, NeverResets, Sound;
    if s.settings.hungup || s.input == [] {
    } else {
      FeedKeepsNoReset(exec, s.(input := s.input[1..]), s.input[0]);
      BankOnlyChangesByReset(exec, Turn(exec, s));
    }
  }

  // ------------------------------------------------------------------ the editor over command lines

  /** Commands that leave the input to the editor and do not hang up. */
  ghost predicate LeavesInput(exec: Handlers) {
    forall past: seq<Call>, settings: Settings, input: seq<Byte>, call: Call ::
      exec(past, settings, input, call).taken == 0 && HangUp !in exec(past, settings, input, call).setters
  }

  lemma {:induction false} SettersKeepUp(s: Settings, ops: seq<Setter>)
    requires !s.hungup && HangUp !in ops
    ensures !ApplyAll(s, ops).hungup
    decreases |ops|
  {
    if ops == [] {
    } else {
      SettersKeepUp(Apply(s, ops[0]), ops[1..]);
    }
  }

  lemma {:induction false} RunLeavesInput(exec: Handlers, p: T.Parse, o: Outcome)
    requires LeavesInput(exec) && !o.settings.hungup
    ensures RunFrom(exec, p, o).input == o.input && !RunFrom(exec, p, o).settings.hungup
    decreases p
  {
    if p.End? {
    } else {
      var e := exec(o.executed, o.settings, o.input, Call(o.bank, p.text));
      SettersKeepUp(o.settings, e.setters);
      assert o.input[0..] == o.input;
      RunLeavesInput(exec, p.more, Execute(exec, o, p.text));
    }
  }

  lemma FeedLeavesInput(exec: Handlers, s: State, c: Byte)
    requires LeavesInput(exec) && Sane(s) && !s.settings.hungup
    ensures var s' := Feed(exec, s, c);
            s'.editor == Step(s.editor, c).0 && s'.input == s.input && !s'.settings.hungup
  {
    hide Step, RunFrom, Replies, Sound, LeavesInput;
    if Step(s.editor, c).1.Line? {
      var text := Step(s.editor, c).1.text;
      DeliveredIsCommandLine(s.editor, c, text);
      RunLeavesInput(exec, T.ParseOf(text[2..]), Ready(s));
    }
  }

  /** Every byte of the input goes to the editor once, in order. */
  lemma {:induction false} EditorGetsAllInput(exec: Handlers, s: State)
    requires LeavesInput(exec) && Sane(s) && !s.settings.hungup
    ensures FeedAll(exec, s).editor == Run(s.editor, s.input).0 && FeedAll(exec, s).input == []
    decreases |s.input|
  {
    hide Feed, LeavesInput, Sound, Step;
    if s.input == [] {
    } else {
      FeedLeavesInput(exec, TakeReset(s).(input := s.input[1..]), s.input[0]);
      EditorGetsAllInput(exec, Turn(exec, s));
    }
  }

  // ------------------------------------------------------------------ from the keyboard to the handlers

  function ByteOf(c: char): Byte
    requires IsPrintable(c)
  {
    c as int
  }

  function BytesOf(text: string): seq<Byte>
    requires forall i :: 0 <= i < |text| ==> IsPrintable(text[i])
  {
    seq(|text|, i requires 0 <= i < |text| && IsPrintable(text[i]) => ByteOf(text[i]))
  }

  /** Text that can be typed as it stands: printable, and never an A and a slash in a row. */
  predicate Typable(text: string) {
    && (forall i :: 0 <= i < |text| ==> IsPrintable(text[i]))
    && (forall i :: 0 < i < |text| && text[i] == '/' ==> Lower(text[i - 1]) != 'a')
  }

  lemma TypingOneCharacter(exec: Handlers, s: State, text: string, n: nat)
    requires n < |text| && Typable(text) && s.editor.line == text[..n] && Sane(s)
    ensures Feed(exec, s, ByteOf(text[n])) == s.(editor := s.editor.(line := text[..n + 1]))
  {
    hide Deliver;
    var c := ByteOf(text[n]);
    assert Normalise(c) == text[n];
    assert n > 0 ==> s.editor.line[n - 1] == text[n - 1];
    assert text[..n] + [text[n]] == text[..n + 1];
    assert Step(s.editor, c) == (s.editor.(line := text[..n + 1]), Quiet);
  }

  /** While a text is typed, the line grows to it, and nothing else happens. */
  lemma {:induction false} TypingAppends(exec: Handlers, s: State, text: string, n: nat, more: seq<Byte>)
    requires n <= |text| && Typable(text) && s.editor.line == text[..n] && Sane(s)
    requires s.input == BytesOf(text)[n..] + more && !s.settings.hungup && !s.settings.reset
    ensures Sane(s.(editor := s.editor.(line := text), input := more))
    ensures FeedAll(exec, s) == FeedAll(exec, s.(editor := s.editor.(line := text), input := more))
    decreases |text| - n
  {
    hide Feed;
    if n == |text| {
      assert s.input == more && text[..n] == text;
    } else {
      var rest := BytesOf(text)[n + 1..] + more;
      assert s.input[0] == ByteOf(text[n]) && s.input[1..] == rest;
      TypingOneCharacter(exec, s.(input := rest), text, n);
      TypingAppends(exec, Turn(exec, s), text, n + 1, more);
    }
  }

  lemma FeedAllTakesReset(exec: Handlers, s: State)
    requires Sane(s) && !s.settings.hungup
    ensures FeedAll(exec, s) == FeedAll(exec, TakeReset(s))
  {
    hide Feed;
  }

  /**
   * Nothing is read once the modem is hung up. Else a reset makes a new bank, and changes nothing but its flag,
   * before the loop waits for a byte.
   */
  lemma HeadOfLoop(exec: Handlers, s: State)
    requires Sane(s)
    ensures s.settings.hungup ==> FeedAll(exec, s) == s
    ensures !s.settings.hungup ==>
              var kept := Settings(s.settings.echo, s.settings.quiet, s.settings.verbose, s.settings.rateReport,
                                   s.settings.cmee, s.settings.charset, false, false);
              var waiting := (input: seq<Byte>) =>
                State(s.editor, kept, s.bank + (if s.settings.reset then 1 else 0), input, s.executed, s.output);
              && FeedAll(exec, s.(input := [])) == waiting([])
              && FeedAll(exec, s) == FeedAll(exec, waiting(s.input))
  {
    hide Turn, Sound;
    if !s.settings.hungup {
      FeedAllTakesReset(exec, s);
    }
  }

  lemma FeedAllNext(exec: Handlers, s: State, c: Byte, more: seq<Byte>)
    requires Sane(s) && !s.settings.hungup && !s.settings.reset && s.input == [c] + more
    ensures FeedAll(exec, s) == FeedAll(exec, Feed(exec, s.(input := more), c))
  {
    hide Feed;
    assert s.input[1..] == more;
  }

  /** The state after a command line that was typed or repeated, with the bytes after it yet to come. */
  function AfterLine(exec: Handlers, s: State, text: string, more: seq<Byte>): (s': State)
    requires Sane(s) && IsCommandLine(text)
    ensures Sane(s')
  {
    Deliver(exec, TakeReset(s).(input := more), text).(editor := Editor("", Some(text)))
  }

  /** A command line typed on an empty line and ended by Carriage Return is delivered and remembered. */
  lemma TypedLineIsDelivered(exec: Handlers, s: State, text: string, more: seq<Byte>)
    requires Sane(s) && s.editor.line == "" && !s.settings.hungup
    requires Typable(text) && StartsWithAT(text) && |text| < MAXLINE && s.input == BytesOf(text) + [13] + more
    ensures FeedAll(exec, s) == FeedAll(exec, AfterLine(exec, s, text, more))
  {
    hide Deliver, FeedAll, BytesOf, Feed, Sound;
    var s0 := TakeReset(s);
    FeedAllTakesReset(exec, s);
    assert text[..0] == "" && BytesOf(text)[0..] == BytesOf(text);
    assert s0.input == BytesOf(text)[0..] + ([13] + more);
    TypingAppends(exec, s0, text, 0, [13] + more);
    var typed := s0.(editor := s0.editor.(line := text), input := [13] + more);
    FeedAllNext(exec, typed, 13, more);
    ReturnDelivers(exec, typed.(input := more), text);
    DeliverIgnoresEditor(exec, s0.(input := more), typed.(input := more), text);
  }

  lemma ReturnDelivers(exec: Handlers, s: State, text: string)
    requires Sane(s) && s.editor.line == text && StartsWithAT(text) && |text| < MAXLINE
    ensures Feed(exec, s, 13) == Deliver(exec, s, text).(editor := Editor("", Some(text)))
  {
    hide Deliver;
    assert Step(s.editor, 13) == (Editor("", Some(text)), Line(text));
  }

  lemma DeliverIgnoresEditor(exec: Handlers, s: State, s': State, text: string)
    requires s.settings.cmee <= 2 && |text| >= 2 && s' == s.(editor := s'.editor)
    ensures Deliver(exec, s', text) == Deliver(exec, s, text).(editor := s'.editor)
  {
  }

  /** "A/" on an empty line delivers the remembered line again. */
  lemma RepeatDeliversAgain(exec: Handlers, s: State, text: string, more: seq<Byte>)
    requires Sane(s) && s.editor == Editor("", Some(text)) && !s.settings.hungup && s.input == [65, 47] + more
    ensures FeedAll(exec, s) == FeedAll(exec, AfterLine(exec, s, text, more))
  {
    hide Deliver, FeedAll, Sound, Feed;
    var s0 := TakeReset(s);
    FeedAllTakesReset(exec, s);
    assert s0.input == [65] + ([47] + more);
    FeedAllNext(exec, s0, 65, [47] + more);
    FeedA(exec, s0.(input := [47] + more), text);
    var typed := s0.(input := [47] + more, editor := Editor("A", Some(text)));
    FeedAllNext(exec, typed, 47, more);
    FeedSlash(exec, typed.(input := more), text);
    DeliverIgnoresEditor(exec, s0.(input := more), typed.(input := more), text);
    DeliverKeepsEditor(exec, s0.(input := more), text);
  }

  lemma FeedA(exec: Handlers, s: State, text: string)
    requires Sane(s) && s.editor == Editor("", Some(text))
    ensures Feed(exec, s, 65) == s.(editor := Editor("A", Some(text)))
  {
    assert "" + ['A'] == "A";
    assert Step(s.editor, 65) == (Editor("A", Some(text)), Quiet);
  }

  lemma FeedSlash(exec: Handlers, s: State, text: string)
    requires Sane(s) && s.editor == Editor("A", Some(text))
    ensures |text| >= 2 && Feed(exec, s, 47) == Deliver(exec, s, text).(editor := Editor("", Some(text)))
  {
    hide Deliver;
    assert Step(s.editor, 47) == (Editor("", Some(text)), Line(text));
  }

  lemma DeliverKeepsEditor(exec: Handlers, s: State, text: string)
    requires s.settings.cmee <= 2 && |text| >= 2
    ensures Deliver(exec, s, text).editor == s.editor
  {
  }

  /** Running a line of printed commands executes a prefix of the list, and replies once unless quiet. */
  ghost predicate ExecutesList(exec: Handlers, before: State, after: State, cmds: seq<Cmd>) {
    exists n: nat, final: Outcome :: n <= |cmds| && ExecutesSome(exec, before, after, TextsOf(cmds), n, final)
  }

  predicate ExecutesSome(exec: Handlers, before: State, after: State, texts: seq<string>, n: nat, final: Outcome)
    requires n <= |texts|
  {
    && RanPrefix(exec, texts, Ready(before), final, n)
    && final.code == After(exec, Ready(before), texts[..n]).code
    && final.executed == before.executed + Calls(before.bank, texts[..n])
    && final.settings.cmee <= 2 && after == Concluded(before, final).(editor := after.editor)
  }

  lemma {:induction false} AfterExecutes(exec: Handlers, o: Outcome, texts: seq<string>)
    ensures After(exec, o, texts).bank == o.bank
    ensures After(exec, o, texts).executed == o.executed + Calls(o.bank, texts)
    decreases |texts|
  {
    if texts == [] {
    } else {
      var before, last := texts[..|texts| - 1], texts[|texts| - 1];
      AfterExecutes(exec, o, before);
      assert Calls(o.bank, texts) == Calls(o.bank, before) + [Call(o.bank, last)];
    }
  }

  lemma DeliveryExecutesList(exec: Handlers, s: State, cmds: seq<Cmd>, e: Editor)
    requires s.settings.cmee <= 2 && WellFormedList(cmds)
    ensures ExecutesList(exec, s, Deliver(exec, s, "AT" + Print(cmds)).(editor := e), cmds)
  {
    hide RanPrefix, After, Print, T.Texts, T.Rest, T.ParseOf, Calls, Replies;
    var text := "AT" + Print(cmds);
    assert text[2..] == Print(cmds);
    var p, o := T.ParseOf(Print(cmds)), Ready(s);
    PrintedListParsesBack(cmds);
    RunKeepsCmee(exec, p, o);
    RunExecutesUpToFailure(exec, p, o);
    var final := RunFrom(exec, p, o);
    var n: nat :| n <= |T.Texts(p)| && RanPrefix(exec, T.Texts(p), o, final, n)
                  && final.code == if After(exec, o, T.Texts(p)[..n]).code != AT_OK
                                   then After(exec, o, T.Texts(p)[..n]).code
                                   else if T.Rest(p) != "" then AT_ERROR else AT_OK;
    AfterExecutes(exec, o, TextsOf(cmds)[..n]);
    RanPrefixExecuted(exec, TextsOf(cmds), o, final, n);
    assert ExecutesSome(exec, s, Deliver(exec, s, text).(editor := e), TextsOf(cmds), n, final);
  }

  lemma RanPrefixExecuted(exec: Handlers, texts: seq<string>, o: Outcome, final: Outcome, n: nat)
    requires n <= |texts| && RanPrefix(exec, texts, o, final, n)
    ensures final.executed == After(exec, o, texts[..n]).executed
  {
  }

  /**
   * End to end: typing "AT", a printed list of well-formed commands and Carriage Return executes exactly
   * those commands, in order, up to the first failure, with one reply; then the loop goes on with the input
   * that its commands have left. When that starts with "A/", it does it all over again.
   */
  lemma TypedListIsExecuted(exec: Handlers, s: State, cmds: seq<Cmd>, more: seq<Byte>, again: seq<Byte>)
    requires Sane(s) && s.editor.line == "" && !s.settings.hungup && WellFormedList(cmds)
    requires Typable("AT" + Print(cmds)) && |Print(cmds)| + 2 < MAXLINE
    requires s.input == BytesOf("AT" + Print(cmds)) + [13] + more
    ensures var s1 := AfterLine(exec, s, "AT" + Print(cmds), more);
            && FeedAll(exec, s) == FeedAll(exec, s1) && ExecutesList(exec, TakeReset(s).(input := more), s1, cmds)
            && (!s1.settings.hungup && s1.input == [65, 47] + again ==>
                  var s2 := AfterLine(exec, s1, "AT" + Print(cmds), again);
                  && FeedAll(exec, s1) == FeedAll(exec, s2)
                  && ExecutesList(exec, TakeReset(s1).(input := again), s2, cmds))
  {
    hide Deliver, FeedAll, BytesOf, ExecutesList, WellFormedList, Sound;
    var text := "AT" + Print(cmds);
    assert StartsWithAT(text) by { assert text[0] == 'A' && text[1] == 'T'; }
    TypedLineIsDelivered(exec, s, text, more);
    DeliveryExecutesList(exec, TakeReset(s).(input := more), cmds, Editor("", Some(text)));
    var s1 := AfterLine(exec, s, text, more);
    if !s1.settings.hungup && s1.input == [65, 47] + again {
      RepeatDeliversAgain(exec, s1, text, again);
      DeliveryExecutesList(exec, TakeReset(s1).(input := again), cmds, Editor("", Some(text)));
    }
  }
}

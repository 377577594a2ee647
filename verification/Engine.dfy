/**
 * The modem engine: settings, the final result of a command line, and the line executor. Command handlers
 * are a parameter: each changes the modem through its setters only, and may depend on all that came before.
 */
module Engine {
  import opened Ctype
  import opened LineEditor
  import opened Tokenizer
  import opened CommandLines
  import opened Results
  import E = ErrorTable

  const MESSAGES: seq<string> :=
    ["OK", "CONNECT", "RING", "NO CARRIER", "ERROR", "ERROR", "NO DIALTONE", "BUSY", "NO ANSWER"]

  // ------------------------------------------------------------------ settings

  datatype Settings = Settings(
    echo: bool, quiet: bool, verbose: bool, rateReport: bool, cmee: nat, charset: nat,
    hungup: bool, reset: bool)

  /** The operations through which handlers change the modem; a +CMEE value comes from the terminal. */
  datatype Setter =
    | SetEcho(on: bool)
    | SetQuiet(on: bool)
    | SetVerbose(on: bool)
    | SetRateReport(on: bool)
    | SetCharset(number: nat)
    | CmeeCommand(value: int)
    | HangUp
    | ResetModem

  const DEFAULTS := Settings(true, false, true, false, 1, 0, false, true)

  function Apply(s: Settings, op: Setter): Settings {
    match op
    case SetEcho(on) => s.(echo := on)
    case SetQuiet(on) => s.(quiet := on)
    case SetVerbose(on) => s.(verbose := on)
    case SetRateReport(on) => s.(rateReport := on)
    case SetCharset(number) => s.(charset := number)
    case CmeeCommand(value) => if 0 <= value <= 2 then s.(cmee := value) else s
    case HangUp => s.(hungup := true)
    case ResetModem => DEFAULTS
  }

  function ApplyAll(s: Settings, ops: seq<Setter>): Settings
    decreases |ops|
  {
    if ops == [] then s else ApplyAll(Apply(s, ops[0]), ops[1..])
  }

  /** Whatever handlers do, the error reporting mode stays one of the three modes. */
  lemma {:induction false} SettersKeepCmee(s: Settings, ops: seq<Setter>)
    requires s.cmee <= 2
    ensures ApplyAll(s, ops).cmee <= 2
    decreases |ops|
  {
    if ops == [] {
    } else {
      SettersKeepCmee(Apply(s, ops[0]), ops[1..]);
    }
  }

  /** Each setter sets its own setting and leaves the others; a reset sets all of them. */
  lemma EachSetterSetsItsOwn(s: Settings, on: bool, n: nat, value: int)
    ensures Apply(s, SetEcho(on)) ==
            Settings(on, s.quiet, s.verbose, s.rateReport, s.cmee, s.charset, s.hungup, s.reset)
    ensures Apply(s, SetQuiet(on)) ==
            Settings(s.echo, on, s.verbose, s.rateReport, s.cmee, s.charset, s.hungup, s.reset)
    ensures Apply(s, SetVerbose(on)) ==
            Settings(s.echo, s.quiet, on, s.rateReport, s.cmee, s.charset, s.hungup, s.reset)
    ensures Apply(s, SetRateReport(on)) ==
            Settings(s.echo, s.quiet, s.verbose, on, s.cmee, s.charset, s.hungup, s.reset)
    ensures Apply(s, CmeeCommand(value)) ==
            Settings(s.echo, s.quiet, s.verbose, s.rateReport, if 0 <= value <= 2 then value else s.cmee, s.charset,
                     s.hungup, s.reset)
    ensures Apply(s, SetCharset(n)) ==
            Settings(s.echo, s.quiet, s.verbose, s.rateReport, s.cmee, n, s.hungup, s.reset)
    ensures Apply(s, HangUp) ==
            Settings(s.echo, s.quiet, s.verbose, s.rateReport, s.cmee, s.charset, true, s.reset)
    ensures Apply(s, ResetModem).echo && !Apply(s, ResetModem).quiet && Apply(s, ResetModem).verbose
    ensures !Apply(s, ResetModem).rateReport && Apply(s, ResetModem).cmee == 1 && Apply(s, ResetModem).charset == 0
    ensures !Apply(s, ResetModem).hungup && Apply(s, ResetModem).reset
  {
  }

  /** Setters take effect in the order in which they are called. */
  lemma {:induction false} SettersInOrder(s: Settings, a: seq<Setter>, b: seq<Setter>)
    ensures ApplyAll(s, a + b) == ApplyAll(ApplyAll(s, a), b)
    ensures forall op :: ApplyAll(s, [op]) == Apply(s, op)
    decreases |a|
  {
    hide Apply;
    forall op ensures ApplyAll(s, [op]) == Apply(s, op) {
      assert [op][1..] == [];
    }
    if a == [] {
      assert a + b == b;
    } else {
      assert (a + b)[0] == a[0] && (a + b)[1..] == a[1..] + b;
      SettersInOrder(Apply(s, a[0]), a[1..], b);
    }
  }

  // ------------------------------------------------------------------ the final result

  datatype Reply =
    | Words(text: string)
    | Code(number: nat)
    | CmeNumber(number: nat)
    | CmeWords(text: string)
    | CmsNumber(number: nat)

  /** The single final result of a command line; none in quiet mode. */
  function ReplyFor(s: Settings, res: nat): Option<Reply>
    requires s.cmee <= 2
  {
    if s.quiet then None
    else if CME_FIRST <= res <= CME_LAST && s.cmee == 1 then Some(CmeNumber(res - CME_FIRST))
    else if CME_FIRST <= res <= CME_LAST && s.cmee == 2 then Some(CmeWords(E.TextFor(res - CME_FIRST)))
    else if CMS_FIRST <= res <= CMS_LAST then Some(CmsNumber(res - CMS_FIRST))
    else
      var shown := if res < |MESSAGES| then res else AT_ERROR;
      Some(if s.verbose then Words(MESSAGES[shown]) else Code(shown))
  }

  /** What the terminal gets: the output of handlers and final results. */
  datatype Output = Text(text: string) | Final(reply: Reply)

  function Shown(output: seq<string>): seq<Output> {
    seq(|output|, i requires 0 <= i < |output| => Text(output[i]))
  }

  function Replies(s: Settings, res: nat): (r: seq<Output>)
    requires s.cmee <= 2
    ensures |r| == if s.quiet then 0 else 1
  {
    match ReplyFor(s, res)
    case Some(reply) => [Final(reply)]
    case None => []
  }

  /** The words of the final results. */
  function Wording(res: nat): string
    requires res <= 8
  {
    match res
    case 0 => "OK"
    case 1 => "CONNECT"
    case 2 => "RING"
    case 3 => "NO CARRIER"
    case 6 => "NO DIALTONE"
    case 7 => "BUSY"
    case 8 => "NO ANSWER"
    case _ => "ERROR"
  }

  /** A result is reported by its words or its number; +CMEE tells how the +CME errors are; the rest is ERROR. */
  predicate Reports(s: Settings, res: nat, reply: Reply) {
    if res <= 8 then reply == (if s.verbose then Words(Wording(res)) else Code(res))
    else if 0x100 <= res <= 0x1FF && s.cmee == 1 then reply == CmeNumber(res - 0x100)
    else if 0x100 <= res <= 0x1FF && s.cmee == 2 then reply == CmeWords(E.TextFor(res - 0x100))
    else if 0x200 <= res <= 0x3FF then reply == CmsNumber(res - 0x200)
    else reply == (if s.verbose then Words("ERROR") else Code(4))
  }

  /** What is put out for a result: nothing in quiet mode, else the one reply that reports it. */
  lemma RepliesReport(s: Settings, res: nat)
    requires s.cmee <= 2
    ensures if s.quiet then Replies(s, res) == []
            else |Replies(s, res)| == 1 && Replies(s, res)[0].Final? && Reports(s, res, Replies(s, res)[0].reply)
  {
    hide E.TextFor;
  }

  /** Success is reported for success only: every error code shows as an error. */
  lemma OkMeansOk(s: Settings, res: nat)
    requires s.cmee <= 2 && !s.quiet
    ensures ReplyFor(s, res) in {Some(Words("OK")), Some(Code(0))} <==> res == AT_OK
  {
    assert forall i :: 0 < i < |MESSAGES| ==> MESSAGES[i][0] != 'O';
    assert "OK"[0] == 'O';
  }

  /** The results that are reported as a plain error. */
  predicate ShowsAsError(s: Settings, res: nat) {
    || res == AT_ERROR || (res == 5 && s.verbose) || |MESSAGES| <= res < CME_FIRST || res > CMS_LAST
    || (CME_FIRST <= res <= CME_LAST && s.cmee == 0)
  }

  /** The results that are reported as a reserved +CME error. */
  predicate ShowsAsReserved(s: Settings, res: nat) {
    s.cmee == 2 && CME_FIRST <= res <= CME_LAST && !E.Listed(res - CME_FIRST)
  }

  /**
   * What a final result tells: two results get the same reply exactly when they are the same, or both are
   * reported as plain errors, or both as reserved +CME errors.
   */
  lemma RepliesAreEqualIff(s: Settings, a: nat, b: nat)
    requires s.cmee <= 2 && !s.quiet
    ensures ReplyFor(s, a) == ReplyFor(s, b) <==>
              || a == b || (ShowsAsError(s, a) && ShowsAsError(s, b))
              || (ShowsAsReserved(s, a) && ShowsAsReserved(s, b))
  {
    hide E.Listed, E.TextFor;
    MessagesAreDistinct();
    if CME_FIRST <= a <= CME_LAST && CME_FIRST <= b <= CME_LAST {
      E.TextsAreEqualIff(a - CME_FIRST, b - CME_FIRST);
    }
  }

  lemma MessagesAreDistinct()
    ensures forall i, j :: 0 <= i < j < |MESSAGES| ==> (MESSAGES[i] == MESSAGES[j] <==> i == 4 && j == 5)
  {
    var m := MESSAGES;
    assert |m[0]| == 2 && |m[1]| == 7 && |m[2]| == |m[7]| == 4 && |m[3]| == 10 && |m[4]| == |m[5]| == 5;
    assert |m[6]| == 11 && |m[8]| == 9 && m[2][0] == 'R' && m[7][0] == 'B';
  }

  /** +CMEE 2 does not tell 99 from 255: neither has a text. +CMEE 1 does. */
  lemma ReservedErrorsLookAlike(s: Settings)
    requires s.cmee == 2 && !s.quiet
    ensures ReplyFor(s, CME_FIRST + 99) == ReplyFor(s, CME_FIRST + 255) == Some(CmeWords("reserved error code"))
    ensures ReplyFor(s.(cmee := 1), CME_FIRST + 99) != ReplyFor(s.(cmee := 1), CME_FIRST + 255)
  {
    assert !E.Listed(99) && !E.Listed(255);
  }

  // ------------------------------------------------------------------ executing a line

  /** What executing one command does, with how many bytes it takes from the terminal itself. */
  datatype Execution = Execution(setters: seq<Setter>, output: seq<string>, taken: nat, code: nat)

  /** One command: the bank it is dispatched on and its text. */
  datatype Call = Call(bank: nat, text: string)

  /**
   * Handlers see all that was executed before, and so may depend on any state of their own; and the bytes
   * that are still to come from the terminal, of which they may take some.
   */
  type Handlers = (seq<Call>, Settings, seq<Byte>, Call) -> Execution

  /** What is left of the input once some bytes are taken. */
  function Unread(input: seq<Byte>, taken: nat): (rest: seq<Byte>)
    ensures |rest| <= |input|
  {
    if taken <= |input| then input[taken..] else []
  }

  /** The modem at some point of a line: settings, bank, input to come, commands, output, and the latest result. */
  datatype Outcome = Outcome(
    settings: Settings, bank: nat, input: seq<Byte>, executed: seq<Call>, output: seq<Output>, code: nat)

  function Execute(exec: Handlers, o: Outcome, text: string): Outcome {
    var call := Call(o.bank, text);
    var e := exec(o.executed, o.settings, o.input, call);
    Outcome(ApplyAll(o.settings, e.setters), o.bank, Unread(o.input, e.taken), o.executed + [call],
            o.output + Shown(e.output), e.code)
  }

  /** The fold over a tokenized line: up to and including the first command that fails. */
  function RunFrom(exec: Handlers, p: Parse, o: Outcome): Outcome {
    match p
    case End(_, rest) => o.(code := if rest != "" then AT_ERROR else AT_OK)
    case Command(_, text, more) =>
      var o' := Execute(exec, o, text);
      if o'.code != AT_OK then o' else RunFrom(exec, more, o')
  }

  /** Executing the commands one after the other, whatever they return. */
  function After(exec: Handlers, o: Outcome, texts: seq<string>): Outcome {
    if texts == [] then o else Execute(exec, After(exec, o, texts[..|texts| - 1]), texts[|texts| - 1])
  }

  lemma {:induction false} AfterCons(exec: Handlers, o: Outcome, text: string, texts: seq<string>)
    ensures After(exec, o, [text] + texts) == After(exec, Execute(exec, o, text), texts)
    decreases |texts|
  {
    hide Execute;
    if texts == [] {
      assert [text] + texts == [text] && [text][..0] == [];
    } else {
      AfterCons(exec, o, text, texts[..|texts| - 1]);
      assert ([text] + texts)[..|texts|] == [text] + texts[..|texts| - 1];
    }
  }

  /** The first n commands are executed in order and only the last of them may fail. */
  predicate RanPrefix(exec: Handlers, texts: seq<string>, o: Outcome, final: Outcome, n: nat)
    requires n <= |texts|
  {
    && (forall i :: 0 <= i < n ==> After(exec, o, texts[..i]).code == AT_OK)
    && final.(code := 0) == After(exec, o, texts[..n]).(code := 0)
    && (n < |texts| ==> n > 0 && final.code != AT_OK)
  }

  /**
   * What a line comes to: a prefix of its commands is executed in order, all of it when none fails; the
   * result is that of the failing command, else ERROR for a malformed remainder, else OK.
   */
  lemma {:induction false} RunExecutesUpToFailure(exec: Handlers, p: Parse, o: Outcome)
    requires o.code == AT_OK
    ensures exists n: nat :: n <= |Texts(p)| && RanPrefix(exec, Texts(p), o, RunFrom(exec, p, o), n)
              && RunFrom(exec, p, o).code ==
                   if After(exec, o, Texts(p)[..n]).code != AT_OK then After(exec, o, Texts(p)[..n]).code
                   else if Rest(p) != "" then AT_ERROR else AT_OK
    decreases p
  {
    hide Execute;
    match p {
      case End(_, rest) => assert RanPrefix(exec, Texts(p), o, RunFrom(exec, p, o), 0);
      case Command(_, text, more) =>
        var texts, others := Texts(p), Texts(more);
        var o' := Execute(exec, o, text);
        if o'.code != AT_OK {
          assert texts[..0] == [] && texts[..1] == [text] + [];
          AfterCons(exec, o, text, []);
          assert RanPrefix(exec, texts, o, RunFrom(exec, p, o), 1);
        } else {
          RunExecutesUpToFailure(exec, more, o');
          var n: nat :| n <= |others| && RanPrefix(exec, others, o', RunFrom(exec, more, o'), n)
                        && RunFrom(exec, more, o').code ==
                             if After(exec, o', others[..n]).code != AT_OK then After(exec, o', others[..n]).code
                             else if Rest(more) != "" then AT_ERROR else AT_OK;
          RanPrefixExtends(exec, text, others, o, RunFrom(exec, more, o'), n);
        }
    }
  }

  /** A command that succeeds can be put in front. */
  lemma RanPrefixExtends(exec: Handlers, text: string, others: seq<string>, o: Outcome, final: Outcome, n: nat)
    requires o.code == AT_OK && Execute(exec, o, text).code == AT_OK
    requires n <= |others| && RanPrefix(exec, others, Execute(exec, o, text), final, n)
    ensures RanPrefix(exec, [text] + others, o, final, n + 1)
    ensures After(exec, o, ([text] + others)[..n + 1]) == After(exec, Execute(exec, o, text), others[..n])
  {
    hide Execute, After;
    var texts, o' := [text] + others, Execute(exec, o, text);
    forall i | 0 <= i <= n ensures After(exec, o, texts[..i + 1]) == After(exec, o', others[..i]) {
      assert texts[..i + 1] == [text] + others[..i];
      AfterCons(exec, o, text, others[..i]);
    }
    forall i | 0 <= i < n + 1 ensures After(exec, o, texts[..i]).code == AT_OK {
      if i > 0 {
        assert After(exec, o, texts[..(i - 1) + 1]) == After(exec, o', others[..i - 1]);
      } else {
        AfterNone(exec, o);
        assert texts[..0] == [];
      }
    }
  }

  lemma AfterNone(exec: Handlers, o: Outcome)
    ensures After(exec, o, []) == o
  {
  }

  /** Settings stay sound through a whole line. */
  lemma {:induction false} RunKeepsCmee(exec: Handlers, p: Parse, o: Outcome)
    requires o.settings.cmee <= 2
    ensures RunFrom(exec, p, o).settings.cmee <= 2
    decreases p
  {
    if p.End? {
    } else {
      SettersKeepCmee(o.settings, exec(o.executed, o.settings, o.input, Call(o.bank, p.text)).setters);
      RunKeepsCmee(exec, p.more, Execute(exec, o, p.text));
    }
  }

  /** The commands of a line in one bank. */
  function Calls(bank: nat, texts: seq<string>): seq<Call> {
    seq(|texts|, i requires 0 <= i < |texts| => Call(bank, texts[i]))
  }

  /** Executing a line leaves the bank alone. */
  lemma {:induction false} RunStaysOnBank(exec: Handlers, p: Parse, o: Outcome)
    ensures var o' := RunFrom(exec, p, o);
            && o'.bank == o.bank && o.executed <= o'.executed && |o'.input| <= |o.input|
            && forall i :: |o.executed| <= i < |o'.executed| ==> o'.executed[i].bank == o.bank
    decreases p
  {
    if p.End? {
    } else {
      RunStaysOnBank(exec, p.more, Execute(exec, o, p.text));
    }
  }

  /** The C string that starts at position i: up to the first NUL. */
  function CString(memory: seq<char>, i: nat): string
    requires i <= |memory|
    decreases |memory| - i
  {
    if i == |memory| || memory[i] == NUL then "" else [memory[i]] + CString(memory, i + 1)
  }

  lemma {:induction false} CStringIs(memory: seq<char>, i: nat, n: nat)
    requires i + n < |memory| && NulFree(memory[i..i + n]) && memory[i + n] == NUL
    ensures CString(memory, i) == memory[i..i + n]
    decreases n
  {
    if n == 0 {
    } else {
      var text, others := memory[i..i + n], memory[i + 1..i + 1 + (n - 1)];
      assert text == [memory[i]] + others;
      forall k | 0 <= k < |others| ensures others[k] != NUL {
        assert others[k] == text[k + 1];
      }
      CStringIs(memory, i + 1, n - 1);
    }
  }

  // ------------------------------------------------------------------ a line as a trace

  /** What the commands of a line do, one after the other, as far as it is executed. */
  function Trace(exec: Handlers, p: Parse, o: Outcome): seq<Execution> {
    match p
    case End(_, _) => []
    case Command(_, text, more) =>
      var e := exec(o.executed, o.settings, o.input, Call(o.bank, text));
      [e] + if e.code != AT_OK then [] else Trace(exec, more, Execute(exec, o, text))
  }

  function SettersOf(es: seq<Execution>): seq<Setter> {
    if es == [] then [] else es[0].setters + SettersOf(es[1..])
  }

  function OutputOf(es: seq<Execution>): seq<string> {
    if es == [] then [] else es[0].output + OutputOf(es[1..])
  }

  function TakenBy(es: seq<Execution>): nat {
    if es == [] then 0 else es[0].taken + TakenBy(es[1..])
  }

  /**
   * Each command is handled once, in order, after what came before it: it sees the commands before it, the
   * settings that they left, and the input that they did not take.
   */
  predicate HandledInOrder(exec: Handlers, o: Outcome, texts: seq<string>, es: seq<Execution>)
    requires |es| <= |texts|
  {
    forall i :: 0 <= i < |es| ==>
      es[i] == exec(o.executed + Calls(o.bank, texts[..i]), ApplyAll(o.settings, SettersOf(es[..i])),
                    Unread(o.input, TakenBy(es[..i])), Call(o.bank, texts[i]))
  }

  /** All commands but the last one succeed, and the last one too if it is the last of the line. */
  predicate StopsAtFailure(texts: seq<string>, es: seq<Execution>) {
    && |es| <= |texts| && (forall i :: 0 <= i < |es| - 1 ==> es[i].code == AT_OK)
    && (|es| < |texts| ==> es != [] && es[|es| - 1].code != AT_OK)
  }

  /** The result of a line: that of the command that fails, else ERROR for a malformed remainder, else OK. */
  function ResultOf(es: seq<Execution>, rest: string): nat {
    if es != [] && es[|es| - 1].code != AT_OK then es[|es| - 1].code
    else if rest != "" then AT_ERROR
    else AT_OK
  }

  /** Taking bytes takes them from the front, and never more than there are. */
  lemma UnreadIs(taken: seq<Byte>, rest: seq<Byte>, n: nat)
    ensures Unread(taken + rest, |taken|) == rest
    ensures n > |rest| ==> Unread(rest, n) == []
  {
  }

  /** The lists that lines are described by, element by element. */
  lemma ShownIs(output: seq<string>, bank: nat, texts: seq<string>)
    ensures |Shown(output)| == |output| && |Calls(bank, texts)| == |texts|
    ensures forall i :: 0 <= i < |output| ==> Shown(output)[i] == Text(output[i])
    ensures forall i :: 0 <= i < |texts| ==> Calls(bank, texts)[i] == Call(bank, texts[i])
  {
  }

  lemma UnreadTwice(input: seq<Byte>, a: nat, b: nat)
    ensures Unread(Unread(input, a), b) == Unread(input, a + b)
  {
  }

  lemma ShownConcat(a: seq<string>, b: seq<string>)
    ensures Shown(a + b) == Shown(a) + Shown(b)
  {
  }

  /** The handling of a later command, seen from the line and from behind its first command. */
  lemma HandledBehind(
    exec: Handlers, o: Outcome, text: string, others: seq<string>, e: Execution, es: seq<Execution>, i: nat)
    requires i < |es| <= |others| && e == exec(o.executed, o.settings, o.input, Call(o.bank, text))
    requires HandledInOrder(exec, Execute(exec, o, text), others, es)
    ensures ([e] + es)[i + 1] ==
            exec(o.executed + Calls(o.bank, ([text] + others)[..i + 1]),
                 ApplyAll(o.settings, SettersOf(([e] + es)[..i + 1])),
                 Unread(o.input, TakenBy(([e] + es)[..i + 1])), Call(o.bank, ([text] + others)[i + 1]))
  {
    hide ApplyAll, Unread, SettersOf, TakenBy;
    var before := es[..i];
    assert ([e] + es)[..i + 1] == [e] + before && ([text] + others)[..i + 1] == [text] + others[..i];
    TraceCons(e, before);
    SettersInOrder(o.settings, e.setters, SettersOf(before));
    UnreadTwice(o.input, e.taken, TakenBy(before));
    assert Calls(o.bank, [text] + others[..i]) == [Call(o.bank, text)] + Calls(o.bank, others[..i]);
    assert (o.executed + [Call(o.bank, text)]) + Calls(o.bank, others[..i]) ==
           o.executed + ([Call(o.bank, text)] + Calls(o.bank, others[..i]));
  }

  lemma TraceCons(e: Execution, es: seq<Execution>)
    ensures SettersOf([e] + es) == e.setters + SettersOf(es)
    ensures OutputOf([e] + es) == e.output + OutputOf(es)
    ensures TakenBy([e] + es) == e.taken + TakenBy(es)
  {
    assert ([e] + es)[1..] == es;
  }

  /** What a line leaves behind, given what its commands did. */
  predicate LeftBy(o: Outcome, texts: seq<string>, es: seq<Execution>, final: Outcome)
    requires |es| <= |texts|
  {
    && final.settings == ApplyAll(o.settings, SettersOf(es)) && final.bank == o.bank
    && final.input == Unread(o.input, TakenBy(es))
    && final.executed == o.executed + Calls(o.bank, texts[..|es|])
    && final.output == o.output + Shown(OutputOf(es))
  }

  lemma NothingLeft(o: Outcome, texts: seq<string>)
    ensures LeftBy(o, texts, [], o)
  {
    assert texts[..0] == [] && o.input[0..] == o.input;
  }

  lemma LeftByOne(
    exec: Handlers, o: Outcome, text: string, others: seq<string>, e: Execution, es: seq<Execution>, final: Outcome)
    requires |es| <= |others| && e == exec(o.executed, o.settings, o.input, Call(o.bank, text))
    requires LeftBy(Execute(exec, o, text), others, es, final)
    ensures LeftBy(o, [text] + others, [e] + es, final)
  {
    hide ApplyAll, Unread, SettersOf, TakenBy, OutputOf, Shown;
    TraceCons(e, es);
    SettersInOrder(o.settings, e.setters, SettersOf(es));
    UnreadTwice(o.input, e.taken, TakenBy(es));
    ShownConcat(e.output, OutputOf(es));
    assert ([text] + others)[..|es| + 1] == [text] + others[..|es|];
    assert Calls(o.bank, [text] + others[..|es|]) == [Call(o.bank, text)] + Calls(o.bank, others[..|es|]);
    assert (o.executed + [Call(o.bank, text)]) + Calls(o.bank, others[..|es|]) ==
           o.executed + ([Call(o.bank, text)] + Calls(o.bank, others[..|es|]));
    assert (o.output + Shown(e.output)) + Shown(OutputOf(es)) == o.output + (Shown(e.output) + Shown(OutputOf(es)));
  }

  /** Executing a line is handling its commands in order up to the first failure, and nothing else. */
  lemma {:induction false} LineIsItsTrace(exec: Handlers, p: Parse, o: Outcome)
    ensures var texts, es, final := Texts(p), Trace(exec, p, o), RunFrom(exec, p, o);
            && StopsAtFailure(texts, es) && HandledInOrder(exec, o, texts, es) && LeftBy(o, texts, es, final)
            && final.code == ResultOf(es, Rest(p))
    decreases p
  {
    hide Execute, HandledInOrder, LeftBy, ApplyAll;
    match p {
      case End(_, rest) =>
        NothingLeft(o, []);
        LeftByIgnoresCode(o, [], [], o, RunFrom(exec, p, o));
        NothingHandled(exec, o, []);
      case Command(_, text, more) =>
        var e := exec(o.executed, o.settings, o.input, Call(o.bank, text));
        var o', others := Execute(exec, o, text), Texts(more);
        var es := if e.code != AT_OK then [] else Trace(exec, more, o');
        ExecuteCode(exec, o, text);
        if e.code != AT_OK {
          NothingLeft(o', others);
          NothingHandled(exec, o', others);
        } else {
          LineIsItsTrace(exec, more, o');
        }
        LeftByOne(exec, o, text, others, e, es, RunFrom(exec, p, o));
        HandledCons(exec, o, text, others, e, es);
        assert Trace(exec, p, o) == [e] + es;
        assert es != [] ==> ([e] + es)[|es|] == es[|es| - 1];
    }
  }

  lemma ExecuteCode(exec: Handlers, o: Outcome, text: string)
    ensures Execute(exec, o, text).code == exec(o.executed, o.settings, o.input, Call(o.bank, text)).code
  {
  }

  lemma NothingHandled(exec: Handlers, o: Outcome, texts: seq<string>)
    ensures HandledInOrder(exec, o, texts, [])
  {
  }

  lemma LeftByIgnoresCode(o: Outcome, texts: seq<string>, es: seq<Execution>, final: Outcome, final': Outcome)
    requires |es| <= |texts| && LeftBy(o, texts, es, final) && final' == final.(code := final'.code)
    ensures LeftBy(o, texts, es, final')
  {
  }

  lemma HandledCons(
    exec: Handlers, o: Outcome, text: string, others: seq<string>, e: Execution, es: seq<Execution>)
    requires |es| <= |others| && e == exec(o.executed, o.settings, o.input, Call(o.bank, text))
    requires HandledInOrder(exec, Execute(exec, o, text), others, es)
    ensures HandledInOrder(exec, o, [text] + others, [e] + es)
  {
    forall i | 0 <= i < |es| + 1
      ensures ([e] + es)[i] ==
              exec(o.executed + Calls(o.bank, ([text] + others)[..i]),
                   ApplyAll(o.settings, SettersOf(([e] + es)[..i])),
                   Unread(o.input, TakenBy(([e] + es)[..i])), Call(o.bank, ([text] + others)[i]))
    {
      if i == 0 {
        assert ([e] + es)[..0] == [] && ([text] + others)[..0] == [] && o.input[0..] == o.input;
        assert o.executed + Calls(o.bank, []) == o.executed;
      } else {
        HandledBehind(exec, o, text, others, e, es, i - 1);
      }
    }
  }

  // ------------------------------------------------------------------ the modem

  class Modem {
    var settings: Settings
    var bank: nat
    var input: seq<Byte>
    var executed: seq<Call>
    var output: seq<Output>

    /** What the modem has come to, with a result for the latest command. */
    function Now(code: nat): Outcome
      reads this
    {
      Outcome(settings, bank, input, executed, output, code)
    }

    /** at_modem_start, on all that the terminal will ever send: there is no bank yet, and a reset is pending. */
    constructor (input: seq<Byte>)
      ensures Now(AT_OK) == Outcome(DEFAULTS, 0, input, [], [], AT_OK)
    {
      settings, bank, this.input, executed, output := DEFAULTS, 0, input, [], [];
    }

    /** at_print_reply */
    method PrintReply(code: nat)
      requires settings.cmee <= 2
      modifies this`output
      ensures output == old(output) + Replies(settings, code)
    {
      hide E.Entry;
      if settings.quiet {
        return;
      }
      var res := code;
      if res < |MESSAGES| {
      } else if res < CME_FIRST {
        res := AT_ERROR;
      } else if res <= CME_LAST {
        res := res - CME_FIRST;
        match settings.cmee {
          case 0 => res := AT_ERROR;
          case 1 => output := output + [Final(CmeNumber(res))]; return;
          case _ =>
            var msg := E.RESERVED;
            if res < E.TABLE_SIZE && E.Entry(res) != "" {
              msg := E.Entry(res);
            }
            output := output + [Final(CmeWords(msg))];
            return;
        }
      } else if res <= CMS_LAST {
        res := res - CMS_FIRST;
        output := output + [Final(CmsNumber(res))];
        return;
      } else {
        res := AT_ERROR;
      }
      output := output + [Final(if settings.verbose then Words(MESSAGES[res]) else Code(res))];
    }

    /** at_execute_string on the C string at position req. */
    method ExecuteString(exec: Handlers, line: array<char>, req: nat) returns (res: nat)
      requires req <= line.Length
      modifies this`settings, this`input, this`executed, this`output
      ensures Now(res) == Execute(exec, old(Now(AT_OK)), CString(line[..], req))
    {
      var call := Call(bank, CString(line[..], req));
      var e := exec(executed, settings, input, call);
      settings, input := ApplyAll(settings, e.setters), Unread(input, e.taken);
      executed, output := executed + [call], output + Shown(e.output);
      res := e.code;
    }

    /** One turn of the loop: the command is cut off by a NUL, executed, and the byte is put back. */
    method ExecuteInPlace(exec: Handlers, line: array<char>, req: nat, reqlen: nat) returns (res: nat)
      requires req + reqlen < line.Length && NulFree(line[req..req + reqlen])
      modifies this`settings, this`input, this`executed, this`output, line
      ensures line[..] == old(line[..])
      ensures Now(res) == Execute(exec, old(Now(AT_OK)), old(line[req..req + reqlen]))
    {
      ghost var text := line[req..req + reqlen];
      var buf := line[req + reqlen];
      line[req + reqlen] := NUL;
      assert line[..][req..req + reqlen] == text;
      CStringIs(line[..], req, reqlen);
      res := ExecuteString(exec, line, req);
      line[req + reqlen] := buf;
    }

    /** The loop of process_line: the commands of the text at cursor, up to the first failure. */
    method RunCommands(exec: Handlers, line: array<char>, start: nat, len: nat) returns (res: nat)
      requires start + len < line.Length && line[start + len] == NUL && NulFree(line[start..start + len])
      modifies this`settings, this`input, this`executed, this`output, line
      ensures line[..] == old(line[..])
      ensures Now(res) == RunFrom(exec, ParseOf(old(line[start..start + len])), old(Now(AT_OK)))
    {
      hide CommandLength, SkipSeparators, RunFrom, ParseOf, NulFree, Execute;
      ghost var memory, end := line[..], start + len;
      var cursor: nat, remaining: nat := start, len;
      res := AT_OK;
      ghost var whole := RunFrom(exec, ParseOf(memory[start..end]), Now(AT_OK));
      var skipped, reqlen := IterateNext(line[cursor..cursor + remaining]);
      while reqlen != 0
        invariant line[..] == memory && res == AT_OK
        invariant start <= cursor && cursor + remaining == end
        invariant skipped == SkipSeparators(memory[cursor..end])
        invariant reqlen == CommandLength(memory[cursor..end][skipped..])
        invariant whole == RunFrom(exec, ParseOf(memory[cursor..end]), Now(AT_OK))
        decreases remaining
      {
        RunStep(exec, memory[cursor..end], Now(AT_OK));
        var req := cursor + skipped;
        CommandSlices(memory, start, cursor, end, skipped, reqlen);
        assert line[req..req + reqlen] == memory[req..req + reqlen];
        res := ExecuteInPlace(exec, line, req, reqlen);
        if res != AT_OK {
          return;
        }
        cursor, remaining := req + reqlen, remaining - skipped - reqlen;
        skipped, reqlen := IterateNext(line[cursor..cursor + remaining]);
      }
      RunStep(exec, memory[cursor..end], Now(AT_OK));
      if remaining - skipped > 0 {
        res := AT_ERROR;
      }
    }

    /** process_line */
    method ProcessLine(exec: Handlers, line: array<char>, start: nat, len: nat)
      requires settings.cmee <= 2
      requires start + len < line.Length && line[start + len] == NUL
      requires NulFree(line[start..start + len]) && StartsWithAT(line[start..start + len])
      modifies this`settings, this`input, this`executed, this`output, line
      ensures line[..] == old(line[..])
      ensures settings.cmee <= 2
      ensures var o := RunFrom(exec, ParseOf(old(line[start + 2..start + len])), old(Now(AT_OK)));
              && settings == o.settings
              && Now(AT_OK) == o.(output := o.output + Replies(o.settings, o.code), code := AT_OK)
    {
      hide ReplyFor, Replies, RunFrom, ParseOf;
      ghost var text := line[start + 2..start + len];
      RunKeepsCmee(exec, ParseOf(text), Now(AT_OK));
      NulFreePart(line[start..start + len], 2, len);
      assert line[start..start + len][2..len] == text;
      var res := RunCommands(exec, line, start + 2, len - 2);
      PrintReply(res);
    }

    /** at_getchar, while there is input. */
    method GetByte() returns (c: Byte)
      requires input != []
      modifies this`input
      ensures [c] + input == old(input)
    {
      c, input := input[0], input[1..];
    }

    /** A pending reset: the bank is destroyed and another one created. */
    method Reinitialise()
      requires settings.reset
      modifies this`settings, this`bank
      ensures settings == old(settings).(reset := false) && bank == old(bank) + 1
    {
      bank, settings := bank + 1, settings.(reset := false);
    }
  }

  /** One step of the iteration and of the fold. */
  lemma RunStep(exec: Handlers, s: string, o: Outcome)
    ensures var k := SkipSeparators(s);
            var n := CommandLength(s[k..]);
            RunFrom(exec, ParseOf(s), o) ==
              if n == 0 then o.(code := if s[k..] != "" then AT_ERROR else AT_OK)
              else
                var o' := Execute(exec, o, s[k..k + n]);
                if o'.code != AT_OK then o' else RunFrom(exec, ParseOf(s[k + n..]), o')
  {
    hide CommandLength, SkipSeparators, Execute;
  }

  lemma CommandSlices(memory: seq<char>, start: nat, cursor: nat, end: nat, skipped: nat, reqlen: nat)
    requires start <= cursor && cursor + skipped + reqlen <= end <= |memory| && NulFree(memory[start..end])
    ensures var req := cursor + skipped;
            && memory[cursor..end][skipped..skipped + reqlen] == memory[req..req + reqlen]
            && memory[cursor..end][skipped + reqlen..] == memory[req + reqlen..end]
            && NulFree(memory[req..req + reqlen])
  {
    SliceOfSlice(memory, cursor, end, skipped, skipped + reqlen);
    SliceOfSlice(memory, cursor, end, skipped + reqlen, end - cursor);
    SliceOfSlice(memory, start, end, cursor + skipped - start, cursor + skipped + reqlen - start);
    NulFreePart(memory[start..end], cursor + skipped - start, cursor + skipped + reqlen - start);
  }

  lemma SliceOfSlice(s: seq<char>, i: nat, j: nat, k: nat, l: nat)
    requires i <= j <= |s| && k <= l <= j - i
    ensures s[i..j][k..l] == s[i + k..i + l]
  {
    var a, b := s[i..j][k..l], s[i + k..i + l];
    assert forall x :: 0 <= x < |a| ==> a[x] == b[x];
  }

  lemma NulFreePart(s: string, i: nat, j: nat)
    requires i <= j <= |s| && NulFree(s)
    ensures NulFree(s[i..j])
  {
  }
}

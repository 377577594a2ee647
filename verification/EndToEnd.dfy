/**
 * From the keyboard to the callbacks: the reader loop with the dispatch of the command bank in use. What a
 * registered callback does is a parameter; which callback runs, and with what argument, is proved.
 */
module EndToEnd {
  import opened Ctype
  import opened NameOrder
  import opened CommandTree
  import opened Engine
  import opened Results
  import opened Session
  import C = CommandLines
  import D = Dispatch
  import L = LineEditor
  import R = Registry
  import T = Tokenizer

  /** What a bank holds: its slots, and the tree of its extended commands in whatever shape it has. */
  datatype Slots = Slots(contents: R.Contents, tree: Tree)

  /** What a bank's constructor and the plugins register, with what the library does to the tree each time. */
  datatype Registration =
    | OfSlot(slot: R.Slot, callbacks: Callbacks)
    | OfName(name: string, callbacks: Callbacks, rotations: seq<Rotation>)

  /** The registrations of every bank, by its number from 1 on; number 0 is the missing bank. */
  type Banks = nat -> seq<Registration>

  /** What a callback does when it is invoked, given everything executed before and the input to come. */
  type Behaviour = (seq<Call>, Settings, seq<Byte>, Callbacks, D.Argument) -> Execution

  /** What a modem is made of: how the library reads numbers, its banks, and its callbacks. */
  datatype Parts = Parts(fit: D.Conversion, banks: Banks, run: Behaviour)

  /** The handlers of a modem whose commands are dispatched on its banks. */
  function Dispatching(of: Parts): Handlers {
    (past, settings, input, call) => Done(of.run, past, settings, input, Dispatched(of, call))
  }

  function Done(
    run: Behaviour, past: seq<Call>, settings: Settings, input: seq<Byte>, action: D.Action): Execution
  {
    match action
    case Invoke(callbacks, argument) => run(past, settings, input, callbacks, argument)
    case Return(code) => Execution([], [], 0, code)
  }

  /** at_execute_string */
  function Dispatched(of: Parts, call: Call): D.Action {
    if call.bank == 0 then D.Return(AT_ERROR)
    else D.Execute(of.fit, Built(of.banks(call.bank)).contents, Built(of.banks(call.bank)).tree, call.text)
  }

  // ------------------------------------------------------------------ banks from registrations

  /** at_register_ext registers names below a certain length only. */
  predicate IsTaken(r: Registration) {
    r.OfName? && |r.name| < 15
  }

  function Register(b: Slots, r: Registration): Slots {
    match r
    case OfSlot(slot, callbacks) => Slots(R.Registered(b.contents, slot, callbacks), b.tree)
    case OfName(name, callbacks, rotations) =>
      if !IsTaken(r) then b
      else Slots(R.Registered(b.contents, R.Extended(R.LowerAll(name)), callbacks),
                 R.Grown(b.tree, Handler(name, callbacks), rotations))
  }

  function RegisterInOrder(b: Slots, rs: seq<Registration>): Slots
    decreases |rs|
  {
    if rs == [] then b else RegisterInOrder(Register(b, rs[0]), rs[1..])
  }

  /** The bank that registrations make. */
  function Built(rs: seq<Registration>): Slots {
    RegisterInOrder(Slots(map[], Leaf), rs)
  }

  function EventOf(r: Registration): seq<(R.Slot, Callbacks)> {
    match r
    case OfSlot(slot, callbacks) => [(slot, callbacks)]
    case OfName(name, callbacks, _) => if IsTaken(r) then [(R.Extended(R.LowerAll(name)), callbacks)] else []
  }

  function EventsOf(rs: seq<Registration>): seq<(R.Slot, Callbacks)> {
    if rs == [] then [] else EventOf(rs[0]) + EventsOf(rs[1..])
  }

  function NamesOf(rs: seq<Registration>): set<string> {
    set i | 0 <= i < |rs| && IsTaken(rs[i]) :: rs[i].name
  }

  /** Extended commands are registered by names, which do not continue each other by a digit. */
  predicate ProperRegistrations(rs: seq<Registration>) {
    && (forall i :: 0 <= i < |rs| && rs[i].OfSlot? ==> !rs[i].slot.Extended?)
    && ProperNames(NamesOf(rs))
  }

  predicate ProperNames(names: set<string>) {
    && (forall n :: n in names ==> NulFree(n) && IsName(n))
    && (forall n, o :: n in names && o in names ==> !DigitExtends(o, n))
  }

  /** The tree holds the extended commands, whose names are among the given ones. */
  ghost predicate HoldsNames(b: Slots, names: set<string>) {
    R.TreeHolds(b.tree, b.contents) && forall h :: h in InOrder(b.tree) ==> h.name in names
  }

  lemma RegisterKeepsNames(b: Slots, r: Registration, names: set<string>)
    requires HoldsNames(b, names) && ProperNames(names)
    requires (r.OfSlot? ==> !r.slot.Extended?) && (IsTaken(r) ==> r.name in names)
    ensures HoldsNames(Register(b, r), names)
  {
    hide R.TreeHolds, Tsearch, R.LowerAll, AllNulFree, Sorted, DigitExtends, IsName;
    match r {
      case OfSlot(slot, callbacks) =>
        R.TreeStillHolds(b.tree, b.tree, b.contents, R.Registered(b.contents, slot, callbacks));
      case OfName(name, callbacks, rotations) =>
        if IsTaken(r) {
          var h := Handler(name, callbacks);
          var t, m := Tsearch(b.tree, h).0, R.Registered(b.contents, R.Extended(R.LowerAll(name)), callbacks);
          R.TreeRegisters(b.tree, b.contents, h);
          TreeIsOrdered(b);
          TsearchInsertsOnce(b.tree, h);
          RotationsKeepOrder(t, rotations);
          R.TreeStillHolds(t, RotateAll(t, rotations), m, m);
        }
    }
  }

  lemma TreeIsOrdered(b: Slots)
    requires R.TreeHolds(b.tree, b.contents)
    ensures AllNulFree(InOrder(b.tree)) && Sorted(InOrder(b.tree))
  {
  }

  lemma {:induction false} RegistrationsKeepNames(b: Slots, rs: seq<Registration>, names: set<string>)
    requires HoldsNames(b, names) && ProperNames(names) && NamesOf(rs) <= names
    requires forall i :: 0 <= i < |rs| && rs[i].OfSlot? ==> !rs[i].slot.Extended?
    ensures HoldsNames(RegisterInOrder(b, rs), names)
    ensures RegisterInOrder(b, rs).contents == R.RegisterAll(b.contents, EventsOf(rs))
    decreases |rs|
  {
    hide HoldsNames, ProperNames, Register;
    if rs == [] {
    } else {
      assert IsTaken(rs[0]) ==> rs[0].name in NamesOf(rs);
      assert NamesOf(rs[1..]) <= NamesOf(rs) by {
        forall n | n in NamesOf(rs[1..]) ensures n in NamesOf(rs) {
          var i :| 0 <= i < |rs[1..]| && IsTaken(rs[1..][i]) && rs[1..][i].name == n;
          assert rs[i + 1].name == n;
        }
      }
      RegisterKeepsNames(b, rs[0], names);
      RegistrationsKeepNames(Register(b, rs[0]), rs[1..], names);
      RegisterIsEvent(b, rs[0]);
      R.RegisterAllConcat(b.contents, EventOf(rs[0]), EventsOf(rs[1..]));
    }
  }

  lemma RegisterIsEvent(b: Slots, r: Registration)
    ensures Register(b, r).contents == R.RegisterAll(b.contents, EventOf(r))
  {
    assert EventOf(r) != [] ==> EventOf(r)[1..] == [];
  }

  /**
   * Whatever is registered in whatever order, and whatever rotations the library makes: the bank's tree holds
   * its extended commands, and every slot has the callbacks that were registered for it first.
   */
  lemma RegistrationsBuildBank(rs: seq<Registration>)
    requires ProperRegistrations(rs)
    ensures ValidSlots(Built(rs))
    ensures forall slot :: R.Get(Built(rs).contents, slot) == R.FirstFor(EventsOf(rs), slot)
  {
    hide RegisterInOrder, NamesOf, HoldsNames, ProperNames, ValidSlots, EventsOf;
    var empty := Slots(map[], Leaf);
    EmptyHoldsNames(NamesOf(rs));
    RegistrationsKeepNames(empty, rs, NamesOf(rs));
    NamesAreValid(Built(rs), NamesOf(rs));
    forall slot ensures R.Get(Built(rs).contents, slot) == R.FirstFor(EventsOf(rs), slot) {
      R.FirstRegistrationWins(map[], EventsOf(rs), slot);
    }
  }

  lemma EmptyHoldsNames(names: set<string>)
    ensures HoldsNames(Slots(map[], Leaf), names)
  {
    assert InOrder(Leaf) == [];
  }

  lemma NamesAreValid(b: Slots, names: set<string>)
    requires HoldsNames(b, names) && ProperNames(names)
    ensures ValidSlots(b)
  {
    hide DigitExtends, IsName, R.TreeHolds, NulFree;
    assert forall i :: 0 <= i < |InOrder(b.tree)| ==> InOrder(b.tree)[i] in InOrder(b.tree);
  }

  // ------------------------------------------------------------------ requests

  /** A command as its sender means it: a basic one, or a name with what is asked of it. */
  datatype Request = Basic(cmd: C.Cmd) | Named(name: string, form: D.Form)

  function CmdOf(r: Request): C.Cmd {
    match r
    case Basic(cmd) => cmd
    case Named(name, form) => C.Extended(name + D.FormText(form))
  }

  function CmdsOf(rs: seq<Request>): seq<C.Cmd> {
    seq(|rs|, i requires 0 <= i < |rs| => CmdOf(rs[i]))
  }

  predicate Proper(r: Request) {
    match r
    case Basic(cmd) => C.WellFormed(cmd) && !cmd.Extended?
    case Named(name, form) =>
      && NulFree(name) && IsName(name) && name[0] !in {'?', '=', ' ', '&'}
      && D.WellFormedForm(form) && NulFree(D.FormText(form))
  }

  /** The callback and the argument that a request means, given what is registered. */
  function Meaning(fit: D.Conversion, contents: R.Contents, r: Request): D.Action
    requires Proper(r)
  {
    match r
    case Basic(cmd) => D.Meant(fit, contents, cmd)
    case Named(name, form) =>
      match R.Get(contents, R.Extended(R.LowerAll(name)))
      case Some(callbacks) => D.MeantBy(callbacks, form)
      case None => D.Return(AT_ERROR)
  }

  function MeaningOn(of: Parts, bank: nat, r: Request): D.Action
    requires Proper(r)
  {
    if bank == 0 then D.Return(AT_ERROR) else Meaning(of.fit, Built(of.banks(bank)).contents, r)
  }

  /** The tree holds the extended commands, whose names are names and do not continue each other by a digit. */
  ghost predicate ValidSlots(b: Slots) {
    R.TreeHolds(b.tree, b.contents) && AllNames(InOrder(b.tree)) && NoDigitExtension(InOrder(b.tree))
  }

  /** Where no name continues another one by a digit, no request for a registered name is misled. */
  lemma RegisteredIsNeverMisled(hs: seq<Handler>, name: string, suffix: string)
    requires NoDigitExtension(hs) && Has(hs, name)
    ensures NeverMisled(hs, name, suffix)
  {
    var i :| 0 <= i < |hs| && Same(hs[i].name, name);
    forall j | 0 <= j < |hs| ensures !Misled(name, suffix, hs[j].name) {
      if DigitExtends(hs[j].name, name) {
        assert DigitExtends(hs[j].name, hs[i].name);
      }
    }
  }

  /** Dispatch finds what a request means, in every shape of the tree. */
  lemma RequestIsDispatched(fit: D.Conversion, b: Slots, r: Request)
    requires ValidSlots(b) && Proper(r)
    ensures D.Execute(fit, b.contents, b.tree, C.TextOf(CmdOf(r))) == Meaning(fit, b.contents, r)
  {
    hide Same, Sorted, NoDigitExtension, AllNames, Has, D.Execute, D.Meant, D.MeantBy, R.LowerAll, R.TreeHolds;
    match r {
      case Basic(cmd) => D.BasicCommandMeans(fit, b.contents, b.tree, cmd);
      case Named(name, form) =>
        if Has(InOrder(b.tree), name) {
          RegisteredIsNeverMisled(InOrder(b.tree), name, D.FormText(form));
          D.ExtendedCommandMeans(fit, b.contents, b.tree, name, form);
        } else {
          UnknownIsRefused(fit, b, name, form);
        }
    }
  }

  lemma UnknownIsRefused(fit: D.Conversion, b: Slots, name: string, form: D.Form)
    requires ValidSlots(b) && Proper(Named(name, form)) && !Has(InOrder(b.tree), name)
    ensures D.Execute(fit, b.contents, b.tree, name + D.FormText(form)) == D.Return(AT_ERROR)
    ensures R.Get(b.contents, R.Extended(R.LowerAll(name))).None?
  {
    hide Same, Sorted, NoDigitExtension, AllNames, R.LowerAll, Tfind;
    assert (name + D.FormText(form))[0] == name[0];
    NothingElseMatches(b.tree, name, D.FormText(form));
    R.HasIffContained(b.tree, b.contents, name);
    if Tfind(b.tree, name + D.FormText(form)).Some? {
      var h := Tfind(b.tree, name + D.FormText(form)).value;
      SameIsSymmetric(name, h.name);
    }
  }

  // ------------------------------------------------------------------ the modem that its sender has in mind

  /** Invoking what a request means. */
  function Perform(of: Parts, o: Outcome, r: Request): Outcome
    requires Proper(r)
  {
    var e := Done(of.run, o.executed, o.settings, o.input, MeaningOn(of, o.bank, r));
    Outcome(ApplyAll(o.settings, e.setters), o.bank, Unread(o.input, e.taken),
            o.executed + [Call(o.bank, C.TextOf(CmdOf(r)))], o.output + Shown(e.output), e.code)
  }

  /** Requests are performed one after the other until one fails. */
  function PerformAll(of: Parts, o: Outcome, rs: seq<Request>): Outcome
    requires forall i :: 0 <= i < |rs| ==> Proper(rs[i])
    decreases |rs|
  {
    if rs == [] then o.(code := AT_OK)
    else
      var o' := Perform(of, o, rs[0]);
      if o'.code != AT_OK then o' else PerformAll(of, o', rs[1..])
  }

  /** Executing the text of a request performs it. */
  lemma ExecutePerforms(of: Parts, o: Outcome, r: Request)
    requires Proper(r) && (o.bank != 0 ==> ProperRegistrations(of.banks(o.bank)))
    ensures Execute(Dispatching(of), o, C.TextOf(CmdOf(r))) == Perform(of, o, r)
  {
    hide D.Execute, Meaning, ApplyAll, C.TextOf, CmdOf, ValidSlots, Proper, Done, Built, ProperRegistrations;
    if o.bank != 0 {
      RegistrationsBuildBank(of.banks(o.bank));
      RequestIsDispatched(of.fit, Built(of.banks(o.bank)), r);
    }
    assert Dispatched(of, Call(o.bank, C.TextOf(CmdOf(r)))) == MeaningOn(of, o.bank, r);
  }

  lemma {:induction false} RunPerforms(of: Parts, p: T.Parse, o: Outcome, rs: seq<Request>)
    requires forall i :: 0 <= i < |rs| ==> Proper(rs[i])
    requires o.bank != 0 ==> ProperRegistrations(of.banks(o.bank))
    requires T.Texts(p) == C.TextsOf(CmdsOf(rs)) && T.Rest(p) == ""
    ensures RunFrom(Dispatching(of), p, o) == PerformAll(of, o, rs)
    ensures PerformAll(of, o, rs).bank == o.bank
    decreases p
  {
    hide Execute, Dispatching, Proper, ProperRegistrations, C.TextOf, CmdOf;
    assert |T.Texts(p)| == |rs|;
    match p {
      case End(_, _) =>
      case Command(_, text, more) =>
        var r, others := rs[0], rs[1..];
        assert T.Texts(p)[0] == text && T.Texts(p)[1..] == T.Texts(more);
        assert C.TextsOf(CmdsOf(rs))[0] == C.TextOf(CmdOf(r));
        assert C.TextsOf(CmdsOf(rs))[1..] == C.TextsOf(CmdsOf(others));
        ExecutePerforms(of, o, r);
        if Perform(of, o, r).code == AT_OK {
          RunPerforms(of, more, Perform(of, o, r), others);
        }
    }
  }

  // ------------------------------------------------------------------ the result

  /** Requests can be typed as one line: well formed, a dial command last, no A and slash in a row, and it fits. */
  predicate TypableList(rs: seq<Request>) {
    && (forall i :: 0 <= i < |rs| ==> Proper(rs[i]))
    && C.WellFormedList(CmdsOf(rs))
    && Typable("AT" + C.Print(CmdsOf(rs))) && |C.Print(CmdsOf(rs))| + 2 < L.MAXLINE
  }

  /** The state after the requests of a line were performed and the final result was given. */
  function Performed(of: Parts, s: State, rs: seq<Request>, e: L.Editor): State
    requires s.settings.cmee <= 2 && forall i :: 0 <= i < |rs| ==> Proper(rs[i])
  {
    var o := PerformAll(of, Ready(s), rs);
    if o.settings.cmee <= 2 then Concluded(s, o).(editor := e) else s
  }

  lemma DeliveryPerforms(of: Parts, s: State, rs: seq<Request>, e: L.Editor)
    requires s.settings.cmee <= 2 && TypableList(rs) && (s.bank != 0 ==> ProperRegistrations(of.banks(s.bank)))
    ensures Deliver(Dispatching(of), s, "AT" + C.Print(CmdsOf(rs))).(editor := e) == Performed(of, s, rs, e)
  {
    hide Proper, C.WellFormedList, C.Print, C.TextsOf, T.ParseOf, RunFrom, PerformAll, Replies, ProperRegistrations,
      Dispatching, Typable, CmdsOf, T.Texts, T.Rest;
    var cmds := CmdsOf(rs);
    assert ("AT" + C.Print(cmds))[2..] == C.Print(cmds);
    var p := T.ParseOf(C.Print(cmds));
    C.PrintedListParsesBack(cmds);
    RunPerforms(of, p, Ready(s), rs);
    RunKeepsCmee(Dispatching(of), p, Ready(s));
  }

  /**
   * Typing requests in one line and Carriage Return invokes exactly the callbacks that were first registered
   * for them in the bank in use, in any case of the names and whatever the shape of its tree, in order, with
   * the arguments they were given, until one fails; then comes the one final result, and the loop goes on
   * with the input that the callbacks have left. When that starts with "A/", all is done again, on the bank
   * that is then in use.
   */
  lemma TypedRequestsArePerformed(of: Parts, s: State, rs: seq<Request>, more: seq<Byte>, again: seq<Byte>)
    requires Sane(s) && s.editor.line == "" && !s.settings.hungup && TypableList(rs)
    requires forall k :: k > 0 ==> ProperRegistrations(of.banks(k))
    requires s.input == BytesOf("AT" + C.Print(CmdsOf(rs))) + [13] + more
    ensures var text := "AT" + C.Print(CmdsOf(rs));
            var e := L.Editor("", Some(text));
            var s1 := Performed(of, TakeReset(s).(input := more), rs, e);
            && Sane(s1) && FeedAll(Dispatching(of), s) == FeedAll(Dispatching(of), s1)
            && (!s1.settings.hungup && s1.input == [65, 47] + again ==>
                  var s2 := Performed(of, TakeReset(s1).(input := again), rs, e);
                  Sane(s2) && FeedAll(Dispatching(of), s1) == FeedAll(Dispatching(of), s2))
  {
    hide Proper, C.WellFormedList, C.Print, FeedAll, Deliver, Performed, ProperRegistrations, Dispatching, BytesOf,
      L.Sound, CmdsOf;
    var text, exec := "AT" + C.Print(CmdsOf(rs)), Dispatching(of);
    assert StartsWithAT(text) by { assert text[0] == 'A' && text[1] == 'T'; }
    TypedLineIsDelivered(exec, s, text, more);
    DeliveryPerforms(of, TakeReset(s).(input := more), rs, L.Editor("", Some(text)));
    var s1 := AfterLine(exec, s, text, more);
    if !s1.settings.hungup && s1.input == [65, 47] + again {
      RepeatDeliversAgain(exec, s1, text, again);
      DeliveryPerforms(of, TakeReset(s1).(input := again), rs, L.Editor("", Some(text)));
    }
  }

  // ------------------------------------------------------------------ one letter command, in full

  /** The line "AT", a letter, spaces, a number. */
  function LetterLine(letter: char, spaces: nat, n: nat): string {
    "AT" + [letter] + C.Spaces(spaces) + D.Decimal(n)
  }

  /**
   * After a letter command: the callback of the letter's slot, if there is one, was invoked once with the number;
   * its settings and its output are in effect, and its result is reported. Otherwise the result is ERROR.
   */
  predicate LetterDone(of: Parts, s: State, slot: char, n: nat, s': State) {
    var contents := Built(of.banks(s.bank)).contents;
    if s.bank != 0 && R.Alpha(slot) in contents then
      var value := if n < 0x1_0000_0000 then n else of.fit(n);
      var e := of.run(s.executed, s.settings, s.input, contents[R.Alpha(slot)], D.WithValue(value));
      && s'.settings == ApplyAll(s.settings, e.setters) && s'.input == Unread(s.input, e.taken)
      && EndsWithResult(s.output + Shown(e.output), s'.settings, e.code, s'.output)
    else s'.settings == s.settings && s'.input == s.input && EndsWithResult(s.output, s.settings, 4, s'.output)
  }

  lemma LetterIsDispatched(of: Parts, past: seq<Call>, settings: Settings, input: seq<Byte>, bank: nat,
                           letter: char, slot: char, spaces: nat, n: nat)
    requires D.Names(letter, slot) && slot != 'D' && slot != 'S'
    ensures var contents := Built(of.banks(bank)).contents;
            var value := if n < 0x1_0000_0000 then n else of.fit(n);
            Dispatching(of)(past, settings, input, Call(bank, [letter] + C.Spaces(spaces) + D.Decimal(n))) ==
            if bank != 0 && R.Alpha(slot) in contents
            then of.run(past, settings, input, contents[R.Alpha(slot)], D.WithValue(value))
            else Execution([], [], 0, 4)
  {
    hide D.Execute, Built, D.Decimal, C.Spaces;
    D.LetterInvokesItsSlot(of.fit, Built(of.banks(bank)).contents, Built(of.banks(bank)).tree, letter, slot, false,
                           spaces, n);
    var text := [letter] + C.Spaces(spaces) + D.Decimal(n);
    assert (if false then "&" else "") + [letter] + C.Spaces(spaces) + D.Decimal(n) == text;
    var contents := Built(of.banks(bank)).contents;
    var value := if n < 0x1_0000_0000 then n else of.fit(n);
    assert D.Execute(of.fit, contents, Built(of.banks(bank)).tree, text) ==
           if R.Alpha(slot) in contents then D.Invoke(contents[R.Alpha(slot)], D.WithValue(value))
           else D.Return(AT_ERROR);
    var call := Call(bank, text);
    assert Dispatched(of, call) ==
           if bank != 0 && R.Alpha(slot) in contents then D.Invoke(contents[R.Alpha(slot)], D.WithValue(value))
           else D.Return(AT_ERROR);
    assert Dispatching(of)(past, settings, input, call) == Done(of.run, past, settings, input, Dispatched(of, call));
  }

  lemma LetterParses(letter: char, slot: char, spaces: nat, n: nat)
    requires D.Names(letter, slot) && slot != 'D' && slot != 'S'
    ensures var text := [letter] + C.Spaces(spaces) + D.Decimal(n);
            T.Texts(T.ParseOf(text)) == [text] && T.Rest(T.ParseOf(text)) == ""
            && LetterLine(letter, spaces, n)[2..] == text
  {
    var text := [letter] + C.Spaces(spaces) + D.Decimal(n);
    D.DecimalIsRead(n);
    hide T.Texts, T.ParseOf, T.Rest, D.Decimal, C.Spaces;
    var c := C.Letter(letter, C.Number(spaces, D.Decimal(n)));
    assert C.TextOf(c) == text;
    assert C.Print([c]) == text + "" + "" by { assert [c][1..] == []; }
    assert text + "" + "" == text;
    C.PrintedListParsesBack([c]);
    assert C.TextsOf([c]) == [text];
  }

  /** From the keyboard to the callback and to the reply, for any letter in either case and any number. */
  lemma TypedLetterIsDone(of: Parts, s: State, letter: char, slot: char, spaces: nat, n: nat, more: seq<Byte>)
    requires Sane(s) && s.editor.line == "" && !s.settings.hungup
    requires D.Names(letter, slot) && slot != 'D' && slot != 'S'
    requires Typable(LetterLine(letter, spaces, n)) && |LetterLine(letter, spaces, n)| < 2048
    requires s.input == BytesOf(LetterLine(letter, spaces, n)) + [13] + more
    ensures L.IsCommandLine(LetterLine(letter, spaces, n))
    ensures var s1 := AfterLine(Dispatching(of), s, LetterLine(letter, spaces, n), more);
            && FeedAll(Dispatching(of), s) == FeedAll(Dispatching(of), s1)
            && LetterDone(of, TakeReset(s).(input := more), slot, n, s1)
  {
    var line, exec := LetterLine(letter, spaces, n), Dispatching(of);
    var text := [letter] + C.Spaces(spaces) + D.Decimal(n);
    LetterParses(letter, slot, spaces, n);
    assert line[0] == 'A' && line[1] == 'T';
    hide FeedAll, BytesOf, L.Sound, Dispatching, T.Texts, T.ParseOf, T.Rest, LetterLine, D.Decimal, C.Spaces, D.Names;
    TypedLineIsDelivered(exec, s, line, more);
    OneLetterDone(of, TakeReset(s).(input := more), letter, slot, spaces, n);
    var s0 := TakeReset(s).(input := more);
    LetterDoneIgnoresEditor(of, s0, slot, n, Deliver(exec, s0, line), AfterLine(exec, s, line, more));
  }

  lemma LetterDoneIgnoresEditor(of: Parts, s: State, slot: char, n: nat, s1: State, s2: State)
    requires LetterDone(of, s, slot, n, s1) && s2 == s1.(editor := s2.editor)
    ensures LetterDone(of, s, slot, n, s2)
  {
    hide Built, EndsWithResult;
  }

  lemma OneLetterDone(of: Parts, s: State, letter: char, slot: char, spaces: nat, n: nat)
    requires s.settings.cmee <= 2 && D.Names(letter, slot) && slot != 'D' && slot != 'S'
    ensures LetterDone(of, s, slot, n, Deliver(Dispatching(of), s, LetterLine(letter, spaces, n)))
  {
    var line, exec := LetterLine(letter, spaces, n), Dispatching(of);
    var text := [letter] + C.Spaces(spaces) + D.Decimal(n);
    LetterParses(letter, slot, spaces, n);
    LineEndsWithItsResult(exec, s, line);
    LetterIsDispatched(of, s.executed, s.settings, s.input, s.bank, letter, slot, spaces, n);
    var es := Trace(exec, T.ParseOf(text), Ready(s));
    OneHandled(exec, s, text, es, Deliver(exec, s, line));
    hide Deliver, Dispatching, T.Texts, T.ParseOf, T.Rest, LetterLine, D.Decimal, C.Spaces, D.Names, Trace, Built;
    hide EndsWithResult, LineDone, Shown, Unread;
    assert s.output + Shown([]) == s.output by { ShownNothing(s.output); }
    assert Unread(s.input, 0) == s.input by { UnreadNothing(s.input); }
  }

  lemma ShownNothing(output: seq<Output>)
    ensures output + Shown([]) == output
  {
  }

  lemma UnreadNothing(input: seq<Byte>)
    ensures Unread(input, 0) == input
  {
  }

  /** A line of one command is what its handler makes of it. */
  lemma OneHandled(exec: Handlers, s: State, text: string, es: seq<Execution>, s': State)
    requires LineDone(exec, s, [text], "", es, s')
    ensures var e := exec(s.executed, s.settings, s.input, Call(s.bank, text));
            && s'.settings == ApplyAll(s.settings, e.setters) && s'.input == Unread(s.input, e.taken)
            && EndsWithResult(s.output + Shown(e.output), s'.settings, e.code, s'.output)
  {
    hide EndsWithResult, Shown, ApplyAll;
    assert |es| == 1 && es[..0] == [] && [text][..0] == [] && s.input[0..] == s.input;
    assert s.executed + Calls(s.bank, []) == s.executed && ApplyAll(s.settings, []) == s.settings by {
      NoSetters(s.settings);
    }
    var e := es[0];
    assert es == [e] + [];
    TraceCons(e, []);
    assert e.setters + [] == e.setters && e.output + [] == e.output;
  }

  lemma NoSetters(s: Settings)
    ensures ApplyAll(s, []) == s
  {
  }
}

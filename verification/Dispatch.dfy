/**
 * at_commands_execute: from the text of one command to the callback it invokes and its argument.
 */
module Dispatch {
  import opened Ctype
  import opened NameOrder
  import opened CommandTree
  import opened Registry
  import opened Results
  import C = CommandLines

  // ------------------------------------------------------------------ scanning (sscanf)

  /** isspace() */
  predicate IsSpace(c: char) {
    c == ' ' || 9 <= c as int <= 13
  }

  /** A white-space directive. */
  function SkipWhite(s: string): (r: string)
    ensures |r| <= |s|
  {
    if s != "" && IsSpace(s[0]) then SkipWhite(s[1..]) else s
  }

  function DecimalValue(c: char): nat
    requires IsDigit(c)
  {
    c as int - 48
  }

  function ReadDigits(s: string, acc: nat): (nat, string) {
    if s != "" && IsDigit(s[0]) then ReadDigits(s[1..], 10 * acc + DecimalValue(s[0])) else (acc, s)
  }

  const WORD: nat := 0x1_0000_0000

  /**
   * What %u stores for a number: the number itself when it fits an unsigned int of 32 bits. What it stores
   * for any other one is the library's business.
   */
  type Conversion = fit: int -> nat | forall n :: fit(n) < WORD && (0 <= n < WORD ==> fit(n) == n)
    witness (n => n % WORD)

  function Signed(minus: bool, n: nat): int {
    (if minus then -1 else 1) * n
  }

  /** %u: an optional sign and digits; what is stored, and what follows. */
  function ReadNumber(fit: Conversion, s: string): Option<(nat, string)> {
    var t := SkipWhite(s);
    var u := if t != "" && t[0] in {'+', '-'} then t[1..] else t;
    if u != "" && IsDigit(u[0]) then
      var (n, rest) := ReadDigits(u, 0);
      Some((fit(Signed(t[0] == '-', n)), rest))
    else None
  }

  /** The value of a number, or 0 when there is none. */
  function ValueOrZero(fit: Conversion, s: string): nat {
    match ReadNumber(fit, s)
    case Some(read) => read.0
    case None => 0
  }

  /** What "%*c %u %c %u" converts, as far as it gets. */
  datatype SScan = NoScan | Number(x: nat) | Operator(x: nat, op: char) | Full(x: nat, op: char, value: nat)

  function ScanS(fit: Conversion, request: string): SScan
    requires request != ""
  {
    match ReadNumber(fit, request[1..])
    case None => NoScan
    case Some((x, after)) =>
      var rest := SkipWhite(after);
      if rest == "" then Number(x)
      else
        match ReadNumber(fit, rest[1..])
        case None => Operator(x, rest[0])
        case Some(read) => Full(x, rest[0], read.0)
  }

  // ------------------------------------------------------------------ actions

  datatype Argument = WithValue(value: nat) | WithText(text: string) | Query | Test

  datatype Action = Invoke(callbacks: Callbacks, argument: Argument) | Return(code: nat)

  function Upper(c: char): char {
    if 'a' <= c <= 'z' then (c as int - 32) as char else c
  }

  function Invoked(callbacks: Option<Callbacks>, argument: Argument, otherwise: nat): Action {
    match callbacks
    case Some(cb) => Invoke(cb, argument)
    case None => Return(otherwise)
  }

  function ExecuteDial(m: Contents, request: string): Action
    requires request != ""
  {
    Invoked(Get(m, Dialing(';' in request)), WithText(request[1..]), AT_NO_DIALTONE)
  }

  function ExecuteS(fit: Conversion, m: Contents, request: string): Action
    requires request != ""
  {
    match ScanS(fit, request)
    case Operator(x, op) =>
      if op != '?' then Return(AT_ERROR)
      else Invoked(if x > MAX_S then None else Get(m, SParameter(x)), Query, AT_ERROR)
    case Full(x, op, value) =>
      if op != '=' then Return(AT_ERROR)
      else Invoked(if x > MAX_S then None else Get(m, SParameter(x)), WithValue(value), AT_ERROR)
    case _ => Return(AT_ERROR)
  }

  function ExecuteAmpersand(fit: Conversion, m: Contents, request: string): Action
    requires request != ""
  {
    var c := Upper(CharAt(request, 1));
    if !('A' <= c <= 'Z') then Return(AT_ERROR)
    else Invoked(Get(m, Ampersand(c)), WithValue(ValueOrZero(fit, request[2..])), AT_ERROR)
  }

  /** The characters of %[^?= ] at the front of a request. */
  function WordLength(s: string): (n: nat)
    ensures n <= |s|
  {
    if s == "" || s[0] in {'?', '=', ' '} then 0 else 1 + WordLength(s[1..])
  }

  /** What an extended request asks of its handler, by the operator after the name. */
  function ExecuteForm(cb: Callbacks, request: string): Action {
    var n := WordLength(request);
    var rest := SkipWhite(request[n..]);
    if n == 0 || rest == "" then Invoke(cb, WithText(""))
    else if rest[0] == '?' then (if cb.hasGet then Invoke(cb, Query) else Return(AT_CME_EINVAL))
    else if rest[0] == '=' then
      var args := SkipWhite(rest[1..]);
      if args == "" then Invoke(cb, WithText(""))
      else if args[0] == '?' then (if cb.hasTest then Invoke(cb, Test) else Return(AT_OK))
      else Invoke(cb, WithText(args))
    else Return(AT_ERROR)
  }

  function ExecuteExtended(t: Tree, request: string): Action {
    match Tfind(t, request)
    case None => Return(AT_ERROR)
    case Some(h) => ExecuteForm(h.callbacks, request)
  }

  /** at_commands_execute */
  function Execute(fit: Conversion, m: Contents, t: Tree, request: string): Action {
    var c := Upper(CharAt(request, 0));
    if 'A' <= c <= 'Z' then
      if c == 'D' then ExecuteDial(m, request)
      else if c == 'S' then ExecuteS(fit, m, request)
      else Invoked(Get(m, Alpha(c)), WithValue(ValueOrZero(fit, request[1..])), AT_ERROR)
    else if c == '&' then ExecuteAmpersand(fit, m, request)
    else ExecuteExtended(t, request)
  }

  /** at_commands_execute on the bank's own slots. */
  method ExecuteOn(fit: Conversion, bank: Bank?, request: string) returns (action: Action)
    requires bank != null ==> bank.Valid()
    ensures action == if bank == null then Return(AT_ERROR) else Execute(fit, bank.contents, bank.extended, request)
  {
    if bank == null {
      return Return(AT_ERROR);
    }
    var c := Upper(CharAt(request, 0));
    if 'A' <= c <= 'Z' {
      var x := c as int - 65;
      assert (x + 65) as char == c;
      if c == 'D' {
        var voice := if ';' in request then 1 else 0;
        action := Invoked(bank.dial[voice], WithText(request[1..]), AT_NO_DIALTONE);
      } else if c == 'S' {
        action := SOn(fit, bank, request);
      } else {
        action := Invoked(bank.alpha[x], WithValue(ValueOrZero(fit, request[1..])), AT_ERROR);
      }
    } else if c == '&' {
      c := Upper(CharAt(request, 1));
      if 'A' <= c <= 'Z' {
        var x := c as int - 65;
        assert (x + 65) as char == c;
        action := Invoked(bank.ampersand[x], WithValue(ValueOrZero(fit, request[2..])), AT_ERROR);
      } else {
        action := Return(AT_ERROR);
      }
    } else {
      action := ExecuteExtended(bank.extended, request);
    }
  }

  method SOn(fit: Conversion, bank: Bank, request: string) returns (action: Action)
    requires bank.Valid() && request != ""
    ensures action == ExecuteS(fit, bank.contents, request)
  {
    match ScanS(fit, request) {
      case Operator(x, op) =>
        action := if op != '?' then Return(AT_ERROR)
                  else Invoked(if x > MAX_S then None else bank.s[x], Query, AT_ERROR);
      case Full(x, op, value) =>
        action := if op != '=' then Return(AT_ERROR)
                  else Invoked(if x > MAX_S then None else bank.s[x], WithValue(value), AT_ERROR);
      case _ => action := Return(AT_ERROR);
    }
  }

  // ------------------------------------------------------------------ numbers

  /** The number a string of decimal digits writes. */
  function NumberOf(digits: string): nat
    requires AllDigits(digits)
  {
    if digits == "" then 0
    else 10 * NumberOf(digits[..|digits| - 1]) + DecimalValue(digits[|digits| - 1])
  }

  lemma {:induction false} DigitsReadBack(before: string, digits: string, after: string)
    requires AllDigits(before) && AllDigits(digits) && (after == "" || !IsDigit(after[0]))
    ensures ReadDigits(digits + after, NumberOf(before)) == (NumberOf(before + digits), after)
    decreases |digits|
  {
    if digits == "" {
      assert digits + after == after && before + digits == before;
    } else {
      var d := digits[0];
      var next := before + [d];
      assert next[..|before|] == before;
      assert AllDigits(next);
      assert (digits + after)[1..] == digits[1..] + after;
      assert next + digits[1..] == before + digits;
      DigitsReadBack(next, digits[1..], after);
    }
  }

  /** A printed number, with or without a sign, is read as what the library stores for it. */
  lemma NumberReadsBack(fit: Conversion, sign: string, digits: string, after: string)
    requires sign in {"", "+", "-"} && AllDigits(digits) && (after == "" || !IsDigit(after[0]))
    ensures digits != "" ==>
              ReadNumber(fit, sign + digits + after) == Some((fit(Signed(sign == "-", NumberOf(digits))), after))
    ensures sign + digits == "" && (after == "" || (!IsSpace(after[0]) && after[0] !in {'+', '-'})) ==>
              ReadNumber(fit, after).None?
  {
    hide NumberOf, ReadDigits;
    var s := sign + digits + after;
    if digits == "" {
    } else {
      assert s[0] == if sign == "" then digits[0] else sign[0];
      assert (if s[0] in {'+', '-'} then s[1..] else s) == digits + after;
      assert (digits + after)[0] == digits[0];
      EmptyNumber();
      assert "" + digits == digits;
      DigitsReadBack("", digits, after);
    }
  }

  lemma EmptyNumber()
    ensures NumberOf("") == 0
  {
  }

  /** A number in decimal. */
  function Decimal(n: nat): string {
    if n < 10 then ["0123456789"[n]] else Decimal(n / 10) + ["0123456789"[n % 10]]
  }

  lemma DigitCharacter(n: nat)
    requires n < 10
    ensures IsDigit("0123456789"[n]) && DecimalValue("0123456789"[n]) == n
  {
  }

  /** What a string of digits writes is the number that it is the decimal form of. */
  lemma {:induction false} DecimalIsRead(n: nat)
    ensures Decimal(n) != "" && AllDigits(Decimal(n)) && NumberOf(Decimal(n)) == n
    decreases n
  {
    DigitCharacter(n % 10);
    if n < 10 {
      EmptyNumber();
      assert Decimal(n)[..0] == "";
    } else {
      DecimalIsRead(n / 10);
      assert Decimal(n)[..|Decimal(n)| - 1] == Decimal(n / 10);
    }
  }

  lemma {:induction false} SkipsSpaces(n: nat, s: string)
    ensures SkipWhite(C.Spaces(n) + s) == SkipWhite(s)
    decreases n
  {
    if n == 0 {
      assert C.Spaces(0) + s == s;
    } else {
      assert (C.Spaces(n) + s)[1..] == C.Spaces(n - 1) + s;
      SkipsSpaces(n - 1, s);
    }
  }

  lemma NoWhite(s: string)
    requires s != "" && !IsSpace(s[0])
    ensures SkipWhite(s) == s
  {
  }

  /** A number without a sign is read, whatever spaces come before it; without digits what follows is. */
  lemma NumberTextIsRead(fit: Conversion, u: C.Number, after: string)
    requires AllDigits(u.digits) && (after == "" || !IsDigit(after[0]))
    ensures ReadNumber(fit, C.NumberText(u) + after) ==
            if u.digits == "" then ReadNumber(fit, after) else Some((fit(NumberOf(u.digits)), after))
  {
    hide NumberOf;
    assert C.NumberText(u) + after == C.Spaces(u.spaces) + (u.digits + after);
    SkipsSpaces(u.spaces, u.digits + after);
    if u.digits == "" {
      assert u.digits + after == after;
    } else {
      NumberReadsBack(fit, "", u.digits, after);
      assert "" + u.digits + after == u.digits + after;
    }
  }

  /** Nothing is read at the end of a command or at an operator. */
  lemma NoNumber(fit: Conversion, spaces: nat, s: string)
    requires s == "" || s[0] in {'=', '?'}
    ensures ReadNumber(fit, C.Spaces(spaces) + s).None?
  {
    SkipsSpaces(spaces, s);
    if s != "" {
      NoWhite(s);
    }
  }

  lemma ValueIsRead(fit: Conversion, u: C.Number)
    requires AllDigits(u.digits)
    ensures ReadNumber(fit, C.NumberText(u)) == if u.digits == "" then None else Some((fit(NumberOf(u.digits)), ""))
    ensures ValueOrZero(fit, C.NumberText(u)) == fit(NumberOf(u.digits))
  {
    hide ReadNumber, NumberOf;
    NumberTextIsRead(fit, u, "");
    NoNumber(fit, 0, "");
    EmptyNumber();
    assert C.NumberText(u) + "" == C.NumberText(u) && C.Spaces(0) + "" == "";
  }

  // ------------------------------------------------------------------ printed commands

  /** The letter names the slot, in either case. */
  predicate Names(letter: char, slot: char) {
    'A' <= slot <= 'Z' && (letter == slot || letter as int == slot as int + 32)
  }

  function SlotLetter(letter: char): (slot: char)
    requires IsAlpha(letter)
    ensures Names(letter, slot)
  {
    if letter <= 'Z' then letter else (letter as int - 32) as char
  }

  function IfRegistered(m: Contents, slot: Slot, argument: Argument, otherwise: nat): Action {
    if slot in m then Invoke(m[slot], argument) else Return(otherwise)
  }

  /** The slot and the argument that a printed basic command denotes; 4 is ERROR, 6 is NO DIALTONE. */
  function Meant(fit: Conversion, m: Contents, c: C.Cmd): Action
    requires C.WellFormed(c) && !c.Extended?
  {
    match c
    case Letter(letter, number) =>
      IfRegistered(m, Alpha(SlotLetter(letter)), WithValue(fit(NumberOf(number.digits))), 4)
    case Ampersand(letter, number) =>
      IfRegistered(m, Ampersand(SlotLetter(letter)), WithValue(fit(NumberOf(number.digits))), 4)
    case SSet(param, _, value) =>
      var x := fit(NumberOf(param.digits));
      if param.digits == "" || value.digits == "" || x > 25 then Return(4)
      else IfRegistered(m, SParameter(x), WithValue(fit(NumberOf(value.digits))), 4)
    case SQuery(param, _) =>
      var x := fit(NumberOf(param.digits));
      if param.digits == "" || x > 25 then Return(4) else IfRegistered(m, SParameter(x), Query, 4)
    case Dial(dialled) => IfRegistered(m, Dialing(';' in dialled), WithText(dialled), 6)
  }

  lemma SetScansBack(fit: Conversion, param: C.Number, spaces: nat, value: C.Number)
    requires AllDigits(param.digits) && AllDigits(value.digits)
    ensures ScanS(fit, "S" + C.NumberText(param) + C.Spaces(spaces) + "=" + C.NumberText(value)) ==
              if param.digits == "" then NoScan
              else if value.digits == "" then Operator(fit(NumberOf(param.digits)), '=')
              else Full(fit(NumberOf(param.digits)), '=', fit(NumberOf(value.digits)))
  {
    assert !IsSpace('=');
    hide ReadNumber, NumberOf, C.NumberText;
    var tail := "=" + C.NumberText(value);
    var s := "S" + C.NumberText(param) + C.Spaces(spaces) + "=" + C.NumberText(value);
    assert s[1..] == C.NumberText(param) + (C.Spaces(spaces) + tail);
    NumberTextIsRead(fit, param, C.Spaces(spaces) + tail);
    NoNumber(fit, spaces, tail);
    SkipsSpaces(spaces, tail);
    NoWhite(tail);
    assert tail[1..] == C.NumberText(value);
    ValueIsRead(fit, value);
  }

  lemma QueryScansBack(fit: Conversion, param: C.Number, spaces: nat)
    requires AllDigits(param.digits)
    ensures ScanS(fit, "S" + C.NumberText(param) + C.Spaces(spaces) + "?") ==
            if param.digits == "" then NoScan else Operator(fit(NumberOf(param.digits)), '?')
  {
    assert !IsSpace('?');
    hide ReadNumber, NumberOf, C.NumberText;
    var s := "S" + C.NumberText(param) + C.Spaces(spaces) + "?";
    assert s[1..] == C.NumberText(param) + (C.Spaces(spaces) + "?");
    NumberTextIsRead(fit, param, C.Spaces(spaces) + "?");
    NoNumber(fit, spaces, "?");
    SkipsSpaces(spaces, "?");
    NoWhite("?");
    assert "?"[1..] == C.Spaces(0) + "";
    NoNumber(fit, 0, "");
  }

  /** Executing a printed basic command invokes the slot it names with the number it writes, whatever its spaces. */
  lemma BasicCommandMeans(fit: Conversion, m: Contents, t: Tree, c: C.Cmd)
    requires C.WellFormed(c) && !c.Extended?
    ensures Execute(fit, m, t, C.TextOf(c)) == Meant(fit, m, c)
  {
    hide ReadNumber, ValueOrZero, NumberOf, C.NumberText, C.Spaces;
    var s := C.TextOf(c);
    match c {
      case Letter(letter, number) =>
        assert s[1..] == C.NumberText(number);
        ValueIsRead(fit, number);
      case Ampersand(letter, number) =>
        assert s[2..] == C.NumberText(number);
        ValueIsRead(fit, number);
      case SSet(param, spaces, value) => SetScansBack(fit, param, spaces, value);
      case SQuery(param, spaces) => QueryScansBack(fit, param, spaces);
      case Dial(dialled) =>
        assert s[1..] == dialled;
        assert ';' in s <==> ';' in dialled;
    }
  }

  /** A letter, in either case, and a number, behind any spaces: the callback of that letter gets that number. */
  lemma LetterInvokesItsSlot(
    fit: Conversion, m: Contents, t: Tree, letter: char, slot: char, ampersand: bool, spaces: nat, n: nat)
    requires Names(letter, slot) && (ampersand || (slot != 'D' && slot != 'S'))
    ensures var text := (if ampersand then "&" else "") + [letter] + C.Spaces(spaces) + Decimal(n);
            var place := if ampersand then Ampersand(slot) else Alpha(slot);
            Execute(fit, m, t, text) ==
            if place in m then Invoke(m[place], WithValue(if n < WORD then n else fit(n))) else Return(AT_ERROR)
  {
    hide Execute, NumberOf, C.Spaces, Decimal;
    DecimalIsRead(n);
    var u := C.Number(spaces, Decimal(n));
    assert SlotLetter(letter) == slot;
    if ampersand {
      assert C.TextOf(C.Ampersand(letter, u)) == "&" + [letter] + C.Spaces(spaces) + Decimal(n);
      BasicCommandMeans(fit, m, t, C.Ampersand(letter, u));
    } else {
      assert C.TextOf(C.Letter(letter, u)) == "" + [letter] + C.Spaces(spaces) + Decimal(n);
      BasicCommandMeans(fit, m, t, C.Letter(letter, u));
    }
  }

  /**
   * The forms of an extended request: nothing, a query, a test with anything after it, or a setting. Spaces may
   * come before the operator and after the '='.
   */
  datatype Form =
    | Bare(before: nat)
    | QueryForm(before: nat, ignored: string)
    | TestForm(before: nat, after: nat, ignored: string)
    | SetForm(before: nat, after: nat, args: string)

  function FormText(form: Form): string {
    match form
    case Bare(before) => C.Spaces(before)
    case QueryForm(before, ignored) => C.Spaces(before) + ("?" + ignored)
    case TestForm(before, after, ignored) => C.Spaces(before) + ("=" + (C.Spaces(after) + ("?" + ignored)))
    case SetForm(before, after, args) => C.Spaces(before) + ("=" + (C.Spaces(after) + args))
  }

  predicate WellFormedForm(form: Form) {
    form.SetForm? ==> form.args == "" || (!IsSpace(form.args[0]) && form.args[0] != '?')
  }

  /** What a form asks of the callbacks; without a query callback the result is +CME error 50, incorrect parameters. */
  function MeantBy(cb: Callbacks, form: Form): Action {
    match form
    case Bare(_) => Invoke(cb, WithText(""))
    case QueryForm(_, _) => if cb.hasGet then Invoke(cb, Query) else Return(0x100 + 50)
    case TestForm(_, _, _) => if cb.hasTest then Invoke(cb, Test) else Return(0)
    case SetForm(_, _, args) => Invoke(cb, WithText(args))
  }

  lemma {:induction false} WordEndsAt(word: string, suffix: string)
    requires forall i :: 0 <= i < |word| ==> word[i] !in {'?', '=', ' '}
    requires suffix == "" || suffix[0] in {'?', '=', ' '}
    ensures WordLength(word + suffix) == |word|
    decreases |word|
  {
    if word == "" {
      assert word + suffix == suffix;
    } else {
      assert (word + suffix)[1..] == word[1..] + suffix;
      WordEndsAt(word[1..], suffix);
    }
  }

  /** Behind the spaces comes the operator, and behind its spaces the argument. */
  lemma FormIsScanned(form: Form)
    requires WellFormedForm(form)
    ensures var rest := SkipWhite(FormText(form));
            match form
            case Bare(_) => rest == ""
            case QueryForm(_, ignored) => rest == "?" + ignored
            case TestForm(_, _, ignored) =>
              rest != "" && rest[0] == '=' && SkipWhite(rest[1..]) == "?" + ignored
            case SetForm(_, _, args) => rest != "" && rest[0] == '=' && SkipWhite(rest[1..]) == args
  {
    assert !IsSpace('?') && !IsSpace('=');
    hide C.Spaces;
    match form {
      case Bare(before) =>
        SkipsSpaces(before, "");
        assert C.Spaces(before) + "" == C.Spaces(before);
      case QueryForm(before, ignored) =>
        SkipsSpaces(before, "?" + ignored);
        NoWhite("?" + ignored);
      case TestForm(before, after, ignored) =>
        var inner := C.Spaces(after) + ("?" + ignored);
        SkipsSpaces(before, "=" + inner);
        NoWhite("=" + inner);
        SkipsSpaces(after, "?" + ignored);
        NoWhite("?" + ignored);
        assert ("=" + inner)[1..] == inner;
      case SetForm(before, after, args) =>
        var inner := C.Spaces(after) + args;
        SkipsSpaces(before, "=" + inner);
        NoWhite("=" + inner);
        SkipsSpaces(after, args);
        assert ("=" + inner)[1..] == inner;
    }
  }

  lemma FormReadsBack(cb: Callbacks, name: string, form: Form)
    requires IsName(name) && name[0] !in {'?', '=', ' '} && WellFormedForm(form)
    ensures ExecuteForm(cb, name + FormText(form)) == MeantBy(cb, form)
  {
    var suffix := FormText(form);
    WordEndsAt(name, suffix);
    assert (name + suffix)[|name|..] == suffix;
    FormIsScanned(form);
  }

  /**
   * Executing an extended request invokes the callback registered under its name, in any case and
   * whatever the shape of the tree, with what its form asks; it fails when the name is unknown.
   */
  lemma ExtendedCommandMeans(fit: Conversion, m: Contents, t: Tree, name: string, form: Form)
    requires TreeHolds(t, m) && AllNames(InOrder(t))
    requires NulFree(name) && IsName(name) && name[0] !in {'?', '=', ' ', '&'}
    requires WellFormedForm(form) && NulFree(FormText(form))
    requires NeverMisled(InOrder(t), name, FormText(form))
    ensures Execute(fit, m, t, name + FormText(form)) ==
              match Get(m, Extended(LowerAll(name)))
              case Some(cb) => MeantBy(cb, form)
              case None => Return(AT_ERROR)
  {
    hide Same, LowerAll, Sorted, ExecuteForm, Tfind, AllNames, Has, NeverMisled;
    var suffix := FormText(form);
    var request := name + suffix;
    assert request[0] == name[0];
    assert IsSuffix(suffix);
    LookupIff(t, name, suffix);
    HasIffContained(t, m, name);
    if Tfind(t, request).Some? {
      var h := Tfind(t, request).value;
      SameIsEqualLowered(name, h.name);
      FormReadsBack(h.callbacks, name, form);
    }
  }
}

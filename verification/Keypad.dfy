/**
 * Keypad emulation (AT+CKPD): a script of keys, with ';' switching between key and alphabetic mode and ';;'
 * standing for a literal semicolon, becomes press and release events with timestamps.
 */
module Keypad {
  import opened Ctype

  // ------------------------------------------------------------------ scripts

  /** A key of the script and the mode it is pressed in. */
  datatype Key = Key(c: char, alpha: bool)

  /** The keys that the loop of handle_keypad finds, from a mode on. */
  function Decode(script: string, alpha: bool): seq<Key>
    decreases |script|
  {
    if script == "" then []
    else if script[0] == ';' then
      if |script| > 1 && script[1] == ';' then [Key(';', alpha)] + Decode(script[2..], alpha)
      else Decode(script[1..], !alpha)
    else [Key(script[0], alpha)] + Decode(script[1..], alpha)
  }

  /** Writing keys as a script: a toggle where the mode changes, and a doubled literal semicolon. */
  function Encode(keys: seq<Key>, alpha: bool): string
    decreases |keys|
  {
    if keys == [] then ""
    else
      (if keys[0].alpha != alpha then ";" else "")
      + (if keys[0].c == ';' then ";;" else [keys[0].c])
      + Encode(keys[1..], keys[0].alpha)
  }

  /** The mode never changes just before a literal semicolon. */
  predicate NoSwitchAtSemicolon(keys: seq<Key>, alpha: bool)
    decreases |keys|
  {
    keys == [] || ((keys[0].c == ';' ==> keys[0].alpha == alpha) && NoSwitchAtSemicolon(keys[1..], keys[0].alpha))
  }

  lemma DecodePlain(c: char, rest: string, alpha: bool)
    requires c != ';'
    ensures Decode([c] + rest, alpha) == [Key(c, alpha)] + Decode(rest, alpha)
  {
    assert ([c] + rest)[1..] == rest;
  }

  lemma DecodeLiteral(rest: string, alpha: bool)
    ensures Decode(";;" + rest, alpha) == [Key(';', alpha)] + Decode(rest, alpha)
  {
    assert (";;" + rest)[2..] == rest;
  }

  lemma DecodeToggle(c: char, rest: string, alpha: bool)
    requires c != ';'
    ensures Decode(";" + [c] + rest, alpha) == Decode([c] + rest, !alpha)
  {
    assert (";" + [c] + rest)[1..] == [c] + rest;
  }

  lemma ConsSame(k: Key, a: seq<Key>, b: seq<Key>)
    ensures [k] + a == [k] + b <==> a == b
  {
    if [k] + a == [k] + b {
      assert a == ([k] + a)[1..] && b == ([k] + b)[1..];
    }
  }

  /** What the script of a list decodes to, given what the script of its tail does. */
  lemma DecodeFirst(k: Key, rest: string, alpha: bool)
    ensures var script := (if k.alpha != alpha then ";" else "") + (if k.c == ';' then ";;" else [k.c]) + rest;
            if k.c == ';' && k.alpha != alpha
            then Decode(script, alpha) != [] && Decode(script, alpha)[0] == Key(';', alpha)
            else Decode(script, alpha) == [k] + Decode(rest, k.alpha)
  {
    hide Decode;
    if k.c != ';' {
      DecodePlain(k.c, rest, k.alpha);
      DecodeToggle(k.c, rest, alpha);
      assert "" + [k.c] + rest == [k.c] + rest;
    } else if k.alpha == alpha {
      DecodeLiteral(rest, alpha);
      assert "" + ";;" + rest == ";;" + rest;
    } else {
      DecodeLiteral(";" + rest, alpha);
      assert ";" + ";;" + rest == ";;" + (";" + rest);
    }
  }

  /** A script decodes to the keys it was written from exactly when no mode switch meets a literal semicolon. */
  lemma {:induction false} ScriptDecodesBackIff(keys: seq<Key>, alpha: bool)
    ensures Decode(Encode(keys, alpha), alpha) == keys <==> NoSwitchAtSemicolon(keys, alpha)
    decreases |keys|
  {
    if keys == [] {
      assert Encode(keys, alpha) == "";
    } else {
      hide Decode;
      var k, others := keys[0], keys[1..];
      var rest := Encode(others, k.alpha);
      ScriptDecodesBackIff(others, k.alpha);
      DecodeFirst(k, rest, alpha);
      ConsSame(k, Decode(rest, k.alpha), others);
      assert keys == [k] + others;
    }
  }

  /** No script at all decodes to a mode switch just before a literal semicolon. */
  lemma {:induction false} DecodedNeverSwitchesAtSemicolon(script: string, alpha: bool)
    ensures NoSwitchAtSemicolon(Decode(script, alpha), alpha)
    decreases |script|
  {
    if script == "" {
    } else if script[0] == ';' && |script| > 1 && script[1] == ';' {
      DecodedNeverSwitchesAtSemicolon(script[2..], alpha);
      var rest := Decode(script[2..], alpha);
      assert ([Key(';', alpha)] + rest)[1..] == rest;
    } else if script[0] == ';' {
      DecodedNeverSwitchesAtSemicolon(script[1..], !alpha);
    } else {
      DecodedNeverSwitchesAtSemicolon(script[1..], alpha);
      var rest := Decode(script[1..], alpha);
      assert ([Key(script[0], alpha)] + rest)[1..] == rest;
    }
  }

  /** The key lists that some script expresses are exactly those without such a switch. */
  lemma ExpressibleIff(keys: seq<Key>, alpha: bool)
    ensures (exists script :: Decode(script, alpha) == keys) <==> NoSwitchAtSemicolon(keys, alpha)
  {
    hide Decode, NoSwitchAtSemicolon;
    ScriptDecodesBackIff(keys, alpha);
    if script :| Decode(script, alpha) == keys {
      DecodedNeverSwitchesAtSemicolon(script, alpha);
    }
  }

  // ------------------------------------------------------------------ time

  datatype Time = Time(sec: int, usec: int)

  predicate Normal(t: Time) {
    0 <= t.usec < 1000000
  }

  function Micros(t: Time): int {
    1000000 * t.sec + t.usec
  }

  /** ds_to_tv: a duration in tenths of a second. */
  function Tenths(ds: Byte): (t: Time)
    ensures Normal(t) && Micros(t) == 100000 * ds
  {
    Time(ds / 10, ds % 10 * 100000)
  }

  /** add_delay */
  function AddDelay(before: Time, delay: Time): (after: Time)
    requires Normal(before) && Normal(delay)
    ensures Normal(after) && Micros(after) == Micros(before) + Micros(delay)
  {
    var sum := Time(before.sec + delay.sec, before.usec + delay.usec);
    if sum.usec >= 1000000 then Time(sum.sec + 1, sum.usec - 1000000) else sum
  }

  // ------------------------------------------------------------------ events

  /** An input event: a key going down (1) or up (0), or the end of a report. */
  datatype Event = KeyEvent(code: nat, value: nat, time: Time) | Syn(time: Time)

  /** The codes of one character: in key mode, and in alphabetic mode. */
  datatype Codes = Codes(key: nat, alpha: nat)

  /** The key table: the codes of the characters from space to 127. */
  type Keymap = m: seq<Codes> | |m| == 96 witness seq(96, _ => Codes(0, 0))

  /** The code of a key; characters are signed bytes, so those above 127 have none. */
  function CodeOf(keymap: Keymap, k: Key): nat {
    var c := k.c as int;
    if c < 32 || c > 127 then 0 else if k.alpha then keymap[c - 32].alpha else keymap[c - 32].key
  }

  /** Keys have the code of their character in the mode that they are pressed in. */
  lemma KeysHaveTheirCodes(keymap: Keymap, c: char)
    ensures 32 <= c as int <= 127 ==>
              CodeOf(keymap, Key(c, false)) == keymap[c as int - 32].key
              && CodeOf(keymap, Key(c, true)) == keymap[c as int - 32].alpha
    ensures !(32 <= c as int <= 127) ==> CodeOf(keymap, Key(c, false)) == CodeOf(keymap, Key(c, true)) == 0
  {
  }

  function CodesOf(keymap: Keymap, keys: seq<Key>): seq<nat> {
    seq(|keys|, i requires 0 <= i < |keys| => CodeOf(keymap, keys[i]))
  }

  /** The events of one key: press and release, each with its report; none for a key without a code. */
  function Stroke(code: nat, down: Time, up: Time): seq<Event> {
    if code == 0 then [] else [KeyEvent(code, 1, down), Syn(down), KeyEvent(code, 0, up), Syn(up)]
  }

  /** The time after n keys. */
  function Clock(start: Time, press: Time, pause: Time, n: nat): (t: Time)
    requires Normal(start) && Normal(press) && Normal(pause)
    ensures Normal(t)
  {
    if n == 0 then start else AddDelay(AddDelay(Clock(start, press, pause, n - 1), press), pause)
  }

  /** The events of the first n codes. */
  function Trace(codes: seq<nat>, start: Time, press: Time, pause: Time, n: nat): seq<Event>
    requires n <= |codes| && Normal(start) && Normal(press) && Normal(pause)
  {
    if n == 0 then []
    else
      var down := Clock(start, press, pause, n - 1);
      Trace(codes, start, press, pause, n - 1) + Stroke(codes[n - 1], down, AddDelay(down, press))
  }

  /** After n keys the clock reads exactly n times the press and pause durations later. */
  lemma {:induction false} ClockAdvancesEvenly(start: Time, press: Byte, pause: Byte, n: nat)
    requires Normal(start)
    ensures Micros(Clock(start, Tenths(press), Tenths(pause), n)) ==
              Micros(start) + n * (100000 * press + 100000 * pause)
    decreases n
  {
    if n == 0 {
    } else {
      ClockAdvancesEvenly(start, press, pause, n - 1);
      var step := 100000 * press + 100000 * pause;
      assert n * step == (n - 1) * step + step;
    }
  }

  /**
   * The events of the n-th key, from 0 on: none without a code; else press, report, release and report, at the
   * start of its time and when it has been pressed long enough.
   */
  lemma KeyEvents(codes: seq<nat>, start: Time, press: Byte, pause: Byte, n: nat)
    requires n < |codes| && Normal(start)
    ensures var t := (k: nat) requires k <= |codes| => Trace(codes, start, Tenths(press), Tenths(pause), k);
            if codes[n] == 0 then t(n + 1) == t(n)
            else exists down: Time, up: Time ::
              && Micros(down) == Micros(start) + n * (100000 * press + 100000 * pause)
              && Micros(up) == Micros(down) + 100000 * press
              && t(n + 1) == t(n) + [KeyEvent(codes[n], 1, down), Syn(down), KeyEvent(codes[n], 0, up), Syn(up)]
  {
    var press', pause' := Tenths(press), Tenths(pause);
    var down := Clock(start, press', pause', n);
    var up := AddDelay(down, press');
    ClockAdvancesEvenly(start, press, pause, n);
    assert Trace(codes, start, press', pause', n + 1) ==
           Trace(codes, start, press', pause', n) + Stroke(codes[n], down, up);
    hide Trace, Clock, AddDelay, Tenths;
    if codes[n] == 0 {
      assert Stroke(codes[n], down, up) == [];
    } else {
      assert Stroke(codes[n], down, up) ==
             [KeyEvent(codes[n], 1, down), Syn(down), KeyEvent(codes[n], 0, up), Syn(up)];
    }
  }

  predicate IsPress(e: Event) {
    e.KeyEvent? && e.value == 1
  }

  predicate IsReleaseOf(e: Event, press: Event) {
    e.KeyEvent? && e.value == 0 && press.KeyEvent? && e.code == press.code
  }

  /** Every press is released, press time later, before anything else is pressed, and reported in between. */
  lemma {:induction false} PressesAreReleased(codes: seq<nat>, start: Time, press: Time, pause: Time, n: nat, i: nat)
    requires n <= |codes| && Normal(start) && Normal(press) && Normal(pause)
    requires i < |Trace(codes, start, press, pause, n)| && IsPress(Trace(codes, start, press, pause, n)[i])
    ensures var t := Trace(codes, start, press, pause, n);
            && i + 3 < |t| && t[i + 1] == Syn(t[i].time) && IsReleaseOf(t[i + 2], t[i])
            && Micros(t[i + 2].time) == Micros(t[i].time) + Micros(press) && t[i + 3] == Syn(t[i + 2].time)
    decreases n
  {
    var before := Trace(codes, start, press, pause, n - 1);
    if i < |before| {
      PressesAreReleased(codes, start, press, pause, n - 1, i);
    } else {
      var down := Clock(start, press, pause, n - 1);
      assert Trace(codes, start, press, pause, n)[i] == Stroke(codes[n - 1], down, AddDelay(down, press))[i - |before|];
    }
  }

  // ------------------------------------------------------------------ the program

  /** The input device: it takes so many more events, then fails. */
  class Device {
    var events: seq<Event>
    var budget: nat

    constructor (budget: nat)
      ensures events == [] && this.budget == budget
    {
      events, this.budget := [], budget;
    }

    /** emit_uinput for a key and for the report after it. */
    method Emit(code: nat, value: nat, time: Time) returns (ok: bool)
      modifies this
      ensures ok ==> events == old(events) + [KeyEvent(code, value, time), Syn(time)]
      ensures ok <==> old(budget) >= 2
      ensures budget == if ok then old(budget) - 2 else 0
      ensures !ok ==> events == old(events) || events == old(events) + [KeyEvent(code, value, time)]
    {
      ok := false;
      if budget == 0 {
        return;
      }
      events, budget := events + [KeyEvent(code, value, time)], budget - 1;
      if budget == 0 {
        return;
      }
      events, budget := events + [Syn(time)], budget - 1;
      ok := true;
    }
  }

  lemma DecodeStep(script: string, alpha: bool, p: nat)
    requires p < |script|
    ensures Decode(script[p..], alpha) ==
              if script[p] == ';' && p + 1 < |script| && script[p + 1] == ';'
              then [Key(';', alpha)] + Decode(script[p + 2..], alpha)
              else if script[p] == ';' then Decode(script[p + 1..], !alpha)
              else [Key(script[p], alpha)] + Decode(script[p + 1..], alpha)
  {
    assert script[p..][1..] == script[p + 1..];
    if p + 1 < |script| {
      assert script[p..][2..] == script[p + 2..];
    }
  }

  /**
   * The loop of handle_keypad: on success the device has got the trace of the decoded keys, and the clock
   * has advanced by all of them; it only fails when the device does.
   */
  method PlayScript(device: Device, keymap: Keymap, script: string, presstime: Byte, pausetime: Byte, start: Time)
    returns (ok: bool, time: Time)
    requires Normal(start)
    modifies device
    ensures Normal(time)
    ensures var codes := CodesOf(keymap, Decode(script, false));
            var trace := Trace(codes, start, Tenths(presstime), Tenths(pausetime), |codes|);
            && (ok ==> device.events == old(device.events) + trace)
            && (ok <==> |trace| <= old(device.budget))
            && (ok ==> time == Clock(start, Tenths(presstime), Tenths(pausetime), |codes|))
  {
    hide Decode, Trace, CodesOf, Clock, Tenths;
    var press, pause := Tenths(presstime), Tenths(pausetime);
    ghost var keys := Decode(script, false);
    ghost var codes := CodesOf(keymap, keys);
    ghost var done: nat := 0;
    time := start;
    var alpha := false;
    var p: nat := 0;
    assert script[0..] == script;
    StartOfTrace(codes, start, press, pause);
    CodesLength(keymap, keys);
    while p < |script|
      invariant p <= |script| && done <= |keys| && Normal(time)
      invariant Decode(script[p..], alpha) == keys[done..]
      invariant time == Clock(start, press, pause, done)
      invariant device.events == old(device.events) + Trace(codes, start, press, pause, done)
      invariant device.budget + |Trace(codes, start, press, pause, done)| == old(device.budget)
      decreases |script| - p
    {
      var c := script[p];
      DecodeStep(script, alpha, p);
      if c == ';' {
        if p + 1 < |script| && script[p + 1] == ';' {
          p := p + 1;
        } else {
          alpha := !alpha;
          p := p + 1;
          continue;
        }
      }
      assert keys[done..][0] == Key(c, alpha) && keys[done..][1..] == keys[done + 1..];
      var code := CodeOf(keymap, Key(c, alpha));
      CodeAt(keymap, keys, done);
      TraceStep(codes, start, press, pause, done);
      TraceGrows(codes, start, press, pause, done + 1);
      if code != 0 {
        var emitted := device.Emit(code, 1, time);
        if !emitted {
          return false, time;
        }
      }
      time := AddDelay(time, press);
      if code != 0 {
        var emitted := device.Emit(code, 0, time);
        if !emitted {
          return false, time;
        }
      }
      time := AddDelay(time, pause);
      done := done + 1;
      p := p + 1;
    }
    EmptyScript(alpha);
    assert script[p..] == "" && keys[done..] == [];
    assert done == |keys|;
    ok := true;
  }

  lemma EmptyScript(alpha: bool)
    ensures Decode("", alpha) == []
  {
  }

  lemma CodesLength(keymap: Keymap, keys: seq<Key>)
    ensures |CodesOf(keymap, keys)| == |keys|
  {
  }

  lemma CodeAt(keymap: Keymap, keys: seq<Key>, i: nat)
    requires i < |keys|
    ensures |CodesOf(keymap, keys)| == |keys| && CodesOf(keymap, keys)[i] == CodeOf(keymap, keys[i])
  {
  }

  lemma StartOfTrace(codes: seq<nat>, start: Time, press: Time, pause: Time)
    requires Normal(start) && Normal(press) && Normal(pause)
    ensures Trace(codes, start, press, pause, 0) == [] && Clock(start, press, pause, 0) == start
  {
  }

  lemma {:induction false} TraceGrows(codes: seq<nat>, start: Time, press: Time, pause: Time, n: nat)
    requires n <= |codes| && Normal(start) && Normal(press) && Normal(pause)
    ensures |Trace(codes, start, press, pause, n)| <= |Trace(codes, start, press, pause, |codes|)|
    decreases |codes| - n
  {
    if n == |codes| {
    } else {
      TraceGrows(codes, start, press, pause, n + 1);
    }
  }

  lemma TraceStep(codes: seq<nat>, start: Time, press: Time, pause: Time, n: nat)
    requires n < |codes| && Normal(start) && Normal(press) && Normal(pause)
    ensures var down := Clock(start, press, pause, n);
            && Clock(start, press, pause, n + 1) == AddDelay(AddDelay(down, press), pause)
            && Trace(codes, start, press, pause, n + 1) ==
               Trace(codes, start, press, pause, n) + Stroke(codes[n], down, AddDelay(down, press))
  {
  }
}

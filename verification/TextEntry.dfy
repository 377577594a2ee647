/**
 * Text entry: at_getchar reads the terminal in blocks, echoing each block as a whole; at_read_text collects
 * edited text up to Ctrl+Z in a buffer that doubles.
 */
module TextEntry {
  import opened Ctype
  import opened Editing

  const IN_BUF: nat := 1024
  const CTRL_Z: Byte := 26
  const ESC: Byte := 27
  const CR: Byte := 13

  // ------------------------------------------------------------------ what entry means

  predicate Stops(c: Byte) {
    c == CTRL_Z || c == ESC
  }

  /** The position of the first Ctrl+Z or ESC, or the length. */
  function FirstStop(stream: seq<Byte>): (i: nat)
    ensures i <= |stream|
  {
    if stream == [] || Stops(stream[0]) then 0 else 1 + FirstStop(stream[1..])
  }

  function KeyOf(c: Byte): Keystroke<Byte> {
    if c == 8 || c == 127 then Erase else Type(c)
  }

  function KeysOf(bytes: seq<Byte>): seq<Keystroke<Byte>> {
    seq(|bytes|, i requires 0 <= i < |bytes| => KeyOf(bytes[i]))
  }

  /** The text entered by a stream of input, if Ctrl+Z comes before ESC and before the end. */
  function EnteredText(stream: seq<Byte>): Option<seq<Byte>> {
    var i := FirstStop(stream);
    if i < |stream| && stream[i] == CTRL_Z then Some(Edited(KeysOf(stream[..i]))) else None
  }

  /** What is left of the stream after text entry. */
  function AfterEntry(stream: seq<Byte>): seq<Byte> {
    var i := FirstStop(stream);
    if i < |stream| then stream[i + 1..] else []
  }

  function Returns(bytes: seq<Byte>): nat {
    if bytes == [] then 0 else Returns(bytes[..|bytes| - 1]) + if bytes[|bytes| - 1] == CR then 1 else 0
  }

  lemma {:induction false} FirstStopIs(stream: seq<Byte>, i: nat)
    requires i <= |stream| && (forall j :: 0 <= j < i ==> !Stops(stream[j])) && (i < |stream| ==> Stops(stream[i]))
    ensures FirstStop(stream) == i
    decreases |stream|
  {
    if i == 0 {
    } else {
      FirstStopIs(stream[1..], i - 1);
    }
  }

  /** The text that entry returns is what no later backspace cancels, whatever follows Ctrl+Z. */
  lemma EntryIsSurvivors(typed: seq<Byte>, rest: seq<Byte>)
    requires forall j :: 0 <= j < |typed| ==> !Stops(typed[j])
    ensures EnteredText(typed + [CTRL_Z] + rest) == Some(Survivors(KeysOf(typed), 0))
    ensures AfterEntry(typed + [CTRL_Z] + rest) == rest
    ensures EnteredText(typed + [ESC] + rest) == None && EnteredText(typed) == None
  {
    var done, aborted := typed + [CTRL_Z] + rest, typed + [ESC] + rest;
    FirstStopIs(done, |typed|);
    FirstStopIs(aborted, |typed|);
    FirstStopIs(typed, |typed|);
    assert done[..|typed|] == typed;
    EditingCancelsFromTheEnd(KeysOf(typed));
  }

  /**
   * Byte by byte: before Ctrl+Z (26) or ESC (27), Backspace (8) and Delete (127) take the last byte of the text
   * away, and every other byte is put at its end. Each Carriage Return (13) counts for one more prompt, even
   * when it is taken away later.
   */
  lemma EntryByBytes(typed: seq<Byte>, c: Byte, rest: seq<Byte>)
    requires c !in {26, 27} && forall j :: 0 <= j < |typed| ==> typed[j] !in {26, 27}
    ensures EnteredText([26] + rest) == Some([]) && EnteredText(typed + [26] + rest).Some?
    ensures var before := EnteredText(typed + [26] + rest).value;
            EnteredText(typed + [c] + [26] + rest) ==
            Some(if c !in {8, 127} then before + [c] else if before == [] then [] else before[..|before| - 1])
    ensures Returns([]) == 0 && Returns(typed + [c]) == Returns(typed) + if c == 13 then 1 else 0
  {
    hide *;
    NothingTyped();
    EntryTo([], rest);
    EntryTo(typed, rest);
    EntryTo(typed + [c], rest);
    assert [] + [26] + rest == [26] + rest;
    OneMoreByte(typed, c);
  }

  /** Entry up to Ctrl+Z is what the keys before it make. */
  lemma EntryTo(typed: seq<Byte>, rest: seq<Byte>)
    requires forall j :: 0 <= j < |typed| ==> typed[j] !in {26, 27}
    ensures EnteredText(typed + [26] + rest) == Some(Edited(KeysOf(typed)))
  {
    hide Edited, KeysOf;
    var stream := typed + [26] + rest;
    FirstStopIs(stream, |typed|);
    assert stream[..|typed|] == typed;
  }

  lemma OneMoreByte(typed: seq<Byte>, c: Byte)
    ensures var before := Edited(KeysOf(typed));
            Edited(KeysOf(typed + [c])) ==
            if c !in {8, 127} then before + [c] else if before == [] then [] else before[..|before| - 1]
    ensures Returns(typed + [c]) == Returns(typed) + if c == 13 then 1 else 0
  {
    hide Edited;
    EditedSnoc(KeysOf(typed), KeyOf(c));
    assert KeysOf(typed + [c]) == KeysOf(typed) + [KeyOf(c)];
    assert (typed + [c])[..|typed|] == typed;
  }

  // ------------------------------------------------------------------ the terminal

  datatype Out = Echo(bytes: seq<Byte>) | Prompt

  function Prompts(output: seq<Out>): nat {
    if output == [] then 0
    else Prompts(output[..|output| - 1]) + if output[|output| - 1] == Prompt then 1 else 0
  }

  function Echoed(output: seq<Out>): seq<Byte> {
    if output == [] then []
    else Echoed(output[..|output| - 1]) + match output[|output| - 1] case Echo(b) => b case Prompt => []
  }

  function Join(blocks: seq<seq<Byte>>): seq<Byte> {
    if blocks == [] then [] else blocks[0] + Join(blocks[1..])
  }

  lemma OutputSnoc(output: seq<Out>, out: Out)
    ensures Prompts(output + [out]) == Prompts(output) + if out == Prompt then 1 else 0
    ensures Echoed(output + [out]) == Echoed(output) + match out case Echo(b) => b case Prompt => []
  {
    assert (output + [out])[..|output|] == output;
  }

  class Terminal {
    var echo: bool
    var inSize: nat
    var inOffset: nat
    var inBuf: array<Byte>
    var output: seq<Out>
    /** The blocks that read will return; then the end of the input, or an error. */
    var blocks: seq<seq<Byte>>

    ghost predicate Valid()
      reads this, inBuf
    {
      && inBuf.Length == IN_BUF && inOffset <= inSize <= IN_BUF
      && forall i :: 0 <= i < |blocks| ==> 1 <= |blocks[i]| <= IN_BUF
    }

    /** All input still to come. */
    ghost function Stream(): seq<Byte>
      requires Valid()
      reads this, inBuf
    {
      inBuf[inOffset..inSize] + Join(blocks)
    }

    /** When echo is on, what has been echoed and what is still to be read make up a constant text. */
    ghost function EchoBalance(): seq<Byte>
      reads this
    {
      Echoed(output) + if echo then Join(blocks) else []
    }

    constructor (echo: bool, blocks: seq<seq<Byte>>)
      requires forall i :: 0 <= i < |blocks| ==> 1 <= |blocks[i]| <= IN_BUF
      ensures Valid() && fresh(inBuf) && Stream() == Join(blocks) && this.echo == echo && output == []
    {
      this.echo, this.blocks := echo, blocks;
      inSize, inOffset, output := 0, 0, [];
      inBuf := new Byte[IN_BUF];
    }

    /** read, and the echo of what it returns. */
    method Refill()
      requires Valid() && inOffset >= inSize && blocks != []
      modifies this`inSize, this`inOffset, this`output, this`blocks, inBuf
      ensures Valid() && Stream() == old(Stream()) && inOffset < inSize
      ensures Prompts(output) == Prompts(old(output)) && EchoBalance() == old(EchoBalance())
    {
      var block := blocks[0];
      ghost var rest := blocks[1..];
      forall i | 0 <= i < |block| {
        inBuf[i] := block[i];
      }
      assert inBuf[0..|block|] == block;
      inSize, inOffset, blocks := |block|, 0, blocks[1..];
      if echo {
        OutputSnoc(output, Echo(block));
        assert (Echoed(output) + block) + Join(rest) == Echoed(output) + (block + Join(rest));
        output := output + [Echo(block)];
      }
    }

    /** at_getchar: -1 at the end of the input. */
    method GetChar() returns (c: int)
      requires Valid()
      modifies this`inSize, this`inOffset, this`output, this`blocks, inBuf
      ensures Valid()
      ensures if old(Stream()) == [] then c == -1 && Stream() == []
              else c == old(Stream())[0] && Stream() == old(Stream())[1..]
      ensures Prompts(output) == Prompts(old(output)) && EchoBalance() == old(EchoBalance())
    {
      if inOffset >= inSize {
        if blocks == [] {
          return -1;
        }
        Refill();
      }
      ghost var before := inBuf[inOffset..inSize];
      c := inBuf[inOffset];
      inOffset := inOffset + 1;
      assert before == [inBuf[inOffset - 1]] + inBuf[inOffset..inSize];
      assert (before + Join(blocks))[1..] == before[1..] + Join(blocks);
    }

    /** Sends the prompt. */
    method SendPrompt()
      requires Valid()
      modifies this`output
      ensures Valid() && Stream() == old(Stream()) && Prompts(output) == Prompts(old(output)) + 1
      ensures EchoBalance() == old(EchoBalance())
    {
      OutputSnoc(output, Prompt);
      output := output + [Prompt];
    }
  }

  /** realloc to double the size; the text is kept. */
  method Grow(buf: array<Byte>, len: nat) returns (bigger: array<Byte>)
    requires len <= buf.Length
    ensures fresh(bigger) && bigger.Length == if buf.Length == 0 then 256 else 2 * buf.Length
    ensures len < bigger.Length && bigger[..len] == buf[..len]
  {
    bigger := new Byte[if buf.Length == 0 then 256 else 2 * buf.Length];
    forall i | 0 <= i < len {
      bigger[i] := buf[i];
    }
  }

  lemma KeysSnoc(bytes: seq<Byte>, k: nat)
    requires k < |bytes|
    ensures KeysOf(bytes[..k + 1]) == KeysOf(bytes[..k]) + [KeyOf(bytes[k])]
    ensures Edited(KeysOf(bytes[..k + 1])) == Strike(Edited(KeysOf(bytes[..k])), KeyOf(bytes[k]))
    ensures Returns(bytes[..k + 1]) == Returns(bytes[..k]) + if bytes[k] == CR then 1 else 0
  {
    EditedSnoc(KeysOf(bytes[..k]), KeyOf(bytes[k]));
    assert KeysOf(bytes[..k + 1]) == KeysOf(bytes[..k]) + [KeyOf(bytes[k])];
    assert bytes[..k + 1][..k] == bytes[..k];
  }

  lemma NothingTyped()
    ensures Edited(KeysOf([])) == [] && Returns([]) == 0
  {
  }

  lemma EntryStops(stream: seq<Byte>, k: nat)
    requires k <= |stream| && (forall j :: 0 <= j < k ==> !Stops(stream[j])) && (k < |stream| ==> Stops(stream[k]))
    ensures FirstStop(stream) == k && AfterEntry(stream) == if k < |stream| then stream[k + 1..] else []
    ensures EnteredText(stream) ==
              if k < |stream| && stream[k] == CTRL_Z then Some(Edited(KeysOf(stream[..k]))) else None
  {
    hide Edited, KeysOf;
    FirstStopIs(stream, k);
  }

  /** Stores or strikes one character of the text. */
  method Store(buf: array<Byte>, n: nat, c: Byte) returns (n': nat)
    requires n < buf.Length
    modifies buf
    ensures n' <= buf.Length && buf[..n'] == Strike(old(buf[..n]), KeyOf(c))
  {
    if c == 8 || c == 127 {
      return if n > 0 then n - 1 else n;
    }
    buf[n] := c;
    n' := n + 1;
  }

  /** at_read_text, with allocations succeeding: the NUL-terminated text, or null. */
  method ReadText(m: Terminal) returns (text: array?<Byte>, ghost len: nat)
    requires m.Valid()
    modifies m, m.inBuf
    ensures m.Valid()
    ensures (text != null) == EnteredText(old(m.Stream())).Some?
    ensures text != null ==> len < text.Length && text[len] == 0 && text[..len] == EnteredText(old(m.Stream())).value
    ensures m.Stream() == AfterEntry(old(m.Stream()))
    ensures Prompts(m.output) == Prompts(old(m.output)) + 1 + Returns(old(m.Stream())[..FirstStop(old(m.Stream()))])
    ensures m.inBuf == old(m.inBuf) && m.echo == old(m.echo) && m.EchoBalance() == old(m.EchoBalance())
  {
    hide Edited, KeysOf, Returns, Prompts, Echoed, Join, Terminal.EchoBalance;
    hide FirstStop, EnteredText, AfterEntry, Strike, Stops;
    ghost var stream := m.Stream();
    NothingTyped();
    assert stream[..0] == [] && stream[0..] == stream;
    var buf := new Byte[0];
    len := 0;
    var n: nat := 0;
    m.SendPrompt();
    ghost var k: nat := 0;
    while true
      invariant m.Valid() && m.inBuf == old(m.inBuf) && m.echo == old(m.echo) && fresh(buf)
      invariant m.EchoBalance() == old(m.EchoBalance())
      invariant k <= |stream| && m.Stream() == stream[k..]
      invariant forall j :: 0 <= j < k ==> !Stops(stream[j])
      invariant n <= buf.Length && buf[..n] == Edited(KeysOf(stream[..k]))
      invariant Prompts(m.output) == Prompts(old(m.output)) + 1 + Returns(stream[..k])
      decreases |stream| - k
    {
      var c := m.GetChar();
      StopCharacters();
      if c == -1 || c == 27 {
        EntryStops(stream, k);
        return null, 0;
      }
      if n >= buf.Length {
        buf := Grow(buf, n);
      }
      if c == 26 {
        EntryStops(stream, k);
        buf[n] := 0;
        return buf, n;
      }
      KeysSnoc(stream, k);
      n := Store(buf, n, c);
      k := k + 1;
      if c == 13 {
        m.SendPrompt();
      }
    }
  }

  lemma StopCharacters()
    ensures forall c :: Stops(c) <==> c == CTRL_Z || c == ESC
  {
  }
}

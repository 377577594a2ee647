/**
 * Hexadecimal text in both directions (character sets), and the in-place decoding of SMS PDUs.
 */
module Hex {
  import opened Ctype

  /** The value of a hexadecimal digit. */
  function DigitValue(c: Byte): Option<nat> {
    if 48 <= c <= 57 then Some(c - 48)
    else if 65 <= c <= 70 then Some(c - 55)
    else if 97 <= c <= 102 then Some(c - 87)
    else None
  }

  predicate IsHex(c: Byte) {
    DigitValue(c).Some?
  }

  function U32(x: int): nat {
    x % 0x1_0000_0000
  }

  /** hexdigit of charset.c and sms.c: unsigned differences wrap around, so one comparison checks both bounds. */
  function HexDigit(c: Byte): int {
    if U32(c - 48) < 10 then c - 48
    else if U32(c - 65) < 6 then c - 65 + 10
    else if U32(c - 97) < 6 then c - 97 + 10
    else -1
  }

  lemma HexDigitReadsDigits(c: Byte)
    ensures HexDigit(c) == match DigitValue(c) case Some(v) => v case None => -1
    ensures DigitValue(c).Some? ==> DigitValue(c).value < 16
  {
  }

  /** The byte of a pair of digits. */
  function PairValue(hi: Byte, lo: Byte): (b: Byte)
    requires IsHex(hi) && IsHex(lo)
  {
    HexDigitReadsDigits(hi);
    HexDigitReadsDigits(lo);
    DigitValue(hi).value * 16 + DigitValue(lo).value
  }

  function DigitChar(v: nat): Byte
    requires v < 16
  {
    if v < 10 then 48 + v else 55 + v
  }

  /** toupper() */
  function UpperByte(c: Byte): Byte {
    if 97 <= c <= 122 then c - 32 else c
  }

  function UpperAll(s: seq<Byte>): seq<Byte> {
    seq(|s|, i requires 0 <= i < |s| => UpperByte(s[i]))
  }

  // ------------------------------------------------------------------ text of bytes

  /** Whole pairs are decoded; a last odd character is not looked at. */
  function Decode(s: seq<Byte>): Option<seq<Byte>> {
    if |s| < 2 then Some([])
    else if !IsHex(s[0]) || !IsHex(s[1]) then None
    else
      match Decode(s[2..])
      case None => None
      case Some(bytes) => Some([PairValue(s[0], s[1])] + bytes)
  }

  function Encode(bytes: seq<Byte>): (s: seq<Byte>)
    ensures |s| == 2 * |bytes|
  {
    if bytes == [] then []
    else [DigitChar(bytes[0] / 16), DigitChar(bytes[0] % 16)] + Encode(bytes[1..])
  }

  lemma DigitCharReadsBack(v: nat)
    requires v < 16
    ensures DigitValue(DigitChar(v)) == Some(v)
  {
  }

  lemma DigitCharIsUpper(c: Byte)
    requires IsHex(c)
    ensures DigitValue(c).value < 16 && DigitChar(DigitValue(c).value) == UpperByte(c)
  {
  }

  /** Decoding an encoding gives every byte array back. */
  lemma {:induction false} DecodeOfEncode(bytes: seq<Byte>)
    ensures Decode(Encode(bytes)) == Some(bytes)
    decreases |bytes|
  {
    if bytes == [] {
    } else {
      var s := Encode(bytes);
      DigitCharReadsBack(bytes[0] / 16);
      DigitCharReadsBack(bytes[0] % 16);
      assert s[2..] == Encode(bytes[1..]);
      DecodeOfEncode(bytes[1..]);
      assert bytes == [bytes[0]] + bytes[1..];
    }
  }

  /** Each byte is written by the digits of its quotient and its remainder, in this order. */
  lemma {:induction false} EncodeWritesDigits(bytes: seq<Byte>)
    ensures forall i :: 0 <= i < |bytes| ==>
              && Encode(bytes)[2 * i] == "0123456789ABCDEF"[bytes[i] / 16] as int
              && Encode(bytes)[2 * i + 1] == "0123456789ABCDEF"[bytes[i] % 16] as int
    decreases |bytes|
  {
    if bytes == [] {
    } else {
      var rest := bytes[1..];
      DigitCharIs(bytes[0] / 16);
      DigitCharIs(bytes[0] % 16);
      EncodeWritesDigits(rest);
      forall i | 1 <= i < |bytes|
        ensures Encode(bytes)[2 * i] == "0123456789ABCDEF"[bytes[i] / 16] as int
                && Encode(bytes)[2 * i + 1] == "0123456789ABCDEF"[bytes[i] % 16] as int
      {
        assert rest[i - 1] == bytes[i];
        assert Encode(bytes)[2 * i] == Encode(rest)[2 * (i - 1)];
        assert Encode(bytes)[2 * i + 1] == Encode(rest)[2 * (i - 1) + 1];
      }
    }
  }

  lemma DigitCharIs(v: nat)
    requires v < 16
    ensures DigitChar(v) == "0123456789ABCDEF"[v] as int
  {
  }

  /** A lower-case letter, and no other byte, becomes the upper-case one; the digits from a to f have the same value. */
  lemma UpperByteIs(c: Byte)
    ensures UpperByte(c) == if 'a' as int <= c <= 'z' as int then c - 32 else c
    ensures DigitValue(UpperByte(c)) == DigitValue(c)
  {
  }

  lemma UpperPair(a: Byte, b: Byte)
    ensures UpperAll([a, b]) == [UpperByte(a), UpperByte(b)]
  {
  }

  lemma UpperConcat(a: seq<Byte>, b: seq<Byte>)
    ensures UpperAll(a + b) == UpperAll(a) + UpperAll(b)
  {
    hide UpperByte;
  }

  /** Encoding what a text decodes to gives its whole pairs back in upper case. */
  lemma {:induction false} EncodeOfDecode(s: seq<Byte>)
    requires Decode(s).Some?
    ensures Encode(Decode(s).value) == UpperAll(s[..|s| / 2 * 2])
    decreases |s|
  {
    if |s| >= 2 {
      hide PairValue, IsHex, Encode, UpperAll, UpperByte;
      var rest := Decode(s[2..]).value;
      EncodeOfDecode(s[2..]);
      EncodePair(s[0], s[1], rest);
      var tail := s[2..][..|s[2..]| / 2 * 2];
      assert s[..|s| / 2 * 2] == [s[0], s[1]] + tail;
      UpperConcat([s[0], s[1]], tail);
      UpperPair(s[0], s[1]);
    } else {
      assert s[..|s| / 2 * 2] == [];
    }
  }

  lemma EncodePair(hi: Byte, lo: Byte, rest: seq<Byte>)
    requires IsHex(hi) && IsHex(lo)
    ensures Encode([PairValue(hi, lo)] + rest) == [UpperByte(hi), UpperByte(lo)] + Encode(rest)
  {
    DigitCharIsUpper(hi);
    DigitCharIsUpper(lo);
    assert ([PairValue(hi, lo)] + rest)[1..] == rest;
  }

  /** Decoding succeeds exactly when all characters of whole pairs are digits. */
  lemma {:induction false} DecodeSucceedsIff(s: seq<Byte>)
    ensures Decode(s).Some? <==> forall i :: 0 <= i < |s| / 2 * 2 ==> IsHex(s[i])
    decreases |s|
  {
    hide PairValue, IsHex;
    if |s| >= 2 {
      DecodeSucceedsIff(s[2..]);
      assert forall i :: 0 <= i < |s[2..]| ==> s[2..][i] == s[i + 2];
      if Decode(s).Some? {
        forall i | 0 <= i < |s| / 2 * 2 ensures IsHex(s[i]) {
          if i >= 2 {
            assert s[2..][i - 2] == s[i];
          }
        }
      }
    }
  }

  lemma DecodeTail(s: seq<Byte>, i: nat)
    requires 2 * i + 1 < |s|
    ensures Decode(s[2 * i..]) ==
              if !IsHex(s[2 * i]) || !IsHex(s[2 * i + 1]) then None
              else match Decode(s[2 * i + 2..])
                   case None => None
                   case Some(bytes) => Some([PairValue(s[2 * i], s[2 * i + 1])] + bytes)
  {
    assert s[2 * i..][2..] == s[2 * i + 2..];
  }

  /** What is decoded so far, followed by what the rest decodes to. */
  function Joined(done: seq<Byte>, rest: Option<seq<Byte>>): Option<seq<Byte>> {
    match rest
    case None => None
    case Some(bytes) => Some(done + bytes)
  }

  /** at_hex_decode: a NUL-terminated array of the decoded bytes, or null. */
  method HexDecode(s: seq<Byte>) returns (out: array?<Byte>, len: nat)
    ensures (out != null) == Decode(s).Some?
    ensures out != null ==> len + 1 == out.Length && out[len] == 0 && out[..len] == Decode(s).value
  {
    hide Decode, PairValue, HexDigit, DigitValue;
    len := |s| / 2;
    var buf := new Byte[len + 1];
    assert s[0..] == s && buf[..0] == [];
    assert Decode(s).Some? ==> [] + Decode(s).value == Decode(s).value;
    for i := 0 to len
      invariant Decode(s) == Joined(buf[..i], Decode(s[2 * i..]))
    {
      DecodeTail(s, i);
      HexDigitReadsDigits(s[2 * i]);
      HexDigitReadsDigits(s[2 * i + 1]);
      var hi, lo := HexDigit(s[2 * i]), HexDigit(s[2 * i + 1]);
      if hi < 0 || lo < 0 {
        return null, 0;
      }
      PairIs(s[2 * i], s[2 * i + 1]);
      ghost var done, rest := buf[..i], Decode(s[2 * i + 2..]);
      buf[i] := hi * 16 + lo;
      assert buf[..i + 1] == done + [buf[i]];
      assert rest.Some? ==> done + ([buf[i]] + rest.value) == (done + [buf[i]]) + rest.value;
    }
    DecodeNothing(s[2 * len..]);
    buf[len] := 0;
    out := buf;
  }

  lemma PairIs(hi: Byte, lo: Byte)
    requires IsHex(hi) && IsHex(lo)
    ensures HexDigit(hi) * 16 + HexDigit(lo) == PairValue(hi, lo)
  {
  }

  lemma DecodeNothing(s: seq<Byte>)
    requires |s| < 2
    ensures Decode(s) == Some([])
  {
  }

  /** at_hex_encode: a NUL-terminated array of digits. */
  method HexEncode(bytes: seq<Byte>) returns (out: array<Byte>)
    ensures out.Length == 2 * |bytes| + 1 && out[2 * |bytes|] == 0 && out[..2 * |bytes|] == Encode(bytes)
  {
    out := new Byte[2 * |bytes| + 1];
    assert bytes[..0] == [] && Encode([]) == [];
    for i := 0 to |bytes|
      invariant out[..2 * i] == Encode(bytes[..i])
    {
      EncodeSnoc(bytes, i);
      out[2 * i] := DigitChar(bytes[i] / 16);
      out[2 * i + 1] := DigitChar(bytes[i] % 16);
      assert out[..2 * (i + 1)] == out[..2 * i] + [out[2 * i], out[2 * i + 1]];
    }
    assert bytes[..|bytes|] == bytes;
    out[2 * |bytes|] := 0;
  }

  lemma {:induction false} EncodeSnoc(bytes: seq<Byte>, i: nat)
    requires i < |bytes|
    ensures Encode(bytes[..i + 1]) == Encode(bytes[..i]) + [DigitChar(bytes[i] / 16), DigitChar(bytes[i] % 16)]
    decreases i
  {
    if i == 0 {
      assert bytes[..1][1..] == [] && Encode([]) == [];
    } else {
      EncodeSnoc(bytes[1..], i - 1);
      assert bytes[..i + 1][1..] == bytes[1..][..i] && bytes[..i][1..] == bytes[1..][..i - 1];
    }
  }

  // ------------------------------------------------------------------ character sets

  type Converter = seq<Byte> -> Option<seq<Byte>>

  predicate NulFreeBytes(s: seq<Byte>) {
    forall i :: 0 <= i < |s| ==> s[i] != 0
  }

  /** at_cset_decode: iconv into a buffer of three bytes for each byte of input. */
  function CsetDecode(decode: Converter, s: seq<Byte>): Option<seq<Byte>> {
    match decode(s)
    case None => None
    case Some(out) => if |out| > 3 * |s| then None else Some(out)
  }

  /** at_cset_encode: the terminating NUL is converted too, into a buffer of twice the size. */
  function CsetEncode(encode: Converter, s: seq<Byte>): Option<seq<Byte>> {
    match encode(s + [0])
    case None => None
    case Some(out) => if |out| > 2 * (|s| + 1) then None else Some(out)
  }

  /** at_to_utf8 for a character set in hexadecimal. */
  function ToUtf8(decode: Converter, s: seq<Byte>): Option<seq<Byte>> {
    match Decode(s)
    case None => None
    case Some(raw) => CsetDecode(decode, raw)
  }

  /** at_from_utf8 for a character set in hexadecimal, whose NUL takes two bytes. */
  function FromUtf8(encode: Converter, s: seq<Byte>): Option<seq<Byte>> {
    match CsetEncode(encode, s)
    case None => None
    case Some(out) => if |out| < 2 then None else Some(Encode(out[..|out| - 2]))
  }

  /**
   * What UCS2 needs of iconv: encoding and decoding are inverse and within the buffers, and a final NUL
   * is encoded separately, as two zero bytes.
   */
  ghost predicate Ucs2Converters(encode: Converter, decode: Converter) {
    forall s :: NulFreeBytes(s) ==>
      match encode(s)
      case None => encode(s + [0]).None?
      case Some(out) =>
        encode(s + [0]) == Some(out + [0, 0]) && decode(out) == Some(s) && |out| <= 2 * |s| && |s| <= 3 * |out|
  }

  /** UCS2 text that the modem writes reads back as the text it was made from. */
  lemma Ucs2RoundTrip(encode: Converter, decode: Converter, s: seq<Byte>)
    requires Ucs2Converters(encode, decode) && NulFreeBytes(s)
    ensures match encode(s)
            case None => FromUtf8(encode, s).None?
            case Some(out) => FromUtf8(encode, s) == Some(Encode(out))
    ensures FromUtf8(encode, s).Some? ==> ToUtf8(decode, FromUtf8(encode, s).value) == Some(s)
  {
    match encode(s) {
      case None =>
      case Some(out) =>
        assert (out + [0, 0])[..|out|] == out;
        DecodeOfEncode(out);
    }
  }

  // ------------------------------------------------------------------ PDUs

  /** The bytes of the pairs before the first character that is no digit; broken when that one ends a pair. */
  datatype Unpacked = Unpacked(bytes: seq<Byte>, broken: bool)

  function Unpack(s: seq<Byte>): (u: Unpacked)
    ensures 2 * |u.bytes| <= |s|
  {
    if s == [] || !IsHex(s[0]) then Unpacked([], false)
    else if |s| == 1 || !IsHex(s[1]) then Unpacked([], true)
    else
      var rest := Unpack(s[2..]);
      Unpacked([PairValue(s[0], s[1])] + rest.bytes, rest.broken)
  }

  /** Unpacking goes on for as long as there are pairs of digits; it is broken by a digit without a second one. */
  lemma {:induction false} UnpackStopsAt(s: seq<Byte>)
    ensures var u, k := Unpack(s), 2 * |Unpack(s).bytes|;
            && (forall i :: 0 <= i < k ==> IsHex(s[i]))
            && (forall i :: 0 <= i < |u.bytes| ==> IsHex(s[2 * i]) && IsHex(s[2 * i + 1])
                                                   && u.bytes[i] == PairValue(s[2 * i], s[2 * i + 1]))
            && (k + 1 < |s| ==> !IsHex(s[k]) || !IsHex(s[k + 1]))
            && (u.broken <==> k < |s| && IsHex(s[k]))
    decreases |s|
  {
    hide IsHex, PairValue;
    if s == [] || !IsHex(s[0]) || |s| == 1 || !IsHex(s[1]) {
    } else {
      var u, rest := Unpack(s), Unpack(s[2..]);
      UnpackStopsAt(s[2..]);
      assert forall i :: 0 <= i < |s[2..]| ==> s[2..][i] == s[i + 2];
      forall i | 0 <= i < 2 * |u.bytes| ensures IsHex(s[i]) {
        if i >= 2 {
          assert IsHex(s[2..][i - 2]);
        }
      }
      forall i | 0 <= i < |u.bytes|
        ensures IsHex(s[2 * i]) && IsHex(s[2 * i + 1]) && u.bytes[i] == PairValue(s[2 * i], s[2 * i + 1])
      {
        if i >= 1 {
          assert u.bytes[i] == rest.bytes[i - 1];
          assert s[2..][2 * (i - 1)] == s[2 * i] && s[2..][2 * (i - 1) + 1] == s[2 * i + 1];
        }
      }
    }
  }

  /** A char is signed or not, as the platform has it. */
  function CharValue(b: Byte, signedChar: bool): int {
    if signedChar && b >= 128 then b - 256 else b
  }

  /** The length check of send_pdu, in unsigned 32-bit arithmetic. */
  predicate LengthFits(bytes: seq<Byte>, len: nat, signedChar: bool) {
    |bytes| >= 1 && |bytes| == U32(1 + CharValue(bytes[0], signedChar) + len)
  }

  /** Section 4.3 of 3GPP TS 27.005: the declared length leaves out the service centre address and its length octet. */
  predicate LengthDeclared(bytes: seq<Byte>, len: nat) {
    |bytes| >= 1 && |bytes| == 1 + bytes[0] + len
  }

  predicate CheckIsStandard(bytes: seq<Byte>, signedChar: bool) {
    forall len :: 0 <= len < 0x1_0000 ==> (LengthFits(bytes, len, signedChar) <==> LengthDeclared(bytes, len))
  }

  /**
   * The check is the standard's exactly when char is unsigned or the first octet fits a signed one;
   * otherwise a PDU of the declared length is refused. (Beyond 64 KiB no length can be declared.)
   */
  lemma LengthCheckIsStandardIff(bytes: seq<Byte>, signedChar: bool)
    requires |bytes| < 0x1_0000_0000
    ensures !signedChar || bytes == [] || bytes[0] < 128 ==> CheckIsStandard(bytes, signedChar)
    ensures |bytes| <= 0x1_0000 ==>
              (CheckIsStandard(bytes, signedChar) <==> !signedChar || bytes == [] || bytes[0] < 128)
    ensures signedChar && bytes != [] && bytes[0] >= 128 ==>
              forall len :: 0 <= len < 0x1_0000 && LengthDeclared(bytes, len) ==> !LengthFits(bytes, len, signedChar)
  {
    if signedChar && bytes != [] && bytes[0] >= 128 && |bytes| <= 0x1_0000 {
      var declared := |bytes| - 1 - bytes[0];
      var len := if declared >= 0 then declared else declared + 256;
      assert LengthFits(bytes, len, signedChar) <==> !LengthDeclared(bytes, len);
    }
  }

  lemma UnpackTail(s: seq<Byte>, i: nat)
    requires i < |s|
    ensures Unpack(s[i..]) ==
              if !IsHex(s[i]) then Unpacked([], false)
              else if i + 1 == |s| || !IsHex(s[i + 1]) then Unpacked([], true)
              else var rest := Unpack(s[i + 2..]); Unpacked([PairValue(s[i], s[i + 1])] + rest.bytes, rest.broken)
  {
    if i + 1 < |s| {
      assert s[i..][2..] == s[i + 2..];
    }
  }

  /**
   * The loop of send_pdu: the PDU is decoded over its own text. After k pairs k bytes are written, 2 k
   * characters are read, and nothing from the write position on has changed, so no unread character is lost.
   */
  method DecodeInPlace(pdu: array<Byte>, ghost n: nat) returns (bytes: nat, broken: bool)
    requires n < pdu.Length && pdu[n] == 0 && NulFreeBytes(pdu[..n])
    modifies pdu
    ensures 2 * bytes <= n && forall i :: bytes <= i < pdu.Length ==> pdu[i] == old(pdu[i])
    ensures pdu[..bytes] == Unpack(old(pdu[..n])).bytes && broken == Unpack(old(pdu[..n])).broken
  {
    hide Unpack, PairValue, HexDigit, DigitValue;
    ghost var text := pdu[..n];
    ghost var done: seq<Byte> := [];
    var input, out := 0, 0;
    bytes, broken := 0, false;
    assert text[0..] == text && [] + Unpack(text).bytes == Unpack(text).bytes;
    while pdu[input] != 0
      invariant input == 2 * bytes <= n && out == bytes == |done|
      invariant forall i :: bytes <= i < pdu.Length ==> pdu[i] == old(pdu[i])
      invariant pdu[..bytes] == done
      invariant Unpack(text).bytes == done + Unpack(text[input..]).bytes
      invariant Unpack(text).broken == Unpack(text[input..]).broken
      decreases n - input
    {
      assert input < n && text[input] == pdu[input];
      assert input + 1 < n ==> text[input + 1] == pdu[input + 1];
      UnpackTail(text, input);
      HexDigitReadsDigits(pdu[input]);
      HexDigitReadsDigits(pdu[input + 1]);
      NulIsNoDigit();
      var hinib := HexDigit(pdu[input]);
      if hinib < 0 {
        return;
      }
      var lonib := HexDigit(pdu[input + 1]);
      if lonib < 0 {
        return bytes, true;
      }
      PairIs(pdu[input], pdu[input + 1]);
      ghost var rest := Unpack(text[input + 2..]).bytes;
      var b := hinib * 16 + lonib;
      assert done + ([b] + rest) == (done + [b]) + rest;
      pdu[out] := b;
      done := done + [b];
      input, out, bytes := input + 2, out + 1, bytes + 1;
    }
    UnpackNothing();
    assert text[input..] == [];
  }

  lemma NulIsNoDigit()
    ensures !IsHex(0)
  {
  }

  lemma UnpackNothing()
    ensures Unpack([]) == Unpacked([], false)
  {
  }

  /** The acceptance of a PDU text by send_pdu, before it is sent. */
  method AcceptPdu(pdu: array<Byte>, len: nat, signedChar: bool, ghost n: nat) returns (ok: bool, bytes: nat)
    requires n < pdu.Length && pdu[n] == 0 && NulFreeBytes(pdu[..n])
    modifies pdu
    ensures bytes <= n
    ensures var u := Unpack(old(pdu[..n]));
            pdu[..bytes] == u.bytes && ok == (!u.broken && LengthFits(u.bytes, len, signedChar))
  {
    var broken;
    bytes, broken := DecodeInPlace(pdu, n);
    ghost var u := Unpack(old(pdu[..n]));
    assert bytes >= 1 ==> u.bytes[0] == pdu[0];
    ok := !broken && bytes >= 1 && bytes == U32(1 + CharValue(pdu[0], signedChar) + len);
  }

  /** The text that encodes any bytes unpacks to them, unbroken. */
  lemma {:induction false} EncodingUnpacks(bytes: seq<Byte>)
    ensures Unpack(Encode(bytes)) == Unpacked(bytes, false)
    decreases |bytes|
  {
    if bytes == [] {
    } else {
      var s := Encode(bytes);
      DigitCharReadsBack(bytes[0] / 16);
      DigitCharReadsBack(bytes[0] % 16);
      assert s[2..] == Encode(bytes[1..]);
      EncodingUnpacks(bytes[1..]);
      assert bytes == [bytes[0]] + bytes[1..];
    }
  }
}

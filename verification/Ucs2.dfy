/**
 * Decoding of hexadecimal UCS-2 text (USSD) to UTF-8, with the digit test and the digit positions that the
 * program really uses.
 */
module Ucs2 {
  import opened Ctype
  import Hex

  // ------------------------------------------------------------------ digits

  /** hexdigit in signed arithmetic: the comparisons have no lower bound, a negative result is an error. */
  function HexDigit(c: Byte): int {
    if c - 48 < 10 then c - 48
    else if c - 65 < 6 then c - 55
    else if c - 97 < 6 then c - 87
    else -1
  }

  function Accepted(c: Byte): Option<nat> {
    if HexDigit(c) < 0 then None else Some(HexDigit(c))
  }

  /** The test reads digits right; what it gets wrong is exactly ":;<=>?@" and "WXYZ[\]^_" with the back quote. */
  lemma HexDigitIsRightIff(c: Byte)
    ensures Accepted(c) == Hex.DigitValue(c) <==> !(58 <= c <= 64) && !(87 <= c <= 96)
    ensures Accepted(c).Some? ==> Accepted(c).value < 16
  {
  }

  // ------------------------------------------------------------------ code points

  /** The code point the loop builds at the front of s: the third digit is read twice. */
  function CodePointAt(s: seq<Byte>): Option<nat>
    requires |s| >= 4
  {
    var a, b, c := Accepted(s[0]), Accepted(s[1]), Accepted(s[2]);
    if a.None? || b.None? || c.None? then None
    else Some(a.value * 4096 + b.value * 256 + c.value * 16 + c.value)
  }

  /** The code points of a string, if every group is complete and its first three characters are accepted. */
  function Assembled(s: seq<Byte>): Option<seq<nat>> {
    if s == [] then Some([])
    else if |s| < 4 then None
    else
      match CodePointAt(s)
      case None => None
      case Some(cp) =>
        match Assembled(s[4..])
        case None => None
        case Some(cps) => Some([cp] + cps)
  }

  predicate IsSurrogate(cp: nat) {
    0xD800 <= cp < 0xE000
  }

  predicate Encodable(cps: seq<nat>) {
    forall i :: 0 <= i < |cps| ==> cps[i] != 0 && !IsSurrogate(cps[i]) && cps[i] < 0x10000
  }

  /** One to three bytes; the bits are put together by addition since they do not overlap. */
  function Utf8One(cp: nat): (bytes: seq<Byte>)
    requires cp < 0x10000
    ensures 1 <= |bytes| <= 3
  {
    if cp < 0x80 then [cp]
    else if cp < 0x800 then [0xC0 + cp / 64, 0x80 + cp % 64]
    else [0xE0 + cp / 4096, 0x80 + cp / 64 % 64, 0x80 + cp % 64]
  }

  function Utf8(cps: seq<nat>): (bytes: seq<Byte>)
    requires Encodable(cps)
    ensures |bytes| <= 3 * |cps|
  {
    if cps == [] then [] else Utf8One(cps[0]) + Utf8(cps[1..])
  }

  // ------------------------------------------------------------------ well-formed UTF-8

  predicate IsTail(b: Byte) {
    0x80 <= b <= 0xBF
  }

  /** The bits of a byte below its prefix. */
  function Bits(b: Byte, prefix: nat): (n: nat)
    requires prefix <= b
  {
    b - prefix
  }

  /** The character at the front of a byte sequence and its length, by section 4 of RFC 3629. */
  function CharacterAt(s: seq<Byte>): Option<(nat, nat)> {
    if s == [] then None
    else if s[0] < 0x80 then Some((s[0], 1))
    else if 0xC2 <= s[0] <= 0xDF && |s| >= 2 && IsTail(s[1]) then
      Some((Bits(s[0], 0xC0) * 64 + Bits(s[1], 0x80), 2))
    else if 0xE0 <= s[0] <= 0xEF && |s| >= 3 && IsTail(s[1]) && IsTail(s[2])
            && (s[0] == 0xE0 ==> s[1] >= 0xA0) && (s[0] == 0xED ==> s[1] < 0xA0) then
      Some((Bits(s[0], 0xE0) * 4096 + Bits(s[1], 0x80) * 64 + Bits(s[2], 0x80), 3))
    else if 0xF0 <= s[0] <= 0xF4 && |s| >= 4 && IsTail(s[1]) && IsTail(s[2]) && IsTail(s[3])
            && (s[0] == 0xF0 ==> s[1] >= 0x90) && (s[0] == 0xF4 ==> s[1] < 0x90) then
      Some((Bits(s[0], 0xF0) * 262144 + Bits(s[1], 0x80) * 4096 + Bits(s[2], 0x80) * 64 + Bits(s[3], 0x80), 4))
    else None
  }

  /** The characters of a byte sequence, if it is well-formed UTF-8. */
  function DecodeUtf8(s: seq<Byte>): Option<seq<nat>>
    decreases |s|
  {
    if s == [] then Some([])
    else
      match CharacterAt(s)
      case None => None
      case Some((cp, n)) =>
        if n == 0 || n > |s| then None
        else
          match DecodeUtf8(s[n..])
          case None => None
          case Some(cps) => Some([cp] + cps)
  }

  lemma ThreeBytes(cp: nat)
    requires 0x800 <= cp < 0x10000 && !IsSurrogate(cp)
    ensures cp == cp / 4096 * 4096 + cp / 64 % 64 * 64 + cp % 64 && cp / 4096 < 16
    ensures (cp / 4096 == 0 ==> cp / 64 % 64 >= 0x20) && (cp / 4096 == 0xD ==> cp / 64 % 64 < 0x20)
  {
    var high := cp / 64;
    assert cp == high * 64 + cp % 64 && high == high / 64 * 64 + high % 64 && high / 64 == cp / 4096;
  }

  lemma CharacterReadsBack(cp: nat, rest: seq<Byte>)
    requires cp < 0x10000 && !IsSurrogate(cp)
    ensures CharacterAt(Utf8One(cp) + rest) == Some((cp, |Utf8One(cp)|))
  {
    var s := Utf8One(cp) + rest;
    if cp < 0x80 {
      assert s[0] == cp;
    } else if cp < 0x800 {
      assert s[0] == 0xC0 + cp / 64 && s[1] == 0x80 + cp % 64;
    } else {
      ThreeBytes(cp);
      var a, b, c := cp / 4096, cp / 64 % 64, cp % 64;
      assert s[0] == 0xE0 + a && s[1] == 0x80 + b && s[2] == 0x80 + c;
    }
  }

  /** The encoded text is well-formed UTF-8 and decodes back to the code points. */
  lemma {:induction false} Utf8DecodesBack(cps: seq<nat>)
    requires Encodable(cps)
    ensures DecodeUtf8(Utf8(cps)) == Some(cps)
    decreases |cps|
  {
    if cps == [] {
    } else {
      hide CharacterAt, Utf8One;
      var first, rest := Utf8One(cps[0]), Utf8(cps[1..]);
      CharacterReadsBack(cps[0], rest);
      Utf8DecodesBack(cps[1..]);
      assert (first + rest)[|first|..] == rest;
      assert cps == [cps[0]] + cps[1..];
    }
  }

  // ------------------------------------------------------------------ the decoder

  /** What sms16_decode returns: it fails exactly when assembling fails or meets a zero or a surrogate. */
  function Decoded(s: seq<Byte>): Option<seq<Byte>> {
    match Assembled(s)
    case None => None
    case Some(cps) => if Encodable(cps) then Some(Utf8(cps)) else None
  }

  /** On hexadecimal digits in groups of four: exactly when it fails, how long and what the result is. */
  lemma DecodingOfDigits(s: seq<Byte>)
    requires |s| % 4 == 0 && forall i :: 0 <= i < |s| ==> Hex.DigitValue(s[i]).Some?
    ensures Assembled(s).Some? && |Assembled(s).value| == |s| / 4
    ensures Decoded(s).None? <==>
            exists i :: 0 <= i < |s| / 4 && (Assembled(s).value[i] == 0 || IsSurrogate(Assembled(s).value[i]))
    ensures Decoded(s).Some? ==>
              |Decoded(s).value| <= 3 * (|s| / 4) && DecodeUtf8(Decoded(s).value) == Assembled(s)
  {
    AssemblesDigits(s);
    var cps := Assembled(s).value;
    if Encodable(cps) {
      Utf8DecodesBack(cps);
    }
  }

  lemma {:induction false} AssemblesDigits(s: seq<Byte>)
    requires |s| % 4 == 0 && forall i :: 0 <= i < |s| ==> Hex.DigitValue(s[i]).Some?
    ensures Assembled(s).Some? && |Assembled(s).value| == |s| / 4
    ensures forall i :: 0 <= i < |s| / 4 ==> Assembled(s).value[i] < 0x10000
    decreases |s|
  {
    if s == [] {
    } else {
      AssemblesDigits(s[4..]);
      forall i | 0 <= i < 4 ensures Accepted(s[i]).Some? && Accepted(s[i]).value < 16 {
        assert Hex.DigitValue(s[i]).Some?;
        HexDigitIsRightIff(s[i]);
      }
    }
  }

  /** The last digit of every group has no effect at all. */
  lemma {:induction false} LastDigitIsIgnored(s: seq<Byte>, t: seq<Byte>)
    requires |s| == |t| && forall i :: 0 <= i < |s| && i % 4 != 3 ==> s[i] == t[i]
    ensures Assembled(s) == Assembled(t) && Decoded(s) == Decoded(t)
    decreases |s|
  {
    if |s| < 4 {
    } else {
      LastDigitIsIgnored(s[4..], t[4..]);
      assert CodePointAt(s) == CodePointAt(t);
    }
  }

  // ------------------------------------------------------------------ when the result is right

  predicate AllHex(s: seq<Byte>) {
    forall i :: 0 <= i < |s| ==> Hex.DigitValue(s[i]).Some?
  }

  /** The code point that four digits mean. */
  function MeantAt(s: seq<Byte>): (cp: nat)
    requires |s| >= 4 && AllHex(s)
  {
    Hex.DigitValue(s[0]).value * 4096 + Hex.DigitValue(s[1]).value * 256
    + Hex.DigitValue(s[2]).value * 16 + Hex.DigitValue(s[3]).value
  }

  /** The code points that a string of groups means. */
  function Meant(s: seq<Byte>): seq<nat>
    requires |s| % 4 == 0 && AllHex(s)
  {
    if s == [] then [] else [MeantAt(s)] + Meant(s[4..])
  }

  /** What a decoder should return: their UTF-8 text, or nothing when one of them cannot be encoded. */
  function Wanted(s: seq<Byte>): Option<seq<Byte>>
    requires |s| % 4 == 0 && AllHex(s)
  {
    if Encodable(Meant(s)) then Some(Utf8(Meant(s))) else None
  }

  /** The last two digits of every group are equal. */
  predicate Twins(s: seq<Byte>)
    requires |s| % 4 == 0
  {
    s == [] || (Hex.DigitValue(s[2]) == Hex.DigitValue(s[3]) && Twins(s[4..]))
  }

  /** Numbers that differ in the last hexadecimal digit, one of them repeating the digit before it. */
  lemma LastDigitIsSmall(high: nat, c: nat, d: nat)
    requires high < 0x1000 && high % 16 == c && d < 16
    ensures var cp, meant := high * 16 + c, high * 16 + d;
            && cp < 0x10000 && meant < 0x10000 && (meant == 0 ==> cp == 0)
            && (IsSurrogate(cp) <==> IsSurrogate(meant)) && (cp == meant <==> c == d)
  {
  }

  /** The code point of a group differs from the meant one in the last digit, if at all. */
  lemma GroupIsClose(s: seq<Byte>)
    requires |s| >= 4 && AllHex(s)
    ensures CodePointAt(s).Some?
    ensures var cp := CodePointAt(s).value;
            && cp < 0x10000 && MeantAt(s) < 0x10000 && (MeantAt(s) == 0 ==> cp == 0)
            && (IsSurrogate(cp) <==> IsSurrogate(MeantAt(s)))
            && (cp == MeantAt(s) <==> Hex.DigitValue(s[2]) == Hex.DigitValue(s[3]))
  {
    var a, b, c := Hex.DigitValue(s[0]).value, Hex.DigitValue(s[1]).value, Hex.DigitValue(s[2]).value;
    var d := Hex.DigitValue(s[3]).value;
    GroupNumbers(s);
    hide CodePointAt, MeantAt, IsSurrogate, Hex.DigitValue, AllHex;
    var high := a * 256 + b * 16 + c;
    assert high % 16 == c;
    LastDigitIsSmall(high, c, d);
  }

  lemma GroupNumbers(s: seq<Byte>)
    requires |s| >= 4 && AllHex(s)
    ensures var a, b, c := Hex.DigitValue(s[0]).value, Hex.DigitValue(s[1]).value, Hex.DigitValue(s[2]).value;
            var d := Hex.DigitValue(s[3]).value;
            && a < 16 && b < 16 && c < 16 && d < 16 && MeantAt(s) == (a * 256 + b * 16 + c) * 16 + d
            && CodePointAt(s) == Some((a * 256 + b * 16 + c) * 16 + c)
  {
    HexDigitIsRightIff(s[0]);
    HexDigitIsRightIff(s[1]);
    HexDigitIsRightIff(s[2]);
    HexDigitIsRightIff(s[3]);
    hide HexDigit;
  }

  /** The decoder's code points are the meant ones exactly when all groups end in twins; it refuses what it should. */
  lemma {:induction false} AssembledIsMeantIff(s: seq<Byte>)
    requires |s| % 4 == 0 && AllHex(s)
    ensures Assembled(s).Some?
    ensures Assembled(s).value == Meant(s) <==> Twins(s)
    ensures Encodable(Assembled(s).value) ==> Encodable(Meant(s))
    decreases |s|
  {
    if s == [] {
    } else {
      hide CodePointAt, MeantAt;
      GroupIsClose(s);
      AssembledIsMeantIff(s[4..]);
      var first, others := CodePointAt(s).value, Assembled(s[4..]).value;
      EncodableCons(first, others);
      EncodableCons(MeantAt(s), Meant(s[4..]));
      assert ([first] + others)[1..] == others && ([MeantAt(s)] + Meant(s[4..]))[1..] == Meant(s[4..]);
    }
  }

  lemma EncodableCons(cp: nat, cps: seq<nat>)
    ensures Encodable([cp] + cps) <==> cp != 0 && !IsSurrogate(cp) && cp < 0x10000 && Encodable(cps)
  {
    assert forall i :: 0 <= i < |cps| ==> ([cp] + cps)[i + 1] == cps[i];
    assert ([cp] + cps)[0] == cp;
  }

  /**
   * On hexadecimal digits in groups of four the decoder returns what it should if and only if the text
   * cannot be encoded, or the last two digits of every group are equal.
   */
  lemma DecodingIsRightIff(s: seq<Byte>)
    requires |s| % 4 == 0 && AllHex(s)
    ensures Decoded(s) == Wanted(s) <==> !Encodable(Meant(s)) || Twins(s)
  {
    hide Encodable, Utf8, Assembled, Meant, AllHex, Twins;
    AssembledIsMeantIff(s);
    if Encodable(Meant(s)) && Encodable(Assembled(s).value) {
      Utf8DecodesBack(Meant(s));
      Utf8DecodesBack(Assembled(s).value);
    }
  }

  /** "0041" means 'A' and decodes to 'D'. */
  lemma LetterIsMisread()
    ensures var s: seq<Byte> := [48, 48, 52, 49];
            && AllHex(s) && !Twins(s) && Wanted(s) == Some([65]) && Decoded(s) == Some([68])
  {
    var s: seq<Byte> := [48, 48, 52, 49];
    assert MeantAt(s) == 0x41 && CodePointAt(s) == Some(0x44);
    hide MeantAt, CodePointAt;
    assert s[4..] == [] && Assembled([]) == Some([]);
    assert Meant(s) == [0x41] + [] == [0x41] && Assembled(s) == Some([0x44] + []);
    assert [0x44] + [] == [0x44];
    assert [0x41][1..] == [] && [0x44][1..] == [];
    assert Utf8([0x41]) == [65] + [] && Utf8([0x44]) == [68] + [];
  }

  // ------------------------------------------------------------------ the program

  /** A character of the string or its terminating NUL, and nothing behind it. */
  function At(str: seq<Byte>, i: nat): Byte
    requires i <= |str|
  {
    if i < |str| then str[i] else 0
  }

  /** Four characters from position i on; those behind the string are never looked at. */
  function GroupAt(str: seq<Byte>, i: nat): (group: seq<Byte>)
    requires i < |str|
    ensures |group| == 4
  {
    if |str| - i >= 4 then str[i..i + 4] else str[i..] + seq(4 - (|str| - i), _ => 0)
  }

  /**
   * The loop steps over the terminating NUL: three characters are left after the last whole group, nothing
   * has failed before them, and they give a code point that can be encoded.
   */
  predicate Overruns(str: seq<Byte>) {
    && |str| % 4 == 3 && Decoded(str[..|str| - 3]).Some?
    && match CodePointAt(GroupAt(str, |str| - 3))
       case None => false
       case Some(cp) => cp != 0 && !IsSurrogate(cp)
  }

  /** "123" overruns, and needs three bytes where one was allocated. */
  lemma OverrunWritesPastBuffer()
    ensures Overruns([49, 50, 51]) && CodePointAt(GroupAt([49, 50, 51], 0)) == Some(0x1233)
    ensures |Utf8One(0x1233)| == 3 > 3 * (3 / 4) + 1
  {
    hide Decoded;
    var s: seq<Byte> := [49, 50, 51];
    assert s[..|s| - 3] == [];
    NothingDecoded();
    assert CodePointAt(GroupAt(s, 0)) == Some(0x1233);
  }

  /** "zzz" is refused at its first character, so it does not overrun. */
  lemma OddLengthMayBeRefused()
    ensures !Overruns([122, 122, 122])
  {
    assert CodePointAt(GroupAt([122, 122, 122], 0)).None?;
  }

  lemma {:induction false} AssembledSnoc(a: seq<Byte>, group: seq<Byte>)
    requires |a| % 4 == 0 && |group| == 4
    ensures Assembled(a + group) ==
              if Assembled(a).None? || CodePointAt(group).None? then None
              else Some(Assembled(a).value + [CodePointAt(group).value])
    decreases |a|
  {
    if a == [] {
      assert a + group == group && group[4..] == [];
      if CodePointAt(group).Some? {
        var cp := CodePointAt(group).value;
        assert [cp] + [] == [] + [cp];
      }
    } else {
      assert (a + group)[4..] == a[4..] + group;
      AssembledSnoc(a[4..], group);
      assert CodePointAt(a + group) == CodePointAt(a);
      if Assembled(a).Some? && CodePointAt(group).Some? {
        var first, others, last := CodePointAt(a).value, Assembled(a[4..]).value, CodePointAt(group).value;
        assert [first] + (others + [last]) == ([first] + others) + [last];
      }
    }
  }

  lemma {:induction false} FailureStays(a: seq<Byte>, b: seq<Byte>)
    requires |a| % 4 == 0
    ensures Assembled(a).None? ==> Assembled(a + b).None?
    ensures Assembled(a).Some? && !Encodable(Assembled(a).value) && Assembled(a + b).Some? ==>
              !Encodable(Assembled(a + b).value)
    ensures Assembled(a + b).Some? && Assembled(a).Some? ==> Assembled(a).value <= Assembled(a + b).value
    decreases |a|
  {
    if a == [] {
      assert a + b == b;
    } else {
      assert (a + b)[4..] == a[4..] + b;
      assert CodePointAt(a + b) == CodePointAt(a);
      FailureStays(a[4..], b);
      if Assembled(a).Some? && Assembled(a + b).Some? {
        var x, y := Assembled(a).value, Assembled(a + b).value;
        assert x <= y;
        if !Encodable(x) {
          var i :| 0 <= i < |x| && !(x[i] != 0 && !IsSurrogate(x[i]) && x[i] < 0x10000);
          assert y[i] == x[i];
        }
      }
    }
  }

  lemma {:induction false} Utf8Snoc(cps: seq<nat>, cp: nat)
    requires Encodable(cps + [cp])
    ensures Encodable(cps) && cp < 0x10000 && Utf8(cps + [cp]) == Utf8(cps) + Utf8One(cp)
    decreases |cps|
  {
    assert (cps + [cp])[|cps|] == cp;
    assert forall i :: 0 <= i < |cps| ==> (cps + [cp])[i] == cps[i];
    if cps == [] {
      assert cps + [cp] == [cp] && [cp][1..] == [];
    } else {
      assert (cps + [cp])[1..] == cps[1..] + [cp];
      Utf8Snoc(cps[1..], cp);
    }
  }

  /** Converts the code point and stores its bytes at the moving pointer. */
  method PutCodePoint(out: array<Byte>, p: nat, cp: nat) returns (p': nat)
    requires 0 < cp < 0x10000 && !IsSurrogate(cp) && p + 3 <= out.Length
    modifies out
    ensures p' == p + |Utf8One(cp)| && out[..p'] == old(out[..p]) + Utf8One(cp)
  {
    if cp < 0x80 {
      out[p] := cp;
      p' := p + 1;
    } else if cp < 0x800 {
      out[p], out[p + 1] := 0xC0 + cp / 64, 0x80 + cp % 64;
      p' := p + 2;
    } else {
      out[p], out[p + 1], out[p + 2] := 0xE0 + cp / 4096, 0x80 + cp / 64 % 64, 0x80 + cp % 64;
      p' := p + 3;
    }
  }

  /** The four nibbles at str[i]; a negative result is an error. No character behind the NUL is read. */
  method ReadGroup(str: seq<Byte>, i: nat) returns (cp: int)
    requires i < |str|
    ensures cp == match CodePointAt(GroupAt(str, i))
                  case None => -1
                  case Some(value) => value
  {
    var a := HexDigit(At(str, i));
    if a < 0 {
      return -1;
    }
    var b := HexDigit(At(str, i + 1));
    if b < 0 {
      return -1;
    }
    var c := HexDigit(At(str, i + 2));
    if c < 0 {
      return -1;
    }
    cp := a * 4096 + b * 256 + c * 16 + c;
  }

  /**
   * sms16_decode. It overruns when it accepts a group that is not complete: then it goes on to store the code
   * point, and to look for the next group behind the terminating NUL.
   */
  method Sms16Decode(str: seq<Byte>) returns (out: array?<Byte>, p: nat, overran: bool)
    ensures overran <==> Overruns(str)
    ensures !overran ==> (out != null) == Decoded(str).Some?
    ensures out != null ==> !overran && p < out.Length && out[p] == 0 && out[..p] == Decoded(str).value
  {
    hide Decoded, Assembled, Encodable, Utf8, CodePointAt, Overruns;
    var len := |str| / 4;
    var buf := new Byte[3 * len + 1];
    p := 0;
    var i := 0;
    NothingDecoded();
    while i < |str|
      invariant i % 4 == 0 && i <= |str| && p <= 3 * (i / 4)
      invariant Decoded(str[..i]) == Some(buf[..p])
      decreases |str| - i
    {
      var cp := ReadGroup(str, i);
      DecodedStep(str, i);
      if cp < 0 || cp == 0 || 0xD800 <= cp < 0xE000 {
        FailureIsNoOverrun(str, i);
        return null, 0, false;
      }
      if |str| - i < 4 {
        return null, 0, true;
      }
      p := PutCodePoint(buf, p, cp);
      i := i + 4;
    }
    assert str[..i] == str;
    WholeGroupsDoNotOverrun(str);
    buf[p] := 0;
    out, overran := buf, false;
  }

  lemma WholeGroupsDoNotOverrun(str: seq<Byte>)
    requires |str| % 4 == 0
    ensures !Overruns(str)
  {
  }

  /** A string that fails at some group does not overrun: it is refused there. */
  lemma FailureIsNoOverrun(str: seq<Byte>, i: nat)
    requires i < |str| && i % 4 == 0 && Decoded(str[..i]).Some?
    requires match CodePointAt(GroupAt(str, i))
             case None => true
             case Some(cp) => cp == 0 || IsSurrogate(cp)
    ensures !Overruns(str)
  {
    hide Decoded, CodePointAt;
    if |str| % 4 == 3 && i < |str| - 3 {
      var whole := str[..|str| - 3];
      assert whole[..i] == str[..i] && GroupAt(whole, i) == GroupAt(str, i);
      DecodedStep(whole, i);
    }
  }

  lemma NothingDecoded()
    ensures Decoded([]) == Some([])
  {
  }

  /** One group: it is appended, or the whole string fails; an incomplete one fails unless it overruns. */
  lemma DecodedStep(str: seq<Byte>, i: nat)
    requires i < |str| && i % 4 == 0 && Decoded(str[..i]).Some?
    ensures |str| - i < 4 ==> Decoded(str).None?
    ensures match CodePointAt(GroupAt(str, i))
            case None => Decoded(str).None?
            case Some(cp) =>
              if cp == 0 || IsSurrogate(cp) then Decoded(str).None?
              else if |str| - i < 4 then Overruns(str)
              else cp < 0x10000 && Decoded(str[..i + 4]) == Some(Decoded(str[..i]).value + Utf8One(cp))
  {
    hide Utf8, CodePointAt;
    var a := str[..i];
    if |str| - i < 4 {
      assert str == a + str[i..];
      Incomplete(a, str[i..]);
      if |str| - i < 3 {
        ShortGroups(str, i);
      } else {
        assert |str| % 4 == 3 && i == |str| - 3;
      }
    } else {
      var group := str[i..i + 4];
      assert str[..i + 4] == a + group && str == (a + group) + str[i + 4..];
      AssembledSnoc(a, group);
      FailureStays(a + group, str[i + 4..]);
      if CodePointAt(group).Some? {
        var cp, cps := CodePointAt(group).value, Assembled(a).value;
        CodePointFits(group);
        if cp == 0 || IsSurrogate(cp) {
          assert (cps + [cp])[|cps|] == cp;
        } else {
          Utf8Snoc(cps, cp);
        }
      }
    }
  }

  /** The NUL is no digit: only three characters can pass for a group. */
  lemma ShortGroups(str: seq<Byte>, i: nat)
    requires i < |str| && |str| - i < 3
    ensures CodePointAt(GroupAt(str, i)).None?
  {
    assert GroupAt(str, i)[|str| - i] == 0;
  }

  lemma CodePointFits(s: seq<Byte>)
    requires |s| >= 4 && CodePointAt(s).Some?
    ensures CodePointAt(s).value < 0x10000
  {
    HexDigitIsRightIff(s[0]);
    HexDigitIsRightIff(s[1]);
    HexDigitIsRightIff(s[2]);
  }

  lemma {:induction false} Incomplete(a: seq<Byte>, b: seq<Byte>)
    requires |a| % 4 == 0 && 0 < |b| < 4
    ensures Assembled(a + b).None?
    decreases |a|
  {
    if a == [] {
      assert a + b == b;
    } else {
      assert (a + b)[4..] == a[4..] + b;
      Incomplete(a[4..], b);
    }
  }
}

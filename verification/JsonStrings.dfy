/**
 Strings in jsoncpp's text: the writer quotes and escapes them, the reader finds
 the closing quote and then undoes the escapes.
 */
module JsonStrings {
  import opened Bytes
  import opened Options

  const QUOTE: Byte := 34
  const SLASH: Byte := 47
  const BACKSLASH: Byte := 92

  // ----- The writer -----

  /** The letter that follows the backslash for the characters with a short escape. */
  function ShortEscape(c: Byte): Option<Byte> {
    match c
    case 34 => Some(QUOTE)
    case 92 => Some(BACKSLASH)
    case 8 => Some(98)      // b
    case 12 => Some(102)    // f
    case 10 => Some(110)    // n
    case 13 => Some(114)    // r
    case 9 => Some(116)     // t
    case _ => None
  }

  predicate IsControl(c: Byte) {
    c < 0x20
  }

  /** Upper-case hexadecimal. */
  function HexDigit(v: nat): Byte
    requires v < 16
  {
    if v < 10 then 48 + v else 55 + v
  }

  function Escape(c: Byte): (s: seq<Byte>)
    ensures |s| > 0
  {
    if ShortEscape(c).Some? then [BACKSLASH, ShortEscape(c).value]
    else if IsControl(c) then [BACKSLASH, 117, 48, 48, HexDigit(c / 16), HexDigit(c % 16)]
    else [c]
  }

  function Escaped(s: seq<Byte>): seq<Byte> {
    if s == [] then [] else Escape(s[0]) + Escaped(s[1..])
  }

  lemma {:induction false} EscapedAppends(s: seq<Byte>, c: Byte)
    ensures Escaped(s + [c]) == Escaped(s) + Escape(c)
    decreases |s|
  {
    if s == [] {
      assert [c][1..] == [];
    } else {
      EscapedAppends(s[1..], c);
      assert (s + [c])[1..] == s[1..] + [c];
    }
  }

  predicate NeedsEscape(c: Byte) {
    ShortEscape(c).Some? || IsControl(c)
  }

  lemma {:induction false} NothingToEscape(s: seq<Byte>)
    requires forall i :: 0 <= i < |s| ==> !NeedsEscape(s[i])
    ensures Escaped(s) == s
    decreases |s|
  {
    if s != [] { NothingToEscape(s[1..]); }
  }

  /** The two scans at the start of the writer. */
  method AnyNeedsEscape(s: seq<Byte>) returns (found: bool)
    ensures found <==> exists i :: 0 <= i < |s| && NeedsEscape(s[i])
  {
    for i := 0 to |s|
      invariant forall j :: 0 <= j < i ==> !NeedsEscape(s[j])
    {
      if NeedsEscape(s[i]) { return true; }
    }
    return false;
  }

  /** `valueToQuotedStringN`: the short way and the long way give the same text. */
  method QuoteString(value: seq<Byte>) returns (r: seq<Byte>)
    ensures r == [QUOTE] + Escaped(value) + [QUOTE]
  {
    var escapes := AnyNeedsEscape(value);
    if !escapes {
      NothingToEscape(value);
      return [QUOTE] + value + [QUOTE];
    }
    r := [QUOTE];
    assert Escaped(value[..0]) == [];
    hide Escape, Escaped, NeedsEscape;
    for i := 0 to |value|
      invariant r == [QUOTE] + Escaped(value[..i])
    {
      r := r + Escape(value[i]);
      EscapedAppends(value[..i], value[i]);
      assert value[..i + 1] == value[..i] + [value[i]];
    }
    assert value[..|value|] == value;
    r := r + [QUOTE];
  }

  // ----- The reader finds the end of the string -----

  /** How far it is to just after the closing quote, if there is one: a backslash
      hides the character after it. */
  function ToEnd(s: seq<Byte>): (n: Option<nat>)
    ensures n.Some? ==> 0 < n.value <= |s| && s[n.value - 1] == QUOTE
  {
    if s == [] then None
    else if s[0] == QUOTE then Some(1)
    else if s[0] == BACKSLASH then
      if |s| < 2 then None else Further(ToEnd(s[2..]), 2)
    else Further(ToEnd(s[1..]), 1)
  }

  function Further(n: Option<nat>, k: nat): Option<nat> {
    if n.Some? then Some(n.value + k) else None
  }

  /** The position just after the closing quote of the string that goes on at `i`. */
  ghost function EndFrom(doc: seq<Byte>, i: nat): Option<nat>
    requires i <= |doc|
  {
    Further(ToEnd(doc[i..]), i)
  }

  lemma OneStep(doc: seq<Byte>, i: nat)
    requires i < |doc|
    ensures EndFrom(doc, i) ==
      if doc[i] == QUOTE then Some(i + 1)
      else if doc[i] == BACKSLASH then if i + 1 == |doc| then None else EndFrom(doc, i + 2)
      else EndFrom(doc, i + 1)
  {
    var here := doc[i..];
    assert here[1..] == doc[i + 1..];
    if i + 1 < |doc| { assert here[2..] == doc[i + 2..]; }
  }

  /** `Reader::readString`, after the opening quote. */
  method ReadString(doc: seq<Byte>, start: nat) returns (ok: bool, current: nat)
    requires start <= |doc|
    ensures ok <==> EndFrom(doc, start).Some?
    ensures ok ==> current == EndFrom(doc, start).value
  {
    assert EndFrom(doc, |doc|) == None;
    hide EndFrom, ToEnd;
    current := start;
    var c: Byte := 0;
    while current < |doc| && c != QUOTE
      invariant start <= current <= |doc|
      invariant EndFrom(doc, start) == if c == QUOTE then Some(current) else EndFrom(doc, current)
      decreases |doc| - current
    {
      OneStep(doc, current);
      c := doc[current];
      current := current + 1;
      if c == BACKSLASH && current < |doc| { current := current + 1; }
    }
    ok := c == QUOTE;
  }

  lemma ToEndOfEscape(c: Byte, rest: seq<Byte>)
    ensures ToEnd(Escape(c) + rest) == Further(ToEnd(rest), |Escape(c)|)
  {
    var e := Escape(c);
    var s := e + rest;
    if ShortEscape(c).Some? {
      assert s[2..] == rest;
    } else if IsControl(c) {
      assert s[2..] == e[2..] + rest;
      Plain(e[2..], rest);
    } else {
      assert s[1..] == rest;
    }
  }

  /** Ordinary characters are passed over. */
  lemma {:induction false} Plain(p: seq<Byte>, rest: seq<Byte>)
    requires forall i :: 0 <= i < |p| ==> p[i] != QUOTE && p[i] != BACKSLASH
    ensures ToEnd(p + rest) == Further(ToEnd(rest), |p|)
    decreases |p|
  {
    if p == [] {
      assert p + rest == rest;
    } else {
      assert (p + rest)[1..] == p[1..] + rest;
      Plain(p[1..], rest);
    }
  }

  /** In a text that the writer produced, the reader stops at the quote the writer
      closed the string with, whatever follows. */
  lemma {:induction false} FindsItsEnd(s: seq<Byte>, rest: seq<Byte>)
    ensures ToEnd(Escaped(s) + [QUOTE] + rest) == Some(|Escaped(s)| + 1)
    decreases |s|
  {
    if s == [] {
      assert Escaped(s) + [QUOTE] + rest == [QUOTE] + rest;
    } else {
      hide ToEnd, Escape;
      var tail := Escaped(s[1..]) + [QUOTE] + rest;
      FindsItsEnd(s[1..], rest);
      assert Escaped(s) + [QUOTE] + rest == Escape(s[0]) + tail;
      ToEndOfEscape(s[0], tail);
    }
  }

  // ----- The reader undoes the escapes -----

  function HexValue(c: Byte): Option<nat> {
    if 48 <= c <= 57 then Some(c - 48)
    else if 97 <= c <= 102 then Some(c - 97 + 10)
    else if 65 <= c <= 70 then Some(c - 65 + 10)
    else None
  }

  predicate IsHex4(s: seq<Byte>) {
    |s| >= 4 && forall i :: 0 <= i < 4 ==> HexValue(s[i]).Some?
  }

  function Hex4(s: seq<Byte>): (v: nat)
    requires IsHex4(s)
    ensures v < 0x10000
  {
    HexValue(s[0]).value * 0x1000 + HexValue(s[1]).value * 0x100 + HexValue(s[2]).value * 0x10 + HexValue(s[3]).value
  }

  datatype CodePoint = CodePoint(value: nat, length: nat)

  /** The code point after `\u`, and how many characters it takes: four digits, or a
      pair of surrogates. The second of a pair is not checked to be one. */
  function ReadCodePoint(s: seq<Byte>): (p: Option<CodePoint>)
    ensures p.Some? ==> p.value.value <= 0x10FFFF && p.value.length <= |s|
  {
    if !IsHex4(s) then None
    else
      var first := Hex4(s);
      if !(0xD800 <= first <= 0xDBFF) then Some(CodePoint(first, 4))
      else if |s| < 10 || s[4] != BACKSLASH || s[5] != 117 || !IsHex4(s[6..]) then None
      else Some(CodePoint(0x10000 + first % 0x400 * 0x400 + Hex4(s[6..]) % 0x400, 10))
  }

  /** `codePointToUTF8`. */
  function Utf8(cp: nat): seq<Byte> {
    if cp <= 0x7f then [cp]
    else if cp <= 0x7FF then [0xC0 + cp / 0x40, 0x80 + cp % 0x40]
    else if cp <= 0xFFFF then [0xE0 + cp / 0x1000, 0x80 + cp / 0x40 % 0x40, 0x80 + cp % 0x40]
    else if cp <= 0x10FFFF then
      [0xF0 + cp / 0x40000, 0x80 + cp / 0x1000 % 0x40, 0x80 + cp / 0x40 % 0x40, 0x80 + cp % 0x40]
    else []
  }

  function Unescaped(c: Byte): Option<Byte> {
    match c
    case 34 => Some(QUOTE)
    case 47 => Some(SLASH)
    case 92 => Some(BACKSLASH)
    case 98 => Some(8)
    case 102 => Some(12)
    case 110 => Some(10)
    case 114 => Some(13)
    case 116 => Some(9)
    case _ => None
  }

  function Prepend(p: seq<Byte>, rest: Option<seq<Byte>>): Option<seq<Byte>> {
    if rest.Some? then Some(p + rest.value) else None
  }

  /** What the text between the quotes stands for; None if an escape is malformed. */
  function Decoded(s: seq<Byte>): Option<seq<Byte>> {
    if s == [] || s[0] == QUOTE then Some([])
    else if s[0] != BACKSLASH then Prepend([s[0]], Decoded(s[1..]))
    else if |s| == 1 then None
    else if s[1] == 117 then
      var p := ReadCodePoint(s[2..]);
      if p.None? then None else Prepend(Utf8(p.value.value), Decoded(s[2 + p.value.length..]))
    else if Unescaped(s[1]).None? then None
    else Prepend([Unescaped(s[1]).value], Decoded(s[2..]))
  }

  /** `Reader::decodeString` on the text between the quotes. */
  method DecodeString(text: seq<Byte>) returns (r: Option<seq<Byte>>)
    ensures r == Decoded(text)
  {
    var decoded: seq<Byte> := [];
    var current := 0;
    assert text[0..] == text;
    Regroup([], [], Decoded(text));
    while current != |text|
      invariant 0 <= current <= |text|
      invariant Decoded(text) == Prepend(decoded, Decoded(text[current..]))
      decreases |text| - current
    {
      ghost var here, soFar := text[current..], decoded;
      var c := text[current];
      current := current + 1;
      if c == QUOTE {
        assert decoded + [] == decoded;
        return Some(decoded);
      } else if c == BACKSLASH {
        if current == |text| { return None; }
        var escape := text[current];
        current := current + 1;
        assert here[2..] == text[current..];
        if escape == 117 {
          var p := ReadCodePoint(text[current..]);
          if p.None? { return None; }
          current := current + p.value.length;
          assert here[2 + p.value.length..] == text[current..];
          decoded := decoded + Utf8(p.value.value);
          Regroup(soFar, Utf8(p.value.value), Decoded(text[current..]));
        } else {
          if Unescaped(escape).None? { return None; }
          decoded := decoded + [Unescaped(escape).value];
          Regroup(soFar, [Unescaped(escape).value], Decoded(text[current..]));
        }
      } else {
        assert here[1..] == text[current..];
        decoded := decoded + [c];
        Regroup(soFar, [c], Decoded(text[current..]));
      }
    }
    assert decoded + [] == decoded;
    r := Some(decoded);
  }

  lemma Regroup(a: seq<Byte>, b: seq<Byte>, rest: Option<seq<Byte>>)
    ensures Prepend(a, Prepend(b, rest)) == Prepend(a + b, rest) && Prepend([], rest) == rest
  {
    if rest.Some? { assert a + (b + rest.value) == a + b + rest.value && [] + rest.value == rest.value; }
  }

  // ----- The round trip -----

  lemma DecodedEscape(c: Byte, rest: seq<Byte>)
    ensures Decoded(Escape(c) + rest) == Prepend([c], Decoded(rest))
  {
    var s := Escape(c) + rest;
    if ShortEscape(c).Some? {
      assert s[2..] == rest;
    } else if IsControl(c) {
      assert s[2..] == Escape(c)[2..] + rest;
      assert s[6..] == rest;
      assert IsHex4(s[2..]) && Hex4(s[2..]) == c;
      assert ReadCodePoint(s[2..]) == Some(CodePoint(c, 4));
    } else {
      assert s[1..] == rest;
    }
  }

  lemma {:induction false} DecodedEscaped(s: seq<Byte>)
    ensures Decoded(Escaped(s)) == Some(s)
    decreases |s|
  {
    if s != [] {
      DecodedEscaped(s[1..]);
      DecodedEscape(s[0], Escaped(s[1..]));
      assert [s[0]] + s[1..] == s;
    }
  }

  /** Every byte string that the writer quoted is read back unchanged, whatever
      text follows it. */
  method StringRoundTrip(value: seq<Byte>, rest: seq<Byte>) returns (r: Option<seq<Byte>>)
    ensures r == Some(value)
  {
    var quoted := QuoteString(value);
    var doc := quoted + rest;
    assert doc[1..] == Escaped(value) + [QUOTE] + rest;
    FindsItsEnd(value, rest);
    var ok, end := ReadString(doc, 1);
    assert doc[1..end - 1] == Escaped(value);
    DecodedEscaped(value);
    r := DecodeString(doc[1..end - 1]);
  }

  // ----- UTF-8 -----

  predicate Continues(b: Byte) {
    0x80 <= b <= 0xBF
  }

  /** The bits that a byte carries beyond its marker. */
  function Payload(b: Byte, marker: int): int {
    b - marker
  }

  /** The code point that a sequence of bytes encodes by section 3 of RFC 3629: the
      length from the leading byte, continuation bytes, and the shortest form. */
  function FromUtf8(s: seq<Byte>): Option<int> {
    if |s| == 1 && s[0] <= 0x7F then Some(s[0])
    else if |s| == 2 && 0xC2 <= s[0] <= 0xDF && Continues(s[1]) then
      Some(Payload(s[0], 0xC0) * 0x40 + Payload(s[1], 0x80))
    else if |s| == 3 && 0xE0 <= s[0] <= 0xEF && Continues(s[1]) && Continues(s[2]) && (s[0] == 0xE0 ==> s[1] >= 0xA0)
      && (s[0] == 0xED ==> s[1] <= 0x9F) then
      Some(Payload(s[0], 0xE0) * 0x1000 + Payload(s[1], 0x80) * 0x40 + Payload(s[2], 0x80))
    else if |s| == 4 && 0xF0 <= s[0] <= 0xF4 && Continues(s[1]) && Continues(s[2]) && Continues(s[3])
      && (s[0] == 0xF0 ==> s[1] >= 0x90) && (s[0] == 0xF4 ==> s[1] <= 0x8F) then
      Some(Payload(s[0], 0xF0) * 0x40000 + Payload(s[1], 0x80) * 0x1000 +
           Payload(s[2], 0x80) * 0x40 + Payload(s[3], 0x80))
    else None
  }

  predicate IsSurrogate(cp: int) {
    0xD800 <= cp <= 0xDFFF
  }

  /** A code point is encoded in the well-formed sequence that denotes it if and only
      if it is not a surrogate: those RFC 3629 forbids, and the encoder takes them. */
  lemma Utf8RoundTrip(cp: nat)
    requires cp <= 0x10FFFF
    ensures FromUtf8(Utf8(cp)) == Some(cp) <==> !IsSurrogate(cp)
    ensures IsSurrogate(cp) ==> FromUtf8(Utf8(cp)) == None
  {
    Bits(cp);
  }

  /** The decoder passes a lone surrogate escape on: `\uDC00` gives bytes that are
      not well-formed. */
  lemma LoneSurrogateIsMalformed()
    ensures Decoded([BACKSLASH, 117, 68, 67, 48, 48]) == Some([0xED, 0xB0, 0x80])
    ensures FromUtf8([0xED, 0xB0, 0x80]) == None
  {
    var s: seq<Byte> := [BACKSLASH, 117, 68, 67, 48, 48];
    assert s[2..] == [68, 67, 48, 48] && s[6..] == [];
    assert IsHex4(s[2..]) && Hex4(s[2..]) == 0xDC00;
    assert ReadCodePoint(s[2..]) == Some(CodePoint(0xDC00, 4));
    var bytes: seq<Byte> := [0xED, 0xB0, 0x80];
    assert Utf8(0xDC00) == bytes && Decoded([]) == Some([]);
    assert Prepend(bytes, Some([])) == Some(bytes) by { assert bytes + [] == bytes; }
  }

  /** An escape is decoded to well-formed UTF-8 if and only if it does not begin with
      the second half of a surrogate pair. */
  lemma EscapeIsWellFormedIff(s: seq<Byte>)
    requires ReadCodePoint(s).Some?
    ensures FromUtf8(Utf8(ReadCodePoint(s).value.value)).Some? <==> !(0xDC00 <= Hex4(s) <= 0xDFFF)
  {
    var cp := ReadCodePoint(s).value.value;
    Utf8RoundTrip(cp);
    assert IsSurrogate(cp) <==> 0xDC00 <= Hex4(s) <= 0xDFFF by { hide Hex4, IsHex4; }
  }

  lemma Bits(cp: nat)
    ensures cp == cp / 0x40 * 0x40 + cp % 0x40
    ensures cp / 0x40 == cp / 0x1000 * 0x40 + cp / 0x40 % 0x40
    ensures cp / 0x1000 == cp / 0x40000 * 0x40 + cp / 0x1000 % 0x40
  {
  }

  /** A pair of surrogates gives the code point it stands for in UTF-16. */
  lemma SurrogatesGiveCodePoint(s: seq<Byte>, cp: nat)
    requires 0x10000 <= cp <= 0x10FFFF && |s| >= 10 && s[4] == BACKSLASH && s[5] == 117
    requires IsHex4(s) && Hex4(s) == 0xD800 + (cp - 0x10000) / 0x400
    requires IsHex4(s[6..]) && Hex4(s[6..]) == 0xDC00 + (cp - 0x10000) % 0x400
    ensures ReadCodePoint(s) == Some(CodePoint(cp, 10))
  {
    hide Hex4, IsHex4;
    var offset := cp - 0x10000;
    var high, low := offset / 0x400, offset % 0x400;
    assert high < 0x400 && offset == high * 0x400 + low;
    LowBits(high, 0xD800 / 0x400);
    LowBits(low, 0xDC00 / 0x400);
  }

  /** What two halves stand for in UTF-16. */
  function FromUtf16(high: nat, low: nat): Option<nat> {
    if 0xD800 <= high <= 0xDBFF && 0xDC00 <= low <= 0xDFFF then
      Some(0x10000 + (high - 0xD800) * 0x400 + (low - 0xDC00))
    else None
  }

  /** After the first half of a pair the reader takes any escape for the second. The
      code point is the one the two halves stand for if and only if it was a second half. */
  lemma PairIsRightIff(s: seq<Byte>)
    requires |s| >= 10 && IsHex4(s) && 0xD800 <= Hex4(s) <= 0xDBFF
    requires s[4] == BACKSLASH && s[5] == 117 && IsHex4(s[6..])
    ensures ReadCodePoint(s).Some? && ReadCodePoint(s).value.length == 10
    ensures FromUtf16(Hex4(s), Hex4(s[6..])) == Some(ReadCodePoint(s).value.value) <==> 0xDC00 <= Hex4(s[6..]) <= 0xDFFF
  {
    hide Hex4, IsHex4;
    var high, low := Hex4(s), Hex4(s[6..]);
    LowBits(high - 0xD800, 0xD800 / 0x400);
    if 0xDC00 <= low <= 0xDFFF { LowBits(low - 0xDC00, 0xDC00 / 0x400); }
  }

  /** The first half of a pair followed by the escape of U+0041 is read as U+10041. */
  lemma BadPairIsRead()
    ensures var s: seq<Byte> := [68, 56, 48, 48, BACKSLASH, 117, 48, 48, 52, 49];
      ReadCodePoint(s) == Some(CodePoint(0x10041, 10)) && FromUtf16(0xD800, 0x41) == None
  {
    var s: seq<Byte> := [68, 56, 48, 48, BACKSLASH, 117, 48, 48, 52, 49];
    assert s[6..] == [48, 48, 52, 49];
    assert IsHex4(s) && IsHex4(s[6..]) && Hex4(s) == 0xD800 && Hex4(s[6..]) == 0x41;
  }

  lemma LowBits(x: nat, k: nat)
    requires x < 0x400
    ensures (k * 0x400 + x) % 0x400 == x
  {
  }
}

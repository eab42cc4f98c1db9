/**
 The strings of JSON by section 7 of RFC 8259, as a grammar of items, and what jsoncpp's
 reader and writer make of them: the reader accepts exactly the texts of this grammar,
 finds their end and gives each item its meaning, and the writer produces such texts.

 Two points are jsoncpp's own: a raw control byte is accepted, and so is any escape for
 the second half of a surrogate pair.
 */
module JsonGrammar {
  import opened Bytes
  import opened Options
  import opened JsonStrings

  /** The characters that have an escape of one letter. */
  datatype Name =
    | QuotationMark | ReverseSolidus | Solidus
    | Backspace | FormFeed | LineFeed | CarriageReturn | Tab

  /** Which of four hexadecimal digits are written with a capital letter. */
  datatype Caps = Caps(a: bool, b: bool, c: bool, d: bool)

  datatype Item =
    | Plain(c: Byte)
    | Named(name: Name)
    | Unit(value: nat, caps: Caps)
    | Pair(high: nat, low: nat, highCaps: Caps, lowCaps: Caps)

  function Letter(n: Name): Byte {
    match n
    case QuotationMark => '"' as int
    case ReverseSolidus => '\\' as int
    case Solidus => '/' as int
    case Backspace => 'b' as int
    case FormFeed => 'f' as int
    case LineFeed => 'n' as int
    case CarriageReturn => 'r' as int
    case Tab => 't' as int
  }

  function Character(n: Name): Byte {
    match n
    case QuotationMark => 0x22
    case ReverseSolidus => 0x5C
    case Solidus => 0x2F
    case Backspace => 0x08
    case FormFeed => 0x0C
    case LineFeed => 0x0A
    case CarriageReturn => 0x0D
    case Tab => 0x09
  }

  function Digit(v: nat, capital: bool): Byte
    requires v < 16
  {
    if v < 10 then '0' as int + v else (if capital then 'A' as int else 'a' as int) + (v - 10)
  }

  function FourDigits(v: nat, caps: Caps): seq<Byte>
    requires v < 0x10000
  {
    [Digit(v / 0x1000, caps.a), Digit(v / 0x100 % 16, caps.b), Digit(v / 0x10 % 16, caps.c), Digit(v % 16, caps.d)]
  }

  predicate Legal(x: Item) {
    match x
    case Plain(c) => c != '"' as int && c != '\\' as int
    case Named(_) => true
    case Unit(v, _) => v < 0x10000 && !(0xD800 <= v <= 0xDBFF)
    case Pair(high, low, _, _) => 0xD800 <= high <= 0xDBFF && low < 0x10000
  }

  function UnitText(v: nat, caps: Caps): seq<Byte>
    requires v < 0x10000
  {
    ['\\' as int, 'u' as int] + FourDigits(v, caps)
  }

  function Text(x: Item): (s: seq<Byte>)
    requires Legal(x)
    ensures |s| > 0
  {
    match x
    case Plain(c) => [c]
    case Named(n) => ['\\' as int, Letter(n)]
    case Unit(v, caps) => UnitText(v, caps)
    case Pair(high, low, highCaps, lowCaps) => UnitText(high, highCaps) + UnitText(low, lowCaps)
  }

  function Meaning(x: Item): seq<Byte>
    requires Legal(x)
  {
    match x
    case Plain(c) => [c]
    case Named(n) => [Character(n)]
    case Unit(v, _) => Utf8(v)
    case Pair(high, low, _, _) => Utf8(0x10000 + high % 0x400 * 0x400 + low % 0x400)
  }

  predicate AllLegal(xs: seq<Item>) {
    forall i :: 0 <= i < |xs| ==> Legal(xs[i])
  }

  function Texts(xs: seq<Item>): seq<Byte>
    requires AllLegal(xs)
  {
    if xs == [] then [] else Text(xs[0]) + Texts(xs[1..])
  }

  function Meanings(xs: seq<Item>): seq<Byte>
    requires AllLegal(xs)
  {
    if xs == [] then [] else Meaning(xs[0]) + Meanings(xs[1..])
  }

  lemma Regrouped(a: seq<Byte>, b: seq<Byte>, c: seq<Byte>)
    ensures a + b + c == a + (b + c)
  {
  }

  lemma OneMore(x: Item, xs: seq<Item>)
    requires Legal(x) && AllLegal(xs)
    ensures AllLegal([x] + xs)
    ensures Texts([x] + xs) == Text(x) + Texts(xs) && Meanings([x] + xs) == Meaning(x) + Meanings(xs)
  {
    hide Legal, Text, Meaning;
    assert ([x] + xs)[1..] == xs;
  }

  // ----- Four digits -----

  lemma DigitIsRead(v: nat, capital: bool)
    requires v < 16
    ensures HexValue(Digit(v, capital)) == Some(v)
    ensures Digit(v, capital) != QUOTE && Digit(v, capital) != BACKSLASH
  {
  }

  /** A digit in either case is read, and nothing else is. */
  lemma DigitIsFound(c: Byte) returns (capital: bool)
    requires HexValue(c).Some?
    ensures HexValue(c).value < 16 && c == Digit(HexValue(c).value, capital)
  {
    capital := c <= 'F' as int;
  }

  lemma Nibbles(v: nat)
    requires v < 0x10000
    ensures v / 0x1000 < 16
    ensures v == v / 0x1000 * 0x1000 + v / 0x100 % 16 * 0x100 + v / 0x10 % 16 * 0x10 + v % 16
  {
    assert v / 0x10 == v / 0x100 * 16 + v / 0x10 % 16;
    assert v / 0x100 == v / 0x1000 * 16 + v / 0x100 % 16;
  }

  lemma NibblesOf(w: nat, x: nat, y: nat, z: nat)
    requires w < 16 && x < 16 && y < 16 && z < 16
    ensures var v := w * 0x1000 + x * 0x100 + y * 0x10 + z;
      v / 0x1000 == w && v / 0x100 % 16 == x && v / 0x10 % 16 == y && v % 16 == z
  {
    var v := w * 0x1000 + x * 0x100 + y * 0x10 + z;
    assert v / 0x10 == w * 0x100 + x * 0x10 + y;
    assert v / 0x100 == w * 0x10 + x;
  }

  lemma FourDigitsAreRead(v: nat, caps: Caps, rest: seq<Byte>)
    requires v < 0x10000
    ensures IsHex4(FourDigits(v, caps) + rest) && Hex4(FourDigits(v, caps) + rest) == v
  {
    var s := FourDigits(v, caps) + rest;
    DigitIsRead(v / 0x1000, caps.a);
    DigitIsRead(v / 0x100 % 16, caps.b);
    DigitIsRead(v / 0x10 % 16, caps.c);
    DigitIsRead(v % 16, caps.d);
    Nibbles(v);
    hide Digit, HexValue;
  }

  lemma FourDigitsAreFound(s: seq<Byte>) returns (caps: Caps)
    requires IsHex4(s)
    ensures s[..4] == FourDigits(Hex4(s), caps)
  {
    var a := DigitIsFound(s[0]);
    var b := DigitIsFound(s[1]);
    var c := DigitIsFound(s[2]);
    var d := DigitIsFound(s[3]);
    caps := Caps(a, b, c, d);
    var w, x, y, z := HexValue(s[0]).value, HexValue(s[1]).value, HexValue(s[2]).value, HexValue(s[3]).value;
    NibblesOf(w, x, y, z);
    hide Digit, HexValue;
  }

  // ----- The reader accepts exactly these texts -----

  lemma UnitIsRead(v: nat, caps: Caps, rest: seq<Byte>)
    requires v < 0x10000 && !(0xD800 <= v <= 0xDBFF)
    ensures ReadCodePoint(FourDigits(v, caps) + rest) == Some(CodePoint(v, 4))
  {
    FourDigitsAreRead(v, caps, rest);
    hide IsHex4, Hex4, FourDigits;
    assert |FourDigits(v, caps)| == 4;
  }

  lemma PairIsRead(high: nat, low: nat, highCaps: Caps, lowCaps: Caps, rest: seq<Byte>)
    requires 0xD800 <= high <= 0xDBFF && low < 0x10000
    ensures ReadCodePoint(FourDigits(high, highCaps) + UnitText(low, lowCaps) + rest)
         == Some(CodePoint(0x10000 + high % 0x400 * 0x400 + low % 0x400, 10))
  {
    var s := FourDigits(high, highCaps) + UnitText(low, lowCaps) + rest;
    assert s == FourDigits(high, highCaps) + (UnitText(low, lowCaps) + rest);
    assert s[6..] == FourDigits(low, lowCaps) + rest;
    FourDigitsAreRead(high, highCaps, UnitText(low, lowCaps) + rest);
    FourDigitsAreRead(low, lowCaps, rest);
    hide IsHex4, Hex4, Digit;
  }

  lemma UnitIsDecoded(v: nat, caps: Caps, rest: seq<Byte>)
    requires v < 0x10000 && !(0xD800 <= v <= 0xDBFF)
    ensures Decoded(UnitText(v, caps) + rest) == Prepend(Utf8(v), Decoded(rest))
  {
    var s := UnitText(v, caps) + rest;
    UnitIsRead(v, caps, rest);
    assert s[2..] == FourDigits(v, caps) + rest && s[6..] == rest;
    hide ReadCodePoint, Digit, Utf8, Prepend, Unescaped;
  }

  lemma PairIsDecoded(high: nat, low: nat, highCaps: Caps, lowCaps: Caps, rest: seq<Byte>)
    requires 0xD800 <= high <= 0xDBFF && low < 0x10000
    ensures Decoded(UnitText(high, highCaps) + UnitText(low, lowCaps) + rest)
         == Prepend(Utf8(0x10000 + high % 0x400 * 0x400 + low % 0x400), Decoded(rest))
  {
    var s := UnitText(high, highCaps) + UnitText(low, lowCaps) + rest;
    PairIsRead(high, low, highCaps, lowCaps, rest);
    assert s[2..] == FourDigits(high, highCaps) + UnitText(low, lowCaps) + rest && s[12..] == rest;
    hide ReadCodePoint, Digit, Utf8, Prepend, Unescaped;
  }

  /** The reader takes an item for what it means and goes on behind it. */
  lemma ItemIsDecoded(x: Item, rest: seq<Byte>)
    requires Legal(x)
    ensures Decoded(Text(x) + rest) == Prepend(Meaning(x), Decoded(rest))
  {
    hide ReadCodePoint, Utf8, Prepend, UnitText;
    match x
    case Plain(c) =>
      assert (Text(x) + rest)[1..] == rest;
    case Named(n) =>
      assert (Text(x) + rest)[2..] == rest;
    case Unit(v, caps) =>
      UnitIsDecoded(v, caps, rest);
    case Pair(high, low, highCaps, lowCaps) =>
      PairIsDecoded(high, low, highCaps, lowCaps, rest);
  }

  /** What follows the string proper: nothing, or the closing quote and more. */
  predicate Ended(tail: seq<Byte>) {
    tail == [] || tail[0] == '"' as int
  }

  /** A text of the grammar is decoded to what it means. */
  lemma {:induction false} TextsAreDecoded(xs: seq<Item>, tail: seq<Byte>)
    requires AllLegal(xs) && Ended(tail)
    ensures Decoded(Texts(xs) + tail) == Some(Meanings(xs))
    decreases |xs|
  {
    if xs == [] {
      assert Texts(xs) + tail == tail;
    } else {
      hide Decoded, Text, Meaning;
      TextsAreDecoded(xs[1..], tail);
      ItemIsDecoded(xs[0], Texts(xs[1..]) + tail);
      Regrouped(Text(xs[0]), Texts(xs[1..]), tail);
    }
  }

  /** The item at the start of a text that the reader accepts. */
  lemma FirstItem(s: seq<Byte>) returns (x: Item)
    requires s != [] && s[0] != QUOTE && Decoded(s).Some?
    ensures Legal(x) && |Text(x)| <= |s| && s == Text(x) + s[|Text(x)|..]
  {
    if s[0] != BACKSLASH {
      x := Plain(s[0]);
    } else if s[1] == 117 {
      x := FirstUnit(s);
    } else {
      x := Named(NameOf(s[1]));
    }
  }

  function NameOf(c: Byte): (n: Name)
    requires Unescaped(c).Some?
    ensures Letter(n) == c && Unescaped(c).value == Character(n)
  {
    match c
    case 34 => QuotationMark
    case 47 => Solidus
    case 92 => ReverseSolidus
    case 98 => Backspace
    case 102 => FormFeed
    case 110 => LineFeed
    case 114 => CarriageReturn
    case 116 => Tab
  }

  lemma FirstUnit(s: seq<Byte>) returns (x: Item)
    requires |s| >= 2 && s[0] == BACKSLASH && s[1] == 117 && ReadCodePoint(s[2..]).Some?
    ensures Legal(x) && |Text(x)| <= |s| && s == Text(x) + s[|Text(x)|..]
  {
    var high := Hex4(s[2..]);
    var caps := FourDigitsAreFound(s[2..]);
    assert s[2..][..4] == s[2..6];
    if 0xD800 <= high <= 0xDBFF {
      var low := Hex4(s[8..]) by { assert s[2..][6..] == s[8..]; }
      assert s[2..][6..] == s[8..] && s[2..][4] == s[6] && s[2..][5] == s[7];
      var lowCaps := FourDigitsAreFound(s[8..]);
      assert s[8..][..4] == s[8..12];
      x := Pair(high, low, caps, lowCaps);
      hide Hex4, IsHex4, FourDigits;
      assert s[..12] == s[..2] + s[2..6] + s[6..8] + s[8..12];
    } else {
      x := Unit(high, caps);
      hide Hex4, IsHex4, FourDigits;
      assert s[..6] == s[..2] + s[2..6];
    }
  }

  /** Whatever the reader accepts is a text of the grammar, up to the closing quote. */
  lemma {:induction false} DecodedIsText(s: seq<Byte>) returns (xs: seq<Item>, tail: seq<Byte>)
    requires Decoded(s).Some?
    ensures AllLegal(xs) && Ended(tail) && s == Texts(xs) + tail
    decreases |s|
  {
    if s == [] || s[0] == QUOTE {
      xs, tail := [], s;
    } else {
      var x := FirstItem(s);
      var rest := s[|Text(x)|..];
      ItemIsDecoded(x, rest);
      hide Decoded, Text, Meaning, Texts, Meanings, AllLegal, Legal, Ended;
      var ys;
      ys, tail := DecodedIsText(rest);
      xs := [x] + ys;
      OneMore(x, ys);
      Regrouped(Text(x), Texts(ys), tail);
    }
  }

  ghost predicate IsText(s: seq<Byte>, xs: seq<Item>, tail: seq<Byte>) {
    AllLegal(xs) && Ended(tail) && s == Texts(xs) + tail
  }

  /** The reader accepts a text if and only if it is one of the grammar, up to the closing
      quote, and then it reads what that text means. */
  lemma AcceptedIffText(s: seq<Byte>)
    ensures Decoded(s).Some? <==> exists xs, tail :: IsText(s, xs, tail)
    ensures forall xs, tail :: IsText(s, xs, tail) ==> Decoded(s) == Some(Meanings(xs))
  {
    forall xs, tail | IsText(s, xs, tail) ensures Decoded(s) == Some(Meanings(xs)) { TextsAreDecoded(xs, tail); }
    if Decoded(s).Some? {
      var xs, tail := DecodedIsText(s);
      assert IsText(s, xs, tail);
    }
  }

  // ----- The end of a string -----

  lemma EndIsBehindItem(x: Item, rest: seq<Byte>)
    requires Legal(x)
    ensures ToEnd(Text(x) + rest) == Further(ToEnd(rest), |Text(x)|)
  {
    match x
    case Plain(c) =>
      assert (Text(x) + rest)[1..] == rest;
    case Named(n) =>
      assert (Text(x) + rest)[2..] == rest;
    case Unit(v, caps) =>
      EndIsBehindUnit(v, caps, rest);
    case Pair(high, low, highCaps, lowCaps) =>
      hide ToEnd, UnitText;
      EndIsBehindUnit(low, lowCaps, rest);
      EndIsBehindUnit(high, highCaps, UnitText(low, lowCaps) + rest);
      Regrouped(UnitText(high, highCaps), UnitText(low, lowCaps), rest);
  }

  lemma EndIsBehindUnit(v: nat, caps: Caps, rest: seq<Byte>)
    requires v < 0x10000
    ensures |UnitText(v, caps)| == 6 && ToEnd(UnitText(v, caps) + rest) == Further(ToEnd(rest), 6)
  {
    DigitIsRead(v / 0x1000, caps.a);
    DigitIsRead(v / 0x100 % 16, caps.b);
    DigitIsRead(v / 0x10 % 16, caps.c);
    DigitIsRead(v % 16, caps.d);
    var digits := FourDigits(v, caps);
    assert (UnitText(v, caps) + rest)[2..] == digits + rest;
    hide Digit;
    JsonStrings.Plain(digits, rest);
  }

  lemma {:induction false} EndIsBehindTexts(xs: seq<Item>, rest: seq<Byte>)
    requires AllLegal(xs)
    ensures ToEnd(Texts(xs) + rest) == Further(ToEnd(rest), |Texts(xs)|)
    decreases |xs|
  {
    hide ToEnd, Text;
    if xs == [] {
      assert Texts(xs) + rest == rest;
    } else {
      EndIsBehindTexts(xs[1..], rest);
      EndIsBehindItem(xs[0], Texts(xs[1..]) + rest);
      Regrouped(Text(xs[0]), Texts(xs[1..]), rest);
    }
  }

  /** The scan finds the quote that closes any text of the grammar, whatever follows. */
  lemma EndIsFound(xs: seq<Item>, rest: seq<Byte>)
    requires AllLegal(xs)
    ensures ToEnd(Texts(xs) + [QUOTE] + rest) == Some(|Texts(xs)| + 1)
  {
    EndIsBehindTexts(xs, [QUOTE] + rest);
    Regrouped(Texts(xs), [QUOTE], rest);
    assert ([QUOTE] + rest)[0] == QUOTE;
    hide Texts, AllLegal;
  }

  /** A string of the grammar, wherever it stands in a document, is read as what it means. */
  method ReadText(doc: seq<Byte>, start: nat, ghost xs: seq<Item>, ghost rest: seq<Byte>) returns (r: Option<seq<Byte>>)
    requires start <= |doc| && AllLegal(xs) && doc[start..] == Texts(xs) + [QUOTE] + rest
    ensures r == Some(Meanings(xs))
  {
    EndIsFound(xs, rest);
    var ok, end := ReadString(doc, start);
    TextsAreDecoded(xs, []);
    assert doc[start..end - 1] == doc[start..][..|Texts(xs)|] == Texts(xs) + [];
    r := DecodeString(doc[start..end - 1]);
  }

  // ----- What the writer writes -----

  /** How the writer spells a byte: by name where there is one, except the solidus, a
      control byte as a unit with capital digits, and any other byte as it is. */
  function Spelling(c: Byte): Item {
    if c == 0x22 then Named(QuotationMark)
    else if c == 0x5C then Named(ReverseSolidus)
    else if c == 0x08 then Named(Backspace)
    else if c == 0x0C then Named(FormFeed)
    else if c == 0x0A then Named(LineFeed)
    else if c == 0x0D then Named(CarriageReturn)
    else if c == 0x09 then Named(Tab)
    else if c < 0x20 then Unit(c, Caps(true, true, true, true))
    else Plain(c)
  }

  lemma SpellingIsWritten(c: Byte)
    ensures Legal(Spelling(c)) && Escape(c) == Text(Spelling(c)) && Meaning(Spelling(c)) == [c]
    ensures forall i :: 0 <= i < |Escape(c)| ==> Escape(c)[i] >= 0x20
  {
    if c < 0x20 && ShortEscape(c).None? { ControlIsWritten(c); } else { hide FourDigits, HexDigit, UnitText; }
  }

  lemma ControlIsWritten(c: Byte)
    requires c < 0x20
    ensures var text := UnitText(c, Caps(true, true, true, true));
      && text == [BACKSLASH, 117, 48, 48, HexDigit(c / 16), HexDigit(c % 16)]
      && Utf8(c) == [c] && forall i :: 0 <= i < |text| ==> text[i] >= 0x20
  {
    assert c / 16 < 2 && c / 0x100 % 16 == 0 && c / 0x10 % 16 == c / 16;
  }

  function Spellings(s: seq<Byte>): (xs: seq<Item>)
    ensures |xs| == |s| && forall i :: 0 <= i < |s| ==> xs[i] == Spelling(s[i])
  {
    if s == [] then [] else [Spelling(s[0])] + Spellings(s[1..])
  }

  /** The writer writes the spelling of every byte in turn, a text of the grammar without
      a raw control byte. */
  lemma {:induction false} WrittenIsText(s: seq<Byte>)
    ensures AllLegal(Spellings(s)) && Escaped(s) == Texts(Spellings(s)) && Meanings(Spellings(s)) == s
    ensures forall i :: 0 <= i < |Escaped(s)| ==> Escaped(s)[i] >= 0x20
    decreases |s|
  {
    if s != [] {
      WrittenIsText(s[1..]);
      SpellingIsWritten(s[0]);
      hide Escape, Text, Meaning, Spelling;
      assert Spellings(s)[1..] == Spellings(s[1..]);
      forall i | 0 <= i < |s| ensures Legal(Spellings(s)[i]) {
        if i > 0 { assert Spellings(s)[i] == Spellings(s[1..])[i - 1]; }
      }
    }
  }
}

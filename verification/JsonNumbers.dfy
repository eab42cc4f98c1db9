/**
 Integers in jsoncpp's text: the writer prints them digit by digit from the right
 into a fixed buffer, the reader takes a token as an integer when it fits.
 */
module JsonNumbers {
  import opened Bytes

  const ZERO: Byte := 48
  const MINUS: Byte := 45

  const TWO63: int := 0x8000_0000_0000_0000
  const TWO64: int := 0x1_0000_0000_0000_0000
  const MAX_INT: int := 0x7fff_ffff

  predicate IsDigit(c: Byte) {
    ZERO <= c <= ZERO + 9
  }

  predicate AllDigits(s: seq<Byte>) {
    forall i :: 0 <= i < |s| ==> IsDigit(s[i])
  }

  /** The number that decimal digits denote; no digits denote 0. */
  function ValueOf(s: seq<Byte>): nat
    requires AllDigits(s)
  {
    if s == [] then 0 else ValueOf(s[..|s| - 1]) * 10 + (s[|s| - 1] - ZERO)
  }

  // ----- The writer -----

  function Digits(v: nat): (s: seq<Byte>)
    ensures AllDigits(s) && |s| > 0
  {
    if v < 10 then [ZERO + v] else Digits(v / 10) + [ZERO + v % 10]
  }

  function Printed(v: int): seq<Byte> {
    if v < 0 then [MINUS] + Digits(-v) else Digits(v)
  }

  lemma {:induction false} ValueOfDigits(v: nat)
    ensures ValueOf(Digits(v)) == v
    ensures Digits(v)[0] == ZERO ==> v == 0 && |Digits(v)| == 1
    decreases v
  {
    if v >= 10 {
      ValueOfDigits(v / 10);
      assert Digits(v)[..|Digits(v)| - 1] == Digits(v / 10);
    } else {
      assert Digits(v)[..0] == [];
    }
  }

  function Power10(k: nat): nat {
    if k == 0 then 1 else 10 * Power10(k - 1)
  }

  lemma {:induction false} DigitCount(v: nat, k: nat)
    requires k > 0 && v < Power10(k)
    ensures |Digits(v)| <= k
    decreases k
  {
    if v >= 10 { DigitCount(v / 10, k - 1); }
  }

  /** 64-bit numbers have at most 20 digits. */
  lemma AtMost20(v: nat)
    requires v < TWO64
    ensures |Digits(v)| <= 20
  {
    assert Power10(20) == 10_000_000_000 * Power10(10);
    assert Power10(10) == 10_000_000_000;
    DigitCount(v, 20);
  }

  /** `uintToString`: the digits and a terminating 0 before `end`, with room to
      spare in the buffer for a sign. */
  method UintToString(v: nat, buffer: array<Byte>, end: nat) returns (current: nat)
    requires v < TWO64 && 21 <= end <= buffer.Length
    modifies buffer
    ensures end - 21 <= current < end
    ensures buffer[current..end] == Digits(v) + [0]
    ensures forall i :: end <= i < buffer.Length ==> buffer[i] == old(buffer[i])
  {
    AtMost20(v);
    current := end - 1;
    buffer[current] := 0;
    var rest: nat := v;
    var more := true;
    while more
      invariant 0 <= current < end
      invariant more ==> Digits(v) + [0] == Digits(rest) + buffer[current..end]
      invariant !more ==> Digits(v) + [0] == buffer[current..end]
      invariant forall i :: end <= i < buffer.Length ==> buffer[i] == old(buffer[i])
      decreases more, rest
    {
      assert |Digits(v)| + 1 == |Digits(rest)| + (end - current);
      ghost var tail := buffer[current..end];
      current := current - 1;
      buffer[current] := rest % 10 + ZERO;
      assert buffer[current..end] == [rest % 10 + ZERO] + tail;
      assert Digits(rest) + tail == (if rest < 10 then [] else Digits(rest / 10)) + buffer[current..end];
      rest := rest / 10;
      more := rest != 0;
    }
  }

  /** The characters before the terminating 0. */
  method TextAt(buffer: array<Byte>, start: nat, ghost text: seq<Byte>) returns (s: seq<Byte>)
    requires start + |text| < buffer.Length && buffer[start..start + |text| + 1] == text + [0]
    requires 0 !in text
    ensures s == text
  {
    s := [];
    var i := start;
    assert forall k :: 0 <= k <= |text| ==> buffer[start + k] == (text + [0])[k];
    while buffer[i] != 0
      invariant start <= i <= start + |text| && s == text[..i - start]
      decreases start + |text| - i
    {
      s := s + [buffer[i]];
      i := i + 1;
    }
  }

  const BUFFER_SIZE: nat := 25

  /** `valueToString` for signed numbers. */
  method SignedToString(v: int) returns (s: seq<Byte>)
    requires -TWO63 <= v < TWO63
    ensures s == Printed(v)
  {
    hide Digits;
    var buffer := new Byte[BUFFER_SIZE](_ => 0);
    var current;
    if v == -TWO63 {
      current := UintToString(TWO63 - 1 + 1, buffer, BUFFER_SIZE);
    } else if v < 0 {
      current := UintToString(-v, buffer, BUFFER_SIZE);
    } else {
      current := UintToString(v, buffer, BUFFER_SIZE);
    }
    ghost var digits := buffer[current..];
    assert digits == Digits(if v < 0 then -v else v) + [0];
    if v < 0 {
      current := current - 1;
      buffer[current] := MINUS;
      assert buffer[current..] == [MINUS] + digits;
    }
    assert buffer[current..] == Printed(v) + [0];
    assert buffer[current..current + |Printed(v)| + 1] == buffer[current..];
    s := TextAt(buffer, current, Printed(v));
  }

  /** `valueToString` for unsigned numbers. */
  method UnsignedToString(v: nat) returns (s: seq<Byte>)
    requires v < TWO64
    ensures s == Printed(v)
  {
    var buffer := new Byte[BUFFER_SIZE](_ => 0);
    var current := UintToString(v, buffer, BUFFER_SIZE);
    assert buffer[current..] == Printed(v) + [0];
    s := TextAt(buffer, current, Printed(v));
  }

  // ----- The reader -----

  /** A decoded number: signed or unsigned integer, or left to the reader of doubles. */
  datatype Number = Signed(value: int) | Unsigned(value: int) | Double

  predicate Negative(token: seq<Byte>) {
    |token| > 0 && token[0] == MINUS
  }

  function Magnitude(token: seq<Byte>): seq<Byte> {
    if Negative(token) then token[1..] else token
  }

  /** The token is an integer in the range from -2^63 to 2^64 - 1. */
  predicate Fits(token: seq<Byte>) {
    AllDigits(Magnitude(token)) && -TWO63 <= TokenValue(token) < TWO64
  }

  function TokenValue(token: seq<Byte>): int
    requires AllDigits(Magnitude(token))
  {
    if Negative(token) then 0 - ValueOf(Magnitude(token)) else ValueOf(Magnitude(token))
  }

  /** More digits never make a number smaller. */
  lemma {:induction false} PrefixIsSmaller(s: seq<Byte>, k: nat)
    requires AllDigits(s) && k <= |s|
    ensures ValueOf(s[..k]) <= ValueOf(s)
    ensures k < |s| ==> ValueOf(s[..k]) * 10 <= ValueOf(s)
    decreases |s| - k
  {
    if k < |s| {
      assert s[..k + 1][..k] == s[..k];
      PrefixIsSmaller(s, k + 1);
    } else {
      assert s[..k] == s;
    }
  }

  /** `Reader::decodeNumber`: a token takes the integer path exactly when its value
      fits, and then the value is right. */
  method DecodeNumber(token: seq<Byte>) returns (d: Number)
    ensures d.Double? <==> !Fits(token)
    ensures !d.Double? ==> AllDigits(Magnitude(token)) && d.value == TokenValue(token)
    ensures d.Signed? ==> -TWO63 <= d.value <= MAX_INT
    ensures d.Unsigned? ==> MAX_INT < d.value < TWO64
  {
    var negative := |token| > 0 && token[0] == MINUS;
    var digits := if negative then token[1..] else token;
    var max := if negative then TWO63 - 1 + 1 else TWO64 - 1;
    var threshold := max / 10;
    var value: nat := 0;
    var i := 0;
    while i < |digits|
      invariant 0 <= i <= |digits|
      invariant AllDigits(digits[..i]) && value == ValueOf(digits[..i]) <= max
    {
      var c := digits[i];
      i := i + 1;
      if c < ZERO || c > ZERO + 9 {
        assert !AllDigits(digits);
        return Double;
      }
      var digit := c - ZERO;
      assert digits[..i][..i - 1] == digits[..i - 1];
      assert AllDigits(digits[..i]) && ValueOf(digits[..i]) == value * 10 + digit;
      if value >= threshold {
        if value > threshold || i != |digits| || digit > max % 10 {
          if AllDigits(digits) { TooBig(digits, i, max); }
          return Double;
        }
      }
      value := value * 10 + digit;
    }
    assert digits[..i] == digits;
    if negative && value == max {
      d := Signed(-TWO63);
    } else if negative {
      d := Signed(0 - value);
    } else if value <= MAX_INT {
      d := Signed(value);
    } else {
      d := Unsigned(value);
    }
  }

  /** Where the reader gives up on the integer path, the number is too large for it. */
  lemma TooBig(s: seq<Byte>, i: nat, max: nat)
    requires AllDigits(s) && 0 < i <= |s| && max >= 10
    requires var v := ValueOf(s[..i - 1]);
      v >= max / 10 && (v > max / 10 || i != |s| || s[i - 1] - ZERO > max % 10)
    ensures ValueOf(s) > max
  {
    var v := ValueOf(s[..i - 1]);
    assert s[..i][..i - 1] == s[..i - 1];
    assert ValueOf(s[..i]) == v * 10 + (s[i - 1] - ZERO);
    PrefixIsSmaller(s, i);
  }

  // ----- The round trip -----

  /** Every number from -2^63 to 2^64 - 1 is read back from its text. */
  lemma NumbersRoundTrip(v: int)
    requires -TWO63 <= v < TWO64
    ensures Fits(Printed(v)) && TokenValue(Printed(v)) == v
  {
    ValueOfDigits(if v < 0 then -v else v);
    if v < 0 { assert Printed(v)[1..] == Digits(-v); }
  }
}

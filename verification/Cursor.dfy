/** Base64 with the URL alphabet and no padding, section 5 of RFC 4648, as the cursor codec uses it. */
module Base64Url {
  import opened Common

  type Byte = b: int | 0 <= b < 256

  type Digit = d: int | 0 <= d < 64

  function ToChar(d: Digit): char {
    if d < 26 then ('A' as int + d) as char
    else if d < 52 then ('a' as int + (d - 26)) as char
    else if d < 62 then ('0' as int + (d - 52)) as char
    else if d == 62 then '-' else '_'
  }

  function FromChar(c: char): Option<Digit> {
    if 'A' <= c <= 'Z' then Some(c as int - 'A' as int)
    else if 'a' <= c <= 'z' then Some(c as int - 'a' as int + 26)
    else if '0' <= c <= '9' then Some(c as int - '0' as int + 52)
    else if c == '-' then Some(62)
    else if c == '_' then Some(63)
    else None
  }

  /** The alphabet of the standard: A to Z, a to z, 0 to 9, then minus and underscore. */
  lemma AlphabetIsStandard(d: Digit)
    ensures ToChar(0) == 'A' && ToChar(25) == 'Z' && ToChar(26) == 'a' && ToChar(51) == 'z'
    ensures ToChar(52) == '0' && ToChar(61) == '9' && ToChar(62) == '-' && ToChar(63) == '_'
    ensures d < 61 && d != 25 && d != 51 ==> ToChar(d + 1) as int == ToChar(d) as int + 1
  {
  }

  /** Nothing outside the alphabet is a digit. */
  lemma OnlyTheAlphabet(c: char)
    ensures FromChar(c).Some? <==> 'A' <= c <= 'Z' || 'a' <= c <= 'z' || '0' <= c <= '9' || c == '-' || c == '_'
    ensures FromChar(c).Some? ==> ToChar(FromChar(c).value) == c
  {
  }

  lemma CharRoundTrip(d: Digit)
    ensures FromChar(ToChar(d)) == Some(d) && ToChar(d) != '\r' && ToChar(d) != '\n'
  {
  }

  /** Three bytes become four digits; one or two left over become two or three. */
  function Digits(bytes: seq<Byte>): (digits: seq<Digit>)
    ensures bytes != [] ==> digits != []
  {
    if |bytes| == 0 then []
    else if |bytes| == 1 then [bytes[0] / 4, bytes[0] % 4 * 16]
    else if |bytes| == 2 then [bytes[0] / 4, bytes[0] % 4 * 16 + bytes[1] / 16, bytes[1] % 16 * 4]
    else
      [bytes[0] / 4, bytes[0] % 4 * 16 + bytes[1] / 16, bytes[1] % 16 * 4 + bytes[2] / 64, bytes[2] % 64]
      + Digits(bytes[3..])
  }

  function First(a: Digit, b: Digit): Byte { a * 4 + b / 16 }

  function Second(b: Digit, c: Digit): Byte { b % 16 * 16 + c / 4 }

  function Third(c: Digit, d: Digit): Byte { c % 4 * 64 + d }

  /** A single digit left over is an error; surplus bits of the last digit are ignored. */
  function Bytes(digits: seq<Digit>): Option<seq<Byte>> {
    if |digits| == 0 then Some([])
    else if |digits| == 1 then None
    else if |digits| == 2 then Some([First(digits[0], digits[1])])
    else if |digits| == 3 then Some([First(digits[0], digits[1]), Second(digits[1], digits[2])])
    else
      var rest := Bytes(digits[4..]);
      if rest.None? then None
      else Some([First(digits[0], digits[1]), Second(digits[1], digits[2]), Third(digits[2], digits[3])] + rest.value)
  }

  lemma FirstBack(a: Byte, b: Byte)
    ensures First(a / 4, a % 4 * 16 + b / 16) == a
    ensures First(a / 4, a % 4 * 16) == a
  {
  }

  lemma SecondBack(a: Byte, b: Byte, c: Byte)
    ensures Second(a % 4 * 16 + b / 16, b % 16 * 4 + c / 64) == b
    ensures Second(a % 4 * 16 + b / 16, b % 16 * 4) == b
  {
  }

  lemma ThirdBack(b: Byte, c: Byte)
    ensures Third(b % 16 * 4 + c / 64, c % 64) == c
  {
  }

  lemma BytesOfTwo(a: Digit, b: Digit)
    ensures Bytes([a, b]) == Some([First(a, b)])
  {
  }

  lemma BytesOfThree(a: Digit, b: Digit, c: Digit)
    ensures Bytes([a, b, c]) == Some([First(a, b), Second(b, c)])
  {
  }

  lemma BytesOfFour(a: Digit, b: Digit, c: Digit, d: Digit, rest: seq<Digit>)
    requires Bytes(rest).Some?
    ensures Bytes([a, b, c, d] + rest) == Some([First(a, b), Second(b, c), Third(c, d)] + Bytes(rest).value)
  {
    assert ([a, b, c, d] + rest)[4..] == rest;
  }

  lemma OneByteRoundTrip(a: Byte)
    ensures Bytes(Digits([a])) == Some([a])
  {
    FirstBack(a, 0);
    BytesOfTwo(a / 4, a % 4 * 16);
  }

  lemma ThreeStandForTwo(w: Digit, x: Digit, y: Digit, a: Byte, b: Byte)
    requires First(w, x) == a && Second(x, y) == b
    ensures Bytes([w, x, y]) == Some([a, b])
  {
    BytesOfThree(w, x, y);
  }

  lemma TwoBytesRoundTrip(a: Byte, b: Byte)
    ensures Bytes(Digits([a, b])) == Some([a, b])
  {
    assert Digits([a, b]) == [a / 4, a % 4 * 16 + b / 16, b % 16 * 4];
    FirstBack(a, b);
    SecondBack(a, b, 0);
    ThreeStandForTwo(a / 4, a % 4 * 16 + b / 16, b % 16 * 4, a, b);
  }

  lemma DigitsOfThree(a: Byte, b: Byte, c: Byte, rest: seq<Byte>)
    ensures Digits([a, b, c] + rest) ==
            [a / 4, a % 4 * 16 + b / 16, b % 16 * 4 + c / 64, c % 64] + Digits(rest)
  {
    assert ([a, b, c] + rest)[3..] == rest;
  }

  /** Four digits that stand for three bytes, before digits that stand for the rest. */
  lemma FourStandForThree(w: Digit, x: Digit, y: Digit, z: Digit, a: Byte, b: Byte, c: Byte,
                          digits: seq<Digit>, rest: seq<Byte>)
    requires First(w, x) == a && Second(x, y) == b && Third(y, z) == c && Bytes(digits) == Some(rest)
    ensures Bytes([w, x, y, z] + digits) == Some([a, b, c] + rest)
  {
    BytesOfFour(w, x, y, z, digits);
  }

  lemma ThreeBytesRoundTrip(a: Byte, b: Byte, c: Byte, rest: seq<Byte>)
    requires Bytes(Digits(rest)) == Some(rest)
    ensures Bytes(Digits([a, b, c] + rest)) == Some([a, b, c] + rest)
  {
    FirstBack(a, b);
    SecondBack(a, b, c);
    ThirdBack(b, c);
    DigitsOfThree(a, b, c, rest);
    FourStandForThree(a / 4, a % 4 * 16 + b / 16, b % 16 * 4 + c / 64, c % 64, a, b, c, Digits(rest), rest);
  }

  lemma {:induction false} DigitsRoundTrip(bytes: seq<Byte>)
    ensures Bytes(Digits(bytes)) == Some(bytes)
  {
    if |bytes| == 1 {
      assert bytes == [bytes[0]];
      OneByteRoundTrip(bytes[0]);
    } else if |bytes| == 2 {
      assert bytes == [bytes[0], bytes[1]];
      TwoBytesRoundTrip(bytes[0], bytes[1]);
    } else if |bytes| > 2 {
      assert bytes == [bytes[0], bytes[1], bytes[2]] + bytes[3..];
      DigitsRoundTrip(bytes[3..]);
      ThreeBytesRoundTrip(bytes[0], bytes[1], bytes[2], bytes[3..]);
    }
  }

  function ToText(digits: seq<Digit>): string {
    seq(|digits|, i requires 0 <= i < |digits| => ToChar(digits[i]))
  }

  /** Line breaks are skipped; any other character outside the alphabet is an error. */
  function FromText(text: string): Option<seq<Digit>>
    decreases |text|
  {
    if text == "" then Some([]) else
    var n := |text| - 1;
    var front := FromText(text[..n]);
    if text[n] == '\r' || text[n] == '\n' then front
    else if front.None? || FromChar(text[n]).None? then None
    else Some(front.value + [FromChar(text[n]).value])
  }

  lemma {:induction false} TextRoundTrip(digits: seq<Digit>)
    ensures FromText(ToText(digits)) == Some(digits)
    decreases |digits|
  {
    if digits != [] {
      var n := |digits| - 1;
      assert ToText(digits)[..n] == ToText(digits[..n]);
      TextRoundTrip(digits[..n]);
      CharRoundTrip(digits[n]);
      assert digits == digits[..n] + [digits[n]];
    }
  }

  /** Line breaks may stand anywhere in a token. */
  lemma {:induction false} LineBreaksAreSkipped(a: string, c: char, b: string)
    requires c == '\r' || c == '\n'
    ensures FromText(a + [c] + b) == FromText(a + b)
    decreases |b|
  {
    if b == "" {
      assert (a + [c] + b)[..|a|] == a && a + b == a;
    } else {
      var n := |b| - 1;
      LineBreaksAreSkipped(a, c, b[..n]);
      assert (a + [c] + b)[..|a| + 1 + n] == a + [c] + b[..n] && (a + b)[..|a| + n] == a + b[..n];
    }
  }

  /** A text with any other character is refused. */
  lemma {:induction false} StrangersAreRefused(text: string, i: nat)
    requires i < |text| && FromChar(text[i]).None? && text[i] != '\r' && text[i] != '\n'
    ensures FromText(text).None?
    decreases |text|
  {
    if i < |text| - 1 {
      StrangersAreRefused(text[..|text| - 1], i);
    }
  }

  function Encode(bytes: seq<Byte>): string {
    ToText(Digits(bytes))
  }

  function Decode(text: string): Option<seq<Byte>> {
    var digits := FromText(text);
    if digits.None? then None else Bytes(digits.value)
  }

  /** Decoding what was encoded gives every byte string back. */
  lemma RoundTrip(bytes: seq<Byte>)
    ensures Decode(Encode(bytes)) == Some(bytes)
  {
    TextRoundTrip(Digits(bytes));
    DigitsRoundTrip(bytes);
  }
}

/** Decimal integers as they are printed and parsed, in bytes. */
module Decimal {
  import opened Common
  import opened Base64Url

  const MIN_INT64: int := -0x8000_0000_0000_0000
  const MAX_INT64: int := 0x7fff_ffff_ffff_ffff

  type Int64 = n: int | MIN_INT64 <= n <= MAX_INT64

  const ZERO: Byte := 48
  const MINUS: Byte := 45
  const PLUS: Byte := 43

  predicate IsDigit(b: Byte) {
    ZERO <= b <= ZERO + 9
  }

  function FormatNat(n: nat): (text: seq<Byte>)
    ensures text != [] && forall i :: 0 <= i < |text| ==> IsDigit(text[i])
  {
    if n < 10 then [ZERO + n] else FormatNat(n / 10) + [ZERO + n % 10]
  }

  function Format(n: int): seq<Byte> {
    if n < 0 then [MINUS] + FormatNat(-n) else FormatNat(n)
  }

  /** At least one digit and nothing else. */
  function ParseNat(text: seq<Byte>): Option<nat>
    decreases |text|
  {
    if text == [] || !IsDigit(text[|text| - 1]) then None
    else if |text| == 1 then Some(text[|text| - 1] - ZERO)
    else
      var front := ParseNat(text[..|text| - 1]);
      if front.None? then None else Some(front.value * 10 + (text[|text| - 1] - ZERO))
  }

  /** An optional sign, digits, and a value in range. */
  function ParseInt64(text: seq<Byte>): Option<Int64> {
    if text == [] then None
    else
      var signed := text[0] == MINUS || text[0] == PLUS;
      var magnitude := ParseNat(if signed then text[1..] else text);
      if magnitude.None? then None
      else
        var m: int := magnitude.value;
        var n := if text[0] == MINUS then -m else m;
        if MIN_INT64 <= n <= MAX_INT64 then Some(n) else None
  }

  lemma {:induction false} NatRoundTrip(n: nat)
    ensures ParseNat(FormatNat(n)) == Some(n)
  {
    if n >= 10 {
      NatRoundTrip(n / 10);
      var text := FormatNat(n);
      assert text[..|text| - 1] == FormatNat(n / 10);
    }
  }

  /** Numbers are printed without a leading zero, and with a sign only if they are negative. */
  lemma {:induction false} FormatIsPlain(n: int)
    requires n >= 0
    ensures FormatNat(n)[0] == ZERO ==> n == 0
    ensures n > 0 ==> Format(-n) == [MINUS] + FormatNat(n)
    ensures Format(n) == FormatNat(n) && FormatNat(0) == [ZERO]
  {
    if n >= 10 {
      FormatIsPlain(n / 10);
    }
  }

  /** A plus sign is read, although it is never written. */
  lemma PlusIsRead(n: nat)
    requires n <= MAX_INT64
    ensures ParseInt64([PLUS] + FormatNat(n)) == Some(n)
  {
    NatRoundTrip(n);
    assert ([PLUS] + FormatNat(n))[1..] == FormatNat(n);
  }

  /** What is out of range is refused. */
  lemma OutOfRangeIsRefused(n: int)
    requires n < MIN_INT64 || n > MAX_INT64
    ensures ParseInt64(Format(n)) == None
  {
    if n < 0 {
      NatRoundTrip(-n);
      assert Format(n)[1..] == FormatNat(-n);
    } else {
      NatRoundTrip(n);
      assert IsDigit(FormatNat(n)[0]);
    }
  }

  lemma Int64RoundTrip(n: Int64)
    ensures ParseInt64(Format(n)) == Some(n)
  {
    var m: int := n;
    if m < 0 {
      NatRoundTrip(-m);
      assert Format(m)[1..] == FormatNat(-m);
    } else {
      NatRoundTrip(m);
      assert IsDigit(FormatNat(m)[0]);
    }
  }
}

/** Cursor tokens: a timestamp and an id, printed, joined and encoded. */
module Cursor {
  import opened Common
  import opened Base64Url
  import opened Decimal

  const BAR: Byte := 124

  /** Timestamps are nanoseconds since the epoch, as a signed 64-bit integer. */
  type Nanos = Int64

  datatype Position = Position(time: Nanos, id: seq<Byte>)

  datatype CursorError = EmptyToken | InvalidEncoding | Malformed | InvalidTimestamp

  /** Timestamps of tokens from before the numeric format. */
  type LegacyParser = seq<Byte> -> Option<Nanos>

  function EncodeCursor(p: Position): string {
    Encode(Format(p.time) + [BAR] + p.id)
  }

  /** The position of the first bar, or the length. */
  function FirstBar(text: seq<Byte>): (i: nat)
    ensures i <= |text| && (i < |text| ==> text[i] == BAR) && forall k :: 0 <= k < i ==> text[k] != BAR
  {
    if text == [] || text[0] == BAR then 0 else 1 + FirstBar(text[1..])
  }

  function DecodeCursor(token: string, legacy: LegacyParser): Result<Position, CursorError> {
    if token == "" then Err(EmptyToken)
    else
      var decoded := Decode(token);
      if decoded.None? then Err(InvalidEncoding)
      else
        var bar := FirstBar(decoded.value);
        if bar == |decoded.value| then Err(Malformed)
        else
          var time, id := decoded.value[..bar], decoded.value[bar + 1..];
          if ParseInt64(time).Some? then Ok(Position(ParseInt64(time).value, id))
          else if legacy(time).Some? then Ok(Position(legacy(time).value, id))
          else Err(InvalidTimestamp)
  }

  lemma FormatHasNoBar(n: int)
    ensures BAR !in Format(n)
  {
  }

  /** The first bar of a payload is the one that was put in, whatever the id holds. */
  lemma BarOfPayload(time: seq<Byte>, id: seq<Byte>)
    requires BAR !in time
    ensures var text := time + [BAR] + id;
            FirstBar(text) == |time| && text[..|time|] == time && text[|time| + 1..] == id
  {
    var text := time + [BAR] + id;
    assert text[|time|] == BAR;
    assert forall k :: 0 <= k < |time| ==> text[k] == time[k];
  }

  /** Every position comes back from its token: any 64-bit time, any id, bars included. */
  lemma CursorRoundTrip(p: Position, legacy: LegacyParser)
    ensures EncodeCursor(p) != "" && DecodeCursor(EncodeCursor(p), legacy) == Ok(p)
  {
    var time := Format(p.time);
    RoundTrip(time + [BAR] + p.id);
    FormatHasNoBar(p.time);
    BarOfPayload(time, p.id);
    Int64RoundTrip(p.time);
  }

  /** What a token is taken for: each way to fail, and the two formats of the time. */
  lemma DecodeMeans(token: string, time: seq<Byte>, id: seq<Byte>, legacy: LegacyParser)
    ensures DecodeCursor("", legacy) == Err(EmptyToken)
    ensures token != "" && Decode(token).None? ==> DecodeCursor(token, legacy) == Err(InvalidEncoding)
    ensures BAR !in id ==> id != [] ==> DecodeCursor(Encode(id), legacy) == Err(Malformed)
    ensures BAR !in time ==>
              DecodeCursor(Encode(time + [BAR] + id), legacy) ==
              if ParseInt64(time).Some? then Ok(Position(ParseInt64(time).value, id))
              else if legacy(time).Some? then Ok(Position(legacy(time).value, id)) else Err(InvalidTimestamp)
  {
    RoundTrip(id);
    RoundTrip(time + [BAR] + id);
    if BAR !in id {
      assert FirstBar(id) == |id|;
    }
    if BAR !in time {
      BarOfPayload(time, id);
    }
  }

  /** Different positions have different tokens. */
  lemma CursorIsInjective(p: Position, q: Position)
    requires EncodeCursor(p) == EncodeCursor(q)
    ensures p == q
  {
    CursorRoundTrip(p, _ => None);
    CursorRoundTrip(q, _ => None);
  }
}

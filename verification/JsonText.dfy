/** JSON strings, numbers and timestamps as the JSONEachRow encoder writes them, on UTF-8 bytes,
    and a reader written from RFC 8259. */
module JsonText {
  import opened Arithmetic
  import opened Wire
  import opened Cells
  import opened Native
  import Decimal

  const QUOTE: byte := 34
  const BACKSLASH: byte := 92
  const COMMA: byte := 44
  const POINT: byte := 46
  const MINUS: byte := 45
  const NEWLINE: byte := 10

  /** No control character: nothing a line could be broken at. */
  predicate Printable(bs: Bytes) { forall i | 0 <= i < |bs| :: bs[i] >= 32 }

  // ----- strings

  function HexDigit(n: nat): (b: byte)
    requires n < 16
  {
    if n < 10 then 48 + n else 87 + n
  }

  function EscapeOne(b: byte): (bs: Bytes)
    ensures Printable(bs) && bs != []
  {
    if b == QUOTE || b == BACKSLASH then [BACKSLASH, b]
    else if b < 32 then [BACKSLASH, 117, 48, 48, HexDigit(b / 16), HexDigit(b % 16)]
    else [b]
  }

  function Escaped(s: Bytes): Bytes {
    if s == [] then [] else EscapeOne(s[0]) + Escaped(s[1..])
  }

  function JsonString(s: Text): Bytes { [QUOTE] + Escaped(s) + [QUOTE] }

  function HexValue(b: byte): Option<nat> {
    if 48 <= b < 58 then Some(b - 48)
    else if 97 <= b < 103 then Some(b - 87)
    else if 65 <= b < 71 then Some(b - 55)
    else None
  }

  /** The code unit after `\u`: section 7 of RFC 8259. */
  function Hex4(bs: Bytes): (u: Option<nat>)
    ensures u.Some? ==> |bs| >= 4 && u.value < 0x1_0000
  {
    if |bs| < 4 || HexValue(bs[0]).None? || HexValue(bs[1]).None? || HexValue(bs[2]).None? || HexValue(bs[3]).None?
      then None
    else
      assert HexValue(bs[0]).value < 16 && HexValue(bs[1]).value < 16 && HexValue(bs[2]).value < 16
        && HexValue(bs[3]).value < 16;
      Some(4096 * HexValue(bs[0]).value + 256 * HexValue(bs[1]).value
           + 16 * HexValue(bs[2]).value + HexValue(bs[3]).value)
  }

  function Utf8(c: nat): Bytes
    requires c < 0x11_0000
  {
    if c < 0x80 then [c]
    else if c < 0x800 then [0xc0 + c / 64, 0x80 + c % 64]
    else if c < 0x1_0000 then [0xe0 + c / 4096, 0x80 + c / 64 % 64, 0x80 + c % 64]
    else [0xf0 + c / 262144, 0x80 + c / 4096 % 64, 0x80 + c / 64 % 64, 0x80 + c % 64]
  }

  function ShortEscape(b: byte): Option<byte> {
    if b == QUOTE || b == BACKSLASH || b == 47 then Some(b)
    else if b == 98 then Some(8)
    else if b == 102 then Some(12)
    else if b == 110 then Some(10)
    else if b == 114 then Some(13)
    else if b == 116 then Some(9)
    else None
  }

  /** The character a `\u` escape names and how many bytes it took, a surrogate pair taking two. */
  function Unicode(bs: Bytes): (r: Option<(Bytes, nat)>)
    ensures r.Some? ==> 4 <= r.value.1 <= |bs|
  {
    var u := Hex4(bs);
    if u.None? then None
    else if !(0xd800 <= u.value < 0xe000) then Some((Utf8(u.value), 4))
    else if u.value >= 0xdc00 || |bs| < 10 || bs[4] != BACKSLASH || bs[5] != 117 then None
    else
      var v := Hex4(bs[6..]);
      if v.None? || !(0xdc00 <= v.value < 0xe000) then None
      else Some((Utf8(0x1_0000 + (u.value - 0xd800) * 1024 + (v.value - 0xdc00)), 10))
  }

  /** The rest of a string whose opening quote has been read. */
  function ReadChars(bs: Bytes): Parsed<Bytes>
    decreases |bs|
  {
    if bs == [] then Panic
    else if bs[0] == QUOTE then Got([], bs[1..])
    else if bs[0] < 32 then Panic
    else if bs[0] != BACKSLASH then
      var (more, rest) :- ReadChars(bs[1..]);
      Got([bs[0]] + more, rest)
    else if |bs| < 2 then Panic
    else if bs[1] == 117 then
      match Unicode(bs[2..])
      case None => Panic
      case Some((chars, n)) =>
        var (more, rest) :- ReadChars(bs[2 + n..]);
        Got(chars + more, rest)
    else
      match ShortEscape(bs[1])
      case None => Panic
      case Some(b) =>
        var (more, rest) :- ReadChars(bs[2..]);
        Got([b] + more, rest)
  }

  function ReadString(bs: Bytes): Parsed<Text> {
    if bs == [] || bs[0] != QUOTE then Panic
    else
      var (s, rest) :- ReadChars(bs[1..]);
      if |s| <= MAX_LEN then Got(s, rest) else Panic
  }

  lemma ControlRoundTrip(b: byte, rest: Bytes)
    requires b < 32
    ensures Unicode((EscapeOne(b) + rest)[2..]) == Some(([b], 4))
  {
    var bs := (EscapeOne(b) + rest)[2..];
    assert bs[0] == 48 && bs[1] == 48 && bs[2] == HexDigit(b / 16) && bs[3] == HexDigit(b % 16);
    assert HexValue(bs[2]) == Some(b / 16) && HexValue(bs[3]) == Some(b % 16);
  }

  lemma EscapeRoundTrip(b: byte, tail: Bytes, more: Bytes, rest: Bytes)
    requires ReadChars(tail) == Got(more, rest)
    ensures ReadChars(EscapeOne(b) + tail) == Got([b] + more, rest)
  {
    hide Unicode;
    var bs := EscapeOne(b) + tail;
    if b == QUOTE || b == BACKSLASH {
      assert bs[0] == BACKSLASH && bs[1] == b && bs[2..] == tail;
    } else if b < 32 {
      ControlRoundTrip(b, tail);
      assert bs[0] == BACKSLASH && bs[1] == 117 && bs[2 + 4..] == tail;
    } else {
      assert bs[0] == b && bs[1..] == tail;
    }
  }

  lemma {:induction false} CharsRoundTrip(s: Bytes, rest: Bytes)
    ensures ReadChars(Escaped(s) + ([QUOTE] + rest)) == Got(s, rest)
    decreases |s|
  {
    hide EscapeOne;
    var tail := [QUOTE] + rest;
    if s == [] {
      assert Escaped(s) + tail == tail && tail[1..] == rest;
    } else {
      CharsRoundTrip(s[1..], rest);
      Assoc(EscapeOne(s[0]), Escaped(s[1..]), tail);
      EscapeRoundTrip(s[0], Escaped(s[1..]) + tail, s[1..], rest);
      assert [s[0]] + s[1..] == s;
    }
  }

  /** Any string is read back from its escaped form, whatever follows. */
  lemma StringRoundTrip(s: Text, rest: Bytes)
    ensures ReadString(JsonString(s) + rest) == Got(s, rest)
  {
    hide Escaped, ReadChars;
    CharsRoundTrip(s, rest);
    var bs := JsonString(s) + rest;
    assert bs[0] == QUOTE && bs[1..] == Escaped(s) + ([QUOTE] + rest);
  }

  lemma {:induction false} EscapedIsPrintable(s: Bytes)
    ensures Printable(Escaped(s))
    decreases |s|
  {
    hide EscapeOne;
    if s != [] { EscapedIsPrintable(s[1..]); }
  }

  lemma StringIsPrintable(s: Text)
    ensures Printable(JsonString(s))
  {
    EscapedIsPrintable(s);
  }

  lemma {:induction false} EscapedGrows(s: Bytes, b: byte)
    ensures Escaped(s + [b]) == Escaped(s) + EscapeOne(b)
    decreases |s|
  {
    hide EscapeOne;
    if s == [] {
      assert s + [b] == [b] && [b][1..] == [];
      assert Escaped([b]) == EscapeOne(b) + [];
    } else {
      assert (s + [b])[1..] == s[1..] + [b];
      EscapedGrows(s[1..], b);
      Assoc(EscapeOne(s[0]), Escaped(s[1..]), EscapeOne(b));
    }
  }

  /** `push_json_string`. */
  method PushJsonString(out: Buffer, s: Text)
    modifies out
    ensures out.bytes == old(out.bytes) + JsonString(s)
  {
    hide Escaped;
    out.Push(QUOTE);
    ghost var start := out.bytes;
    NothingEscapes(s);
    for i := 0 to |s|
      invariant out.bytes == start + Escaped(s[..i])
    {
      EscapedGrows(s[..i], s[i]);
      assert s[..i + 1] == s[..i] + [s[i]];
      Assoc(start, Escaped(s[..i]), EscapeOne(s[i]));
      if s[i] == QUOTE {
        out.Extend([BACKSLASH, QUOTE]);
      } else if s[i] == BACKSLASH {
        out.Extend([BACKSLASH, BACKSLASH]);
      } else if s[i] < 32 {
        out.Extend([BACKSLASH, 117, 48, 48, HexDigit(s[i] / 16), HexDigit(s[i] % 16)]);
      } else {
        out.Push(s[i]);
      }
    }
    assert s[..|s|] == s;
    out.Push(QUOTE);
    StringGroups(old(out.bytes), Escaped(s));
  }

  lemma NothingEscapes(s: Bytes)
    ensures Escaped(s[..0]) == []
  {
  }

  lemma StringGroups(before: Bytes, escaped: Bytes)
    ensures before + [QUOTE] + escaped + [QUOTE] == before + ([QUOTE] + escaped + [QUOTE])
  {
  }

  // ----- integers

  function DigitCount(bs: Bytes): (n: nat)
    ensures n <= |bs| && (forall i | 0 <= i < n :: 48 <= bs[i] < 58) && (n < |bs| ==> !(48 <= bs[n] < 58))
  {
    if bs == [] || !(48 <= bs[0] < 58) then 0 else 1 + DigitCount(bs[1..])
  }

  function DigitsIn(bs: Bytes): (ds: seq<Decimal.digit>)
    requires forall i | 0 <= i < |bs| :: 48 <= bs[i] < 58
    ensures |ds| == |bs| && forall i | 0 <= i < |bs| :: ds[i] == bs[i] - 48
  {
    seq(|bs|, i requires 0 <= i < |bs| => bs[i] - 48)
  }

  function ReadDigits(bs: Bytes): Parsed<seq<Decimal.digit>> {
    var n := DigitCount(bs);
    if n == 0 then Panic else Got(DigitsIn(bs[..n]), bs[n..])
  }

  function JsonInt(v: int): Bytes {
    if v < 0 then [MINUS] + Numeral(Decimal.Digits(-v)) else Numeral(Decimal.Digits(v))
  }

  function ReadInt(bs: Bytes): Parsed<int> {
    if bs != [] && bs[0] == MINUS then
      var (ds, rest) :- ReadDigits(bs[1..]);
      var n: int := Decimal.ValueOf(ds);
      var v: int := 0 - n;
      Got(v, rest)
    else
      var (ds, rest) :- ReadDigits(bs);
      var v: int := Decimal.ValueOf(ds);
      Got(v, rest)
  }

  predicate Ends(rest: Bytes) { rest == [] || !(48 <= rest[0] < 58) }

  lemma DigitCountIs(bs: Bytes, n: nat)
    requires n <= |bs| && (forall i | 0 <= i < n :: 48 <= bs[i] < 58) && (n < |bs| ==> !(48 <= bs[n] < 58))
    ensures DigitCount(bs) == n
  {
  }

  lemma DigitsRoundTrip(ds: seq<Decimal.digit>, rest: Bytes)
    requires ds != [] && Ends(rest)
    ensures ReadDigits(Numeral(ds) + rest) == Got(ds, rest)
  {
    var bs := Numeral(ds) + rest;
    DigitCountIs(bs, |ds|);
    assert bs[..|ds|] == Numeral(ds) && bs[|ds|..] == rest;
    assert DigitsIn(Numeral(ds)) == ds;
  }

  lemma UnsignedRoundTrip(n: nat, rest: Bytes)
    requires Ends(rest)
    ensures ReadDigits(Numeral(Decimal.Digits(n)) + rest).Got?
    ensures var r := ReadDigits(Numeral(Decimal.Digits(n)) + rest); Decimal.ValueOf(r.value) == n && r.rest == rest
    ensures Numeral(Decimal.Digits(n)) != [] && Printable(Numeral(Decimal.Digits(n)))
        && Numeral(Decimal.Digits(n))[0] != MINUS
  {
    hide ReadDigits, Decimal.ValueOf, Decimal.Digits;
    DigitsRoundTrip(Decimal.Digits(n), rest);
    Decimal.ValueOfDigits(n);
  }

  lemma IntRoundTrip(v: int, rest: Bytes)
    requires Ends(rest)
    ensures ReadInt(JsonInt(v) + rest) == Got(v, rest)
    ensures Printable(JsonInt(v)) && JsonInt(v) != []
  {
    hide ReadDigits, Decimal.ValueOf, Decimal.Digits, Numeral;
    var n := if v < 0 then -v else v;
    var digits := Numeral(Decimal.Digits(n));
    UnsignedRoundTrip(n, rest);
    assert v < 0 ==> (JsonInt(v) + rest)[1..] == digits + rest;
  }

  // ----- timestamps

  /** The encoder panics on any other timestamp. */
  predicate HasTimestamp(ticks: I64, scale: U8) { 1 <= scale <= 9 && ticks >= 0 }

  function WholePart(ticks: nat, scale: U8): seq<Decimal.digit> {
    Decimal.Digits(Quotient(ticks, Decimal.Pow10(scale)))
  }

  function Fraction(ticks: nat, scale: U8): seq<Decimal.digit> {
    Decimal.Padded(scale, Remainder(ticks, Decimal.Pow10(scale)))
  }

  /** Epoch seconds with exactly `scale` fractional digits, quoted. */
  function JsonTimestamp(ticks: nat, scale: U8): Bytes {
    [QUOTE] + Numeral(WholePart(ticks, scale)) + [POINT] + Numeral(Fraction(ticks, scale)) + [QUOTE]
  }

  /** Deleting the point leaves a numeral of the ticks, and the fraction has exactly `scale` digits. */
  lemma PointRecoversTicks(ticks: nat, scale: U8)
    requires scale >= 1
    ensures Decimal.ValueOf(WholePart(ticks, scale) + Fraction(ticks, scale)) == ticks
    ensures |Fraction(ticks, scale)| == scale
  {
    hide Decimal.ValueOf, Decimal.Digits, Decimal.Pow10, Quotient, Remainder;
    var p := Decimal.Pow10(scale);
    var whole, part := Quotient(ticks, p), Remainder(ticks, p);
    QuotientAndRemainder(ticks, p);
    Decimal.DigitsFit(part, scale);
    Decimal.ValueOfAppend(Decimal.Digits(whole), Decimal.Padded(scale, part));
    Decimal.ValueOfDigits(whole);
    Decimal.ValueOfPadded(scale, part);
  }

  /** A `DateTime64` text reader: the digits on both sides of the point, taken together. */
  function ReadTimestamp(scale: U8, bs: Bytes): (r: Parsed<nat>) {
    if bs == [] || bs[0] != QUOTE then Panic
    else
      var (whole, r1) :- ReadDigits(bs[1..]);
      if r1 == [] || r1[0] != POINT then Panic
      else
        var (part, r2) :- ReadDigits(r1[1..]);
        if |part| != scale || r2 == [] || r2[0] != QUOTE then Panic
        else Got(Decimal.ValueOf(whole + part), r2[1..])
  }

  lemma TimestampRoundTrip(ticks: nat, scale: U8, rest: Bytes)
    requires scale >= 1
    ensures ReadTimestamp(scale, JsonTimestamp(ticks, scale) + rest) == Got(ticks, rest)
    ensures Printable(JsonTimestamp(ticks, scale))
  {
    hide ReadDigits, WholePart, Fraction, Decimal.ValueOf;
    var whole, part := WholePart(ticks, scale), Fraction(ticks, scale);
    PointRecoversTicks(ticks, scale);
    WholePartIsSome(ticks, scale);
    var bs := JsonTimestamp(ticks, scale) + rest;
    var tail := [QUOTE] + rest;
    var mid := [POINT] + (Numeral(part) + tail);
    TimestampParts(Numeral(whole), Numeral(part), rest);
    DigitsRoundTrip(whole, mid);
    DigitsRoundTrip(part, tail);
    assert mid[1..] == Numeral(part) + tail && tail[1..] == rest;
  }

  lemma WholePartIsSome(ticks: nat, scale: U8)
    ensures WholePart(ticks, scale) != []
  {
  }

  lemma TimestampParts(whole: Bytes, part: Bytes, rest: Bytes)
    ensures ([QUOTE] + whole + [POINT] + part + [QUOTE] + rest)[0] == QUOTE
    ensures ([QUOTE] + whole + [POINT] + part + [QUOTE] + rest)[1..] == whole + ([POINT] + (part + ([QUOTE] + rest)))
  {
    assert [QUOTE] + whole + [POINT] + part + [QUOTE] + rest
      == [QUOTE] + (whole + ([POINT] + (part + ([QUOTE] + rest))));
  }
}

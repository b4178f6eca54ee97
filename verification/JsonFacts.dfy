/** JSONEachRow byte for byte: quotes, escapes, brackets, commas and digits by number. */
module JsonFacts {
  import opened Wire
  import opened Cells
  import opened Native
  import opened JsonText
  import opened JsonRows
  import Decimal

  // ----- strings

  /** What stands for one byte: a quote and a backslash behind a backslash, a control character as \u00 and
      two lower-case hexadecimal digits, any other byte as it is. */
  function Spelled(b: byte): Bytes {
    if b == 34 then [92, 34]
    else if b == 92 then [92, 92]
    else if b < 32 then [92, 117, 48, 48, if b < 16 then 48 else 49, "0123456789abcdef"[b % 16] as byte]
    else [b]
  }

  function Inside(s: Bytes): Bytes { if s == [] then [] else Inside(s[..|s| - 1]) + Spelled(s[|s| - 1]) }

  function Quoted(s: Bytes): Bytes { [34] + Inside(s) + [34] }

  lemma OneIsSpelled(b: byte)
    ensures EscapeOne(b) == Spelled(b)
  {
  }

  lemma {:induction false} EscapedIsInside(s: Bytes)
    ensures Escaped(s) == Inside(s)
    decreases |s|
  {
    hide EscapeOne, Spelled;
    if s != [] {
      var n := |s| - 1;
      EscapedIsInside(s[..n]);
      EscapedGrows(s[..n], s[n]);
      OneIsSpelled(s[n]);
      assert s == s[..n] + [s[n]];
    }
  }

  lemma StringByText(s: Text)
    ensures JsonString(s) == Quoted(s)
  {
    EscapedIsInside(s);
  }

  // ----- the reader's other escapes

  /** The two-character escapes of section 7 of RFC 8259, and no others. */
  lemma ShortEscapesByText(b: byte)
    ensures ShortEscape(34) == Some(34) && ShortEscape(92) == Some(92) && ShortEscape(47) == Some(47)
    ensures ShortEscape(98) == Some(8) && ShortEscape(102) == Some(12) && ShortEscape(110) == Some(10)
    ensures ShortEscape(114) == Some(13) && ShortEscape(116) == Some(9)
    ensures ShortEscape(b).Some? ==> b in {34, 92, 47, 98, 102, 110, 114, 116}
  {
  }

  /** One byte below 2^7, two below 2^11, three below 2^16 and four above: a leading byte that says how many
      there are, and six bits in each of the others. */
  lemma Utf8ByBits(c: nat)
    requires c < 0x11_0000
    ensures c < 0x80 ==> Utf8(c) == [c]
    ensures 0x80 <= c < 0x800 ==> HasBytes(Utf8(c), c, 2, 0xc0, 0x20)
    ensures 0x800 <= c < 0x1_0000 ==> HasBytes(Utf8(c), c, 3, 0xe0, 0x10)
    ensures 0x1_0000 <= c ==> HasBytes(Utf8(c), c, 4, 0xf0, 8)
  {
    hide IsTrailing;
    SixBits(c);
    SixBits(c / 64);
    SixBits(c / 4096);
    assert c / 64 / 64 == c / 4096 && c / 4096 / 64 == c / 262144;
  }

  lemma SixBits(c: nat)
    ensures IsTrailing(0x80 + c % 64, c)
  {
  }

  /** The code point's bits, six in each byte behind the first. */
  predicate HasBytes(u: Bytes, c: nat, n: nat, tag: nat, room: nat) {
    && |u| == n >= 2
    && IsTrailing(u[n - 1], c) && (n > 2 ==> IsTrailing(u[n - 2], c / 64)) && (n > 3 ==> IsTrailing(u[n - 3], c / 4096))
    && IsLeading(u[0], tag, room, if n == 2 then c / 64 else if n == 3 then c / 4096 else c / 262144)
  }

  /** A leading byte of the given tag with all that is left of the code point. */
  predicate IsLeading(b: byte, tag: nat, room: nat, c: nat) { c < room && b as int == tag + c }

  predicate IsTrailing(b: byte, c: nat) { 0x80 <= b < 0xc0 && (c as int - (b as int - 0x80)) % 64 == 0 }

  /** `\u` with four hexadecimal digits of either case, and with a pair of surrogates. */
  lemma UnicodeByText(rest: Bytes)
    ensures Unicode([48, 48, 69, 57] + rest) == Unicode([48, 48, 101, 57] + rest) == Some(([0xc3, 0xa9], 4))
    ensures Unicode([50, 48, 65, 67] + rest) == Some(([0xe2, 0x82, 0xac], 4))
  {
    assert Utf8(0xe9) == [0xc3, 0xa9] && Utf8(0x20ac) == [0xe2, 0x82, 0xac];
  }

  lemma SurrogatesByText(rest: Bytes)
    ensures Unicode([100, 56, 51, 100, 92, 117, 100, 101, 48, 48] + rest) == Some(([0xf0, 0x9f, 0x98, 0x80], 10))
  {
    var bs := [100, 56, 51, 100, 92, 117, 100, 101, 48, 48] + rest;
    assert Hex4(bs) == Some(0xd83d);
    assert bs[6] == 100 && bs[7] == 101 && bs[8] == 48 && bs[9] == 48;
    assert Hex4(bs[6..]) == Some(0xde00);
    assert Utf8(0x1_f600) == [0xf0, 0x9f, 0x98, 0x80];
  }

  // ----- numbers

  predicate AreDigits(bs: Bytes) { forall i | 0 <= i < |bs| :: 48 <= bs[i] <= 57 }

  function Worth(bs: Bytes): int { if bs == [] then 0 else 10 * Worth(bs[..|bs| - 1]) + bs[|bs| - 1] as int - 48 }

  /** Decimal digits without a zero in front. */
  predicate SpellsNat(bs: Bytes, n: int) {
    bs != [] && AreDigits(bs) && Worth(bs) == n && (|bs| > 1 ==> bs[0] != 48)
  }

  predicate SpellsInt(bs: Bytes, v: int) {
    if v < 0 then bs != [] && bs[0] == 45 && SpellsNat(bs[1..], -v) else SpellsNat(bs, v)
  }

  lemma {:induction false} DigitsAreWorth(ds: seq<Decimal.digit>)
    ensures AreDigits(Numeral(ds)) && Worth(Numeral(ds)) == Decimal.ValueOf(ds)
    decreases |ds|
  {
    if ds != [] {
      var n := |ds| - 1;
      DigitsAreWorth(ds[..n]);
      assert Numeral(ds)[..n] == Numeral(ds[..n]);
    }
  }

  lemma NatByText(n: nat)
    ensures SpellsNat(Numeral(Decimal.Digits(n)), n)
  {
    DigitsAreWorth(Decimal.Digits(n));
    Decimal.ValueOfDigits(n);
  }

  lemma IntByText(v: int)
    ensures SpellsInt(JsonInt(v), v)
  {
    hide SpellsNat;
    NatByText(if v < 0 then -v else v);
    if v < 0 {
      assert JsonInt(v)[1..] == Numeral(Decimal.Digits(-v));
    }
  }

  /** Epoch seconds, a point and `scale` digits, between quotes; without the point the digits are the ticks. */
  predicate SpellsTimestamp(bs: Bytes, ticks: int, scale: nat) {
    |bs| >= scale + 4
    && (var point := |bs| - 2 - scale;
        && bs[0] == 34 && bs[point] == 46 && bs[|bs| - 1] == 34
        && AreDigits(bs[1..point]) && (point > 2 ==> bs[1] != 48) && AreDigits(bs[point + 1..|bs| - 1])
        && Worth(bs[1..point] + bs[point + 1..|bs| - 1]) == ticks)
  }

  lemma TimestampByText(ticks: nat, scale: U8)
    requires scale >= 1
    ensures SpellsTimestamp(JsonTimestamp(ticks, scale), ticks, scale)
  {
    hide Fraction, Decimal.ValueOf, Worth, Decimal.Digits;
    var whole, part := WholePart(ticks, scale), Fraction(ticks, scale);
    PointRecoversTicks(ticks, scale);
    DigitsAreWorth(whole);
    DigitsAreWorth(part);
    DigitsAreWorth(whole + part);
    assert Numeral(whole + part) == Numeral(whole) + Numeral(part);
    var bs := JsonTimestamp(ticks, scale);
    assert bs[1..|whole| + 1] == Numeral(whole) && bs[|whole| + 2..|bs| - 1] == Numeral(part);
  }

  /** The patterns of infinities and NaNs, of either sign, are the ones that have no text. */
  lemma FiniteByNumber(v: F64)
    ensures !Finite(v) <==> 0x7ff0_0000_0000_0000 <= v < 0x8000_0000_0000_0000 || v >= 0xfff0_0000_0000_0000
  {
    var exponent := v / 0x10_0000_0000_0000;
    assert exponent < 0x1000;
    assert exponent % 0x800 == 0x7ff <==> exponent == 0x7ff || exponent == 0xfff;
  }

  // ----- lists

  /** One after another, commas between them. */
  function Listed(parts: seq<Bytes>): Bytes {
    if parts == [] then []
    else if |parts| == 1 then parts[0]
    else parts[0] + [44] + Listed(parts[1..])
  }

  function AllQuoted(tags: seq<Text>): (parts: seq<Bytes>)
    ensures |parts| == |tags|
  {
    seq(|tags|, i requires 0 <= i < |tags| => Quoted(tags[i]))
  }

  lemma {:induction false} TailIsListed(tags: seq<Text>)
    requires tags != []
    ensures JsonString(tags[0]) + JsonArrayTail(tags[1..]) == Listed(AllQuoted(tags)) + [93]
    decreases |tags|
  {
    hide Quoted, JsonString;
    StringByText(tags[0]);
    var parts := AllQuoted(tags);
    if |tags| > 1 {
      TailIsListed(tags[1..]);
      assert parts[1..] == AllQuoted(tags[1..]);
      assert JsonArrayTail(tags[1..]) == [44] + JsonString(tags[1..][0]) + JsonArrayTail(tags[1..][1..]);
      Assoc([44], JsonString(tags[1]), JsonArrayTail(tags[1..][1..]));
      CommaBetween(parts[0], Listed(parts[1..]), [93]);
    }
  }

  lemma CommaBetween(a: Bytes, b: Bytes, c: Bytes)
    ensures a + ([44] + (b + c)) == a + [44] + b + c
  {
  }

  lemma ArrayByText(tags: seq<Text>)
    ensures JsonArray(tags) == [91] + Listed(AllQuoted(tags)) + [93]
  {
    hide Quoted, JsonString;
    if tags == [] {
      assert AllQuoted(tags) == [];
    } else {
      TailIsListed(tags);
      Assoc([91], JsonString(tags[0]), JsonArrayTail(tags[1..]));
      Assoc([91], Listed(AllQuoted(tags)), [93]);
    }
  }

  // ----- cells, rows and blocks

  /** Bare integers, quoted strings and timestamps, `null` for a missing figure, arrays between brackets. */
  predicate SpellsCell(f: Floats, bs: Bytes, c: Cell) {
    match c
    case UInt64(v) => SpellsInt(bs, v)
    case UInt16(v) => SpellsInt(bs, v)
    case Int64(v) => SpellsInt(bs, v)
    case LowCardString(s) => bs == Quoted(s)
    case NullableFloat64(None) => bs == Ascii("null")
    case NullableFloat64(Some(v)) => bs == f.show(v)
    case LowCardStringArray(tags) => bs == [91] + Listed(AllQuoted(tags)) + [93]
    case DateTime64(ticks, scale) => SpellsTimestamp(bs, ticks, scale)
  }

  lemma CellByText(f: Floats, c: Cell)
    requires Writable(c)
    ensures SpellsCell(f, JsonCell(f, c), c)
  {
    hide SpellsInt, SpellsTimestamp, JsonInt, JsonString, JsonArray, JsonTimestamp, Quoted, Listed;
    match c
    case UInt64(v) => IntByText(v);
    case UInt16(v) => IntByText(v);
    case Int64(v) => IntByText(v);
    case LowCardString(s) => StringByText(s);
    case NullableFloat64(_) =>
    case LowCardStringArray(tags) => ArrayByText(tags);
    case DateTime64(ticks, scale) => TimestampByText(ticks, scale);
  }

  /** The fields of an object: quoted name, colon, value. */
  function Members(f: Floats, names: seq<Text>, row: Row): (parts: seq<Bytes>)
    requires RowWritable(names, row)
    ensures |parts| == |row|
  {
    seq(|row|, j requires 0 <= j < |row| => Quoted(names[j]) + [58] + JsonCell(f, row[j]))
  }

  lemma {:induction false} FieldsAreListed(f: Floats, names: seq<Text>, row: Row, j: nat)
    requires RowWritable(names, row) && j <= |row|
    ensures Fields(f, names, row, j)
         == (if 0 < j < |row| then [44] else []) + (Listed(Members(f, names, row)[j..]) + [125])
    decreases |row| - j
  {
    hide Quoted, JsonCell, JsonString, Writable;
    var parts := Members(f, names, row);
    if j == |row| {
      assert parts[j..] == [];
    } else {
      FieldsAreListed(f, names, row, j + 1);
      StringByText(names[j]);
      var comma: Bytes := if j > 0 then [44] else [];
      assert parts[j..][1..] == parts[j + 1..];
      MemberParts(comma, Quoted(names[j]), JsonCell(f, row[j]), Fields(f, names, row, j + 1));
      if j + 1 < |row| {
        CommaBetween(parts[j], Listed(parts[j + 1..]), [125]);
      }
    }
  }

  lemma MemberParts(comma: Bytes, name: Bytes, value: Bytes, rest: Bytes)
    ensures comma + name + [58] + value + rest == comma + (name + [58] + value + rest)
    ensures [] + rest == rest
  {
  }

  /** A line is its members between braces. */
  lemma RowByText(f: Floats, names: seq<Text>, row: Row)
    requires RowWritable(names, row)
    ensures JsonRow(f, names, row) == [123] + Listed(Members(f, names, row)) + [125]
  {
    hide Fields, Members, Listed;
    FieldsAreListed(f, names, row, 0);
    var parts := Members(f, names, row);
    assert parts[0..] == parts;
    MemberParts([], [], [], Listed(parts) + [125]);
    Assoc([123], Listed(parts), [125]);
  }

  /** A block is its lines, each behind the one before and ended by a newline. */
  lemma {:induction false} BlockByText(f: Floats, names: seq<Text>, rows: seq<Row>)
    requires forall i | 0 <= i < |rows| :: RowWritable(names, rows[i])
    ensures JsonBlock(f, names, rows)
         == Each(line => line + [10], seq(|rows|, i requires 0 <= i < |rows| => JsonRow(f, names, rows[i])))
    decreases |rows|
  {
    hide JsonRow, RowWritable;
    var lines := seq(|rows|, i requires 0 <= i < |rows| => JsonRow(f, names, rows[i]));
    if rows != [] {
      BlockByText(f, names, rows[1..]);
      assert lines[1..] == seq(|rows[1..]|, i requires 0 <= i < |rows[1..]| => JsonRow(f, names, rows[1..][i]));
      Assoc(lines[0], [10], JsonBlock(f, names, rows[1..]));
    }
  }
}

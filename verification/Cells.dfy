/** Typed cells and the ClickHouse column types they declare. */
module Cells {
  import opened Wire
  import Decimal

  /** An f64 is its eight-byte pattern. */
  type F64 = b: nat | b < U64 witness 0
  type U8 = n: nat | n < 256 witness 0
  type U16 = n: nat | n < 0x1_0000 witness 0
  type U64Int = n: nat | n < U64 witness 0

  datatype Cell =
    | UInt64(u64: U64Int)
    | UInt16(u16: U16)
    | Int64(i64: I64)
    | LowCardString(text: Text)
    | NullableFloat64(quality: Option<F64>)
    | LowCardStringArray(tags: seq<Text>)
    | DateTime64(ticks: I64, scale: U8)

  datatype ColType = TUInt64 | TUInt16 | TInt64 | TLowCard | TNullableFloat64 | TLowCardArray | TDateTime64(scale: U8)

  /** The column a cell can be appended to: its type without the DateTime64 scale. */
  datatype Shape = Shape64 | Shape16 | ShapeI64 | ShapeLowCard | ShapeNullable | ShapeArray | ShapeDateTime

  function TypeOf(c: Cell): ColType {
    match c
    case UInt64(_) => TUInt64
    case UInt16(_) => TUInt16
    case Int64(_) => TInt64
    case LowCardString(_) => TLowCard
    case NullableFloat64(_) => TNullableFloat64
    case LowCardStringArray(_) => TLowCardArray
    case DateTime64(_, scale) => TDateTime64(scale)
  }

  function ShapeOfType(t: ColType): Shape {
    match t
    case TUInt64 => Shape64
    case TUInt16 => Shape16
    case TInt64 => ShapeI64
    case TLowCard => ShapeLowCard
    case TNullableFloat64 => ShapeNullable
    case TLowCardArray => ShapeArray
    case TDateTime64(_) => ShapeDateTime
  }

  function ShapeOf(c: Cell): Shape { ShapeOfType(TypeOf(c)) }

  // ----- the spelling of a type in a block header

  function Ascii(s: string): (t: seq<byte>)
    requires forall i | 0 <= i < |s| :: s[i] < 128 as char
    ensures |t| == |s| && forall i | 0 <= i < |s| :: t[i] == s[i] as int
  {
    seq(|s|, i requires 0 <= i < |s| => s[i] as int)
  }

  function Numeral(ds: seq<Decimal.digit>): (t: seq<byte>)
    ensures |t| == |ds| && forall i | 0 <= i < |ds| :: t[i] == 48 + ds[i] as int
  {
    seq(|ds|, i requires 0 <= i < |ds| => 48 + ds[i] as int)
  }

  function TypeName(t: ColType): seq<byte> {
    match t
    case TUInt64 => Ascii("UInt64")
    case TUInt16 => Ascii("UInt16")
    case TInt64 => Ascii("Int64")
    case TLowCard => Ascii("LowCardinality(String)")
    case TNullableFloat64 => Ascii("Nullable(Float64)")
    case TLowCardArray => Ascii("Array(LowCardinality(String))")
    case TDateTime64(scale) => Ascii("DateTime64(") + Numeral(Decimal.Digits(scale)) + Ascii(")")
  }

  /** str::trim_start_matches: every leading repetition of the pattern goes. */
  function TrimStart(pat: seq<byte>, s: seq<byte>): seq<byte>
    requires pat != []
    decreases |s|
  {
    if pat <= s then TrimStart(pat, s[|pat|..]) else s
  }

  function TrimEnd(c: byte, s: seq<byte>): seq<byte> {
    if s != [] && s[|s| - 1] == c then TrimEnd(c, s[..|s| - 1]) else s
  }

  /** u8::from_str: an optional plus sign, then decimal digits that do not overflow. */
  function ParseU8(s: seq<byte>): Option<U8> {
    var d := if s != [] && s[0] == '+' as int then s[1..] else s;
    if d == [] || exists i | 0 <= i < |d| :: !(48 <= d[i] < 58) then None
    else
      var v := Decimal.ValueOf(seq(|d|, i requires 0 <= i < |d| => d[i] - 48));
      if v < 256 then Some(v) else None
  }

  function FixedType(ty: seq<byte>): Option<ColType> {
    if ty == Ascii("UInt64") then Some(TUInt64)
    else if ty == Ascii("UInt16") then Some(TUInt16)
    else if ty == Ascii("Int64") then Some(TInt64)
    else if ty == Ascii("Nullable(Float64)") then Some(TNullableFloat64)
    else if ty == Ascii("LowCardinality(String)") then Some(TLowCard)
    else if ty == Ascii("Array(LowCardinality(String))") then Some(TLowCardArray)
    else None
  }

  function ScaledType(open: seq<byte>, ty: seq<byte>): Option<ColType>
    requires open != []
  {
    if open <= ty then
      match ParseU8(TrimEnd(')' as int, TrimStart(open, ty)))
      case Some(scale) => Some(TDateTime64(scale))
      case None => None
    else None
  }

  /** The types the reference decoder knows; None is where it panics. */
  function ParseType(ty: seq<byte>): Option<ColType> {
    var fixed := FixedType(ty);
    if fixed.Some? then fixed else ScaledType(Ascii("DateTime64("), ty)
  }

  lemma ParseU8Numeral(n: U8)
    ensures ParseU8(Numeral(Decimal.Digits(n))) == Some(n)
  {
    var ds := Decimal.Digits(n);
    var d := Numeral(ds);
    assert d[0] != '+' as int;
    assert seq(|d|, i requires 0 <= i < |d| => d[i] - 48) == ds;
    Decimal.ValueOfDigits(n);
  }

  /** Trimming the DateTime64 spelling leaves its scale. */
  lemma ScaleOfName(open: seq<byte>, n: seq<byte>, close: seq<byte>)
    requires open != [] && n != [] && open[0] == 'D' as int && close == [')' as int]
    requires n[0] != 'D' as int && n[|n| - 1] != ')' as int
    ensures TrimEnd(')' as int, TrimStart(open, open + n + close)) == n
  {
    var ty, tail := open + n + close, n + close;
    assert ty[|open|..] == tail;
    assert !(open <= tail) by { assert tail[0] != open[0]; }
    assert TrimStart(open, ty) == TrimStart(open, tail) == tail;
    assert tail[..|tail| - 1] == n;
    assert TrimEnd(')' as int, tail) == TrimEnd(')' as int, n) == n;
  }

  lemma NoFixedTypeStartsWithD(ty: seq<byte>)
    requires ty != [] && ty[0] == 'D' as int
    ensures FixedType(ty) == None
  {
    assert Ascii("UInt64")[0] == Ascii("UInt16")[0] == 'U' as int && Ascii("Int64")[0] == 'I' as int;
    assert Ascii("Nullable(Float64)")[0] == 'N' as int && Ascii("LowCardinality(String)")[0] == 'L' as int;
    assert Ascii("Array(LowCardinality(String))")[0] == 'A' as int;
  }

  lemma ScaledNameParses(open: seq<byte>, close: seq<byte>, scale: U8)
    requires open != [] && open[0] == 'D' as int && close == [')' as int]
    ensures ScaledType(open, open + Numeral(Decimal.Digits(scale)) + close) == Some(TDateTime64(scale))
  {
    var n := Numeral(Decimal.Digits(scale));
    ScaleOfName(open, n, close);
    ParseU8Numeral(scale);
    assert open <= open + n + close;
  }

  lemma LooseScaled(open: seq<byte>, scale: U8)
    requires open != [] && open[0] == 'D' as int
    ensures var digits := Numeral(Decimal.Digits(scale));
      && ScaledType(open, open + ([43] + digits) + [41]) == Some(TDateTime64(scale))
      && ScaledType(open, open + (open + digits)) == Some(TDateTime64(scale))
  {
    hide TrimStart, TrimEnd;
    var digits := Numeral(Decimal.Digits(scale));
    ParseU8Numeral(scale);
    ScaleOfName(open, [43] + digits, [41]);
    assert ([43] + digits)[1..] == digits;
    TwiceTrimmed(open, digits);
    assert open <= open + ([43] + digits) + [41] && open <= open + (open + digits);
  }

  lemma OnlyScaledStartWithD(ty: seq<byte>)
    requires ty != [] && ty[0] == 'D' as int
    ensures ParseType(ty) == ScaledType(Ascii("DateTime64("), ty)
  {
    hide FixedType, ScaledType, Ascii;
    NoFixedTypeStartsWithD(ty);
  }

  /** The decoder takes a plus sign in front of a scale, and openings and closings too many or too few. */
  lemma LooseScalesParse(scale: U8)
    ensures var open, digits := Ascii("DateTime64("), Numeral(Decimal.Digits(scale));
      && ParseType(open + ([43] + digits) + [41]) == Some(TDateTime64(scale))
      && ParseType(open + (open + digits)) == Some(TDateTime64(scale))
  {
    hide ParseType, ScaledType;
    var open, digits := Ascii("DateTime64("), Numeral(Decimal.Digits(scale));
    LooseScaled(open, scale);
    OnlyScaledStartWithD(open + ([43] + digits) + [41]);
    OnlyScaledStartWithD(open + (open + digits));
  }

  lemma TwiceTrimmed(open: seq<byte>, n: seq<byte>)
    requires open != [] && open[0] == 'D' as int && n != [] && n[0] != 'D' as int && n[|n| - 1] != ')' as int
    ensures TrimEnd(')' as int, TrimStart(open, open + (open + n))) == n
  {
    var twice := open + (open + n);
    assert twice[|open|..] == open + n && (open + n)[|open|..] == n;
    assert !(open <= n);
    assert TrimStart(open, twice) == TrimStart(open, open + n) == TrimStart(open, n) == n;
  }

  lemma DateTimeNameParses(scale: U8)
    ensures ParseType(TypeName(TDateTime64(scale))) == Some(TDateTime64(scale))
  {
    var open, close := Ascii("DateTime64("), Ascii(")");
    assert open[0] == 'D' as int && close == [')' as int];
    var ty := open + Numeral(Decimal.Digits(scale)) + close;
    assert ty[0] == open[0];
    ScaledNameParses(open, close, scale);
    NoFixedTypeStartsWithD(ty);
    assert TypeName(TDateTime64(scale)) == ty;
  }

  /** The spelling a cell claims is the spelling the decoder reads back as its type. */
  lemma TypeNameParses(t: ColType)
    ensures ParseType(TypeName(t)) == Some(t)
  {
    match t
    case TUInt64 =>
    case TUInt16 => assert Ascii("UInt16")[4] != Ascii("UInt64")[4];
    case TInt64 => assert |Ascii("Int64")| == 5;
    case TLowCard => assert |Ascii("LowCardinality(String)")| == 22;
    case TNullableFloat64 => assert |Ascii("Nullable(Float64)")| == 17;
    case TLowCardArray => assert |Ascii("Array(LowCardinality(String))")| == 29;
    case TDateTime64(scale) => DateTimeNameParses(scale);
  }
}

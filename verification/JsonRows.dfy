/** JSONEachRow: one object a line, one line a row. */
module JsonRows {
  import opened Wire
  import opened Cells
  import opened Native
  import opened JsonText
  import opened NativeDecoder
  import opened RowBinary

  /** How floats print and read: `Display` gives the shortest decimal that parses to the same bits. */
  datatype Floats = Floats(show: F64 -> Bytes, parse: Bytes -> Option<F64>) {
    ghost predicate Faithful() {
      forall v: F64 | Finite(v) :: IsToken(show(v)) && parse(show(v)) == Some(v)
    }
  }

  /** The exponent is not all ones. */
  predicate Finite(v: F64) { v / 0x10_0000_0000_0000 % 0x800 != 0x7ff }

  predicate IsNumberByte(b: byte) { 48 <= b < 58 || b == MINUS || b == POINT || b == 43 || b == 69 || b == 101 }

  predicate IsToken(bs: Bytes) { bs != [] && forall i | 0 <= i < |bs| :: IsNumberByte(bs[i]) }

  function TokenEnd(bs: Bytes): (n: nat)
    ensures n <= |bs|
  {
    if bs == [] || !IsNumberByte(bs[0]) then 0 else 1 + TokenEnd(bs[1..])
  }

  /** What the encoder does not panic on, and memory allows. */
  predicate Writable(c: Cell) {
    && Small(c)
    && (c.NullableFloat64? && c.quality.Some? ==> Finite(c.quality.value))
    && (c.DateTime64? ==> HasTimestamp(c.ticks, c.scale))
  }

  function JsonArrayTail(tags: seq<Text>): Bytes {
    if tags == [] then [93] else [COMMA] + JsonString(tags[0]) + JsonArrayTail(tags[1..])
  }

  function JsonArray(tags: seq<Text>): Bytes {
    if tags == [] then [91, 93] else [91] + JsonString(tags[0]) + JsonArrayTail(tags[1..])
  }

  const NULL: Bytes := [110, 117, 108, 108]

  function JsonCell(f: Floats, c: Cell): Bytes
    requires Writable(c)
  {
    match c
    case UInt64(v) => JsonInt(v)
    case UInt16(v) => JsonInt(v)
    case Int64(v) => JsonInt(v)
    case LowCardString(s) => JsonString(s)
    case NullableFloat64(None) => NULL
    case NullableFloat64(Some(v)) => f.show(v)
    case LowCardStringArray(tags) => JsonArray(tags)
    case DateTime64(ticks, scale) => JsonTimestamp(ticks, scale)
  }

  // ----- the reader

  function ReadTags(bs: Bytes): Parsed<seq<Text>>
    decreases |bs|
  {
    if bs == [] then Panic
    else if bs[0] == 93 then Got([], bs[1..])
    else if bs[0] != COMMA then Panic
    else
      var (s, rest) :- ReadString(bs[1..]);
      if |rest| >= |bs| then Panic
      else
        var (more, end) :- ReadTags(rest);
        Got([s] + more, end)
  }

  function ReadArray(bs: Bytes): Parsed<seq<Text>> {
    if |bs| < 2 || bs[0] != 91 then Panic
    else if bs[1] == 93 then Got([], bs[2..])
    else
      var (s, rest) :- ReadString(bs[1..]);
      var (more, end) :- ReadTags(rest);
      Got([s] + more, end)
  }

  /** A reader of one value for each column type. */
  function ReadJsonCell(f: Floats, t: ColType, bs: Bytes): Parsed<Cell> {
    match t
    case TUInt64 => (var (v, r) :- ReadInt(bs); if 0 <= v < U64 then Got(UInt64(v), r) else Panic)
    case TUInt16 => (var (v, r) :- ReadInt(bs); if 0 <= v < 0x1_0000 then Got(UInt16(v), r) else Panic)
    case TInt64 =>
      (var (v, r) :- ReadInt(bs);
       if -0x8000_0000_0000_0000 <= v < 0x8000_0000_0000_0000 then Got(Int64(v), r) else Panic)
    case TLowCard => (var (s, r) :- ReadString(bs); Got(LowCardString(s), r))
    case TNullableFloat64 =>
      if NULL <= bs then Got(NullableFloat64(None), bs[4..])
      else
        (match f.parse(bs[..TokenEnd(bs)])
         case None => Panic
         case Some(v) => Got(NullableFloat64(Some(v)), bs[TokenEnd(bs)..]))
    case TLowCardArray => (var (tags, r) :- ReadArray(bs); Got(LowCardStringArray(tags), r))
    case TDateTime64(scale) =>
      (var (ticks, r) :- ReadTimestamp(scale, bs);
       if ticks < 0x8000_0000_0000_0000 then Got(DateTime64(ticks, scale), r) else Panic)
  }

  /** What follows a value: a comma or the end of the object. */
  predicate Follows(rest: Bytes) { rest != [] && (rest[0] == COMMA || rest[0] == 125) }

  lemma {:induction false} TagsRoundTrip(tags: seq<Text>, rest: Bytes)
    ensures ReadTags(JsonArrayTail(tags) + rest) == Got(tags, rest)
    decreases |tags|
  {
    hide JsonString, ReadString;
    if tags == [] {
      assert ([93] + rest)[1..] == rest;
    } else {
      var bs, after := JsonArrayTail(tags) + rest, JsonArrayTail(tags[1..]) + rest;
      TagsRoundTrip(tags[1..], rest);
      StringRoundTrip(tags[0], after);
      CommaFirst(JsonString(tags[0]), JsonArrayTail(tags[1..]), rest);
      assert [tags[0]] + tags[1..] == tags;
    }
  }

  lemma CommaFirst(s: Bytes, tail: Bytes, rest: Bytes)
    ensures var bs := [COMMA] + s + tail + rest; bs[0] == COMMA && bs[1..] == s + (tail + rest)
  {
  }

  lemma ArrayRoundTrip(tags: seq<Text>, rest: Bytes)
    ensures ReadArray(JsonArray(tags) + rest) == Got(tags, rest)
  {
    hide ReadString, ReadTags, JsonArrayTail, Escaped;
    var bs := JsonArray(tags) + rest;
    if tags == [] {
      assert bs[2..] == rest;
    } else {
      var after := JsonArrayTail(tags[1..]) + rest;
      TagsRoundTrip(tags[1..], rest);
      StringRoundTrip(tags[0], after);
      assert bs == [91] + (JsonString(tags[0]) + after);
      assert bs[1] == JsonString(tags[0])[0] == QUOTE && bs[1..] == JsonString(tags[0]) + after;
      assert [tags[0]] + tags[1..] == tags;
    }
  }

  lemma {:induction false} TokenEnds(token: Bytes, rest: Bytes)
    requires (forall i | 0 <= i < |token| :: IsNumberByte(token[i])) && (rest == [] || !IsNumberByte(rest[0]))
    ensures TokenEnd(token + rest) == |token|
    decreases |token|
  {
    if token == [] {
      assert token + rest == rest;
    } else {
      assert (token + rest)[1..] == token[1..] + rest;
      TokenEnds(token[1..], rest);
    }
  }

  lemma FloatRoundTrip(f: Floats, v: F64, rest: Bytes)
    requires f.Faithful() && Finite(v) && Follows(rest)
    ensures ReadJsonCell(f, TNullableFloat64, f.show(v) + rest) == Got(NullableFloat64(Some(v)), rest)
  {
    var token := f.show(v);
    var bs := token + rest;
    assert IsToken(token) && f.parse(token) == Some(v);
    TokenEnds(token, rest);
    assert bs[0] == token[0] && IsNumberByte(token[0]);
    assert bs[..|token|] == token && bs[|token|..] == rest;
  }

  /** Every cell is read back as itself, whatever comma or brace follows it. */
  lemma CellRoundTrip(f: Floats, c: Cell, rest: Bytes)
    requires f.Faithful() && Writable(c) && Follows(rest)
    ensures ReadJsonCell(f, TypeOf(c), JsonCell(f, c) + rest) == Got(c, rest)
  {
    hide ReadInt, ReadString, ReadArray, ReadTimestamp, JsonInt, JsonString, JsonArray, JsonTimestamp, TokenEnd;
    match c
    case UInt64(v) => IntRoundTrip(v, rest);
    case UInt16(v) => IntRoundTrip(v, rest);
    case Int64(v) => IntRoundTrip(v, rest);
    case LowCardString(s) => StringRoundTrip(s, rest);
    case NullableFloat64(None) => assert (NULL + rest)[4..] == rest;
    case NullableFloat64(Some(v)) => FloatRoundTrip(f, v, rest);
    case LowCardStringArray(tags) => ArrayRoundTrip(tags, rest);
    case DateTime64(ticks, scale) => TimestampRoundTrip(ticks, scale, rest);
  }

  lemma {:induction false} TailIsPrintable(tags: seq<Text>)
    ensures Printable(JsonArrayTail(tags))
    decreases |tags|
  {
    hide JsonString;
    if tags != [] {
      TailIsPrintable(tags[1..]);
      StringIsPrintable(tags[0]);
    }
  }

  lemma CellIsPrintable(f: Floats, c: Cell)
    requires f.Faithful() && Writable(c)
    ensures Printable(JsonCell(f, c))
  {
    hide JsonInt, JsonString, JsonTimestamp, JsonArrayTail;
    match c
    case UInt64(v) => IntRoundTrip(v, []);
    case UInt16(v) => IntRoundTrip(v, []);
    case Int64(v) => IntRoundTrip(v, []);
    case LowCardString(s) => StringIsPrintable(s);
    case NullableFloat64(None) =>
    case NullableFloat64(Some(v)) => assert IsToken(f.show(v));
    case LowCardStringArray(tags) =>
      if tags != [] {
        StringIsPrintable(tags[0]);
        TailIsPrintable(tags[1..]);
      }
    case DateTime64(ticks, scale) => TimestampRoundTrip(ticks, scale, []);
  }

  // ----- rows and lines

  /** The key in front of the j-th cell. */
  function Key(names: seq<Text>, j: nat): Bytes
    requires j < |names|
  {
    (if j > 0 then [COMMA] else []) + JsonString(names[j]) + [58]
  }

  predicate RowWritable(names: seq<Text>, row: Row) {
    |row| == |names| && forall j | 0 <= j < |row| :: Writable(row[j])
  }

  /** The fields from the j-th on, and the closing brace. */
  function Fields(f: Floats, names: seq<Text>, row: Row, j: nat): Bytes
    requires RowWritable(names, row) && j <= |row|
    decreases |row| - j
  {
    if j == |row| then [125] else Key(names, j) + JsonCell(f, row[j]) + Fields(f, names, row, j + 1)
  }

  /** One line, without its newline. */
  function JsonRow(f: Floats, names: seq<Text>, row: Row): Bytes
    requires RowWritable(names, row)
  {
    [123] + Fields(f, names, row, 0)
  }

  function JsonBlock(f: Floats, names: seq<Text>, rows: seq<Row>): Bytes
    requires forall i | 0 <= i < |rows| :: RowWritable(names, rows[i])
  {
    if rows == [] then [] else JsonRow(f, names, rows[0]) + ([NEWLINE] + JsonBlock(f, names, rows[1..]))
  }

  function ReadFields(f: Floats, names: seq<Text>, types: seq<ColType>, j: nat, bs: Bytes): Parsed<Row>
    requires |types| == |names| && j <= |names|
    decreases |names| - j
  {
    if j == |names| then if bs != [] && bs[0] == 125 then Got([], bs[1..]) else Panic
    else if j > 0 && (bs == [] || bs[0] != COMMA) then Panic
    else
      var (key, r1) :- ReadString(if j > 0 then bs[1..] else bs);
      if key != names[j] || r1 == [] || r1[0] != 58 then Panic
      else
        var (c, r2) :- ReadJsonCell(f, types[j], r1[1..]);
        var (more, r3) :- ReadFields(f, names, types, j + 1, r2);
        Got([c] + more, r3)
  }

  /** A line is one object with the named columns in order. */
  function ReadLine(f: Floats, names: seq<Text>, types: seq<ColType>, line: Bytes): Option<Row>
    requires |types| == |names|
  {
    if line == [] || line[0] != 123 then None
    else
      match ReadFields(f, names, types, 0, line[1..])
      case Panic => None
      case Got(row, rest) => if rest == [] then Some(row) else None
  }

  lemma FieldsFollow(f: Floats, names: seq<Text>, row: Row, j: nat)
    requires RowWritable(names, row) && 0 < j <= |row|
    ensures Follows(Fields(f, names, row, j))
  {
    hide JsonString, JsonCell;
    if j < |row| {
      assert Key(names, j)[0] == COMMA;
    }
  }

  lemma KeyParts(comma: Bytes, name: Bytes, value: Bytes, rest: Bytes)
    ensures comma + name + [58] + value + rest == comma + (name + ([58] + (value + rest)))
    ensures ([58] + (value + rest))[1..] == value + rest
  {
  }

  lemma {:induction false} FieldsRoundTrip(f: Floats, names: seq<Text>, types: seq<ColType>, row: Row, j: nat)
    requires f.Faithful() && RowWritable(names, row) && OfTypes(types, row) && j <= |row|
    ensures ReadFields(f, names, types, j, Fields(f, names, row, j)) == Got(row[j..], [])
    decreases |row| - j
  {
    hide JsonString, ReadString, JsonCell, ReadJsonCell, Writable;
    var bs := Fields(f, names, row, j);
    if j < |row| {
      var value, rest := JsonCell(f, row[j]), Fields(f, names, row, j + 1);
      var comma: Bytes := if j > 0 then [COMMA] else [];
      FieldsRoundTrip(f, names, types, row, j + 1);
      FieldsFollow(f, names, row, j + 1);
      KeyParts(comma, JsonString(names[j]), value, rest);
      StringRoundTrip(names[j], [58] + (value + rest));
      CellRoundTrip(f, row[j], rest);
      SkipComma(comma, JsonString(names[j]) + ([58] + (value + rest)));
      assert [row[j]] + row[j + 1..] == row[j..];
    } else {
      assert row[j..] == [];
    }
  }

  lemma SkipComma(comma: Bytes, rest: Bytes)
    requires comma == [] || comma == [COMMA]
    ensures comma == [] ==> comma + rest == rest
    ensures comma != [] ==> (comma + rest)[0] == COMMA && (comma + rest)[1..] == rest
  {
  }

  lemma LineRoundTrip(f: Floats, names: seq<Text>, types: seq<ColType>, row: Row)
    requires f.Faithful() && RowWritable(names, row) && OfTypes(types, row)
    ensures ReadLine(f, names, types, JsonRow(f, names, row)) == Some(row)
  {
    hide Fields, ReadFields;
    FieldsRoundTrip(f, names, types, row, 0);
    assert JsonRow(f, names, row)[1..] == Fields(f, names, row, 0) && row[0..] == row;
  }

  lemma {:induction false} FieldsArePrintable(f: Floats, names: seq<Text>, row: Row, j: nat)
    requires f.Faithful() && RowWritable(names, row) && j <= |row|
    ensures Printable(Fields(f, names, row, j))
    decreases |row| - j
  {
    hide JsonString, JsonCell;
    if j < |row| {
      StringIsPrintable(names[j]);
      CellIsPrintable(f, row[j]);
      FieldsArePrintable(f, names, row, j + 1);
    }
  }

  function LineLength(bs: Bytes): (n: nat)
    ensures n <= |bs|
  {
    if bs == [] || bs[0] == NEWLINE then 0 else 1 + LineLength(bs[1..])
  }

  /** The text before each newline, and what follows the last one if anything does. */
  function SplitLines(bs: Bytes): seq<Bytes>
    decreases |bs|
  {
    if bs == [] then []
    else
      var n := LineLength(bs);
      [bs[..n]] + (if n < |bs| then SplitLines(bs[n + 1..]) else [])
  }

  lemma {:induction false} LineLengthIs(line: Bytes, rest: Bytes)
    requires Printable(line)
    ensures LineLength(line + ([NEWLINE] + rest)) == |line|
    decreases |line|
  {
    var bs := line + ([NEWLINE] + rest);
    if line != [] {
      assert bs[1..] == line[1..] + ([NEWLINE] + rest);
      LineLengthIs(line[1..], rest);
    }
  }

  lemma LineSplits(line: Bytes, rest: Bytes)
    requires Printable(line)
    ensures SplitLines(line + ([NEWLINE] + rest)) == [line] + SplitLines(rest)
  {
    var bs := line + ([NEWLINE] + rest);
    LineLengthIs(line, rest);
    assert bs[..|line|] == line && bs[|line| + 1..] == rest;
  }

  /** Cutting a block at its newlines gives exactly one line a row, each read back as its row. */
  lemma {:induction false} JsonRoundTrip(f: Floats, names: seq<Text>, types: seq<ColType>, rows: seq<Row>)
    requires f.Faithful() && |types| == |names|
    requires forall i | 0 <= i < |rows| :: RowWritable(names, rows[i]) && OfTypes(types, rows[i])
    ensures var lines := SplitLines(JsonBlock(f, names, rows));
            && |lines| == |rows|
            && forall i | 0 <= i < |rows| :: ReadLine(f, names, types, lines[i]) == Some(rows[i])
    decreases |rows|
  {
    hide JsonRow, ReadLine, SplitLines, RowWritable, OfTypes, Printable;
    if rows == [] {
      NothingSplits();
    } else {
      var tail := rows[1..];
      JsonRoundTrip(f, names, types, tail);
      RowIsALine(f, names, types, rows[0]);
      LineSplits(JsonRow(f, names, rows[0]), JsonBlock(f, names, tail));
      var lines, more := SplitLines(JsonBlock(f, names, rows)), SplitLines(JsonBlock(f, names, tail));
      forall i | 0 <= i < |rows| ensures ReadLine(f, names, types, lines[i]) == Some(rows[i]) {
        if i > 0 {
          assert lines[i] == more[i - 1] && rows[i] == tail[i - 1];
        }
      }
    }
  }

  lemma NothingSplits()
    ensures SplitLines([]) == []
  {
  }

  lemma RowIsALine(f: Floats, names: seq<Text>, types: seq<ColType>, row: Row)
    requires f.Faithful() && RowWritable(names, row) && OfTypes(types, row)
    ensures Printable(JsonRow(f, names, row))
    ensures ReadLine(f, names, types, JsonRow(f, names, row)) == Some(row)
  {
    hide Fields, ReadLine;
    FieldsArePrintable(f, names, row, 0);
    LineRoundTrip(f, names, types, row);
  }

  // ----- the encoder

  /** The first `i` elements, comma-separated. */
  function TagsUpTo(tags: seq<Text>, i: nat): Bytes
    requires i <= |tags|
  {
    if i == 0 then [] else TagsUpTo(tags, i - 1) + (if i > 1 then [COMMA] else []) + JsonString(tags[i - 1])
  }

  lemma {:induction false} TagsAreTail(tags: seq<Text>, i: nat)
    requires 0 < i <= |tags|
    ensures [91] + TagsUpTo(tags, i) + JsonArrayTail(tags[i..]) == JsonArray(tags)
    decreases i
  {
    hide JsonString;
    if i == 1 {
      assert TagsUpTo(tags, 1) == [] + [] + JsonString(tags[0]) == JsonString(tags[0]);
    } else {
      TagsAreTail(tags, i - 1);
      var rest := tags[i - 1..];
      assert rest[0] == tags[i - 1] && rest[1..] == tags[i..];
      Regroup([91], TagsUpTo(tags, i - 1), [COMMA], JsonString(tags[i - 1]), JsonArrayTail(tags[i..]), []);
      Moved([91], TagsUpTo(tags, i - 1), [COMMA], JsonString(tags[i - 1]), JsonArrayTail(tags[i..]));
    }
  }

  lemma Moved(a: Bytes, b: Bytes, c: Bytes, d: Bytes, e: Bytes)
    ensures a + (b + c + d) + e == a + b + (c + d + e)
  {
  }

  method PutTags(tags: seq<Text>, out: Buffer)
    modifies out
    ensures out.bytes == old(out.bytes) + JsonArray(tags)
  {
    hide JsonString, JsonArrayTail, JsonArray;
    ghost var start := out.bytes;
    out.Push(91);
    for i := 0 to |tags|
      invariant out.bytes == start + ([91] + TagsUpTo(tags, i))
    {
      ghost var before := out.bytes;
      if i > 0 {
        out.Push(COMMA);
      }
      PushJsonString(out, tags[i]);
      TagWritten(start, TagsUpTo(tags, i), if i > 0 then [COMMA] else [], JsonString(tags[i]));
    }
    out.Push(93);
    ArrayWritten(start, tags);
  }

  lemma TagWritten(start: Bytes, done: Bytes, comma: Bytes, s: Bytes)
    ensures start + ([91] + done) + comma + s == start + ([91] + (done + comma + s))
    ensures comma == [] ==> start + ([91] + done) + s == start + ([91] + (done + comma + s))
  {
  }

  lemma ArrayWritten(start: Bytes, tags: seq<Text>)
    ensures start + ([91] + TagsUpTo(tags, |tags|)) + [93] == start + JsonArray(tags)
  {
    hide JsonString;
    if tags == [] {
      assert [91] + [] + [93] == [91, 93];
    } else {
      TagsAreTail(tags, |tags|);
      assert JsonArrayTail(tags[|tags|..]) == [93];
    }
    Assoc(start, [91] + TagsUpTo(tags, |tags|), [93]);
  }

  /** `Cell::write_json`; false where it panics. */
  method WriteJson(f: Floats, c: Cell, out: Buffer) returns (ok: bool)
    requires Small(c)
    modifies out
    ensures ok == Writable(c)
    ensures ok ==> out.bytes == old(out.bytes) + JsonCell(f, c)
  {
    hide JsonInt, JsonString, JsonArray, JsonTimestamp;
    ok := true;
    match c {
      case UInt64(v) => out.Extend(JsonInt(v));
      case UInt16(v) => out.Extend(JsonInt(v));
      case Int64(v) => out.Extend(JsonInt(v));
      case LowCardString(s) => PushJsonString(out, s);
      case NullableFloat64(None) => out.Extend(NULL);
      case NullableFloat64(Some(v)) =>
        if !Finite(v) { return false; }
        out.Extend(f.show(v));
      case LowCardStringArray(tags) => PutTags(tags, out);
      case DateTime64(ticks, scale) =>
        if !(1 <= scale <= 9) { return false; }
        if ticks < 0 { return false; }
        out.Extend(JsonTimestamp(ticks, scale));
    }
  }

  /** The key fragments, made once for the whole block. */
  method Keys(names: seq<Text>) returns (keys: seq<Bytes>)
    ensures |keys| == |names| && forall j | 0 <= j < |names| :: keys[j] == Key(names, j)
  {
    hide JsonString;
    keys := [];
    for j := 0 to |names|
      invariant |keys| == j && forall k | 0 <= k < j :: keys[k] == Key(names, k)
    {
      var key := new Buffer();
      if j > 0 {
        key.Push(COMMA);
      }
      PushJsonString(key, names[j]);
      key.Push(58);
      keys := keys + [key.bytes];
    }
  }

  lemma FieldsStep(f: Floats, names: seq<Text>, row: Row, j: nat, before: Bytes)
    requires RowWritable(names, row) && j < |row|
    ensures before + Fields(f, names, row, j)
        == before + Key(names, j) + JsonCell(f, row[j]) + Fields(f, names, row, j + 1)
  {
    hide Key, JsonCell;
    Regroup(before, Key(names, j), JsonCell(f, row[j]), Fields(f, names, row, j + 1), [], []);
  }

  /** One object and its newline; false where the encoder panics. */
  method PutRow(f: Floats, names: seq<Text>, keys: seq<Bytes>, row: Row, out: Buffer) returns (ok: bool)
    requires |keys| == |names| && forall j | 0 <= j < |names| :: keys[j] == Key(names, j)
    requires forall j | 0 <= j < |row| :: Small(row[j])
    modifies out
    ensures ok <==> RowWritable(names, row)
    ensures ok ==> out.bytes == old(out.bytes) + (JsonRow(f, names, row) + [NEWLINE])
  {
    hide Key, JsonCell, Writable, Small;
    if |row| != |keys| {
      return false;
    }
    ghost var start := out.bytes;
    out.Push(123);
    for j := 0 to |row|
      invariant forall k | 0 <= k < j :: Writable(row[k])
      invariant RowWritable(names, row) ==> out.bytes + Fields(f, names, row, j) == start + JsonRow(f, names, row)
    {
      ghost var before := out.bytes;
      out.Extend(keys[j]);
      var written := WriteJson(f, row[j], out);
      if !written {
        return false;
      }
      if RowWritable(names, row) {
        FieldsStep(f, names, row, j, before);
      }
    }
    out.Extend([125, NEWLINE]);
    RowEnds(f, names, row, start);
    return true;
  }

  lemma RowEnds(f: Floats, names: seq<Text>, row: Row, start: Bytes)
    requires RowWritable(names, row)
    ensures Fields(f, names, row, |row|) == [125]
    ensures forall out: Bytes | out + [125] == start + JsonRow(f, names, row) ::
              out + [125, NEWLINE] == start + (JsonRow(f, names, row) + [NEWLINE])
  {
    hide JsonRow;
    forall out: Bytes | out + [125] == start + JsonRow(f, names, row)
      ensures out + [125, NEWLINE] == start + (JsonRow(f, names, row) + [NEWLINE])
    {
      assert out + [125, NEWLINE] == (out + [125]) + [NEWLINE];
      Assoc(start, JsonRow(f, names, row), [NEWLINE]);
    }
  }

  ghost predicate AllWritable(names: seq<Text>, rows: seq<Row>) {
    forall i | 0 <= i < |rows| :: RowWritable(names, rows[i])
  }

  lemma {:induction false} BlockGrows(f: Floats, names: seq<Text>, rows: seq<Row>, row: Row)
    requires AllWritable(names, rows + [row])
    ensures AllWritable(names, rows) && RowWritable(names, row)
    ensures JsonBlock(f, names, rows + [row]) == JsonBlock(f, names, rows) + (JsonRow(f, names, row) + [NEWLINE])
    decreases |rows|
  {
    hide JsonRow, RowWritable;
    var all := rows + [row];
    assert all[|rows|] == row;
    forall i | 0 <= i < |rows| ensures RowWritable(names, rows[i]) {
      assert all[i] == rows[i];
    }
    if rows == [] {
      assert all[1..] == [];
      assert JsonBlock(f, names, all) == JsonRow(f, names, row) + ([NEWLINE] + []);
    } else {
      assert all[1..] == rows[1..] + [row];
      BlockGrows(f, names, rows[1..], row);
      Regrouped(JsonRow(f, names, rows[0]), [NEWLINE], JsonBlock(f, names, rows[1..]),
        JsonRow(f, names, row) + [NEWLINE]);
    }
  }

  lemma Regrouped(a: Bytes, b: Bytes, c: Bytes, d: Bytes)
    ensures a + (b + (c + d)) == a + (b + c) + d
  {
  }

  /** `encode_json_each_row_block` over the kept rows; `None` where it panics. */
  method EncodeJsonEachRow(f: Floats, names: seq<Text>, rows: seq<Row>) returns (block: Option<Block>)
    requires forall i, j | 0 <= i < |rows| && 0 <= j < |rows[i]| :: Small(rows[i][j])
    ensures block.Some? <==> AllWritable(names, rows)
    ensures block.Some? ==> block.value == Block(JsonBlock(f, names, rows), |rows|)
  {
    hide JsonRow, Key, RowWritable, JsonBlock;
    var keys := Keys(names);
    var body := new Buffer();
    EmptyBlock(f, names);
    for i := 0 to |rows|
      invariant fresh(body) && AllWritable(names, rows[..i]) && body.bytes == JsonBlock(f, names, rows[..i])
    {
      assert rows[..i + 1] == rows[..i] + [rows[i]];
      var ok := PutRow(f, names, keys, rows[i], body);
      if !ok {
        return None;
      }
      BlockGrows(f, names, rows[..i], rows[i]);
    }
    assert rows[..|rows|] == rows;
    return Some(Block(body.bytes, |rows|));
  }

  lemma EmptyBlock(f: Floats, names: seq<Text>)
    ensures JsonBlock(f, names, []) == []
  {
  }
}

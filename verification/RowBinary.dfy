/** RowBinary: cells one after another, row after row, and a reader written from the
    format's definition. Native and RowBinary carry the same rows. */
module RowBinary {
  import opened Wire
  import opened Cells
  import opened Native
  import opened NativeDecoder

  function CellBytes(c: Cell): (bs: Bytes)
    ensures bs != []
  {
    match c
    case UInt64(v) => LE(8, v)
    case UInt16(v) => LE(2, v)
    case Int64(v) => LE(8, Twos(v))
    case LowCardString(s) => Str(s)
    case NullableFloat64(None) => [1]
    case NullableFloat64(Some(v)) => [0] + LE(8, v)
    case LowCardStringArray(vs) => Varint(|vs|) + Each(Str, vs)
    case DateTime64(ticks, _) => LE(8, Twos(ticks))
  }

  function RowBytes(row: Row): Bytes { Each(CellBytes, row) }

  /** A reader of one value of each column type. */
  function ReadCell(t: ColType, bs: Bytes): (r: Parsed<Cell>)
    ensures r.Got? ==> TypeOf(r.value) == t
  {
    PowersOf256();
    match t
    case TUInt64 => (var (v, r) :- ReadWord(bs); Got(UInt64(v), r))
    case TUInt16 => (var (v, r) :- ReadLE(2, bs); Got(UInt16(v), r))
    case TInt64 => (var (v, r) :- ReadWord(bs); Got(Int64(FromTwos(v)), r))
    case TDateTime64(scale) => (var (v, r) :- ReadWord(bs); Got(DateTime64(FromTwos(v), scale), r))
    case TLowCard => (var (s, r) :- ReadStr(bs); Got(LowCardString(s), r))
    case TLowCardArray =>
      var (n, r) :- ReadVarint(bs);
      var (tags, r') :- ReadMany<Text>(n, ReadStr, r);
      Got(LowCardStringArray(tags), r')
    case TNullableFloat64 =>
      var (marker, r) :- Take(1, bs);
      if marker[0] == 1 then Got(NullableFloat64(None), r)
      else if marker[0] != 0 then Panic
      else
        var (v, r') :- ReadWord(r);
        Got(NullableFloat64(Some(v)), r')
  }

  function ReadRow(types: seq<ColType>, bs: Bytes): (r: Parsed<Row>)
    ensures r.Got? ==> |r.value| == |types|
  {
    if types == [] then Got([], bs)
    else
      var (c, r) :- ReadCell(types[0], bs);
      var (more, r') :- ReadRow(types[1..], r);
      Got([c] + more, r')
  }

  /** Rows until the bytes run out; a row that consumes nothing would never end. */
  function ReadRows(types: seq<ColType>, bs: Bytes): Option<seq<Row>>
    decreases |bs|
  {
    if bs == [] then Some([])
    else
      match ReadRow(types, bs)
      case Panic => None
      case Got(row, rest) =>
        if |rest| >= |bs| then None
        else
          match ReadRows(types, rest)
          case None => None
          case Some(more) => Some([row] + more)
  }

  predicate OfTypes(types: seq<ColType>, row: Row) {
    |row| == |types| && forall j | 0 <= j < |row| :: TypeOf(row[j]) == types[j]
  }

  /** What memory allows. */
  predicate Small(c: Cell) { c.LowCardStringArray? ==> |c.tags| <= MAX_LEN }

  /** Self-delimiting: a cell is read back whatever follows it. */
  lemma CellRoundTrip(c: Cell, rest: Bytes)
    requires Small(c)
    ensures ReadCell(TypeOf(c), CellBytes(c) + rest) == Got(c, rest)
  {
    hide LE, ReadWord, ReadLE, Str, ReadStr, Each, ReadMany, Varint, ReadVarint, Pow256, FromLE;
    PowersOf256();
    match c
    case UInt64(v) => WordRoundTrip(v, rest);
    case UInt16(v) => LERoundTrip(2, v, rest);
    case Int64(v) => WordRoundTrip(Twos(v), rest);
    case LowCardString(s) => StrRoundTrip(s, rest);
    case NullableFloat64(None) => TakeExact([1], rest);
    case NullableFloat64(Some(v)) =>
      Assoc([0], LE(8, v), rest);
      TakeExact([0], LE(8, v) + rest);
      WordRoundTrip(v, rest);
    case LowCardStringArray(vs) =>
      Assoc(Varint(|vs|), Each(Str, vs), rest);
      VarintRoundTrip(|vs|, Each(Str, vs) + rest);
      EntriesRoundTrip(vs, rest);
    case DateTime64(ticks, _) => WordRoundTrip(Twos(ticks), rest);
  }

  lemma {:induction false} RowRoundTrip(types: seq<ColType>, row: Row, rest: Bytes)
    requires OfTypes(types, row) && forall j | 0 <= j < |row| :: Small(row[j])
    ensures ReadRow(types, RowBytes(row) + rest) == Got(row, rest)
  {
    hide ReadCell, CellBytes;
    if row == [] {
      assert RowBytes(row) + rest == rest;
    } else {
      assert RowBytes(row) == CellBytes(row[0]) + RowBytes(row[1..]);
      Assoc(CellBytes(row[0]), RowBytes(row[1..]), rest);
      CellRoundTrip(row[0], RowBytes(row[1..]) + rest);
      RowRoundTrip(types[1..], row[1..], rest);
      assert [row[0]] + row[1..] == row;
    }
  }

  /** The reader recovers every row list of the declared types. */
  lemma {:induction false} RowBinaryRoundTrip(types: seq<ColType>, rows: seq<Row>)
    requires types != []
    requires forall i | 0 <= i < |rows| :: OfTypes(types, rows[i])
    requires forall i, j | 0 <= i < |rows| && 0 <= j < |rows[i]| :: Small(rows[i][j])
    ensures ReadRows(types, Each(RowBytes, rows)) == Some(rows)
  {
    hide ReadRow, CellBytes;
    if rows != [] {
      var row, tail := rows[0], rows[1..];
      var rest := Each(RowBytes, tail);
      RowRoundTrip(types, row, rest);
      assert |RowBytes(row)| > 0 by {
        assert RowBytes(row) == CellBytes(row[0]) + RowBytes(row[1..]);
      }
      forall i, j | 0 <= i < |tail| && 0 <= j < |tail[i]| ensures Small(tail[i][j]) {
        assert tail[i] == rows[i + 1];
      }
      RowBinaryRoundTrip(types, tail);
      assert [row] + tail == rows;
    }
  }

  function Name(c: (Text, Text)): Bytes { Str(c.0) }
  function Type(c: (Text, Text)): Bytes { Str(c.1) }

  /** The header of RowBinaryWithNamesAndTypes: the names, then the types. */
  function NamesAndTypes(declared: Header): Bytes {
    Varint(|declared|) + Each(Name, declared) + Each(Type, declared)
  }

  function ReadNamesAndTypes(bs: Bytes): Parsed<Header> {
    var (n, r1) :- ReadVarint(bs);
    var (names, r2) :- ReadMany<Text>(n, ReadStr, r1);
    var (types, r3) :- ReadMany<Text>(n, ReadStr, r2);
    Got(seq(n, j requires 0 <= j < n => (names[j], types[j])), r3)
  }

  function NameOf(c: (Text, Text)): Text { c.0 }
  function TypeText(c: (Text, Text)): Text { c.1 }

  lemma NamesAndTypesRoundTrip(declared: Header, rest: Bytes)
    requires |declared| <= MAX_LEN
    ensures ReadNamesAndTypes(NamesAndTypes(declared) + rest) == Got(declared, rest)
  {
    hide Str, ReadStr, Each, ReadMany, Varint, ReadVarint;
    var n, names, types := Varint(|declared|), Each(Name, declared), Each(Type, declared);
    Assoc(n + names, types, rest);
    Assoc(n, names, types + rest);
    VarintRoundTrip(|declared|, names + (types + rest));
    forall i, r | 0 <= i < |declared|
      ensures ReadStr(Name(declared[i]) + r) == Got(NameOf(declared[i]), r)
      ensures ReadStr(Type(declared[i]) + r) == Got(TypeText(declared[i]), r)
    {
      StrRoundTrip(declared[i].0, r);
      StrRoundTrip(declared[i].1, r);
    }
    ManyRoundTrip<(Text, Text), Text>(Name, NameOf, ReadStr, declared, types + rest);
    ManyRoundTrip<(Text, Text), Text>(Type, TypeText, ReadStr, declared, rest);
    var ns, ts := Map(NameOf, declared), Map(TypeText, declared);
    assert seq(|declared|, j requires 0 <= j < |declared| => (ns[j], ts[j])) == declared;
  }

  /** The types a header spells. */
  function TypesOf(declared: Header): (types: seq<ColType>)
    requires forall j | 0 <= j < |declared| :: ParseType(declared[j].1).Some?
    ensures |types| == |declared| && forall j | 0 <= j < |types| :: ParseType(declared[j].1) == Some(types[j])
  {
    seq(|declared|, j requires 0 <= j < |declared| => ParseType(declared[j].1).value)
  }

  /** Native and RowBinary carry the same rows. */
  lemma SameRows(declared: Header, rows: seq<Row>)
    requires Rectangular(declared, rows) && rows != [] && declared != []
    requires FitsMemory(declared, rows) && TypesAgree(declared, rows)
    ensures forall j | 0 <= j < |declared| :: ParseType(declared[j].1).Some?
    ensures DecodeNative(BlockBytes(declared, rows)).Some?
    ensures ReadRows(TypesOf(declared), Each(RowBytes, rows))
        == Some(DecodeNative(BlockBytes(declared, rows)).value.rows)
  {
    forall j | 0 <= j < |declared| ensures ParseType(declared[j].1).Some? {
      assert ParseType(declared[j].1) == Some(TypeOf(rows[0][j]));
    }
    NativeRoundTrip(declared, rows);
    forall i, j | 0 <= i < |rows| && 0 <= j < |declared| ensures Small(rows[i][j]) {
      var cells := ColumnOf(rows, j);
      TagsWithinColumn(cells, i);
      assert cells[i] == rows[i][j];
    }
    forall i | 0 <= i < |rows| ensures OfTypes(TypesOf(declared), rows[i]) {}
    RowBinaryRoundTrip(TypesOf(declared), rows);
  }

  lemma TagsWithinColumn(cells: seq<Cell>, i: nat)
    requires i < |cells|
    ensures |TagsOf(cells[i])| <= |Flatten(cells)|
  {
    FlattenPrefix(cells, i + 1);
    assert cells[..i + 1] == cells[..i] + [cells[i]];
    FlattenAppend(cells[..i], cells[i]);
  }

  // ----- the encoder

  method WriteCell(c: Cell, out: Buffer)
    requires Small(c)
    modifies out
    ensures out.bytes == old(out.bytes) + CellBytes(c)
  {
    match c
    case UInt64(v) => out.Extend(LE(8, v));
    case UInt16(v) => out.Extend(LE(2, v));
    case Int64(v) => out.Extend(LE(8, Twos(v)));
    case LowCardString(s) => PutString(out, s);
    case NullableFloat64(None) => out.Push(1);
    case NullableFloat64(Some(v)) =>
      Assoc(out.bytes, [0], LE(8, v));
      out.Push(0);
      out.Extend(LE(8, v));
    case LowCardStringArray(vs) =>
      ghost var start := out.bytes;
      PutVarint(out, |vs|);
      PutStrings(vs, out);
      Assoc(start, Varint(|vs|), Each(Str, vs));
    case DateTime64(ticks, _) => out.Extend(LE(8, Twos(ticks)));
  }

  method PutStrings(vs: seq<Text>, out: Buffer)
    modifies out
    ensures out.bytes == old(out.bytes) + Each(Str, vs)
  {
    for k := 0 to |vs|
      invariant out.bytes == old(out.bytes) + Each(Str, vs[..k])
    {
      EachNext(Str, vs, k);
      PutString(out, vs[k]);
    }
    assert vs[..|vs|] == vs;
  }

  method PutNamesAndTypes(declared: Header, out: Buffer)
    requires |declared| <= MAX_LEN
    modifies out
    ensures out.bytes == old(out.bytes) + NamesAndTypes(declared)
  {
    ghost var start, n := out.bytes, Varint(|declared|);
    PutVarint(out, |declared|);
    for k := 0 to |declared|
      invariant out.bytes == start + n + Each(Name, declared[..k])
    {
      EachNext(Name, declared, k);
      PutString(out, declared[k].0);
    }
    assert declared[..|declared|] == declared;
    Assoc(start, n, Each(Name, declared));
    ghost var mid := out.bytes;
    for k := 0 to |declared|
      invariant out.bytes == mid + Each(Type, declared[..k])
    {
      EachNext(Type, declared, k);
      PutString(out, declared[k].1);
    }
    Assoc(start, n + Each(Name, declared), Each(Type, declared));
  }

  /** Rows one after another, behind the names and types when the format has them. */
  method EncodeRows(declared: Header, rows: seq<Row>, withHeader: bool) returns (block: Block)
    requires |declared| <= MAX_LEN
    requires forall i, j | 0 <= i < |rows| && 0 <= j < |rows[i]| :: Small(rows[i][j])
    ensures block == Block((if withHeader then NamesAndTypes(declared) else []) + Each(RowBytes, rows), |rows|)
  {
    hide RowBytes, NamesAndTypes, Small;
    var body := new Buffer();
    if withHeader { PutNamesAndTypes(declared, body); }
    ghost var head := body.bytes;
    for i := 0 to |rows|
      invariant fresh(body) && body.bytes == head + Each(RowBytes, rows[..i])
    {
      EachNext(RowBytes, rows, i);
      PutRow(rows[i], body);
    }
    assert rows[..|rows|] == rows;
    block := Block(body.bytes, |rows|);
  }

  method PutRow(row: Row, out: Buffer)
    requires forall j | 0 <= j < |row| :: Small(row[j])
    modifies out
    ensures out.bytes == old(out.bytes) + RowBytes(row)
  {
    hide CellBytes, Small;
    for j := 0 to |row|
      invariant out.bytes == old(out.bytes) + Each(CellBytes, row[..j])
    {
      EachNext(CellBytes, row, j);
      WriteCell(row[j], out);
    }
    assert row[..|row|] == row;
  }
}

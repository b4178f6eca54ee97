/** The Native block encoder: rows transposed into columns, LowCardinality columns
    interned into one dictionary per block. */
module Native {
  import opened Wire
  import opened Cells

  const KEY_VERSION: nat := 1
  /** HasAdditionalKeysBit | NeedUpdateDictionary, that is 1 << 9 | 1 << 10. */
  const INDEX_FLAGS: nat := 1536

  // ----- what a block holds, as a function of its rows

  datatype IndexWidth = W8 | W16 | W32 | W64 {
    /** The low byte of the index-type word. */
    function Code(): nat { match this case W8 => 0 case W16 => 1 case W32 => 2 case W64 => 3 }
    function Octets(): nat { match this case W8 => 1 case W16 => 2 case W32 => 4 case W64 => 8 }
  }

  /** Sized against the largest index, entries - 1. */
  function WidthFor(entries: nat): IndexWidth {
    var max := if entries == 0 then 0 else entries - 1;
    if max <= 0xff then W8 else if max <= 0xffff then W16 else if max <= 0xffff_ffff then W32 else W64
  }

  /** Every index of the dictionary fits the width, and where a narrower width exists
      the largest index would not have fitted it. */
  lemma WidthIsTight(entries: nat, i: nat)
    requires i < entries <= U64
    ensures i < Pow256(WidthFor(entries).Octets())
    ensures WidthFor(entries) != W8 ==> entries - 1 >= Pow256(WidthFor(entries).Octets() / 2)
  {
    PowersOf256();
  }

  /** The dictionary after the given values: the empty string, then first appearances. */
  function DictOf(values: seq<Text>): (entries: seq<Text>)
    ensures 0 < |entries| <= |values| + 1 && entries[0] == []
  {
    if values == [] then [[]]
    else
      var before, v := DictOf(values[..|values| - 1]), values[|values| - 1];
      if v in before then before else before + [v]
  }

  lemma {:induction false} DictHoldsItsValues(values: seq<Text>, i: nat)
    requires i < |values|
    ensures values[i] in DictOf(values)
  {
    if i < |values| - 1 { DictHoldsItsValues(values[..|values| - 1], i); }
  }

  lemma {:induction false} DictHasNoDuplicates(values: seq<Text>, i: nat, j: nat)
    requires i < j < |DictOf(values)|
    ensures DictOf(values)[i] != DictOf(values)[j]
  {
    if values != [] && j < |DictOf(values[..|values| - 1])| {
      DictHasNoDuplicates(values[..|values| - 1], i, j);
    }
  }

  /** The position of t, or |entries| when it is absent. */
  function IndexIn(entries: seq<Text>, t: Text): (at: nat)
    ensures at <= |entries|
    ensures t in entries ==> at < |entries| && entries[at] == t
    ensures t !in entries ==> at == |entries|
  {
    if entries == [] then 0 else if entries[0] == t then 0 else 1 + IndexIn(entries[1..], t)
  }

  lemma {:induction false} IndexInIs(entries: seq<Text>, at: nat)
    requires at < |entries| && forall k | 0 <= k < at :: entries[k] != entries[at]
    ensures IndexIn(entries, entries[at]) == at
  {
    if at > 0 {
      assert forall k | 0 <= k < at - 1 :: entries[1..][k] == entries[k + 1];
      IndexInIs(entries[1..], at - 1);
    }
  }

  function Word(v: nat): Bytes { LE(8, v) }

  function IndexBytes(entries: seq<Text>, w: IndexWidth): Text -> Bytes {
    v => LE(w.Octets(), IndexIn(entries, v))
  }

  function GroupOver(entries: seq<Text>, values: seq<Text>, w: IndexWidth): Bytes {
    Word(w.Code() + INDEX_FLAGS) + Word(|entries|) + Each(Str, entries)
    + Word(|values|) + Each(IndexBytes(entries, w), values)
  }

  /** One LowCardinality group: index-type word, dictionary, indexes; nothing at all when
      there are no indexes. */
  function Group(values: seq<Text>): Bytes {
    if values == [] then [] else GroupOver(DictOf(values), values, WidthFor(|DictOf(values)|))
  }

  function Fixed(c: Cell): Bytes {
    match c
    case UInt64(v) => LE(8, v)
    case UInt16(v) => LE(2, v)
    case Int64(v) => LE(8, Twos(v))
    case DateTime64(ticks, _) => LE(8, Twos(ticks))
    case _ => []
  }

  function NullByte(c: Cell): Bytes {
    [if c.NullableFloat64? && c.quality.Some? then 0 else 1]
  }

  /** A null row still occupies a slot, holding zero. */
  function Slot(c: Cell): Bytes {
    LE(8, if c.NullableFloat64? && c.quality.Some? then c.quality.value else 0)
  }

  function TextOf(c: Cell): Text { if c.LowCardString? then c.text else [] }
  function TagsOf(c: Cell): seq<Text> { if c.LowCardStringArray? then c.tags else [] }

  function Flatten(cells: seq<Cell>): seq<Text> {
    if cells == [] then [] else Flatten(cells[..|cells| - 1]) + TagsOf(cells[|cells| - 1])
  }

  /** Cumulative end offset per row. */
  function Offsets(cells: seq<Cell>): (ends: seq<nat>)
    ensures |ends| == |cells|
  {
    if cells == [] then [] else Offsets(cells[..|cells| - 1]) + [|Flatten(cells)|]
  }

  function ColumnBytes(shape: Shape, cells: seq<Cell>): Bytes {
    match shape
    case ShapeLowCard => Word(KEY_VERSION) + Group(Map(TextOf, cells))
    case ShapeNullable => Each(NullByte, cells) + Each(Slot, cells)
    case ShapeArray => Word(KEY_VERSION) + Each(Word, Offsets(cells)) + Group(Flatten(cells))
    case _ => Each(Fixed, cells)
  }

  type Row = seq<Cell>
  type Header = seq<(Text, Text)>

  /** Every row has the declared number of cells, each of the shape the first row has. */
  predicate Rectangular(declared: Header, rows: seq<Row>) {
    && (forall i | 0 <= i < |rows| :: |rows[i]| == |declared|)
    && (forall i, j | 0 <= i < |rows| && 0 <= j < |declared| :: ShapeOf(rows[i][j]) == ShapeOf(rows[0][j]))
  }

  function ColumnOf(rows: seq<Row>, j: nat): (cells: seq<Cell>)
    requires forall i | 0 <= i < |rows| :: j < |rows[i]|
    ensures |cells| == |rows| && forall i | 0 <= i < |rows| :: cells[i] == rows[i][j]
  {
    seq(|rows|, i requires 0 <= i < |rows| => rows[i][j])
  }

  /** Column `j` of a block: its name, its type and, when there are rows, its values. */
  function ColumnBlock(declared: Header, rows: seq<Row>, j: nat): Bytes
    requires Rectangular(declared, rows) && j < |declared|
  {
    Str(declared[j].0) + Str(declared[j].1)
    + (if rows == [] then [] else ColumnBytes(ShapeOf(rows[0][j]), ColumnOf(rows, j)))
  }

  function ColumnsFrom(declared: Header, rows: seq<Row>, j: nat): Bytes
    requires Rectangular(declared, rows) && j <= |declared|
    decreases |declared| - j
  {
    if j == |declared| then [] else ColumnBlock(declared, rows, j) + ColumnsFrom(declared, rows, j + 1)
  }

  function BlockBytes(declared: Header, rows: seq<Row>): Bytes
    requires Rectangular(declared, rows)
  {
    Varint(|declared|) + Varint(|rows|) + ColumnsFrom(declared, rows, 0)
  }

  // ----- the encoder, which appends to one byte buffer

  class Buffer {
    var bytes: Bytes
    constructor () ensures bytes == [] { bytes := []; }

    method Push(b: byte)
      modifies this
      ensures bytes == old(bytes) + [b]
    { bytes := bytes + [b]; }

    method Extend(bs: Bytes)
      modifies this
      ensures bytes == old(bytes) + bs
    { bytes := bytes + bs; }
  }

  method PutVarint(out: Buffer, value: U64Int)
    modifies out
    ensures out.bytes == old(out.bytes) + Varint(value)
  {
    var v := value;
    while true
      invariant out.bytes + Varint(v) == old(out.bytes) + Varint(value)
      decreases v
    {
      var low := v % 128;
      ghost var before, was := out.bytes, v;
      v := v / 128;
      if v == 0 {
        out.Push(low);
        return;
      }
      out.Push(low + 128);
      assert before + Varint(was) == before + [low + 128] + Varint(v);
    }
  }

  method PutString(out: Buffer, s: Text)
    modifies out
    ensures out.bytes == old(out.bytes) + Str(s)
  {
    PutVarint(out, |s|);
    out.Extend(s);
  }

  /** One LowCardinality(String) column: a dictionary and an index per value. */
  class Dictionary {
    var entries: seq<Text>
    var positions: map<Text, nat>
    var indexes: seq<nat>
    ghost var values: seq<Text>

    ghost predicate Valid()
      reads this
    {
      && entries == DictOf(values)
      && (forall k | 0 <= k < |entries| :: entries[k] in positions && positions[entries[k]] == k)
      && (forall t | t in positions :: positions[t] < |entries| && entries[positions[t]] == t)
      && |indexes| == |values|
      && (forall i | 0 <= i < |values| :: indexes[i] < |entries| && entries[indexes[i]] == values[i])
    }

    constructor ()
      ensures Valid() && values == []
    {
      entries := [[]];
      positions := map[[] := 0];
      indexes := [];
      values := [];
    }

    method Push(value: Text)
      requires Valid()
      modifies this
      ensures Valid() && values == old(values) + [value]
    {
      assert (values + [value])[..|values|] == values;
      var at;
      if value in positions {
        at := positions[value];
      } else {
        at := |entries|;
        entries := entries + [value];
        positions := positions[value := at];
      }
      values := values + [value];
      indexes := indexes + [at];
    }

    method Write(out: Buffer)
      requires Valid()
      modifies out
      ensures out.bytes == old(out.bytes) + Group(values)
    {
      if |indexes| == 0 { return; }
      var w := WidthFor(|entries|);
      WriteGroup(w, out);
    }

    method WriteGroup(w: IndexWidth, out: Buffer)
      requires Valid()
      modifies out
      ensures out.bytes == old(out.bytes) + GroupOver(entries, values, w)
    {
      ghost var start, head := out.bytes, Word(w.Code() + INDEX_FLAGS);
      out.Extend(LE(8, w.Code() + INDEX_FLAGS));
      out.Extend(LE(8, |entries|));
      Assoc(start, head, Word(|entries|));
      head := head + Word(|entries|);
      PutEntries(out);
      Assoc(start, head, Each(Str, entries));
      head := head + Each(Str, entries);
      out.Extend(LE(8, |indexes|));
      Assoc(start, head, Word(|values|));
      head := head + Word(|values|);
      forall i | 0 <= i < |values| ensures indexes[i] == IndexIn(entries, values[i]) {
        IndexInIs(entries, indexes[i]);
      }
      PutIndexes(w, out);
      Assoc(start, head, Each(IndexBytes(entries, w), values));
    }

    method PutEntries(out: Buffer)
      modifies out
      ensures out.bytes == old(out.bytes) + Each(Str, entries)
    {
      for i := 0 to |entries|
        invariant out.bytes == old(out.bytes) + Each(Str, entries[..i])
      {
        EachNext(Str, entries, i);
        PutString(out, entries[i]);
      }
      assert entries[..|entries|] == entries;
    }

    method PutIndexes(w: IndexWidth, out: Buffer)
      requires |indexes| == |values| && forall i | 0 <= i < |values| :: indexes[i] == IndexIn(entries, values[i])
      modifies out
      ensures out.bytes == old(out.bytes) + Each(IndexBytes(entries, w), values)
    {
      ghost var put := IndexBytes(entries, w);
      for i := 0 to |indexes|
        invariant out.bytes == old(out.bytes) + Each(put, values[..i])
      {
        EachNext(put, values, i);
        out.Extend(LE(w.Octets(), indexes[i]));
      }
      assert values[..|values|] == values;
    }
  }

  // ----- columns

  function U64Of(c: Cell): U64Int { if c.UInt64? then c.u64 else 0 }
  function U16Of(c: Cell): U16 { if c.UInt16? then c.u16 else 0 }
  function I64Of(c: Cell): I64 {
    match c
    case Int64(v) => v
    case DateTime64(ticks, _) => ticks
    case _ => 0
  }

  function BitsOf(c: Cell): F64 { if c.NullableFloat64? && c.quality.Some? then c.quality.value else 0 }
  function NullOf(c: Cell): byte { if c.NullableFloat64? && c.quality.Some? then 0 else 1 }

  lemma {:induction false} FlattenAppend(cells: seq<Cell>, c: Cell)
    ensures Flatten(cells + [c]) == Flatten(cells) + TagsOf(c)
    ensures Offsets(cells + [c]) == Offsets(cells) + [|Flatten(cells + [c])|]
  {
    assert (cells + [c])[..|cells|] == cells;
  }

  /** The values a column has accumulated. */
  datatype Accumulated = Accumulated(u64s: seq<U64Int>, u16s: seq<U16>, i64s: seq<I64>,
                                     nulls: seq<byte>, bits: seq<F64>, offsets: seq<nat>, texts: seq<Text>)

  /** The accumulated values are the cells'. */
  ghost predicate Holds(shape: Shape, acc: Accumulated, cells: seq<Cell>) {
    && (forall i | 0 <= i < |cells| :: ShapeOf(cells[i]) == shape)
    && match shape
       case Shape64 => acc.u64s == Map(U64Of, cells)
       case Shape16 => acc.u16s == Map(U16Of, cells)
       case ShapeLowCard => acc.texts == Map(TextOf, cells)
       case ShapeNullable => acc.nulls == Map(NullOf, cells) && acc.bits == Map(BitsOf, cells)
       case ShapeArray => acc.texts == Flatten(cells) && acc.offsets == Offsets(cells)
       case _ => acc.i64s == Map(I64Of, cells)
  }

  function Accumulate(acc: Accumulated, cell: Cell): Accumulated {
    match cell
    case UInt64(v) => acc.(u64s := acc.u64s + [v])
    case UInt16(v) => acc.(u16s := acc.u16s + [v])
    case Int64(v) => acc.(i64s := acc.i64s + [v])
    case DateTime64(ticks, _) => acc.(i64s := acc.i64s + [ticks])
    case NullableFloat64(_) => acc.(nulls := acc.nulls + [NullOf(cell)], bits := acc.bits + [BitsOf(cell)])
    case LowCardString(text) => acc.(texts := acc.texts + [text])
    case LowCardStringArray(tags) =>
      acc.(texts := acc.texts + tags, offsets := acc.offsets + [|acc.texts + tags|])
  }

  lemma AccumulateHolds(shape: Shape, acc: Accumulated, cells: seq<Cell>, cell: Cell)
    requires Holds(shape, acc, cells) && ShapeOf(cell) == shape
    ensures Holds(shape, Accumulate(acc, cell), cells + [cell])
  {
    match shape
    case Shape64 => MapAppend(U64Of, cells, cell);
    case Shape16 => MapAppend(U16Of, cells, cell);
    case ShapeLowCard => MapAppend(TextOf, cells, cell);
    case ShapeNullable => MapAppend(NullOf, cells, cell); MapAppend(BitsOf, cells, cell);
    case ShapeArray => FlattenAppend(cells, cell);
    case _ => MapAppend(I64Of, cells, cell);
  }

  /** One column of a block, accumulated in the shape it is written in. */
  class Column {
    const shape: Shape
    var u64s: seq<U64Int>
    var u16s: seq<U16>
    var i64s: seq<I64>
    var nulls: seq<byte>
    var bits: seq<F64>
    var offsets: seq<nat>
    const dict: Dictionary
    ghost var cells: seq<Cell>

    ghost function Values(): Accumulated
      reads this, dict
    {
      Accumulated(u64s, u16s, i64s, nulls, bits, offsets, dict.values)
    }

    ghost predicate Valid()
      reads this, dict
    {
      dict.Valid() && Holds(shape, Values(), cells)
    }

    constructor EmptyFor(cell: Cell)
      ensures Valid() && shape == ShapeOf(cell) && cells == [] && fresh(dict)
    {
      shape := ShapeOf(cell);
      u64s, u16s, i64s, nulls, bits, offsets, cells := [], [], [], [], [], [], [];
      dict := new Dictionary();
    }

    /** Appends one row's value; false is the panic on a cell of another shape. */
    method Push(cell: Cell) returns (ok: bool)
      requires Valid()
      modifies this, dict
      ensures ok <==> ShapeOf(cell) == shape
      ensures ok ==> Valid() && cells == old(cells) + [cell]
    {
      if ShapeOf(cell) != shape { return false; }
      AccumulateHolds(shape, Values(), cells, cell);
      PushValue(cell);
      cells := cells + [cell];
      ok := true;
    }

    method PushValue(cell: Cell)
      requires dict.Valid()
      modifies `u64s, `u16s, `i64s, `nulls, `bits, `offsets, dict
      ensures dict.Valid() && Values() == Accumulate(old(Values()), cell)
    {
      hide Dictionary.Valid;
      match cell {
        case UInt64(v) => u64s := u64s + [v];
        case UInt16(v) => u16s := u16s + [v];
        case Int64(v) => i64s := i64s + [v];
        case DateTime64(ticks, _) => i64s := i64s + [ticks];
        case LowCardString(text) => dict.Push(text);
        case NullableFloat64(q) =>
          nulls := nulls + [if q.None? then 1 else 0];
          bits := bits + [if q.Some? then q.value else 0];
        case LowCardStringArray(tags) => PushTags(tags);
      }
    }

    method PushTags(tags: seq<Text>)
      requires dict.Valid()
      modifies `offsets, dict
      ensures dict.Valid() && dict.values == old(dict.values) + tags
      ensures offsets == old(offsets) + [|dict.values|]
    {
      for k := 0 to |tags|
        invariant dict.Valid() && dict.values == old(dict.values) + tags[..k]
        invariant offsets == old(offsets)
      {
        dict.Push(tags[k]);
      }
      offsets := offsets + [|dict.indexes|];
    }

    method WriteNative(out: Buffer)
      requires Valid()
      modifies out
      ensures out.bytes == old(out.bytes) + ColumnBytes(shape, cells)
    {
      ghost var start := out.bytes;
      match shape {
        case Shape64 => PutU64s(out);
        case Shape16 => PutU16s(out);
        case ShapeI64 => PutI64s(out);
        case ShapeDateTime => PutI64s(out);
        case ShapeLowCard =>
          out.Extend(LE(8, KEY_VERSION));
          dict.Write(out);
          Assoc(start, Word(KEY_VERSION), Group(dict.values));
        case ShapeNullable =>
          NullMapBytes(cells);
          out.Extend(nulls);
          PutBits(out);
          Assoc(start, nulls, Each(Slot, cells));
        case ShapeArray =>
          out.Extend(LE(8, KEY_VERSION));
          PutOffsets(out);
          Assoc(start, Word(KEY_VERSION), Each(Word, offsets));
          dict.Write(out);
          Assoc(start, Word(KEY_VERSION) + Each(Word, offsets), Group(dict.values));
      }
    }

    method PutU64s(out: Buffer)
      requires |u64s| == |cells| && forall i | 0 <= i < |cells| :: Fixed(cells[i]) == LE(8, u64s[i])
      modifies out
      ensures out.bytes == old(out.bytes) + Each(Fixed, cells)
    {
      for i := 0 to |u64s|
        invariant out.bytes == old(out.bytes) + Each(Fixed, cells[..i])
      {
        EachNext(Fixed, cells, i);
        out.Extend(LE(8, u64s[i]));
      }
      assert cells[..|cells|] == cells;
    }

    method PutU16s(out: Buffer)
      requires |u16s| == |cells| && forall i | 0 <= i < |cells| :: Fixed(cells[i]) == LE(2, u16s[i])
      modifies out
      ensures out.bytes == old(out.bytes) + Each(Fixed, cells)
    {
      for i := 0 to |u16s|
        invariant out.bytes == old(out.bytes) + Each(Fixed, cells[..i])
      {
        EachNext(Fixed, cells, i);
        out.Extend(LE(2, u16s[i]));
      }
      assert cells[..|cells|] == cells;
    }

    method PutI64s(out: Buffer)
      requires |i64s| == |cells| && forall i | 0 <= i < |cells| :: Fixed(cells[i]) == LE(8, Twos(i64s[i]))
      modifies out
      ensures out.bytes == old(out.bytes) + Each(Fixed, cells)
    {
      for i := 0 to |i64s|
        invariant out.bytes == old(out.bytes) + Each(Fixed, cells[..i])
      {
        EachNext(Fixed, cells, i);
        out.Extend(LE(8, Twos(i64s[i])));
      }
      assert cells[..|cells|] == cells;
    }

    method PutBits(out: Buffer)
      requires bits == Map(BitsOf, cells)
      modifies out
      ensures out.bytes == old(out.bytes) + Each(Slot, cells)
    {
      for i := 0 to |bits|
        invariant out.bytes == old(out.bytes) + Each(Slot, cells[..i])
      {
        EachNext(Slot, cells, i);
        out.Extend(LE(8, bits[i]));
      }
      assert cells[..|cells|] == cells;
    }

    method PutOffsets(out: Buffer)
      modifies out
      ensures out.bytes == old(out.bytes) + Each(Word, offsets)
    {
      for i := 0 to |offsets|
        invariant out.bytes == old(out.bytes) + Each(Word, offsets[..i])
      {
        EachNext(Word, offsets, i);
        out.Extend(LE(8, offsets[i]));
      }
      assert offsets[..|offsets|] == offsets;
    }
  }

  lemma {:induction false} NullMapBytes(cells: seq<Cell>)
    ensures Each(NullByte, cells) == Map(NullOf, cells)
  {
    if cells != [] {
      NullMapBytes(cells[1..]);
      assert Map(NullOf, cells) == [NullOf(cells[0])] + Map(NullOf, cells[1..]);
    }
  }

  // ----- the block

  datatype Block = Block(body: Bytes, rows: nat)

  /** No two columns, and no two dictionaries, are the same object. */
  ghost predicate Owned(columns: seq<Column>) {
    forall i, j | 0 <= i < j < |columns| :: columns[i] != columns[j] && columns[i].dict != columns[j].dict
  }

  /** The columns hold exactly the given rows. */
  ghost predicate Transposed(columns: seq<Column>, rows: seq<Row>)
    reads columns, set c | c in columns :: c.dict
  {
    && Owned(columns)
    && (forall i | 0 <= i < |rows| :: |rows[i]| == |columns|)
    && (forall j | 0 <= j < |columns| :: columns[j].Valid() && columns[j].cells == ColumnOf(rows, j))
  }

  lemma NothingTransposed()
    ensures Transposed([], [])
  {}

  method EmptyColumns(row: Row) returns (columns: seq<Column>)
    ensures |columns| == |row| && Transposed(columns, [])
    ensures forall j | 0 <= j < |row| ::
              fresh(columns[j]) && fresh(columns[j].dict) && columns[j].shape == ShapeOf(row[j])
  {
    hide Column.Valid;
    columns := [];
    for k := 0 to |row|
      invariant |columns| == k && Owned(columns)
      invariant forall j | 0 <= j < k ::
                  fresh(columns[j]) && fresh(columns[j].dict) && columns[j].shape == ShapeOf(row[j])
      invariant forall j | 0 <= j < k :: columns[j].Valid() && columns[j].cells == []
    {
      var c := new Column.EmptyFor(row[k]);
      columns := columns + [c];
    }
  }

  /** Appends one row to the columns; false is the panic on a cell of another shape. */
  method PushRow(columns: seq<Column>, row: Row, ghost rows: seq<Row>) returns (ok: bool)
    requires |columns| == |row| && Transposed(columns, rows)
    modifies columns, set c | c in columns :: c.dict
    ensures ok <==> forall j | 0 <= j < |row| :: ShapeOf(row[j]) == columns[j].shape
    ensures ok ==> Transposed(columns, rows + [row])
  {
    hide Column.Valid;
    for k := 0 to |row|
      invariant forall j | 0 <= j < k :: ShapeOf(row[j]) == columns[j].shape
      invariant forall j | 0 <= j < k :: columns[j].Valid() && columns[j].cells == ColumnOf(rows, j) + [row[j]]
      invariant forall j | k <= j < |row| :: columns[j].Valid() && columns[j].cells == ColumnOf(rows, j)
    {
      assert forall j | 0 <= j < |row| && j != k :: columns[j] != columns[k] && columns[j].dict != columns[k].dict;
      var pushed := columns[k].Push(row[k]);
      if !pushed { return false; }
    }
    forall j | 0 <= j < |columns| ensures columns[j].cells == ColumnOf(rows + [row], j) {
      assert ColumnOf(rows + [row], j) == ColumnOf(rows, j) + [row[j]];
    }
    ok := true;
  }

  /** Transposes the rows; false is the panic on rows of unequal widths or shapes. */
  method Transpose(rows: seq<Row>) returns (ok: bool, columns: seq<Column>)
    requires forall i | 0 <= i < |rows| :: rows[i] != []
    ensures ok ==> (columns == [] <==> rows == []) && Transposed(columns, rows)
    ensures ok ==> forall j | 0 <= j < |columns| :: fresh(columns[j]) && fresh(columns[j].dict)
    ensures ok ==> forall i | 0 <= i < |rows| :: |rows[i]| == |columns|
    ensures ok ==> forall i, j | 0 <= i < |rows| && 0 <= j < |columns| :: ShapeOf(rows[i][j]) == columns[j].shape
    ensures !ok ==> exists i | 0 <= i < |rows| :: Irregular(rows[0], rows[i])
  {
    hide Column.Valid, Transposed;
    NothingTransposed();
    columns := [];
    for k := 0 to |rows|
      invariant (columns == [] <==> k == 0) && Transposed(columns, rows[..k])
      invariant forall j | 0 <= j < |columns| :: fresh(columns[j]) && fresh(columns[j].dict)
      invariant k > 0 ==>
          |columns| == |rows[0]| && forall j | 0 <= j < |columns| :: columns[j].shape == ShapeOf(rows[0][j])
      invariant forall i | 0 <= i < k :: |rows[i]| == |columns|
      invariant forall i, j | 0 <= i < k && 0 <= j < |columns| :: ShapeOf(rows[i][j]) == columns[j].shape
    {
      var row := rows[k];
      if columns == [] {
        columns := EmptyColumns(row);
      }
      if |columns| != |row| {
        assert Irregular(rows[0], row);
        return false, [];
      }
      var pushed := PushRow(columns, row, rows[..k]);
      if !pushed {
        assert Irregular(rows[0], row);
        return false, [];
      }
      assert rows[..k + 1] == rows[..k] + [row];
    }
    assert rows[..|rows|] == rows;
    ok := true;
  }

  /** A row the encoder cannot append to columns shaped for `first`. */
  predicate Irregular(first: Row, row: Row) {
    |row| != |first| || exists j | 0 <= j < |first| :: ShapeOf(row[j]) != ShapeOf(first[j])
  }

  /** The block over the given rows; None is the panic on rows of unequal widths or
      shapes, or on a width other than the declared one. */
  method EncodeNativeBlock(declared: Header, rows: seq<Row>) returns (r: Option<Block>)
    requires |declared| <= MAX_LEN && |rows| <= MAX_LEN
    requires forall i | 0 <= i < |rows| :: rows[i] != []
    ensures r.Some? <==> Rectangular(declared, rows)
    ensures r.Some? ==> r.value == Block(BlockBytes(declared, rows), |rows|)
  {
    hide Column.Valid, Transposed, ColumnsFrom;
    var ok, columns := Transpose(rows);
    if !ok { return None; }
    if columns != [] && |columns| != |declared| {
      assert |rows[0]| == |columns| != |declared|;
      return None;
    }
    assert Rectangular(declared, rows) by {
      forall i, j | 0 <= i < |rows| && 0 <= j < |declared| ensures ShapeOf(rows[i][j]) == ShapeOf(rows[0][j]) {
        assert ShapeOf(rows[i][j]) == columns[j].shape;
      }
    }
    var body := new Buffer();
    PutVarint(body, |declared|);
    PutVarint(body, |rows|);
    PutColumns(declared, rows, columns, body);
    r := Some(Block(body.bytes, |rows|));
  }

  method PutColumn(declared: Header, ghost rows: seq<Row>, columns: seq<Column>, j: nat, out: Buffer)
    requires Rectangular(declared, rows) && j < |declared|
    requires columns == [] <==> rows == []
    requires Transposed(columns, rows)
    requires rows != [] ==> forall j | 0 <= j < |columns| :: columns[j].shape == ShapeOf(rows[0][j])
    modifies out
    ensures out.bytes == old(out.bytes) + ColumnBlock(declared, rows, j)
  {
    hide Column.Valid, ColumnBytes, Str, ShapeOf;
    ghost var start := out.bytes;
    PutString(out, declared[j].0);
    Assoc(start, Str(declared[j].0), Str(declared[j].1));
    PutString(out, declared[j].1);
    if j < |columns| {
      columns[j].WriteNative(out);
      Assoc(start, Str(declared[j].0) + Str(declared[j].1), ColumnBytes(columns[j].shape, columns[j].cells));
    }
  }

  method PutColumns(declared: Header, ghost rows: seq<Row>, columns: seq<Column>, out: Buffer)
    requires Rectangular(declared, rows)
    requires columns == [] <==> rows == []
    requires Transposed(columns, rows)
    requires rows != [] ==> forall j | 0 <= j < |columns| :: columns[j].shape == ShapeOf(rows[0][j])
    modifies out
    ensures out.bytes == old(out.bytes) + ColumnsFrom(declared, rows, 0)
  {
    hide Column.Valid, ColumnBlock, Transposed, ColumnBytes, Str, ShapeOf;
    for j := 0 to |declared|
      invariant out.bytes + ColumnsFrom(declared, rows, j) == old(out.bytes) + ColumnsFrom(declared, rows, 0)
    {
      ghost var start := out.bytes;
      PutColumn(declared, rows, columns, j, out);
      Assoc(start, ColumnBlock(declared, rows, j), ColumnsFrom(declared, rows, j + 1));
    }
  }
}

/** The reference decoder of a Native block, and the round trip through it. */
module NativeDecoder {
  import opened Wire
  import opened Cells
  import opened Native

  // ----- what the decoder reads, as functions of the bytes left

  function ReadIndex(w: IndexWidth): Bytes -> Parsed<nat> { bs => ReadLE(w.Octets(), bs) }

  /** The indexes of a group, each replaced by the dictionary entry it names. */
  function ReadIndexed(entries: seq<Text>, bs: Bytes): Parsed<seq<Text>> {
    var (count, r1) :- ReadWord(bs);
    var (indexes, r2) :- ReadMany<nat>(count, ReadIndex(WidthFor(|entries|)), r1);
    if exists i | 0 <= i < |indexes| :: indexes[i] >= |entries| then Panic
    else Got(seq(|indexes|, i requires 0 <= i < |indexes| => entries[indexes[i]]), r2)
  }

  /** One LowCardinality group, as the value each index names. */
  function ReadGroup(bs: Bytes): Parsed<seq<Text>> {
    var (flags, r1) :- ReadWord(bs);
    if flags - flags % 256 != INDEX_FLAGS then Panic
    else
      var (size, r2) :- ReadWord(r1);
      var (entries, r3) :- ReadMany<Text>(size, ReadStr, r2);
      if entries == [] || entries[0] != [] then Panic
      else if flags % 256 != WidthFor(|entries|).Code() then Panic
      else ReadIndexed(entries, r3)
  }

  function ReadFixed(t: ColType): Bytes -> Parsed<Cell> {
    bs =>
      PowersOf256();
      match t
      case TUInt64 => (var (v, r) :- ReadWord(bs); Got(UInt64(v), r))
      case TUInt16 => (var (v, r) :- ReadLE(2, bs); Got(UInt16(v), r))
      case TInt64 => (var (v, r) :- ReadWord(bs); Got(Int64(FromTwos(v)), r))
      case TDateTime64(scale) => (var (v, r) :- ReadWord(bs); Got(DateTime64(FromTwos(v), scale), r))
      case _ => Panic
  }

  /** flat[start..end] for each end in turn; None where a slice is out of range. */
  function Slices(flat: seq<Text>, start: nat, ends: seq<nat>): (r: Option<seq<seq<Text>>>)
    ensures r.Some? ==> |r.value| == |ends|
    decreases |ends|
  {
    if ends == [] then Some([])
    else if !(start <= ends[0] <= |flat|) then None
    else
      match Slices(flat, ends[0], ends[1..])
      case None => None
      case Some(more) => Some([flat[start..ends[0]]] + more)
  }

  predicate Below64(v: nat) { v < U64 }

  /** The null map decides; a null row's value slot is ignored. */
  function WithNulls(nulls: Bytes, values: seq<nat>): (cells: seq<Cell>)
    requires |nulls| == |values| && forall i | 0 <= i < |values| :: values[i] < U64
    ensures |cells| == |values|
        && forall i | 0 <= i < |values| :: cells[i] == NullableFloat64(if nulls[i] == 1 then None else Some(values[i]))
  {
    seq(|values|, i requires 0 <= i < |values| => NullableFloat64(if nulls[i] == 1 then None else Some(values[i])))
  }

  function ReadNullable(rows: nat, bs: Bytes): (r: Parsed<seq<Cell>>)
    ensures r.Got? ==> |r.value| == rows && forall i | 0 <= i < rows :: TypeOf(r.value[i]) == TNullableFloat64
  {
    var (nulls, r1) :- Take(rows, bs);
    var (values, r2) :- ReadMany<nat>(rows, ReadWord, r1);
    ReadManyAll<nat>(rows, ReadWord, r1, Below64);
    assert forall i | 0 <= i < rows :: Below64(values[i]);
    Got(WithNulls(nulls, values), r2)
  }

  function ReadLowCard(rows: nat, bs: Bytes): (r: Parsed<seq<Cell>>)
    ensures r.Got? ==> |r.value| == rows && forall i | 0 <= i < rows :: TypeOf(r.value[i]) == TLowCard
  {
    var (version, r1) :- ReadWord(bs);
    if version != KEY_VERSION then Panic
    else
      var (texts, r2) :- ReadGroup(r1);
      if |texts| != rows then Panic else Got(Map(t => LowCardString(t), texts), r2)
  }

  function ReadArrays(rows: nat, bs: Bytes): (r: Parsed<seq<Cell>>)
    ensures r.Got? ==> |r.value| == rows && forall i | 0 <= i < rows :: TypeOf(r.value[i]) == TLowCardArray
  {
    var (version, r1) :- ReadWord(bs);
    if version != KEY_VERSION then Panic
    else
      var (ends, r2) :- ReadMany<nat>(rows, ReadWord, r1);
      var total := if ends == [] then 0 else ends[|ends| - 1];
      var (flat, r3) :- if total == 0 then Got([], r2) else ReadGroup(r2);
      if |flat| != total then Panic
      else
        match Slices(flat, 0, ends)
        case None => Panic
        case Some(lists) => Got(Map(ts => LowCardStringArray(ts), lists), r3)
  }

  lemma FixedIsTyped(t: ColType, bs: Bytes)
    ensures ReadFixed(t)(bs).Got? ==> TypeOf(ReadFixed(t)(bs).value) == t
  {
    hide ReadWord, ReadLE, FromTwos;
  }

  lemma FixedAreTyped(t: ColType, rows: nat, bs: Bytes)
    ensures ReadMany(rows, ReadFixed(t), bs).Got? ==>
              forall i | 0 <= i < rows :: TypeOf(ReadMany(rows, ReadFixed(t), bs).value[i]) == t
  {
    hide ReadFixed, ReadMany, TypeOf;
    forall b | ReadFixed(t)(b).Got? ensures TypeOf(ReadFixed(t)(b).value) == t {
      FixedIsTyped(t, b);
    }
    ReadManyAll(rows, ReadFixed(t), bs, c => TypeOf(c) == t);
  }

  function ReadColumn(t: ColType, rows: nat, bs: Bytes): (r: Parsed<seq<Cell>>)
    ensures r.Got? ==> |r.value| == rows && forall i | 0 <= i < rows :: TypeOf(r.value[i]) == t
  {
    match t
    case TNullableFloat64 => ReadNullable(rows, bs)
    case TLowCard => ReadLowCard(rows, bs)
    case TLowCardArray => ReadArrays(rows, bs)
    case _ =>
      FixedAreTyped(t, rows, bs);
      ReadMany(rows, ReadFixed(t), bs)
  }

  datatype NamedColumn = NamedColumn(name: Text, ty: Text, cells: seq<Cell>)

  /** A column as long as the block whose cells are of its declared type. */
  predicate Typed(column: NamedColumn, rows: nat) {
    && |column.cells| == rows
    && forall i | 0 <= i < rows :: ParseType(column.ty) == Some(TypeOf(column.cells[i]))
  }

  function ReadNamed(rows: nat, bs: Bytes): (r: Parsed<NamedColumn>)
    ensures r.Got? ==> Typed(r.value, rows)
  {
    var (name, r1) :- ReadStr(bs);
    var (ty, r2) :- ReadStr(r1);
    match ParseType(ty)
    case None => Panic
    case Some(t) =>
      var (cells, r3) :- ReadColumn(t, rows, r2);
      Got(NamedColumn(name, ty, cells), r3)
  }

  function ReadColumns(n: nat, rows: nat, bs: Bytes): (r: Parsed<seq<NamedColumn>>)
    ensures r.Got? ==> |r.value| == n && forall j | 0 <= j < n :: Typed(r.value[j], rows)
  {
    if n == 0 then Got([], bs)
    else
      var (column, r1) :- ReadNamed(rows, bs);
      var (more, r2) :- ReadColumns(n - 1, rows, r1);
      Got([column] + more, r2)
  }

  datatype Decoded = Decoded(declared: Header, rows: seq<Row>)

  function RowsOf(columns: seq<NamedColumn>, rows: nat): (rs: seq<Row>)
    requires forall j | 0 <= j < |columns| :: |columns[j].cells| == rows
    ensures |rs| == rows && forall i | 0 <= i < rows :: |rs[i]| == |columns|
    ensures forall i, j | 0 <= i < rows && 0 <= j < |columns| :: rs[i][j] == columns[j].cells[i]
  {
    seq(rows, i requires 0 <= i < rows => seq(|columns|, j requires 0 <= j < |columns| => columns[j].cells[i]))
  }

  function HeaderOf(columns: seq<NamedColumn>): (h: Header)
    ensures |h| == |columns| && forall j | 0 <= j < |h| :: h[j] == (columns[j].name, columns[j].ty)
  {
    seq(|columns|, j requires 0 <= j < |columns| => (columns[j].name, columns[j].ty))
  }

  /** None where the decoder panics, trailing bytes included. */
  function DecodeNative(bs: Bytes): Option<Decoded> {
    match ReadVarint(bs)
    case Panic => None
    case Got(n, r1) =>
      match ReadVarint(r1)
      case Panic => None
      case Got(rows, r2) =>
        match ReadColumns(n, rows, r2)
        case Panic => None
        case Got(columns, r3) => if r3 != [] then None else Some(Decoded(HeaderOf(columns), RowsOf(columns, rows)))
  }

  // ----- the round trip

  lemma GroupRoundTrip(values: seq<Text>, rest: Bytes)
    requires 0 < |values| < MAX_LEN
    ensures ReadGroup(Group(values) + rest) == Got(values, rest)
  {
    hide Each, ReadMany, ReadIndexed, ReadWord, DictOf, IndexBytes, WidthFor;
    var entries := DictOf(values);
    var w := WidthFor(|entries|);
    var flags := w.Code() + INDEX_FLAGS;
    var strs, indexes := Each(Str, entries), Each(IndexBytes(entries, w), values);
    assert Group(values) == Word(flags) + Word(|entries|) + strs + Word(|values|) + indexes;
    Regroup(Word(flags), Word(|entries|), strs, Word(|values|), indexes, rest);
    WordRoundTrip(flags, Word(|entries|) + (strs + (Word(|values|) + (indexes + rest))));
    WordRoundTrip(|entries|, strs + (Word(|values|) + (indexes + rest)));
    EntriesRoundTrip(entries, Word(|values|) + (indexes + rest));
    IndexedRoundTrip(values, rest);
    assert flags % 256 == w.Code();
  }

  lemma EntriesRoundTrip(entries: seq<Text>, rest: Bytes)
    ensures ReadMany<Text>(|entries|, ReadStr, Each(Str, entries) + rest) == Got(entries, rest)
  {
    forall i, r | 0 <= i < |entries| ensures ReadStr(Str(entries[i]) + r) == Got(Same(entries[i]), r) {
      StrRoundTrip(entries[i], r);
    }
    ManyRoundTrip<Text, Text>(Str, Same, ReadStr, entries, rest);
    assert Map(Same, entries) == entries;
  }

  lemma IndexedRoundTrip(values: seq<Text>, rest: Bytes)
    requires |values| < MAX_LEN
    ensures var entries := DictOf(values);
      ReadIndexed(entries, Word(|values|) + (Each(IndexBytes(entries, WidthFor(|entries|)), values) + rest))
        == Got(values, rest)
  {
    var entries := DictOf(values);
    var w := WidthFor(|entries|);
    var e := Each(IndexBytes(entries, w), values) + rest;
    WordRoundTrip(|values|, e);
    IndexesRoundTrip(values, w, rest);
    var indexes := Map<Text, nat>(IndexOf(entries), values);
    assert seq(|indexes|, i requires 0 <= i < |indexes| => entries[indexes[i]]) == values;
  }

  function Same(t: Text): Text { t }

  function IndexOf(entries: seq<Text>): Text -> nat { v => IndexIn(entries, v) }

  lemma IndexesRoundTrip(values: seq<Text>, w: IndexWidth, rest: Bytes)
    requires |values| < MAX_LEN && w == WidthFor(|DictOf(values)|)
    ensures var entries := DictOf(values);
      var indexes := Map<Text, nat>(IndexOf(entries), values);
      && ReadMany<nat>(|values|, ReadIndex(w), Each(IndexBytes(entries, w), values) + rest) == Got(indexes, rest)
      && forall i | 0 <= i < |values| :: indexes[i] < |entries| && entries[indexes[i]] == values[i]
  {
    var entries := DictOf(values);
    forall i | 0 <= i < |values|
      ensures IndexIn(entries, values[i]) < |entries| && entries[IndexIn(entries, values[i])] == values[i]
    {
      DictHoldsItsValues(values, i);
    }
    forall i, r | 0 <= i < |values|
      ensures ReadIndex(w)(IndexBytes(entries, w)(values[i]) + r) == Got(IndexOf(entries)(values[i]), r)
    {
      WidthIsTight(|entries|, IndexIn(entries, values[i]));
      LERoundTrip(w.Octets(), IndexIn(entries, values[i]), r);
    }
    ManyRoundTrip<Text, nat>(IndexBytes(entries, w), IndexOf(entries), ReadIndex(w), values, rest);
  }

  function SameCell(c: Cell): Cell { c }

  lemma FixedCellRoundTrip(t: ColType, c: Cell, r: Bytes)
    requires t.TUInt64? || t.TUInt16? || t.TInt64? || t.TDateTime64?
    requires TypeOf(c) == t
    ensures ReadFixed(t)(Fixed(c) + r) == Got(c, r)
  {
    hide LE, FromLE, ReadLE, ReadWord, Pow256;
    PowersOf256();
    match c {
      case UInt64(v) => WordRoundTrip(v, r);
      case UInt16(v) => LERoundTrip(2, v, r);
      case Int64(v) => WordRoundTrip(Twos(v), r);
      case DateTime64(ticks, _) => WordRoundTrip(Twos(ticks), r);
    }
  }

  lemma FixedRoundTrip(t: ColType, cells: seq<Cell>, rest: Bytes)
    requires t.TUInt64? || t.TUInt16? || t.TInt64? || t.TDateTime64?
    requires forall i | 0 <= i < |cells| :: TypeOf(cells[i]) == t
    ensures ReadMany<Cell>(|cells|, ReadFixed(t), Each(Fixed, cells) + rest) == Got(cells, rest)
  {
    hide Each, ReadMany, ReadFixed, Fixed, TypeOf;
    forall i, r | 0 <= i < |cells| ensures ReadFixed(t)(Fixed(cells[i]) + r) == Got(SameCell(cells[i]), r) {
      FixedCellRoundTrip(t, cells[i], r);
    }
    ManyRoundTrip<Cell, Cell>(Fixed, SameCell, ReadFixed(t), cells, rest);
    assert Map(SameCell, cells) == cells;
  }

  function SlotValue(c: Cell): nat { BitsOf(c) }

  lemma SlotRoundTrip(c: Cell, r: Bytes)
    ensures ReadWord(Slot(c) + r) == Got(SlotValue(c), r)
  {
    WordRoundTrip(BitsOf(c), r);
  }

  lemma SlotsRoundTrip(cells: seq<Cell>, rest: Bytes)
    ensures ReadMany<nat>(|cells|, ReadWord, Each(Slot, cells) + rest) == Got(Map(SlotValue, cells), rest)
  {
    hide Each, ReadMany, ReadWord, Slot, SlotValue;
    forall i, r | 0 <= i < |cells| ensures ReadWord(Slot(cells[i]) + r) == Got(SlotValue(cells[i]), r) {
      SlotRoundTrip(cells[i], r);
    }
    ManyRoundTrip<Cell, nat>(Slot, SlotValue, ReadWord, cells, rest);
  }

  lemma NullableRoundTrip(cells: seq<Cell>, rest: Bytes)
    requires forall i | 0 <= i < |cells| :: TypeOf(cells[i]) == TNullableFloat64
    ensures ReadNullable(|cells|, Each(NullByte, cells) + Each(Slot, cells) + rest) == Got(cells, rest)
  {
    hide Each, ReadMany, ReadWord, NullByte, Slot, LE, Take, Below64;
    Assoc(Each(NullByte, cells), Each(Slot, cells), rest);
    NullMapBytes(cells);
    TakeExact(Map(NullOf, cells), Each(Slot, cells) + rest);
    SlotsRoundTrip(cells, rest);
    assert WithNulls(Map(NullOf, cells), Map(SlotValue, cells)) == cells;
  }

  lemma LowCardRoundTrip(cells: seq<Cell>, rest: Bytes)
    requires 0 < |cells| < MAX_LEN
    requires forall i | 0 <= i < |cells| :: TypeOf(cells[i]) == TLowCard
    ensures ReadLowCard(|cells|, Word(KEY_VERSION) + Group(Map(TextOf, cells)) + rest) == Got(cells, rest)
  {
    hide Group, ReadGroup, LE, ReadWord;
    var texts := Map(TextOf, cells);
    Assoc(Word(KEY_VERSION), Group(texts), rest);
    WordRoundTrip(KEY_VERSION, Group(texts) + rest);
    GroupRoundTrip(texts, rest);
    assert Map(t => LowCardString(t), texts) == cells;
  }

  lemma {:induction false} FlattenPrefix(cells: seq<Cell>, k: nat)
    requires k <= |cells|
    ensures Flatten(cells[..k]) <= Flatten(cells)
  {
    if k == |cells| {
      assert cells[..k] == cells;
    } else {
      FlattenPrefix(cells[..|cells| - 1], k);
      assert cells[..|cells| - 1][..k] == cells[..k];
    }
  }

  lemma {:induction false} OffsetsAt(cells: seq<Cell>, k: nat)
    requires k < |cells|
    ensures Offsets(cells)[k] == |Flatten(cells[..k + 1])|
  {
    if k == |cells| - 1 {
      assert cells[..k + 1] == cells;
    } else {
      OffsetsAt(cells[..|cells| - 1], k);
      assert cells[..|cells| - 1][..k + 1] == cells[..k + 1];
    }
  }

  /** Slicing the flattened elements at the cumulative ends gives each row its own. */
  lemma {:induction false} SlicesAtOffsets(cells: seq<Cell>, k: nat)
    requires k <= |cells|
    ensures Slices(Flatten(cells), |Flatten(cells[..k])|, Offsets(cells)[k..]) == Some(Map(TagsOf, cells[k..]))
    decreases |cells| - k
  {
    hide Flatten, Offsets;
    var flat, ends := Flatten(cells), Offsets(cells);
    if k < |cells| {
      OffsetsAt(cells, k);
      FlattenPrefix(cells, k + 1);
      assert cells[..k + 1] == cells[..k] + [cells[k]];
      FlattenAppend(cells[..k], cells[k]);
      var start := |Flatten(cells[..k])|;
      assert ends[k..][0] == ends[k] && ends[k..][1..] == ends[k + 1..];
      assert flat[start..ends[k]] == Flatten(cells[..k + 1])[start..] == TagsOf(cells[k]);
      SlicesAtOffsets(cells, k + 1);
      assert Map(TagsOf, cells[k..]) == [TagsOf(cells[k])] + Map(TagsOf, cells[k + 1..]);
    }
  }

  lemma WholeSlices(cells: seq<Cell>)
    requires cells != []
    ensures Offsets(cells)[|cells| - 1] == |Flatten(cells)|
    ensures forall i | 0 <= i < |cells| :: Offsets(cells)[i] <= |Flatten(cells)|
    ensures Slices(Flatten(cells), 0, Offsets(cells)) == Some(Map(TagsOf, cells))
  {
    forall i | 0 <= i < |cells| ensures Offsets(cells)[i] <= |Flatten(cells)| {
      OffsetsAt(cells, i);
      FlattenPrefix(cells, i + 1);
    }
    OffsetsAt(cells, |cells| - 1);
    assert cells[..|cells|] == cells && cells[0..] == cells && Offsets(cells)[0..] == Offsets(cells);
    SlicesAtOffsets(cells, 0);
  }

  lemma OffsetsRoundTrip(ends: seq<nat>, rest: Bytes)
    requires forall i | 0 <= i < |ends| :: ends[i] < U64
    ensures ReadMany<nat>(|ends|, ReadWord, Each(Word, ends) + rest) == Got(ends, rest)
  {
    hide Each, ReadMany, ReadWord, LE;
    forall i, r | 0 <= i < |ends| ensures ReadWord(Word(ends[i]) + r) == Got(SameNat(ends[i]), r) {
      WordRoundTrip(ends[i], r);
    }
    ManyRoundTrip<nat, nat>(Word, SameNat, ReadWord, ends, rest);
    assert Map<nat, nat>(SameNat, ends) == ends;
  }

  lemma ArraysRoundTrip(cells: seq<Cell>, rest: Bytes)
    requires 0 < |cells| && |Flatten(cells)| < MAX_LEN
    requires forall i | 0 <= i < |cells| :: TypeOf(cells[i]) == TLowCardArray
    ensures ReadArrays(|cells|, Word(KEY_VERSION) + Each(Word, Offsets(cells)) + Group(Flatten(cells)) + rest)
        == Got(cells, rest)
  {
    hide ReadGroup, LE, ReadWord, Each, ReadMany, Offsets, Slices, Flatten, GroupOver;
    var flat, ends := Flatten(cells), Offsets(cells);
    var r2 := Group(flat) + rest;
    Assoc(Word(KEY_VERSION) + Each(Word, ends), Group(flat), rest);
    Assoc(Word(KEY_VERSION), Each(Word, ends), r2);
    WordRoundTrip(KEY_VERSION, Each(Word, ends) + r2);
    WholeSlices(cells);
    OffsetsRoundTrip(ends, r2);
    if flat == [] { assert r2 == rest; } else { GroupRoundTrip(flat, rest); }
    assert Map(ts => LowCardStringArray(ts), Map(TagsOf, cells)) == cells;
  }

  function SameNat(n: nat): nat { n }

  /** Every column of every type reads back, for every dictionary size, null pattern and
      array length. */
  lemma ColumnRoundTrip(t: ColType, cells: seq<Cell>, rest: Bytes)
    requires 0 < |cells| < MAX_LEN && |Flatten(cells)| < MAX_LEN
    requires forall i | 0 <= i < |cells| :: TypeOf(cells[i]) == t
    ensures ReadColumn(t, |cells|, ColumnBytes(ShapeOfType(t), cells) + rest) == Got(cells, rest)
  {
    hide ReadNullable, ReadLowCard, ReadArrays, ReadMany, Each, Group, Flatten, Offsets, ReadFixed, LE;
    match t
    case TNullableFloat64 => NullableRoundTrip(cells, rest);
    case TLowCard => LowCardRoundTrip(cells, rest);
    case TLowCardArray => ArraysRoundTrip(cells, rest);
    case _ => FixedRoundTrip(t, cells, rest);
  }

  /** What memory allows: no column holds isize::MAX elements. */
  ghost predicate FitsMemory(declared: Header, rows: seq<Row>)
    requires Rectangular(declared, rows)
  {
    && |declared| <= MAX_LEN && |rows| < MAX_LEN
    && forall j | 0 <= j < |declared| :: |Flatten(ColumnOf(rows, j))| < MAX_LEN
  }

  /** The header spells the type each cell claims. */
  predicate TypesAgree(declared: Header, rows: seq<Row>)
    requires Rectangular(declared, rows)
  {
    forall i, j | 0 <= i < |rows| && 0 <= j < |declared| :: ParseType(declared[j].1) == Some(TypeOf(rows[i][j]))
  }

  function NamedFrom(declared: Header, rows: seq<Row>, j: nat): (columns: seq<NamedColumn>)
    requires Rectangular(declared, rows) && j <= |declared|
    ensures |columns| == |declared| - j
    ensures forall k | j <= k < |declared| ::
              columns[k - j] == NamedColumn(declared[k].0, declared[k].1, ColumnOf(rows, k))
    decreases |declared| - j
  {
    if j == |declared| then []
    else [NamedColumn(declared[j].0, declared[j].1, ColumnOf(rows, j))] + NamedFrom(declared, rows, j + 1)
  }

  lemma NamedRoundTrip(declared: Header, rows: seq<Row>, j: nat, rest: Bytes)
    requires Rectangular(declared, rows) && rows != [] && FitsMemory(declared, rows) && TypesAgree(declared, rows)
    requires j < |declared|
    ensures ReadNamed(|rows|, ColumnBlock(declared, rows, j) + rest)
         == Got(NamedColumn(declared[j].0, declared[j].1, ColumnOf(rows, j)), rest)
  {
    hide Str, ReadStr, ReadColumn, ColumnBytes, Flatten, ParseType, Varint;
    var (name, ty) := declared[j];
    var t, cells := TypeOf(rows[0][j]), ColumnOf(rows, j);
    forall i | 0 <= i < |rows| ensures TypeOf(cells[i]) == t {
      assert ParseType(ty) == Some(TypeOf(rows[i][j])) == Some(TypeOf(rows[0][j]));
    }
    var body := ColumnBytes(ShapeOfType(t), cells);
    Assoc(Str(name) + Str(ty), body, rest);
    Assoc(Str(name), Str(ty), body + rest);
    StrRoundTrip(name, Str(ty) + (body + rest));
    StrRoundTrip(ty, body + rest);
    ColumnRoundTrip(t, cells, rest);
  }

  lemma {:induction false} ColumnsRoundTrip(declared: Header, rows: seq<Row>, j: nat)
    requires Rectangular(declared, rows) && rows != [] && FitsMemory(declared, rows) && TypesAgree(declared, rows)
    requires j <= |declared|
    ensures ReadColumns(|declared| - j, |rows|, ColumnsFrom(declared, rows, j)) == Got(NamedFrom(declared, rows, j), [])
    decreases |declared| - j
  {
    hide ReadNamed, ColumnBlock, FitsMemory, TypesAgree, Rectangular;
    if j < |declared| {
      NamedRoundTrip(declared, rows, j, ColumnsFrom(declared, rows, j + 1));
      ColumnsRoundTrip(declared, rows, j + 1);
    }
  }

  /** A non-empty block reads back as exactly its header and rows if, and only if, the
      header spells the cells' types. */
  lemma NativeRoundTrip(declared: Header, rows: seq<Row>)
    requires Rectangular(declared, rows) && rows != [] && FitsMemory(declared, rows)
    ensures DecodeNative(BlockBytes(declared, rows)) == Some(Decoded(declared, rows)) <==> TypesAgree(declared, rows)
  {
    hide DecodeNative, BlockBytes, TypesAgree;
    if TypesAgree(declared, rows) { AgreeingBlockRoundTrip(declared, rows); }
    if DecodeNative(BlockBytes(declared, rows)) == Some(Decoded(declared, rows)) { DecodedTypesAgree(declared, rows); }
  }

  lemma AgreeingBlockRoundTrip(declared: Header, rows: seq<Row>)
    requires Rectangular(declared, rows) && rows != [] && FitsMemory(declared, rows) && TypesAgree(declared, rows)
    ensures DecodeNative(BlockBytes(declared, rows)) == Some(Decoded(declared, rows))
  {
    hide BlockBytes, ReadColumns, ReadVarint, TypesAgree, ColumnsFrom, Varint, HeaderOf, RowsOf, NamedFrom;
    HeaderCounts(declared, rows);
    ColumnsRoundTrip(declared, rows, 0);
    NamedHoldRows(declared, rows);
  }

  lemma NamedHoldRows(declared: Header, rows: seq<Row>)
    requires Rectangular(declared, rows)
    ensures var columns := NamedFrom(declared, rows, 0);
      && HeaderOf(columns) == declared
      && (forall j | 0 <= j < |columns| :: |columns[j].cells| == |rows|)
      && RowsOf(columns, |rows|) == rows
  {
    var columns := NamedFrom(declared, rows, 0);
    forall k | 0 <= k < |columns|
      ensures columns[k] == NamedColumn(declared[k].0, declared[k].1, ColumnOf(rows, k))
    {
      assert columns[k - 0] == columns[k] && declared[k] == declared[k];
    }
    assert HeaderOf(columns) == declared;
    forall i | 0 <= i < |rows| ensures RowsOf(columns, |rows|)[i] == rows[i] {}
  }

  lemma HeaderCounts(declared: Header, rows: seq<Row>)
    requires Rectangular(declared, rows) && |declared| <= MAX_LEN && |rows| <= MAX_LEN
    ensures var body := ColumnsFrom(declared, rows, 0);
      && ReadVarint(BlockBytes(declared, rows)) == Got(|declared|, Varint(|rows|) + body)
      && ReadVarint(Varint(|rows|) + body) == Got(|rows|, body)
  {
    var body := ColumnsFrom(declared, rows, 0);
    Assoc(Varint(|declared|), Varint(|rows|), body);
    VarintRoundTrip(|declared|, Varint(|rows|) + body);
    VarintRoundTrip(|rows|, body);
  }

  lemma DecodedTypesAgree(declared: Header, rows: seq<Row>)
    requires Rectangular(declared, rows) && |declared| <= MAX_LEN && |rows| <= MAX_LEN
    requires DecodeNative(BlockBytes(declared, rows)) == Some(Decoded(declared, rows))
    ensures TypesAgree(declared, rows)
  {
    HeaderCounts(declared, rows);
    var columns := ReadColumns(|declared|, |rows|, ColumnsFrom(declared, rows, 0)).value;
    forall i, j | 0 <= i < |rows| && 0 <= j < |declared|
      ensures ParseType(declared[j].1) == Some(TypeOf(rows[i][j]))
    {
      assert Typed(columns[j], |rows|);
      assert declared[j] == HeaderOf(columns)[j] && rows[i][j] == RowsOf(columns, |rows|)[i][j];
    }
  }

  /** Every row's cells declare the header's types, as `declared_type` spells them. */
  lemma DeclaredTypesAgree(declared: Header, rows: seq<Row>)
    requires Rectangular(declared, rows)
    requires forall i, j | 0 <= i < |rows| && 0 <= j < |declared| :: declared[j].1 == TypeName(TypeOf(rows[i][j]))
    ensures TypesAgree(declared, rows)
  {
    forall i, j | 0 <= i < |rows| && 0 <= j < |declared| ensures ParseType(declared[j].1) == Some(TypeOf(rows[i][j])) {
      TypeNameParses(TypeOf(rows[i][j]));
    }
  }

  // ----- the block of no rows

  predicate HasKeyVersion(ty: Text) {
    ParseType(ty) in {Some(TLowCard), Some(TLowCardArray)}
  }

  /** A block of no rows writes no key version, and the decoder demands one: it reads back
      exactly when no column is LowCardinality. */
  lemma ZeroRowBlock(declared: Header)
    requires |declared| <= MAX_LEN
    requires forall j | 0 <= j < |declared| :: ParseType(declared[j].1).Some?
    ensures DecodeNative(BlockBytes(declared, [])).Some?
        <==> forall j | 0 <= j < |declared| :: !HasKeyVersion(declared[j].1)
    ensures DecodeNative(BlockBytes(declared, [])).Some? ==>
        DecodeNative(BlockBytes(declared, [])) == Some(Decoded(declared, []))
  {
    HeaderCounts(declared, []);
    ZeroRowColumns(declared, 0);
    if DecodeNative(BlockBytes(declared, [])).Some? {
      assert HeaderOf(NamedFrom(declared, [], 0)) == declared;
    }
  }

  function Spelled(name: string, ty: string): (Text, Text)
    requires |name| < 128 && forall i | 0 <= i < |name| :: name[i] < 128 as char
    requires |ty| < 128 && forall i | 0 <= i < |ty| :: ty[i] < 128 as char
  {
    var n: Text := Ascii(name);
    var t: Text := Ascii(ty);
    (n, t)
  }

  function IdColumns(): Header {
    [Spelled("batch_id", "UInt64"), Spelled("event_seq", "UInt16")]
  }

  function NameColumns(): Header {
    var ty := "LowCardinality(String)";
    [Spelled("sensor", ty), Spelled("region", ty), Spelled("name_upper", ty), Spelled("unit", ty)]
  }

  function ValueColumns(): Header {
    [Spelled("value", "Int64"), Spelled("value_scaled", "Int64"), Spelled("quality", "Nullable(Float64)")]
  }

  function TagAndTimeColumns(): Header {
    [Spelled("tags", "Array(LowCardinality(String))"),
     Spelled("batch_ts", "DateTime64(3)"), Spelled("send_ts", "DateTime64(6)")]
  }

  /** The columns of the target table, which every block of the program declares. */
  function Columns(): Header { IdColumns() + NameColumns() + ValueColumns() + TagAndTimeColumns() }

  const TABLE_TYPES: seq<ColType> := [TUInt64, TUInt16, TLowCard, TLowCard, TLowCard, TLowCard, TInt64, TInt64,
                                      TNullableFloat64, TLowCardArray, TDateTime64(3), TDateTime64(6)]

  lemma ScaleSpelled(scale: U8, ty: string)
    requires scale < 10 && ty == "DateTime64(" + ['0' + scale as char] + ")"
    ensures (forall i | 0 <= i < |ty| :: ty[i] < 128 as char) && Ascii(ty) == TypeName(TDateTime64(scale))
  {
    assert Ascii(ty) == Ascii("DateTime64(") + [48 + scale] + Ascii(")");
    assert Numeral(Decimal.Digits(scale)) == [48 + scale];
  }

  lemma ColumnsParse(j: nat)
    requires j < |Columns()|
    ensures ParseType(Columns()[j].1) == Some(TABLE_TYPES[j])
  {
    hide ParseType;
    TypeNameParses(TABLE_TYPES[j]);
    ScaleSpelled(3, "DateTime64(3)");
    ScaleSpelled(6, "DateTime64(6)");
    assert Columns()[j].1 == TypeName(TABLE_TYPES[j]);
  }

  /** The block the program would write for no rows does not decode. */
  lemma EmptyBlockOfTheTable()
    ensures |Columns()| == 12 && DecodeNative(BlockBytes(Columns(), [])) == None
  {
    hide DecodeNative, BlockBytes, ParseType, TypeName, Ascii;
    forall j | 0 <= j < |Columns()| ensures ParseType(Columns()[j].1).Some? {
      ColumnsParse(j);
    }
    ColumnsParse(2);
    assert HasKeyVersion(Columns()[2].1);
    ZeroRowBlock(Columns());
  }

  lemma ZeroRowNamed(name: Text, ty: Text, rest: Bytes)
    requires ParseType(ty).Some?
    requires ReadWord(rest).Got? ==> ReadWord(rest).value != KEY_VERSION
    ensures ReadNamed(0, Str(name) + Str(ty) + rest)
        == if HasKeyVersion(ty) then Panic else Got(NamedColumn(name, ty, []), rest)
  {
    hide Str, ReadStr, ReadWord, ParseType;
    Assoc(Str(name), Str(ty), rest);
    StrRoundTrip(name, Str(ty) + rest);
    StrRoundTrip(ty, rest);
  }

  lemma {:induction false} ZeroRowColumns(declared: Header, j: nat)
    requires j <= |declared|
    requires forall k | 0 <= k < |declared| :: ParseType(declared[k].1).Some?
    ensures ReadColumns(|declared| - j, 0, ColumnsFrom(declared, [], j))
      == if forall k | j <= k < |declared| :: !HasKeyVersion(declared[k].1)
        then Got(NamedFrom(declared, [], j), []) else Panic
    decreases |declared| - j
  {
    hide Str, ReadNamed, ReadWord, ParseType, HasKeyVersion, ColumnBytes;
    if j < |declared| {
      var (name, ty) := declared[j];
      var rest := ColumnsFrom(declared, [], j + 1);
      HeaderIsNoKeyVersion(declared, j + 1);
      assert ColumnsFrom(declared, [], j) == Str(name) + Str(ty) + rest;
      ZeroRowNamed(name, ty, rest);
      ZeroRowColumns(declared, j + 1);
      assert ColumnOf([], j) == [];
    }
  }

  /** The bytes after a column header are never a key version: they end, or they start
      with another header. */
  lemma HeaderIsNoKeyVersion(declared: Header, j: nat)
    requires j <= |declared|
    requires forall k | 0 <= k < |declared| :: ParseType(declared[k].1).Some?
    ensures var r := ReadWord(ColumnsFrom(declared, [], j)); r.Got? ==> r.value != KEY_VERSION
  {
    var bs := ColumnsFrom(declared, [], j);
    if j < |declared| && |bs| >= 8 {
      var (name, ty) := declared[j];
      EmptyTypeUnknown();
      assert ty != [];
      FromLEOne(bs[..8]);
      assert bs[0] == Varint(|name|)[0];
      if bs[0] == 1 {
        assert |name| == 1 && |Varint(|name|)| == 1;
        assert bs[2] == Str(ty)[0] == Varint(|ty|)[0] > 0;
      }
    }
  }

  lemma FromLEOne(word: Bytes)
    requires |word| >= 3
    ensures FromLE(word) == 1 ==> word[0] == 1 && word[2] == 0
  {
    var w1, w2 := word[1..], word[1..][1..];
    assert FromLE(word) == word[0] + 256 * FromLE(w1);
    assert FromLE(w1) == w1[0] + 256 * FromLE(w2);
    assert FromLE(w2) == w2[0] + 256 * FromLE(w2[1..]);
    assert w2[0] == word[2];
  }

  lemma EmptyTypeUnknown()
    ensures ParseType([]) == None
  {
    assert |Ascii("UInt64")| == 6 && |Ascii("UInt16")| == 6 && |Ascii("Int64")| == 5 && |Ascii("DateTime64(")| == 11;
    assert |Ascii("Nullable(Float64)")| == 17 && |Ascii("LowCardinality(String)")| == 22;
    assert |Ascii("Array(LowCardinality(String))")| == 29;
  }
}

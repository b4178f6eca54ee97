/** The reference decoder as it runs: a cursor over the block's bytes. */
module NativeReader {
  import opened Wire
  import opened Cells
  import opened Native
  import opened NativeDecoder

  /** An outcome `r` that left `rest` is the one the read specifies; None is a panic. */
  ghost predicate Reads<T(!new)>(spec: Parsed<T>, r: Option<T>, rest: Bytes) {
    match spec
    case Panic => r == None
    case Got(v, left) => r == Some(v) && rest == left
  }

  /** A run of reads that has got `done` so far and would get `now` from here. */
  ghost predicate Resumes<T(!new)>(spec: Parsed<seq<T>>, done: seq<T>, now: Parsed<seq<T>>) {
    match now
    case Panic => spec == Panic
    case Got(more, rest) => spec.Got? && spec.value == done + more && spec.rest == rest
  }

  class Reader {
    const bytes: Bytes
    var at: nat

    ghost predicate Valid()
      reads this
    {
      at <= |bytes|
    }

    ghost function Rest(): Bytes
      reads this
      requires Valid()
    {
      bytes[at..]
    }

    constructor (body: Bytes)
      ensures Valid() && Rest() == body && bytes == body
    {
      bytes := body;
      at := 0;
    }

    method Take(n: nat) returns (r: Option<Bytes>)
      requires Valid()
      modifies this
      ensures Valid() && Reads(Wire.Take(n, old(Rest())), r, Rest())
    {
      var end := at + n;
      if end > |bytes| { return None; }
      assert Rest()[..n] == bytes[at..end] && Rest()[n..] == bytes[end..];
      r := Some(bytes[at..end]);
      at := end;
    }

    method Varint() returns (r: Option<nat>)
      requires Valid()
      modifies this
      ensures Valid() && Reads(ReadVarint(old(Rest())), r, Rest())
    {
      var v: nat, shift: nat := 0, 0;
      while true
        invariant Valid() && VarintFrom(Rest(), v, shift) == ReadVarint(old(Rest()))
        decreases |bytes| - at
      {
        ghost var before := Rest();
        var b := Take(1);
        if b == None || shift >= 64 { return None; }
        var byte := b.value[0];
        assert before[0] == byte && before[1..] == Rest();
        v := v + Shifted(byte % 128, shift);
        if byte < 128 { return Some(v); }
        shift := shift + 7;
      }
    }

    method String() returns (r: Option<Text>)
      requires Valid()
      modifies this
      ensures Valid() && Reads(ReadStr(old(Rest())), r, Rest())
    {
      var len := Varint();
      if len == None { return None; }
      var s := Take(len.value);
      if s == None || len.value > MAX_LEN { return None; }
      r := Some(s.value);
    }

    /** u8, u16, u32 and u64, by their width in bytes. */
    method Fixed(w: nat) returns (r: Option<nat>)
      requires Valid()
      modifies this
      ensures Valid() && Reads(ReadLE(w, old(Rest())), r, Rest())
    {
      var s := Take(w);
      if s == None { return None; }
      r := Some(FromLE(s.value));
    }

    method Word() returns (r: Option<nat>)
      requires Valid()
      modifies this
      ensures Valid() && Reads(ReadWord(old(Rest())), r, Rest())
    {
      r := Fixed(8);
    }

    method Strings(n: nat) returns (r: Option<seq<Text>>)
      requires Valid()
      modifies this
      ensures Valid() && Reads(ReadMany<Text>(n, ReadStr, old(Rest())), r, Rest())
    {
      var out: seq<Text> := [];
      for i := 0 to n
        invariant Valid()
            && Resumes(ReadMany<Text>(n, ReadStr, old(Rest())), out, ReadMany<Text>(n - i, ReadStr, Rest()))
      {
        var s := String();
        if s == None { return None; }
        out := out + [s.value];
      }
      assert out + [] == out;
      r := Some(out);
    }

    /** `n` integers of width `w`, which `p` specifies one at a time. */
    method Integers(n: nat, w: nat, ghost p: Bytes -> Parsed<nat>) returns (r: Option<seq<nat>>)
      requires Valid() && forall bs :: p(bs) == ReadLE(w, bs)
      modifies this
      ensures Valid() && Reads(ReadMany<nat>(n, p, old(Rest())), r, Rest())
    {
      var out: seq<nat> := [];
      for i := 0 to n
        invariant Valid() && Resumes(ReadMany<nat>(n, p, old(Rest())), out, ReadMany<nat>(n - i, p, Rest()))
      {
        var v := Fixed(w);
        if v == None { return None; }
        out := out + [v.value];
      }
      assert out + [] == out;
      r := Some(out);
    }

    method Words(n: nat) returns (r: Option<seq<nat>>)
      requires Valid()
      modifies this
      ensures Valid() && Reads(ReadMany<nat>(n, ReadWord, old(Rest())), r, Rest())
    {
      r := Integers(n, 8, ReadWord);
    }

    method FixedCell(t: ColType) returns (r: Option<Cell>)
      requires Valid() && (t.TUInt64? || t.TUInt16? || t.TInt64? || t.TDateTime64?)
      modifies this
      ensures Valid() && Reads(ReadFixed(t)(old(Rest())), r, Rest())
    {
      PowersOf256();
      var v := Fixed(if t.TUInt16? then 2 else 8);
      if v == None { return None; }
      match t {
        case TUInt64 => r := Some(UInt64(v.value));
        case TUInt16 => r := Some(UInt16(v.value));
        case TInt64 => r := Some(Int64(FromTwos(v.value)));
        case TDateTime64(scale) => r := Some(DateTime64(FromTwos(v.value), scale));
      }
    }

    method FixedCells(t: ColType, n: nat) returns (r: Option<seq<Cell>>)
      requires Valid() && (t.TUInt64? || t.TUInt16? || t.TInt64? || t.TDateTime64?)
      modifies this
      ensures Valid() && Reads(ReadMany<Cell>(n, ReadFixed(t), old(Rest())), r, Rest())
    {
      hide ReadFixed;
      var out: seq<Cell> := [];
      for i := 0 to n
        invariant Valid()
            && Resumes(ReadMany<Cell>(n, ReadFixed(t), old(Rest())), out, ReadMany<Cell>(n - i, ReadFixed(t), Rest()))
      {
        var cell := FixedCell(t);
        if cell == None { return None; }
        out := out + [cell.value];
      }
      assert out + [] == out;
      r := Some(out);
    }

    method LowCardinalityGroup() returns (r: Option<seq<Text>>)
      requires Valid()
      modifies this
      ensures Valid() && Reads(ReadGroup(old(Rest())), r, Rest())
    {
      hide ReadIndexed, ReadMany, ReadWord, ReadStr;
      var flags := Word();
      if flags == None || flags.value - flags.value % 256 != INDEX_FLAGS { return None; }
      var size := Word();
      if size == None { return None; }
      var entries := Strings(size.value);
      if entries == None || entries.value == [] || entries.value[0] != [] { return None; }
      if flags.value % 256 != WidthFor(|entries.value|).Code() { return None; }
      r := Indexed(entries.value);
    }

    method Indexed(entries: seq<Text>) returns (r: Option<seq<Text>>)
      requires Valid()
      modifies this
      ensures Valid() && Reads(ReadIndexed(entries, old(Rest())), r, Rest())
    {
      var w := WidthFor(|entries|);
      var count := Word();
      if count == None { return None; }
      var indexes := Integers(count.value, w.Octets(), ReadIndex(w));
      if indexes == None { return None; }
      var out: seq<Text> := [];
      for i := 0 to |indexes.value|
        invariant |out| == i
        invariant forall k | 0 <= k < i :: indexes.value[k] < |entries| && out[k] == entries[indexes.value[k]]
      {
        if indexes.value[i] >= |entries| { return None; }
        out := out + [entries[indexes.value[i]]];
      }
      assert out == seq(|indexes.value|, i requires 0 <= i < |indexes.value| => entries[indexes.value[i]]);
      r := Some(out);
    }

    method Nullable(rows: nat) returns (r: Option<seq<Cell>>)
      requires Valid()
      modifies this
      ensures Valid() && Reads(ReadNullable(rows, old(Rest())), r, Rest())
    {
      var nulls := Take(rows);
      if nulls == None { return None; }
      ghost var left := Rest();
      var values := Words(rows);
      if values == None { return None; }
      ReadManyAll<nat>(rows, ReadWord, left, Below64);
      assert forall i | 0 <= i < rows :: Below64(values.value[i]);
      r := Some(WithNulls(nulls.value, values.value));
    }

    method LowCard(rows: nat) returns (r: Option<seq<Cell>>)
      requires Valid()
      modifies this
      ensures Valid() && Reads(ReadLowCard(rows, old(Rest())), r, Rest())
    {
      hide ReadGroup, ReadWord;
      var version := Word();
      if version == None || version.value != KEY_VERSION { return None; }
      var texts := LowCardinalityGroup();
      if texts == None || |texts.value| != rows { return None; }
      r := Some(Map(t => LowCardString(t), texts.value));
    }

    method Arrays(rows: nat) returns (r: Option<seq<Cell>>)
      requires Valid()
      modifies this
      ensures Valid() && Reads(ReadArrays(rows, old(Rest())), r, Rest())
    {
      hide Slices, ReadGroup, ReadMany, ReadWord;
      var version := Word();
      if version == None || version.value != KEY_VERSION { return None; }
      var ends := Words(rows);
      if ends == None { return None; }
      var total := if ends.value == [] then 0 else ends.value[|ends.value| - 1];
      var flat: Option<seq<Text>> := Some([]);
      if total != 0 { flat := LowCardinalityGroup(); }
      if flat == None || |flat.value| != total { return None; }
      var lists := SliceAll(flat.value, ends.value);
      if lists == None { return None; }
      r := Some(Map(ts => LowCardStringArray(ts), lists.value));
    }

    method Column(t: ColType, rows: nat) returns (r: Option<seq<Cell>>)
      requires Valid()
      modifies this
      ensures Valid() && Reads(ReadColumn(t, rows, old(Rest())), r, Rest())
    {
      match t {
        case TNullableFloat64 => r := Nullable(rows);
        case TLowCard => r := LowCard(rows);
        case TLowCardArray => r := Arrays(rows);
        case _ => r := FixedCells(t, rows);
      }
    }

    method Named(rows: nat) returns (r: Option<NamedColumn>)
      requires Valid()
      modifies this
      ensures Valid() && Reads(ReadNamed(rows, old(Rest())), r, Rest())
    {
      var name := String();
      if name == None { return None; }
      var ty := String();
      if ty == None { return None; }
      var t := ParseType(ty.value);
      if t == None { return None; }
      var cells := Column(t.value, rows);
      if cells == None { return None; }
      r := Some(NamedColumn(name.value, ty.value, cells.value));
    }

    /** Every column in turn, its cells pushed onto the rows. */
    method Columns(n: nat, rows: nat)
      returns (ok: bool, declared: Header, cells: seq<Row>, ghost read: seq<NamedColumn>)
      requires Valid()
      modifies this
      ensures Valid() && Reads(ReadColumns(n, rows, old(Rest())), if ok then Some(read) else None, Rest())
      ensures ok ==> forall j | 0 <= j < |read| :: |read[j].cells| == rows
      ensures ok ==> declared == HeaderOf(read) && cells == RowsOf(read, rows)
    {
      hide ReadNamed, RowsOf, HeaderOf, ParseType, ReadColumns, Resumes;
      ghost var spec := ReadColumns(n, rows, Rest());
      declared, cells, read := [], seq(rows, _ => []), [];
      assert cells == RowsOf(read, rows);
      ResumeStart(spec);
      for k := 0 to n
        invariant Valid() && Resumes(spec, read, ReadColumns(n - k, rows, Rest()))
        invariant forall j | 0 <= j < |read| :: |read[j].cells| == rows
        invariant declared == HeaderOf(read) && cells == RowsOf(read, rows)
      {
        ResumeNext(spec, read, n - k, rows, Rest());
        var column := Named(rows);
        if column == None { return false, [], [], []; }
        assert Typed(column.value, rows);
        cells := PushColumn(cells, column.value, read);
        declared := declared + [(column.value.name, column.value.ty)];
        read := read + [column.value];
      }
      ResumeDone(spec, read, rows, Rest());
      ok := true;
    }
  }

  method SliceAll(flat: seq<Text>, ends: seq<nat>) returns (r: Option<seq<seq<Text>>>)
    ensures r == Slices(flat, 0, ends)
  {
    var lists: seq<seq<Text>> := [];
    var start := 0;
    for i := 0 to |ends|
      invariant start <= |flat|
      invariant match Slices(flat, start, ends[i..])
                case None => Slices(flat, 0, ends) == None
                case Some(more) => Slices(flat, 0, ends).Some? && Slices(flat, 0, ends).value == lists + more
    {
      var end := ends[i];
      assert ends[i..][1..] == ends[i + 1..];
      if !(start <= end <= |flat|) { return None; }
      lists := lists + [flat[start..end]];
      start := end;
    }
    assert lists + [] == lists;
    r := Some(lists);
  }

  /** Each row takes its cell of the next column. */
  method PushColumn(rows: seq<Row>, next: NamedColumn, ghost read: seq<NamedColumn>) returns (cells: seq<Row>)
    requires |next.cells| == |rows| && forall j | 0 <= j < |read| :: |read[j].cells| == |rows|
    requires rows == RowsOf(read, |rows|)
    ensures cells == RowsOf(read + [next], |rows|)
  {
    cells := rows;
    for i := 0 to |rows|
      invariant |cells| == |rows|
      invariant forall m | 0 <= m < i :: cells[m] == rows[m] + [next.cells[m]]
      invariant forall m | i <= m < |rows| :: cells[m] == rows[m]
    {
      cells := cells[i := cells[i] + [next.cells[i]]];
    }
    forall m | 0 <= m < |rows| ensures cells[m] == RowsOf(read + [next], |rows|)[m] {}
  }

  lemma ResumeStart(spec: Parsed<seq<NamedColumn>>)
    ensures Resumes(spec, [], spec)
  {}

  lemma ResumeNext(spec: Parsed<seq<NamedColumn>>, read: seq<NamedColumn>, n: nat, rows: nat, bs: Bytes)
    requires n > 0 && Resumes(spec, read, ReadColumns(n, rows, bs))
    ensures match ReadNamed(rows, bs)
            case Panic => spec == Panic
            case Got(c, rest) => Resumes(spec, read + [c], ReadColumns(n - 1, rows, rest))
  {
    hide ReadNamed, Typed;
  }

  lemma ResumeDone(spec: Parsed<seq<NamedColumn>>, read: seq<NamedColumn>, rows: nat, bs: Bytes)
    requires Resumes(spec, read, ReadColumns(0, rows, bs))
    ensures spec == Got(read, bs)
  {
    assert read + [] == read;
  }

  /** Reads a block back into its header and one cell list per row; None is a panic. */
  method DecodeBlock(body: Bytes) returns (r: Option<Decoded>)
    ensures r == DecodeNative(body)
  {
    hide ReadVarint, RowsOf, HeaderOf, ParseType, ReadColumns, DecodeNative, Typed;
    DecodeSteps(body);
    var reader := new Reader(body);
    var columns := reader.Varint();
    if columns == None { return None; }
    var rows := reader.Varint();
    if rows == None { return None; }
    var ok, declared, cells, read := reader.Columns(columns.value, rows.value);
    if !ok || reader.at != |body| { return None; }
    r := Some(Decoded(declared, cells));
  }

  lemma DecodeSteps(body: Bytes)
    ensures match ReadVarint(body)
            case Panic => DecodeNative(body) == None
            case Got(n, r1) =>
              match ReadVarint(r1)
              case Panic => DecodeNative(body) == None
              case Got(rows, r2) =>
                match ReadColumns(n, rows, r2)
                case Panic => DecodeNative(body) == None
                case Got(columns, r3) =>
                  && (forall j | 0 <= j < |columns| :: |columns[j].cells| == rows)
                  && (r3 != [] ==> DecodeNative(body) == None)
                  && (r3 == [] ==> DecodeNative(body) == Some(Decoded(HeaderOf(columns), RowsOf(columns, rows))))
  {
    hide ReadVarint, RowsOf, HeaderOf, ParseType, ReadColumns;
  }
}

/** The LowCardinality format as a server reads it: every code and flag by its number. */
module NativeFormat {
  import opened Wire
  import opened Cells
  import opened Native
  import NativeDecoder

  /** How many bytes an index has, by the low byte of the index-type word. */
  function OctetsOf(code: nat): Option<nat> {
    if code == 0 then Some(1)
    else if code == 1 then Some(2)
    else if code == 2 then Some(4)
    else if code == 3 then Some(8)
    else None
  }

  function ReadOctets(octets: nat): Bytes -> Parsed<nat> { bs => ReadLE(octets, bs) }

  /** The flags must be 512 (additional keys) and 1024 (a dictionary to be updated), and no index may lie
      beyond the dictionary. */
  function ReadGroup(bs: Bytes): Parsed<seq<Text>> {
    var (word, r1) :- ReadLE(8, bs);
    if word / 256 != 6 || OctetsOf(word % 256).None? then Panic
    else
      var (size, r2) :- ReadLE(8, r1);
      var (entries, r3) :- ReadMany<Text>(size, ReadStr, r2);
      var (count, r4) :- ReadLE(8, r3);
      var (indexes, r5) :- ReadMany<nat>(count, ReadOctets(OctetsOf(word % 256).value), r4);
      if exists i | 0 <= i < |indexes| :: indexes[i] >= |entries| then Panic
      else Got(seq(|indexes|, i requires 0 <= i < |indexes| => entries[indexes[i]]), r5)
  }

  /** What is announced is the width the indexes have. */
  lemma CodeSpellsWidth(entries: nat)
    ensures var w := WidthFor(entries);
      OctetsOf(w.Code()) == Some(w.Octets()) && w.Code() < 256 && (w.Code() + INDEX_FLAGS) / 256 == 6
  {
  }

  /** Every non-empty group is read back from its numbers. */
  lemma GroupIsRead(values: seq<Text>, rest: Bytes)
    requires 0 < |values| < MAX_LEN
    ensures ReadGroup(Group(values) + rest) == Got(values, rest)
  {
    hide Each, ReadMany, DictOf, IndexBytes, WidthFor, LE, ReadLE, IndexWidth.Code, IndexWidth.Octets;
    var entries := DictOf(values);
    var w := WidthFor(|entries|);
    var word := w.Code() + INDEX_FLAGS;
    var strs, indexes := Each(Str, entries), Each(IndexBytes(entries, w), values);
    CodeSpellsWidth(|entries|);
    assert Group(values) == Word(word) + Word(|entries|) + strs + Word(|values|) + indexes;
    Regroup(Word(word), Word(|entries|), strs, Word(|values|), indexes, rest);
    WordIsRead(word, Word(|entries|) + (strs + (Word(|values|) + (indexes + rest))));
    WordIsRead(|entries|, strs + (Word(|values|) + (indexes + rest)));
    NativeDecoder.EntriesRoundTrip(entries, Word(|values|) + (indexes + rest));
    WordIsRead(|values|, indexes + rest);
    IndexesAreRead(values, w, rest);
    var octets := OctetsOf(word % 256).value;
    var r := ReadMany<nat>(|values|, ReadOctets(octets), indexes + rest);
    assert octets == w.Octets() && r.Got?;
    assert seq(|values|, i requires 0 <= i < |values| => entries[r.value[i]]) == values;
  }

  lemma WordIsRead(v: nat, rest: Bytes)
    requires v < U64
    ensures ReadLE(8, Word(v) + rest) == Got(v, rest)
  {
    PowersOf256();
    LERoundTrip(8, v, rest);
  }

  lemma IndexesAreRead(values: seq<Text>, w: IndexWidth, rest: Bytes)
    requires |values| < MAX_LEN && w == WidthFor(|DictOf(values)|)
    ensures var entries := DictOf(values);
      var r := ReadMany<nat>(|values|, ReadOctets(w.Octets()), Each(IndexBytes(entries, w), values) + rest);
      && r.Got? && r.rest == rest && |r.value| == |values|
      && forall i | 0 <= i < |values| :: r.value[i] < |entries| && entries[r.value[i]] == values[i]
  {
    hide ReadMany, LE, ReadLE, IndexWidth.Octets, Each, IndexBytes, DictOf, WidthFor;
    var entries := DictOf(values);
    NativeDecoder.IndexesRoundTrip(values, w, rest);
    SameReader(w);
  }

  lemma SameReader(w: IndexWidth)
    ensures ReadOctets(w.Octets()) == NativeDecoder.ReadIndex(w)
  {
  }

  /** A LowCardinality column is key version 1 and then its group; an array column is key version 1, a
      64-bit end for every row, and then the group of all its strings. */
  lemma KeyVersionIsOne(cells: seq<Cell>)
    ensures ColumnBytes(ShapeLowCard, cells) == [1, 0, 0, 0, 0, 0, 0, 0] + Group(Map(TextOf, cells))
    ensures ColumnBytes(ShapeArray, cells)
         == [1, 0, 0, 0, 0, 0, 0, 0] + Each(Word, Offsets(cells)) + Group(Flatten(cells))
  {
    hide Group, Each;
    OneIs();
  }

  lemma {:induction false} LEOfZero(w: nat)
    ensures LE(w, 0) == seq(w, _ => 0)
  {
    if w > 0 {
      LEOfZero(w - 1);
    }
  }

  lemma LEOfOne(w: nat)
    requires w > 0
    ensures LE(w, 1) == [1] + seq(w - 1, _ => 0)
  {
    LEOfZero(w - 1);
  }

  lemma OneIs()
    ensures Word(KEY_VERSION) == [1, 0, 0, 0, 0, 0, 0, 0]
  {
    hide LE;
    LEOfOne(8);
  }

  /** A null row is a one in the null map and eight zero bytes in its slot, any other a zero and its bits. */
  lemma NullIsOneAndZeros(v: F64)
    ensures NullByte(NullableFloat64(None)) == [1] && Slot(NullableFloat64(None)) == [0, 0, 0, 0, 0, 0, 0, 0]
    ensures NullByte(NullableFloat64(Some(v))) == [0] && ReadLE(8, Slot(NullableFloat64(Some(v)))) == Got(v, [])
  {
    hide LE, ReadLE;
    LEOfZero(8);
    WordIsRead(v, []);
    assert LE(8, v) + [] == LE(8, v);
  }

  // ----- the order of a dictionary

  /** `t` stands at `b` and not before. */
  predicate First(values: seq<Text>, t: Text, b: nat) { b < |values| && values[b] == t && t !in values[..b] }

  /** Behind the empty string at 0, a dictionary holds the block's values in the order in which they first
      appear, and nothing else. */
  lemma {:induction false} DictInOrder(values: seq<Text>, k: nat) returns (b: nat)
    requires 0 < k < |DictOf(values)|
    ensures DictOf(values)[0] == [] && First(values, DictOf(values)[k], b)
    ensures forall j, a: nat | 0 < j < k && First(values, DictOf(values)[j], a) :: a < b
    decreases |values|
  {
    var n := |values| - 1;
    var init, v := values[..n], values[n];
    var before := DictOf(init);
    if k < |before| {
      b := DictInOrder(init, k);
      FirstStays(values, before[k], b);
      forall j, a: nat | 0 < j < k && First(values, before[j], a) ensures a < b {
        var c := DictInOrder(init, j);
        FirstStays(values, before[j], c);
        FirstIsOne(values, before[j], a, c);
      }
    } else {
      b := n;
      if v in init {
        var i :| 0 <= i < |init| && init[i] == v;
        DictHoldsItsValues(init, i);
      }
      forall j, a: nat | 0 < j < k && First(values, before[j], a) ensures a < b {
        assert before[j] in before && before[j] != v;
      }
    }
  }

  lemma FirstStays(values: seq<Text>, t: Text, b: nat)
    requires values != [] && First(values[..|values| - 1], t, b)
    ensures First(values, t, b)
  {
    assert values[..|values| - 1][..b] == values[..b];
  }

  lemma FirstIsOne(values: seq<Text>, t: Text, a: nat, b: nat)
    requires First(values, t, a) && First(values, t, b)
    ensures a == b
  {
    EarlierIsIn(values, a);
    EarlierIsIn(values, b);
  }

  lemma EarlierIsIn(values: seq<Text>, n: nat)
    requires n <= |values|
    ensures forall i | 0 <= i < n :: values[i] in values[..n]
  {
    forall i | 0 <= i < n ensures values[i] in values[..n] {
      assert values[..n][i] == values[i];
    }
  }
}

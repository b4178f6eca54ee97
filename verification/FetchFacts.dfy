/** The fields of a record batch's header by their places and bytes. */
module FetchFacts {
  import opened Wire
  import opened FetchWire

  /** Four bytes, highest first. */
  function Four(a: int, b: int, c: int, d: int): int { 0x100_0000 * a + 0x1_0000 * b + 0x100 * c + d }

  /** Four bytes, and eight, the top bit being the sign. */
  function Int4(r: Bytes, i: nat): int
    requires i + 4 <= |r|
  {
    Four(r[i], r[i + 1], r[i + 2], r[i + 3]) - if r[i] >= 128 then 0x1_0000_0000 else 0
  }

  function Int8(r: Bytes, i: nat): int
    requires i + 8 <= |r|
  {
    0x1_0000_0000 * Int4(r, i) + Four(r[i + 4], r[i + 5], r[i + 6], r[i + 7])
  }

  lemma FromBELast(bs: Bytes)
    requires bs != []
    ensures FromBE(bs) == 256 * FromBE(bs[..|bs| - 1]) + bs[|bs| - 1]
  {
  }

  lemma FromBEOfFour(a: byte, b: byte, c: byte, d: byte)
    ensures FromBE([a, b, c, d]) == Four(a, b, c, d)
  {
    hide FromBE;
    FromBELast([a, b, c, d]);
    FromBELast([a, b, c]);
    FromBELast([a, b]);
    FromBELast([a]);
    NothingIsZero();
    assert [a, b, c, d][..3] == [a, b, c] && [a, b, c][..2] == [a, b] && [a, b][..1] == [a] && [a][..0] == [];
  }

  lemma NothingIsZero()
    ensures FromBE([]) == 0
  {
  }

  lemma {:induction false} FromBEAppend(a: Bytes, b: Bytes)
    ensures FromBE(a + b) == FromBE(a) * Pow256(|b|) + FromBE(b)
    decreases |b|
  {
    hide FromBE;
    if b == [] {
      assert a + b == a;
      NothingIsZero();
    } else {
      var n := |b| - 1;
      assert (a + b)[..|a| + n] == a + b[..n];
      FromBELast(a + b);
      FromBELast(b);
      FromBEAppend(a, b[..n]);
      Shifted(FromBE(a), Pow256(n));
    }
  }

  lemma Shifted(x: nat, p: nat)
    ensures 256 * (x * p) == x * (256 * p)
  {
  }

  lemma SignedOfFour(r: Bytes, i: nat)
    requires i + 4 <= |r|
    ensures Signed(r, i, 4) == Some(Int4(r, i))
  {
    hide FromBE, Pow256;
    PowersOf256();
    assert r[i..i + 4] == [r[i], r[i + 1], r[i + 2], r[i + 3]];
    FromBEOfFour(r[i], r[i + 1], r[i + 2], r[i + 3]);
  }

  lemma SignedOfEight(r: Bytes, i: nat)
    requires i + 8 <= |r|
    ensures Signed(r, i, 8) == Some(Int8(r, i))
  {
    hide FromBE, Pow256;
    PowersOf256();
    var high, low := r[i..i + 4], r[i + 4..i + 8];
    assert r[i..i + 8] == high + low;
    FromBEAppend(high, low);
    assert high == [r[i], r[i + 1], r[i + 2], r[i + 3]] && low == [r[i + 4], r[i + 5], r[i + 6], r[i + 7]];
    FromBEOfFour(r[i], r[i + 1], r[i + 2], r[i + 3]);
    FromBEOfFour(r[i + 4], r[i + 5], r[i + 6], r[i + 7]);
  }

  /** The ranges of the fields a broker writes. */
  lemma RangesByNumber(v: int)
    ensures InRange(2, v) <==> -0x8000 <= v < 0x8000
    ensures InRange(4, v) <==> -0x8000_0000 <= v < 0x8000_0000
    ensures InRange(8, v) <==> -0x8000_0000_0000_0000 <= v < 0x8000_0000_0000_0000
  {
    hide Pow256;
    PowersOf256();
  }

  /** A record set is its batches, one behind another. */
  lemma {:induction false} RecordSetGrows(batches: seq<Batch>, last: Batch)
    requires WellFormedBatch(last) && forall b | b in batches :: WellFormedBatch(b)
    ensures RecordSet([]) == [] && RecordSet(batches + [last]) == RecordSet(batches) + BatchBytes(last)
  {
    hide BatchBytes, WellFormedBatch;
    if batches == [] {
      assert batches + [last] == [last] && [last][1..] == [];
    } else {
      assert (batches + [last])[1..] == batches[1..] + [last];
      RecordSetGrows(batches[1..], last);
      Assoc(BatchBytes(batches[0]), RecordSet(batches[1..]), BatchBytes(last));
    }
  }

  /** The partitions' shares stand one behind another too. */
  lemma {:induction false} PartsGrow(ps: seq<Part>, last: Part)
    requires WellFormedPart(last) && forall p | p in ps :: WellFormedPart(p)
    ensures PartsBytes([]) == [] && PartsBytes(ps + [last]) == PartsBytes(ps) + PartBytes(last)
  {
    hide PartBytes, WellFormedPart;
    if ps == [] {
      assert ps + [last] == [last] && [last][1..] == [];
    } else {
      assert (ps + [last])[1..] == ps[1..] + [last];
      PartsGrow(ps[1..], last);
      Assoc(PartBytes(ps[0]), PartsBytes(ps[1..]), PartBytes(last));
    }
  }

  /** A null list and a null record set are the count -1, four bytes of 255. */
  lemma NullIsMinusOne(p: Part)
    requires p.aborted.None? && p.cut.None?
    ensures p.AbortedCount() == p.Size() == -1 && SBE(4, -1) == [255, 255, 255, 255]
  {
    PowersOf256();
    assert BE(4, 0xffff_ffff) == BE(3, 0xff_ffff) + [255];
    assert BE(3, 0xff_ffff) == BE(2, 0xffff) + [255] && BE(2, 0xffff) == BE(1, 0xff) + [255];
    assert BE(1, 0xff) == BE(0, 0) + [255];
  }

  lemma LowBitsOfTwo(r: Bytes, i: nat)
    requires i + 2 <= |r|
    ensures Unsigned(r, i, 2).Some? && Unsigned(r, i, 2).value % 8 == r[i + 1] % 8
  {
    hide FromBE;
    FromBELast(r[i..i + 2]);
    Multiple(FromBE(r[i..i + 2][..1]), r[i + 1]);
  }

  lemma Multiple(x: nat, b: nat)
    ensures (256 * x + b) % 8 == b % 8
  {
  }

  lemma OneByte(r: Bytes, i: nat)
    requires i < |r|
    ensures Unsigned(r, i, 1) == Some(r[i])
  {
    hide FromBE;
    FromBELast(r[i..i + 1]);
    NothingIsZero();
    assert r[i..i + 1][..0] == [];
  }

  /** What a header says: the base offset in its first eight bytes, the length in the four behind them, the
      magic at 16, the attributes at 21, the last offset's delta at 23 and the record count at 57. A batch
      that does not fit is cut off; one of another magic, or compressed, is refused. */
  lemma HeaderByNumber(r: Bytes, i: nat, end: nat)
    requires i + 61 <= end <= |r|
    ensures var stop := i + 12 + Int4(r, i + 8);
      BatchHeader(r, i, end)
      == if stop > end then CutOff
         else if r[i + 16] != 2 || r[i + 22] % 8 != 0 then Bad
         else Header(stop, Int4(r, i + 57), Int8(r, i) + Int4(r, i + 23) + 1)
  {
    hide Signed, Unsigned, Int4, Int8;
    SignedOfEight(r, i);
    SignedOfFour(r, i + 8);
    SignedOfFour(r, i + 23);
    SignedOfFour(r, i + 57);
    OneByte(r, i + 16);
    LowBitsOfTwo(r, i + 21);
  }

  /** So is the whole response. */
  lemma ForeignBatchRaises(r: Bytes, i: nat, end: nat, partition: int, w: Walk)
    requires w.Walk? && i + 61 <= end <= |r| && i + 12 + Int4(r, i + 8) <= end
    requires r[i + 16] != 2 || r[i + 22] % 8 != 0
    ensures Batches(r, i, end, partition, w) == Raised
  {
    hide BatchHeader, Int4;
    HeaderByNumber(r, i, end);
  }
}

/** The walk reads exactly what the broker sent: every whole batch, once, with its offset
    and its records. */
module FetchLemmas {
  import opened Wire
  import opened FetchWire

  /** `e` is at position `at` of r. */
  ghost predicate Holds(r: Bytes, at: int, e: Bytes) {
    0 <= at && at + |e| <= |r| && r[at..at + |e|] == e
  }

  lemma HoldsSplit(r: Bytes, at: int, a: Bytes, b: Bytes)
    requires Holds(r, at, a + b)
    ensures Holds(r, at, a) && Holds(r, at + |a|, b)
  {
    assert (a + b)[..|a|] == a && (a + b)[|a|..] == b;
    assert r[at..at + |a|] == r[at..at + |a + b|][..|a|];
    assert r[at + |a|..at + |a + b|] == r[at..at + |a + b|][|a|..];
  }

  lemma {:induction false} FromBEInvertsBE(w: nat, v: nat)
    requires v < Pow256(w)
    ensures FromBE(BE(w, v)) == v
  {
    if w > 0 {
      FromBEInvertsBE(w - 1, v / 256);
      assert BE(w, v)[..w - 1] == BE(w - 1, v / 256);
    }
  }

  lemma UnsignedHolds(r: Bytes, at: int, w: nat, v: nat)
    requires v < Pow256(w) && Holds(r, at, BE(w, v))
    ensures Unsigned(r, at, w) == Some(v)
  {
    FromBEInvertsBE(w, v);
  }

  lemma SignedHolds(r: Bytes, at: int, w: nat, v: int)
    requires InRange(w, v) && Holds(r, at, SBE(w, v))
    ensures Signed(r, at, w) == Some(v)
  {
    FromBEInvertsBE(w, if v < 0 then v + Pow256(w) else v);
  }

  // ----- records

  lemma {:induction false} UVarHolds(r: Bytes, i: int, v: nat)
    requires Holds(r, i, Varint(v))
    ensures UVarAt(r, i) == Some((v, i + |Varint(v)|))
    decreases v
  {
    var e := Varint(v);
    assert r[i] == r[i..i + |e|][0] == e[0];
    if v >= 128 {
      HoldsSplit(r, i, [v % 128 + 128], Varint(v / 128));
      UVarHolds(r, i + 1, v / 128);
    }
  }

  lemma VarHolds(r: Bytes, i: int, n: int)
    requires Holds(r, i, Var(n))
    ensures VarAt(r, i) == Some((n, i + |Var(n)|))
  {
    UVarHolds(r, i, Zigzag(n));
  }

  function Length(b: Option<Bytes>): int { if b.Some? then |b.value| else -1 }

  /** A length-prefixed field: its length, and the position its bytes end at. */
  lemma FieldHolds(r: Bytes, i: int, b: Option<Bytes>)
    requires Holds(r, i, Field(b))
    ensures VarAt(r, i).Some? && VarAt(r, i).value.0 == Length(b)
    ensures VarAt(r, i).value.1 + (if Length(b) > 0 then Length(b) else 0) == i + |Field(b)|
  {
    if b.Some? {
      HoldsSplit(r, i, Var(|b.value|), b.value);
      VarHolds(r, i, |b.value|);
    } else {
      VarHolds(r, i, -1);
    }
  }

  lemma RecordHolds(r: Bytes, i: int, rec: Record)
    requires Holds(r, i, RecordBytes(rec))
    ensures RecordAt(r, i) == Some((i + |RecordBytes(rec)|, ValueLength(rec))) && |RecordBytes(rec)| > 0
  {
    hide VarAt, Var, Field, Holds;
    var body := RecordBody(rec);
    HoldsSplit(r, i, Var(|body|), body);
    VarHolds(r, i, |body|);
    var at := i + |Var(|body|)|;
    var e4 := Field(rec.value) + rec.headers;
    var e3 := Field(rec.key) + e4;
    var e2 := Var(rec.delta) + e3;
    HoldsSplit(r, at, [rec.attributes], Var(rec.timestamp) + e2);
    HoldsSplit(r, at + 1, Var(rec.timestamp), e2);
    VarHolds(r, at + 1, rec.timestamp);
    var i1 := at + 1 + |Var(rec.timestamp)|;
    HoldsSplit(r, i1, Var(rec.delta), e3);
    VarHolds(r, i1, rec.delta);
    var i2 := i1 + |Var(rec.delta)|;
    HoldsSplit(r, i2, Field(rec.key), e4);
    FieldHolds(r, i2, rec.key);
    HoldsSplit(r, i2 + |Field(rec.key)|, Field(rec.value), rec.headers);
    FieldHolds(r, i2 + |Field(rec.key)|, rec.value);
  }

  function TallyRecords(records: seq<Record>): Tally {
    if records == [] then Tally(0, 0) else Tally(1, ValueLength(records[0])).Plus(TallyRecords(records[1..]))
  }

  lemma EachNil<T>(f: T -> Bytes)
    ensures Each(f, []) == []
  {}

  lemma {:induction false} RecordsHold(r: Bytes, i: int, records: seq<Record>)
    requires Holds(r, i, Each(RecordBytes, records))
    ensures Records(r, i, i + |Each(RecordBytes, records)|) == Some(TallyRecords(records))
    decreases records
  {
    hide Holds, RecordAt, RecordBytes, Each, ValueLength;
    if records != [] {
      var e, tail := RecordBytes(records[0]), Each(RecordBytes, records[1..]);
      EachCons(RecordBytes, records);
      HoldsSplit(r, i, e, tail);
      RecordHolds(r, i, records[0]);
      RecordsHold(r, i + |e|, records[1..]);
    } else {
      assert Each(RecordBytes, records) == [] by { EachNil(RecordBytes); }
    }
  }

  lemma {:induction false} TallyCounts(records: seq<Record>)
    ensures TallyRecords(records).msgs == |records|
  {
    hide ValueLength;
    if records != [] {
      TallyCounts(records[1..]);
      assert TallyRecords(records).msgs == 1 + TallyRecords(records[1..]).msgs;
    }
  }

  // ----- spans

  function TallyOf(batches: seq<Batch>): Tally {
    if batches == [] then Tally(0, 0) else TallyRecords(batches[0].records).Plus(TallyOf(batches[1..]))
  }

  /** The span is the record area of the batch, and carries its record count. */
  ghost predicate SpanHolds(r: Bytes, s: Span, b: Batch) {
    Holds(r, s.start, BatchBody(b)) && s.stop == s.start + |BatchBody(b)| && s.declared == |b.records|
  }

  ghost predicate SpansHold(r: Bytes, spans: seq<Span>, batches: seq<Batch>) {
    |spans| == |batches| && forall k | 0 <= k < |spans| :: SpanHolds(r, spans[k], batches[k])
  }

  /** Walking the spans' records counts every record and every value byte. */
  lemma {:induction false} CountHolds(r: Bytes, spans: seq<Span>, batches: seq<Batch>)
    requires SpansHold(r, spans, batches)
    ensures Count(r, spans) == Some(TallyOf(batches))
    decreases spans
  {
    hide Holds, Records, TallyRecords;
    if spans != [] {
      assert SpanHolds(r, spans[0], batches[0]);
      RecordsHold(r, spans[0].start, batches[0].records);
      TallyCounts(batches[0].records);
      forall k | 0 <= k < |spans[1..]| ensures SpanHolds(r, spans[1..][k], batches[1..][k]) {
        assert SpanHolds(r, spans[k + 1], batches[k + 1]);
      }
      CountHolds(r, spans[1..], batches[1..]);
    }
  }

  // ----- batch headers

  lemma HeaderHolds(r: Bytes, i: int, b: Batch, end: int)
    requires WellFormedBatch(b) && Holds(r, i, BatchBytes(b)) && i + |BatchBytes(b)| <= end
    ensures |BatchBytes(b)| == 61 + |BatchBody(b)|
    ensures BatchHeader(r, i, end) == Header(i + |BatchBytes(b)|, |b.records|, b.base + |b.records|)
    ensures SpanHolds(r, Span(i + 61, i + |BatchBytes(b)|, |b.records|), b)
  {
    hide Holds, BatchBody, Signed, Unsigned;
    PowersOf256();
    var n, body := |b.records|, BatchBody(b);
    var e8 := SBE(4, n) + body;
    var e7 := b.producer + e8;
    var e6 := SBE(4, n - 1) + e7;
    var e5 := BE(2, b.attributes) + e6;
    var e4 := b.crc + e5;
    var e3 := [2] + e4;
    var e2 := b.epoch + e3;
    var e1 := SBE(4, 49 + |body|) + e2;
    HoldsSplit(r, i, SBE(8, b.base), e1);
    SignedHolds(r, i, 8, b.base);
    HoldsSplit(r, i + 8, SBE(4, 49 + |body|), e2);
    SignedHolds(r, i + 8, 4, 49 + |body|);
    HoldsSplit(r, i + 12, b.epoch, e3);
    HoldsSplit(r, i + 16, [2], e4);
    assert BE(1, 2) == [2];
    UnsignedHolds(r, i + 16, 1, 2);
    HoldsSplit(r, i + 17, b.crc, e5);
    HoldsSplit(r, i + 21, BE(2, b.attributes), e6);
    UnsignedHolds(r, i + 21, 2, b.attributes);
    HoldsSplit(r, i + 23, SBE(4, n - 1), e7);
    SignedHolds(r, i + 23, 4, n - 1);
    HoldsSplit(r, i + 27, b.producer, e8);
    HoldsSplit(r, i + 57, SBE(4, n), body);
    SignedHolds(r, i + 57, 4, n);
  }

  /** A batch cut off behind its first twelve bytes stops the walk. */
  lemma CutHolds(r: Bytes, i: int, b: Batch, end: int)
    requires WellFormedBatch(b) && i + 12 <= end < i + |BatchBytes(b)|
    requires Holds(r, i, BatchBytes(b)[..end - i])
    ensures BatchHeader(r, i, end) == CutOff
  {
    hide BatchBody, Signed, Unsigned, SBE;
    var base, len := SBE(8, b.base), SBE(4, 49 + |BatchBody(b)|);
    var e := BatchBytes(b)[..end - i];
    assert e == base + len + e[12..];
    HoldsSplit(r, i, base + len, e[12..]);
    HoldsSplit(r, i, base, len);
    SignedHolds(r, i, 8, b.base);
    SignedHolds(r, i + 8, 4, 49 + |BatchBody(b)|);
  }

  // ----- record sets, partitions, responses

  /** The offset a partition is asked for next, after its whole batches. */
  function Advance(offsets: map<int, int>, partition: int, whole: seq<Batch>): map<int, int>
    decreases |whole|
  {
    if whole == [] then offsets
    else Advance(offsets[partition := whole[0].base + |whole[0].records|], partition, whole[1..])
  }

  lemma AdvanceStep(offsets: map<int, int>, partition: int, b: Batch, rest: seq<Batch>)
    ensures Advance(offsets, partition, [b] + rest)
        == Advance(offsets[partition := b.base + |b.records|], partition, rest)
  {
    assert ([b] + rest)[1..] == rest;
  }

  lemma SpansAppend(r: Bytes, spans: seq<Span>, done: seq<Batch>, s: Span, b: Batch)
    requires SpansHold(r, spans, done) && SpanHolds(r, s, b)
    ensures SpansHold(r, spans + [s], done + [b])
  {
    hide SpanHolds;
  }

  /** The walk finds exactly the whole batches of a record set cut off anywhere. */
  lemma {:induction false} BatchesHold(r: Bytes, i: int, batches: seq<Batch>, cut: nat, partition: int, w: Walk,
                                       done: seq<Batch>)
    requires w.Walk? && SpansHold(r, w.spans, done)
    requires forall b | b in batches :: WellFormedBatch(b)
    requires cut <= |RecordSet(batches)| && Holds(r, i, RecordSet(batches)[..cut])
    ensures var w' := Batches(r, i, i + cut, partition, w);
      && w'.Walk? && w'.at == w.at && w'.drained == w.drained
      && SpansHold(r, w'.spans, done + Whole(batches, cut))
      && w'.offsets == Advance(w.offsets, partition, Whole(batches, cut))
    decreases batches
  {
    hide Holds, SpansHold, BatchHeader, WellFormedBatch, BatchBytes, Advance, BatchBody;
    if batches == [] {
      assert done + [] == done;
      NoAdvance(w.offsets, partition);
    } else {
      var b, tail := batches[0], batches[1..];
      var e := BatchBytes(b);
      BatchBytesLength(b);
      if |e| <= cut {
        PrefixOfConcat(e, RecordSet(tail), cut);
        HoldsSplit(r, i, e, RecordSet(tail)[..cut - |e|]);
        HeaderHolds(r, i, b, i + cut);
        var span := Span(i + 61, i + |e|, |b.records|);
        SpansAppend(r, w.spans, done, span, b);
        var next := w.(spans := w.spans + [span], offsets := w.offsets[partition := b.base + |b.records|]);
        BatchesHold(r, i + |e|, tail, cut - |e|, partition, next, done + [b]);
        assert done + [b] + Whole(tail, cut - |e|) == done + Whole(batches, cut);
        AdvanceStep(w.offsets, partition, b, Whole(tail, cut - |e|));
      } else {
        PrefixOfConcat(e, RecordSet(tail), cut);
        if 61 <= cut { CutHolds(r, i, b, i + cut); }
        assert done + [] == done;
        NoAdvance(w.offsets, partition);
      }
    }
  }

  lemma PrefixOfConcat(e: Bytes, tail: Bytes, cut: nat)
    requires cut <= |e + tail|
    ensures (e + tail)[..cut] == if |e| <= cut then e + tail[..cut - |e|] else e[..cut]
  {}

  lemma NoAdvance(offsets: map<int, int>, partition: int)
    ensures Advance(offsets, partition, []) == offsets
  {}

  lemma BatchBytesLength(b: Batch)
    requires WellFormedBatch(b)
    ensures |BatchBytes(b)| == 61 + |BatchBody(b)|
  {
    hide BatchBody;
  }

  lemma {:induction false} AdvanceKeepsKeys(offsets: map<int, int>, partition: int, whole: seq<Batch>)
    requires partition in offsets
    ensures Advance(offsets, partition, whole).Keys == offsets.Keys
    decreases |whole|
  {
    if whole != [] {
      var next := offsets[partition := whole[0].base + |whole[0].records|];
      assert next.Keys == offsets.Keys;
      AdvanceKeepsKeys(next, partition, whole[1..]);
    }
  }

  function WholeOf(p: Part): seq<Batch>
    requires WellFormedPart(p)
  {
    Whole(p.batches, p.Cut())
  }

  function AfterPart(w: Walk, p: Part): Walk
    requires w.Walk? && WellFormedPart(p) && p.partition in w.offsets
  {
    var offsets := Advance(w.offsets, p.partition, WholeOf(p));
    AdvanceKeepsKeys(w.offsets, p.partition, WholeOf(p));
    Walk(w.at + |PartBytes(p)|, [], if offsets[p.partition] >= p.high then Some(p.partition) else w.drained, offsets)
  }

  /** What a step of the walk leaves, spans aside. */
  predicate Agrees(w: Walk, spec: Walk)
  {
    w.Walk? && spec.Walk? && w.at == spec.at && w.drained == spec.drained && w.offsets == spec.offsets
  }

  lemma PartFields(r: Bytes, at: int, p: Part)
    requires WellFormedPart(p) && Holds(r, at, PartBytes(p))
    ensures |PartBytes(p)| == 42 + |p.Aborted()| + p.Cut()
    ensures Signed(r, at, 4) == Some(p.partition) && Signed(r, at + 4, 2) == Some(0)
        && Signed(r, at + 6, 8) == Some(p.high)
    ensures Signed(r, at + 30, 4) == Some(p.AbortedCount()) && Signed(r, at + 38 + |p.Aborted()|, 4) == Some(p.Size())
    ensures Holds(r, at + 42 + |p.Aborted()|, RecordSet(p.batches)[..p.Cut()])
  {
    hide Holds, Signed, SBE, RecordSet, WellFormedBatch;
    var n, records := p.AbortedCount(), RecordSet(p.batches)[..p.Cut()];
    assert InRange(2, 0);
    var e7 := SBE(4, p.Size()) + records;
    var e6 := p.replica + e7;
    var e5 := p.Aborted() + e6;
    var e4 := SBE(4, n) + e5;
    var e3 := p.opaque16 + e4;
    var e2 := SBE(8, p.high) + e3;
    var e1 := SBE(2, 0) + e2;
    HoldsSplit(r, at, SBE(4, p.partition), e1);
    SignedHolds(r, at, 4, p.partition);
    HoldsSplit(r, at + 4, SBE(2, 0), e2);
    SignedHolds(r, at + 4, 2, 0);
    HoldsSplit(r, at + 6, SBE(8, p.high), e3);
    SignedHolds(r, at + 6, 8, p.high);
    HoldsSplit(r, at + 14, p.opaque16, e4);
    HoldsSplit(r, at + 30, SBE(4, n), e5);
    SignedHolds(r, at + 30, 4, n);
    HoldsSplit(r, at + 34, p.Aborted(), e6);
    HoldsSplit(r, at + 34 + |p.Aborted()|, p.replica, e7);
    HoldsSplit(r, at + 38 + |p.Aborted()|, SBE(4, p.Size()), records);
    SignedHolds(r, at + 38 + |p.Aborted()|, 4, p.Size());
  }

  /** A null list is skipped as an empty one is. */
  lemma AbortedIsSkipped(p: Part)
    requires WellFormedPart(p)
    ensures (if p.AbortedCount() > 0 then 16 * p.AbortedCount() else 0) == |p.Aborted()|
    ensures (if p.Size() > 0 then p.Size() else 0) == p.Cut()
  {
    hide RecordSet, WellFormedBatch;
    assert 16 * (|p.Aborted()| / 16) == |p.Aborted()|;
  }

  lemma PartHolds(r: Bytes, w: Walk, p: Part, done: seq<Batch>)
    requires w.Walk? && SpansHold(r, w.spans, done)
    requires WellFormedPart(p) && p.partition in w.offsets && Holds(r, w.at, PartBytes(p))
    ensures Agrees(PartitionAt(r, w), AfterPart(w, p))
    ensures SpansHold(r, PartitionAt(r, w).spans, done + WholeOf(p))
  {
    hide Holds, SpansHold, Signed, Advance, Whole, RecordSet, WellFormedBatch, Batches, PartBytes;
    PartFields(r, w.at, p);
    AbortedIsSkipped(p);
    BatchesHold(r, w.at + 42 + |p.Aborted()|, p.batches, p.Cut(), p.partition, w, done);
    AdvanceKeepsKeys(w.offsets, p.partition, WholeOf(p));
  }

  /** Every partition the response names is one the client tracks. */
  predicate Tracked(parts: seq<Part>, offsets: map<int, int>) {
    forall k | 0 <= k < |parts| :: parts[k].partition in offsets
  }

  function AllWhole(parts: seq<Part>): seq<Batch>
    requires forall p | p in parts :: WellFormedPart(p)
  {
    if parts == [] then [] else WholeOf(parts[0]) + AllWhole(parts[1..])
  }

  function AfterParts(w: Walk, parts: seq<Part>): (w': Walk)
    requires w.Walk? && (forall p | p in parts :: WellFormedPart(p)) && Tracked(parts, w.offsets)
    ensures w'.Walk? && w'.offsets.Keys == w.offsets.Keys
    decreases |parts|
  {
    if parts == [] then w
    else
      AdvanceKeepsKeys(w.offsets, parts[0].partition, WholeOf(parts[0]));
      var next := AfterPart(w, parts[0]);
      assert Tracked(parts[1..], next.offsets) by {
        assert forall k | 0 <= k < |parts[1..]| :: parts[1..][k] == parts[k + 1];
      }
      AfterParts(next, parts[1..])
  }

  lemma {:induction false} PartsHold(r: Bytes, w: Walk, parts: seq<Part>, done: seq<Batch>)
    requires w.Walk? && SpansHold(r, w.spans, done)
    requires (forall p | p in parts :: WellFormedPart(p)) && Tracked(parts, w.offsets)
        && Holds(r, w.at, PartsBytes(parts))
    ensures Agrees(Partitions(r, |parts|, w), AfterParts(w, parts))
    ensures SpansHold(r, Partitions(r, |parts|, w).spans, done + AllWhole(parts))
    decreases |parts|
  {
    hide Holds, SpansHold, PartitionAt, WellFormedPart, WholeOf, PartBytes, Advance;
    if parts == [] {
      assert done + [] == done;
    } else {
      var p, tail := parts[0], parts[1..];
      HoldsSplit(r, w.at, PartBytes(p), PartsBytes(tail));
      PartHolds(r, w, p, done);
      AdvanceKeepsKeys(w.offsets, p.partition, WholeOf(p));
      var next := PartitionAt(r, w);
      assert forall k | 0 <= k < |tail| :: tail[k] == parts[k + 1];
      PartsHold(r, next, tail, done + WholeOf(p));
      assert done + WholeOf(p) + AllWhole(tail) == done + AllWhole(parts);
      AfterPartsAgree(next, AfterPart(w, p), tail);
    }
  }

  lemma {:induction false} AfterPartsAgree(w: Walk, v: Walk, parts: seq<Part>)
    requires Agrees(w, v) && (forall p | p in parts :: WellFormedPart(p)) && Tracked(parts, w.offsets)
    ensures Agrees(AfterParts(w, parts), AfterParts(v, parts))
    decreases |parts|
  {
    hide WellFormedPart, WholeOf, PartBytes, Advance;
    if parts != [] {
      assert AfterPart(w, parts[0]) == AfterPart(v, parts[0]);
    }
  }

  /** The walk over a response finds the whole batches of each partition in turn, and
      advances each partition's offset past them. */
  lemma ResponseHolds(resp: Response, offsets: map<int, int>)
    requires WellFormed(resp) && Tracked(resp.parts, offsets)
    ensures var r := ResponseBytes(resp);
      var w := Locate(r, offsets);
      && Agrees(w, AfterParts(Walk(20 + |resp.topic|, [], None, offsets), resp.parts))
      && SpansHold(r, w.spans, AllWhole(resp.parts))
  {
    hide Holds, Signed, SBE, PartsBytes, Partitions, AllWhole, AfterParts, WellFormedPart;
    var r, n := ResponseBytes(resp), |resp.parts|;
    assert InRange(4, 1);
    var e3 := SBE(4, n) + PartsBytes(resp.parts);
    var e2 := resp.topic + e3;
    var e1 := SBE(2, |resp.topic|) + e2;
    WholeHolds(r);
    HoldsSplit(r, 0, resp.head, SBE(4, 1) + e1);
    HoldsSplit(r, 10, SBE(4, 1), e1);
    SignedHolds(r, 10, 4, 1);
    HoldsSplit(r, 14, SBE(2, |resp.topic|), e2);
    SignedHolds(r, 14, 2, |resp.topic|);
    HoldsSplit(r, 16, resp.topic, e3);
    HoldsSplit(r, 16 + |resp.topic|, SBE(4, n), PartsBytes(resp.parts));
    SignedHolds(r, 16 + |resp.topic|, 4, n);
    PartsHold(r, Walk(20 + |resp.topic|, [], None, offsets), resp.parts, []);
    assert [] + AllWhole(resp.parts) == AllWhole(resp.parts);
    TopicsOnce(r, Walk(14, [], None, offsets), |resp.topic|, n);
  }

  lemma WholeHolds(r: Bytes)
    ensures Holds(r, 0, r)
  {}

  lemma TopicsOnce(r: Bytes, w: Walk, len: int, n: int)
    requires w.Walk? && Signed(r, w.at, 2) == Some(len) && Signed(r, w.at + 2 + len, 4) == Some(n)
    ensures Topics(r, 1, w) == Partitions(r, n, w.(at := w.at + 6 + len))
  {
    hide Signed, Partitions;
  }
}

/** The correctness gate over the target table, read as a bag of rows. */
module Gate {
  import opened Wire
  import opened Corpus

  /** One row of `sensor_events`. `sendTs` is in microseconds. */
  datatype Row = Row(
    batch: nat, seq_: nat, sensor: Bytes, region: Bytes, name: Bytes, unit: Bytes, value: int,
    scaled: int, quality: Option<nat>, tags: seq<Bytes>, batchTs: int, sendTs: int)

  type Table = seq<Row>
  type Id = (nat, nat)

  /** What a correct arm writes for one event: everything but `send_ts` is derived. */
  function RowOf(batch: nat, s: nat, sendTs: int): Row {
    Row(batch, s, SensorOf(batch), if RegionOf(batch).Some? then RegionOf(batch).value else [],
        Upper(NameOf(batch, s)), UnitOf(batch, s), ValueOf(batch, s), ValueScaledOf(ValueOf(batch, s), s),
        QualityOf(batch, s), TagsOf(batch, s), BatchTsOf(batch), sendTs)
  }

  predicate IsKept(id: Id) { id.1 < EVENTS_PER_BATCH && Keeps(id.0, id.1) }

  /** A row the generator makes and the workload keeps, stamped no earlier than the corpus base. */
  predicate Genuine(r: Row) {
    IsKept((r.batch, r.seq_)) && r == RowOf(r.batch, r.seq_, r.sendTs) && r.sendTs >= BASE_TS_MS * 1000
  }

  // ----- the two queries

  function Slice(t: Table, lo: nat, hi: nat): set<Row> { set r | r in t && lo <= r.batch < hi }

  /** `count()`. */
  function Count(t: Table, lo: nat, hi: nat): nat {
    if t == [] then 0 else Count(t[..|t| - 1], lo, hi) + (if lo <= t[|t| - 1].batch < hi then 1 else 0)
  }

  function Ids(rows: set<Row>): set<Id> { set r | r in rows :: (r.batch, r.seq_) }

  function Batches(rows: set<Row>): set<nat> { set r | r in rows :: r.batch }

  /** One line of the deduplicated projection: the identity and ten scalars. */
  datatype Projected = Projected(batch: nat, seq_: nat, sums: Totals)

  function Project(r: Row): (p: Projected)
    ensures p.sums.rows == 1
  {
    Projected(r.batch, r.seq_,
      Totals(1, r.value, r.scaled, Fingerprint(r.sensor), Fingerprint(r.region), Fingerprint(r.name),
             Fingerprint(r.unit), |r.tags| % 256, Fingerprint(Concat(r.tags)), r.batchTs,
             if r.quality.None? then 1 else 0))
  }

  function Projections(rows: set<Row>): set<Projected> { set r | r in rows :: Project(r) }

  ghost function Sum(ps: set<Projected>): Totals
    decreases |ps|
  {
    if ps == {} then ZERO else
      var p :| p in ps;
      Sum(ps - {p}).Plus(p.sums)
  }

  /** `min(send_ts)`, which is zero over no rows. */
  ghost predicate IsMinSendTs(rows: set<Row>, ts: int) {
    if rows == {} then ts == 0
    else (exists r :: r in rows && r.sendTs == ts) && forall r | r in rows :: ts <= r.sendTs
  }

  /** `min(batch_id)` and `max(batch_id)`, zero over an empty table. */
  function MinBatch(t: Table): nat {
    if t == [] then 0
    else if |t| == 1 then t[0].batch
    else
      var m, b := MinBatch(t[..|t| - 1]), t[|t| - 1].batch;
      if b < m then b else m
  }

  function MaxBatch(t: Table): nat {
    if t == [] then 0
    else
      var m, b := MaxBatch(t[..|t| - 1]), t[|t| - 1].batch;
      if b > m then b else m
  }

  // ----- the gate

  datatype Gates = Gates(
    minBatch: nat, maxBatch: nat, rows: nat, distinctIds: nat, distinctBatches: nat, duplicates: nat,
    contiguous: bool, rowsMatch: bool, valueSumMatch: bool, valueScaledMatch: bool, sensorMatch: bool,
    regionMatch: bool, nameMatch: bool, unitMatch: bool, tagCountMatch: bool, tagMatch: bool,
    batchTsMatch: bool, nullQualityMatch: bool, sendTsAfterBase: bool)
  {
    predicate Passed() {
      && contiguous && rowsMatch && valueSumMatch && valueScaledMatch && sensorMatch && regionMatch
      && nameMatch && unitMatch && tagCountMatch && tagMatch && batchTsMatch && nullQualityMatch
      && sendTsAfterBase
    }
  }

  datatype Verdict = Refused | Judged(gates: Gates)

  /** The gated batches: the interior of the table's range, at most `maxBatches` from its top. */
  predicate TooNarrow(t: Table) { MaxBatch(t) <= MinBatch(t) + 1 }

  function Hi(t: Table): nat { MaxBatch(t) }

  function Lo(t: Table, maxBatches: nat): nat {
    var inner := MinBatch(t) + 1;
    var bounded := if Hi(t) >= maxBatches then Hi(t) - maxBatches else 0;
    if inner > bounded then inner else bounded
  }

  ghost function MinSendTs(rows: set<Row>): (ts: int)
    ensures IsMinSendTs(rows, ts)
  {
    MinSendTsExists(rows);
    var ts :| IsMinSendTs(rows, ts);
    ts
  }

  lemma {:induction false} MinSendTsExists(rows: set<Row>)
    ensures exists ts :: IsMinSendTs(rows, ts)
    decreases |rows|
  {
    if rows == {} {
      assert IsMinSendTs(rows, 0);
    } else {
      var r :| r in rows;
      if rows == {r} {
        assert IsMinSendTs(rows, r.sendTs);
      } else {
        MinSendTsExists(rows - {r});
        var ts :| IsMinSendTs(rows - {r}, ts);
        assert rows == (rows - {r}) + {r};
        assert IsMinSendTs(rows, if r.sendTs < ts then r.sendTs else ts);
      }
    }
  }

  ghost function Compare(minBatch: nat, maxBatch: nat, rows: nat, slice: set<Row>, lo: nat, hi: nat): Gates
    requires lo <= hi
  {
    var ids, batches := |Ids(slice)|, |Batches(slice)|;
    var sums, expected := Sum(Projections(slice)), Range(lo, hi);
    Gates(minBatch, maxBatch, rows, ids, batches, if rows >= ids then rows - ids else 0,
          batches == hi - lo, ids == expected.rows, sums.value == expected.value,
          sums.scaled == expected.scaled, sums.sensor == expected.sensor, sums.region == expected.region,
          sums.name == expected.name, sums.unit == expected.unit, sums.tagCount == expected.tagCount,
          sums.tags == expected.tags, sums.batchTs == expected.batchTs,
          sums.nullQuality == expected.nullQuality, MinSendTs(slice) >= BASE_TS_MS * 1000)
  }

  ghost function Judge(t: Table, lo: nat, hi: nat): Gates
    requires lo <= hi
  {
    Compare(MinBatch(t), MaxBatch(t), Count(t, lo, hi), Slice(t, lo, hi), lo, hi)
  }

  /** `run_gates` over the table. */
  ghost function RunGates(t: Table, maxBatches: nat): Verdict {
    if TooNarrow(t) then Refused else Judged(Judge(t, Lo(t, maxBatches), Hi(t)))
  }

  /** A batch is gated exactly when the table holds an earlier and a later one, and at most `maxBatches`
      lie between it and the latest. */
  lemma GatedBatches(t: Table, maxBatches: nat, batch: nat)
    requires t != []
    ensures Lo(t, maxBatches) <= batch < Hi(t) <==>
            && (exists r :: r in t && r.batch < batch) && (exists r :: r in t && r.batch > batch)
            && forall r | r in t :: r.batch <= batch + maxBatches
  {
    hide MinBatch, MaxBatch;
    MinBatchIsLeast(t);
    MaxBatchIsGreatest(t);
    var first :| first in t && first.batch == MinBatch(t);
    var last :| last in t && last.batch == MaxBatch(t);
  }

  // ----- sums over sets

  lemma PlusSwaps(a: Totals, b: Totals, c: Totals)
    ensures a.Plus(b).Plus(c) == a.Plus(c).Plus(b)
    ensures a.Plus(b.Plus(c)) == a.Plus(b).Plus(c)
    ensures a.Plus(ZERO) == a
  {
  }

  lemma SomeTerm(ps: set<Projected>) returns (q: Projected)
    requires ps != {}
    ensures q in ps && Sum(ps) == Sum(ps - {q}).Plus(q.sums)
  {
    hide Totals.Plus;
    q :| q in ps && Sum(ps) == Sum(ps - {q}).Plus(q.sums);
  }

  lemma {:induction false} SumInsert(ps: set<Projected>, p: Projected)
    requires p !in ps
    ensures Sum(ps + {p}) == Sum(ps).Plus(p.sums)
    decreases |ps|
  {
    hide Sum, Totals.Plus;
    var all := ps + {p};
    var q := SomeTerm(all);
    if q == p {
      assert all - {q} == ps;
    } else {
      var rest := ps - {q};
      assert all - {q} == rest + {p} && rest + {q} == ps;
      SumInsert(rest, p);
      SumInsert(rest, q);
      PlusSwaps(Sum(rest), p.sums, q.sums);
    }
  }

  lemma {:induction false} SumUnion(ps: set<Projected>, qs: set<Projected>)
    requires ps !! qs
    ensures Sum(ps + qs) == Sum(ps).Plus(Sum(qs))
    decreases |qs|
  {
    hide Sum, Totals.Plus;
    if qs == {} {
      assert ps + qs == ps;
      SumOfNone();
      PlusSwaps(Sum(ps), ZERO, ZERO);
    } else {
      var q :| q in qs;
      var rest := qs - {q};
      SumUnion(ps, rest);
      SumInsert(ps + rest, q);
      SumInsert(rest, q);
      assert ps + qs == (ps + rest) + {q} && rest + {q} == qs;
      PlusSwaps(Sum(ps), Sum(rest), q.sums);
    }
  }

  lemma SumOfNone()
    ensures Sum({}) == ZERO
  {
  }

  // ----- the rows a complete slice projects to

  function Image(id: Id): (p: Projected)
    ensures p.sums.rows == 1
  {
    Projected(id.0, id.1, Facts(id.0, id.1))
  }

  function KeptOfBatch(batch: nat, n: nat): set<Projected> {
    if n == 0 then {}
    else if Keeps(batch, n - 1) then KeptOfBatch(batch, n - 1) + {Image((batch, n - 1))}
    else KeptOfBatch(batch, n - 1)
  }

  function KeptRange(lo: nat, hi: nat): set<Projected>
    decreases hi
  {
    if hi <= lo then {} else KeptRange(lo, hi - 1) + KeptOfBatch(hi - 1, EVENTS_PER_BATCH)
  }

  lemma {:induction false} KeptOfBatchHolds(batch: nat, n: nat, p: Projected)
    ensures p in KeptOfBatch(batch, n) <==>
            p.batch == batch && p.seq_ < n && Keeps(batch, p.seq_) && p == Image((batch, p.seq_))
  {
    hide Keeps, Facts;
    if n > 0 {
      KeptOfBatchHolds(batch, n - 1, p);
    }
  }

  lemma {:induction false} KeptRangeHolds(lo: nat, hi: nat, p: Projected)
    ensures p in KeptRange(lo, hi) <==> lo <= p.batch < hi && IsKept((p.batch, p.seq_)) && p == Image((p.batch, p.seq_))
    decreases hi
  {
    hide Keeps, Facts, KeptOfBatch;
    if hi > lo {
      KeptRangeHolds(lo, hi - 1, p);
      KeptOfBatchHolds(hi - 1, EVENTS_PER_BATCH, p);
    }
  }

  lemma {:induction false} KeptOfBatchSums(batch: nat, n: nat)
    ensures Sum(KeptOfBatch(batch, n)) == OfBatch(batch, n)
    ensures |KeptOfBatch(batch, n)| == OfBatch(batch, n).rows
  {
    hide Keeps, Facts, Sum;
    if n == 0 {
      SumOfNone();
    } else {
      KeptOfBatchSums(batch, n - 1);
      if Keeps(batch, n - 1) {
        var p := Image((batch, n - 1));
        KeptOfBatchHolds(batch, n - 1, p);
        SumInsert(KeptOfBatch(batch, n - 1), p);
      }
    }
  }

  lemma {:induction false} KeptRangeSums(lo: nat, hi: nat)
    ensures Sum(KeptRange(lo, hi)) == Range(lo, hi)
    ensures |KeptRange(lo, hi)| == Range(lo, hi).rows
    decreases hi
  {
    hide Keeps, Facts, Sum, OfBatch, KeptOfBatch;
    if hi <= lo {
      SumOfNone();
    } else {
      var ps, qs := KeptRange(lo, hi - 1), KeptOfBatch(hi - 1, EVENTS_PER_BATCH);
      KeptRangeSums(lo, hi - 1);
      KeptOfBatchSums(hi - 1, EVENTS_PER_BATCH);
      forall p | p in ps ensures p !in qs {
        KeptRangeHolds(lo, hi - 1, p);
        KeptOfBatchHolds(hi - 1, EVENTS_PER_BATCH, p);
      }
      SumUnion(ps, qs);
      assert |ps + qs| == |ps| + |qs|;
    }
  }

  // ----- exact on loss

  /** Every kept event of the batches is in the table. */
  ghost predicate Complete(t: Table, lo: nat, hi: nat) {
    forall id: Id | lo <= id.0 < hi && IsKept(id) :: id in Ids(Slice(t, lo, hi))
  }

  lemma GenuineProjects(r: Row)
    requires Genuine(r)
    ensures Project(r) == Image((r.batch, r.seq_))
  {
    hide Fingerprint, Concat, Upper, NameOf, UnitOf, ValueOf, ValueScaledOf, SensorOf, RegionOf, BatchTsOf;
  }

  lemma {:induction false} OneImageEach(ids: set<Id>, f: Id -> Projected)
    requires forall a, b | a in ids && b in ids && f(a) == f(b) :: a == b
    ensures |set id | id in ids :: f(id)| == |ids|
    decreases |ids|
  {
    var images := set id | id in ids :: f(id);
    if ids != {} {
      var id :| id in ids;
      var rest := ids - {id};
      OneImageEach(rest, f);
      assert images == (set i | i in rest :: f(i)) + {f(id)};
    }
  }

  lemma ImageKeepsId(id: Id)
    ensures Image(id).batch == id.0 && Image(id).seq_ == id.1
  {
  }

  lemma GenuineSlice(t: Table, lo: nat, hi: nat)
    requires forall r | r in t :: Genuine(r)
    ensures Projections(Slice(t, lo, hi)) == set id | id in Ids(Slice(t, lo, hi)) :: Image(id)
    ensures Projections(Slice(t, lo, hi)) <= KeptRange(lo, hi)
    ensures |Projections(Slice(t, lo, hi))| == |Ids(Slice(t, lo, hi))|
  {
    hide Image, Project, RowOf, Keeps, KeptRange;
    var slice := Slice(t, lo, hi);
    forall r | r in slice ensures Project(r) == Image((r.batch, r.seq_)) && Project(r) in KeptRange(lo, hi) {
      GenuineProjects(r);
      ImageIsKept(lo, hi, (r.batch, r.seq_));
    }
    var images := set id | id in Ids(slice) :: Image(id);
    forall p | p in images ensures p in Projections(slice) {
      var id :| id in Ids(slice) && p == Image(id);
      var r :| r in slice && id == (r.batch, r.seq_);
    }
    forall p | p in Projections(slice) ensures p in images {
      var r :| r in slice && p == Project(r);
      assert (r.batch, r.seq_) in Ids(slice);
    }
    assert Projections(slice) == images;
    forall a, b | a in Ids(slice) && b in Ids(slice) && Image(a) == Image(b) ensures a == b {
      ImageKeepsId(a);
      ImageKeepsId(b);
    }
    var f: Id -> Projected := Image;
    OneImageEach(Ids(slice), f);
    assert forall id :: f(id) == Image(id);
    assert images == set id | id in Ids(slice) :: f(id);
  }

  lemma ImageIsKept(lo: nat, hi: nat, id: Id)
    requires lo <= id.0 < hi && IsKept(id)
    ensures Image(id) in KeptRange(lo, hi)
  {
    hide Facts, KeptRange, Keeps;
    KeptRangeHolds(lo, hi, Image(id));
  }

  lemma SubsetOfSameSize<T>(a: set<T>, b: set<T>)
    requires a <= b && |a| == |b|
    ensures a == b
  {
    var rest := b - a;
    assert b == a + rest;
    assert |b| == |a| + |rest|;
  }

  /** A complete slice projects to exactly the kept rows; an incomplete one to fewer. */
  lemma CompleteIffAllKept(t: Table, lo: nat, hi: nat)
    requires forall r | r in t :: Genuine(r)
    ensures Complete(t, lo, hi) <==> |Ids(Slice(t, lo, hi))| == Range(lo, hi).rows
    ensures Complete(t, lo, hi) <==> Projections(Slice(t, lo, hi)) == KeptRange(lo, hi)
  {
    hide Image, Range, KeptRange, Projections, Keeps, Genuine;
    var slice := Slice(t, lo, hi);
    GenuineSlice(t, lo, hi);
    KeptRangeSums(lo, hi);
    if |Projections(slice)| == |KeptRange(lo, hi)| {
      SubsetOfSameSize(Projections(slice), KeptRange(lo, hi));
      forall id: Id | lo <= id.0 < hi && IsKept(id) ensures id in Ids(slice) {
        ImageIsKept(lo, hi, id);
        IdOfImage(slice, id);
      }
    }
    if Complete(t, lo, hi) {
      forall p | p in KeptRange(lo, hi) ensures p in Projections(slice) {
        KeptRangeHolds(lo, hi, p);
        assert (p.batch, p.seq_) in Ids(slice);
      }
      assert Projections(slice) == KeptRange(lo, hi);
    }
  }

  lemma IdOfImage(slice: set<Row>, id: Id)
    requires Projections(slice) == set i | i in Ids(slice) :: Image(i)
    requires Image(id) in Projections(slice)
    ensures id in Ids(slice)
  {
    hide Facts, Project;
    var i :| i in Ids(slice) && Image(i) == Image(id);
    assert i.0 == id.0 && i.1 == id.1;
  }

  function Interval(lo: nat, hi: nat): (s: set<nat>)
    requires lo <= hi
    ensures |s| == hi - lo && forall b :: b in s <==> lo <= b < hi
    decreases hi
  {
    if lo == hi then {} else Interval(lo, hi - 1) + {hi - 1}
  }

  lemma CompleteIsContiguous(t: Table, lo: nat, hi: nat)
    requires lo <= hi && Complete(t, lo, hi)
    ensures |Batches(Slice(t, lo, hi))| == hi - lo
  {
    hide Keeps, Interval;
    var slice := Slice(t, lo, hi);
    forall b | lo <= b < hi ensures b in Batches(slice) {
      assert (b, KeptEvent(b)) in Ids(slice);
    }
    assert Batches(slice) == Interval(lo, hi);
  }

  /** Over genuine rows the gate passes exactly when no kept row of the gated batches is lost. */
  lemma ExactOnLoss(t: Table, maxBatches: nat)
    requires !TooNarrow(t) && forall r | r in t :: Genuine(r)
    ensures RunGates(t, maxBatches).Judged?
    ensures RunGates(t, maxBatches).gates.Passed() <==>
            maxBatches > 0 && Complete(t, Lo(t, maxBatches), Hi(t))
  {
    hide Range, Sum, Projections, KeptRange, Slice, Ids, Complete, RowOf, Count;
    var lo, hi := Lo(t, maxBatches), Hi(t);
    var slice := Slice(t, lo, hi);
    CompleteIffAllKept(t, lo, hi);
    StampsOfSlice(t, lo, hi);
    if Complete(t, lo, hi) {
      KeptRangeSums(lo, hi);
      CompleteIsContiguous(t, lo, hi);
    }
  }

  lemma StampsOfSlice(t: Table, lo: nat, hi: nat)
    requires lo <= hi && forall r | r in t :: Genuine(r)
    ensures Complete(t, lo, hi) ==> (MinSendTs(Slice(t, lo, hi)) >= BASE_TS_MS * 1000 <==> lo < hi)
    ensures lo == hi ==> MinSendTs(Slice(t, lo, hi)) == 0
  {
    hide Keeps, RowOf, MinSendTs;
    var slice := Slice(t, lo, hi);
    assert IsMinSendTs(slice, MinSendTs(slice));
    if lo < hi && Complete(t, lo, hi) {
      assert (lo, KeptEvent(lo)) in Ids(slice);
      assert slice != {};
    }
  }

  // ----- blind to duplication

  ghost predicate SameRows(t: Table, u: Table) { forall r :: r in t <==> r in u }

  lemma {:induction false} MinBatchIsLeast(t: Table)
    requires t != []
    ensures (exists r :: r in t && r.batch == MinBatch(t)) && forall r | r in t :: MinBatch(t) <= r.batch
    decreases |t|
  {
    var init, last := t[..|t| - 1], t[|t| - 1];
    assert t == init + [last];
    if init != [] {
      MinBatchIsLeast(init);
      var r :| r in init && r.batch == MinBatch(init);
      assert r in t && last in t;
    } else {
      assert t[0] in t;
    }
  }

  lemma {:induction false} MaxBatchIsGreatest(t: Table)
    requires t != []
    ensures (exists r :: r in t && r.batch == MaxBatch(t)) && forall r | r in t :: r.batch <= MaxBatch(t)
    decreases |t|
  {
    var init, last := t[..|t| - 1], t[|t| - 1];
    assert t == init + [last] && last in t;
    if init != [] {
      MaxBatchIsGreatest(init);
      var r :| r in init && r.batch == MaxBatch(init);
      assert r in t;
    } else {
      assert MaxBatch(t) == last.batch;
    }
  }

  lemma HeadIsIn(t: Table)
    ensures t == [] || t[0] in t
  {
  }

  lemma BoundsOfSameRows(t: Table, u: Table)
    requires SameRows(t, u)
    ensures MinBatch(t) == MinBatch(u) && MaxBatch(t) == MaxBatch(u)
  {
    hide MinBatch, MaxBatch;
    HeadIsIn(t);
    HeadIsIn(u);
    if t != [] && u != [] {
      MinBatchIsLeast(t);
      MinBatchIsLeast(u);
      MaxBatchIsGreatest(t);
      MaxBatchIsGreatest(u);
    }
  }

  lemma {:induction false} CountAppend(t: Table, c: Table, lo: nat, hi: nat)
    ensures Count(t + c, lo, hi) == Count(t, lo, hi) + Count(c, lo, hi)
    decreases |c|
  {
    if c == [] {
      assert t + c == t;
    } else {
      assert (t + c)[..|t + c| - 1] == t + c[..|c| - 1];
      CountAppend(t, c[..|c| - 1], lo, hi);
    }
  }

  /** `count()` is never below `uniqExact` of the identities, so the subtraction does not saturate. */
  lemma {:induction false} DistinctIdsAreCounted(t: Table, lo: nat, hi: nat)
    ensures |Ids(Slice(t, lo, hi))| <= Count(t, lo, hi)
    decreases |t|
  {
    if t != [] {
      var init, last := t[..|t| - 1], t[|t| - 1];
      DistinctIdsAreCounted(init, lo, hi);
      assert t == init + [last];
      var ids, before := Ids(Slice(t, lo, hi)), Ids(Slice(init, lo, hi));
      if lo <= last.batch < hi {
        assert Slice(t, lo, hi) == Slice(init, lo, hi) + {last};
        assert ids == before + {(last.batch, last.seq_)};
      } else {
        assert Slice(t, lo, hi) == Slice(init, lo, hi);
      }
    }
  }

  /** All of a verdict but its two counts is a function of the set of rows. */
  lemma JudgeOfSlice(t: Table, u: Table, lo: nat, hi: nat)
    requires lo <= hi && Slice(t, lo, hi) == Slice(u, lo, hi)
    requires MinBatch(t) == MinBatch(u) && MaxBatch(t) == MaxBatch(u)
    ensures var g, h := Judge(t, lo, hi), Judge(u, lo, hi);
            && g.rows == Count(t, lo, hi) == g.distinctIds + g.duplicates
            && h.rows == Count(u, lo, hi) == h.distinctIds + h.duplicates
            && h == g.(rows := h.rows, duplicates := h.duplicates)
  {
    hide Compare, MinBatch, MaxBatch, Count, Slice, Ids;
    DistinctIdsAreCounted(t, lo, hi);
    DistinctIdsAreCounted(u, lo, hi);
    RecountedSlice(MinBatch(t), MaxBatch(t), Count(t, lo, hi), Count(u, lo, hi), Slice(t, lo, hi), lo, hi);
  }

  lemma RecountedSlice(minBatch: nat, maxBatch: nat, rows: nat, recount: nat, slice: set<Row>, lo: nat, hi: nat)
    requires lo <= hi && rows >= |Ids(slice)| && recount >= |Ids(slice)|
    ensures var g := Compare(minBatch, maxBatch, rows, slice, lo, hi);
            var h := Compare(minBatch, maxBatch, recount, slice, lo, hi);
            && g.rows == rows == g.distinctIds + g.duplicates
            && h.rows == recount == h.distinctIds + h.duplicates
            && h == g.(rows := h.rows, duplicates := h.duplicates)
  {
    hide Range, Sum, Projections, Ids, Batches, MinSendTs;
  }

  /** Copies of rows already present change only the two counts, each by the copies in the gated
      batches: the verdict is the same and `duplicates` is exactly the surplus. */
  lemma BlindToCopies(t: Table, copies: Table, maxBatches: nat)
    requires forall r | r in copies :: r in t
    ensures RunGates(t, maxBatches).Refused? == RunGates(t + copies, maxBatches).Refused?
    ensures RunGates(t, maxBatches).Judged? ==>
              var g := RunGates(t, maxBatches).gates;
              var surplus := Count(copies, Lo(t, maxBatches), Hi(t));
              && g.rows == g.distinctIds + g.duplicates
              && RunGates(t + copies, maxBatches).gates
                   == g.(rows := g.rows + surplus, duplicates := g.duplicates + surplus)
  {
    hide Judge, MinBatch, MaxBatch, Count;
    var all := t + copies;
    assert SameRows(t, all);
    BoundsOfSameRows(t, all);
    if !TooNarrow(t) {
      var lo, hi := Lo(t, maxBatches), Hi(t);
      assert Slice(t, lo, hi) == Slice(all, lo, hi);
      CountAppend(t, copies, lo, hi);
      JudgeOfSlice(t, all, lo, hi);
    }
  }

  /** Row order is immaterial. */
  lemma BlindToOrder(t: Table, u: Table, maxBatches: nat)
    requires multiset(t) == multiset(u)
    ensures RunGates(t, maxBatches) == RunGates(u, maxBatches)
  {
    hide Judge, MinBatch, MaxBatch, Count;
    forall r ensures r in t <==> r in u {
      assert r in t <==> r in multiset(t);
      assert r in u <==> r in multiset(u);
    }
    BoundsOfSameRows(t, u);
    if !TooNarrow(t) {
      var lo, hi := Lo(t, maxBatches), Hi(t);
      assert Slice(t, lo, hi) == Slice(u, lo, hi);
      CountOfMultiset(t, u, lo, hi);
      JudgeOfSlice(t, u, lo, hi);
    }
  }

  lemma TakeOut(u: Table, x: Row, lo: nat, hi: nat) returns (v: Table)
    requires x in multiset(u)
    ensures multiset(v) == multiset(u) - multiset{x}
    ensures Count(u, lo, hi) == Count(v, lo, hi) + Count([x], lo, hi)
  {
    hide Count;
    var k :| 0 <= k < |u| && u[k] == x;
    var a, b := u[..k], u[k + 1..];
    v := a + b;
    assert u == a + [x] + b;
    CountAppend(a, b, lo, hi);
    CountAppend(a, [x], lo, hi);
    CountAppend(a + [x], b, lo, hi);
  }

  lemma {:induction false} CountOfMultiset(t: Table, u: Table, lo: nat, hi: nat)
    requires multiset(t) == multiset(u)
    ensures Count(t, lo, hi) == Count(u, lo, hi)
    decreases |t|
  {
    hide Count;
    assert |t| == |multiset(t)| == |multiset(u)| == |u|;
    if t == [] {
      assert u == [];
    } else {
      var init, last := t[..|t| - 1], t[|t| - 1];
      assert t == init + [last];
      var v := TakeOut(u, last, lo, hi);
      CountOfMultiset(init, v, lo, hi);
      CountAppend(init, [last], lo, hi);
    }
  }

  // ----- a wrong row

  /** The ten sums a verdict compares. */
  predicate AddsNothing(x: Totals) { x.(rows := 0) == ZERO }

  /** A wrong version of a kept row beside all the genuine ones passes exactly when it adds nothing
      to any of the ten sums: over a complete table the sums expose any other stray row. */
  lemma StrayVersion(t: Table, x: Row, maxBatches: nat)
    requires !TooNarrow(t) && maxBatches > 0 && (forall r | r in t :: Genuine(r))
    requires Complete(t, Lo(t, maxBatches), Hi(t))
    requires Lo(t, maxBatches) <= x.batch < Hi(t) && IsKept((x.batch, x.seq_)) && x.sendTs >= BASE_TS_MS * 1000
    requires Project(x) != Image((x.batch, x.seq_))
    ensures RunGates(t + [x], maxBatches).Judged?
    ensures RunGates(t + [x], maxBatches).gates.Passed() <==> AddsNothing(Project(x).sums)
  {
    hide Range, Sum, KeptRange, Project, Image, Keeps, MinBatch, MaxBatch, Count, MinSendTs, Genuine, Ids, Complete;
    hide Projections;
    var lo, hi, u := Lo(t, maxBatches), Hi(t), t + [x];
    StrayBounds(t, x);
    var before, after := Slice(t, lo, hi), Slice(u, lo, hi);
    assert after == before + {x};
    StraySlice(t, x, lo, hi);
    KeptRangeSums(lo, hi);
    CompleteIffAllKept(t, lo, hi);
    assert Project(x) !in KeptRange(lo, hi) by { KeptRangeHolds(lo, hi, Project(x)); ProjectKeepsId(x); }
    SumInsert(KeptRange(lo, hi), Project(x));
    CompleteIsContiguous(t, lo, hi);
    StampsOfSlice(t, lo, hi);
  }

  lemma ProjectKeepsId(x: Row)
    ensures Project(x).batch == x.batch && Project(x).seq_ == x.seq_
  {
  }

  lemma StrayBounds(t: Table, x: Row)
    requires MinBatch(t) < x.batch < MaxBatch(t)
    ensures MinBatch(t + [x]) == MinBatch(t) && MaxBatch(t + [x]) == MaxBatch(t)
  {
    assert (t + [x])[..|t + [x]| - 1] == t;
  }

  lemma StraySlice(t: Table, x: Row, lo: nat, hi: nat)
    requires lo <= x.batch < hi && IsKept((x.batch, x.seq_)) && Complete(t, lo, hi)
    requires x.sendTs >= BASE_TS_MS * 1000
    ensures var before, after := Slice(t, lo, hi), Slice(t + [x], lo, hi);
            && Projections(after) == Projections(before) + {Project(x)}
            && Ids(after) == Ids(before) && Batches(after) == Batches(before)
            && (MinSendTs(before) >= BASE_TS_MS * 1000 ==> MinSendTs(after) >= BASE_TS_MS * 1000)
  {
    hide Project, Keeps, MinSendTs;
    var before, after := Slice(t, lo, hi), Slice(t + [x], lo, hi);
    assert after == before + {x};
    assert (x.batch, x.seq_) in Ids(before);
    var r :| r in before && (r.batch, r.seq_) == (x.batch, x.seq_);
    assert x.batch in Batches(before);
    assert IsMinSendTs(before, MinSendTs(before)) && IsMinSendTs(after, MinSendTs(after));
  }

  // ----- a wrong row that passes

  /** What the first `n` events of one batch leave in the table. */
  function BatchRows(batch: nat, n: nat): Table {
    if n == 0 then []
    else if Keeps(batch, n - 1) then BatchRows(batch, n - 1) + [RowOf(batch, n - 1, BASE_TS_MS * 1000)]
    else BatchRows(batch, n - 1)
  }

  /** The table after a correct run of the first `n` batches. */
  function AllRows(n: nat): Table {
    if n == 0 then [] else AllRows(n - 1) + BatchRows(n - 1, EVENTS_PER_BATCH)
  }

  lemma {:induction false} BatchRowsHold(batch: nat, n: nat, r: Row)
    ensures r in BatchRows(batch, n) <==>
            r.batch == batch && r.seq_ < n && Keeps(batch, r.seq_) && r == RowOf(batch, r.seq_, BASE_TS_MS * 1000)
  {
    hide Keeps, RowOf;
    if n > 0 {
      BatchRowsHold(batch, n - 1, r);
      RowKeepsId(batch, n - 1);
    }
  }

  lemma RowKeepsId(batch: nat, s: nat)
    ensures var r := RowOf(batch, s, BASE_TS_MS * 1000);
      r.batch == batch && r.seq_ == s && r.sendTs == BASE_TS_MS * 1000
  {
  }

  lemma {:induction false} AllRowsHold(n: nat, r: Row)
    ensures r in AllRows(n) <==>
            r.batch < n && IsKept((r.batch, r.seq_)) && r == RowOf(r.batch, r.seq_, BASE_TS_MS * 1000)
  {
    hide Keeps, RowOf, BatchRows;
    if n > 0 {
      AllRowsHold(n - 1, r);
      BatchRowsHold(n - 1, EVENTS_PER_BATCH, r);
    }
  }

  lemma AllRowsAreComplete(n: nat, lo: nat, hi: nat)
    requires hi <= n
    ensures (forall r | r in AllRows(n) :: Genuine(r)) && Complete(AllRows(n), lo, hi)
  {
    hide Keeps, RowOf, AllRows;
    forall r | r in AllRows(n) ensures Genuine(r) {
      AllRowsHold(n, r);
      RowKeepsId(r.batch, r.seq_);
    }
    forall id: Id | lo <= id.0 < hi && IsKept(id) ensures id in Ids(Slice(AllRows(n), lo, hi)) {
      var r := RowOf(id.0, id.1, BASE_TS_MS * 1000);
      RowKeepsId(id.0, id.1);
      AllRowsHold(n, r);
      assert r in Slice(AllRows(n), lo, hi);
    }
  }

  lemma AllRowsSpan(n: nat)
    requires n > 0
    ensures MinBatch(AllRows(n)) == 0 && MaxBatch(AllRows(n)) == n - 1
  {
    hide Keeps, RowOf, AllRows, MinBatch, MaxBatch;
    var t := AllRows(n);
    var first, last := RowOf(0, KeptEvent(0), BASE_TS_MS * 1000), RowOf(n - 1, KeptEvent(n - 1), BASE_TS_MS * 1000);
    RowKeepsId(0, KeptEvent(0));
    RowKeepsId(n - 1, KeptEvent(n - 1));
    AllRowsHold(n, first);
    AllRowsHold(n, last);
    MinBatchIsLeast(t);
    MaxBatchIsGreatest(t);
    var r :| r in t && r.batch == MaxBatch(t);
    AllRowsHold(n, r);
  }

  /** Every field but the identity and the stamp is empty or zero. */
  function HollowRow(batch: nat, s: nat): Row {
    Row(batch, s, [], [], [], [], 0, 0, Some(0), [], 0, BASE_TS_MS * 1000)
  }

  /** A hollow version of any kept row, in any gated batch of any correct run's table, passes the gate. */
  lemma HollowRowPasses(n: nat, batch: nat, s: nat, maxBatches: nat)
    requires 0 < batch < n - 1 <= batch + maxBatches && IsKept((batch, s))
    ensures var t := AllRows(n);
      && (forall r | r in t :: Genuine(r)) && HollowRow(batch, s) !in t
      && RunGates(t + [HollowRow(batch, s)], maxBatches).Judged?
      && RunGates(t + [HollowRow(batch, s)], maxBatches).gates.Passed()
  {
    hide Keeps, AllRows, MinBatch, MaxBatch, RunGates, Project, Complete, Image;
    var t, x := AllRows(n), HollowRow(batch, s);
    AllRowsSpan(n);
    AllRowsAreComplete(n, Lo(t, maxBatches), Hi(t));
    HollowAddsNothing(batch, s);
    StrayVersion(t, x, maxBatches);
    if x in t {
      GenuineProjects(x);
    }
  }

  lemma NothingHasNoFingerprint(t: Bytes)
    requires t == []
    ensures Fingerprint(t) == 0
  {
    assert Reversed(t) == [] && Head(t) == 0;
  }

  lemma ImageStamp(id: Id)
    ensures Image(id).sums.batchTs == BatchTsOf(id.0) > 0
  {
    hide SensorOf, RegionOf, NameOf, UnitOf, ValueOf, ValueScaledOf, Upper, TagsOf, QualityOf, Fingerprint, Concat;
  }

  lemma HollowAddsNothing(batch: nat, s: nat)
    ensures var x := HollowRow(batch, s); AddsNothing(Project(x).sums) && Project(x) != Image((batch, s))
  {
    hide Project, Image, BatchTsOf;
    HollowSums(batch, s);
    ImageStamp((batch, s));
  }

  lemma HollowSums(batch: nat, s: nat)
    ensures Project(HollowRow(batch, s)).sums == ZERO.(rows := 1)
  {
    hide Fingerprint, Concat;
    var x := HollowRow(batch, s);
    NothingHasNoFingerprint(x.sensor);
    NothingJoins(x.tags);
    NothingHasNoFingerprint(Concat(x.tags));
  }

  lemma NothingJoins(ts: seq<Bytes>)
    requires ts == []
    ensures Concat(ts) == [] && |ts| % 256 == 0
  {
  }
}

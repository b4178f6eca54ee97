/** What each of the gate's checks says of any table, genuine or not. */
module GateReadings {
  import opened Corpus
  import opened CorpusFacts
  import opened Gate
  import opened Wire

  // ----- which events

  /** The kept events of the batches. */
  function KeptIds(lo: nat, hi: nat): set<Id> { set p | p in KeptRange(lo, hi) :: (p.batch, p.seq_) }

  lemma KeptIdsHold(lo: nat, hi: nat, id: Id)
    ensures id in KeptIds(lo, hi) <==> lo <= id.0 < hi && IsKept(id)
  {
    hide Keeps, Image, KeptRange;
    ImageKeepsId(id);
    KeptRangeHolds(lo, hi, Image(id));
    if id in KeptIds(lo, hi) {
      var p :| p in KeptRange(lo, hi) && id == (p.batch, p.seq_);
      KeptRangeHolds(lo, hi, p);
    }
    if lo <= id.0 < hi && IsKept(id) {
      assert Image(id) in KeptRange(lo, hi);
    }
  }

  lemma KeptIdsAreCounted(lo: nat, hi: nat)
    ensures |KeptIds(lo, hi)| == Range(lo, hi).rows
  {
    hide Image, KeptRange, Range;
    var ids := KeptIds(lo, hi);
    KeptRangeSums(lo, hi);
    forall a: Id ensures Image(a).batch == a.0 && Image(a).seq_ == a.1 {
      ImageKeepsId(a);
    }
    var f: Id -> Projected := Image;
    OneImageEach(ids, f);
    forall p ensures p in KeptRange(lo, hi) <==> p in set id | id in ids :: f(id) {
      KeptRangeHolds(lo, hi, p);
      if p in KeptRange(lo, hi) {
        assert (p.batch, p.seq_) in ids;
      }
      if p in set id | id in ids :: f(id) {
        var id :| id in ids && p == f(id);
        KeptIdsHold(lo, hi, id);
        KeptRangeHolds(lo, hi, Image(id));
      }
    }
    assert KeptRange(lo, hi) == set id | id in ids :: f(id);
  }

  lemma Differences<T>(a: set<T>, b: set<T>)
    ensures |a| == |b| <==> |a - b| == |b - a|
  {
    assert a == (a - b) + a * b && b == (b - a) + a * b;
    assert |a| == |a - b| + |a * b| && |b| == |b - a| + |a * b|;
  }

  /** The row check passes exactly when the batches hold as many events that should have been dropped as
      they lack events that should have been kept. */
  lemma RowsMatchExactly(t: Table, maxBatches: nat)
    requires RunGates(t, maxBatches).Judged?
    ensures var ids := Ids(Slice(t, Lo(t, maxBatches), Hi(t)));
            var kept := KeptIds(Lo(t, maxBatches), Hi(t));
      RunGates(t, maxBatches).gates.rowsMatch <==> |ids - kept| == |kept - ids|
  {
    hide Range, KeptIds, Ids, Slice, Lo, MinBatch, MaxBatch;
    var lo, hi := Lo(t, maxBatches), Hi(t);
    KeptIdsAreCounted(lo, hi);
    Differences(Ids(Slice(t, lo, hi)), KeptIds(lo, hi));
  }

  /** A table that has every event it should, and one in the gated batches that should have been dropped,
      does not pass. */
  lemma UnfilteredIsRefused(t: Table, r: Row, maxBatches: nat)
    requires RunGates(t, maxBatches).Judged? && Complete(t, Lo(t, maxBatches), Hi(t))
    requires r in t && Lo(t, maxBatches) <= r.batch < Hi(t) && !IsKept((r.batch, r.seq_))
    ensures !RunGates(t, maxBatches).gates.Passed()
  {
    hide KeptIds, Lo, MinBatch, MaxBatch, RunGates, Keeps;
    var lo, hi := Lo(t, maxBatches), Hi(t);
    var ids, kept := Ids(Slice(t, lo, hi)), KeptIds(lo, hi);
    RowsMatchExactly(t, maxBatches);
    forall id | id in kept ensures id in ids {
      KeptIdsHold(lo, hi, id);
    }
    assert kept - ids == {};
    KeptIdsHold(lo, hi, (r.batch, r.seq_));
    assert r in Slice(t, lo, hi);
    assert (r.batch, r.seq_) in ids - kept;
  }

  // ----- which batches, how many rows, which stamps

  function Places(t: Table, lo: nat, hi: nat): set<nat> { set i | 0 <= i < |t| && lo <= t[i].batch < hi }

  lemma {:induction false} CountIsPlaces(t: Table, lo: nat, hi: nat)
    ensures Count(t, lo, hi) == |Places(t, lo, hi)|
    decreases |t|
  {
    if t == [] {
      assert Places(t, lo, hi) == {};
    } else {
      var n := |t| - 1;
      CountIsPlaces(t[..n], lo, hi);
      var before := Places(t[..n], lo, hi);
      if lo <= t[n].batch < hi {
        assert Places(t, lo, hi) == before + {n} && n !in before;
      } else {
        assert Places(t, lo, hi) == before;
      }
    }
  }

  ghost predicate HasBatch(t: Table, b: nat) { exists r :: r in t && r.batch == b }

  lemma ContiguousIsFull(t: Table, lo: nat, hi: nat)
    requires lo <= hi
    ensures |Batches(Slice(t, lo, hi))| == hi - lo <==> forall b | lo <= b < hi :: HasBatch(t, b)
  {
    hide Interval;
    var batches := Batches(Slice(t, lo, hi));
    if |batches| == hi - lo {
      SubsetOfSameSize(batches, Interval(lo, hi));
      forall b | lo <= b < hi ensures HasBatch(t, b) {
        assert b in batches;
      }
    }
    if forall b | lo <= b < hi :: HasBatch(t, b) {
      forall b | lo <= b < hi ensures b in batches {
        assert HasBatch(t, b);
        var r :| r in t && r.batch == b;
        assert r in Slice(t, lo, hi);
      }
      assert batches == Interval(lo, hi);
    }
  }

  function Stamps(rows: set<Row>): set<int> { set r | r in rows :: r.sendTs }

  lemma StampsByNumber(rows: set<Row>)
    ensures MinSendTs(rows) >= 1_772_000_000_000_000 <==>
            Stamps(rows) != {} && forall ts | ts in Stamps(rows) :: ts >= 1_772_000_000_000_000
  {
    hide MinSendTs;
    var least := MinSendTs(rows);
    assert IsMinSendTs(rows, least);
    if rows != {} {
      assert least in Stamps(rows);
    }
  }

  /** The other checks and counts: how many rows lie in the gated batches and how many of them are copies,
      whether every such batch has a row, and whether there is one and none is stamped before the base. */
  lemma ChecksByMeaning(t: Table, maxBatches: nat)
    requires RunGates(t, maxBatches).Judged?
    ensures var g, lo, hi := RunGates(t, maxBatches).gates, Lo(t, maxBatches), Hi(t);
      && g.rows == |Places(t, lo, hi)| && g.duplicates == g.rows - |Ids(Slice(t, lo, hi))|
      && (g.contiguous <==> forall b | lo <= b < hi :: HasBatch(t, b))
      && (g.sendTsAfterBase <==>
            Stamps(Slice(t, lo, hi)) != {} && forall ts | ts in Stamps(Slice(t, lo, hi)) :: ts >= 1_772_000_000_000_000)
  {
    hide Range, Sum, Projections, Ids, Batches, Slice, Lo, MinBatch, MaxBatch, MinSendTs, Count, Places, Stamps;
    var lo, hi := Lo(t, maxBatches), Hi(t);
    CountIsPlaces(t, lo, hi);
    DistinctIdsAreCounted(t, lo, hi);
    assert lo <= hi by { LoIsBelow(t, maxBatches); }
    ContiguousIsFull(t, lo, hi);
    StampsByNumber(Slice(t, lo, hi));
  }

  lemma LoIsBelow(t: Table, maxBatches: nat)
    requires !TooNarrow(t)
    ensures Lo(t, maxBatches) <= Hi(t)
  {
  }

  /** Each sum is compared with that of the kept events, column by column. */
  lemma SumsByColumn(t: Table, maxBatches: nat)
    requires RunGates(t, maxBatches).Judged?
    ensures var g, lo, hi := RunGates(t, maxBatches).gates, Lo(t, maxBatches), Hi(t);
            var have, want := Sum(Projections(Slice(t, lo, hi))), Sum(KeptRange(lo, hi));
      && (g.valueSumMatch <==> have.value == want.value) && (g.valueScaledMatch <==> have.scaled == want.scaled)
      && (g.sensorMatch <==> have.sensor == want.sensor) && (g.regionMatch <==> have.region == want.region)
      && (g.nameMatch <==> have.name == want.name) && (g.unitMatch <==> have.unit == want.unit)
      && (g.tagCountMatch <==> have.tagCount == want.tagCount) && (g.tagMatch <==> have.tags == want.tags)
      && (g.batchTsMatch <==> have.batchTs == want.batchTs)
      && (g.nullQualityMatch <==> have.nullQuality == want.nullQuality)
  {
    hide Range, Sum, Projections, Ids, Batches, Slice, Lo, MinBatch, MaxBatch, MinSendTs, Count, KeptRange;
    KeptRangeSums(Lo(t, maxBatches), Hi(t));
  }

  /** The row of the second event of batch 50, column by column. */
  lemma RowOf50(ts: int)
    ensures var r := RowOf(50, 1, ts);
      && r.batch == 50 && r.seq_ == 1 && Reads(r.sensor, "sensor-50") && r.region == []
      && Reads(r.name, "METRIC_15") && Reads(r.unit, "rpm") && r.value == 50_000_247 && r.scaled == 25_000_123_500
      && r.quality == Some(57) && |r.tags| == 3 && Reads(r.tags[0], "tag-3") && Reads(r.tags[1], "tag-4")
      && Reads(r.tags[2], "tag-5") && r.batchTs == 1_772_000_000_050 && r.sendTs == ts
  {
    hide Numbered, Reads;
    SecondEventOf50();
    SensorOf50();
    UpperMetric(NameOf(50, 1));
  }

  lemma SensorOf50()
    ensures Reads(SensorOf(50), "sensor-50")
  {
    hide Numbered;
    TwoDigits("sensor-", 50, "sensor-50");
  }

  lemma UpperMetric(name: Bytes)
    requires Reads(name, "metric_15")
    ensures Reads(Upper(name), "METRIC_15")
  {
    forall i | 0 <= i < |name| ensures Upper(name)[i] == if 97 <= name[i] <= 122 then name[i] - 32 else name[i] {
      UpperByLetter(name, i);
    }
  }

  /** An array's length is counted in a byte. */
  lemma TagCountIsAByte(r: Row)
    ensures Project(r).sums.tagCount < 256 && exists k: nat :: |r.tags| == 256 * k + Project(r).sums.tagCount
  {
    var n := |r.tags|;
    assert n == 256 * (n / 256) + n % 256;
  }

  // ----- what no check sees

  /** The same rows but for the figures of non-null qualities. */
  ghost predicate SameButQuality(t: Table, u: Table) {
    |t| == |u| && forall i | 0 <= i < |t| ::
      t[i] == u[i].(quality := t[i].quality) && (t[i].quality.None? <==> u[i].quality.None?)
  }

  lemma {:induction false} CountSameButQuality(t: Table, u: Table, lo: nat, hi: nat)
    requires SameButQuality(t, u)
    ensures Count(t, lo, hi) == Count(u, lo, hi) && MinBatch(t) == MinBatch(u) && MaxBatch(t) == MaxBatch(u)
    decreases |t|
  {
    if t != [] {
      CountSameButQuality(t[..|t| - 1], u[..|u| - 1], lo, hi);
    }
  }

  lemma ProjectsAlike(r: Row, q: Row)
    requires r == q.(quality := r.quality) && (r.quality.None? <==> q.quality.None?)
    ensures Project(r) == Project(q)
  {
  }

  lemma SliceSameButQuality(t: Table, u: Table, lo: nat, hi: nat)
    requires SameButQuality(t, u)
    ensures var a, b := Slice(t, lo, hi), Slice(u, lo, hi);
      && Projections(a) <= Projections(b) && Ids(a) <= Ids(b) && Batches(a) <= Batches(b)
      && Stamps(a) <= Stamps(b)
  {
    hide Project;
    var b := Slice(u, lo, hi);
    forall r | r in Slice(t, lo, hi)
      ensures Project(r) in Projections(b) && (r.batch, r.seq_) in Ids(b)
      ensures r.batch in Batches(b) && r.sendTs in Stamps(b)
    {
      var i :| 0 <= i < |t| && t[i] == r;
      ProjectsAlike(r, u[i]);
      assert u[i] in u && u[i] in b;
    }
  }

  /** No check reads a quality that is not null: changing such figures changes no reading of any table. */
  lemma BlindToQuality(t: Table, u: Table, maxBatches: nat)
    requires SameButQuality(t, u)
    ensures RunGates(t, maxBatches) == RunGates(u, maxBatches)
  {
    hide Compare, MinBatch, MaxBatch, Count, Slice, Projections, Ids, Batches, Project, Stamps;
    assert SameButQuality(u, t);
    CountSameButQuality(t, u, 0, 0);
    if !TooNarrow(t) {
      var lo, hi := Lo(t, maxBatches), Hi(t);
      CountSameButQuality(t, u, lo, hi);
      SliceSameButQuality(t, u, lo, hi);
      SliceSameButQuality(u, t, lo, hi);
      ComparesAlike(MinBatch(t), MaxBatch(t), Count(t, lo, hi), Slice(t, lo, hi), Slice(u, lo, hi), lo, hi);
    }
  }

  lemma ComparesAlike(minBatch: nat, maxBatch: nat, rows: nat, a: set<Row>, b: set<Row>, lo: nat, hi: nat)
    requires lo <= hi && Projections(a) == Projections(b) && Ids(a) == Ids(b) && Batches(a) == Batches(b)
    requires Stamps(a) == Stamps(b)
    ensures Compare(minBatch, maxBatch, rows, a, lo, hi) == Compare(minBatch, maxBatch, rows, b, lo, hi)
  {
    hide Projections, Ids, Batches, Sum, Range, MinSendTs, Stamps;
    StampsByNumber(a);
    StampsByNumber(b);
  }
}

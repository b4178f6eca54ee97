/** The generator's field derivations, the filter every arm applies, and the oracle that
    sums what a range of batches must yield. */
module Corpus {
  import opened Wire
  import Cells
  import Decimal

  const EVENTS_PER_BATCH: nat := 100
  const SENSORS: nat := 1024
  const NAMES: nat := 32
  const TAGS: nat := 16
  const BASE_TS_MS: nat := 1_772_000_000_000
  const DROP_UNIT: nat := 3

  // ----- field derivations

  function Numbered(prefix: string, n: nat): Bytes
    requires forall i | 0 <= i < |prefix| :: prefix[i] < 128 as char
  {
    Cells.Ascii(prefix) + Cells.Numeral(Decimal.Digits(n))
  }

  function SensorOf(batch: nat): Bytes { Numbered("sensor-", batch % SENSORS) }

  function RegionOf(batch: nat): Option<Bytes> {
    if batch % 10 == 0 then None else Some(Numbered("region-", batch % 7))
  }

  function BatchTsOf(batch: nat): nat { BASE_TS_MS + batch }

  function NameOf(batch: nat, s: nat): Bytes { Numbered("metric_", (batch * 31 + s) % NAMES) }

  function UnitIndex(batch: nat, s: nat): nat { (batch * 7 + s) % 8 }

  function UnitOf(batch: nat, s: nat): Bytes {
    Cells.Ascii(["count", "bytes", "ms", "drop", "ratio", "celsius", "volts", "rpm"][UnitIndex(batch, s)])
  }

  function ValueOf(batch: nat, s: nat): nat { (batch * 1_000_003 % U64 + s * 97) % 2_147_483_647 }

  /** `quality` in hundredths. */
  function QualityOf(batch: nat, s: nat): Option<nat> {
    if (batch + s) % 5 == 0 then None else Some((batch * 13 + s * 7) % 100)
  }

  function TagsOf(batch: nat, s: nat): seq<Bytes> {
    seq((batch + s) % 4, j requires 0 <= j => Numbered("tag-", (batch + s + j) % TAGS))
  }

  function Upper(t: Bytes): Bytes {
    seq(|t|, i requires 0 <= i < |t| => if 97 <= t[i] <= 122 then t[i] - 32 else t[i])
  }

  function ValueScaledOf(value: nat, s: nat): nat { value * 1000 / (s + 1) }

  /** The unit sentinel and the quality floor of 0.2. */
  predicate Keeps(batch: nat, s: nat) {
    UnitIndex(batch, s) != DROP_UNIT && !(QualityOf(batch, s).Some? && QualityOf(batch, s).value < 20)
  }

  function Reversed(t: Bytes): Bytes { seq(|t|, i requires 0 <= i < |t| => t[|t| - 1 - i]) }

  /** The first eight bytes, little-endian and zero-padded. */
  function Head(t: Bytes): nat { FromLE(t[..if |t| < 8 then |t| else 8]) }

  function Fingerprint(t: Bytes): nat { Head(t) + Head(Reversed(t)) }

  function Concat(ts: seq<Bytes>): Bytes {
    if ts == [] then [] else ts[0] + Concat(ts[1..])
  }

  // ----- the oracle

  /** What a set of rows adds up to, column by column. */
  datatype Totals = Totals(
    rows: nat, value: int, scaled: int, sensor: int, region: int, name: int,
    unit: int, tagCount: int, tags: int, batchTs: int, nullQuality: nat)
  {
    function Plus(o: Totals): Totals {
      Totals(rows + o.rows, value + o.value, scaled + o.scaled, sensor + o.sensor, region + o.region,
             name + o.name, unit + o.unit, tagCount + o.tagCount, tags + o.tags, batchTs + o.batchTs,
             nullQuality + o.nullQuality)
    }
  }

  const ZERO := Totals(0, 0, 0, 0, 0, 0, 0, 0, 0, 0, 0)

  /** What one kept event adds. */
  function Facts(batch: nat, s: nat): (t: Totals)
    ensures t.rows == 1
  {
    Totals(1, ValueOf(batch, s), ValueScaledOf(ValueOf(batch, s), s), Fingerprint(SensorOf(batch)),
           Fingerprint(if RegionOf(batch).Some? then RegionOf(batch).value else []),
           Fingerprint(Upper(NameOf(batch, s))), Fingerprint(UnitOf(batch, s)), |TagsOf(batch, s)|,
           Fingerprint(Concat(TagsOf(batch, s))), BatchTsOf(batch),
           if QualityOf(batch, s).None? then 1 else 0)
  }

  /** The kept events of one batch below `n`. */
  function OfBatch(batch: nat, n: nat): Totals {
    if n == 0 then ZERO
    else if Keeps(batch, n - 1) then OfBatch(batch, n - 1).Plus(Facts(batch, n - 1))
    else OfBatch(batch, n - 1)
  }

  /** What batches `lo..hi` must yield. */
  function Range(lo: nat, hi: nat): Totals
    decreases hi
  {
    if hi <= lo then ZERO else Range(lo, hi - 1).Plus(OfBatch(hi - 1, EVENTS_PER_BATCH))
  }

  method AddEvent(acc: Totals, batch: nat, s: nat, sensorFp: nat, regionFp: nat, batchTs: nat) returns (out: Totals)
    requires sensorFp == Fingerprint(SensorOf(batch)) && batchTs == BatchTsOf(batch)
    requires regionFp == Fingerprint(if RegionOf(batch).Some? then RegionOf(batch).value else [])
    ensures out == acc.Plus(Facts(batch, s))
  {
    hide SensorOf, RegionOf, NameOf, UnitOf, ValueOf, ValueScaledOf, Fingerprint, Concat, Upper, BatchTsOf, TagsOf;
    var value := ValueOf(batch, s);
    var name := Upper(NameOf(batch, s));
    var tags := TagsOf(batch, s);
    out := acc.(rows := acc.rows + 1);
    out := out.(value := out.value + value);
    out := out.(sensor := out.sensor + sensorFp);
    out := out.(region := out.region + regionFp);
    out := out.(name := out.name + Fingerprint(name));
    out := out.(unit := out.unit + Fingerprint(UnitOf(batch, s)));
    out := out.(tagCount := out.tagCount + |tags|);
    out := out.(tags := out.tags + Fingerprint(Concat(tags)));
    out := out.(batchTs := out.batchTs + batchTs);
    if QualityOf(batch, s).None? {
      out := out.(nullQuality := out.nullQuality + 1);
    }
    out := out.(scaled := out.scaled + ValueScaledOf(value, s));
  }

  /** The event loop of one batch: the columns that belong to the batch are computed once. */
  method AddBatch(acc: Totals, batch: nat) returns (out: Totals)
    ensures out == acc.Plus(OfBatch(batch, EVENTS_PER_BATCH))
  {
    hide Keeps, Facts, Fingerprint, SensorOf, RegionOf, BatchTsOf;
    var sensorFp := Fingerprint(SensorOf(batch));
    var regionFp := Fingerprint(if RegionOf(batch).Some? then RegionOf(batch).value else []);
    var batchTs := BatchTsOf(batch);
    out := acc;
    for s := 0 to EVENTS_PER_BATCH
      invariant out == acc.Plus(OfBatch(batch, s))
    {
      if !Keeps(batch, s) {
        continue;
      }
      out := AddEvent(out, batch, s, sensorFp, regionFp, batchTs);
    }
  }

  /** `expected_range`. */
  method ExpectedRange(lo: nat, hi: nat) returns (out: Totals)
    ensures out == Range(lo, hi)
  {
    hide OfBatch;
    out := ZERO;
    var batch := lo;
    while batch < hi
      invariant lo <= batch && (batch <= hi || batch == lo)
      invariant out == Range(lo, batch)
    {
      out := AddBatch(out, batch);
      batch := batch + 1;
    }
  }

  /** `expected_rows`: the cheap count agrees with the row field of the full expectation. */
  method ExpectedRows(batches: nat) returns (rows: nat)
    ensures rows == Range(0, batches).rows
  {
    hide Keeps, Facts;
    rows := 0;
    for batch := 0 to batches
      invariant rows == Range(0, batch).rows
    {
      ghost var before := rows;
      for s := 0 to EVENTS_PER_BATCH
        invariant rows == before + OfBatch(batch, s).rows
      {
        if !Keeps(batch, s) {
          continue;
        }
        rows := rows + 1;
      }
    }
  }

  lemma {:induction false} RangeComposes(a: nat, b: nat, c: nat)
    requires a <= b <= c
    ensures Range(a, c) == Range(a, b).Plus(Range(b, c))
    decreases c
  {
    hide OfBatch;
    if b < c {
      RangeComposes(a, b, c - 1);
    }
  }

  // ----- the filter keeps some row of every batch, and repeats every 200 batches

  lemma UnitResidue(x: nat)
    ensures (x + 1400) % 8 == x % 8
  {
    assert x == 8 * (x / 8) + x % 8;
  }

  lemma NullResidue(x: nat)
    ensures (x + 200) % 5 == x % 5
  {
    assert x == 5 * (x / 5) + x % 5;
  }

  lemma QualityResidue(x: nat)
    ensures (x + 2600) % 100 == x % 100
  {
    assert x == 100 * (x / 100) + x % 100;
  }

  lemma KeepsHasPeriod200(batch: nat, s: nat)
    ensures Keeps(batch + 200, s) == Keeps(batch, s)
  {
    UnitResidue(batch * 7 + s);
    NullResidue(batch + s);
    QualityResidue(batch * 13 + s * 7);
  }

  ghost predicate SameFilter(a: nat, b: nat) { forall s: nat :: Keeps(a, s) == Keeps(b, s) }

  lemma {:induction false} SameFilterSameRows(a: nat, b: nat, n: nat)
    requires SameFilter(a, b)
    ensures OfBatch(a, n).rows == OfBatch(b, n).rows
  {
    hide Keeps, Facts;
    if n > 0 {
      SameFilterSameRows(a, b, n - 1);
    }
  }

  /** Any 200 consecutive batches keep the same number of rows. */
  lemma {:induction false} WindowsOf200Agree(lo: nat, n: nat)
    requires n == 200
    ensures Range(lo, lo + n).rows == Range(0, n).rows
  {
    hide Range, OfBatch, Keeps;
    if lo > 0 {
      WindowsOf200Agree(lo - 1, n);
      FirstAndLast(lo - 1, lo - 1 + n);
      var first, last := lo - 1, lo - 1 + n;
      forall s: nat ensures Keeps(last, s) == Keeps(first, s) {
        KeepsHasPeriod200(first, s);
      }
      SameFilterSameRows(last, first, EVENTS_PER_BATCH);
    }
  }

  lemma FirstAndLast(lo: nat, hi: nat)
    requires lo < hi
    ensures Range(lo, hi).rows + OfBatch(hi, EVENTS_PER_BATCH).rows
         == OfBatch(lo, EVENTS_PER_BATCH).rows + Range(lo + 1, hi + 1).rows
  {
    hide OfBatch;
    RangeComposes(lo, lo + 1, hi);
    assert Range(lo, lo + 1).rows == Range(lo, lo).rows + OfBatch(lo, EVENTS_PER_BATCH).rows;
  }

  /** Among the two events of a batch that carry no quality and are five apart, one is not the
      sentinel unit: eight units, one of them dropped. */
  function KeptEvent(batch: nat): (s: nat)
    ensures s < EVENTS_PER_BATCH && Keeps(batch, s)
  {
    var s := (5 - batch % 5) % 5;
    assert (batch + s) % 5 == 0 && (batch + s + 5) % 5 == 0;
    if UnitIndex(batch, s) != DROP_UNIT then s else s + 5
  }
}

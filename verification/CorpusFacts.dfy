/** The generator's fields, the filter and the fingerprint by text and number. */
module CorpusFacts {
  import opened Corpus
  import opened Wire
  import Cells
  import Decimal

  // ----- fields, written out

  /** The bytes of an ASCII text. */
  predicate Reads(t: Bytes, text: string) {
    |t| == |text| && forall i | 0 <= i < |text| :: text[i] < 128 as char && t[i] == text[i] as int
  }

  lemma OneDigit(prefix: string, n: nat, text: string)
    requires n < 10 && (forall i | 0 <= i < |prefix| :: prefix[i] < 128 as char) && text == prefix + ['0' + n as char]
    ensures Reads(Numbered(prefix, n), text)
  {
  }

  lemma TwoDigits(prefix: string, n: nat, text: string)
    requires 10 <= n < 100 && forall i | 0 <= i < |prefix| :: prefix[i] < 128 as char
    requires text == prefix + ['0' + (n / 10) as char, '0' + (n % 10) as char]
    ensures Reads(Numbered(prefix, n), text)
  {
    assert Decimal.Digits(n) == [n / 10, n % 10];
  }

  lemma ThreeDigits(prefix: string, n: nat, text: string)
    requires 100 <= n < 1000 && forall i | 0 <= i < |prefix| :: prefix[i] < 128 as char
    requires text == prefix + ['0' + (n / 100) as char, '0' + (n / 10 % 10) as char, '0' + (n % 10) as char]
    ensures Reads(Numbered(prefix, n), text)
  {
    assert Decimal.Digits(n / 10) == [n / 100, n / 10 % 10];
    assert Decimal.Digits(n) == [n / 100, n / 10 % 10, n % 10];
  }

  /** The last event of batch 987,653. */
  lemma LastEventOf987653()
    ensures Reads(SensorOf(987_653), "sensor-517")
    ensures RegionOf(987_653).Some? && Reads(RegionOf(987_653).value, "region-2")
    ensures Reads(NameOf(987_653, 99), "metric_30") && Reads(UnitOf(987_653, 99), "volts")
    ensures ValueOf(987_653, 99) == 1_960_978_589 && ValueScaledOf(ValueOf(987_653, 99), 99) == 19_609_785_890
    ensures QualityOf(987_653, 99) == Some(82) && TagsOf(987_653, 99) == []
    ensures BatchTsOf(987_653) == 1_772_000_987_653 && Keeps(987_653, 99)
  {
    hide Numbered;
    ThreeDigits("sensor-", 517, "sensor-517");
    OneDigit("region-", 2, "region-2");
    TwoDigits("metric_", 30, "metric_30");
  }

  /** The second event of batch 50, which has no region. */
  lemma SecondEventOf50()
    ensures RegionOf(50) == None && Reads(NameOf(50, 1), "metric_15") && Reads(UnitOf(50, 1), "rpm")
    ensures ValueOf(50, 1) == 50_000_247 && QualityOf(50, 1) == Some(57)
    ensures |TagsOf(50, 1)| == 3 && Reads(TagsOf(50, 1)[0], "tag-3")
    ensures Reads(TagsOf(50, 1)[1], "tag-4") && Reads(TagsOf(50, 1)[2], "tag-5")
  {
    hide Numbered;
    TwoDigits("metric_", 15, "metric_15");
    OneDigit("tag-", 3, "tag-3");
    OneDigit("tag-", 4, "tag-4");
    OneDigit("tag-", 5, "tag-5");
  }

  /** The fourth event of batch 7: no quality, and tags that do not wrap. */
  lemma FourthEventOf7()
    ensures RegionOf(7).Some? && Reads(RegionOf(7).value, "region-0") && QualityOf(7, 3) == None
    ensures |TagsOf(7, 3)| == 2 && Reads(TagsOf(7, 3)[0], "tag-10") && Reads(TagsOf(7, 3)[1], "tag-11")
    ensures Reads(UnitOf(7, 3), "ratio") && ValueScaledOf(ValueOf(7, 3), 3) == 1_750_078_000 && Keeps(7, 3)
  {
    hide Numbered;
    OneDigit("region-", 0, "region-0");
    TwoDigits("tag-", 10, "tag-10");
    TwoDigits("tag-", 11, "tag-11");
  }

  /** A batch number whose product wraps at 2^64. */
  lemma ValueWraps()
    ensures 20_000_000_000_000 * 1_000_003 > 0xffff_ffff_ffff_ffff && ValueOf(20_000_000_000_000, 3) == 362_592_857
  {
  }

  /** The eight units, in turn; "drop" is the one the filter drops. */
  lemma UnitsInTurn(batch: nat, s: nat)
    ensures var i, u := (batch * 7 + s) % 8, UnitOf(batch, s);
      && (i == 0 ==> Reads(u, "count")) && (i == 1 ==> Reads(u, "bytes")) && (i == 2 ==> Reads(u, "ms"))
      && (i == 3 ==> Reads(u, "drop")) && (i == 4 ==> Reads(u, "ratio")) && (i == 5 ==> Reads(u, "celsius"))
      && (i == 6 ==> Reads(u, "volts")) && (i == 7 ==> Reads(u, "rpm"))
  {
  }

  /** The filter by what the columns say: the unit is not "drop", and no quality is below 0.2. */
  lemma FilterByMeaning(batch: nat, s: nat)
    ensures Keeps(batch, s) <==>
            && !Reads(UnitOf(batch, s), "drop")
            && (QualityOf(batch, s).Some? ==> QualityOf(batch, s).value as real / 100.0 >= 0.2)
  {
    hide UnitOf;
    UnitsInTurn(batch, s);
    OneUnitDrops(UnitOf(batch, s));
  }

  lemma OneUnitDrops(u: Bytes)
    ensures (Reads(u, "count") || Reads(u, "bytes") || Reads(u, "ms") || Reads(u, "ratio") || Reads(u, "celsius")
             || Reads(u, "volts") || Reads(u, "rpm")) ==> !Reads(u, "drop")
  {
    assert "ratio"[0] == 'r' && "drop"[0] == 'd';
  }

  /** Upper case changes the 26 letters and nothing else. */
  lemma UpperByLetter(t: Bytes, i: nat)
    requires i < |t|
    ensures Upper(t)[i] == if 97 <= t[i] <= 122 then t[i] - 32 else t[i]
  {
  }

  /** Division by the event's position, rounded down. */
  lemma ScaledIsFloor(value: nat, s: nat)
    ensures ValueScaledOf(value, s) * (s + 1) <= value * 1000 < (ValueScaledOf(value, s) + 1) * (s + 1)
  {
  }

  // ----- the fingerprint

  function At(t: Bytes, i: nat): nat { if i < |t| then t[i] else 0 }

  /** Eight bytes as a little-endian number, the missing ones zero. */
  function Number(b: nat -> nat): nat {
    b(0) + 0x100 * b(1) + 0x1_0000 * b(2) + 0x100_0000 * b(3) + 0x1_0000_0000 * b(4) + 0x100_0000_0000 * b(5)
    + 0x1_0000_0000_0000 * b(6) + 0x100_0000_0000_0000 * b(7)
  }

  lemma HeadIsNumber(t: Bytes)
    ensures Head(t) == Number(i => At(t, i))
  {
    var h := t[..if |t| < 8 then |t| else 8];
    assert forall i | 0 <= i < 8 :: At(h, i) == At(t, i);
    EightBytes(h, 8);
  }

  /** The digits one after another, each worth 256 times the one before. */
  function Horner(t: Bytes, n: nat, from: nat): nat
    decreases n - from
  {
    if from >= n then 0 else At(t, from) + 256 * Horner(t, n, from + 1)
  }

  lemma {:induction false} FromLEIsHorner(t: Bytes, n: nat, from: nat)
    requires |t| <= n && from <= |t|
    ensures FromLE(t[from..]) == Horner(t, n, from)
    decreases n - from
  {
    if from < |t| {
      FromLEIsHorner(t, n, from + 1);
      assert t[from..][1..] == t[from + 1..];
    } else {
      AllZeros(t, n, from);
    }
  }

  lemma {:induction false} AllZeros(t: Bytes, n: nat, from: nat)
    requires from >= |t|
    ensures Horner(t, n, from) == 0
    decreases n - from
  {
    if from < n {
      AllZeros(t, n, from + 1);
    }
  }

  lemma EightBytes(t: Bytes, n: nat)
    requires |t| <= n && n == 8
    ensures FromLE(t) == Number(i => At(t, i))
  {
    FromLEIsHorner(t, n, 0);
    assert t[0..] == t;
    var b := (i: nat) => At(t, i);
    assert Horner(t, 8, 7) == b(7) && Horner(t, 8, 6) == b(6) + 256 * b(7);
    assert Horner(t, 8, 5) == b(5) + 256 * Horner(t, 8, 6) && Horner(t, 8, 4) == b(4) + 256 * Horner(t, 8, 5);
    assert Horner(t, 8, 3) == b(3) + 256 * Horner(t, 8, 4) && Horner(t, 8, 2) == b(2) + 256 * Horner(t, 8, 3);
    assert Horner(t, 8, 1) == b(1) + 256 * Horner(t, 8, 2) && Horner(t, 8, 0) == b(0) + 256 * Horner(t, 8, 1);
  }

  /** The first eight bytes and the last eight backwards, each as a little-endian number, added. */
  lemma FingerprintByBytes(t: Bytes)
    ensures Fingerprint(t) == Number(i => At(t, i)) + Number((i: nat) => if i < |t| then t[|t| - 1 - i] else 0)
  {
    hide Head;
    HeadIsNumber(t);
    HeadIsNumber(Reversed(t));
    assert forall i: nat :: At(Reversed(t), i) == if i < |t| then t[|t| - 1 - i] else 0;
  }

  /** Tags are joined with nothing between them. */
  lemma {:induction false} ConcatJoins(ts: seq<Bytes>, last: Bytes)
    ensures Concat([]) == [] && Concat(ts + [last]) == Concat(ts) + last
  {
    if ts == [] {
      assert ts + [last] == [last] && [last][1..] == [];
    } else {
      assert (ts + [last])[1..] == ts[1..] + [last];
      ConcatJoins(ts[1..], last);
    }
  }

  /** The tags of the second event of batch 50 add the fingerprint of "tag-3tag-4tag-5". */
  lemma TagsOf50(text: Bytes)
    requires Reads(text, "tag-3tag-4tag-5")
    ensures Facts(50, 1).tags == Fingerprint(text)
  {
    hide Fingerprint, Numbered;
    SecondEventOf50();
    var ts := TagsOf(50, 1);
    ConcatJoins([], ts[0]);
    ConcatJoins([ts[0]], ts[1]);
    ConcatJoins([ts[0], ts[1]], ts[2]);
    assert [] + [ts[0]] == [ts[0]] && [ts[0]] + [ts[1]] == [ts[0], ts[1]] && [ts[0], ts[1]] + [ts[2]] == ts;
    assert Concat(ts) == ts[0] + ts[1] + ts[2];
    TextsJoin(ts[0], ts[1], ts[2], text);
  }

  lemma TextsJoin(a: Bytes, b: Bytes, c: Bytes, text: Bytes)
    requires Reads(a, "tag-3") && Reads(b, "tag-4") && Reads(c, "tag-5") && Reads(text, "tag-3tag-4tag-5")
    ensures a + b + c == text
  {
    assert "tag-3tag-4tag-5" == "tag-3" + "tag-4" + "tag-5";
  }

  // ----- the columns an event adds

  /** What one event adds, column by column, from what it writes. */
  lemma ColumnsOfEvent(batch: nat, s: nat)
    ensures var f := Facts(batch, s);
      && f.rows == 1 && f.value == ValueOf(batch, s) && f.sensor == Fingerprint(SensorOf(batch))
      && f.name == Fingerprint(Upper(NameOf(batch, s))) && f.unit == Fingerprint(UnitOf(batch, s))
      && f.tagCount == (batch + s) % 4 && f.batchTs == 1_772_000_000_000 + batch
      && f.nullQuality == (if (batch + s) % 5 == 0 then 1 else 0)
      && f.scaled == ValueScaledOf(ValueOf(batch, s), s) && f.tags == Fingerprint(Concat(TagsOf(batch, s)))
      && (batch % 10 == 0 ==> f.region == 0)
      && (batch % 10 != 0 ==> RegionOf(batch).Some? && f.region == Fingerprint(RegionOf(batch).value))
  {
    hide Fingerprint, Upper, NameOf, SensorOf, UnitOf, ValueOf, ValueScaledOf, Concat;
    assert Fingerprint([]) == 0 by {
      NothingIsZero([]);
    }
  }

  lemma NothingIsZero(t: Bytes)
    requires t == []
    ensures Fingerprint(t) == 0
  {
    assert Reversed(t) == [] && Head(t) == 0;
  }

  /** A batch has a hundred events. */
  lemma HundredEvents(batch: nat)
    ensures Range(batch, batch + 1) == OfBatch(batch, 100)
  {
    hide OfBatch;
    assert Range(batch, batch) == ZERO;
  }
}

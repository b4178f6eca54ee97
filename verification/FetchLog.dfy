/** The records a broker holds, what it means to answer a fetch from them, and the
    conservation of records by one step of the client. */
module FetchLog {
  import opened Wire
  import opened FetchWire
  import opened FetchLemmas

  /** Per partition, its records; a record's offset is its index. */
  type Log = map<int, seq<Record>>

  /** The batches are the log's records from `start` on, one batch after another. */
  ghost predicate Chain(records: seq<Record>, start: int, batches: seq<Batch>)
    decreases |batches|
  {
    batches == [] ||
    var b := batches[0];
    && 0 <= start && b.base == start && start + |b.records| <= |records|
    && b.records == records[start..start + |b.records|]
    && Chain(records, start + |b.records|, batches[1..])
  }

  /** The response serves, for each partition it names once, the log from the offset
      asked for. */
  ghost predicate Answers(log: Log, offsets: map<int, int>, resp: Response) {
    && WellFormed(resp) && Tracked(resp.parts, offsets)
    && Serves(log, offsets, resp.parts)
  }

  ghost predicate Serves(log: Log, offsets: map<int, int>, parts: seq<Part>)
    requires Tracked(parts, offsets)
  {
    && (forall k | 0 <= k < |parts| ::
          && parts[k].partition in log
          && Chain(log[parts[k].partition], offsets[parts[k].partition], parts[k].batches))
    && (forall j, k | 0 <= j < k < |parts| :: parts[j].partition != parts[k].partition)
  }

  /** Every tracked partition's offset lies between where it started and its end. */
  ghost predicate Between(log: Log, from: map<int, int>, to: map<int, int>, want: seq<int>) {
    && (forall j, k | 0 <= j < k < |want| :: want[j] != want[k])
    && (forall k | 0 <= k < |want| :: Within(log, from, to, want[k]))
  }

  ghost predicate Within(log: Log, from: map<int, int>, to: map<int, int>, p: int) {
    p in log && p in from && p in to && 0 <= from[p] <= to[p] <= |log[p]|
  }

  /** The records of the partitions in `want` from one offset to another. */
  ghost function Read(log: Log, from: map<int, int>, to: map<int, int>, want: seq<int>): Tally
    requires Between(log, from, to, want)
  {
    if want == [] then Tally(0, 0)
    else
      assert Within(log, from, to, want[0]);
      TallyRecords(log[want[0]][from[want[0]]..to[want[0]]]).Plus(Read(log, from, to, Tail(want)))
  }

  ghost function Tail(want: seq<int>): (t: seq<int>)
    requires want != []
    ensures t == want[1..]
    ensures forall p :: p in t ==> p in want
    ensures forall k | 0 <= k < |t| :: t[k] == want[k + 1]
  {
    want[1..]
  }

  ghost function Advanced(from: map<int, int>, to: map<int, int>, want: seq<int>): int
    requires forall k | 0 <= k < |want| :: want[k] in from && want[k] in to
  {
    if want == [] then 0
    else
      to[want[0]] - from[want[0]] + Advanced(from, to, Tail(want))
  }

  /** The messages in a read are the offsets it advances by. */
  lemma {:induction false} ReadIsAdvance(log: Log, from: map<int, int>, to: map<int, int>, want: seq<int>)
    requires Between(log, from, to, want)
    ensures forall k | 0 <= k < |want| :: want[k] in from && want[k] in to
    ensures Read(log, from, to, want).msgs == Advanced(from, to, want)
  {
    hide TallyRecords;
    assert forall k | 0 <= k < |want| :: Within(log, from, to, want[k]);
    if want != [] {
      assert Within(log, from, to, want[0]);
      TallyCounts(log[want[0]][from[want[0]]..to[want[0]]]);
      ReadIsAdvance(log, from, to, Tail(want));
    }
  }

  lemma TallyCons(records: seq<Record>)
    requires records != []
    ensures TallyRecords(records) == Tally(1, ValueLength(records[0])).Plus(TallyRecords(records[1..]))
  {}

  lemma {:induction false} TallyAppend(a: seq<Record>, b: seq<Record>)
    ensures TallyRecords(a + b) == TallyRecords(a).Plus(TallyRecords(b))
  {
    hide ValueLength, TallyRecords;
    if a == [] {
      assert a + b == b;
      NoTally();
    } else {
      var s := a + b;
      assert s[0] == a[0];
      assert s[1..] == a[1..] + b;
      TallyAppend(a[1..], b);
      TallyCons(s);
      TallyCons(a);
    }
  }

  /** A prefix of a chain ends where its records end, and holds exactly those. */
  lemma {:induction false} ChainAdvances(records: seq<Record>, offsets: map<int, int>, p: int, batches: seq<Batch>,
                                         whole: seq<Batch>)
    requires p in offsets && 0 <= offsets[p] <= |records| && Chain(records, offsets[p], batches) && whole <= batches
    ensures var offsets' := Advance(offsets, p, whole);
      && p in offsets' && offsets[p] <= offsets'[p] <= |records| && offsets' == offsets[p := offsets'[p]]
      && TallyOf(whole) == TallyRecords(records[offsets[p]..offsets'[p]])
    decreases |batches|
  {
    hide TallyRecords;
    if whole == [] {
      assert records[offsets[p]..offsets[p]] == [];
      assert TallyRecords([]) == Tally(0, 0) by { NoTally(); }
    } else {
      var b := batches[0];
      assert whole[0] == b && whole[1..] <= batches[1..];
      var next := offsets[p := b.base + |b.records|];
      ChainAdvances(records, next, p, batches[1..], whole[1..]);
      var end := Advance(next, p, whole[1..])[p];
      TallyAppend(records[offsets[p]..next[p]], records[next[p]..end]);
      assert records[offsets[p]..end] == records[offsets[p]..next[p]] + records[next[p]..end];
    }
  }

  lemma NoTally()
    ensures TallyRecords([]) == Tally(0, 0)
  {}

  /** Advancing one partition adds exactly its records to the read. */
  lemma {:induction false} ReadGrows(log: Log, from: map<int, int>, to: map<int, int>, want: seq<int>, p: int, end: int)
    requires Between(log, from, to, want) && p in want && to[p] <= end <= |log[p]|
    ensures Between(log, from, to[p := end], want)
    ensures Read(log, from, to[p := end], want) == Read(log, from, to, want).Plus(TallyRecords(log[p][to[p]..end]))
  {
    hide TallyRecords;
    var to' := to[p := end];
    var tail := Tail(want);
    if want[0] == p {
      TallyAppend(log[p][from[p]..to[p]], log[p][to[p]..end]);
      assert log[p][from[p]..end] == log[p][from[p]..to[p]] + log[p][to[p]..end];
      ReadIgnores(log, from, to, tail, p, end);
    } else {
      ReadGrows(log, from, to, tail, p, end);
    }
  }

  lemma {:induction false} ReadIgnores(log: Log, from: map<int, int>, to: map<int, int>, want: seq<int>, p: int,
                                       end: int)
    requires Between(log, from, to, want) && p !in want
    ensures Between(log, from, to[p := end], want) && Read(log, from, to[p := end], want) == Read(log, from, to, want)
  {
    hide TallyRecords;
    if want != [] {
      assert want[0] in want;
      ReadIgnores(log, from, to, Tail(want), p, end);
    }
  }

  lemma {:induction false} PartsRead(log: Log, from: map<int, int>, w: Walk, parts: seq<Part>, want: seq<int>)
    requires w.Walk? && Between(log, from, w.offsets, want)
    requires (forall p | p in parts :: WellFormedPart(p)) && Tracked(parts, w.offsets) && Serves(log, w.offsets, parts)
    requires forall k | 0 <= k < |parts| :: parts[k].partition in want
    ensures Between(log, from, AfterParts(w, parts).offsets, want)
    ensures Read(log, from, AfterParts(w, parts).offsets, want)
        == Read(log, from, w.offsets, want).Plus(TallyOf(AllWhole(parts)))
    decreases |parts|
  {
    hide TallyRecords, WellFormedPart, Whole, PartBytes, Read, Advance, Chain;
    if parts != [] {
      var p, tail := parts[0], parts[1..];
      var q := p.partition;
      assert q in want;
      WholeIsPrefix(p);
      ChainAdvances(log[q], w.offsets, q, p.batches, WholeOf(p));
      var next := AfterPart(w, p);
      assert next.offsets == w.offsets[q := next.offsets[q]];
      ReadGrows(log, from, w.offsets, want, q, next.offsets[q]);
      forall k | 0 <= k < |tail|
        ensures tail[k].partition in next.offsets && tail[k].partition != q && tail[k] == parts[k + 1]
      {
        assert parts[0].partition != parts[k + 1].partition;
      }
      assert Serves(log, next.offsets, tail);
      PartsRead(log, from, next, tail, want);
      TallyOfAppend(WholeOf(p), AllWhole(tail));
    }
  }

  lemma WholeIsPrefix(p: Part)
    requires WellFormedPart(p)
    ensures WholeOf(p) <= p.batches
  {}

  lemma {:induction false} TallyOfAppend(a: seq<Batch>, b: seq<Batch>)
    ensures TallyOf(a + b) == TallyOf(a).Plus(TallyOf(b))
  {
    hide TallyRecords;
    if a == [] {
      assert a + b == b;
    } else {
      assert (a + b)[1..] == a[1..] + b;
      TallyOfAppend(a[1..], b);
    }
  }

  /** One step of the client: whatever the cut, the records counted are exactly the
      records the offsets moved past. */
  lemma StepConserves(log: Log, from: map<int, int>, offsets: map<int, int>, resp: Response, want: seq<int>)
    requires Answers(log, offsets, resp) && Between(log, from, offsets, want)
    requires forall k | 0 <= k < |resp.parts| :: resp.parts[k].partition in want
    ensures var r := ResponseBytes(resp);
      var w := Locate(r, offsets);
      && w.Walk? && Between(log, from, w.offsets, want) && w.offsets.Keys == offsets.Keys
      && Count(r, w.spans).Some?
      && Read(log, from, w.offsets, want) == Read(log, from, offsets, want).Plus(Count(r, w.spans).value)
  {
    hide TallyRecords, WellFormedPart, PartBytes, Read, Advance, SpansHold, Locate, Count, ResponseBytes, AfterParts;
    hide TallyOf, Serves, Between;
    var start := Walk(20 + |resp.topic|, [], None, offsets);
    ResponseHolds(resp, offsets);
    PartsRead(log, from, start, resp.parts, want);
    CountHolds(ResponseBytes(resp), Locate(ResponseBytes(resp), offsets).spans, AllWhole(resp.parts));
  }
}

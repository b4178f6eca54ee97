/** Rotating the order of the partitions in each request lets no partition starve. */
module FetchFairness {
  import opened Arithmetic
  import opened Wire
  import opened FetchWire
  import opened FetchLemmas
  import opened FetchLog
  import opened FetchClient

  /** After k rotations the partition named first is the k-th of the cycle. */
  lemma {:induction false} RotationCycles(want: seq<int>, k: nat)
    requires want != []
    ensures |RotateBy(want, k)| == |want|
    ensures forall i | 0 <= i < |want| :: RotateBy(want, k)[i] == want[(i + k) % |want|]
  {
    if k > 0 {
      RotationCycles(want, k - 1);
      var n, was := |want|, RotateBy(want, k - 1);
      forall i | 0 <= i < n ensures RotateBy(want, k)[i] == want[(i + k) % n] {
        assert RotateBy(want, k)[i] == was[if i + 1 < n then i + 1 else 0];
        if i + 1 == n { Wraps(n, k - 1); }
      }
    }
  }

  lemma Wraps(n: nat, k: nat)
    requires n > 0
    ensures (n + k) % n == k % n
  {
    assert n + k == (k / n + 1) * n + k % n;
    DivisionBounds(k, n);
    DivisionIsUnique(n + k, n, k / n + 1, k % n);
  }

  /** The whole batches of partition p that the responses carry, in order. */
  function BatchesIn(p: int, answers: seq<Response>): seq<Batch>
    requires forall a | a in answers :: WellFormed(a)
  {
    if answers == [] then []
    else
      assert WellFormed(answers[|answers| - 1]);
      BatchesIn(p, answers[..|answers| - 1]) + PartBatches(p, answers[|answers| - 1].parts)
  }

  function PartBatches(p: int, parts: seq<Part>): seq<Batch>
    requires forall q | q in parts :: WellFormedPart(q)
  {
    if parts == [] then []
    else (if parts[0].partition == p then WholeOf(parts[0]) else []) + PartBatches(p, parts[1..])
  }

  function RecordCount(batches: seq<Batch>): nat {
    if batches == [] then 0 else |batches[0].records| + RecordCount(batches[1..])
  }

  /** How many of the first m requests of the window name want[i] first. */
  function Turns(i: nat, n: nat, m: nat): nat
    requires n > 0
  {
    if m == 0 then 0 else Turns(i, n, m - 1) + if (m - 1) % n == i then 1 else 0
  }

  lemma {:induction false} TurnsPerCycle(i: nat, n: nat, q: nat, r: nat)
    requires i < n && r <= n
    ensures Turns(i, n, q * n + r) == q + if r > i then 1 else 0
    decreases q, r
  {
    if r > 0 {
      TurnsPerCycle(i, n, q, r - 1);
      DivisionIsUnique(q * n + r - 1, n, q, r - 1);
    } else if q > 0 {
      TurnsPerCycle(i, n, q - 1, n);
      assert (q - 1) * n + n == q * n;
    }
  }

  /** The response to a request whose first partition is p carries a full batch of p. */
  predicate FeedsFirst(p: int, a: Response)
    requires WellFormed(a)
  {
    PartBatches(p, a.parts) != []
  }

  /** Every answer of the window feeds the partition its request names first. */
  ghost predicate AllFeed(want: seq<int>, answers: seq<Response>)
    requires forall a | a in answers :: WellFormed(a)
  {
    forall m | 0 <= m < |answers| :: RotateBy(want, m) != [] && FeedsFirst(RotateBy(want, m)[0], answers[m])
  }

  lemma {:induction false} AtLeastTurns(want: seq<int>, answers: seq<Response>, i: nat)
    requires i < |want| && (forall a | a in answers :: WellFormed(a)) && AllFeed(want, answers)
    ensures |BatchesIn(want[i], answers)| >= Turns(i, |want|, |answers|)
    decreases |answers|
  {
    hide WellFormed, PartBatches;
    if answers != [] {
      var m := |answers| - 1;
      AtLeastTurns(want, answers[..m], i);
      RotationCycles(want, m);
      assert answers[m] in answers && FeedsFirst(RotateBy(want, m)[0], answers[m]);
    }
  }

  // ----- batches carried are offsets advanced

  lemma {:induction false} CountAppends(a: seq<Batch>, b: seq<Batch>)
    ensures RecordCount(a + b) == RecordCount(a) + RecordCount(b)
    decreases |a|
  {
    if a == [] {
      assert a + b == b;
    } else {
      assert (a + b)[1..] == a[1..] + b;
      CountAppends(a[1..], b);
    }
  }

  lemma {:induction false} ChainAppends(records: seq<Record>, start: int, a: seq<Batch>, b: seq<Batch>)
    requires Chain(records, start, a) && Chain(records, start + RecordCount(a), b)
    ensures Chain(records, start, a + b)
    decreases |a|
  {
    if a == [] {
      assert a + b == b;
    } else {
      assert (a + b)[0] == a[0] && (a + b)[1..] == a[1..] + b;
      ChainAppends(records, start + |a[0].records|, a[1..], b);
    }
  }

  lemma {:induction false} ChainPrefix(records: seq<Record>, start: int, whole: seq<Batch>, batches: seq<Batch>)
    requires Chain(records, start, batches) && whole <= batches
    ensures Chain(records, start, whole)
    decreases |batches|
  {
    if whole != [] {
      assert whole[0] == batches[0] && whole[1..] <= batches[1..];
      ChainPrefix(records, start + |batches[0].records|, whole[1..], batches[1..]);
    }
  }

  lemma {:induction false} AdvanceCounts(records: seq<Record>, offsets: map<int, int>, p: int, whole: seq<Batch>)
    requires p in offsets && Chain(records, offsets[p], whole)
    ensures p in Advance(offsets, p, whole) && Advance(offsets, p, whole)[p] == offsets[p] + RecordCount(whole)
    decreases |whole|
  {
    if whole != [] {
      AdvanceCounts(records, offsets[p := whole[0].base + |whole[0].records|], p, whole[1..]);
    }
  }

  lemma {:induction false} AdvanceSpares(offsets: map<int, int>, p: int, whole: seq<Batch>, q: int)
    requires p != q && q in offsets
    ensures q in Advance(offsets, p, whole) && Advance(offsets, p, whole)[q] == offsets[q]
    decreases |whole|
  {
    if whole != [] {
      AdvanceSpares(offsets[p := whole[0].base + |whole[0].records|], p, whole[1..], q);
    }
  }

  /** A partition the response does not name again keeps its offset. */
  lemma {:induction false} PartsSpare(w: Walk, parts: seq<Part>, p: int)
    requires w.Walk? && (forall q | q in parts :: WellFormedPart(q)) && Tracked(parts, w.offsets) && p in w.offsets
    requires forall k | 0 <= k < |parts| :: parts[k].partition != p
    ensures AfterParts(w, parts).offsets[p] == w.offsets[p] && PartBatches(p, parts) == []
    decreases |parts|
  {
    hide WellFormedPart, WholeOf, PartBytes, Advance;
    if parts != [] {
      var tail := parts[1..];
      assert parts[0].partition != p && forall k | 0 <= k < |tail| :: tail[k] == parts[k + 1];
      AdvanceKeepsKeys(w.offsets, parts[0].partition, WholeOf(parts[0]));
      AdvanceSpares(w.offsets, parts[0].partition, WholeOf(parts[0]), p);
      PartsSpare(AfterPart(w, parts[0]), tail, p);
    }
  }

  lemma {:induction false} PartsAdvance(log: Log, w: Walk, parts: seq<Part>, p: int)
    requires w.Walk? && (forall q | q in parts :: WellFormedPart(q)) && Tracked(parts, w.offsets)
    requires Serves(log, w.offsets, parts) && p in w.offsets && p in log
    ensures Chain(log[p], w.offsets[p], PartBatches(p, parts))
    ensures AfterParts(w, parts).offsets[p] == w.offsets[p] + RecordCount(PartBatches(p, parts))
    decreases |parts|
  {
    hide WellFormedPart, WholeOf, PartBytes, Advance, Chain;
    if parts == [] {
      NoChain(log[p], w.offsets[p]);
    } else {
      var part, tail := parts[0], parts[1..];
      var next := AfterPart(w, part);
      AdvanceKeepsKeys(w.offsets, part.partition, WholeOf(part));
      forall k | 0 <= k < |tail| ensures tail[k] == parts[k + 1] && tail[k].partition != part.partition {
        assert parts[0].partition != parts[k + 1].partition;
      }
      if part.partition == p {
        WholeIsPrefix(part);
        ChainPrefix(log[p], w.offsets[p], WholeOf(part), part.batches);
        AdvanceCounts(log[p], w.offsets, p, WholeOf(part));
        PartsSpare(next, tail, p);
        assert WholeOf(part) + [] == WholeOf(part);
      } else {
        TailServed(log, w, part, tail, parts);
        AdvanceSpares(w.offsets, part.partition, WholeOf(part), p);
        PartsAdvance(log, next, tail, p);
        assert [] + PartBatches(p, tail) == PartBatches(p, tail);
      }
    }
  }

  lemma NoChain(records: seq<Record>, start: int)
    ensures Chain(records, start, [])
  {
  }

  /** Advancing the first part leaves the others served from where they were asked. */
  lemma TailServed(log: Log, w: Walk, part: Part, tail: seq<Part>, parts: seq<Part>)
    requires w.Walk? && (forall q | q in parts :: WellFormedPart(q)) && Tracked(parts, w.offsets)
    requires Serves(log, w.offsets, parts) && parts != [] && part == parts[0] && tail == parts[1..]
    ensures Tracked(tail, AfterPart(w, part).offsets) && Serves(log, AfterPart(w, part).offsets, tail)
  {
    hide WellFormedPart, WholeOf, PartBytes, Advance, Chain;
    var next := AfterPart(w, part);
    AdvanceKeepsKeys(w.offsets, part.partition, WholeOf(part));
    forall k | 0 <= k < |tail|
      ensures tail[k] == parts[k + 1] && tail[k].partition in next.offsets
      ensures next.offsets[tail[k].partition] == w.offsets[tail[k].partition]
    {
      assert parts[0].partition != parts[k + 1].partition;
      AdvanceSpares(w.offsets, part.partition, WholeOf(part), tail[k].partition);
    }
  }

  /** One response moves a partition's offset past the whole batches it carries of it. */
  lemma AnswerAdvances(log: Log, offsets: map<int, int>, a: Response, p: int)
    requires Answers(log, offsets, a) && p in offsets && p in log
    ensures OffsetsAfter(offsets, a).Keys == offsets.Keys
    ensures Chain(log[p], offsets[p], PartBatches(p, a.parts))
    ensures OffsetsAfter(offsets, a)[p] == offsets[p] + RecordCount(PartBatches(p, a.parts))
  {
    hide Locate, AfterParts, PartBatches, Chain, WellFormedPart, SpansHold, AllWhole, ResponseBytes;
    var start := Walk(20 + |a.topic|, [], None, offsets);
    ResponseHolds(a, offsets);
    PartsAdvance(log, start, a.parts, p);
  }

  /** The last answer is served from the offsets the ones before it left. */
  lemma {:induction false} ServedLast(log: Log, offsets: map<int, int>, want: seq<int>, answers: seq<Response>)
    requires Served(log, offsets, want, answers) && answers != []
    ensures var m := |answers| - 1;
            && Served(log, offsets, want, answers[..m])
            && Answers(log, OffsetsAt(offsets, answers[..m], m), answers[m])
            && OffsetsAt(offsets, answers, m + 1) == OffsetsAfter(OffsetsAt(offsets, answers[..m], m), answers[m])
    decreases |answers|
  {
    hide Answers, WellFormed, OffsetsAfter;
    var m := |answers| - 1;
    var init, tail, next := answers[..m], answers[1..], OffsetsAfter(offsets, answers[0]);
    OffsetsOfPrefix(offsets, answers, m);
    if m > 0 {
      ServedLast(log, next, want, tail);
      assert tail[..m - 1] == init[1..] && init[0] == answers[0];
      OffsetsFromNext(offsets, init, m - 1);
    }
  }

  lemma {:induction false} OffsetsOfPrefix(offsets: map<int, int>, answers: seq<Response>, k: nat)
    requires k <= |answers| && forall a | a in answers :: WellFormed(a)
    ensures OffsetsAt(offsets, answers[..k], k) == OffsetsAt(offsets, answers, k)
    decreases k
  {
    hide WellFormed, OffsetsAfter;
    if k > 0 {
      OffsetsOfPrefix(offsets, answers, k - 1);
      OffsetsOfPrefix(offsets, answers[..k], k - 1);
      assert answers[..k][..k - 1] == answers[..k - 1];
    }
  }

  lemma {:induction false} OffsetsFromNext(offsets: map<int, int>, answers: seq<Response>, k: nat)
    requires k < |answers| && forall a | a in answers :: WellFormed(a)
    ensures OffsetsAt(offsets, answers, k + 1) == OffsetsAt(OffsetsAfter(offsets, answers[0]), answers[1..], k)
    decreases k
  {
    hide WellFormed, OffsetsAfter;
    if k > 0 {
      OffsetsFromNext(offsets, answers, k - 1);
    }
  }

  /** Over any run, a partition's offset has moved past exactly the batches carried of it. */
  lemma {:induction false} BatchesMoveOffsets(log: Log, offsets: map<int, int>, want: seq<int>, answers: seq<Response>,
                                              p: int)
    requires Served(log, offsets, want, answers) && p in offsets && p in log
    ensures var end := OffsetsAt(offsets, answers, |answers|);
            && end.Keys == offsets.Keys
            && Chain(log[p], offsets[p], BatchesIn(p, answers))
            && end[p] == offsets[p] + RecordCount(BatchesIn(p, answers))
    decreases |answers|
  {
    hide Served, Answers, WellFormedPart, OffsetsAfter, Chain, PartBatches;
    ServedWellFormed(log, offsets, want, answers);
    if answers == [] {
      NoChain(log[p], offsets[p]);
    } else {
      var m := |answers| - 1;
      var init := answers[..m];
      ServedLast(log, offsets, want, answers);
      BatchesMoveOffsets(log, offsets, want, init, p);
      var before := OffsetsAt(offsets, init, m);
      assert p in before && answers[m] in answers && WellFormed(answers[m]);
      AnswerAdvances(log, before, answers[m], p);
      ChainAppends(log[p], offsets[p], BatchesIn(p, init), PartBatches(p, answers[m].parts));
      CountAppends(BatchesIn(p, init), PartBatches(p, answers[m].parts));
    }
  }

  lemma ServedWellFormed(log: Log, offsets: map<int, int>, want: seq<int>, answers: seq<Response>)
    requires Served(log, offsets, want, answers)
    ensures forall a | a in answers :: WellFormed(a)
  {
  }

  /** n * k fetches move each of n partitions' offsets past at least k batches of its log, provided
      the broker always serves a full batch to the partition named first. */
  lemma Fairness(log: Log, offsets: map<int, int>, want: seq<int>, answers: seq<Response>, k: nat, i: nat)
    requires i < |want| && |answers| == |want| * k && want[i] in offsets && want[i] in log
    requires Served(log, offsets, want, answers) && AllFeed(want, answers)
    ensures var p := want[i];
            var passed, end := BatchesIn(p, answers), OffsetsAt(offsets, answers, |answers|);
            && |passed| >= k && Chain(log[p], offsets[p], passed)
            && p in end && end[p] == offsets[p] + RecordCount(passed)
  {
    hide WellFormed, AllFeed, Chain, OffsetsAt, BatchesIn, Served, Turns;
    ServedWellFormed(log, offsets, want, answers);
    AtLeastTurns(want, answers, i);
    assert |want| * k == k * |want| + 0;
    TurnsPerCycle(i, |want|, k, 0);
    BatchesMoveOffsets(log, offsets, want, answers, want[i]);
  }
}

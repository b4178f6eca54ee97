/** The concurrency sweep: the ladder, the plateau rule, and the pass that drives it and decides
    whether its best figure may be published as a ceiling. */
module Sweep {
  import opened Wire

  const INGEST_CONCURRENCY_FROM: nat := 2
  const INGEST_CONCURRENCY_STEP: nat := 2
  const INGEST_SWEEP_MARGIN: real := 0.03
  const INGEST_SWEEP_PATIENCE: nat := 2

  type u64 = n: nat | n < U64 witness 0

  datatype Point = Point(concurrency: u64, rowsPerS: u64)

  /** The state of a sweep. */
  datatype Climb = Climb(step: u64, max: u64, next: Option<u64>, points: seq<Point>, best: nat, misses: nat) {
    predicate Valid() { best < |points| || (points == [] && best == 0) }

    predicate StillClimbing() { points != [] && best + 1 == |points| }
  }

  function AtLeast(a: u64, b: u64): u64 { if a < b then b else a }

  function Clamp(a: u64, lo: u64, hi: u64): u64
    requires lo <= hi
  {
    if a < lo then lo else if a > hi then hi else a
  }

  function SaturatingMul(a: u64, b: u64): u64 { if a * b < U64 then a * b else U64 - 1 }

  function Beats(r: u64, incumbent: u64): bool { r as real > incumbent as real * (1.0 + INGEST_SWEEP_MARGIN) }

  function Begin(from: u64, step: u64, max: u64): (s: Climb)
    ensures s.Valid()
  {
    var top := AtLeast(max, 1);
    Climb(AtLeast(step, 2), top, Some(Clamp(from, 1, top)), [], 0, 0)
  }

  function Above(s: Climb, concurrency: u64): u64 {
    var up := SaturatingMul(concurrency, s.step);
    if up < s.max then up else s.max
  }

  function Observed(s: Climb, concurrency: u64, rowsPerS: u64): (t: Climb)
    requires s.Valid()
    ensures t.Valid()
  {
    var points := s.points + [Point(concurrency, rowsPerS)];
    var improved := |points| == 1 || Beats(rowsPerS, points[s.best].rowsPerS);
    var best, misses := if improved then |points| - 1 else s.best, if improved then 0 else s.misses + 1;
    var next := if misses >= INGEST_SWEEP_PATIENCE || concurrency >= s.max then None else Some(Above(s, concurrency));
    Climb(s.step, s.max, next, points, best, misses)
  }

  /** The sweep after its rungs absorbed `rates`, if it asked for that many rungs. */
  function After(from: u64, step: u64, max: u64, rates: seq<u64>): (s: Option<Climb>)
    ensures s.Some? ==> s.value.Valid()
  {
    if rates == [] then Some(Begin(from, step, max)) else
      var n := |rates| - 1;
      var before := After(from, step, max, rates[..n]);
      if before.None? || before.value.next.None? then None
      else Some(Observed(before.value, before.value.next.value, rates[n]))
  }

  // ----- what every sweep keeps

  /** The ladder climbs strictly, by the step, and ends at the bound exactly. */
  ghost predicate LadderClimbs(s: Climb) {
    && s.step >= 2
    && (forall i | 0 <= i < |s.points| :: 1 <= s.points[i].concurrency <= s.max)
    && (forall i | 0 <= i < |s.points| - 1 ::
          s.points[i].concurrency < s.max && s.points[i + 1].concurrency == Above(s, s.points[i].concurrency))
    && (s.next.Some? ==> 1 <= s.next.value <= s.max)
    && (s.next.Some? && s.points != [] ==>
          var last := s.points[|s.points| - 1].concurrency;
          last < s.max && s.next.value == Above(s, last))
  }

  /** The incumbent is strictly above every rung before it and beaten by the margin by none after it. */
  ghost predicate BestIsBest(s: Climb) {
    && s.Valid()
    && (forall i | 0 <= i < s.best :: s.points[i].rowsPerS < s.points[s.best].rowsPerS)
    && (forall i | s.best < i < |s.points| :: !Beats(s.points[i].rowsPerS, s.points[s.best].rowsPerS))
    && (s.points != [] ==> s.misses == |s.points| - 1 - s.best)
  }

  /** The sweep is over exactly when it has seen the plateau or reached the bound. */
  ghost predicate StopsForAReason(s: Climb) {
    s.points != [] ==>
      (s.next.None? <==> s.misses >= INGEST_SWEEP_PATIENCE || s.points[|s.points| - 1].concurrency == s.max)
  }

  lemma AboveIsHigher(s: Climb, c: u64)
    requires s.step >= 2 && 1 <= c < s.max
    ensures c < Above(s, c) <= s.max
  {
    assert c * s.step >= c * 2;
  }

  lemma ObservedClimbs(s: Climb, rowsPerS: u64)
    requires LadderClimbs(s) && s.Valid() && s.next.Some?
    ensures var t := Observed(s, s.next.value, rowsPerS); LadderClimbs(t) && StopsForAReason(t)
  {
    hide SaturatingMul, Beats;
    if s.next.value < s.max {
      AboveIsHigher(s, s.next.value);
    }
  }

  lemma ObservedKeepsBest(s: Climb, c: u64, rowsPerS: u64)
    requires BestIsBest(s)
    ensures BestIsBest(Observed(s, c, rowsPerS))
  {
    hide Above;
    var t := Observed(s, c, rowsPerS);
    if t.best == |s.points| && s.points != [] {
      forall i | 0 <= i < t.best ensures t.points[i].rowsPerS < t.points[t.best].rowsPerS {
        assert t.points[i] == s.points[i] && t.points[s.best] == s.points[s.best];
      }
    }
  }

  lemma {:induction false} EverySweepKeeps(from: u64, step: u64, max: u64, rates: seq<u64>)
    requires After(from, step, max, rates).Some?
    ensures var s := After(from, step, max, rates).value;
            && LadderClimbs(s) && BestIsBest(s) && StopsForAReason(s)
            && s.max == AtLeast(max, 1) && |s.points| == |rates|
            && forall i | 0 <= i < |rates| :: s.points[i].rowsPerS == rates[i]
    decreases |rates|
  {
    hide LadderClimbs, BestIsBest, StopsForAReason, Above, Beats;
    if rates == [] {
      BeginKeeps(from, step, max);
    } else {
      var n := |rates| - 1;
      EverySweepKeeps(from, step, max, rates[..n]);
      var before := After(from, step, max, rates[..n]).value;
      BestIsValid(before);
      ObservedClimbs(before, rates[n]);
      ObservedKeepsBest(before, before.next.value, rates[n]);
    }
  }

  lemma BestIsValid(s: Climb)
    requires BestIsBest(s)
    ensures s.Valid()
  {
  }

  lemma BeginKeeps(from: u64, step: u64, max: u64)
    ensures var s := Begin(from, step, max); LadderClimbs(s) && BestIsBest(s) && StopsForAReason(s)
  {
  }

  lemma {:induction false} RungsDouble(s: Climb, i: nat)
    requires LadderClimbs(s) && i + 1 < |s.points|
    ensures Pow2(i) <= s.points[i].concurrency < s.max
    decreases i
  {
    hide Above;
    assert s.points[i].concurrency < s.max;
    if i > 0 {
      RungsDouble(s, i - 1);
      assert s.points[i - 1 + 1].concurrency == Above(s, s.points[i - 1].concurrency);
      UncappedDoubles(s, s.points[i - 1].concurrency);
    }
  }

  lemma UncappedDoubles(s: Climb, c: u64)
    requires s.step >= 2 && Above(s, c) < s.max
    ensures Above(s, c) >= 2 * c
  {
    assert c * s.step >= c * 2;
  }

  /** Logarithmically many rungs, whatever the target does. */
  lemma FewRungs(from: u64, step: u64, max: u64, rates: seq<u64>)
    requires After(from, step, max, rates).Some? && |rates| >= 2
    ensures Pow2(|rates| - 2) < max
  {
    hide After, LadderClimbs, BestIsBest;
    EverySweepKeeps(from, step, max, rates);
    RungsDouble(After(from, step, max, rates).value, |rates| - 2);
  }

  lemma {:induction false} HigherRungsAreHigher(s: Climb, i: nat, j: nat)
    requires LadderClimbs(s) && i < j < |s.points|
    ensures s.points[i].concurrency < s.points[j].concurrency
    decreases j
  {
    hide Above;
    AboveIsHigher(s, s.points[j - 1].concurrency);
    assert s.points[j - 1 + 1].concurrency == Above(s, s.points[j - 1].concurrency);
    if i < j - 1 {
      HigherRungsAreHigher(s, i, j - 1);
    }
  }

  // ----- the sweep as the program keeps it

  class Sweep {
    const step: u64
    const max: u64
    var next: Option<u64>
    var points: seq<Point>
    var best: nat
    var misses: nat

    function State(): Climb
      reads this
    {
      Climb(step, max, next, points, best, misses)
    }

    constructor (from: u64, step: u64, max: u64)
      ensures State() == Begin(from, step, max)
    {
      var top := AtLeast(max, 1);
      this.step := AtLeast(step, 2);
      this.max := top;
      next := Some(Clamp(from, 1, top));
      points := [];
      best, misses := 0, 0;
    }

    method Observe(concurrency: u64, rowsPerS: u64)
      requires State().Valid()
      modifies this
      ensures State() == Observed(old(State()), concurrency, rowsPerS)
    {
      points := points + [Point(concurrency, rowsPerS)];
      var improved := |points| == 1 || Beats(rowsPerS, points[best].rowsPerS);
      if improved {
        best := |points| - 1;
        misses := 0;
      } else {
        misses := misses + 1;
      }
      if misses >= INGEST_SWEEP_PATIENCE || concurrency >= max {
        next := None;
      } else {
        var up := SaturatingMul(concurrency, step);
        next := Some(if up < max then up else max);
      }
    }
  }

  // ----- the pass

  datatype Burst = Burst(rows: u64, rowsPerS: u64, landed: Option<u64>)

  /** What the target and the rig do with one rung. */
  datatype Outcome = SettleFailed | BurstFailed | Drove(burst: Burst)

  datatype Reason = CouldNotSettle | FirstRungFailed | StillClimbing | RowsDidNotLand

  datatype Result = Refused(reason: Reason) | Accepted(best: Point, burst: Burst, undrivable: Option<u64>)

  /** The n-th rung's outcome at the concurrency asked for. */
  type Oracle = (nat, u64) -> Outcome

  function Rates(driven: seq<(u64, Burst)>): seq<u64> {
    seq(|driven|, i requires 0 <= i < |driven| => driven[i].1.rowsPerS)
  }

  /** What was driven is what the oracle answered, rung by rung. */
  ghost predicate Answers(oracle: Oracle, driven: seq<(u64, Burst)>) {
    forall i | 0 <= i < |driven| :: oracle(i, driven[i].0) == Drove(driven[i].1)
  }

  ghost predicate IsTrace(oracle: Oracle, max: u64, driven: seq<(u64, Burst)>, s: Climb) {
    && After(INGEST_CONCURRENCY_FROM, INGEST_CONCURRENCY_STEP, max, Rates(driven)) == Some(s)
    && |s.points| == |driven|
    && (forall i | 0 <= i < |driven| :: s.points[i] == Point(driven[i].0, driven[i].1.rowsPerS))
    && Answers(oracle, driven)
  }

  lemma TraceGrows(oracle: Oracle, max: u64, driven: seq<(u64, Burst)>, s: Climb, c: u64, b: Burst)
    requires IsTrace(oracle, max, driven, s) && s.next == Some(c) && oracle(|driven|, c) == Drove(b)
    ensures s.Valid() && IsTrace(oracle, max, driven + [(c, b)], Observed(s, c, b.rowsPerS))
  {
    hide Beats, Above;
    var after := driven + [(c, b)];
    assert Rates(after)[..|driven|] == Rates(driven);
  }

  /** The loop of `measure_ingest`. */
  method Climbed(oracle: Oracle, maxConcurrency: u64)
    returns (failed: Option<Reason>, state: Climb, driven: seq<(u64, Burst)>, undrivable: Option<u64>)
    ensures IsTrace(oracle, maxConcurrency, driven, state)
    ensures failed.Some? ==>
              && state.next.Some?
              && oracle(|driven|, state.next.value)
                == (if failed.value == CouldNotSettle then SettleFailed else BurstFailed)
              && (failed.value == CouldNotSettle || (failed.value == FirstRungFailed && driven == []))
    ensures failed.None? ==>
              && driven != [] && undrivable == state.next
              && (undrivable.Some? ==> oracle(|driven|, undrivable.value) == BurstFailed)
  {
    hide Observed, LadderClimbs, BestIsBest;
    var s := new Sweep(INGEST_CONCURRENCY_FROM, INGEST_CONCURRENCY_STEP, maxConcurrency);
    driven, undrivable := [], None;
    while s.next.Some?
      invariant IsTrace(oracle, maxConcurrency, driven, s.State())
      invariant s.next.None? ==> driven != []
      invariant fresh(s)
      decreases if s.next.Some? then s.max + 1 - s.next.value else 0
    {
      var concurrency := s.next.value;
      var outcome := oracle(|driven|, concurrency);
      if outcome.SettleFailed? {
        return Some(CouldNotSettle), s.State(), driven, None;
      }
      if outcome.BurstFailed? {
        if driven == [] {
          return Some(FirstRungFailed), s.State(), driven, None;
        }
        undrivable := Some(concurrency);
        return None, s.State(), driven, undrivable;
      }
      TraceGrows(oracle, maxConcurrency, driven, s.State(), concurrency, outcome.burst);
      EverySweepKeeps(INGEST_CONCURRENCY_FROM, INGEST_CONCURRENCY_STEP, maxConcurrency, Rates(driven));
      NextIsHigher(s.State(), outcome.burst.rowsPerS);
      s.Observe(concurrency, outcome.burst.rowsPerS);
      driven := driven + [(concurrency, outcome.burst)];
    }
    return None, s.State(), driven, None;
  }

  lemma NextIsHigher(s: Climb, rowsPerS: u64)
    requires LadderClimbs(s) && s.Valid() && s.next.Some?
    ensures var t := Observed(s, s.next.value, rowsPerS);
            t.max == s.max && s.next.value <= s.max && (t.next.Some? ==> s.next.value < t.next.value <= t.max)
  {
    hide Beats, Above;
    if s.next.value < s.max {
      AboveIsHigher(s, s.next.value);
    }
  }

  /** A published ceiling: a strictly higher rung was driven and no driven rung beats the winner by
      the margin, every lower rung is strictly below it, and a row count that could be read back
      covers the rows posted. */
  ghost predicate IsCeiling(driven: seq<(u64, Burst)>, best: Point, burst: Burst) {
    && (exists w: nat | w < |driven| - 1 ::
          && driven[w] == (best.concurrency, burst) && burst.rowsPerS == best.rowsPerS
          && (forall i | 0 <= i < w :: driven[i].0 < best.concurrency && driven[i].1.rowsPerS < best.rowsPerS)
          && (forall i | w < i < |driven| ::
                driven[i].0 > best.concurrency && driven[i].1.rowsPerS as real <= best.rowsPerS as real * 1.03))
    && (burst.landed.Some? ==> burst.landed.value >= burst.rows)
  }

  /** The best figure is the last one: nothing showed the target could not beat it. */
  ghost predicate IsFloor(driven: seq<(u64, Burst)>) {
    driven != [] && forall i | 0 <= i < |driven| - 1 :: driven[i].1.rowsPerS < driven[|driven| - 1].1.rowsPerS
  }

  lemma WinnerIsCeiling(oracle: Oracle, max: u64, driven: seq<(u64, Burst)>, s: Climb)
    requires IsTrace(oracle, max, driven, s) && driven != [] && !s.StillClimbing()
    requires driven[s.best].1.landed.Some? ==> driven[s.best].1.landed.value >= driven[s.best].1.rows
    ensures IsCeiling(driven, s.points[s.best], driven[s.best].1)
  {
    hide LadderClimbs, After, StopsForAReason;
    EverySweepKeeps(INGEST_CONCURRENCY_FROM, INGEST_CONCURRENCY_STEP, max, Rates(driven));
    var w := s.best;
    assert w < |driven| - 1 && s.points[w].concurrency == driven[w].0;
    forall i | 0 <= i < |driven| && i != w
      ensures if i < w then driven[i].0 < driven[w].0 else driven[i].0 > driven[w].0
    {
      assert s.points[i].concurrency == driven[i].0;
      if i < w { HigherRungsAreHigher(s, i, w); } else { HigherRungsAreHigher(s, w, i); }
    }
    forall i | w < i < |driven| ensures driven[i].1.rowsPerS as real <= s.points[w].rowsPerS as real * 1.03 {
      assert !Beats(s.points[i].rowsPerS, s.points[w].rowsPerS);
    }
  }

  lemma LastIsFloor(oracle: Oracle, max: u64, driven: seq<(u64, Burst)>, s: Climb)
    requires IsTrace(oracle, max, driven, s) && s.StillClimbing()
    ensures IsFloor(driven)
  {
    hide LadderClimbs, After, StopsForAReason, Beats;
    EverySweepKeeps(INGEST_CONCURRENCY_FROM, INGEST_CONCURRENCY_STEP, max, Rates(driven));
    forall i | 0 <= i < |driven| - 1 ensures driven[i].1.rowsPerS < driven[|driven| - 1].1.rowsPerS {
      assert s.points[i].rowsPerS < s.points[s.best].rowsPerS;
    }
  }

  /** `bursts.iter().find`: the first burst measured at the winning concurrency. */
  method FindBurst(driven: seq<(u64, Burst)>, concurrency: u64) returns (i: nat)
    ensures i <= |driven| && (i < |driven| ==> driven[i].0 == concurrency)
    ensures forall j | 0 <= j < i :: driven[j].0 != concurrency
  {
    i := 0;
    while i < |driven| && driven[i].0 != concurrency
      invariant i <= |driven| && forall j | 0 <= j < i :: driven[j].0 != concurrency
    {
      i := i + 1;
    }
  }

  lemma FoundIsBest(s: Climb, driven: seq<(u64, Burst)>, i: nat)
    requires LadderClimbs(s) && s.Valid() && |s.points| == |driven| && driven != []
    requires forall j | 0 <= j < |driven| :: s.points[j].concurrency == driven[j].0
    requires i <= |driven| && (i < |driven| ==> driven[i].0 == s.points[s.best].concurrency)
    requires forall j | 0 <= j < i :: driven[j].0 != s.points[s.best].concurrency
    ensures i == s.best
  {
    assert driven[s.best].0 == s.points[s.best].concurrency;
    if i < s.best {
      HigherRungsAreHigher(s, i, s.best);
    }
  }

  /** The ladder has ended: it is climbed out, or the next rung fails. */
  ghost predicate IsOver(oracle: Oracle, driven: seq<(u64, Burst)>, state: Climb) {
    state.next.None? || !oracle(|driven|, state.next.value).Drove?
  }

  predicate Landed(burst: Burst) { burst.landed.None? || burst.landed.value >= burst.rows }

  /** Why a pass that has ended is refused, if it is. A rung that fails to settle refuses the pass, and
      so does a first rung that cannot be driven; a later one only ends the ladder. */
  ghost function Refusal(oracle: Oracle, driven: seq<(u64, Burst)>, state: Climb): Option<Reason>
    requires IsOver(oracle, driven, state) && state.Valid() && |driven| == |state.points|
  {
    if state.next.Some? && oracle(|driven|, state.next.value).SettleFailed? then Some(CouldNotSettle)
    else if driven == [] then Some(FirstRungFailed)
    else if state.StillClimbing() then Some(Reason.StillClimbing)
    else if !Landed(driven[state.best].1) then Some(RowsDidNotLand)
    else None
  }

  // ----- the ladder, the winner and the plateau by their numbers

  /** The highest concurrency a pass may drive. */
  function Top(max: u64): nat { if max < 1 then 1 else max }

  /** Two, or the bound below it; then twice the rung before, or the bound, and nothing behind the bound. */
  ghost predicate IsLadder(max: u64, driven: seq<(u64, Burst)>) {
    && (driven != [] ==> driven[0].0 == if Top(max) < 2 then 1 else 2)
    && forall i | 0 <= i < |driven| - 1 ::
         && driven[i].0 < Top(max)
         && driven[i + 1].0 == if 2 * driven[i].0 < Top(max) then 2 * driven[i].0 else Top(max)
  }

  /** The last figure that was more than three per cent above the winner before it. */
  function Winner(rates: seq<u64>): (w: nat)
    ensures w < |rates| || (rates == [] && w == 0)
  {
    if |rates| <= 1 then 0
    else
      var w := Winner(rates[..|rates| - 1]);
      if rates[|rates| - 1] as real > rates[w] as real * 1.03 then |rates| - 1 else w
  }

  /** No rung is driven behind two that missed. */
  ghost predicate IsPatient(driven: seq<(u64, Burst)>) {
    forall n | 1 <= n < |driven| :: n - 1 < Winner(Rates(driven)[..n]) + 2
  }

  /** Why a ladder may end: two rungs missed, the bound was driven, or the next rung could not be driven. */
  ghost predicate EndsFairly(oracle: Oracle, max: u64, driven: seq<(u64, Burst)>)
    requires driven != []
  {
    var last := driven[|driven| - 1].0;
    || |driven| - 1 >= Winner(Rates(driven)) + 2
    || last == Top(max)
    || !oracle(|driven|, if 2 * last < Top(max) then 2 * last else Top(max)).Drove?
  }

  lemma {:induction false} BestIsWinner(from: u64, step: u64, max: u64, rates: seq<u64>)
    requires After(from, step, max, rates).Some? && rates != []
    ensures After(from, step, max, rates).value.best == Winner(rates)
    decreases |rates|
  {
    hide LadderClimbs, StopsForAReason, Above;
    var n := |rates| - 1;
    EverySweepKeeps(from, step, max, rates);
    EverySweepKeeps(from, step, max, rates[..n]);
    if n > 0 {
      BestIsWinner(from, step, max, rates[..n]);
    }
  }

  lemma TraceBefore(oracle: Oracle, max: u64, driven: seq<(u64, Burst)>, s: Climb, n: nat)
    requires IsTrace(oracle, max, driven, s) && n < |driven|
    ensures var t := After(INGEST_CONCURRENCY_FROM, INGEST_CONCURRENCY_STEP, max, Rates(driven)[..n]);
      t.Some? && t.value.next.Some?
  {
    hide Observed, Begin;
    PartOfSweep(INGEST_CONCURRENCY_FROM, INGEST_CONCURRENCY_STEP, max, Rates(driven), n);
  }

  lemma {:induction false} PartOfSweep(from: u64, step: u64, max: u64, rates: seq<u64>, n: nat)
    requires After(from, step, max, rates).Some? && n < |rates|
    ensures var t := After(from, step, max, rates[..n]); t.Some? && t.value.next.Some?
    decreases |rates|
  {
    hide Observed, Begin;
    var m := |rates| - 1;
    if n < m {
      PartOfSweep(from, step, max, rates[..m], n);
      assert rates[..m][..n] == rates[..n];
    }
  }

  lemma {:induction false} SweepKeepsStep(from: u64, step: u64, max: u64, rates: seq<u64>)
    requires After(from, step, max, rates).Some?
    ensures After(from, step, max, rates).value.step == AtLeast(step, 2)
    ensures rates != [] ==>
              var points := After(from, step, max, rates).value.points;
              points != [] && points[0].concurrency == Clamp(from, 1, AtLeast(max, 1))
    decreases |rates|
  {
    hide Beats, Above;
    if rates != [] {
      SweepKeepsStep(from, step, max, rates[..|rates| - 1]);
    }
  }

  lemma LadderByNumber(oracle: Oracle, max: u64, driven: seq<(u64, Burst)>, s: Climb)
    requires IsTrace(oracle, max, driven, s)
    ensures IsLadder(max, driven)
  {
    hide After, BestIsBest, StopsForAReason, Answers;
    EverySweepKeeps(INGEST_CONCURRENCY_FROM, INGEST_CONCURRENCY_STEP, max, Rates(driven));
    SweepKeepsStep(INGEST_CONCURRENCY_FROM, INGEST_CONCURRENCY_STEP, max, Rates(driven));
    assert driven != [] ==> s.points[0] == Point(driven[0].0, driven[0].1.rowsPerS);
    forall i | 0 <= i < |driven| - 1
      ensures driven[i].0 < Top(max)
      ensures driven[i + 1].0 == if 2 * driven[i].0 < Top(max) then 2 * driven[i].0 else Top(max)
    {
      assert s.points[i].concurrency == driven[i].0 && s.points[i + 1].concurrency == driven[i + 1].0;
      Doubled(s, driven[i].0);
    }
  }

  lemma Doubled(s: Climb, c: u64)
    requires s.step == 2 && s.max >= 1
    ensures Above(s, c) == if 2 * c < s.max then 2 * c else s.max
  {
  }

  lemma PatienceByNumber(oracle: Oracle, max: u64, driven: seq<(u64, Burst)>, s: Climb)
    requires IsTrace(oracle, max, driven, s)
    ensures IsPatient(driven)
    ensures driven != [] ==> s.best == Winner(Rates(driven))
    ensures driven != [] && IsOver(oracle, driven, s) ==> EndsFairly(oracle, max, driven)
  {
    hide After, Beats, Answers, Winner, Above;
    var from, step, rates := INGEST_CONCURRENCY_FROM, INGEST_CONCURRENCY_STEP, Rates(driven);
    forall n | 1 <= n < |driven| ensures n - 1 < Winner(rates[..n]) + 2 {
      TraceBefore(oracle, max, driven, s, n);
      EverySweepKeeps(from, step, max, rates[..n]);
      BestIsWinner(from, step, max, rates[..n]);
    }
    if driven != [] {
      EverySweepKeeps(from, step, max, rates);
      BestIsWinner(from, step, max, rates);
      SweepKeepsStep(from, step, max, rates);
      var last := driven[|driven| - 1].0;
      assert s.points[|driven| - 1].concurrency == last;
      Doubled(s, last);
    }
  }

  /** `measure_ingest`: the pass is accepted exactly when nothing refuses it, and then what it publishes
      is a ceiling; a pass refused as still climbing has only a floor. */
  method MeasureIngest(oracle: Oracle, maxConcurrency: u64) returns (r: Result, driven: seq<(u64, Burst)>, state: Climb)
    ensures IsTrace(oracle, maxConcurrency, driven, state) && state.Valid() && IsOver(oracle, driven, state)
    ensures r.Accepted? <==> Refusal(oracle, driven, state).None?
    ensures r.Refused? ==> Refusal(oracle, driven, state) == Some(r.reason)
    ensures r.Accepted? ==>
              && IsCeiling(driven, r.best, r.burst) && r.undrivable == state.next
              && driven != [] && r.best == state.points[state.best] && r.burst == driven[state.best].1
              && (r.undrivable.Some? ==> driven[|driven| - 1].0 < r.undrivable.value)
    ensures r == Refused(Reason.StillClimbing) ==> IsFloor(driven)
    ensures IsLadder(maxConcurrency, driven) && IsPatient(driven)
    ensures r.Accepted? ==>
              && EndsFairly(oracle, maxConcurrency, driven)
              && (r.best.concurrency, r.burst) == driven[Winner(Rates(driven))]
    ensures |driven| >= 2 ==> Pow2(|driven| - 2) < maxConcurrency
  {
    hide LadderClimbs, BestIsBest, StopsForAReason, After, IsCeiling, IsFloor, IsLadder, IsPatient, EndsFairly, Winner;
    var failed, sweep, rungs, undrivable := Climbed(oracle, maxConcurrency);
    driven, state := rungs, sweep;
    EverySweepKeeps(INGEST_CONCURRENCY_FROM, INGEST_CONCURRENCY_STEP, maxConcurrency, Rates(driven));
    LadderByNumber(oracle, maxConcurrency, driven, state);
    PatienceByNumber(oracle, maxConcurrency, driven, state);
    if |driven| >= 2 {
      FewRungs(INGEST_CONCURRENCY_FROM, INGEST_CONCURRENCY_STEP, maxConcurrency, Rates(driven));
    }
    if failed.Some? {
      return Refused(failed.value), driven, state;
    }
    BestIsInside(state);
    var best := state.points[state.best];
    if state.StillClimbing() {
      LastIsFloor(oracle, maxConcurrency, driven, state);
      return Refused(Reason.StillClimbing), driven, state;
    }
    var i := FindBurst(driven, best.concurrency);
    FoundIsBest(state, driven, i);
    var burst := driven[i].1;
    if burst.landed.Some? && burst.landed.value < burst.rows {
      return Refused(RowsDidNotLand), driven, state;
    }
    WinnerIsCeiling(oracle, maxConcurrency, driven, state);
    if undrivable.Some? {
      UndrivableIsHigher(state);
    }
    return Accepted(best, burst, undrivable), driven, state;
  }

  lemma BestIsInside(s: Climb)
    requires BestIsBest(s) && s.points != []
    ensures s.best < |s.points|
  {
  }

  lemma UndrivableIsHigher(s: Climb)
    requires LadderClimbs(s) && s.points != [] && s.next.Some?
    ensures s.points[|s.points| - 1].concurrency < s.next.value
  {
    AboveIsHigher(s, s.points[|s.points| - 1].concurrency);
  }
}

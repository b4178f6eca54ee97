/** How the consume pass hands out partitions and how long a window their backlog can carry. */
module Backlog {
  import opened Wire
  import opened Arithmetic

  const CONSUME_BACKLOG_SHARE: real := 0.70

  // ----- who reads what

  function Columns(threads: nat): nat { if threads < 1 then 1 else threads }

  /** Consumer `i` reads every `threads`-th partition from the i-th on, in order. */
  ghost predicate IsSplit(split: seq<seq<nat>>, threads: nat, rounds: nat, extra: nat) {
    && |split| == threads
    && forall i | 0 <= i < threads ::
         && |split[i]| == (if i < extra then rounds + 1 else rounds)
         && forall k | 0 <= k < |split[i]| :: split[i][k] == k * threads + i
  }

  /** `partition_split`. */
  method PartitionSplit(threads: nat, partitions: nat) returns (split: seq<seq<nat>>)
    ensures IsSplit(split, Columns(threads), partitions / Columns(threads), partitions % Columns(threads))
    ensures |split| == if threads == 0 then 1 else threads
  {
    var n := Columns(threads);
    split := seq(n, _ => []);
    ghost var q, r := 0, 0;
    for p := 0 to partitions
      invariant r < n && p == q * n + r && IsSplit(split, n, q, r)
    {
      DivisionIsUnique(p, n, q, r);
      var i := p % n;
      split := split[i := split[i] + [p]];
      if r + 1 == n {
        q, r := q + 1, 0;
      } else {
        r := r + 1;
      }
    }
    DivisionIsUnique(partitions, n, q, r);
  }

  /** Every partition goes to exactly one consumer, once. */
  lemma EveryPartitionOnce(split: seq<seq<nat>>, n: nat, partitions: nat, p: nat)
    requires n > 0 && IsSplit(split, n, partitions / n, partitions % n)
    ensures p < partitions ==> p / n < |split[p % n]| && split[p % n][p / n] == p
    ensures forall i, k | 0 <= i < n && 0 <= k < |split[i]| && split[i][k] == p ::
              p < partitions && i == p % n && k == p / n
  {
    var q, r := partitions / n, partitions % n;
    DivisionBounds(partitions, n);
    DivisionBounds(p, n);
    PlaceBelow(n, p / n, p % n, q, r);
    forall i, k | 0 <= i < n && 0 <= k < |split[i]| && split[i][k] == p
      ensures p < partitions && i == p % n && k == p / n
    {
      DivisionIsUnique(p, n, k, i);
      PlaceBelow(n, k, i, q, r);
    }
  }

  /** Sizes differ by at most one, and no consumer is idle when there are partitions to go round. */
  lemma SplitIsEven(split: seq<seq<nat>>, n: nat, partitions: nat)
    requires n > 0 && IsSplit(split, n, partitions / n, partitions % n)
    ensures forall i, j | 0 <= i < n && 0 <= j < n :: |split[i]| <= |split[j]| + 1
    ensures n <= partitions <==> forall i | 0 <= i < n :: split[i] != []
  {
    var q, r := partitions / n, partitions % n;
    DivisionBounds(partitions, n);
    if n > partitions {
      DivisionIsUnique(partitions, n, 0, partitions);
      assert |split[n - 1]| == 0;
    }
  }

  // ----- how long a window

  function Sum(xs: seq<nat>): nat { if xs == [] then 0 else xs[0] + Sum(xs[1..]) }

  /** The messages in front of one consumer; a partition without a depth adds nothing. */
  function Assigned(depths: seq<nat>, consumer: seq<nat>): nat {
    if consumer == [] then 0
    else (if consumer[0] < |depths| then depths[consumer[0]] else 0) + Assigned(depths, consumer[1..])
  }

  function Streams(split: seq<seq<nat>>): nat { if split == [] then 0 else |split[0]| + Streams(split[1..]) }

  /** The rate one consumer reads at: its share of the fetch streams. */
  function RateOf(consumer: seq<nat>, streams: nat, rate: real): real
    requires streams > 0
  {
    rate * (|consumer| as real / streams as real)
  }

  function Lasts(depths: seq<nat>, consumer: seq<nat>, streams: nat, rate: real): real
    requires streams > 0 && RateOf(consumer, streams, rate) > 0.0
  {
    Assigned(depths, consumer) as real / RateOf(consumer, streams, rate)
  }

  lemma RateIsPositive(consumer: seq<nat>, streams: nat, rate: real)
    requires streams > 0 && rate > 0.0 && consumer != []
    ensures RateOf(consumer, streams, rate) > 0.0
  {
    assert |consumer| as real / streams as real > 0.0;
  }

  /** When the first consumer runs out, if any reads anything. */
  function Soonest(depths: seq<nat>, split: seq<seq<nat>>, streams: nat, rate: real): Option<real>
    requires streams > 0 && rate > 0.0
  {
    if split == [] then None
    else
      var later := Soonest(depths, split[1..], streams, rate);
      if split[0] == [] then later
      else
        RateIsPositive(split[0], streams, rate);
        var first := Lasts(depths, split[0], streams, rate);
        if later.Some? && later.value < first then later else Some(first)
  }

  /** `backlog_window`, in seconds. */
  function BacklogWindow(depths: seq<nat>, split: seq<seq<nat>>, rate: real, requested: real): real {
    if rate <= 0.0 || Sum(depths) == 0 || Streams(split) == 0 then requested
    else
      match Soonest(depths, split, Streams(split), rate)
      case None => requested
      case Some(soonest) =>
        var window := soonest * CONSUME_BACKLOG_SHARE;
        if window < requested then window else requested
  }

  /** Within `window`, no consumer reads more than the share of its backlog it may. */
  ghost predicate Leaves(depths: seq<nat>, split: seq<seq<nat>>, streams: nat, rate: real, window: real)
    requires streams > 0
  {
    forall i | 0 <= i < |split| && split[i] != [] ::
      window * RateOf(split[i], streams, rate) <= CONSUME_BACKLOG_SHARE * Assigned(depths, split[i]) as real
  }

  lemma ShareOfBacklog(window: real, backlog: real, rate: real)
    requires rate > 0.0
    ensures window <= backlog / rate * CONSUME_BACKLOG_SHARE <==> window * rate <= CONSUME_BACKLOG_SHARE * backlog
  {
    var s := backlog / rate;
    assert s * rate == backlog;
    Scale(window, s * CONSUME_BACKLOG_SHARE, rate);
    assert s * CONSUME_BACKLOG_SHARE * rate == CONSUME_BACKLOG_SHARE * (s * rate);
  }

  lemma Scale(a: real, b: real, c: real)
    requires c > 0.0
    ensures a <= b <==> a * c <= b * c
  {
    assert (b - a) * c == b * c - a * c;
    if a <= b {
      assert (b - a) * c >= 0.0;
    } else {
      assert (a - b) * c > 0.0;
    }
  }

  lemma {:induction false} SoonestIsExact(depths: seq<nat>, split: seq<seq<nat>>, streams: nat, rate: real,
                                          window: real)
    requires streams > 0 && rate > 0.0
    ensures var soonest := Soonest(depths, split, streams, rate);
            Leaves(depths, split, streams, rate, window) <==>
            (soonest.Some? ==> window <= soonest.value * CONSUME_BACKLOG_SHARE)
    decreases |split|
  {
    hide RateOf, Assigned;
    if split != [] {
      var first, rest := split[0], split[1..];
      SoonestIsExact(depths, rest, streams, rate, window);
      LeavesCons(depths, first, rest, streams, rate, window);
      assert split == [first] + rest;
      if first != [] {
        RateIsPositive(first, streams, rate);
        ShareOfBacklog(window, Assigned(depths, first) as real, RateOf(first, streams, rate));
      }
    }
  }

  lemma LeavesCons(depths: seq<nat>, first: seq<nat>, rest: seq<seq<nat>>, streams: nat, rate: real, window: real)
    requires streams > 0
    ensures Leaves(depths, [first] + rest, streams, rate, window) <==>
            Leaves(depths, rest, streams, rate, window)
            && (first != [] ==>
              window * RateOf(first, streams, rate) <= CONSUME_BACKLOG_SHARE * Assigned(depths, first) as real)
  {
    hide RateOf, Assigned;
    var all := [first] + rest;
    assert all[0] == first;
    if Leaves(depths, all, streams, rate, window) {
      forall i | 0 <= i < |rest| && rest[i] != []
        ensures window * RateOf(rest[i], streams, rate) <= CONSUME_BACKLOG_SHARE * Assigned(depths, rest[i]) as real
      {
        assert all[i + 1] == rest[i];
      }
    }
  }

  /** What one consumer has in front of it is the sum over its partitions, so every partition with a depth
      is counted once over the whole split. */
  lemma {:induction false} AssignedAppend(depths: seq<nat>, a: seq<nat>, b: seq<nat>)
    ensures Assigned(depths, a + b) == Assigned(depths, a) + Assigned(depths, b)
  {
    if a == [] {
      assert a + b == b;
    } else {
      assert (a + b)[1..] == a[1..] + b;
      AssignedAppend(depths, a[1..], b);
    }
  }

  lemma AssignedOne(depths: seq<nat>, p: nat)
    ensures Assigned(depths, [p]) == if p < |depths| then depths[p] else 0
  {
    assert [p][1..] == [];
  }

  function Upto(n: nat): (s: seq<nat>)
    ensures |s| == n && forall i | 0 <= i < n :: s[i] == i
  {
    seq(n, i => i)
  }

  lemma {:induction false} AssignedToAll(depths: seq<nat>, n: nat)
    requires n <= |depths|
    ensures Assigned(depths, Upto(n)) == Sum(depths[..n])
  {
    if n > 0 {
      AssignedToAll(depths, n - 1);
      assert Upto(n) == Upto(n - 1) + [n - 1] && depths[..n] == depths[..n - 1] + [depths[n - 1]];
      AssignedAppend(depths, Upto(n - 1), [n - 1]);
      AssignedOne(depths, n - 1);
      SumAppend(depths[..n - 1], [depths[n - 1]]);
      assert [depths[n - 1]][1..] == [];
    }
  }

  lemma {:induction false} SumAppend(a: seq<nat>, b: seq<nat>)
    ensures Sum(a + b) == Sum(a) + Sum(b)
  {
    if a == [] {
      assert a + b == b;
    } else {
      assert (a + b)[1..] == a[1..] + b;
      SumAppend(a[1..], b);
    }
  }

  /** `k` of `n` fetch streams carry k / n of the rate, and all of them the whole. */
  lemma RateIsShared(consumer: seq<nat>, streams: nat, rate: real)
    requires streams > 0
    ensures RateOf(consumer, streams, rate) * streams as real == rate * |consumer| as real
    ensures |consumer| == streams ==> RateOf(consumer, streams, rate) == rate
  {
    var share := |consumer| as real / streams as real;
    assert share * streams as real == |consumer| as real;
    assert rate * share * streams as real == rate * (share * streams as real);
  }

  /** At a positive rate over some backlog, the window is the longest, up to the one requested, that
      leaves every consumer three tenths of its backlog. */
  lemma WindowIsLongestThatLeavesBacklog(depths: seq<nat>, split: seq<seq<nat>>, rate: real, requested: real,
                                         other: real)
    requires rate > 0.0 && Sum(depths) > 0 && Streams(split) > 0
    ensures var window := BacklogWindow(depths, split, rate, requested);
            && window <= requested
            && Leaves(depths, split, Streams(split), rate, window)
            && (other <= requested && Leaves(depths, split, Streams(split), rate, other) ==> other <= window)
  {
    hide Leaves, Soonest;
    var window := BacklogWindow(depths, split, rate, requested);
    SoonestIsExact(depths, split, Streams(split), rate, window);
    SoonestIsExact(depths, split, Streams(split), rate, other);
  }

  /** Within `window`, a consumer of `k` of the split's `n` partitions reads at most seven tenths of what
      lies in them. */
  ghost predicate LeavesThreeTenths(depths: seq<nat>, split: seq<seq<nat>>, rate: real, window: real) {
    forall i | 0 <= i < |split| && split[i] != [] ::
      window * rate * |split[i]| as real <= 0.7 * Assigned(depths, split[i]) as real * Streams(split) as real
  }

  /** By its numbers: the window is the longest, up to the one requested, that leaves three tenths. */
  lemma ThreeTenthsAreLeft(depths: seq<nat>, split: seq<seq<nat>>, rate: real, requested: real, other: real)
    requires rate > 0.0 && Sum(depths) > 0 && Streams(split) > 0
    ensures var window := BacklogWindow(depths, split, rate, requested);
            && window <= requested && LeavesThreeTenths(depths, split, rate, window)
            && (other <= requested && LeavesThreeTenths(depths, split, rate, other) ==> other <= window)
  {
    hide Soonest, BacklogWindow, Leaves, LeavesThreeTenths, Sum, Streams;
    WindowIsLongestThatLeavesBacklog(depths, split, rate, requested, other);
    LeavesByNumber(depths, split, rate, BacklogWindow(depths, split, rate, requested));
    LeavesByNumber(depths, split, rate, other);
  }

  lemma LeavesByNumber(depths: seq<nat>, split: seq<seq<nat>>, rate: real, window: real)
    requires rate > 0.0 && Streams(split) > 0
    ensures Leaves(depths, split, Streams(split), rate, window) <==> LeavesThreeTenths(depths, split, rate, window)
  {
    hide Assigned, RateOf, Streams;
    var n := Streams(split);
    forall i | 0 <= i < |split| && split[i] != []
      ensures window * RateOf(split[i], n, rate) <= CONSUME_BACKLOG_SHARE * Assigned(depths, split[i]) as real
         <==> window * rate * |split[i]| as real <= 0.7 * Assigned(depths, split[i]) as real * n as real
    {
      RateIsShared(split[i], n, rate);
      WholeRate(window, rate, RateOf(split[i], n, rate), 0.7 * Assigned(depths, split[i]) as real,
                n as real, |split[i]| as real);
    }
  }

  lemma WholeRate(window: real, rate: real, r: real, a: real, n: real, k: real)
    requires r * n == rate * k && n > 0.0
    ensures window * r <= a <==> window * rate * k <= a * n
  {
    Scale(window * r, a, n);
    Regrouped(window, r, n);
    Regrouped(window, rate, k);
  }

  lemma Regrouped(a: real, b: real, c: real)
    ensures a * b * c == a * (b * c)
  {
  }

  // ----- the sums by what they count

  lemma {:induction false} StreamsAppend(split: seq<seq<nat>>, consumer: seq<nat>)
    ensures Streams(split + [consumer]) == Streams(split) + |consumer|
  {
    if split == [] {
      assert [consumer][1..] == [];
    } else {
      assert (split + [consumer])[1..] == split[1..] + [consumer];
      StreamsAppend(split[1..], consumer);
    }
  }

  lemma {:induction false} StreamsOfFirst(split: seq<seq<nat>>, n: nat, rounds: nat, extra: nat, i: nat)
    requires IsSplit(split, n, rounds, extra) && i <= n && extra <= n
    ensures Streams(split[..i]) == i * rounds + if i < extra then i else extra
  {
    if i > 0 {
      StreamsOfFirst(split, n, rounds, extra, i - 1);
      assert split[..i] == split[..i - 1] + [split[i - 1]];
      StreamsAppend(split[..i - 1], split[i - 1]);
      OneRoundMore(i, rounds);
    }
  }

  lemma OneRoundMore(i: nat, rounds: nat)
    requires i > 0
    ensures i * rounds == (i - 1) * rounds + rounds
  {
  }

  /** The fetch streams of a split are the partitions it was made of. */
  lemma StreamsAreThePartitions(split: seq<seq<nat>>, n: nat, partitions: nat)
    requires n > 0 && IsSplit(split, n, partitions / n, partitions % n)
    ensures Streams(split) == partitions
  {
    hide IsSplit, Streams;
    assert |split| == n by {
      SplitHas(split, n, partitions / n, partitions % n);
    }
    StreamsOfFirst(split, n, partitions / n, partitions % n, n);
    assert split[..n] == split;
    DivisionBounds(partitions, n);
  }

  lemma SplitHas(split: seq<seq<nat>>, n: nat, rounds: nat, extra: nat)
    requires IsSplit(split, n, rounds, extra)
    ensures |split| == n
  {
  }

  /** Without a rate, a message or a partition the request stands. */
  lemma RequestStands(depths: seq<nat>, split: seq<seq<nat>>, rate: real, requested: real)
    requires rate <= 0.0 || (forall d | d in depths :: d == 0) || (forall c | c in split :: c == [])
    ensures BacklogWindow(depths, split, rate, requested) == requested
  {
    hide Soonest;
    if forall d | d in depths :: d == 0 {
      NothingToRead(depths);
    }
    if forall c | c in split :: c == [] {
      NobodyReads(split);
    }
  }

  lemma {:induction false} NothingToRead(depths: seq<nat>)
    requires forall d | d in depths :: d == 0
    ensures Sum(depths) == 0
  {
    if depths != [] {
      assert depths[0] in depths && forall d | d in depths[1..] :: d in depths;
      NothingToRead(depths[1..]);
    }
  }

  lemma {:induction false} NobodyReads(split: seq<seq<nat>>)
    requires forall c | c in split :: c == []
    ensures Streams(split) == 0
  {
    if split != [] {
      assert split[0] in split && forall c | c in split[1..] :: c in split;
      NobodyReads(split[1..]);
    }
  }

  lemma WindowIsNotNegative(depths: seq<nat>, split: seq<seq<nat>>, rate: real, requested: real)
    requires requested >= 0.0
    ensures BacklogWindow(depths, split, rate, requested) >= 0.0
  {
    if rate > 0.0 && Streams(split) > 0 {
      SoonestIsNotNegative(depths, split, Streams(split), rate);
    }
  }

  lemma {:induction false} SoonestIsNotNegative(depths: seq<nat>, split: seq<seq<nat>>, streams: nat, rate: real)
    requires streams > 0 && rate > 0.0
    ensures Soonest(depths, split, streams, rate).Some? ==> Soonest(depths, split, streams, rate).value >= 0.0
    decreases |split|
  {
    hide RateOf, Assigned;
    if split != [] {
      SoonestIsNotNegative(depths, split[1..], streams, rate);
      if split[0] != [] {
        RateIsPositive(split[0], streams, rate);
        assert Assigned(depths, split[0]) as real / RateOf(split[0], streams, rate) >= 0.0;
      }
    }
  }
}

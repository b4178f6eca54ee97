/** The sustained load: paced producer threads that share one origin and one schedule, run
    under every interleaving. Times are microseconds since the origin. */
module Producers {
  import opened Wire
  import opened Arithmetic

  /** `origin` is the epoch reading taken before any thread is spawned. */
  datatype Config = Config(threads: nat, rate: nat, partitions: nat, origin: int, first: nat) {
    predicate Valid() { threads > 0 && rate > 0 && partitions > 0 }

    /** A thread's k-th message in the aggregate schedule. */
    function Index(slot: nat, k: nat): nat { slot + k * threads }

    /** `sustained_due_us`. */
    function Due(n: nat): nat
      requires Valid()
    {
      n * 1_000_000 / rate
    }

    /** At most this many messages are due within the first `e` microseconds. */
    function DueBy(e: nat): nat
      requires Valid()
    {
      ((e + 1) * rate + 999_999) / 1_000_000
    }
  }

  /** A message the queue accepted. `slot`, `k` and `at` record who sent it, which of its own it was
      and when; the other fields are what is on the wire. */
  datatype Message = Message(slot: nat, k: nat, at: nat, batchId: nat, stamp: int, partition: nat)

  /** Between two atomic steps a thread is about to look at the stop flag, about to read the clock,
      about to send having read it, or gone. */
  datatype Phase = Top | Running | Ready(read: nat) | Gone

  datatype State = State(clock: nat, stop: bool, phase: seq<Phase>, sent: seq<nat>, lag: seq<nat>, log: seq<Message>)

  /** A relaxed load may miss a stop just stored but never sees one that was not. The queue
      accepts a message or reports itself full. */
  datatype Step = Tick(d: nat) | Halt | Look(slot: nat, seesStop: bool) | Read(slot: nat)
    | Offer(slot: nat, accepted: bool)

  function Start(c: Config): State {
    State(0, false, seq(c.threads, _ => Top), seq(c.threads, _ => 0), seq(c.threads, _ => 0), [])
  }

  predicate Shaped(c: Config, s: State) { |s.phase| == |s.sent| == |s.lag| == c.threads }

  function Max(a: nat, b: nat): nat { if a < b then b else a }

  function Sent(c: Config, s: State, slot: nat): Message
    requires c.Valid() && Shaped(c, s) && slot < c.threads
  {
    var n := c.Index(slot, s.sent[slot]);
    Message(slot, s.sent[slot], s.clock, c.first + n, c.origin + c.Due(n), n % c.partitions)
  }

  function Apply(c: Config, s: State, step: Step): (r: Option<State>)
    requires c.Valid() && Shaped(c, s)
    ensures r.Some? ==> Shaped(c, r.value)
  {
    match step
    case Tick(d) => Some(s.(clock := s.clock + d))
    case Halt => Some(s.(stop := true))
    case Look(slot, seesStop) =>
      if slot < c.threads && s.phase[slot] == Top && (seesStop ==> s.stop)
      then Some(s.(phase := s.phase[slot := if seesStop then Gone else Running]))
      else None
    case Read(slot) =>
      if !(slot < c.threads && s.phase[slot] == Running) then None else
        var due := c.Due(c.Index(slot, s.sent[slot]));
        if s.clock < due then Some(s.(phase := s.phase[slot := Top]))
        else Some(s.(phase := s.phase[slot := Ready(s.clock)], lag := s.lag[slot := Max(s.lag[slot], s.clock - due)]))
    case Offer(slot, accepted) =>
      if !(slot < c.threads && s.phase[slot].Ready?) then None
      else if !accepted then Some(s.(phase := s.phase[slot := Top]))
      else Some(s.(phase := s.phase[slot := Top], sent := s.sent[slot := s.sent[slot] + 1],
                   log := s.log + [Sent(c, s, slot)]))
  }

  function Exec(c: Config, steps: seq<Step>): (r: Option<State>)
    requires c.Valid()
    ensures r.Some? ==> Shaped(c, r.value)
  {
    if steps == [] then Some(Start(c)) else
      var before := Exec(c, steps[..|steps| - 1]);
      if before.None? then None else Apply(c, before.value, steps[|steps| - 1])
  }

  ghost predicate Reachable(c: Config, s: State)
    requires c.Valid()
  {
    exists steps :: Exec(c, steps) == Some(s)
  }

  // ----- what every step keeps

  predicate Faithful(c: Config, m: Message)
    requires c.Valid()
  {
    var n := c.Index(m.slot, m.k);
    && m.slot < c.threads && m.batchId == c.first + n && m.stamp == c.origin + c.Due(n)
    && m.partition == n % c.partitions && c.Due(n) <= m.at
  }

  ghost predicate Logged(s: State, slot: nat, k: nat) {
    exists i :: 0 <= i < |s.log| && s.log[i].slot == slot && s.log[i].k == k
  }

  function Total(sent: seq<nat>): nat {
    if sent == [] then 0 else Total(sent[..|sent| - 1]) + sent[|sent| - 1]
  }

  ghost predicate LogIsFaithful(c: Config, s: State)
    requires c.Valid() && Shaped(c, s)
  {
    forall i | 0 <= i < |s.log| ::
      Faithful(c, s.log[i]) && s.log[i].k < s.sent[s.log[i].slot] && s.log[i].at <= s.clock
  }

  ghost predicate LogIsFull(c: Config, s: State)
    requires Shaped(c, s)
  {
    forall slot, k | 0 <= slot < c.threads && 0 <= k < s.sent[slot] :: Logged(s, slot, k)
  }

  ghost predicate LogIsDistinct(s: State) {
    forall i, j | 0 <= i < j < |s.log| :: s.log[i].slot != s.log[j].slot || s.log[i].k != s.log[j].k
  }

  ghost predicate ReadyIsDue(c: Config, s: State)
    requires c.Valid() && Shaped(c, s)
  {
    forall slot | 0 <= slot < c.threads && s.phase[slot].Ready? ::
      c.Due(c.Index(slot, s.sent[slot])) <= s.phase[slot].read <= s.clock
  }

  ghost predicate Inv(c: Config, s: State)
    requires c.Valid()
  {
    && Shaped(c, s) && LogIsFaithful(c, s) && LogIsFull(c, s) && LogIsDistinct(s) && ReadyIsDue(c, s)
    && |s.log| == Total(s.sent)
  }

  lemma {:induction false} TotalOfZeros(n: nat)
    ensures Total(seq(n, _ => 0)) == 0
  {
    if n > 0 {
      var zeros := seq(n, _ => 0 as nat);
      assert zeros[..n - 1] == seq(n - 1, _ => 0);
      TotalOfZeros(n - 1);
    }
  }

  lemma {:induction false} TotalGrows(sent: seq<nat>, slot: nat)
    requires slot < |sent|
    ensures Total(sent[slot := sent[slot] + 1]) == Total(sent) + 1
    decreases |sent|
  {
    var after := sent[slot := sent[slot] + 1];
    var n := |sent| - 1;
    if slot == n {
      assert after[..n] == sent[..n];
    } else {
      TotalGrows(sent[..n], slot);
      assert after[..n] == sent[..n][slot := sent[slot] + 1];
    }
  }

  lemma StartHolds(c: Config)
    requires c.Valid()
    ensures Inv(c, Start(c))
  {
    TotalOfZeros(c.threads);
  }

  lemma AcceptHolds(c: Config, s: State, slot: nat, t: State)
    requires c.Valid() && Inv(c, s) && slot < c.threads && s.phase[slot].Ready?
    requires Apply(c, s, Offer(slot, true)) == Some(t)
    ensures Inv(c, t)
  {
    hide Config.Due, Config.Index;
    TotalGrows(s.sent, slot);
    var n := |s.log|;
    assert t.log == s.log + [Sent(c, s, slot)] && t.log[n].slot == slot && t.log[n].k == s.sent[slot];
    forall o, k | 0 <= o < c.threads && 0 <= k < t.sent[o] ensures Logged(t, o, k) {
      if k < s.sent[o] {
        assert Logged(s, o, k);
        var i :| 0 <= i < |s.log| && s.log[i].slot == o && s.log[i].k == k;
        assert t.log[i] == s.log[i];
      }
    }
  }

  lemma StepHolds(c: Config, s: State, step: Step, t: State)
    requires c.Valid() && Inv(c, s) && Apply(c, s, step) == Some(t)
    ensures Inv(c, t)
  {
    hide Config.Due, Config.Index, Total;
    if step.Offer? && step.accepted {
      AcceptHolds(c, s, step.slot, t);
    } else {
      assert t.log == s.log && t.sent == s.sent;
      assert forall slot, k :: Logged(s, slot, k) ==> Logged(t, slot, k);
    }
  }

  lemma {:induction false} EveryRunHolds(c: Config, steps: seq<Step>)
    requires c.Valid() && Exec(c, steps).Some?
    ensures Inv(c, Exec(c, steps).value)
    decreases |steps|
  {
    hide Inv, Apply;
    if steps == [] {
      StartHolds(c);
    } else {
      var init := steps[..|steps| - 1];
      EveryRunHolds(c, init);
      StepHolds(c, Exec(c, init).value, steps[|steps| - 1], Exec(c, steps).value);
    }
  }

  // ----- one run

  lemma IndexIsInjective(c: Config, a: nat, k: nat, b: nat, l: nat)
    requires a < c.threads && b < c.threads && c.Index(a, k) == c.Index(b, l)
    ensures a == b && k == l
  {
    if k > l {
      LaterIsFar(c.threads, k, l);
    } else if k < l {
      LaterIsFar(c.threads, l, k);
    }
  }

  lemma IndexIsOnto(c: Config, n: nat)
    requires c.Valid()
    ensures n % c.threads < c.threads && c.Index(n % c.threads, n / c.threads) == n
  {
  }

  ghost predicate NoBatchTwice(s: State) {
    forall i, j | 0 <= i < j < |s.log| :: s.log[i].batchId != s.log[j].batchId
  }

  /** No batch is sent twice, none before it is due, and every stamp is the origin plus the
      scheduled offset however late the send was. */
  lemma SafeUnderEveryInterleaving(c: Config, s: State)
    requires c.Valid() && Reachable(c, s)
    ensures NoBatchTwice(s)
    ensures forall i | 0 <= i < |s.log| ::
              var n := s.log[i].batchId - c.first;
              n >= 0 && c.Due(n) <= s.log[i].at <= s.clock && s.log[i].stamp == c.origin + c.Due(n)
    ensures |s.log| == Total(s.sent)
  {
    hide Config.Due, Exec, Total;
    var steps :| Exec(c, steps) == Some(s);
    EveryRunHolds(c, steps);
    forall i, j | 0 <= i < j < |s.log| ensures s.log[i].batchId != s.log[j].batchId {
      var m, o := s.log[i], s.log[j];
      assert Faithful(c, m) && Faithful(c, o);
      if m.batchId == o.batchId {
        IndexIsInjective(c, m.slot, m.k, o.slot, o.k);
      }
    }
    forall i | 0 <= i < |s.log| ensures Faithful(c, s.log[i]) && s.log[i].at <= s.clock {
    }
  }

  ghost predicate IsSent(c: Config, s: State, n: nat) {
    exists i :: 0 <= i < |s.log| && s.log[i].batchId == c.first + n
  }

  /** Every index below the smallest next index of any thread has been sent. */
  lemma NoHoleBelowTheSlowest(c: Config, s: State, n: nat)
    requires c.Valid() && Reachable(c, s)
    requires forall slot | 0 <= slot < c.threads :: Shaped(c, s) && n < c.Index(slot, s.sent[slot])
    ensures IsSent(c, s, n)
  {
    hide Config.Due, Exec;
    var steps :| Exec(c, steps) == Some(s);
    EveryRunHolds(c, steps);
    var slot, k := n % c.threads, n / c.threads;
    IndexIsOnto(c, n);
    assert n < c.Index(slot, s.sent[slot]);
    if k >= s.sent[slot] {
      IndexIsMonotone(c, slot, s.sent[slot], k);
    }
    assert Logged(s, slot, k);
    var i :| 0 <= i < |s.log| && s.log[i].slot == slot && s.log[i].k == k;
    assert Faithful(c, s.log[i]);
  }

  lemma IndexIsMonotone(c: Config, slot: nat, k: nat, l: nat)
    requires k <= l
    ensures c.Index(slot, k) <= c.Index(slot, l)
  {
    assert (l - k) * c.threads >= 0;
  }

  /** A message is due in the microsecond in which its turn at the rate comes: never later, and less than
      one earlier. */
  lemma DueOnTime(c: Config, n: nat)
    requires c.Valid()
    ensures c.Due(n) * c.rate <= n * 1_000_000 < (c.Due(n) + 1) * c.rate
  {
    DivisionBounds(n * 1_000_000, c.rate);
  }

  /** The messages due within `e` microseconds are the first `DueBy(e)` and no others. */
  lemma DueByExactly(c: Config, n: nat, e: nat)
    requires c.Valid()
    ensures c.Due(n) <= e <==> n < c.DueBy(e)
  {
    var due, y := c.Due(n), (e + 1) * c.rate;
    DueOnTime(c, n);
    assert n * 1_000_000 < y <==> n < c.DueBy(e);
    if due <= e {
      assert (due + 1) * c.rate <= y by {
        Multiples(due + 1, e + 1, c.rate);
      }
    } else {
      assert due * c.rate >= y by {
        Multiples(e + 1, due, c.rate);
      }
    }
  }

  lemma Multiples(a: nat, b: nat, n: nat)
    requires a <= b
    ensures a * n <= b * n
  {
    assert (b - a) * n >= 0;
  }

  lemma {:induction false} Pigeons(log: seq<Message>, first: nat, bound: nat)
    requires forall i | 0 <= i < |log| :: first <= log[i].batchId < first + bound
    requires forall i, j | 0 <= i < j < |log| :: log[i].batchId != log[j].batchId
    ensures |log| <= bound
    decreases bound
  {
    if log != [] {
      SomeRoom(log, first, bound);
      var top := first + bound - 1;
      if i :| 0 <= i < |log| && log[i].batchId == top {
        var rest := log[..i] + log[i + 1..];
        assert forall j | 0 <= j < |rest| :: rest[j] == if j < i then log[j] else log[j + 1];
        Pigeons(rest, first, bound - 1);
      } else {
        Pigeons(log, first, bound - 1);
      }
    }
  }

  lemma SomeRoom(log: seq<Message>, first: nat, bound: nat)
    requires log != [] && forall i | 0 <= i < |log| :: first <= log[i].batchId < first + bound
    ensures bound > 0
  {
    assert first <= log[0].batchId < first + bound;
  }

  /** The offered load never runs ahead: after `e` microseconds at most `DueBy(e)` messages are out. */
  lemma NeverAheadOfSchedule(c: Config, s: State)
    requires c.Valid() && Reachable(c, s)
    ensures |s.log| <= c.DueBy(s.clock)
  {
    hide Config.Due, Config.DueBy;
    SafeUnderEveryInterleaving(c, s);
    forall i | 0 <= i < |s.log| ensures c.first <= s.log[i].batchId < c.first + c.DueBy(s.clock) {
      DueByExactly(c, s.log[i].batchId - c.first, s.clock);
    }
    Pigeons(s.log, c.first, c.DueBy(s.clock));
  }

  // ----- how late a thread ran

  /** How far behind its next message this thread is. */
  function Lateness(c: Config, s: State, slot: nat): int
    requires c.Valid() && Shaped(c, s) && slot < c.threads
  {
    s.clock - c.Due(c.Index(slot, s.sent[slot]))
  }

  /** The i-th step is a look of this thread at the clock, `d` microseconds behind its next message. */
  ghost predicate ReadLate(c: Config, steps: seq<Step>, slot: nat, i: nat, d: int)
    requires c.Valid() && slot < c.threads
  {
    && i < |steps| && steps[i] == Read(slot) && Exec(c, steps[..i]).Some?
    && Lateness(c, Exec(c, steps[..i]).value, slot) == d
  }

  lemma StepLag(c: Config, s: State, step: Step, t: State, slot: nat)
    requires c.Valid() && Shaped(c, s) && slot < c.threads && Apply(c, s, step) == Some(t)
    ensures step != Read(slot) ==> t.lag[slot] == s.lag[slot]
    ensures step == Read(slot) ==> t.lag[slot] >= s.lag[slot] && t.lag[slot] >= Lateness(c, s, slot)
                                   && (t.lag[slot] == s.lag[slot] || t.lag[slot] == Lateness(c, s, slot))
  {
    hide Config.Due, Config.Index;
  }

  /** In every run, the lag a thread reports is the largest lateness any of its looks at the clock found,
      and zero if it was never behind. */
  lemma {:induction false} LagIsLargest(c: Config, steps: seq<Step>, slot: nat)
    requires c.Valid() && slot < c.threads && Exec(c, steps).Some?
    ensures var lag := Exec(c, steps).value.lag[slot];
      && (forall i, d | ReadLate(c, steps, slot, i, d) :: d <= lag)
      && (lag == 0 || exists i :: ReadLate(c, steps, slot, i, lag))
    decreases |steps|
  {
    hide Apply, Lateness;
    if steps != [] {
      var n := |steps| - 1;
      var init := steps[..n];
      var s, lag := Exec(c, init).value, Exec(c, steps).value.lag[slot];
      LagIsLargest(c, init, slot);
      StepLag(c, s, steps[n], Exec(c, steps).value, slot);
      forall i: nat, d: int | i < n ensures ReadLate(c, steps, slot, i, d) <==> ReadLate(c, init, slot, i, d) {
        assert steps[..i] == init[..i];
      }
      if lag != s.lag[slot] {
        assert ReadLate(c, steps, slot, n, lag);
      } else if lag != 0 {
        var i :| ReadLate(c, init, slot, i, lag);
        assert ReadLate(c, steps, slot, i, lag);
      }
    }
  }

  // ----- the next run on the same topic

  /** The next run starts past the messages the topic holds: every one of this run's was delivered. */
  function NextFirst(c: Config, s: State): nat { c.first + |s.log| }

  /** No thread is a whole round ahead of what the others left unsent: each one's last index is
      below the number of messages sent. */
  predicate Balanced(c: Config, s: State)
    requires Shaped(c, s)
  {
    forall slot | 0 <= slot < c.threads && s.sent[slot] > 0 :: c.Index(slot, s.sent[slot] - 1) < Total(s.sent)
  }

  ghost predicate Disjoint(s: State, t: State) {
    forall i, j | 0 <= i < |s.log| && 0 <= j < |t.log| :: s.log[i].batchId != t.log[j].batchId
  }

  /** Every id the run sent lies below `first`. */
  predicate EndsBelow(c: Config, s: State, first: nat)
    requires Shaped(c, s)
  {
    forall slot | 0 <= slot < c.threads && s.sent[slot] > 0 :: c.first + c.Index(slot, s.sent[slot] - 1) < first
  }

  lemma BelowIsDisjoint(c: Config, s: State, d: Config, t: State)
    requires c.Valid() && Reachable(c, s) && Shaped(c, s) && EndsBelow(c, s, d.first)
    requires d.Valid() && Reachable(d, t)
    ensures Disjoint(s, t)
  {
    hide Config.Due, Exec, Total, Config.Index;
    var steps :| Exec(c, steps) == Some(s);
    EveryRunHolds(c, steps);
    SafeUnderEveryInterleaving(d, t);
    forall i | 0 <= i < |s.log| ensures s.log[i].batchId < d.first {
      var m := s.log[i];
      assert Faithful(c, m);
      IndexIsMonotone(c, m.slot, m.k, s.sent[m.slot] - 1);
    }
  }

  /** One thread sends `n` messages in a row. */
  function Burst(slot: nat, n: nat): seq<Step> {
    if n == 0 then [] else Burst(slot, n - 1) + [Look(slot, false), Read(slot), Offer(slot, true)]
  }

  lemma ExecOne(c: Config, before: seq<Step>, step: Step, s: State, t: State)
    requires c.Valid() && Exec(c, before) == Some(s) && Apply(c, s, step) == Some(t)
    ensures Exec(c, before + [step]) == Some(t)
  {
    hide Apply;
    assert (before + [step])[..|before + [step]| - 1] == before;
  }

  lemma OneSend(c: Config, before: seq<Step>, slot: nat, s: State) returns (t: State)
    requires c.Valid() && slot < c.threads && Exec(c, before) == Some(s)
    requires s.phase[slot] == Top && c.Due(c.Index(slot, s.sent[slot])) <= s.clock
    ensures Exec(c, before + [Look(slot, false), Read(slot), Offer(slot, true)]) == Some(t)
    ensures t.clock == s.clock && t.stop == s.stop && t.phase == s.phase
    ensures t.sent == s.sent[slot := s.sent[slot] + 1] && t.log == s.log + [Sent(c, s, slot)]
  {
    hide Config.Due, Config.Index, Exec;
    var u := Apply(c, s, Look(slot, false)).value;
    ExecOne(c, before, Look(slot, false), s, u);
    var v := Apply(c, u, Read(slot)).value;
    ExecOne(c, before + [Look(slot, false)], Read(slot), u, v);
    t := Apply(c, v, Offer(slot, true)).value;
    ExecOne(c, before + [Look(slot, false)] + [Read(slot)], Offer(slot, true), v, t);
    assert t.phase == s.phase;
    assert before + [Look(slot, false)] + [Read(slot)] + [Offer(slot, true)]
        == before + [Look(slot, false), Read(slot), Offer(slot, true)];
  }

  lemma {:induction false} BurstSends(c: Config, slot: nat, n: nat, late: nat) returns (s: State)
    requires c.Valid() && slot < c.threads && forall k | 0 <= k < n :: c.Due(c.Index(slot, k)) <= late
    ensures Exec(c, [Tick(late)] + Burst(slot, n)) == Some(s)
    ensures s.clock == late && s.phase == Start(c).phase && s.sent[slot] == n && Total(s.sent) == n
    ensures n > 0 ==> |s.log| > 0 && s.log[|s.log| - 1].batchId == c.first + c.Index(slot, n - 1)
  {
    hide Config.Due, Config.Index, Exec;
    var steps := [Tick(late)] + Burst(slot, n);
    if n == 0 {
      s := Start(c).(clock := late);
      TotalOfZeros(c.threads);
      ExecStart(c);
      ExecOne(c, [], Tick(late), Start(c), s);
      assert steps == [] + [Tick(late)];
    } else {
      var before := BurstSends(c, slot, n - 1, late);
      assert c.Due(c.Index(slot, n - 1)) <= late;
      TotalGrows(before.sent, slot);
      s := OneSend(c, [Tick(late)] + Burst(slot, n - 1), slot, before);
      assert steps == [Tick(late)] + Burst(slot, n - 1) + [Look(slot, false), Read(slot), Offer(slot, true)];
    }
  }

  lemma ExecStart(c: Config)
    requires c.Valid()
    ensures Exec(c, []) == Some(Start(c))
  {
  }

  lemma DueIsMonotone(c: Config, n: nat, m: nat)
    requires c.Valid() && n <= m
    ensures c.Due(n) <= c.Due(m)
  {
    var x, y := n * 1_000_000, m * 1_000_000;
    DivisionBounds(x, c.rate);
    DivisionBounds(y, c.rate);
    if x / c.rate > y / c.rate {
      LaterIsFar(c.rate, x / c.rate, y / c.rate);
    }
  }

  /** Any single index can be sent by some run. */
  lemma EveryIndexIsReachable(c: Config, n: nat) returns (s: State)
    requires c.Valid()
    ensures Reachable(c, s) && |s.log| > 0 && s.log[|s.log| - 1].batchId == c.first + n
  {
    hide Config.Due, Config.Index, Exec;
    var slot, k := n % c.threads, n / c.threads;
    IndexIsOnto(c, n);
    forall l | 0 <= l < k + 1 ensures c.Due(c.Index(slot, l)) <= c.Due(n) {
      IndexIsMonotone(c, slot, l, k);
      DueIsMonotone(c, c.Index(slot, l), n);
    }
    s := BurstSends(c, slot, k + 1, c.Due(n));
  }

  /** Whatever run starts from `d`, it repeats no id of `s`. */
  ghost predicate NeverRepeats(s: State, d: Config)
    requires d.Valid()
  {
    forall t | Reachable(d, t) :: Disjoint(s, t)
  }

  lemma RepeatsAbove(c: Config, s: State, slot: nat, d: Config)
    requires c.Valid() && Reachable(c, s) && Shaped(c, s) && d.Valid()
    requires slot < c.threads && s.sent[slot] > 0 && c.first + c.Index(slot, s.sent[slot] - 1) >= d.first
    ensures !NeverRepeats(s, d)
  {
    hide Config.Due, Config.Index, Exec, Total;
    var steps :| Exec(c, steps) == Some(s);
    EveryRunHolds(c, steps);
    assert Logged(s, slot, s.sent[slot] - 1);
    var i :| 0 <= i < |s.log| && s.log[i].slot == slot && s.log[i].k == s.sent[slot] - 1;
    assert Faithful(c, s.log[i]);
    var t := EveryIndexIsReachable(d, s.log[i].batchId - d.first);
    assert s.log[i].batchId == t.log[|t.log| - 1].batchId;
    assert !Disjoint(s, t);
  }

  /** A later run never repeats an id of an earlier one exactly when the earlier one ended below its start. */
  lemma NeverRepeatsExactly(c: Config, s: State, d: Config)
    requires c.Valid() && Reachable(c, s) && Shaped(c, s) && d.Valid()
    ensures NeverRepeats(s, d) <==> EndsBelow(c, s, d.first)
  {
    hide Config.Due, Config.Index, Reachable, Disjoint;
    if EndsBelow(c, s, d.first) {
      forall t | Reachable(d, t) ensures Disjoint(s, t) {
        BelowIsDisjoint(c, s, d, t);
      }
    } else {
      var slot :| 0 <= slot < c.threads && s.sent[slot] > 0 && c.first + c.Index(slot, s.sent[slot] - 1) >= d.first;
      RepeatsAbove(c, s, slot, d);
    }
  }

  /** Batch ids stay unique in the next run exactly when this one stopped balanced. */
  lemma DisjointIffBalanced(c: Config, s: State, d: Config)
    requires c.Valid() && Reachable(c, s) && Shaped(c, s) && d.Valid() && d.first == NextFirst(c, s)
    ensures NeverRepeats(s, d) <==> Balanced(c, s)
  {
    hide Config.Due, Config.Index, Exec, Total, NeverRepeats;
    NeverRepeatsExactly(c, s, d);
    var steps :| Exec(c, steps) == Some(s);
    EveryRunHolds(c, steps);
  }

  // ----- every earlier run

  /** The stop flag is up and every thread has left its loop: only then does another run start. */
  predicate Stopped(s: State) { s.stop && forall slot | 0 <= slot < |s.phase| :: s.phase[slot] == Gone }

  datatype Run = Run(c: Config, end: State)

  /** The messages the runs left in the topic. */
  function Held(runs: seq<Run>): nat {
    if runs == [] then 0 else Held(runs[..|runs| - 1]) + |runs[|runs| - 1].end.log|
  }

  /** Stopped runs, each started past the prefilled batches and all messages in the topic by then. */
  ghost predicate Campaign(batches: nat, runs: seq<Run>) {
    forall k | 0 <= k < |runs| ::
      && runs[k].c.Valid() && Reachable(runs[k].c, runs[k].end) && Stopped(runs[k].end)
      && Shaped(runs[k].c, runs[k].end)
      && runs[k].c.first == batches + Held(runs[..k])
  }

  /** A run started after the first `k` repeats no id of any of them, however it goes. */
  ghost predicate RepeatsNone(batches: nat, runs: seq<Run>, k: nat)
    requires k <= |runs|
  {
    forall d: Config, j | d.Valid() && d.first == batches + Held(runs[..k]) && 0 <= j < k ::
      NeverRepeats(runs[j].end, d)
  }

  lemma {:induction false} HeldGrows(runs: seq<Run>, j: nat, k: nat)
    requires j <= k <= |runs|
    ensures Held(runs[..j]) <= Held(runs[..k])
    decreases k
  {
    if j < k {
      assert runs[..k][..k - 1] == runs[..k - 1];
      HeldGrows(runs, j, k - 1);
    }
  }

  lemma HeldNext(runs: seq<Run>, k: nat)
    requires k < |runs|
    ensures Held(runs[..k + 1]) == Held(runs[..k]) + |runs[k].end.log|
  {
    assert runs[..k + 1][..k] == runs[..k];
  }

  /** No run of a campaign can repeat an id of any earlier run exactly when every run stopped balanced. */
  lemma DisjointFromEveryEarlier(batches: nat, runs: seq<Run>)
    requires Campaign(batches, runs)
    ensures (forall k | 0 <= k <= |runs| :: RepeatsNone(batches, runs, k))
       <==> forall k | 0 <= k < |runs| :: Balanced(runs[k].c, runs[k].end)
  {
    hide Reachable, Stopped, Balanced, NeverRepeats, Held;
    if forall k | 0 <= k < |runs| :: Balanced(runs[k].c, runs[k].end) {
      forall k | 0 <= k <= |runs| ensures RepeatsNone(batches, runs, k) {
        forall d: Config, j | d.Valid() && d.first == batches + Held(runs[..k]) && 0 <= j < k
          ensures NeverRepeats(runs[j].end, d)
        {
          HeldNext(runs, j);
          HeldGrows(runs, j + 1, k);
          BalancedEndsBelow(runs[j].c, runs[j].end, d.first);
          NeverRepeatsExactly(runs[j].c, runs[j].end, d);
        }
      }
    }
    if forall k | 0 <= k <= |runs| :: RepeatsNone(batches, runs, k) {
      forall k | 0 <= k < |runs| ensures Balanced(runs[k].c, runs[k].end) {
        HeldNext(runs, k);
        var d := Config(1, 1, 1, 0, batches + Held(runs[..k + 1]));
        assert RepeatsNone(batches, runs, k + 1);
        assert NeverRepeats(runs[k].end, d);
        DisjointIffBalanced(runs[k].c, runs[k].end, d);
      }
    }
  }

  lemma BalancedEndsBelow(c: Config, s: State, first: nat)
    requires c.Valid() && Reachable(c, s) && Shaped(c, s) && Balanced(c, s) && NextFirst(c, s) <= first
    ensures EndsBelow(c, s, first)
  {
    hide Config.Due, Config.Index, Exec, Total;
    var steps :| Exec(c, steps) == Some(s);
    EveryRunHolds(c, steps);
  }

  // ----- which loads can collide

  /** `producer_threads`: one thread for every 60,000 messages a second begun, and at least one. */
  function ThreadsFor(rate: nat): (n: nat)
    ensures n >= 1 && (n >= 2 <==> rate > 60_000)
  {
    var n := (rate + 59_999) / 60_000;
    if n < 1 then 1 else n
  }

  /** A configuration as the driver sizes it. */
  predicate Sized(c: Config) { c.Valid() && c.threads == ThreadsFor(c.rate) }

  lemma LoneThreadIsBalanced(c: Config, s: State)
    requires c.Valid() && c.threads == 1 && Shaped(c, s)
    ensures Balanced(c, s)
  {
    assert s.sent[..0] == [] && Total(s.sent[..0]) == 0;
    assert Total(s.sent) == s.sent[0];
  }

  /** The threads in turn see the stop flag. */
  function Looks(n: nat): seq<Step> { if n == 0 then [] else Looks(n - 1) + [Look(n - 1, true)] }

  lemma {:induction false} AllLook(c: Config, before: seq<Step>, s: State, n: nat) returns (t: State)
    requires c.Valid() && Exec(c, before) == Some(s) && s.stop && n <= c.threads
    requires s.phase == Start(c).phase
    ensures Exec(c, before + Looks(n)) == Some(t)
    ensures t == s.(phase := t.phase) && |t.phase| == c.threads
    ensures forall slot | 0 <= slot < c.threads :: t.phase[slot] == if slot < n then Gone else Top
  {
    hide Exec;
    if n == 0 {
      assert before + [] == before;
      t := s;
    } else {
      var u := AllLook(c, before, s, n - 1);
      t := u.(phase := u.phase[n - 1 := Gone]);
      ExecOne(c, before + Looks(n - 1), Look(n - 1, true), u, t);
      assert before + Looks(n - 1) + [Look(n - 1, true)] == before + Looks(n);
    }
  }

  /** One of several threads sends its first two messages before the others get a turn, and all see the
      stop flag. */
  lemma LopsidedRun(c: Config) returns (s: State)
    requires c.Valid() && c.threads >= 2
    ensures Reachable(c, s) && Stopped(s) && Shaped(c, s) && s.sent[0] == 2 && |s.log| == 2
  {
    hide Exec, Config.Due;
    var late := c.Due(c.Index(0, 1));
    DueIsMonotone(c, c.Index(0, 0), c.Index(0, 1));
    assert forall k | 0 <= k < 2 :: c.Due(c.Index(0, k)) <= late;
    var before := BurstSends(c, 0, 2, late);
    var steps := [Tick(late)] + Burst(0, 2);
    EveryRunHolds(c, steps);
    var halted := before.(stop := true);
    ExecOne(c, steps, Halt, before, halted);
    s := AllLook(c, steps + [Halt], halted, c.threads);
  }

  /** For a load of the driver's sizing, a run that lets the next one repeat an id exists exactly when the
      rate needs a second thread. */
  lemma CollidesExactly(c: Config, d: Config)
    requires Sized(c) && d.Valid() && d.first == c.first + 2
    ensures c.rate <= 60_000 ==> forall s | Reachable(c, s) && Shaped(c, s) :: Balanced(c, s)
    ensures c.rate > 60_000 ==> exists s :: Reachable(c, s) && Stopped(s) && |s.log| == 2 && !NeverRepeats(s, d)
  {
    hide Reachable, NeverRepeats, Balanced, Config.Due;
    if c.rate <= 60_000 {
      forall s | Reachable(c, s) && Shaped(c, s) ensures Balanced(c, s) {
        LoneThreadIsBalanced(c, s);
      }
    } else {
      var s := LopsidedRun(c);
      assert c.Index(0, 1) == c.threads;
      RepeatsAbove(c, s, 0, d);
    }
  }

  /** At 60,001 messages a second two threads share the load; one sends indices 0 and 2 within 34
      microseconds, and a next run can send batch 2 again. */
  lemma RunsCanCollide(d: Config)
    requires d.Valid() && d.first == 2
    ensures Sized(Config(2, 60_001, 8, 0, 0)) && Config(2, 60_001, 8, 0, 0).Due(2) == 33
    ensures exists s :: Reachable(Config(2, 60_001, 8, 0, 0), s) && Stopped(s) && |s.log| == 2 && !NeverRepeats(s, d)
  {
    hide Reachable, NeverRepeats;
    CollidesExactly(Config(2, 60_001, 8, 0, 0), d);
  }

  // ----- the loop of one thread

  /** What one thread sees on one turn of its loop. */
  datatype Glimpse = Glimpse(stop: bool, elapsed: nat, accepted: bool)

  /** The steps of the machine that one turn is. */
  function TurnSteps(c: Config, slot: nat, sent: nat, g: Glimpse): seq<Step>
    requires c.Valid()
  {
    if g.stop then [Look(slot, true)]
    else if g.elapsed < c.Due(c.Index(slot, sent)) then [Look(slot, false), Read(slot)]
    else [Look(slot, false), Read(slot), Offer(slot, g.accepted)]
  }

  function Then(c: Config, s: State, steps: seq<Step>): (r: Option<State>)
    requires c.Valid() && Shaped(c, s)
    ensures r.Some? ==> Shaped(c, r.value)
    decreases |steps|
  {
    if steps == [] then Some(s) else
      var t := Apply(c, s, steps[0]);
      if t.None? then None else Then(c, t.value, steps[1..])
  }

  class Producer {
    const c: Config
    const slot: nat
    var sent: nat
    var maxLagUs: nat
    var queue: seq<Message>

    constructor (c: Config, slot: nat)
      requires c.Valid() && slot < c.threads
      ensures this.c == c && this.slot == slot && sent == 0 && maxLagUs == 0 && queue == []
    {
      this.c, this.slot, sent, maxLagUs, queue := c, slot, 0, 0, [];
    }

    /** This thread's part of a state of the machine. */
    ghost predicate Mirrors(s: State)
      reads this
    {
      && c.Valid() && slot < c.threads && Shaped(c, s)
      && s.sent[slot] == sent && s.lag[slot] == maxLagUs
    }

    /** One turn of the loop: from any state in which this thread is at the top of its loop, the
        machine takes the turn's steps to the state this leaves behind, and logs what it queued. */
    method Turn(g: Glimpse, ghost s: State) returns (goOn: bool, ghost t: State)
      requires Mirrors(s) && s.phase[slot] == Top && s.clock == g.elapsed && (g.stop ==> s.stop)
      modifies this
      ensures Mirrors(t) && Then(c, s, TurnSteps(c, slot, old(sent), g)) == Some(t)
      ensures s.log <= t.log && queue == old(queue) + t.log[|s.log|..]
      ensures goOn == !g.stop && t.phase == s.phase[slot := if goOn then Top else Gone]
    {
      hide Config.Due, Config.Index, Then;
      ghost var steps := TurnSteps(c, slot, sent, g);
      if g.stop {
        t := s.(phase := s.phase[slot := Gone]);
        ThenOne(c, s, steps, t, t);
        return false, t;
      }
      ghost var u := Apply(c, s, steps[0]).value;
      var global := c.Index(slot, sent);
      var due := c.Due(global);
      if g.elapsed < due {
        t := Apply(c, u, steps[1]).value;
        ThenOne(c, u, steps[1..], t, t);
        ThenOne(c, s, steps, u, t);
        return true, t;
      }
      maxLagUs := Max(maxLagUs, g.elapsed - due);
      ghost var v := Apply(c, u, steps[1]).value;
      t := Apply(c, v, steps[2]).value;
      if g.accepted {
        queue := queue + [Message(slot, sent, g.elapsed, c.first + global, c.origin + due, global % c.partitions)];
        sent := sent + 1;
      }
      ThenOne(c, v, steps[1..][1..], t, t);
      ThenOne(c, u, steps[1..], v, t);
      ThenOne(c, s, steps, u, t);
      return true, t;
    }
  }

  lemma ThenOne(c: Config, s: State, steps: seq<Step>, t: State, u: State)
    requires c.Valid() && Shaped(c, s) && steps != [] && Apply(c, s, steps[0]) == Some(t)
    requires if |steps| == 1 then u == t else Then(c, t, steps[1..]) == Some(u)
    ensures Then(c, s, steps) == Some(u)
  {
    hide Apply;
  }
}
